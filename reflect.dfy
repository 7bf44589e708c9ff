/**
 * The part of Go's reflect package the record reflector relies on.
 *
 * A caller's record is a Go struct whose members are looked up by name at run
 * time. The model keeps a struct as a map from member name to a tagged dynamic
 * value; a member promoted from an embedded struct (the library's own
 * `Record{ID, CreatedTime}`) appears in the map under its own name, as
 * `FieldByName` finds it.
 */
module Reflect {
  import opened Wrappers

  /** The kinds of `reflect.Kind` the model tells apart. `Invalid` is the kind
      of the zero `reflect.Value`, which a failed lookup yields. */
  datatype Kind = Invalid | Bool | Int | Float64 | String | Slice | Map | Struct | Interface

  /** A Go value as reflection sees it. `IfaceVal` is a value held in a member
      (or variable) whose static type is an interface. `NilVal` is the nil
      interface: the content of an empty interface, or a `nil` in the ad hoc
      data of NewRecord; `reflect.ValueOf` of it is the zero Value. */
  datatype Value =
    | NilVal
    | BoolVal(b: bool)
    | IntVal(i: int)
    | FloatVal(f: real)
    | StringVal(s: string)
    | SliceVal(items: seq<Value>)
    | MapVal(entries: map<string, Value>)
    | StructVal(members: map<string, Value>)
    | IfaceVal(held: Value)

  /** The members of one struct value, by name. */
  type Members = map<string, Value>

  /** `reflect.Value`: `None` is the zero Value that `IsValid()` rejects. */
  type Reflected = Option<Value>

  /** Why reflection (or the library on top of it) aborts the process. */
  datatype Panic =
    | NotAStruct(kind: Kind)          // FieldByName on a Value whose kind is not Struct
    | CannotFindField(key: string)    // NewRecord: data names no member of Fields
    | TypeError(key: string, field: Kind, value: Kind)  // NewRecord: member and value kinds differ

  function KindOf(v: Value): Kind {
    match v
    case NilVal => Invalid
    case BoolVal(_) => Bool
    case IntVal(_) => Int
    case FloatVal(_) => Float64
    case StringVal(_) => String
    case SliceVal(_) => Slice
    case MapVal(_) => Map
    case StructVal(_) => Struct
    case IfaceVal(_) => Interface
  }

  function KindOfReflected(r: Reflected): Kind {
    if r.Some? then KindOf(r.value) else Invalid
  }

  /** `reflect.ValueOf(v)` for `v` of type `interface{}`: an interface never
      holds another interface, so the result is the concrete value inside. */
  function Dynamic(v: Value): (d: Value)
    ensures KindOf(d) != Interface
    ensures !v.IfaceVal? ==> d == v
  {
    if v.IfaceVal? then Dynamic(v.held) else v
  }

  /** `m[name]` as a reflected value: the zero Value when there is no such member. */
  function Member(m: Members, name: string): (r: Reflected)
    ensures r.Some? <==> name in m
    ensures r.Some? ==> r.value == m[name]
  {
    if name in m then Some(m[name]) else None
  }

  /** `v.FieldByName(name)`: panics unless `v` is a struct; otherwise the
      member, or the zero Value when the struct has no member of that name. */
  function FieldByName(v: Reflected, name: string): (r: Result<Reflected, Panic>)
    ensures r.Failure? <==> !(v.Some? && v.value.StructVal?)
    ensures r.Failure? ==> r.error == NotAStruct(KindOfReflected(v))
    ensures r.Success? ==> r.value == Member(v.value.members, name)
  {
    match v
    case Some(StructVal(m)) => Success(Member(m, name))
    case _ => Failure(NotAStruct(KindOfReflected(v)))
  }
}
