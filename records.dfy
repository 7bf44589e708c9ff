/**
 * The record reflector of table.go: lookups of the well-known members `ID`
 * and `Fields` on a caller's record, the `{"fields": ...}` request body, and
 * NewRecord, which writes an ad hoc name-to-value map into a record's Fields.
 *
 * The lookups take the value `reflect.ValueOf(e).Elem()` that the Go code
 * starts from: a `StructVal` when the caller passed a pointer to a struct.
 */
module Records {
  import opened Wrappers
  import opened Reflect
  import opened Outcomes

  /** getID: the record's `ID` member, which must exist and be a string. */
  function GetID(target: Value): (r: Outcome<string>)
    ensures r.Aborted? <==> !target.StructVal?
    ensures r.Aborted? ==> r.panic == NotAStruct(KindOf(target))
    ensures r == Failed(MissingMember("ID")) <==> target.StructVal? && "ID" !in target.members
    ensures r == Failed(WrongKind("ID", String)) <==>
              target.StructVal? && "ID" in target.members && !target.members["ID"].StringVal?
    ensures r.Done? <==> target.StructVal? && "ID" in target.members && target.members["ID"].StringVal?
    ensures r.Done? ==> r.value == target.members["ID"].s
  {
    match FieldByName(Some(target), "ID")
    case Failure(p) => Aborted(p)
    case Success(None) => Failed(MissingMember("ID"))
    case Success(Some(id)) =>
      if KindOf(id) != String then Failed(WrongKind("ID", String)) else Done(id.s)
  }

  /** getFields: the record's `Fields` member, which must exist and be a struct. */
  function GetFields(target: Value): (r: Outcome<Value>)
    ensures r.Aborted? <==> !target.StructVal?
    ensures r.Aborted? ==> r.panic == NotAStruct(KindOf(target))
    ensures r == Failed(MissingMember("Fields")) <==> target.StructVal? && "Fields" !in target.members
    ensures r == Failed(WrongKind("Fields", Struct)) <==>
              target.StructVal? && "Fields" in target.members && !target.members["Fields"].StructVal?
    ensures r.Done? <==> target.StructVal? && HasFieldsStruct(target.members)
    ensures r.Done? ==> r.value == target.members["Fields"] && r.value.StructVal?
  {
    match FieldByName(Some(target), "Fields")
    case Failure(p) => Aborted(p)
    case Success(None) => Failed(MissingMember("Fields"))
    case Success(Some(f)) =>
      if KindOf(f) != Struct then Failed(WrongKind("Fields", Struct)) else Done(f)
  }

  /** getID and getFields each depend on their own member only. */
  lemma LookupsReadOneMember(m1: Members, m2: Members)
    ensures Member(m1, "ID") == Member(m2, "ID") ==> GetID(StructVal(m1)) == GetID(StructVal(m2))
    ensures Member(m1, "Fields") == Member(m2, "Fields") ==> GetFields(StructVal(m1)) == GetFields(StructVal(m2))
  {
  }

  // ---------------------------------------------------------------------------
  // The request body of Create and Update

  const EnvelopeHead: string := "{\"fields\": "

  /** The body getJSONBody formats around the encoded Fields. */
  function Envelope(fieldsJson: string): (body: string)
    ensures |body| == |EnvelopeHead| + |fieldsJson| + 1
    ensures body[..|EnvelopeHead|] == EnvelopeHead && body[|body| - 1] == '}'
  {
    EnvelopeHead + fieldsJson + "}"
  }

  /** The encoded Fields inside a body, when the body has the envelope's shape. */
  function Unwrap(body: string): (r: Option<string>)
    ensures r.Some? <==> |body| > |EnvelopeHead| && body[..|EnvelopeHead|] == EnvelopeHead && body[|body| - 1] == '}'
    ensures r.Some? ==> Envelope(r.value) == body
  {
    if |body| > |EnvelopeHead| && body[..|EnvelopeHead|] == EnvelopeHead && body[|body| - 1] == '}' then
      var inner := body[|EnvelopeHead|..|body| - 1];
      assert body == EnvelopeHead + inner + "}";
      Some(inner)
    else
      None
  }

  lemma UnwrapEnvelope(fieldsJson: string)
    ensures Unwrap(Envelope(fieldsJson)) == Some(fieldsJson)
  {
    var body := Envelope(fieldsJson);
    assert body[|EnvelopeHead|..|body| - 1] == fieldsJson;
  }

  /** getJSONBody: `{"fields": <marshal(Fields)>}`, or the failure of getFields
      or of the encoder (`marshal` stands for json.Marshal). */
  function GetJSONBody(target: Value, marshal: Value -> Result<string, string>): (r: Outcome<string>)
    ensures !GetFields(target).Done? ==> r == GetFields(target).PropagateFailure()
    ensures GetFields(target).Done? && marshal(GetFields(target).value).Failure? ==>
              r == Failed(Codec(marshal(GetFields(target).value).error))
    ensures r.Done? <==> GetFields(target).Done? && marshal(GetFields(target).value).Success?
    ensures r.Done? ==> Unwrap(r.value) == Some(marshal(GetFields(target).value).value)
  {
    var fields :- GetFields(target);
    match marshal(fields)
    case Failure(e) => Failed(Codec(e))
    case Success(b) => UnwrapEnvelope(b); Done(Envelope(b))
  }

  // ---------------------------------------------------------------------------
  // NewRecord

  /** A pointer to a caller's record struct. */
  class RecordRef {
    var members: Members
  }

  predicate HasFieldsStruct(m: Members) {
    "Fields" in m && m["Fields"].StructVal?
  }

  /** One entry of the ad hoc data can be written: Fields has a member of that
      name, and its kind is the kind of the value's dynamic type. */
  predicate Fits(fields: Members, k: string, v: Value) {
    k in fields && KindOf(fields[k]) == KindOf(Dynamic(v))
  }

  /** NewRecord returns normally exactly when this holds: no entry to write,
      or Fields is a struct that every entry fits. */
  predicate Applicable(m: Members, data: map<string, Value>) {
    data == map[] || (HasFieldsStruct(m) && forall k | k in data :: Fits(m["Fields"].members, k, data[k]))
  }

  function Restrict(data: map<string, Value>, keys: set<string>): (r: map<string, Value>)
    ensures r.Keys == data.Keys * keys
    ensures forall k | k in r :: r[k] == data[k]
  {
    map k | k in data && k in keys :: data[k]
  }

  /** Fields after every entry of `data` is written into it. */
  function Overwrite(fields: Members, data: map<string, Value>): (r: Members)
    requires forall k | k in data :: Fits(fields, k, data[k])
    ensures r.Keys == fields.Keys
    ensures forall k | k in data :: k in r && r[k] == Dynamic(data[k])
    ensures forall k | k in fields && k !in data :: r[k] == fields[k]
    ensures forall k | k in fields :: KindOf(r[k]) == KindOf(fields[k])
  {
    assert forall k | k in data :: Fits(fields, k, data[k]) && k in fields;
    map k | k in fields :: if k in data then Dynamic(data[k]) else fields[k]
  }

  lemma OverwriteNothing(fields: Members)
    ensures Overwrite(fields, map[]) == fields
  {
  }

  /** Writing one more entry into an already partly written Fields. */
  lemma OverwriteOneMore(fields: Members, data: map<string, Value>, done: set<string>, k: string)
    requires k in data && Fits(fields, k, data[k])
    requires forall j | j in data && j in done :: Fits(fields, j, data[j])
    ensures forall j | j in data && j in done + {k} :: Fits(fields, j, data[j])
    ensures Overwrite(fields, Restrict(data, done))[k := Dynamic(data[k])]
            == Overwrite(fields, Restrict(data, done + {k}))
  {
  }

  /** The record after a NewRecord that returns normally. */
  function Apply(m: Members, data: map<string, Value>): (r: Members)
    requires Applicable(m, data)
    ensures r.Keys == m.Keys
    ensures forall n | n in m && n != "Fields" :: r[n] == m[n]
    ensures data != map[] ==> HasFieldsStruct(r) && r["Fields"].members == Overwrite(m["Fields"].members, data)
  {
    if data == map[] then m else m["Fields" := StructVal(Overwrite(m["Fields"].members, data))]
  }

  /** A partly written record still has the schema it started with: Fields is a
      struct exactly when it was, with the same member names and kinds. */
  lemma ApplyKeepsSchema(m: Members, data: map<string, Value>)
    requires Applicable(m, data)
    ensures HasFieldsStruct(Apply(m, data)) <==> HasFieldsStruct(m)
    ensures !HasFieldsStruct(m) ==> Apply(m, data) == m
    ensures HasFieldsStruct(m) ==>
              var before, after := m["Fields"].members, Apply(m, data)["Fields"].members;
              after.Keys == before.Keys && forall k | k in before :: KindOf(after[k]) == KindOf(before[k])
  {
  }

  /** One more entry written into a partly written record. */
  lemma WriteOneMore(m: Members, data: map<string, Value>, done: set<string>, k: string)
    requires Applicable(m, Restrict(data, done)) && k in data
    requires HasFieldsStruct(Apply(m, Restrict(data, done)))
    requires Fits(Apply(m, Restrict(data, done))["Fields"].members, k, data[k])
    ensures Applicable(m, Restrict(data, done + {k}))
    ensures var now := Apply(m, Restrict(data, done));
            now["Fields" := StructVal(now["Fields"].members[k := Dynamic(data[k])])]
            == Apply(m, Restrict(data, done + {k}))
  {
    ApplyKeepsSchema(m, Restrict(data, done));
    var before := m["Fields"].members;
    if Restrict(data, done) == map[] {
      OverwriteNothing(before);
    }
    OverwriteOneMore(before, data, done, k);
  }

  /** Writing the same data a second time changes nothing. */
  lemma ApplyIdempotent(m: Members, data: map<string, Value>)
    requires Applicable(m, data)
    ensures Applicable(Apply(m, data), data)
    ensures Apply(Apply(m, data), data) == Apply(m, data)
  {
    if data != map[] {
      var once := Apply(m, data)["Fields"].members;
      assert forall k | k in data :: Fits(once, k, data[k]) by {
        forall k | k in data ensures Fits(once, k, data[k]) {
          assert Fits(m["Fields"].members, k, data[k]);
        }
      }
      assert Overwrite(once, data) == once;
    }
  }

  /** Writing two disjoint parts of the data one after the other is writing
      all of it at once: the order in which NewRecord walks the map does not
      matter to a normal return. */
  lemma ApplyInParts(m: Members, first: map<string, Value>, second: map<string, Value>)
    requires first.Keys !! second.Keys
    requires Applicable(m, first + second)
    ensures Applicable(m, first) && Applicable(Apply(m, first), second)
    ensures Apply(Apply(m, first), second) == Apply(m, first + second)
  {
    var all := first + second;
    if first != map[] {
      assert forall k | k in first :: Fits(m["Fields"].members, k, first[k]) by {
        forall k | k in first ensures Fits(m["Fields"].members, k, first[k]) {
          assert all[k] == first[k];
        }
      }
    }
    ApplyKeepsSchema(m, first);
    if second != map[] {
      var mid := Apply(m, first)["Fields"].members;
      assert forall k | k in second :: Fits(mid, k, second[k]) by {
        forall k | k in second ensures Fits(mid, k, second[k]) {
          assert all[k] == second[k];
          assert Fits(m["Fields"].members, k, all[k]);
        }
      }
      if first == map[] {
        assert all == second;
      } else {
        assert Overwrite(mid, second) == Overwrite(m["Fields"].members, all);
      }
    } else {
      assert all == first;
    }
  }

  /** NewRecord touches neither the record's identity nor anything outside
      Fields, and getFields afterwards reads back every value written. */
  lemma ApplyThenLookup(m: Members, data: map<string, Value>)
    requires Applicable(m, data) && data != map[]
    ensures GetID(StructVal(Apply(m, data))) == GetID(StructVal(m))
    ensures var r := GetFields(StructVal(Apply(m, data)));
            r.Done? && forall k | k in data :: k in r.value.members && r.value.members[k] == Dynamic(data[k])
  {
    LookupsReadOneMember(Apply(m, data), m);
  }

  /** The panic NewRecord raises is a true account of what is wrong with the
      record or the data. */
  predicate Explains(m: Members, data: map<string, Value>, p: Panic) {
    match p
    case NotAStruct(kind) =>
      data != map[] && !HasFieldsStruct(m) && kind == KindOfReflected(Member(m, "Fields"))
    case CannotFindField(k) =>
      HasFieldsStruct(m) && k in data && k !in m["Fields"].members
    case TypeError(k, fieldKind, valueKind) =>
      HasFieldsStruct(m) && k in data && k in m["Fields"].members
      && fieldKind == KindOf(m["Fields"].members[k]) && valueKind == KindOf(Dynamic(data[k]))
      && fieldKind != valueKind
  }

  /** Every panic NewRecord can explain rules out a normal return. */
  lemma ExplainedPanicIsFatal(m: Members, data: map<string, Value>, p: Panic)
    requires Explains(m, data, p)
    ensures !Applicable(m, data)
  {
    match p
    case NotAStruct(_) =>
    case CannotFindField(k) => assert !Fits(m["Fields"].members, k, data[k]);
    case TypeError(k, _, _) => assert !Fits(m["Fields"].members, k, data[k]);
  }

  /** A nil entry never fits: `reflect.ValueOf(nil)` has kind Invalid, which
      no member of Fields has, so NewRecord panics with a type error. */
  lemma NilEntryIsTypeError(m: Members, data: map<string, Value>, k: string)
    requires HasFieldsStruct(m) && k in data && data[k] == NilVal
    requires k in m["Fields"].members && KindOf(m["Fields"].members[k]) != Invalid
    ensures Explains(m, data, TypeError(k, KindOf(m["Fields"].members[k]), Invalid))
    ensures !Applicable(m, data)
  {
    ExplainedPanicIsFatal(m, data, TypeError(k, KindOf(m["Fields"].members[k]), Invalid));
  }

  /** What an aborted NewRecord can have left behind: some of the entries written,
      in whatever order the map was walked, and nothing else touched. */
  ghost predicate PartlyApplied(before: Members, after: Members, data: map<string, Value>) {
    exists done :: done <= data.Keys && Applicable(before, Restrict(data, done))
                   && after == Apply(before, Restrict(data, done))
  }

  /** NewRecord: write each entry of `data` into the record's Fields, walking
      `data` in no particular order; abort on an entry that names no member of
      Fields or whose kind differs from the member's. */
  method NewRecord(container: RecordRef, data: map<string, Value>) returns (abort: Option<Panic>)
    modifies container
    ensures abort.None? <==> Applicable(old(container.members), data)
    ensures abort.None? ==> container.members == Apply(old(container.members), data)
    ensures abort.Some? ==> Explains(old(container.members), data, abort.value)
    ensures abort.Some? ==> PartlyApplied(old(container.members), container.members, data)
  {
    var todo := data.Keys;
    ghost var done: set<string> := {};
    assert Restrict(data, done) == map[];
    while todo != {}
      invariant todo !! done && todo + done == data.Keys
      invariant Applicable(old(container.members), Restrict(data, done))
      invariant container.members == Apply(old(container.members), Restrict(data, done))
      decreases todo
    {
      var k :| k in todo;
      var fields := Member(container.members, "Fields");
      var val := Dynamic(data[k]);
      ApplyKeepsSchema(old(container.members), Restrict(data, done));
      assert PartlyApplied(old(container.members), container.members, data) by {
        assert done <= data.Keys;
      }
      match FieldByName(fields, k)
      case Failure(p) =>
        assert Explains(old(container.members), data, p) by {
          assert Restrict(data, done) == map[];
        }
        ExplainedPanicIsFatal(old(container.members), data, p);
        return Some(p);
      case Success(None) =>
        assert Explains(old(container.members), data, CannotFindField(k));
        ExplainedPanicIsFatal(old(container.members), data, CannotFindField(k));
        return Some(CannotFindField(k));
      case Success(Some(f)) =>
        if KindOf(f) != KindOf(val) {
          assert Explains(old(container.members), data, TypeError(k, KindOf(f), KindOf(val)));
          ExplainedPanicIsFatal(old(container.members), data, TypeError(k, KindOf(f), KindOf(val)));
          return Some(TypeError(k, KindOf(f), KindOf(val)));
        }
        WriteOneMore(old(container.members), data, done, k);
        container.members := container.members["Fields" := StructVal(fields.value.members[k := val])];
      todo := todo - {k};
      done := done + {k};
    }
    assert Restrict(data, done) == data;
    return None;
  }
}
