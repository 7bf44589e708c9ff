/**
 * The table client of table.go: request paths, and the control flow of
 * Create, Delete and Update around an HTTP transport and a JSON codec that
 * the model does not implement.
 *
 * The transport's answer to a request is an input, `Result<string, string>`:
 * the response body, or the error the client reported. The codec and
 * `url.PathEscape` are functions supplied in a `Wire` value; `path.Join` is
 * the one of the `Paths` module.
 */
module Table {
  import opened Wrappers
  import opened Reflect
  import opened Outcomes
  import opened Records
  import opened Paths

  /** A table client, addressed by the table's name. */
  datatype Table = Table(name: string)

  /** The wire shape of a List response. */
  datatype Page = Page(records: seq<Members>, offset: string)

  /** The wire shape of a Delete response. */
  datatype DeleteResponse = DeleteResponse(deleted: bool, id: string)

  /** The collaborators the model leaves uninterpreted. */
  datatype Wire = Wire(
    escape: string -> string,                           // url.PathEscape
    marshal: Value -> Result<string, string>,           // json.Marshal
    decodeRecord: string -> Result<Members, string>,    // the JSON object of a record response
    decodeDeleted: string -> Result<DeleteResponse, string>,
    decodePage: string -> Result<Page, string>)

  datatype Verb = GET | POST | PATCH | DELETE

  /** A request handed to the transport. `offset` is the pagination cursor
      carried in the request's options; it is empty outside List. */
  datatype Request = Request(verb: Verb, path: string, body: Option<string>, offset: string)

  /** What an operation sent, and how it ended. */
  datatype Exchange = Exchange(sent: seq<Request>, result: Outcome<()>)

  /** makePath: the escaped table name, joined with the id when there is one.
      A plain id becomes a second path element. */
  function MakePath(t: Table, escape: string -> string, id: string): (p: string)
    ensures id == "" ==> p == escape(t.name)
    ensures Plain(escape(t.name)) && Plain(id) ==> p == escape(t.name) + "/" + id
  {
    var n := escape(t.name);
    if id == "" then n
    else if Plain(n) && Plain(id) then JoinPlain(n, id); Join(n, id)
    else Join(n, id)
  }

  /** Within one table, different plain ids (or none) give different paths. */
  lemma MakePathInjective(t: Table, escape: string -> string, a: string, b: string)
    requires Plain(escape(t.name))
    requires a == "" || Plain(a)
    requires b == "" || Plain(b)
    requires MakePath(t, escape, a) == MakePath(t, escape, b)
    ensures a == b
  {
    var n := escape(t.name);
    if a != "" && b != "" {
      var p := n + "/" + a;
      assert p[|n| + 1..] == a;
      assert (n + "/" + b)[|n| + 1..] == b;
    }
  }

  /** The id is not escaped and path.Join cleans it: the id "." addresses the
      table itself. */
  lemma MakePathDot(t: Table, escape: string -> string)
    requires Plain(escape(t.name))
    ensures MakePath(t, escape, ".") == MakePath(t, escape, "")
  {
    JoinDot(escape(t.name));
  }

  /** An id "x/../b" addresses the same record as "b". */
  lemma MakePathCancel(t: Table, escape: string -> string, x: string, b: string)
    requires Plain(escape(t.name)) && Plain(x) && Plain(b)
    ensures MakePath(t, escape, x + "/../" + b) == MakePath(t, escape, b)
  {
    JoinCancel(escape(t.name), x, b);
  }

  /** An id "../b" addresses `b`, a path outside the table. */
  lemma MakePathLeavesTable(t: Table, escape: string -> string, b: string)
    requires Plain(escape(t.name)) && Plain(b)
    ensures MakePath(t, escape, "../" + b) == b
  {
    JoinUp(escape(t.name), b);
  }

  // ---------------------------------------------------------------------------
  // Decoding a response into an existing record (json.Unmarshal)

  /** json.Unmarshal of the JSON value `incoming` into a location that holds
      `current` (JSON objects appear as `StructVal`, JSON null as `NilVal`):
      - into an interface: the decoded value;
      - null: clears a map or slice, leaves anything else alone;
      - an object into a struct: each member the object names is decoded into,
        names the struct lacks are ignored;
      - an object into a map: its entries are added;
      - a value of the location's kind replaces it;
      - a value of another kind is skipped (Unmarshal reports it at the end). */
  function DecodeInto(current: Value, incoming: Value): (r: Value)
    ensures KindOf(r) == KindOf(current)
    ensures current.StructVal? ==> r.members.Keys == current.members.Keys
    decreases incoming
  {
    if current.IfaceVal? then (if incoming.IfaceVal? then incoming else IfaceVal(incoming))
    else if incoming.NilVal? then
      (if current.MapVal? then MapVal(map[]) else if current.SliceVal? then SliceVal([]) else current)
    else if current.StructVal? && incoming.StructVal? then
      var c, i := current.members, incoming.members;
      StructVal(map k | k in c :: if k in i then DecodeInto(c[k], i[k]) else c[k])
    else if current.MapVal? && incoming.StructVal? then MapVal(current.entries + incoming.members)
    else if KindOf(current) == KindOf(incoming) then incoming
    else current
  }

  /** The decode meets no value of the wrong kind for its location. */
  predicate Assignable(current: Value, incoming: Value)
    decreases incoming
  {
    if current.IfaceVal? || incoming.NilVal? then true
    else if current.StructVal? && incoming.StructVal? then
      forall k | k in current.members && k in incoming.members ::
        Assignable(current.members[k], incoming.members[k])
    else if current.MapVal? && incoming.StructVal? then true
    else KindOf(current) == KindOf(incoming)
  }

  /** A record's members after a response object `incoming` is decoded into
      it: the record keeps its member names and kinds; a member the response
      names is decoded into, any other is left as it was. */
  function DecodeMembers(current: Members, incoming: Members): (r: Members)
    ensures r.Keys == current.Keys
    ensures forall k | k in current :: KindOf(r[k]) == KindOf(current[k])
    ensures forall k | k in current && k !in incoming :: r[k] == current[k]
    ensures forall k | k in current && k in incoming :: r[k] == DecodeInto(current[k], incoming[k])
  {
    DecodeInto(StructVal(current), StructVal(incoming)).members
  }

  /** Decoding `incoming` into the record meets no value of the wrong kind. */
  predicate MembersAssignable(current: Members, incoming: Members) {
    Assignable(StructVal(current), StructVal(incoming))
  }

  /** Decoding the same response twice leaves what decoding it once leaves. */
  lemma {:induction false} DecodeIntoIdempotent(current: Value, incoming: Value)
    ensures DecodeInto(DecodeInto(current, incoming), incoming) == DecodeInto(current, incoming)
    decreases incoming
  {
    if current.IfaceVal? || incoming.NilVal? {
    } else if current.StructVal? && incoming.StructVal? {
      var c, i := current.members, incoming.members;
      var once := DecodeInto(current, incoming);
      var twice := DecodeInto(once, incoming);
      forall k | k in i && k in c
        ensures DecodeInto(DecodeInto(c[k], i[k]), i[k]) == DecodeInto(c[k], i[k])
      {
        DecodeIntoIdempotent(c[k], i[k]);
      }
      assert twice.members == once.members;
    } else if current.MapVal? && incoming.StructVal? {
      assert current.entries + incoming.members + incoming.members == current.entries + incoming.members;
    } else if KindOf(current) == KindOf(incoming) {
      DecodeIntoSelf(incoming);
    }
  }

  /** Decoding a value into an equal value changes nothing. */
  lemma {:induction false} DecodeIntoSelf(v: Value)
    ensures DecodeInto(v, v) == v
    decreases v
  {
    if v.StructVal? {
      forall k | k in v.members
        ensures DecodeInto(v.members[k], v.members[k]) == v.members[k]
      {
        DecodeIntoSelf(v.members[k]);
      }
      assert DecodeInto(v, v).members == v.members;
    }
  }

  /** After decoding a response that carries a string ID into a record with a
      string ID, the record's ID is the response's, whatever it held before. */
  lemma DecodeAdoptsServerID(current: Members, incoming: Members, id: string)
    requires "ID" in current && current["ID"].StringVal?
    requires "ID" in incoming && incoming["ID"] == StringVal(id)
    ensures GetID(StructVal(DecodeMembers(current, incoming))) == Done(id)
  {
  }

  /** A record without an ID member still has none after the decode, so
      getID keeps failing whatever the response carries. */
  lemma DecodeAddsNoMembers(current: Members, incoming: Members)
    requires "ID" !in current
    ensures GetID(StructVal(DecodeMembers(current, incoming))) == Failed(MissingMember("ID"))
  {
  }

  // ---------------------------------------------------------------------------
  // Create, Delete, Update

  /** Create: send `{"fields": ...}` to the table path, then decode the
      response into the same record. A response that is not a JSON object
      leaves the record alone; a member value of the wrong kind is skipped
      and reported once the rest is decoded. */
  method Create(t: Table, wire: Wire, record: RecordRef, reply: Result<string, string>)
    returns (sent: seq<Request>, result: Outcome<()>)
    modifies record
    ensures var body := GetJSONBody(StructVal(old(record.members)), wire.marshal);
            && (!body.Done? ==> sent == [] && result == body.PropagateFailure())
            && (body.Done? ==> sent == [Request(POST, MakePath(t, wire.escape, ""), Some(body.value), "")])
            && (body.Done? && reply.Failure? ==> result == Failed(Transport(reply.error)))
            && (body.Done? && reply.Success? && wire.decodeRecord(reply.value).Failure? ==>
                  result == Failed(Codec(wire.decodeRecord(reply.value).error)))
            && (body.Done? && reply.Success? && wire.decodeRecord(reply.value).Success? ==>
                  record.members == DecodeMembers(old(record.members), wire.decodeRecord(reply.value).value)
                  && result == (if MembersAssignable(old(record.members), wire.decodeRecord(reply.value).value)
                                then Done(()) else Failed(Unassignable)))
            && (!(body.Done? && reply.Success? && wire.decodeRecord(reply.value).Success?) ==>
                  record.members == old(record.members))
  {
    var body := GetJSONBody(StructVal(record.members), wire.marshal);
    if !body.Done? {
      return [], body.PropagateFailure();
    }
    sent := [Request(POST, MakePath(t, wire.escape, ""), Some(body.value), "")];
    if reply.Failure? {
      return sent, Failed(Transport(reply.error));
    }
    var decoded := wire.decodeRecord(reply.value);
    if decoded.Failure? {
      return sent, Failed(Codec(decoded.error));
    }
    var assignable := MembersAssignable(record.members, decoded.value);
    record.members := DecodeMembers(record.members, decoded.value);
    result := if assignable then Done(()) else Failed(Unassignable);
  }

  /** The server's answer to a Delete says the record was deleted. */
  predicate Confirmed(wire: Wire, reply: Result<string, string>) {
    reply.Success? && wire.decodeDeleted(reply.value).Success? && wire.decodeDeleted(reply.value).value.deleted
  }

  /** Delete: send a DELETE for the record's ID and succeed only when the
      server confirms the deletion. */
  function Delete(t: Table, wire: Wire, record: Members, reply: Result<string, string>): (x: Exchange)
    ensures !GetID(StructVal(record)).Done? ==> x == Exchange([], GetID(StructVal(record)).PropagateFailure())
    ensures GetID(StructVal(record)).Done? ==>
              x.sent == [Request(DELETE, MakePath(t, wire.escape, GetID(StructVal(record)).value), None, "")]
    ensures x.result.Done? <==> GetID(StructVal(record)).Done? && Confirmed(wire, reply)
    ensures !x.result.Aborted?
    ensures GetID(StructVal(record)).Done? && reply.Failure? ==> x.result == Failed(Transport(reply.error))
    ensures GetID(StructVal(record)).Done? && reply.Success? && wire.decodeDeleted(reply.value).Failure? ==>
              x.result == Failed(Codec(wire.decodeDeleted(reply.value).error))
    ensures GetID(StructVal(record)).Done? && reply.Success? && wire.decodeDeleted(reply.value).Success?
            && !wire.decodeDeleted(reply.value).value.deleted ==>
              x.result == Failed(NotDeleted(reply.value))
  {
    match GetID(StructVal(record))
    case Done(id) =>
      var sent := [Request(DELETE, MakePath(t, wire.escape, id), None, "")];
      if reply.Failure? then Exchange(sent, Failed(Transport(reply.error)))
      else (match wire.decodeDeleted(reply.value)
        case Failure(e) => Exchange(sent, Failed(Codec(e)))
        case Success(d) =>
          if !d.deleted then Exchange(sent, Failed(NotDeleted(reply.value))) else Exchange(sent, Done(())))
    case Failed(e) => Exchange([], Failed(e))
    case Aborted(p) => Exchange([], Aborted(p))
  }

  /** A record whose ID is empty is deleted through the table path itself. */
  lemma DeleteWithEmptyID(t: Table, wire: Wire, record: Members, reply: Result<string, string>)
    requires "ID" in record && record["ID"] == StringVal("")
    ensures Delete(t, wire, record, reply).sent == [Request(DELETE, wire.escape(t.name), None, "")]
  {
  }

  /** The control flow of Update, given the value its lookups start from. */
  function UpdateOn(t: Table, wire: Wire, target: Value, reply: Result<string, string>): Exchange {
    match GetID(target)
    case Done(id) =>
      (match GetJSONBody(target, wire.marshal)
       case Done(body) =>
         Exchange([Request(PATCH, MakePath(t, wire.escape, id), Some(body), "")],
                  if reply.Failure? then Failed(Transport(reply.error)) else Done(()))
       case Failed(e) => Exchange([], Failed(e))
       case Aborted(p) => Exchange([], Aborted(p)))
    case Failed(e) => Exchange([], Failed(e))
    case Aborted(p) => Exchange([], Aborted(p))
  }

  /** Update as table.go:46-60 writes it: getID and getJSONBody receive
      `&record`, a pointer to the interface variable, so the value they look
      members up on has kind Interface and FieldByName panics. */
  function UpdateAsWritten(t: Table, wire: Wire, record: Members, reply: Result<string, string>): (x: Exchange)
    ensures x == Exchange([], Aborted(NotAStruct(Interface)))
  {
    UpdateOn(t, wire, IfaceVal(StructVal(record)), reply)
  }

  /** Update with the record itself passed to the lookups, as Create and
      Delete do: it fails exactly when getID or getJSONBody fails, and
      otherwise sends one PATCH of the Fields body to the record's path. */
  function Update(t: Table, wire: Wire, record: Members, reply: Result<string, string>): (x: Exchange)
    ensures var id, body := GetID(StructVal(record)), GetJSONBody(StructVal(record), wire.marshal);
            && (!id.Done? ==> x == Exchange([], id.PropagateFailure()))
            && (id.Done? && !body.Done? ==> x == Exchange([], body.PropagateFailure()))
            && (id.Done? && body.Done? ==>
                  x.sent == [Request(PATCH, MakePath(t, wire.escape, id.value), Some(body.value), "")])
            && (x.result.Done? <==> id.Done? && body.Done? && reply.Success?)
    ensures !x.result.Aborted?
  {
    UpdateOn(t, wire, StructVal(record), reply)
  }
}
