# A model of the airtable table client

The Go package `airtable` binds typed Go records to the tables of an
Airtable-like REST service. `table.go` is its table client. It finds a
record's `ID` and `Fields` members by reflection, wraps the `Fields` struct
in the `{"fields": ...}` request body, and writes an ad hoc name-to-value map
into a record's `Fields` (NewRecord). It builds the table and record paths,
and it drives Create, Delete, Update and the paging List over an HTTP
transport that it does not own.

This project models that client in Dafny and proves what each operation
does:

- `wrappers.dfy`: `Option` and `Result`.
- `reflect.dfy`: the part of `reflect` the client depends on. A struct is a
  map from member name to a tagged dynamic value. `reflect.Value` is an
  `Option<Value>`, so the zero Value is `None`. `FieldByName` panics on
  anything that is not a struct.
- `outcomes.dfy`: how an operation ends. It can return a value (`Done`),
  return an error (`Failed`), or panic (`Aborted`).
- `records.dfy`: getID, getFields, getJSONBody and NewRecord. NewRecord is a
  method over a `RecordRef` object, the caller's pointer. It walks the data
  map in an arbitrary order, like Go's map iteration, and overwrites members
  of `Fields` in place.
- `paths.dfy`: Go's `path.Join` and the `path.Clean` it applies, element by
  element: empty and `.` elements are dropped, and `..` removes the element
  before it.
- `table.dfy`: makePath, plus Create, Delete and Update. Each one is written
  around a transport reply and a `Wire`. The `Wire` holds the JSON encoder,
  the JSON parsers and the path escaper. All of these are uninterpreted.
  Decoding a parsed response into an existing record is modelled as
  `json.Unmarshal` does it: a struct keeps its members, the members the
  response names are decoded into, and a value of the wrong kind is skipped
  and reported. Create updates the caller's record in place, so it is a
  method.
- `pagination.dfy`: List. The caller's slice (`RecordList`) and the
  `Options` object are classes whose fields the methods update. The source
  calls itself recursively in tail position; the model writes that as a
  `while` loop (`FollowPages`). A recursive function, `Paginate`, specifies
  the whole run: the records appended, the cursor each request carried, and
  how the run ended. The server is a finite sequence of replies, one per
  request.

Two points where the code and the design description differ; the model
follows the code:

- The design says Update rejects a record with an empty ID before making any
  request. The code has no such check. After the correction described under
  Findings, an empty ID sends a PATCH to the bare table path.
- The design says a List cursor is internal state of one run. In the code,
  `options.offset` keeps the last non-empty offset after List returns.
  Options that are reused for a second List therefore start from that cursor
  (`Pagination.LastCursor`).

## Model

| member | source | states |
|---|---|---|
| `Records.GetID` | table.go:203-212 | getID panics exactly when the looked-up value is not a struct. It fails with "missing ID" exactly when there is no `ID` member, and with "ID not a string" exactly when `ID` is not a string. Otherwise it returns that string. |
| `Records.GetFields` | table.go:192-201 | getFields panics, fails with "missing Fields", or fails with "Fields not a struct" under the mirror conditions of getID. It succeeds exactly when `Fields` is a struct, and it returns that struct. |
| `Records.LookupsReadOneMember` | table.go:192-212 | getID depends only on the `ID` member. getFields depends only on the `Fields` member. |
| `Records.UnwrapEnvelope` | table.go:187 | The `{"fields": ...}` envelope is invertible. Stripping it returns exactly the encoded Fields. |
| `Records.GetJSONBody` | table.go:178-190 | A failure of getFields is passed through unchanged, and an encoder failure becomes a codec error. getJSONBody succeeds exactly when both steps succeed. Its body is then the envelope around the encoder's output. |
| `Records.NewRecord` | table.go:66-88 | NewRecord returns normally exactly when the data is empty, or when Fields is a struct and every entry names a member of the same kind. The record is then `Apply(old, data)`. Otherwise the panic it raises names a real defect of the record or the data, and the record is left with some subset of the entries written and nothing else changed. |
| `Records.Apply` | table.go:75-87 | After a normal NewRecord, every data entry's value is in Fields. Every other member of Fields, and every member outside Fields, is unchanged. |
| `Records.ApplyKeepsSchema` | table.go:86 | Writing entries never changes the record's schema. Fields stays a struct with the same member names and kinds. |
| `Records.ApplyIdempotent` | table.go:75-87 | Applying the same data twice gives the same record as applying it once. |
| `Records.ApplyInParts` | table.go:75-87 | Writing two disjoint parts of the data one after the other gives the same record as writing it all at once. So the map iteration order does not affect a normal return. |
| `Records.ApplyThenLookup` | table.go:75-87 | After NewRecord, getID returns what it returned before. getFields then succeeds and reads back every value written. |
| `Records.NilEntryIsTypeError` | table.go:77-84 | A nil data entry for an existing member makes NewRecord panic with a type error against kind Invalid. |
| `Records.ExplainedPanicIsFatal` | table.go:76-85 | Each panic NewRecord can raise (Fields missing or not a struct, unknown key, kind mismatch) rules out a normal return for that input. |
| `Table.MakePath` | table.go:108-114 | An empty id gives the escaped table name alone. A plain id (one path element, not `.` or `..`) under a plain table name gives the name, a slash and the id. |
| `Table.MakePathInjective` | table.go:108-114 | Within a plainly named table, different ids that are empty or plain give different paths. |
| `Table.MakePathDot` | table.go:110-113 | The id is not escaped, so path.Join's cleaning applies to it: the id `.` gives the table path itself. |
| `Table.MakePathCancel` | table.go:113 | The ids `x/../b` and `b` give the same path. |
| `Table.MakePathLeavesTable` | table.go:113 | The id `../b` gives the path `b`, which lies outside the table. |
| `Table.DecodeMembers` | table.go:100 | Decoding a response object into a record keeps exactly the record's member names and each member's kind. Members the response does not name are unchanged, and the others are decoded into. |
| `Table.DecodeIntoIdempotent` | table.go:100 | Decoding the same response twice leaves the same record as decoding it once. |
| `Table.DecodeIntoSelf` | table.go:100 | Decoding a value into an equal value changes nothing. |
| `Table.DecodeAdoptsServerID` | table.go:100 | For a record with a string `ID` member, a Create response that carries a string ID becomes the ID that getID reads afterwards. |
| `Table.DecodeAddsNoMembers` | table.go:100 | A record with no `ID` member still has none after the decode, so getID still fails with "missing ID". |
| `Table.Create` | table.go:91-101 | Create passes a getJSONBody failure through without sending anything. Otherwise it sends exactly one POST of that body to the table path, and passes the transport error or the parse error through, with the record unchanged. A parsed response is decoded into the record. Create then succeeds exactly when no value had the wrong kind for its member, and otherwise reports that error with the rest decoded. |
| `Table.Delete` | table.go:117-135 | Delete passes a getID failure through without sending anything. Otherwise it sends exactly one DELETE to the record's path. It fails with the transport or decoder error, or with "did not delete" when the server does not confirm the delete. It succeeds exactly when the server confirms, and it never panics. |
| `Table.DeleteWithEmptyID` | table.go:108-122 | A record whose ID is the empty string is deleted through the table path itself. |
| `Table.UpdateAsWritten` | table.go:46-60 | Update as written panics (FieldByName on an Interface-kind value) for every record, before any request is sent. |
| `Table.Update` | table.go:46-60 | Corrected Update passes a failure of getID or getJSONBody through without sending anything. Otherwise it sends exactly one PATCH of the body to the record's path. It succeeds exactly when the lookups and the transport succeed. |
| `Pagination.PageStep` | table.go:146-160 | One List request ends with its transport error, with its decoder error, or with the decoded page. |
| `Pagination.FirstStop` | table.go:146-175 | This is the index of the first reply after which List sends no further request. Every earlier reply was a page with a non-empty offset. |
| `Pagination.Paginate` | table.go:138-176 | A run sends one request per reply, up to and including the first reply that stops it. The first request carries the starting cursor. A List never panics. |
| `Pagination.PaginateOutcome` | table.go:146-175 | List succeeds exactly when the reply that ends the run is a page. The caller's list then gains the records of every page, in order. Otherwise List returns that reply's transport or decoder error, and the list keeps the records of every earlier page. |
| `Pagination.PaginateCursors` | table.go:170-173 | Each request after the first carries the offset of the page just received. |
| `Pagination.LastCursor` | table.go:170-174 | A run of more than one request leaves `options.offset` at the last page's non-empty offset. It is not reset. |
| `Pagination.ThreePages` | table.go:138-176 | Pages with offsets "a", "b" and "" lead to exactly three requests, with cursors "", "a" and "b". The caller's list gains all three pages' records in arrival order. |
| `Pagination.AppendPage` | table.go:162-168 | Appending a page adds its records to the end of the caller's slice, in order, and changes nothing else in it. |
| `Pagination.FetchPage` | table.go:146-174 | One List invocation sends its request with the current cursor. On an error it changes neither the list nor the cursor. On a page it appends the page's records, and it moves the cursor to the offset exactly when the offset is non-empty. |
| `Pagination.FollowPages` | table.go:146-175 | The paging loop leaves the caller's list, the requests sent, the result and the final cursor exactly as `Paginate` specifies, starting from the options' current cursor. |
| `Pagination.List` | table.go:138-176 | Nil options start the run with an empty cursor. Non-nil options start it with their current cursor, and afterwards hold the run's last cursor. |

## Left out

- The HTTP transport, which is not part of this model. Each operation receives the transport's reply (or error) as a parameter. List receives a sequence of replies, one per request.
- JSON encoding, JSON parsing and `url.PathEscape`. They are uninterpreted functions of the `Wire`. The only property of the escaper the lemmas use is one they assume: it returns a single plain path element.
- Get, which is not part of this model. It sends a GET to the record's path and decodes the reply into the caller's record, like the second half of Create.
- debugLog, the `typ` member of Options and `reflect.StructOf`. The last two only build List's decoding target.
- How `json.Unmarshal` matches object keys to member names (case-insensitively, and through struct tags). The parsed response is taken to name members by their Go names.
- JSON numbers converted between integer and float members, and decoding into pointers. Decoding compares kinds exactly.
- Slice and map members during decoding. A JSON array replaces a slice member whole. Go decodes the array's elements into the slice's existing elements, which differs when they are structs. The entries added to a map member are not checked against the map's element type.
- `Record.CreatedTime` and `time.Time`. Record members are the generic tagged values of `reflect.dfy`.
- Go map iteration order. NewRecord picks any unwritten key, and its contracts hold for every order.
- Record arguments that are not pointers. The lookups start from the value that `reflect.ValueOf(e).Elem()` yields, so the panic `Elem` raises on a non-pointer is not modelled.
- Records.NewRecord: assignment of a value whose kind matches but whose type does not, and assignment to an unexported member. These are further panics inside `reflect.Value.Set`, which the model does not raise.
- Ambiguous promoted members of embedded structs. A struct is modelled as a flat map of member names.
- Integer and float widths. Kinds are compared, and values are stored as given.
- Pagination.List and Pagination.FollowPages: the server must end the run with an error or an empty offset within the given replies. A server that never returns an empty offset makes the source page forever, which the model does not represent.
- The filter and sort parameters of Options. They pass unchanged to the transport.

## Findings

| source | as written | input that shows it | evidently intended | confidence | as-written member | corrected member |
|---|---|---|---|---|---|---|
| table.go:47-51 | Update hands getID and getJSONBody a pointer to its `interface{}` parameter, so `Elem()` yields an Interface-kind value and `FieldByName` panics | any record, e.g. a pointer to a struct with `ID: "rec1"` and a struct `Fields` | pass `record` itself, as Create and Delete do, and send one PATCH of the Fields body to the record's path | high, not executed | `Table.UpdateAsWritten` | `Table.Update` |
