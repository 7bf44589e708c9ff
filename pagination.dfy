/**
 * The pagination driver of table.go: List fetches a page of records, appends
 * them to the caller's list, and follows the page's offset cursor until a
 * page comes back with an empty one.
 *
 * The server is a finite sequence of transport answers, one per request in
 * the order the requests are made; some answer must end the run (an error,
 * or a page with an empty offset), since the source sets no page limit.
 */
module Pagination {
  import opened Wrappers
  import opened Reflect
  import opened Outcomes
  import opened Table

  /** The caller's slice, reached through `listPtr`. */
  class RecordList {
    var items: seq<Members>
  }

  /** The List options; `offset` is the unexported cursor List maintains. */
  class Options {
    var offset: string

    constructor ()
      ensures offset == ""
    {
      offset := "";
    }
  }

  /** How the answer to one List request turns out: the page it decodes to,
      or the error of the transport or of the decoder. */
  function PageStep(wire: Wire, reply: Result<string, string>): (s: Outcome<Page>)
    ensures reply.Failure? ==> s == Failed(Transport(reply.error))
    ensures reply.Success? && wire.decodePage(reply.value).Failure? ==>
              s == Failed(Codec(wire.decodePage(reply.value).error))
    ensures reply.Success? && wire.decodePage(reply.value).Success? ==>
              s == Done(wire.decodePage(reply.value).value)
  {
    match reply
    case Failure(e) => Failed(Transport(e))
    case Success(raw) =>
      match wire.decodePage(raw)
      case Failure(e) => Failed(Codec(e))
      case Success(page) => Done(page)
  }

  /** A transport answer that decodes to a page. */
  predicate Fetched(wire: Wire, reply: Result<string, string>) {
    PageStep(wire, reply).Done?
  }

  function PageOf(wire: Wire, reply: Result<string, string>): Page
    requires Fetched(wire, reply)
  {
    PageStep(wire, reply).value
  }

  /** An answer after which List makes no further request. */
  predicate Stops(wire: Wire, reply: Result<string, string>) {
    !Fetched(wire, reply) || PageOf(wire, reply).offset == ""
  }

  /** Some answer from index `from` on ends the run. */
  predicate Ends(wire: Wire, replies: seq<Result<string, string>>, from: nat) {
    exists i | from <= i < |replies| :: Stops(wire, replies[i])
  }

  /** The index of the answer that ends a run started at `from`. */
  function FirstStop(wire: Wire, replies: seq<Result<string, string>>, from: nat): (n: nat)
    requires Ends(wire, replies, from)
    ensures from <= n < |replies| && Stops(wire, replies[n])
    ensures forall j | from <= j < n :: Fetched(wire, replies[j]) && PageOf(wire, replies[j]).offset != ""
    decreases |replies| - from
  {
    if Stops(wire, replies[from]) then from else FirstStop(wire, replies, from + 1)
  }

  /** The records of the pages answering requests `lo` up to `hi`, in order. */
  function Collected(wire: Wire, replies: seq<Result<string, string>>, lo: nat, hi: nat): seq<Members>
    requires lo <= hi <= |replies|
    requires forall j | lo <= j < hi :: Fetched(wire, replies[j])
    decreases hi - lo
  {
    if lo == hi then [] else PageOf(wire, replies[lo]).records + Collected(wire, replies, lo + 1, hi)
  }

  /** What a List run produces: the records appended, the cursor carried by
      each request made, and how it ended. */
  datatype Run = Run(records: seq<Members>, cursors: seq<string>, result: Outcome<()>)

  /** The run of List from answer `from` on, starting with cursor `cursor`. */
  function Paginate(wire: Wire, replies: seq<Result<string, string>>, from: nat, cursor: string): (run: Run)
    requires Ends(wire, replies, from)
    ensures |run.cursors| == FirstStop(wire, replies, from) - from + 1
    ensures run.cursors[0] == cursor
    ensures !run.result.Aborted?
    decreases |replies| - from
  {
    var step := PageStep(wire, replies[from]);
    if !step.Done? then Run([], [cursor], step.PropagateFailure())
    else if step.value.offset == "" then Run(step.value.records, [cursor], Done(()))
    else
      var rest := Paginate(wire, replies, from + 1, step.value.offset);
      Run(step.value.records + rest.records, [cursor] + rest.cursors, rest.result)
  }

  /** One answer's worth of a run: what the answer at `i` contributes, and
      the run that continues after it. */
  lemma PaginateStep(wire: Wire, replies: seq<Result<string, string>>, i: nat, cursor: string)
    requires Ends(wire, replies, i)
    ensures var step, run := PageStep(wire, replies[i]), Paginate(wire, replies, i, cursor);
            && (!step.Done? ==> run == Run([], [cursor], step.PropagateFailure()))
            && (step.Done? && step.value.offset == "" ==> run == Run(step.value.records, [cursor], Done(())))
            && (step.Done? && step.value.offset != "" ==>
                  Ends(wire, replies, i + 1)
                  && var rest := Paginate(wire, replies, i + 1, step.value.offset);
                     run == Run(step.value.records + rest.records, [cursor] + rest.cursors, rest.result))
  {
  }

  /** List succeeds exactly when the answer that ends the run is a page; it
      then holds the records of every page in order. Otherwise it returns that
      answer's error and holds the records of the earlier pages only. */
  lemma {:induction false} PaginateOutcome(wire: Wire, replies: seq<Result<string, string>>, from: nat, cursor: string)
    requires Ends(wire, replies, from)
    ensures var stop, run := FirstStop(wire, replies, from), Paginate(wire, replies, from, cursor);
            && (run.result.Done? <==> Fetched(wire, replies[stop]))
            && (run.result.Done? ==> run.records == Collected(wire, replies, from, stop + 1))
            && (!run.result.Done? ==> run.records == Collected(wire, replies, from, stop))
            && (replies[stop].Failure? ==> run.result == Failed(Transport(replies[stop].error)))
            && (replies[stop].Success? && wire.decodePage(replies[stop].value).Failure? ==>
                  run.result == Failed(Codec(wire.decodePage(replies[stop].value).error)))
    decreases |replies| - from
  {
    var stop := FirstStop(wire, replies, from);
    if stop == from {
      if Fetched(wire, replies[from]) {
        assert Collected(wire, replies, from + 1, stop + 1) == [];
      }
    } else {
      assert Fetched(wire, replies[from]) && !Stops(wire, replies[from]);
      var page := PageOf(wire, replies[from]);
      PaginateOutcome(wire, replies, from + 1, page.offset);
      assert FirstStop(wire, replies, from + 1) == stop;
    }
  }

  /** The request after answer `i` carries the offset of the page that
      answer decoded to; every answer before the last was a page with a
      non-empty offset. */
  lemma {:induction false} PaginateCursors(wire: Wire, replies: seq<Result<string, string>>, from: nat, cursor: string)
    requires Ends(wire, replies, from)
    ensures var run, stop := Paginate(wire, replies, from, cursor), FirstStop(wire, replies, from);
            forall i | from <= i < stop :: run.cursors[i - from + 1] == PageOf(wire, replies[i]).offset
    decreases |replies| - from
  {
    var run, stop := Paginate(wire, replies, from, cursor), FirstStop(wire, replies, from);
    if stop > from {
      var page := PageOf(wire, replies[from]);
      var rest := Paginate(wire, replies, from + 1, page.offset);
      PaginateCursors(wire, replies, from + 1, page.offset);
      assert FirstStop(wire, replies, from + 1) == stop;
      assert run.cursors == [cursor] + rest.cursors;
      forall i | from <= i < stop
        ensures run.cursors[i - from + 1] == PageOf(wire, replies[i]).offset
      {
        if i > from {
          assert run.cursors[i - from + 1] == rest.cursors[i - (from + 1) + 1];
        }
      }
    }
  }

  /** A run of more than one request leaves a non-empty cursor behind: the
      offset of the last page that had one. Options reused for another List
      start from that cursor, not from the first page. */
  lemma LastCursor(wire: Wire, replies: seq<Result<string, string>>, from: nat, cursor: string)
    requires Ends(wire, replies, from)
    ensures var run, stop := Paginate(wire, replies, from, cursor), FirstStop(wire, replies, from);
            stop > from ==> run.cursors[|run.cursors| - 1] == PageOf(wire, replies[stop - 1]).offset != ""
  {
    PaginateCursors(wire, replies, from, cursor);
  }

  /** Three pages with offsets "a", "b" and "": three requests, carrying the
      cursors "", "a" and "b", and all records in arrival order. */
  lemma ThreePages(wire: Wire, replies: seq<Result<string, string>>, p0: seq<Members>, p1: seq<Members>, p2: seq<Members>)
    requires |replies| == 3 && replies[0].Success? && replies[1].Success? && replies[2].Success?
    requires wire.decodePage(replies[0].value) == Success(Page(p0, "a"))
    requires wire.decodePage(replies[1].value) == Success(Page(p1, "b"))
    requires wire.decodePage(replies[2].value) == Success(Page(p2, ""))
    ensures Ends(wire, replies, 0)
    ensures var run := Paginate(wire, replies, 0, "");
            run.records == p0 + p1 + p2 && run.cursors == ["", "a", "b"] && run.result == Done(())
  {
    assert Stops(wire, replies[2]);
    assert Ends(wire, replies, 1) && Ends(wire, replies, 2);
    var last := Paginate(wire, replies, 2, "b");
    assert last == Run(p2, ["b"], Done(()));
    var middle := Paginate(wire, replies, 1, "a");
    assert middle == Run(p1 + p2, ["a", "b"], Done(()));
    assert p0 + (p1 + p2) == p0 + p1 + p2;
  }

  function ListRequest(t: Table, wire: Wire, cursor: string): Request {
    Request(GET, MakePath(t, wire.escape, ""), None, cursor)
  }

  /** The requests a run sends, one per cursor. */
  function Requests(t: Table, wire: Wire, cursors: seq<string>): (rs: seq<Request>)
    ensures |rs| == |cursors|
    ensures forall i | 0 <= i < |cursors| :: rs[i] == ListRequest(t, wire, cursors[i])
  {
    seq(|cursors|, i requires 0 <= i < |cursors| => ListRequest(t, wire, cursors[i]))
  }

  /** Append one page's records to the caller's list, one by one, and store
      the grown slice back through the list pointer. */
  method AppendPage(list: RecordList, records: seq<Members>)
    modifies list
    ensures list.items == old(list.items) + records
  {
    var acc := list.items;
    var j := 0;
    while j < |records|
      invariant 0 <= j <= |records|
      invariant acc == list.items + records[..j]
    {
      acc := acc + [records[j]];
      j := j + 1;
    }
    assert records[..j] == records;
    list.items := acc;
  }

  /** One invocation of List on non-nil options: request a page with the
      current cursor, append its records, and move the cursor to the page's
      offset when there is one. */
  method FetchPage(t: Table, wire: Wire, list: RecordList, options: Options, reply: Result<string, string>)
    returns (request: Request, status: Outcome<()>, more: bool)
    modifies list, options
    ensures request == ListRequest(t, wire, old(options.offset))
    ensures var step := PageStep(wire, reply);
            && (!step.Done? ==> status == step.PropagateFailure() && !more
                                && list.items == old(list.items) && options.offset == old(options.offset))
            && (step.Done? ==> status == Done(()) && more == (step.value.offset != "")
                               && list.items == old(list.items) + step.value.records
                               && options.offset == (if more then step.value.offset else old(options.offset)))
  {
    request := ListRequest(t, wire, options.offset);
    if reply.Failure? {
      return request, Failed(Transport(reply.error)), false;
    }
    var decoded := wire.decodePage(reply.value);
    if decoded.Failure? {
      return request, Failed(Codec(decoded.error)), false;
    }
    var page := decoded.value;
    AppendPage(list, page.records);
    more := page.offset != "";
    if more {
      options.offset := page.offset;
    }
    status := Done(());
  }

  /** Midway through a run: the caller's list holds `start` and the records
      received so far, `cursors` were sent, and the run from answer `i` on,
      with `cursor`, supplies the rest. */
  ghost predicate Pending(wire: Wire, replies: seq<Result<string, string>>, i: nat, cursor: string,
                          start: seq<Members>, items: seq<Members>, cursors: seq<string>, run: Run)
  {
    Ends(wire, replies, i)
    && var rest := Paginate(wire, replies, i, cursor);
       start + run.records == items + rest.records && run.cursors == cursors + rest.cursors
       && run.result == rest.result
  }

  /** A run that has ended: everything it produces has been delivered. */
  ghost predicate Finished(start: seq<Members>, items: seq<Members>, cursors: seq<string>, result: Outcome<()>,
                           cursor: string, run: Run)
  {
    items == start + run.records && cursors == run.cursors && result == run.result
    && |run.cursors| > 0 && cursor == run.cursors[|run.cursors| - 1]
  }

  /** One page of a pending run: it either ends the run or leaves it pending
      one answer later, with the page's offset as the cursor. */
  lemma Advance(wire: Wire, replies: seq<Result<string, string>>, i: nat, cursor: string,
                start: seq<Members>, items: seq<Members>, cursors: seq<string>, run: Run)
    requires Pending(wire, replies, i, cursor, start, items, cursors, run)
    ensures var step := PageStep(wire, replies[i]);
            && (!step.Done? ==> Finished(start, items, cursors + [cursor], step.PropagateFailure(), cursor, run))
            && (step.Done? && step.value.offset == "" ==>
                  Finished(start, items + step.value.records, cursors + [cursor], Done(()), cursor, run))
            && (step.Done? && step.value.offset != "" ==>
                  Pending(wire, replies, i + 1, step.value.offset, start, items + step.value.records, cursors + [cursor], run))
  {
    PaginateStep(wire, replies, i, cursor);
    var step := PageStep(wire, replies[i]);
    if step.Done? && step.value.offset != "" {
      var rest := Paginate(wire, replies, i + 1, step.value.offset);
      assert items + (step.value.records + rest.records) == (items + step.value.records) + rest.records;
      assert cursors + ([cursor] + rest.cursors) == (cursors + [cursor]) + rest.cursors;
    }
  }

  lemma RequestsSnoc(t: Table, wire: Wire, cursors: seq<string>, cursor: string)
    ensures Requests(t, wire, cursors + [cursor]) == Requests(t, wire, cursors) + [ListRequest(t, wire, cursor)]
  {
  }

  /** List's pagination on non-nil options: fetch pages until one has an
      empty offset or a request fails, following each page's offset. */
  method FollowPages(t: Table, wire: Wire, list: RecordList, options: Options, replies: seq<Result<string, string>>)
    returns (sent: seq<Request>, result: Outcome<()>)
    requires Ends(wire, replies, 0)
    modifies list, options
    ensures var run := Paginate(wire, replies, 0, old(options.offset));
            && list.items == old(list.items) + run.records
            && sent == Requests(t, wire, run.cursors)
            && result == run.result
            && options.offset == run.cursors[|run.cursors| - 1]
  {
    ghost var run := Paginate(wire, replies, 0, options.offset);
    ghost var start := list.items;
    ghost var cursors: seq<string> := [];  // the cursors sent so far
    assert run.cursors == cursors + run.cursors;
    var i := 0;
    sent := [];
    result := Done(());
    var more := true;
    while more
      invariant sent == Requests(t, wire, cursors)
      invariant more ==> Pending(wire, replies, i, options.offset, start, list.items, cursors, run)
      invariant !more ==> Finished(start, list.items, cursors, result, options.offset, run)
      decreases |replies| - i + (if more then 1 else 0)
    {
      Advance(wire, replies, i, options.offset, start, list.items, cursors, run);
      RequestsSnoc(t, wire, cursors, options.offset);
      cursors := cursors + [options.offset];
      var request;
      request, result, more := FetchPage(t, wire, list, options, replies[i]);
      sent := sent + [request];
      if more {
        i := i + 1;
      }
    }
  }

  /** List: a nil `options` stands for fresh options; the caller's options
      are left with the cursor at the last offset followed. */
  method List(t: Table, wire: Wire, list: RecordList, options: Options?, replies: seq<Result<string, string>>)
    returns (sent: seq<Request>, result: Outcome<()>)
    requires Ends(wire, replies, 0)
    modifies list, options
    ensures var run := Paginate(wire, replies, 0, if options == null then "" else old(options.offset));
            && list.items == old(list.items) + run.records
            && sent == Requests(t, wire, run.cursors)
            && result == run.result
            && (options != null ==> options.offset == run.cursors[|run.cursors| - 1])
  {
    var opts := options;
    if opts == null {
      opts := new Options();
    }
    sent, result := FollowPages(t, wire, list, opts, replies);
  }
}
