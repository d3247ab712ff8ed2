/** ResultSet of resultset.go, and the two range functions over it. */
module ResultSets {
  import opened Decoder
  import opened IterSpec
  import opened Driver
  import opened ResultSetSpec
  import opened Wrappers
  import Spec = ResultSetSpec

  class ResultSet {
    /** What feed.Close reports. */
    const closeError: Option<Error>
    var pending: seq<Event>
    var phase: Phase
    var err: Option<Failure>
    var cur: Option<Row>
    var meta: Option<Metadata>
    var released: seq<Row>
    var feedCloses: nat
    var onCloses: nat

    constructor (feed: seq<Event>, closeError: Option<Error>)
      ensures State() == Spec.Fresh(feed) && this.closeError == closeError
    {
      this.closeError := closeError;
      pending, phase, err, cur, meta, released, feedCloses, onCloses := feed, Ready, None, None, None, [], 0, 0;
    }

    function State(): Spec.State
      reads this
    {
      Spec.State(pending, phase, err, cur, meta, released, feedCloses, onCloses)
    }

    /** rowsIterator.Next */
    method FeedNext() returns (ev: Event)
      modifies this`pending, this`cur, this`meta
      ensures (ev, State()) == Spec.FeedNext(old(State()))
    {
      cur := None;
      if pending == [] {
        ev := End(EOF, NO_ROWS_META);
      } else {
        ev := pending[0];
        pending := pending[1..];
      }
      match ev
      case RowEvent(row) => cur := Some(row);
      case EndOfQuery(m) => meta := Some(m);
      case Crash =>
      case End(e, m) =>
        if e == EOF {
          meta := Some(m);
        }
    }

    method Next() returns (ok: bool)
      modifies this
      ensures (ok, State()) == Spec.Next(old(State()))
    {
      if err.Some? {
        return false;
      }
      if cur.Some? {
        released := released + [cur.value];
      } else {
        assert released + [] == released;
      }
      ok := IterNext();
    }

    /** iter.next: outside a result set, the end of a query is passed over. */
    method IterNext() returns (ok: bool)
      modifies this
      ensures (ok, State()) == Spec.IterNext(old(State()))
    {
      if IsOver(phase) {
        return false;
      }
      while true
        invariant !IsOver(phase) && phase == old(phase)
        invariant Spec.IterNext(State()) == Spec.IterNext(old(State()))
        decreases |pending|
      {
        var ev := FeedNext();
        if ev.EndOfQuery? {
          if InResultSet(phase) {
            phase, err := AtEOQ, None;
            return false;
          }
        } else if ev.Crash? {
          phase := Panicked;
          return false;
        } else {
          phase := if InResultSet(phase) then ResultSetRowReady else RowReady;
          err := if ev.End? then Some(Feed(ev.error)) else None;
          if err.Some? {
            var _ := CloseErr(None);
            return false;
          }
          return true;
        }
      }
    }

    /** closeErr: the error of feed.Close, from the first call only */
    method CloseErr(e: Option<Failure>) returns (failed: Option<Error>)
      modifies this
      ensures State() == Spec.CloseErr(old(State()), e)
      ensures failed == if IsOver(old(phase)) then None else closeError
    {
      if IsOver(phase) {
        return None;
      }
      phase := Closed;
      if err.None? {
        err := e;
      }
      feedCloses := feedCloses + 1;
      onCloses := onCloses + 1;
      return closeError;
    }

    method NextResultSet() returns (ok: bool)
      modifies this`phase, this`err
      ensures (ok, State()) == Spec.NextResultSet(old(State()))
    {
      if err.Some? || IsOver(phase) {
        return false;
      }
      if phase.RowReady? {
        err := Some(NextBeforeNextResultSet);
        return false;
      }
      phase := ResultSetReady;
      return true;
    }

    method Close() returns (failed: Option<Error>)
      modifies this
      ensures State() == Spec.Close(old(State()))
      ensures failed == if IsOver(old(phase)) then None else closeError
    {
      failed := CloseErr(None);
    }

    /** Iterator: gives every row to `yield`, which answers whether to go on, and at the end
        reports the error. */
    method Iterator(goOn: seq<Row> -> bool) returns (rows: seq<Row>, failure: Option<Failure>)
      modifies this
      ensures (rows, State()) == Spec.Iterate(goOn, old(State()), [])
      ensures failure == if err == Some(Feed(EOF)) then None else err
    {
      rows := [];
      ghost var start := State();
      var ok := Next();
      while ok
        invariant ok ==> err.None? && cur.Some?
        invariant Spec.Iterate(goOn, start, []) ==
                  if ok then Spec.IterateFrom(goOn, State(), rows) else (rows, State())
        decreases |pending|, ok
      {
        rows := rows + [cur.value];
        if !goOn(rows) {
          var _ := Close();
          break;
        }
        ok := Next();
      }
      failure := Spec.Err(State());
    }

    /** NextIterator with a body that runs Next until it returns false, asks for the metadata,
        and answers whether to go on. */
    method NextIterator(goOn: seq<ResultRows> -> bool) returns (sets: seq<ResultRows>)
      modifies this
      ensures (sets, State()) == Spec.ResultSets(goOn, old(State()), [])
    {
      sets := [];
      ghost var start := State();
      var ok := NextResultSet();
      while ok
        invariant ok ==> err.None? && phase.ResultSetReady?
        invariant Spec.ResultSets(goOn, start, []) ==
                  if ok then Spec.ResultSetsFrom(goOn, State(), sets) else (sets, State())
        decreases |pending| + (if IsOver(phase) then 0 else 1), ok
      {
        var rows := ReadSet();
        if phase.Panicked? {
          break;
        }
        sets := sets + [ResultRows(rows, Spec.MetadataOf(State()))];
        if !goOn(sets) {
          var _ := Close();
          break;
        }
        ok := NextResultSet();
      }
    }

    /** `for rs.Next()` within one result set. */
    method ReadSet() returns (rows: seq<Row>)
      modifies this
      ensures (rows, State()) == Spec.RowsOfSet(old(State()), [])
    {
      rows := [];
      ghost var begin := State();
      var row := Next();
      while row
        invariant row ==> cur.Some?
        invariant Spec.RowsOfSet(begin, []) ==
                  if row then Spec.RowsOfSet(State(), rows + [cur.value]) else (rows, State())
        decreases |pending|, row
      {
        rows := rows + [cur.value];
        row := Next();
      }
    }
  }
}
