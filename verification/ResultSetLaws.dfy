/** Laws of ResultSet: what its clients see of the driver's stream, up to whole CouchDB
    multi-query responses. */
module ResultSetLaws {
  import opened Json
  import opened Decoder
  import opened IterSpec
  import opened IterLaws
  import opened Driver
  import opened MultiSpec
  import opened MultiLaws
  import opened MultiTruncation
  import opened ResultSetSpec
  import opened Wrappers
  import RS = ResultSetSpec

  // ---------------------------------------------------------------------------
  // The stream itself
  // ---------------------------------------------------------------------------

  /** The rows before the first error or panic. */
  function StreamRows(feed: seq<Event>): seq<Row> {
    if feed == [] || feed[0].End? || feed[0].Crash? then []
    else if feed[0].RowEvent? then [feed[0].row] + StreamRows(feed[1..])
    else StreamRows(feed[1..])
  }

  /** The first error; None is a panic before any error. */
  function StreamEnd(feed: seq<Event>): Option<Error> {
    if feed == [] then Some(EOF)
    else match feed[0]
      case End(e, _) => Some(e)
      case Crash => None
      case _ => StreamEnd(feed[1..])
  }

  /** The first set with more rows in front. */
  function WithRows(rows: seq<Row>, sets: seq<ResultRows>): seq<ResultRows> {
    if sets == [] then [] else [sets[0].(rows := rows + sets[0].rows)] + sets[1..]
  }

  lemma {:induction false} WithRowsTwice(a: seq<Row>, b: seq<Row>, sets: seq<ResultRows>)
    ensures WithRows(a, WithRows(b, sets)) == WithRows(a + b, sets)
    ensures WithRows([], sets) == sets
  {
    if sets != [] {
      assert a + (b + sets[0].rows) == (a + b) + sets[0].rows;
      assert [] + sets[0].rows == sets[0].rows;
    }
  }

  /** The stream cut at every EOQ: one more set than there are EOQs.  Each set comes with the
      metadata of the end that closed it; behind any error but io.EOF that is still the
      metadata of the set before, `last`.  A set that ends in a panic is lost. */
  function Segments(feed: seq<Event>, last: Option<Metadata>): (sets: seq<ResultRows>)
    ensures StreamEnd(feed).Some? ==> sets != []
  {
    if feed == [] then [ResultRows([], Reported(Some(NO_ROWS_META)))]
    else match feed[0]
      case RowEvent(row) => WithRows([row], Segments(feed[1..], last))
      case Crash => []
      case EndOfQuery(m) => [ResultRows([], Reported(Some(m)))] + Segments(feed[1..], Some(m))
      case End(e, m) => [ResultRows([], Reported(if e == EOF then Some(m) else last))]
  }

  function Concat(sets: seq<ResultRows>): seq<Row> {
    if sets == [] then [] else sets[0].rows + Concat(sets[1..])
  }

  lemma {:induction false} ConcatWithRows(rows: seq<Row>, sets: seq<ResultRows>)
    ensures Concat(WithRows(rows, sets)) == if sets == [] then [] else rows + Concat(sets)
  {
    if sets != [] {
      assert WithRows(rows, sets)[1..] == sets[1..];
      assert rows + (sets[0].rows + Concat(sets[1..])) == (rows + sets[0].rows) + Concat(sets[1..]);
    }
  }

  /** The sets together are the flat sequence of rows, but for those of a set that is lost. */
  lemma {:induction false} PartitionIsFlattening(feed: seq<Event>, last: Option<Metadata>)
    ensures Concat(Segments(feed, last)) <= StreamRows(feed)
    ensures StreamEnd(feed).Some? ==> Concat(Segments(feed, last)) == StreamRows(feed)
  {
    if feed != [] {
      hide WithRows;
      match feed[0]
      case RowEvent(row) =>
        PartitionIsFlattening(feed[1..], last);
        ConcatWithRows([row], Segments(feed[1..], last));
      case EndOfQuery(m) => PartitionIsFlattening(feed[1..], Some(m));
      case End(_, _) | Crash =>
    }
  }

  // ---------------------------------------------------------------------------
  // A client that only calls Next
  // ---------------------------------------------------------------------------

  /** Closed by the stream's own error, with feed.Close and onClose called once more; or left as
      it was by the stream's panic. */
  predicate ClosedBy(st: State, st': State, end: Option<Error>) {
    match end
    case Some(e) =>
      && st'.phase.Closed? && st'.err == Some(Feed(e))
      && st'.feedCloses == st.feedCloses + 1 && st'.onCloses == st.onCloses + 1
    case None =>
      && st'.phase.Panicked? && st'.err == None
      && st'.feedCloses == st.feedCloses && st'.onCloses == st.onCloses
  }

  /** Iterator yields the rows in order across all result sets, asking before each further row
      whether to go on, until the rows are used up or the answer is no; either way the result
      set is closed, unless the driver panics, and an early stop is not an error. */
  lemma {:induction false} IteratorYieldsAllRows(goOn: seq<Row> -> bool, st: State, rows: seq<Row>)
    requires st.phase in {Ready, AtEOQ, RowReady} && st.err.None?
    ensures var (got, st') := Iterate(goOn, st, rows);
            && rows <= got <= rows + StreamRows(st.pending)
            && (forall k :: |rows| < k < |got| ==> goOn(got[..k]))
            && (if |got| > |rows| && !goOn(got)
                then ClosedEarly(st, st')
                else got == rows + StreamRows(st.pending) && ClosedBy(st, st', StreamEnd(st.pending)))
    decreases |st.pending|
  {
    IterateStep(goOn, st, rows);
    if st.pending != [] {
      hide Iterate;
      match st.pending[0]
      case RowEvent(row) =>
        var st1 := FeedNext(Release(st)).1.(phase := RowReady);
        if goOn(rows + [row]) {
          IteratorYieldsAllRows(goOn, st1, rows + [row]);
          YieldsOneMore(goOn, rows, row, StreamRows(st1.pending), Iterate(goOn, st1, rows + [row]).0);
        }
      case EndOfQuery(_) =>
        IteratorYieldsAllRows(goOn, FeedNext(Release(st)).1, rows);
      case End(_, _) | Crash =>
    }
  }

  /** The client was given a row and answered not to go on. */
  predicate Stopped(goOn: seq<Row> -> bool, rows: seq<Row>, got: seq<Row>) {
    |got| > |rows| && !goOn(got)
  }

  /** What Iterator reports at the end: the stream's error if that has been reached and is not
      io.EOF, and otherwise nothing.  So a stream that breaks is never taken for a complete one. */
  lemma {:induction false} IteratorReportsIff(goOn: seq<Row> -> bool, st: State, rows: seq<Row>, e: Error)
    requires st.phase in {Ready, AtEOQ, RowReady} && st.err.None?
    ensures var (got, st') := Iterate(goOn, st, rows);
            && (RS.Err(st') == Some(Feed(e)) <==>
                  got == rows + StreamRows(st.pending) && !Stopped(goOn, rows, got)
                  && StreamEnd(st.pending) == Some(e) && e != EOF)
            && (RS.Err(st') == None <==>
                  Stopped(goOn, rows, got) || StreamEnd(st.pending) == Some(EOF) || st'.phase.Panicked?)
  {
    hide Iterate, StreamRows, StreamEnd;
    IteratorYieldsAllRows(goOn, st, rows);
  }

  /** A result set that the context has closed reports the context's error, whatever is called
      afterwards, and Iterator yields no row of it and reports that error, too. */
  lemma {:induction false} ContextErrorIsReported(st: State, calls: seq<Call>, goOn: seq<Row> -> bool)
    requires Consistent(st) && !IsOver(st.phase) && st.err.None?
    ensures var st' := Run(CloseErr(st, Some(Cancelled)), calls).1;
            && RS.Err(st') == Some(Cancelled)
            && Iterate(goOn, st', []) == ([], st')
  {
    AnyClientSeesAPrefix(CloseErr(st, Some(Cancelled)), calls);
  }

  /** NextResultSet behind a plain Next fails, and that is reported, whatever is called
      afterwards. */
  lemma {:induction false} MisuseIsReported(st: State, calls: seq<Call>, goOn: seq<Row> -> bool)
    requires Consistent(st) && st.phase.RowReady? && st.err.None?
    ensures var (ok, st1) := NextResultSet(st);
            var st' := Run(st1, calls).1;
            && !ok
            && RS.Err(st') == Some(NextBeforeNextResultSet)
            && Iterate(goOn, st', []) == ([], st')
  {
    ErrorStays(NextResultSet(st).1, calls);
  }

  /** No call of a client replaces an error. */
  lemma {:induction false} ErrorStays(st: State, calls: seq<Call>)
    requires st.err.Some?
    ensures Run(st, calls).1.err == st.err
    decreases |calls|
  {
    if calls != [] {
      match calls[0]
      case CallNext => ErrorStays(RS.Next(st).1, calls[1..]);
      case CallNextResultSet => ErrorStays(NextResultSet(st).1, calls[1..]);
      case CallClose => ErrorStays(RS.Close(st), calls[1..]);
    }
  }

  /** Metadata is refused before the first call, while there is a row, and behind NextResultSet; it
      is given whenever Next has returned false, unless an error or a panic kept it from trying. */
  lemma {:induction false} MetadataOnlyBetweenSets(st: State, feed: seq<Event>)
    ensures RS.MetadataOf(RS.Fresh(feed)) == Refused
    ensures NextResultSet(st).0 ==> RS.MetadataOf(NextResultSet(st).1) == Refused
    ensures var (ok, st') := RS.Next(st);
            && (ok ==> RS.MetadataOf(st') == Refused)
            && (!ok && st.err.None? && !st'.phase.Panicked? ==> RS.MetadataOf(st') == Reported(st'.meta))
    ensures RS.MetadataOf(RS.Close(st)) == if st.phase.Panicked? then Refused else Reported(st.meta)
  {
    if st.err.None? {
      MetadataBehindNext(Release(st));
    }
  }

  lemma {:induction false} MetadataBehindNext(st: State)
    ensures var (ok, st') := IterNext(st);
            && (ok ==> RS.MetadataOf(st') == Refused)
            && (!ok && !st'.phase.Panicked? ==> RS.MetadataOf(st') == Reported(st'.meta))
    decreases |st.pending|
  {
    if !IsOver(st.phase) && st.pending != [] && st.pending[0].EndOfQuery? && !InResultSet(st.phase) {
      MetadataBehindNext(FeedNext(st).1);
    }
  }

  /** Iterator closes the attachments of each row once, in order, before the next row is read; on
      an early stop those of the last row yielded are left open. */
  lemma {:induction false} IteratorClosesAttachments(goOn: seq<Row> -> bool, st: State, rows: seq<Row>)
    requires st.phase in {Ready, AtEOQ, RowReady} && st.err.None?
    ensures var (got, st') := Iterate(goOn, st, rows);
            && rows <= got
            && st'.cur == (if |got| > |rows| && !goOn(got) then Some(got[|got| - 1]) else None)
            && Release(st').released == Release(st).released + got[|rows|..]
    decreases |st.pending|
  {
    IterateStep(goOn, st, rows);
    var (got, st') := Iterate(goOn, st, rows);
    hide Iterate;
    if st.pending != [] && st.pending[0].RowEvent? {
      var row := st.pending[0].row;
      var st1 := FeedNext(Release(st)).1.(phase := RowReady);
      assert Release(st1).released == Release(st).released + [row];
      if goOn(rows + [row]) {
        IteratorClosesAttachments(goOn, st1, rows + [row]);
        hide FeedNext;
        OneMoreReleased(Release(st).released, rows, row, got, Release(st').released);
      } else {
        assert got == rows + [row];
      }
    } else if st.pending != [] && st.pending[0].EndOfQuery? {
      IteratorClosesAttachments(goOn, FeedNext(Release(st)).1, rows);
      NothingToRelease(FeedNext(Release(st)).1);
    } else {
      assert got == rows;
      NothingToRelease(st');
    }
  }

  lemma {:induction false} OneMoreReleased(before: seq<Row>, rows: seq<Row>, row: Row, got: seq<Row>, released: seq<Row>)
    requires rows + [row] <= got && released == (before + [row]) + got[|rows + [row]|..]
    ensures rows <= got && released == before + got[|rows|..]
    ensures |got| == |rows| + 1 ==> got == rows + [row]
  {
    assert got[..|rows| + 1] == rows + [row];
    assert got[|rows|..] == [row] + got[|rows| + 1..];
  }

  lemma NothingToRelease(st: State)
    ensures st.cur.None? ==> Release(st) == st
  {
    assert st.released + [] == st.released;
  }

  /** What holds of the rows yielded behind `rows` and one more, holds behind `rows`. */
  lemma {:induction false} YieldsOneMore(goOn: seq<Row> -> bool, rows: seq<Row>, row: Row, rest: seq<Row>, got: seq<Row>)
    requires goOn(rows + [row]) && rows + [row] <= got <= rows + [row] + rest
    requires forall k :: |rows| + 1 < k < |got| ==> goOn(got[..k])
    ensures rows <= got <= rows + ([row] + rest)
    ensures forall k :: |rows| < k < |got| ==> goOn(got[..k])
    ensures |got| == |rows| + 1 ==> got == rows + [row]
    ensures rows + [row] + rest == rows + ([row] + rest)
  {
    assert rows + [row] + rest == rows + ([row] + rest);
    assert got[..|rows| + 1] == rows + [row];
  }

  /** What Iterator does with the next event. */
  lemma {:induction false} IterateStep(goOn: seq<Row> -> bool, st: State, rows: seq<Row>)
    requires st.phase in {Ready, AtEOQ, RowReady} && st.err.None?
    ensures var st1 := FeedNext(Release(st)).1;
            if st.pending == [] then
              Iterate(goOn, st, rows) == (rows, CloseErr(st1.(phase := RowReady, err := Some(Feed(EOF))), None))
            else match st.pending[0]
              case RowEvent(row) =>
                Iterate(goOn, st, rows) ==
                if goOn(rows + [row]) then Iterate(goOn, st1.(phase := RowReady), rows + [row])
                else (rows + [row], RS.Close(st1.(phase := RowReady)))
              case EndOfQuery(_) => Iterate(goOn, st, rows) == Iterate(goOn, st1, rows)
              case End(e, _) =>
                Iterate(goOn, st, rows) == (rows, CloseErr(st1.(phase := RowReady, err := Some(Feed(e))), None))
              case Crash => Iterate(goOn, st, rows) == (rows, st1.(phase := Panicked))
  {
    NothingToRelease(FeedNext(Release(st)).1);
  }

  // ---------------------------------------------------------------------------
  // A client that nests Next in NextResultSet
  // ---------------------------------------------------------------------------

  lemma {:induction false} SegmentsOfRow(row: Row, more: seq<Event>, last: Option<Metadata>)
    ensures Segments([RowEvent(row)] + more, last) == WithRows([row], Segments(more, last))
  {
    assert ([RowEvent(row)] + more)[1..] == more;
  }

  /** The rows of a set have been read, and it ended as the first segment says. */
  predicate ReadSegment(st: State, st': State, sets: seq<ResultRows>) {
    if sets == [] then StreamEnd(st.pending).None? && ClosedBy(st, st', None)
    else
      && RS.MetadataOf(st') == sets[0].meta
      && if st'.phase.Closed?
         then |sets| == 1 && StreamEnd(st.pending).Some? && ClosedBy(st, st', StreamEnd(st.pending))
         else && st'.phase.AtEOQ? && st'.err.None?
              && st'.feedCloses == st.feedCloses && st'.onCloses == st.onCloses
              && sets[1..] == Segments(st'.pending, st'.meta)
              && StreamEnd(st'.pending) == StreamEnd(st.pending)
  }

  lemma {:induction false} EndOfSegment(st: State, rows: seq<Row>)
    requires InResultSet(st.phase) && st.err.None? && (st.pending == [] || !st.pending[0].RowEvent?)
    ensures var sets := Segments(st.pending, st.meta);
            var (got, st') := RowsOfSet(st, rows);
            ReadSegment(st, st', sets) && (sets != [] ==> got == rows + sets[0].rows)
  {
    assert RowsOfSet(st, rows) == (rows, RS.Next(st).1);
    hide RowsOfSet;
  }

  /** Next, run until false within a result set, reads exactly the next segment, and the
      metadata is then that segment's; or it panics. */
  lemma {:induction false} OneSegment(st: State, rows: seq<Row>)
    requires InResultSet(st.phase) && st.err.None?
    ensures var sets := Segments(st.pending, st.meta);
            var (got, st') := RowsOfSet(st, rows);
            ReadSegment(st, st', sets) && (sets != [] ==> got == rows + sets[0].rows)
    decreases |st.pending|
  {
    if st.pending != [] && st.pending[0].RowEvent? {
      var row := st.pending[0].row;
      var st1 := FeedNext(Release(st)).1.(phase := ResultSetRowReady);
      assert RowsOfSet(st, rows) == RowsOfSet(st1, rows + [row]);
      assert [RowEvent(row)] + st1.pending == st.pending;
      SegmentsOfRow(row, st1.pending, st.meta);
      assert StreamEnd(st.pending) == StreamEnd(st1.pending);
      hide RowsOfSet, Segments, StreamEnd;
      OneSegment(st1, rows + [row]);
      var sets1 := Segments(st1.pending, st.meta);
      if sets1 != [] {
        assert rows + [row] + sets1[0].rows == rows + ([row] + sets1[0].rows);
      }
    } else {
      hide RowsOfSet, Segments, ReadSegment;
      EndOfSegment(st, rows);
    }
  }

  /** NextIterator delivers the segments, one result set each, asking after each whether to go
      on, until they are used up or the answer is no; either way the result set is closed once,
      unless the driver panics.  Its error is the stream's if that has been reached, and none
      otherwise. */
  lemma {:induction false} NextIteratorDeliversSegments(goOn: seq<ResultRows> -> bool, st: State, sets: seq<ResultRows>)
    requires st.phase in {Ready, ResultSetReady, ResultSetRowReady, AtEOQ} && st.err.None?
    ensures var (got, st') := ResultSets(goOn, st, sets);
            var all := sets + Segments(st.pending, st.meta);
            && sets <= got <= all
            && (forall k :: |sets| < k < |got| ==> goOn(got[..k]))
            && (got == all || (sets < got && !goOn(got)))
            && match StreamEnd(st.pending)
               case Some(e) => sets < got && if got == all then ClosedBy(st, st', Some(e)) else ClosedEarly(st, st')
               case None => if sets < got && !goOn(got) then ClosedEarly(st, st') else ClosedBy(st, st', None)
    decreases |st.pending|
  {
    hide ResultSets, RowsOfSet, StreamEnd, Segments;
    var st1 := NextResultSet(st).1;
    OneSegment(st1, []);
    ResultSetsStep(goOn, st, sets);
    var (rows, st2) := RowsOfSet(st1, []);
    var segments := Segments(st.pending, st.meta);
    if segments == [] {
      assert sets + segments == sets;
      return;
    }
    var sets' := sets + [ResultRows(rows, RS.MetadataOf(st2))];
    assert [] + segments[0].rows == segments[0].rows;
    assert ResultRows(rows, RS.MetadataOf(st2)) == segments[0];
    assert sets' + segments[1..] == sets + segments;
    if st2.phase.AtEOQ? && goOn(sets') {
      NextIteratorDeliversSegments(goOn, st2, sets');
      var got := ResultSets(goOn, st2, sets').0;
      assert got[..|sets'|] == sets' && (|got| == |sets'| ==> got == sets');
      assert sets < sets' <= got;
    }
  }

  /** Closed once by the client, without error. */
  predicate ClosedEarly(st: State, st': State) {
    && st'.phase.Closed? && st'.err == None
    && st'.feedCloses == st.feedCloses + 1 && st'.onCloses == st.onCloses + 1
  }

  /** One round of NextIterator. */
  lemma {:induction false} ResultSetsStep(goOn: seq<ResultRows> -> bool, st: State, sets: seq<ResultRows>)
    requires st.phase in {Ready, ResultSetReady, ResultSetRowReady, AtEOQ} && st.err.None?
    ensures var (rows, st2) := RowsOfSet(NextResultSet(st).1, []);
            var sets' := sets + [ResultRows(rows, RS.MetadataOf(st2))];
            ResultSets(goOn, st, sets) ==
            if st2.phase.Panicked? then (sets, st2)
            else if !goOn(sets') then (sets', RS.Close(st2))
            else if st2.err.Some? then (sets', st2)
            else ResultSets(goOn, st2, sets')
  {
    var (ok, st1) := NextResultSet(st);
    var (rows, st2) := RowsOfSet(st1, []);
    var sets' := sets + [ResultRows(rows, RS.MetadataOf(st2))];
    hide RowsOfSet;
    assert ResultSets(goOn, st, sets) == ResultSetsFrom(goOn, st1, sets);
    if goOn(sets') && !st2.phase.Panicked? {
      assert ResultSetsFrom(goOn, st1, sets) == ResultSets(goOn, st2, sets');
      assert st2.err.Some? ==> ResultSets(goOn, st2, sets') == (sets', st2);
    }
  }

  // ---------------------------------------------------------------------------
  // Any client
  // ---------------------------------------------------------------------------

  datatype Call = CallNext | CallNextResultSet | CallClose

  /** The rows a client sees that makes these calls, and where they leave the result set. */
  function Run(st: State, calls: seq<Call>): (seq<Row>, State)
    decreases |calls|
  {
    if calls == [] then ([], st)
    else match calls[0]
      case CallNext =>
        var (ok, st1) := RS.Next(st);
        var (rows, st') := Run(st1, calls[1..]);
        (if ok then [st1.cur.value] + rows else rows, st')
      case CallNextResultSet => Run(NextResultSet(st).1, calls[1..])
      case CallClose => Run(RS.Close(st), calls[1..])
  }

  predicate Consistent(st: State) {
    && st.feedCloses == st.onCloses == (if st.phase.Closed? then 1 else 0)
    && (st.err.Some? ==> st.phase.Closed? || st.err == Some(NextBeforeNextResultSet))
  }

  /** iter.next either delivers the stream's next row, or passes an EOQ, or closes with its error,
      or panics. */
  lemma {:induction false} IterNextIsFaithful(st: State)
    requires !IsOver(st.phase) && st.err.None?
    ensures var (ok, st') := IterNext(st);
            && (if ok then StreamRows(st.pending) == [st'.cur.value] + StreamRows(st'.pending)
                else if IsOver(st'.phase) then StreamRows(st.pending) == [] && ClosedBy(st, st', StreamEnd(st.pending))
                else StreamRows(st.pending) == StreamRows(st'.pending))
            && (!st'.phase.Closed? ==> st'.err.None? && st'.feedCloses == st.feedCloses && st'.onCloses == st.onCloses)
    decreases |st.pending|
  {
    if st.pending != [] && st.pending[0].EndOfQuery? && !InResultSet(st.phase) {
      IterNextIsFaithful(FeedNext(st).1);
    }
  }

  /** Whatever a client calls and in whatever order, it sees the rows of the stream in order,
      none twice and none skipped: what it has seen is a prefix, and while the result set is
      open the rest is still to come.  feed.Close and onClose have run once if it is closed,
      and never otherwise. */
  lemma {:induction false} AnyClientSeesAPrefix(st: State, calls: seq<Call>)
    requires Consistent(st)
    ensures var (rows, st') := Run(st, calls);
            && Consistent(st')
            && rows <= StreamRows(st.pending)
            && (!IsOver(st'.phase) ==> rows + StreamRows(st'.pending) == StreamRows(st.pending))
            && (IsOver(st.phase) ==> rows == [] && st'.phase == st.phase && st'.err == st.err)
    decreases |calls|
  {
    if calls != [] {
      match calls[0]
      case CallNext =>
        if !IsOver(st.phase) && st.err.None? {
          IterNextIsFaithful(Release(st));
        }
        AnyClientSeesAPrefix(RS.Next(st).1, calls[1..]);
      case CallNextResultSet => AnyClientSeesAPrefix(NextResultSet(st).1, calls[1..]);
      case CallClose => AnyClientSeesAPrefix(RS.Close(st), calls[1..]);
    }
  }

  // ---------------------------------------------------------------------------
  // From the JSON of a multi-query response to the client's result sets
  // ---------------------------------------------------------------------------

  /** What the client should see of one query. */
  function QueryRows(q: Query): ResultRows {
    ResultRows(Items(q.items), Reported(Some(QueryMeta(q))))
  }

  lemma {:induction false} SegmentsBehindRows(rows: seq<Row>, feed: seq<Event>, last: Option<Metadata>)
    ensures Segments(RowEvents(rows) + feed, last) == WithRows(rows, Segments(feed, last))
    decreases |rows|
  {
    hide Segments;
    if rows == [] {
      assert RowEvents(rows) + feed == feed;
      WithRowsTwice([], [], Segments(feed, last));
    } else {
      var more := RowEvents(rows[1..]) + feed;
      assert RowEvents(rows) + feed == [RowEvent(rows[0])] + more;
      hide RowEvents, WithRows;
      SegmentsOfRow(rows[0], more, last);
      SegmentsBehindRows(rows[1..], feed, last);
      WithRowsTwice([rows[0]], rows[1..], Segments(feed, last));
      assert [rows[0]] + rows[1..] == rows;
    }
  }

  lemma {:induction false} SegmentsOfQueries(qs: seq<Query>, e: Error, m: Metadata, last: Option<Metadata>)
    requires m == (if qs == [] then m else QueryMeta(qs[|qs| - 1])) && (qs == [] && e != EOF ==> last == Some(m))
    ensures Segments(QueryEvents(qs) + [End(e, m)], last)
            == seq(|qs|, i requires 0 <= i < |qs| => QueryRows(qs[i])) + [ResultRows([], Reported(Some(m)))]
    decreases |qs|
  {
    hide QueryMeta, Items;
    var end := [End(e, m)];
    if qs == [] {
      assert QueryEvents(qs) + end == end;
    } else {
      var rows := Items(qs[0].items);
      var qm := QueryMeta(qs[0]);
      var more := [EndOfQuery(qm)] + (QueryEvents(qs[1..]) + end);
      assert QueryEvents(qs) + end == RowEvents(rows) + more;
      assert more[1..] == QueryEvents(qs[1..]) + end;
      assert qs[1..] != [] ==> qs[1..][|qs[1..]| - 1] == qs[|qs| - 1];
      SegmentsOfQueries(qs[1..], e, m, Some(qm));
      SegmentsBehindRows(rows, more, last);
      assert rows + [] == rows;
    }
  }

  /** For every response `{"results":[Q1, ..., Qn], ...}` with n >= 1, a client that nests Next
      in NextResultSet is given one result set for each query, with that query's rows and
      metadata, and then one more, without rows, that repeats the last metadata; then the
      result set is closed, without error if closing the body reports none. */
  lemma {:induction false} QueriesArriveAsResultSets(src: Source, goOn: seq<ResultRows> -> bool, qs: seq<Query>,
      more: seq<Member>, tail: Lexemes)
    requires qs != [] && GoodQueries(src, qs) && forall sets :: goOn(sets)
    ensures var input := Lex(Obj([Member("results", Arr(QueryValues(qs)))] + more)) + tail;
            var feed := Deliver(src, input, Unstarted).events;
            var (sets, st) := ResultSets(goOn, RS.Fresh(feed), []);
            && sets == seq(|qs|, i requires 0 <= i < |qs| => QueryRows(qs[i]))
                       + [ResultRows([], Reported(Some(QueryMeta(qs[|qs| - 1]))))]
            && ClosedBy(RS.Fresh(feed), st, Some(CloseResult(src.closeError)))
            && (src.closeError == None ==> RS.Err(st) == None)
  {
    hide Deliver, QueryEvents, QueryMeta, QueryValues, Items, Lex, After, ReplyAfter;
    MultiQueriesEndToEnd(src, qs, more, tail);
    var e, m := CloseResult(src.closeError), QueryMeta(qs[|qs| - 1]);
    var feed := QueryEvents(qs) + [End(e, m)];
    NextIteratorDeliversSegments(goOn, RS.Fresh(feed), []);
    SegmentsOfQueries(qs, e, m, None);
    StreamEndOfQueries(qs, e, m);
    assert [] + Segments(feed, None) == Segments(feed, None);
  }

  lemma {:induction false} StreamEndOfQueries(qs: seq<Query>, e: Error, m: Metadata)
    ensures StreamEnd(QueryEvents(qs) + [End(e, m)]) == Some(e)
    decreases |qs|
  {
    hide QueryMeta, Items;
    var end := [End(e, m)];
    if qs == [] {
      assert QueryEvents(qs) + end == end;
    } else {
      var rows := Items(qs[0].items);
      var more := [EndOfQuery(QueryMeta(qs[0]))] + (QueryEvents(qs[1..]) + end);
      assert QueryEvents(qs) + end == RowEvents(rows) + more;
      assert more[1..] == QueryEvents(qs[1..]) + end;
      StreamEndOfQueries(qs[1..], e, m);
      StreamEndBehindRows(rows, more);
    }
  }

  lemma {:induction false} StreamEndBehindRows(rows: seq<Row>, feed: seq<Event>)
    ensures StreamEnd(RowEvents(rows) + feed) == StreamEnd(feed)
    decreases |rows|
  {
    if rows == [] {
      assert RowEvents(rows) + feed == feed;
    } else {
      StreamEndBehindRows(rows[1..], feed);
      assert (RowEvents(rows) + feed)[1..] == RowEvents(rows[1..]) + feed;
    }
  }

  // ---------------------------------------------------------------------------
  // Which bodies make a client panic
  // ---------------------------------------------------------------------------

  /** A reader's events have one error or panic, the last. */
  lemma {:induction false} OnlyTheLastEnds(src: Source, input: Lexemes, st: MultiState)
    ensures var d := Deliver(src, input, st);
            d.events != [] && (StreamEnd(d.events).None? <==> Crashes(d))
    decreases Remaining(input, st), if st.Reading? && st.rows.closed then 0 else 1
  {
    var (r, st') := MultiSpec.Next(src, input, st);
    DeliverStep(src, input, st);
    hide MultiSpec.Next, Deliver;
    if r.Row? || r.EOQ? {
      OnlyTheLastEnds(src, input, st');
      var d := Deliver(src, input, st');
      assert forall event :: ([event] + d.events)[1..] == d.events;
    }
  }

  /** For every body: a client that iterates over a multi-query response panics exactly if the
      body is a single brace. */
  lemma {:induction false} ClientPanicsIff(src: Source, input: Lexemes, goOn: seq<Row> -> bool)
    ensures Iterate(goOn, RS.Fresh(Deliver(src, input, Unstarted).events), []).1.phase.Panicked? <==> input == [LBrace]
  {
    var d := Deliver(src, input, Unstarted);
    CrashesIff(src, input);
    OnlyTheLastEnds(src, input, Unstarted);
    if input == [LBrace] {
      CutAtBrace(src);
      assert d.events == [Crash];
    }
    hide Deliver, Crashes, Iterate;
    IteratorYieldsAllRows(goOn, RS.Fresh(d.events), []);
  }
}
