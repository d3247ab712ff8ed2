/** What ResultSet of resultset.go computes, with the iterator of iterator.go under it, as
    functions on its state. */
module ResultSetSpec {
  import opened Decoder
  import opened IterSpec
  import opened Driver
  import opened Wrappers

  /** stateReady to stateClosed of iterator.go; Panicked when a panic of the driver has passed
      through, behind which nothing more is said. */
  datatype Phase = Ready | ResultSetReady | ResultSetRowReady | AtEOQ | RowReady | Closed | Panicked

  /** The error that Err reports: the feed's, the context's, or NextResultSet's own. */
  datatype Failure = Feed(e: Error) | Cancelled | NextBeforeNextResultSet

  /** `pending` are the events the driver has still to deliver; a driver that has delivered
      all of them reports io.EOF.  `cur` is the current row, blank before the first one and
      after an error.  `released` are the rows whose attachments, if they have any, have been
      closed, in that order.  `feedCloses` and `onCloses` count the calls of feed.Close and
      onClose. */
  datatype State = State(
    pending: seq<Event>, phase: Phase, err: Option<Failure>,
    cur: Option<Row>, meta: Option<Metadata>, released: seq<Row>,
    feedCloses: nat, onCloses: nat)

  function Fresh(feed: seq<Event>): State {
    State(feed, Ready, None, None, None, [], 0, 0)
  }

  function CurrentRow(st: State): seq<Row> {
    match st.cur case None => [] case Some(row) => [row]
  }

  /** The attachments of the current row are closed. */
  function Release(st: State): State {
    st.(released := st.released + CurrentRow(st))
  }

  /** rowsIterator.Next: resets the row, asks the driver, and keeps the metadata at an end. */
  function FeedNext(st: State): (Event, State) {
    var ev := if st.pending == [] then End(EOF, NO_ROWS_META) else st.pending[0];
    var st' := st.(pending := if st.pending == [] then [] else st.pending[1..]);
    (ev, match ev
         case RowEvent(row) => st'.(cur := Some(row))
         case EndOfQuery(m) => st'.(cur := None, meta := Some(m))
         case Crash => st'.(cur := None)
         case End(e, m) => st'.(cur := None, meta := if e == EOF then Some(m) else st.meta))
  }

  predicate IsOver(p: Phase) {
    p.Closed? || p.Panicked?
  }

  /** closeErr */
  function CloseErr(st: State, err: Option<Failure>): State {
    if IsOver(st.phase) then st
    else
      st.(phase := Closed, err := if st.err.None? then err else st.err,
          feedCloses := st.feedCloses + 1, onCloses := st.onCloses + 1)
  }

  predicate InResultSet(p: Phase) {
    p.ResultSetReady? || p.ResultSetRowReady?
  }

  /** iter.next */
  function IterNext(st: State): (r: (bool, State))
    ensures r.0 ==> |r.1.pending| < |st.pending| && !IsOver(r.1.phase) && r.1.err.None? && r.1.cur.Some?
    ensures |r.1.pending| <= |st.pending|
    ensures !r.0 && !IsOver(r.1.phase) ==> |r.1.pending| < |st.pending|
    decreases |st.pending|
  {
    if IsOver(st.phase) then (false, st)
    else
      var (ev, st') := FeedNext(st);
      match ev
      case EndOfQuery(_) =>
        if InResultSet(st.phase) then (false, st'.(phase := AtEOQ, err := None)) else IterNext(st')
      case RowEvent(_) =>
        (true, st'.(phase := if InResultSet(st.phase) then ResultSetRowReady else RowReady, err := None))
      case End(e, _) =>
        var phase := if InResultSet(st.phase) then ResultSetRowReady else RowReady;
        (false, CloseErr(st'.(phase := phase, err := Some(Feed(e))), None))
      case Crash => (false, st'.(phase := Panicked))
  }

  /** ResultSet.Next, which first closes the attachments of the row before */
  function Next(st: State): (r: (bool, State))
    ensures r.0 ==> |r.1.pending| < |st.pending| && !IsOver(r.1.phase) && r.1.err.None? && r.1.cur.Some?
    ensures |r.1.pending| <= |st.pending|
    ensures !r.0 && !IsOver(r.1.phase) && st.err.None? ==> |r.1.pending| < |st.pending|
  {
    if st.err.Some? then (false, st) else IterNext(Release(st))
  }

  function NextResultSet(st: State): (bool, State) {
    if st.err.Some? || IsOver(st.phase) then (false, st)
    else if st.phase.RowReady? then (false, st.(err := Some(NextBeforeNextResultSet)))
    else (true, st.(phase := ResultSetReady))
  }

  function Close(st: State): State {
    CloseErr(st, None)
  }

  /** Err: io.EOF is not an error. */
  function Err(st: State): Option<Failure> {
    if st.err == Some(Feed(EOF)) then None else st.err
  }

  /** Metadata is refused until the iteration of a result set is complete; then it may still
      be nil. */
  datatype Meta = Refused | Reported(meta: Option<Metadata>)

  function MetadataOf(st: State): Meta {
    if st.phase.AtEOQ? || st.phase.Closed? then Reported(st.meta) else Refused
  }

  // ---------------------------------------------------------------------------
  // The range functions
  // ---------------------------------------------------------------------------

  /** Iterator, when `rows` have been yielded. */
  function Iterate(goOn: seq<Row> -> bool, st: State, rows: seq<Row>): (seq<Row>, State)
    decreases |st.pending|, 1
  {
    var (ok, st') := Next(st);
    if ok then IterateFrom(goOn, st', rows) else (rows, st')
  }

  function IterateFrom(goOn: seq<Row> -> bool, st: State, rows: seq<Row>): (seq<Row>, State)
    requires st.cur.Some?
    decreases |st.pending|, 2
  {
    var rows' := rows + [st.cur.value];
    if goOn(rows') then Iterate(goOn, st, rows') else (rows', Close(st))
  }

  /** What a client has of one result set: its rows, and the metadata it found at their end. */
  datatype ResultRows = ResultRows(rows: seq<Row>, meta: Meta)

  /** `for rs.Next()`, when `rows` have been read. */
  function RowsOfSet(st: State, rows: seq<Row>): (r: (seq<Row>, State))
    ensures |r.1.pending| <= |st.pending|
    ensures st.err.None? && !IsOver(r.1.phase) ==> |r.1.pending| < |st.pending|
    decreases |st.pending|
  {
    var (ok, st') := Next(st);
    if ok then RowsOfSet(st', rows + [st'.cur.value]) else (rows, st')
  }

  /** NextIterator with RowsOfSet as its body, when `sets` have been read; `goOn` answers for the
      body whether to go on. */
  function ResultSets(goOn: seq<ResultRows> -> bool, st: State, sets: seq<ResultRows>): (seq<ResultRows>, State)
    decreases |st.pending| + (if IsOver(st.phase) then 0 else 1), 1
  {
    var (ok, st') := NextResultSet(st);
    if ok then ResultSetsFrom(goOn, st', sets) else (sets, st')
  }

  function ResultSetsFrom(goOn: seq<ResultRows> -> bool, st: State, sets: seq<ResultRows>): (seq<ResultRows>, State)
    requires st.phase.ResultSetReady? && st.err.None?
    decreases |st.pending| + 1, 0
  {
    var (rows, st') := RowsOfSet(st, []);
    if st'.phase.Panicked? then (sets, st')
    else
      var sets' := sets + [ResultRows(rows, MetadataOf(st'))];
      if goOn(sets') then ResultSets(goOn, st', sets') else (sets', Close(st'))
  }
}
