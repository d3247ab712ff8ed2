/** What multiQueriesRows of couchdb/rows.go computes, as functions on its state. */
module MultiSpec {
  import opened Json
  import opened Decoder
  import opened IterSpec
  import opened Wrappers

  /** The response: the values that the row type accepts, what draining and closing the body
      reports, and what reading from the closed body does. */
  datatype Source = Source(accepts: Value -> bool, closeError: Option<Error>, afterClose: Error)

  /** Unstarted: no decoder yet.  Broken: begin failed before a row reader existed.  Closed: Close
      was called once; ClosedAgain: more than once, which Next does not recognise; `begun` says
      that it has then called begin on the closed body. */
  datatype MultiState =
    | Unstarted
    | Broken
    | Reading(rows: IterState, legacy: bool, queryIndex: nat)
    | Closed(last: Option<IterState>, legacy: bool)
    | ClosedAgain(last: Option<IterState>, legacy: bool, begun: bool)

  /** Panic: a nil row reader or decoder is dereferenced. */
  datatype Reply = Row(row: IterSpec.Row) | EOQ | Fail(error: Error) | Panic

  /** newRows, without a body of its own */
  function RowsConfig(src: Source): Config {
    Config("rows", false, NO_ROWS_META, src.accepts, false, None)
  }

  /** errors.As(err, &ud), for an unexpectedDelim anywhere in the chain */
  function AsUnexpectedDelim(e: Error): Option<Lexeme> {
    match e
    case UnexpectedDelim(d) => Some(d)
    case BadGateway(cause) => AsUnexpectedDelim(cause)
    case _ => None
  }

  /** begin */
  function Begin(src: Source, input: Lexemes): (r: (Option<Error>, MultiState))
    ensures r.0.None? ==> r.1.Reading?
    ensures r.1.Broken? || r.1.Reading?
    ensures r.1.Reading? ==> !r.1.rows.closed && |r.1.rows.cur.rest| <= |input|
  {
    var cfg := RowsConfig(src);
    var (e, c1) := ConsumeDelim(NewCursor(input), LBrace);
    if e.Some? then (e, Broken)
    else
      var (k, c2) := NextKey(c1);
      match k
      case Err(e) => (Some(e), Broken)
      case Ok(key) =>
        if key != "results" then
          var (e, c, m) := IterSpec.Begin(cfg, NewCursor([LBrace, Text(key)] + c2.rest), NO_ROWS_META);
          (e, Reading(IterState(c, true, false, m), true, 0))
        else
          var (e, c3) := ConsumeDelim(c2, LBracket);
          if e.Some? then (e, Broken)
          else
            var (e, c, m) := IterSpec.Begin(cfg, c3, NO_ROWS_META);
            (e, Reading(IterState(c, true, false, m), false, 0))
  }

  /** What is left of a reader that Close has closed. */
  function ClosedFrom(rows: IterState, legacy: bool): MultiState {
    Closed(Some(rows.(closed := true)), legacy)
  }

  /** Close, on the state */
  function Close(st: MultiState): MultiState {
    match st
    case Unstarted | Broken => Closed(None, false)
    case Reading(rows, legacy, _) => ClosedFrom(rows, legacy)
    case Closed(last, legacy) => ClosedAgain(last, legacy, false)
    case ClosedAgain(_, _, _) => st
  }

  /** nextQuery */
  function NextQuery(src: Source, st: MultiState): (r: (Option<Error>, MultiState))
    requires st.Reading?
    ensures !r.1.Broken? && (r.0.None? ==> r.1.Reading?)
    ensures r.1.Reading? && r.0.None? ==> |r.1.rows.cur.rest| < |st.rows.cur.rest|
  {
    if st.legacy then (Some(CloseResult(src.closeError)), ClosedFrom(st.rows, true))
    else
      var (e, c, m) := IterSpec.Begin(RowsConfig(src), st.rows.cur, NO_ROWS_META);
      if e.None? then (None, Reading(IterState(c, true, false, m), false, st.queryIndex + 1))
      else if AsUnexpectedDelim(e.value) == Some(RBracket) then
        (Some(CloseResult(src.closeError)), ClosedFrom(st.rows.(cur := c), false))
      else (e, st.(rows := st.rows.(cur := c)))
  }

  function Read(src: Source, st: MultiState): (r: (Reply, MultiState))
    requires st.Reading?
    ensures r.1.Reading? && !r.0.Panic?
    ensures r.0.Row? ==> |r.1.rows.cur.rest| < |st.rows.cur.rest|
    ensures r.0.EOQ? ==> |r.1.rows.cur.rest| <= |st.rows.cur.rest| && r.1.rows.closed
  {
    var (x, rows) := IterSpec.Next(RowsConfig(src), st.rows);
    match x
    case Ok(row) => (Row(row), st.(rows := rows))
    case Err(e) => (if e == EOF && !st.legacy then EOQ else Fail(e), st.(rows := rows))
  }

  /** Next */
  function Next(src: Source, input: Lexemes, st: MultiState): (r: (Reply, MultiState))
    ensures r.0.Row? || r.0.EOQ? ==> r.1.Reading?
  {
    match st
    case Closed(_, _) => (Fail(EOF), st)
    case ClosedAgain(None, _, begun) =>
      if begun then (Panic, st) else (Fail(BadGateway(src.afterClose)), st.(begun := true))
    case ClosedAgain(Some(_), legacy, _) => (if legacy then Fail(EOF) else Panic, st)
    case Broken => (Panic, st)
    case Unstarted =>
      var (e, st') := Begin(src, input);
      if e.Some? then (Fail(e.value), st') else Read(src, st')
    case Reading(rows, _, _) =>
      if rows.closed then
        var (e, st') := NextQuery(src, st);
        if e.Some? then (Fail(e.value), st') else Read(src, st')
      else Read(src, st)
  }

  /** There is a row reader, which Offset, TotalRows, UpdateSeq, Warning and Bookmark are promoted
      from; on a nil one they panic. */
  predicate HasRows(st: MultiState) {
    st.Reading? || ((st.Closed? || st.ClosedAgain?) && st.last.Some?)
  }

  /** The metadata that they report. */
  function MetadataOf(st: MultiState): Metadata
    requires HasRows(st)
  {
    if st.Reading? then st.rows.meta else st.last.value.meta
  }
}
