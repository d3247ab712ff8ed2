/** What the streaming row reader of couchdb/iter.go computes, with the metadata parsers of
    couchdb/rows.go, couchdb/changes.go and couchdb/client.go, as functions on its state. */
module IterSpec {
  import opened Json
  import opened Decoder
  import opened Wrappers

  /** What a reader is configured with.  `meta` is the metadata it starts from.  `accepts` says
      which values the parser's row type accepts; decoding any other value consumes it and
      reports a type mismatch.  `wraps` says that the parser wraps the errors of decoding a row,
      and `closeError` is what closing the body reports. */
  datatype Config = Config(
    expectedKey: string, objMode: bool, meta: Metadata, accepts: Value -> bool, wraps: bool,
    closeError: Option<Error>)

  /** A row of a keyed array, or an entry of a top-level object (object mode). */
  datatype Row = Item(value: Value) | Entry(key: string, value: Value)

  /** The metadata that a reader collects: none, rowsMeta, changesMeta or updatesMeta. */
  datatype Metadata =
    | NilMeta
    | RowsMeta(offset: int, totalRows: int, updateSeq: Option<Value>, warning: string, bookmark: string)
    | ChangesMeta(lastSeq: Option<Value>, pending: int)
    | UpdatesMeta(lastID: string)

  const NO_ROWS_META := RowsMeta(0, 0, None, "", "")

  datatype IterState = IterState(cur: Cursor, begun: bool, closed: bool, meta: Metadata)

  function Fresh(cfg: Config, body: Lexemes): IterState {
    IterState(NewCursor(body), false, false, cfg.meta)
  }

  /** What a reader reports that has read everything: io.EOF, unless closing the body fails. */
  function CloseResult(closeError: Option<Error>): Error {
    match closeError case Some(e) => e case None => EOF
  }

  /** Decoding into an int64 field; null leaves the field alone. */
  function DecodeInt64(field: int, v: Value): Result<int> {
    if v == Atom(Null) then Ok(field)
    else if v.Atom? && v.a.Int? && -0x8000_0000_0000_0000 <= v.a.n < 0x8000_0000_0000_0000 then Ok(v.a.n)
    else Err(Mismatch)
  }

  /** Decoding into a string field; null leaves the field alone. */
  function DecodeString(field: string, v: Value): Result<string> {
    if v == Atom(Null) then Ok(field) else if v.Str? then Ok(v.s) else Err(Mismatch)
  }

  /** One metadata member: a known key sets its field, any other is discarded. */
  function SetMeta(m: Metadata, key: string, v: Value): (r: Result<Metadata>)
    ensures r.Ok? ==> (r.value.NilMeta? <==> m.NilMeta?)
    ensures r.Err? ==> r.error == Mismatch
  {
    match m
    case NilMeta => Ok(m)
    case RowsMeta(_, _, _, _, _) => SetRowsMeta(m, key, v)
    case ChangesMeta(_, _) => SetChangesMeta(m, key, v)
    case UpdatesMeta(_) => SetUpdatesMeta(m, key, v)
  }

  function SetRowsMeta(m: Metadata, key: string, v: Value): (r: Result<Metadata>)
    requires m.RowsMeta?
    ensures if r.Ok? then r.value.RowsMeta? else r.error == Mismatch
  {
    if key == "update_seq" then Ok(m.(updateSeq := Some(v)))
    else if key == "offset" then
      match DecodeInt64(m.offset, v) case Ok(n) => Ok(m.(offset := n)) case Err(e) => Err(e)
    else if key == "total_rows" then
      match DecodeInt64(m.totalRows, v) case Ok(n) => Ok(m.(totalRows := n)) case Err(e) => Err(e)
    else if key == "warning" then
      match DecodeString(m.warning, v) case Ok(s) => Ok(m.(warning := s)) case Err(e) => Err(e)
    else if key == "bookmark" then
      match DecodeString(m.bookmark, v) case Ok(s) => Ok(m.(bookmark := s)) case Err(e) => Err(e)
    else Ok(m)
  }

  function SetChangesMeta(m: Metadata, key: string, v: Value): (r: Result<Metadata>)
    requires m.ChangesMeta?
    ensures if r.Ok? then r.value.ChangesMeta? else r.error == Mismatch
  {
    if key == "last_seq" then Ok(m.(lastSeq := Some(v)))
    else if key == "pending" then
      match DecodeInt64(m.pending, v) case Ok(n) => Ok(m.(pending := n)) case Err(e) => Err(e)
    else Ok(m)
  }

  function SetUpdatesMeta(m: Metadata, key: string, v: Value): (r: Result<Metadata>)
    requires m.UpdatesMeta?
    ensures if r.Ok? then r.value.UpdatesMeta? else r.error == Mismatch
  {
    if key == "last_seq" then
      match DecodeString(m.lastID, v) case Ok(s) => Ok(m.(lastID := s)) case Err(e) => Err(e)
    else Ok(m)
  }

  function ParseMeta(c: Cursor, m: Metadata, key: string): (r: (Option<Error>, Cursor, Metadata))
    ensures |r.1.rest| <= |c.rest|
  {
    if m.NilMeta? then (None, c, m)
    else
      var (v, c1) := Decode(c);
      match v
      case Err(e) => (Some(e), c1, m)
      case Ok(v) =>
        match SetMeta(m, key, v)
        case Err(e) => (Some(e), c1, m)
        case Ok(m') => (None, c1, m')
  }

  /** begin: everything up to the rows */
  function Begin(cfg: Config, c: Cursor, m: Metadata): (r: (Option<Error>, Cursor, Metadata))
    ensures |r.1.rest| <= |c.rest|
    ensures r.0.None? && (cfg.objMode || cfg.expectedKey != "") ==> |r.1.rest| < |c.rest|
  {
    if cfg.expectedKey == "" && !cfg.objMode then (None, c, m)
    else
      var (e, c1) := ConsumeDelim(c, LBrace);
      if e.Some? then (e, c1, m)
      else if cfg.objMode then (None, c1, m)
      else BeginLoop(cfg, c1, m)
  }

  function BeginLoop(cfg: Config, c: Cursor, m: Metadata): (r: (Option<Error>, Cursor, Metadata))
    ensures |r.1.rest| <= |c.rest|
    decreases |c.rest|
  {
    var (k, c1) := NextKey(c);
    match k
    case Err(e) => (Some(e), c1, m)
    case Ok(key) =>
      if key == cfg.expectedKey then
        var (e, c2) := ConsumeDelim(c1, LBracket);
        (e, c2, m)
      else
        var (e, c2, m') := ParseMeta(c1, m, key);
        if e.Some? then (e, c2, m') else BeginLoop(cfg, c2, m')
  }

  function RowError(cfg: Config, e: Error): Error {
    if cfg.wraps then BadGateway(e) else e
  }

  function DecodeItem(cfg: Config, c: Cursor): (r: (Result<Row>, Cursor))
    ensures r.0.Ok? ==> |r.1.rest| < |c.rest|
    ensures |r.1.rest| <= |c.rest|
  {
    if cfg.objMode then
      var (k, c1) := NextKey(c);
      match k
      case Err(e) => (Err(e), c1)
      case Ok(key) =>
        var (v, c2) := Decode(c1);
        match v
        case Err(e) => (Err(e), c2)
        case Ok(v) => (Ok(Entry(key, v)), c2)
    else
      var (v, c1) := Decode(c);
      match v
      case Err(e) => (Err(RowError(cfg, e)), c1)
      case Ok(v) => (if cfg.accepts(v) then Ok(Item(v)) else Err(RowError(cfg, Mismatch)), c1)
  }

  function NextRow(cfg: Config, c: Cursor): (r: (Result<Row>, Cursor))
    ensures r.0.Ok? ==> |r.1.rest| < |c.rest|
    ensures |r.1.rest| <= |c.rest|
  {
    if More(c) then DecodeItem(cfg, c) else (Err(EOF), c)
  }

  /** finish: everything after the rows, and then the body is closed */
  function Finish(cfg: Config, c: Cursor, m: Metadata): (r: (Option<Error>, Cursor, Metadata))
    ensures |r.1.rest| <= |c.rest|
  {
    var (e, c1, m1) := ReadEnd(cfg, c, m);
    (if e.None? then cfg.closeError else e, c1, m1)
  }

  function ReadEnd(cfg: Config, c: Cursor, m: Metadata): (r: (Option<Error>, Cursor, Metadata))
    ensures |r.1.rest| <= |c.rest|
  {
    if cfg.expectedKey == "" && !cfg.objMode then
      var (t, c1) := Token(c);
      (if t.Err? && t.error != EOF then Some(BadGateway(t.error)) else None, c1, m)
    else if cfg.objMode then
      var (e, c1) := ConsumeDelim(c, RBrace);
      (if e.Some? && e.value != EOF then Some(BadGateway(e.value)) else None, c1, m)
    else
      var (e, c1) := ConsumeDelim(c, RBracket);
      if e.Some? then (e, c1, m) else FinishLoop(cfg, c1, m)
  }

  function FinishLoop(cfg: Config, c: Cursor, m: Metadata): (r: (Option<Error>, Cursor, Metadata))
    ensures |r.1.rest| <= |c.rest|
    decreases |c.rest|
  {
    if !More(c) then
      var (e, c1) := ConsumeDelim(c, RBrace);
      (e, c1, m)
    else
      var (t, c1) := Token(c);
      match t
      case Err(e) => (Some(e), c1, m)
      case Ok(RBrace) => FinishLoop(cfg, c1, m)
      case Ok(Text(key)) =>
        var (e, c2, m') := ParseMeta(c1, m, key);
        if e.Some? then (e, c2, m') else FinishLoop(cfg, c2, m')
      case Ok(_) => (Some(UnexpectedToken), c1, m)
  }

  /** next */
  function Next(cfg: Config, st: IterState): (r: (Result<Row>, IterState))
    ensures r.0.Ok? ==> |r.1.cur.rest| < |st.cur.rest|
    ensures r.0.Ok? ==> r.1.begun && !r.1.closed
    ensures r.0 == Err(EOF) ==> r.1.closed
    ensures |r.1.cur.rest| <= |st.cur.rest|
  {
    if st.closed then (Err(EOF), st)
    else if st.begun then NextBegun(cfg, st)
    else
      var (e, c, m) := Begin(cfg, st.cur, st.meta);
      var st' := IterState(c, true, false, m);
      if e.Some? then (Err(BadGateway(e.value)), st') else NextBegun(cfg, st')
  }

  function NextBegun(cfg: Config, st: IterState): (r: (Result<Row>, IterState))
    requires st.begun && !st.closed
    ensures r.0.Ok? ==> |r.1.cur.rest| < |st.cur.rest|
    ensures r.0.Ok? ==> r.1.begun && !r.1.closed
    ensures r.0 == Err(EOF) ==> r.1.closed
    ensures |r.1.cur.rest| <= |st.cur.rest|
  {
    var (r, c) := NextRow(cfg, st.cur);
    if r == Err(EOF) then
      var (e, c', m) := Finish(cfg, c, st.meta);
      (Err(if e.Some? then e.value else EOF), IterState(c', true, true, m))
    else (r, st.(cur := c))
  }
}
