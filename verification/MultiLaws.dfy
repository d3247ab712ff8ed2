/** Laws of the multi-query reader: the events it delivers for a whole response. */
module MultiLaws {
  import opened Json
  import opened Decoder
  import opened Driver
  import opened IterSpec
  import opened IterLaws
  import opened MultiSpec
  import opened Wrappers
  import Multi = MultiSpec

  function Remaining(input: Lexemes, st: MultiState): nat {
    match st
    case Unstarted => |input| + 1
    case Reading(rows, _, _) => |rows.cur.rest|
    case _ => 0
  }

  /** What a client gets that calls Next until it fails, and asks for the metadata at every EOQ
      and io.EOF: the events, and the state of the reader then. */
  datatype Delivered = Delivered(events: seq<Event>, final: MultiState)

  function Prepend(events: seq<Event>, d: Delivered): Delivered {
    d.(events := events + d.events)
  }

  /** The end of the events; for an error other than io.EOF the metadata is not asked for. */
  function Failing(e: Error, st: MultiState): Event {
    if HasRows(st) then End(e, MetadataOf(st)) else if e == EOF then Crash else End(e, NO_ROWS_META)
  }

  function Deliver(src: Source, input: Lexemes, st: MultiState): Delivered
    decreases Remaining(input, st), if st.Reading? && st.rows.closed then 0 else 1
  {
    var (r, st') := Multi.Next(src, input, st);
    match r
    case Fail(e) => Delivered([Failing(e, st')], st')
    case Panic => Delivered([Crash], st')
    case EOQ => Prepend([EndOfQuery(MetadataOf(st'))], Deliver(src, input, st'))
    case Row(row) => Prepend([RowEvent(row)], Deliver(src, input, st'))
  }

  /** One call, and then the rest. */
  lemma {:induction false} DeliverStep(src: Source, input: Lexemes, st: MultiState)
    ensures var (r, st') := Multi.Next(src, input, st);
            Deliver(src, input, st) ==
            match r
            case Fail(e) => Delivered([Failing(e, st')], st')
            case Panic => Delivered([Crash], st')
            case EOQ => Prepend([EndOfQuery(MetadataOf(st'))], Deliver(src, input, st'))
            case Row(row) => Prepend([RowEvent(row)], Deliver(src, input, st'))
    ensures var (r, st') := Multi.Next(src, input, st);
            r.Row? || r.EOQ? ==>
              || Remaining(input, st') < Remaining(input, st)
              || (Remaining(input, st') == Remaining(input, st) && st'.Reading? && st'.rows.closed
                  && !(st.Reading? && st.rows.closed))
  {
    hide IterSpec.Begin, IterSpec.NextBegun;
  }

  function RowEvents(rows: seq<IterSpec.Row>): seq<Event> {
    seq(|rows|, i requires 0 <= i < |rows| => RowEvent(rows[i]))
  }

  /** One query's part of the response: an object with a `rows` array and metadata around it. */
  datatype Query = Query(pre: seq<Member>, items: seq<Value>, post: seq<Member>)

  function QueryValue(q: Query): Value {
    Keyed(q.pre, "rows", q.items, q.post)
  }

  function QueryValues(qs: seq<Query>): seq<Value> {
    seq(|qs|, i requires 0 <= i < |qs| => QueryValue(qs[i]))
  }

  predicate GoodQuery(src: Source, q: Query) {
    && NoKey(q.pre, "rows")
    && AllAccepted(RowsConfig(src), q.items)
    && FoldMeta(NO_ROWS_META, q.pre + q.post).Some?
  }

  predicate GoodQueries(src: Source, qs: seq<Query>) {
    forall i :: 0 <= i < |qs| ==> GoodQuery(src, qs[i])
  }

  function QueryMeta(q: Query): Metadata {
    match FoldMeta(NO_ROWS_META, q.pre + q.post)
    case Some(m) => m
    case None => NO_ROWS_META
  }

  /** The rows of each query in turn, each followed by the end of its query. */
  function QueryEvents(qs: seq<Query>): seq<Event>
    decreases |qs|
  {
    if qs == [] then []
    else RowEvents(Items(qs[0].items)) + ([EndOfQuery(QueryMeta(qs[0]))] + QueryEvents(qs[1..]))
  }

  // ---------------------------------------------------------------------------
  // One row reader inside the multi-query reader
  // ---------------------------------------------------------------------------

  /** While one row reader lasts, its rows are passed on; its clean end is the end of a query
      (or, in legacy mode, of everything), and any other end is passed on. */
  lemma {:induction false} EventsOfReader(src: Source, input: Lexemes, st: MultiState)
    requires st.Reading? && !st.rows.closed && st.rows.begun
    ensures var d := Drain(RowsConfig(src), st.rows);
            var st' := st.(rows := d.final);
            Deliver(src, input, st) ==
            Prepend(RowEvents(d.rows),
                    if d.end == EOF && !st.legacy
                    then Prepend([EndOfQuery(d.final.meta)], Deliver(src, input, st'))
                    else Delivered([End(d.end, d.final.meta)], st'))
    decreases |st.rows.cur.rest|
  {
    hide IterSpec.Next, Deliver, Drain;
    var cfg := RowsConfig(src);
    EventsOfOneRead(src, input, st);
    DrainStep(cfg, st.rows);
    var (r, rows) := IterSpec.Next(cfg, st.rows);
    if r.Ok? {
      var st1 := st.(rows := rows);
      EventsOfReader(src, input, st1);
      var d, d1 := Drain(cfg, st.rows), Drain(cfg, rows);
      assert st1.(rows := d1.final) == st.(rows := d.final);
      assert RowEvents([r.value] + d1.rows) == [RowEvent(r.value)] + RowEvents(d1.rows);
      PrependTwice([RowEvent(r.value)], RowEvents(d1.rows),
                   if d.end == EOF && !st.legacy
                   then Prepend([EndOfQuery(d.final.meta)], Deliver(src, input, st.(rows := d.final)))
                   else Delivered([End(d.end, d.final.meta)], st.(rows := d.final)));
    }
  }

  lemma {:induction false} PrependTwice(a: seq<Event>, b: seq<Event>, d: Delivered)
    ensures Prepend(a, Prepend(b, d)) == Prepend(a + b, d)
  {
    assert a + (b + d.events) == (a + b) + d.events;
  }

  lemma {:induction false} EventsOfOneRead(src: Source, input: Lexemes, st: MultiState)
    requires st.Reading? && !st.rows.closed
    ensures var (r, rows) := IterSpec.Next(RowsConfig(src), st.rows);
            var st' := st.(rows := rows);
            Deliver(src, input, st) ==
            match r
            case Ok(row) => Prepend([RowEvent(row)], Deliver(src, input, st'))
            case Err(e) =>
              if e == EOF && !st.legacy then Prepend([EndOfQuery(rows.meta)], Deliver(src, input, st'))
              else Delivered([End(e, rows.meta)], st')
  {
    hide IterSpec.Next;
  }

  // ---------------------------------------------------------------------------
  // A whole multi-query response
  // ---------------------------------------------------------------------------

  /** Where the reader stands with queries still to come, and `end` behind them. */
  function AtQuery(s: TokenState, qs: seq<Query>, end: Lexemes): Cursor {
    Cursor(ItemsBody(s, QueryValues(qs)) + end, s, [TopValue, ObjectValue])
  }

  function AfterQuery(q: Query, qs: seq<Query>, end: Lexemes): IterState {
    IterState(AtQuery(ArrayComma, qs, end), true, true, QueryMeta(q))
  }

  /** Beginning on the next query succeeds, and from there its rows, metadata and end follow. */
  lemma {:induction false} OneQuery(src: Source, s: TokenState, qs: seq<Query>, end: Lexemes)
    requires InArray(s) && qs != [] && GoodQuery(src, qs[0])
    ensures var cfg := RowsConfig(src);
            var (e, c, m) := IterSpec.Begin(cfg, AtQuery(s, qs, end), NO_ROWS_META);
            && e.None?
            && Drain(cfg, IterState(c, true, false, m))
               == Drained(Items(qs[0].items), EOF, AfterQuery(qs[0], qs[1..], end))
  {
    hide IterSpec.Begin, Drain, FoldMeta;
    var cfg, q := RowsConfig(src), qs[0];
    var z := ItemsBody(ArrayComma, QueryValues(qs[1..])) + end;
    var y := LexItems(q.items) + (LexMembersTail(q.post) + z);
    var c := AtQuery(s, qs, end);
    QueryLayout(s, qs, end);
    BeginReads(cfg, c, q.pre, y, NO_ROWS_META) by {
      FoldMetaAppend(NO_ROWS_META, q.pre, q.post);
    }
    var outer := AfterSeparator(s);
    assert c.stack + [outer, ObjectValue] == [TopValue, ObjectValue] + [outer, ObjectValue];
    FoldMetaAppend(NO_ROWS_META, q.pre, q.post);
    DrainRowsAndFinish(cfg, q.items, q.post, z, [TopValue, ObjectValue], outer, FoldMeta(NO_ROWS_META, q.pre).value);
  }

  lemma {:induction false} QueryLayout(s: TokenState, qs: seq<Query>, end: Lexemes)
    requires InArray(s) && qs != []
    ensures var z := ItemsBody(ArrayComma, QueryValues(qs[1..])) + end;
            AtQuery(s, qs, end).rest ==
            Separator(s) + ([LBrace] + (Head(ObjectStart, qs[0].pre, "rows")
                                        + (LexItems(qs[0].items) + (LexMembersTail(qs[0].post) + z))))
  {
    var z := ItemsBody(ArrayComma, QueryValues(qs[1..])) + end;
    assert QueryValues(qs)[1..] == QueryValues(qs[1..]);
    assert AtQuery(s, qs, end).rest == Separator(s) + (Lex(QueryValue(qs[0])) + z);
    KeyedLayoutBefore(qs[0].pre, "rows", qs[0].items, qs[0].post, z);
  }

  function LastQuery(q: Query, qs: seq<Query>): Query {
    if qs == [] then q else qs[|qs| - 1]
  }

  /** From the end of one query: the remaining queries, and then what comes behind the last. */
  lemma {:induction false} RemainingQueries(src: Source, input: Lexemes, q: Query, qs: seq<Query>,
      end: Lexemes, queryIndex: nat)
    requires GoodQueries(src, qs)
    ensures Deliver(src, input, Reading(AfterQuery(q, qs, end), false, queryIndex))
            == Prepend(QueryEvents(qs),
                       Deliver(src, input, Reading(AfterQuery(LastQuery(q, qs), [], end), false, queryIndex + |qs|)))
    decreases |qs|
  {
    hide Deliver, FoldMeta, AtQuery, QueryMeta;
    if qs != [] {
      OneMoreQuery(src, input, q, qs, end, queryIndex);
      RemainingQueries(src, input, qs[0], qs[1..], end, queryIndex + 1);
      assert LastQuery(qs[0], qs[1..]) == LastQuery(q, qs);
      FirstThenOthers(qs, Deliver(src, input, Reading(AfterQuery(LastQuery(q, qs), [], end), false, queryIndex + |qs|)));
    }
  }

  /** The events of the first query and those of the others are the events of all. */
  lemma {:induction false} FirstThenOthers(qs: seq<Query>, d: Delivered)
    requires qs != []
    ensures Prepend(RowEvents(Items(qs[0].items)), Prepend([EndOfQuery(QueryMeta(qs[0]))], Prepend(QueryEvents(qs[1..]), d)))
            == Prepend(QueryEvents(qs), d)
  {
    hide QueryMeta;
    var rows, stop := RowEvents(Items(qs[0].items)), [EndOfQuery(QueryMeta(qs[0]))];
    PrependTwice(stop, QueryEvents(qs[1..]), d);
    PrependTwice(rows, stop + QueryEvents(qs[1..]), d);
  }

  lemma {:induction false} OneMoreQuery(src: Source, input: Lexemes, q: Query, qs: seq<Query>,
      end: Lexemes, queryIndex: nat)
    requires qs != [] && GoodQuery(src, qs[0])
    ensures Deliver(src, input, Reading(AfterQuery(q, qs, end), false, queryIndex))
            == Prepend(RowEvents(Items(qs[0].items)),
                 Prepend([EndOfQuery(QueryMeta(qs[0]))],
                   Deliver(src, input, Reading(AfterQuery(qs[0], qs[1..], end), false, queryIndex + 1))))
  {
    hide IterSpec.Begin, Deliver, Drain, FoldMeta, AtQuery;
    var st := Reading(AfterQuery(q, qs, end), false, queryIndex);
    var (e, c, m) := IterSpec.Begin(RowsConfig(src), st.rows.cur, NO_ROWS_META);
    OneQuery(src, ArrayComma, qs, end);
    NextQueryThenRead(src, input, st);
    EventsOfReader(src, input, Reading(IterState(c, true, false, m), false, queryIndex + 1));
  }

  /** When the current result set has ended and the next one begins, Next reads from that one. */
  lemma {:induction false} NextQueryThenRead(src: Source, input: Lexemes, st: MultiState)
    requires st.Reading? && st.rows.closed && !st.legacy
    requires IterSpec.Begin(RowsConfig(src), st.rows.cur, NO_ROWS_META).0.None?
    ensures var (_, c, m) := IterSpec.Begin(RowsConfig(src), st.rows.cur, NO_ROWS_META);
            Deliver(src, input, st) ==
            Deliver(src, input, Reading(IterState(c, true, false, m), false, st.queryIndex + 1))
  {
    hide IterSpec.Begin, Read;
  }

  lemma {:induction false} NoMoreQueries(src: Source, input: Lexemes, q: Query, tail: Lexemes, queryIndex: nat)
    ensures var d := Deliver(src, input, Reading(AfterQuery(q, [], [RBracket] + tail), false, queryIndex));
            d.events == [End(CloseResult(src.closeError), QueryMeta(q))] && d.final.Closed?
  {
    var c := AtQuery(ArrayComma, [], [RBracket] + tail);
    assert c.rest == [RBracket] + tail;
    assert Token(c).0 == Ok(RBracket);
    assert IterSpec.Begin(RowsConfig(src), c, NO_ROWS_META).0 == Some(UnexpectedDelim(RBracket));
    hide IterSpec.Begin;
  }

  /** A response up to and including its queries, whatever comes behind them. */
  function Response(qs: seq<Query>, end: Lexemes): Lexemes {
    [LBrace] + ([Text("results")] + ([Colon] + ([LBracket] + AtQuery(ArrayStart, qs, end).rest)))
  }

  /** The reader delivers all the queries, and then what it makes of what comes behind them. */
  lemma {:induction false} QueriesThenEnd(src: Source, qs: seq<Query>, end: Lexemes)
    requires qs != [] && GoodQueries(src, qs)
    ensures var input := Response(qs, end);
            Deliver(src, input, Unstarted)
            == Prepend(QueryEvents(qs), Deliver(src, input, Reading(AfterQuery(qs[|qs| - 1], [], end), false, |qs| - 1)))
  {
    hide IterSpec.Begin, Deliver, Drain, FoldMeta, AtQuery, QueryMeta;
    var input, cfg := Response(qs, end), RowsConfig(src);
    BeginsOnResults(src, AtQuery(ArrayStart, qs, end).rest);
    AtQueryShape(qs, end);
    var (e, c, m) := IterSpec.Begin(cfg, AtQuery(ArrayStart, qs, end), NO_ROWS_META);
    OneQuery(src, ArrayStart, qs, end);
    var st1 := Reading(IterState(c, true, false, m), false, 0);
    BeginThenRead(src, input, st1);
    EventsOfReader(src, input, st1);
    RemainingQueries(src, input, qs[0], qs[1..], end, 0);
    assert LastQuery(qs[0], qs[1..]) == qs[|qs| - 1];
    FirstThenOthers(qs, Deliver(src, input, Reading(AfterQuery(qs[|qs| - 1], [], end), false, |qs| - 1)));
  }

  lemma AtQueryShape(qs: seq<Query>, end: Lexemes)
    ensures var c := AtQuery(ArrayStart, qs, end); c == Cursor(c.rest, ArrayStart, [TopValue, ObjectValue])
  {
  }

  /** The state of the reader after `n` more calls, and the answer to the call behind them. */
  function After(src: Source, input: Lexemes, st: MultiState, n: nat): MultiState
    decreases n
  {
    if n == 0 then st else After(src, input, Multi.Next(src, input, st).1, n - 1)
  }

  function ReplyAfter(src: Source, input: Lexemes, st: MultiState, n: nat): Reply {
    Multi.Next(src, input, After(src, input, st, n)).0
  }

  lemma {:induction false} ClosedStaysClosed(src: Source, input: Lexemes, st: MultiState, n: nat)
    requires st.Closed?
    ensures After(src, input, st, n) == st && ReplyAfter(src, input, st, n) == Fail(EOF)
  {
    if n > 0 {
      ClosedStaysClosed(src, input, st, n - 1);
    }
  }

  /** The queries, and the end, of a response whose array is closed. */
  lemma {:induction false} ClosedResponse(src: Source, qs: seq<Query>, tail: Lexemes)
    requires qs != [] && GoodQueries(src, qs)
    ensures var d := Deliver(src, Response(qs, [RBracket] + tail), Unstarted);
            && d.events == QueryEvents(qs) + [End(CloseResult(src.closeError), QueryMeta(qs[|qs| - 1]))]
            && d.final.Closed?
  {
    hide Deliver, FoldMeta, AtQuery, Lex, QueryEvents, QueryMeta, GoodQueries;
    var end := [RBracket] + tail;
    var input := Response(qs, end);
    hide Response;
    QueriesThenEnd(src, qs, end);
    NoMoreQueries(src, input, qs[|qs| - 1], tail, |qs| - 1);
  }

  /** For every response `{"results":[Q1, ..., Qn], ...}` with n >= 1, the reader delivers the
      rows of Q1, the end of that query with Q1's metadata, and so on to Qn, and then io.EOF, or
      what closing the body reports instead; and then io.EOF for ever. */
  lemma {:induction false} MultiQueriesEndToEnd(src: Source, qs: seq<Query>, more: seq<Member>, tail: Lexemes)
    requires qs != [] && GoodQueries(src, qs)
    ensures var input := Lex(Obj([Member("results", Arr(QueryValues(qs)))] + more)) + tail;
            var d := Deliver(src, input, Unstarted);
            && d.events == QueryEvents(qs) + [End(CloseResult(src.closeError), QueryMeta(qs[|qs| - 1]))]
            && d.final.Closed?
            && forall n: nat :: ReplyAfter(src, input, d.final, n) == Fail(EOF)
  {
    var end := [RBracket] + (LexMembersTail(more) + tail);
    ResponseLayout(qs, more, tail, AtQuery(ArrayStart, qs, end).rest);
    hide Deliver, AtQuery, Lex, QueryEvents, After, ReplyAfter, QueryMeta, QueryValues, GoodQueries;
    var input := Response(qs, end);
    ClosedResponse(src, qs, LexMembersTail(more) + tail);
    hide Response;
    forall n: nat
      ensures ReplyAfter(src, input, Deliver(src, input, Unstarted).final, n) == Fail(EOF)
    {
      ClosedStaysClosed(src, input, Deliver(src, input, Unstarted).final, n);
    }
  }

  /** A response that is cut short between the metadata members in front of the rows of a later
      query is taken for a complete response of the queries before it: begin passes on the
      io.EOF that it got for a key. */
  lemma {:induction false} CutInHeadOfLaterQueryIsSilent(src: Source, qs: seq<Query>, pre: seq<Member>)
    requires qs != [] && GoodQueries(src, qs)
    requires NoKey(pre, "rows") && FoldMeta(NO_ROWS_META, pre).Some?
    ensures Deliver(src, Response(qs, [Comma] + ([LBrace] + MembersBody(ObjectStart, pre))), Unstarted).events
            == QueryEvents(qs) + [End(EOF, QueryMeta(qs[|qs| - 1]))]
  {
    var end := [Comma] + ([LBrace] + MembersBody(ObjectStart, pre));
    var c := AtQuery(ArrayComma, [], end);
    assert c.rest == end;
    BeginCutShort(src, pre, c);
    hide Deliver, FoldMeta, AtQuery, MembersBody, QueryEvents;
    QueriesThenEnd(src, qs, end);
    NextQueryFails(src, Response(qs, end), Reading(AfterQuery(qs[|qs| - 1], [], end), false, |qs| - 1), EOF);
  }

  lemma {:induction false} NextQueryFails(src: Source, input: Lexemes, st: MultiState, e: Error)
    requires st.Reading? && st.rows.closed && !st.legacy && AsUnexpectedDelim(e) == None
    requires IterSpec.Begin(RowsConfig(src), st.rows.cur, NO_ROWS_META).0 == Some(e)
    ensures Deliver(src, input, st).events == [End(e, st.rows.meta)]
  {
    hide IterSpec.Begin;
  }

  lemma {:induction false} BeginCutShort(src: Source, pre: seq<Member>, c: Cursor)
    requires c.rest == [Comma] + ([LBrace] + MembersBody(ObjectStart, pre)) && c.state == ArrayComma
    requires NoKey(pre, "rows") && FoldMeta(NO_ROWS_META, pre).Some?
    ensures IterSpec.Begin(RowsConfig(src), c, NO_ROWS_META).0 == Some(EOF)
  {
    hide MembersBody, BeginLoop;
    OpenDelim(c, LBrace, MembersBody(ObjectStart, pre));
    BeginLoopCutShort(src, ObjectStart, pre, c.stack + [ArrayValue], NO_ROWS_META);
  }

  lemma {:induction false} BeginLoopCutShort(src: Source, s: TokenState, pre: seq<Member>,
      stk: seq<TokenState>, m: Metadata)
    requires InObject(s) && !m.NilMeta? && NoKey(pre, "rows") && FoldMeta(m, pre).Some?
    ensures BeginLoop(RowsConfig(src), Cursor(MembersBody(s, pre), s, stk), m).0 == Some(EOF)
    decreases |pre|
  {
    if pre != [] {
      var z := MembersBody(ObjectComma, pre[1..]);
      assert MembersBody(s, pre) == Sep(s) + (LexMember(pre[0]) + z);
      ReadsMember(s, pre[0], z, stk);
      hide LexMember, Token, Decode, SetMeta;
      BeginLoopCutShort(src, ObjectComma, pre[1..], stk, SetMeta(m, pre[0].key, pre[0].value).value);
    }
  }

  lemma {:induction false} BeginThenRead(src: Source, input: Lexemes, st: MultiState)
    requires Multi.Begin(src, input) == (None, st)
    requires st.Reading? && !st.rows.closed
    ensures Deliver(src, input, Unstarted) == Deliver(src, input, st)
  {
    hide Multi.Begin, Read;
  }

  lemma {:induction false} ResponseLayout(qs: seq<Query>, more: seq<Member>, tail: Lexemes, y: Lexemes)
    requires y == ItemsBody(ArrayStart, QueryValues(qs)) + ([RBracket] + (LexMembersTail(more) + tail))
    ensures Lex(Obj([Member("results", Arr(QueryValues(qs)))] + more)) + tail
            == [LBrace] + ([Text("results")] + ([Colon] + ([LBracket] + y)))
  {
    var results := Member("results", Arr(QueryValues(qs)));
    var ms := [results] + more;
    assert ms[1..] == more;
    assert Lex(Obj(ms)) == [LBrace] + (LexMember(results) + LexMembersTail(more));
    assert LexMember(results) == [Text("results"), Colon] + ([LBracket] + LexItems(QueryValues(qs)));
    LexItemsIsBody(QueryValues(qs));
  }

  lemma {:induction false} BeginsOnResults(src: Source, y: Lexemes)
    ensures var input := [LBrace] + ([Text("results")] + ([Colon] + ([LBracket] + y)));
            var (e, c, m) := IterSpec.Begin(RowsConfig(src), Cursor(y, ArrayStart, [TopValue, ObjectValue]), NO_ROWS_META);
            Multi.Begin(src, input) == (e, Reading(IterState(c, true, false, m), false, 0))
  {
    hide IterSpec.Begin;
    var z := [Colon] + ([LBracket] + y);
    OpenDelim(NewCursor([LBrace] + ([Text("results")] + z)), LBrace, [Text("results")] + z);
    assert [] + [TopValue] == [TopValue];
    ReadsKey(ObjectStart, "results", z, [TopValue]);
    OpenDelim(Cursor(z, ObjectColon, [TopValue]), LBracket, y);
    assert [TopValue] + [ObjectValue] == [TopValue, ObjectValue];
  }

  // ---------------------------------------------------------------------------
  // Legacy mode
  // ---------------------------------------------------------------------------

  /** On a body whose first key is not `results`, the multi-query reader starts over, and then
      delivers what the plain reader of the same body delivers: the same rows, the same
      metadata and the same end, except that an error of begin is not wrapped. */
  lemma {:induction false} LegacyReadsTheSameRows(src: Source, key: string, y: Lexemes)
    requires key != "results"
    ensures var input := [LBrace, Text(key)] + y;
            var begin := IterSpec.Begin(RowsConfig(src), NewCursor(input), NO_ROWS_META).0;
            var d := Drain(RowsConfig(src), Fresh(RowsConfig(src), input));
            Deliver(src, input, Unstarted).events ==
            RowEvents(d.rows) + [End(if begin.Some? then begin.value else d.end, d.final.meta)]
  {
    var cfg := RowsConfig(src);
    var input := [LBrace, Text(key)] + y;
    hide IterSpec.Begin, IterSpec.Next, Drain;
    assert input == [LBrace] + ([Text(key)] + y);
    OpenDelim(NewCursor(input), LBrace, [Text(key)] + y);
    assert [] + [TopValue] == [TopValue];
    ReadsKey(ObjectStart, key, y, [TopValue]);
    var (e, c, m) := IterSpec.Begin(cfg, NewCursor(input), NO_ROWS_META);
    var rows := IterState(c, true, false, m);
    var st := Reading(rows, true, 0);
    assert Multi.Begin(src, input) == (e, st);
    var d := Drain(cfg, Fresh(cfg, input));
    if e.Some? {
      LegacyBeginFails(cfg, input);
      assert RowEvents(d.rows) == [];
    } else {
      DrainBegins(cfg, Fresh(cfg, input), c, m);
      BeginThenRead(src, input, st);
      EventsOfReader(src, input, st);
    }
  }

  lemma {:induction false} LegacyBeginFails(cfg: Config, input: Lexemes)
    requires IterSpec.Begin(cfg, NewCursor(input), cfg.meta).0.Some?
    ensures Drain(cfg, Fresh(cfg, input)).rows == []
    ensures Drain(cfg, Fresh(cfg, input)).final.meta == IterSpec.Begin(cfg, NewCursor(input), cfg.meta).2
  {
    hide IterSpec.Begin;
  }

  // ---------------------------------------------------------------------------
  // Behind Close, and at a row of the wrong type
  // ---------------------------------------------------------------------------

  /** Next behind one Close reports io.EOF.  Behind more than one it does so in legacy mode only: it
      panics, and if begin had not got as far as a row reader, it reports what reading from the
      closed body does and panics from then on. */
  lemma {:induction false} NextBehindClose(src: Source, input: Lexemes, st: MultiState)
    requires !st.Closed? && !st.ClosedAgain?
    ensures var once, twice := Multi.Close(st), Multi.Close(Multi.Close(st));
            && Multi.Next(src, input, once) == (Fail(EOF), once)
            && Multi.Close(twice) == twice
            && var (r, st') := Multi.Next(src, input, twice);
               && r == (if !st.Reading? then Fail(BadGateway(src.afterClose)) else if st.legacy then Fail(EOF) else Panic)
               && Multi.Next(src, input, st').0 == if st.Reading? then r else Panic
  {
  }

  /** Reading the closing bracket, or the end in legacy mode, is such a Close. */
  lemma {:induction false} NextBehindBracketAndClose(src: Source, input: Lexemes, st: MultiState)
    requires st.Reading? && NextQuery(src, st).1.Closed?
    ensures Multi.Next(src, input, Multi.Close(NextQuery(src, st).1)).0 == if st.legacy then Fail(EOF) else Panic
  {
    hide IterSpec.Begin, AsUnexpectedDelim;
  }

  /** A row of the wrong type is reported as it is, not as a bad gateway. */
  lemma {:induction false} RowOfWrongType(src: Source, input: Lexemes, st: MultiState, s: TokenState, v: Value,
      z: Lexemes)
    requires st.Reading? && st.rows.begun && !st.rows.closed && InArray(s) && !src.accepts(v)
    requires st.rows.cur.rest == Sep(s) + (Lex(v) + z) && st.rows.cur.state == s
    ensures Multi.Next(src, input, st).0 == Fail(Mismatch)
  {
    hide Token, Finish;
    ReadsItem(s, v, z, st.rows.cur.stack);
  }
}
