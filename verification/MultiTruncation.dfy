/** Which truncated multi-query responses are taken for complete ones, and when an io.EOF that the
    reader reports is final. */
module MultiTruncation {
  import opened Json
  import opened Decoder
  import opened Driver
  import opened IterSpec
  import opened IterLaws
  import opened TruncationLaws
  import opened MultiSpec
  import opened MultiLaws
  import opened Wrappers

  /** The events end as those of a complete response do. */
  predicate LooksComplete(d: Delivered) {
    d.events != [] && var last := d.events[|d.events| - 1]; last.End? && last.error == EOF
  }

  /** The events end in a panic. */
  predicate Crashes(d: Delivered) {
    d.events != [] && d.events[|d.events| - 1].Crash?
  }

  /** A cut behind `n` lexemes of a query's members, in front of its `rows` key, and not inside
      a value. */
  predicate BeforeRows(s: TokenState, pre: seq<Member>, n: int)
    decreases |pre|
  {
    var k := n - |Sep(s)|;
    k <= 0 ||
    (pre != [] &&
     (k <= 2 || (k >= |LexMember(pre[0])| && BeforeRows(ObjectComma, pre[1..], k - |LexMember(pre[0])|))))
  }

  /** A cut behind `n` lexemes of what follows `"results":[`, that goes unnoticed: inside a query,
      in front of its `rows` key and not inside a value, or anywhere behind the closing bracket
      if closing the body does not report it. */
  predicate Unnoticed(closeError: Option<Error>, s: TokenState, qs: seq<Query>, n: int)
    decreases |qs|
  {
    if qs == [] then n >= 1 && CloseResult(closeError) == EOF
    else
      var k, size := n - |Sep(s)|, |Lex(QueryValue(qs[0]))|;
      if k < size then k >= 1 && BeforeRows(ObjectStart, qs[0].pre, k - 1)
      else Unnoticed(closeError, ArrayComma, qs[1..], k - size)
  }

  // ---------------------------------------------------------------------------
  // One query, cut short
  // ---------------------------------------------------------------------------

  lemma {:induction false} CutBeforeRows(src: Source, s: TokenState, pre: seq<Member>, n: nat,
      stk: seq<TokenState>, m: Metadata)
    requires InObject(s) && !m.NilMeta? && NoKey(pre, "rows") && FoldMeta(m, pre).Some?
    requires n < |Head(s, pre, "rows")|
    ensures var e := BeginLoop(RowsConfig(src), Cursor(Head(s, pre, "rows")[..n], s, stk), m).0;
            e.Some? && AsUnexpectedDelim(e.value) == None && (e.value == EOF <==> BeforeRows(s, pre, n))
    decreases |pre|
  {
    hide BeginLoop, Lex, SetMeta;
    var h := Head(s, pre, "rows");
    if pre == [] {
      CutAtRowsKey(src, s, n, stk, m);
    } else {
      var first, h' := Sep(s) + LexMember(pre[0]), Head(ObjectComma, pre[1..], "rows");
      assert h == first + h';
      LexStarts(pre[0].value);
      assert |first| == |Sep(s)| + |LexMember(pre[0])| && |LexMember(pre[0])| > 2;
      hide LexMember;
      if n < |first| {
        assert h[..n] == first[..n];
        CutInFirstMember(src, s, pre[0], n, stk, m);
      } else {
        var z := h'[..n - |first|];
        assert h[..n] == Sep(s) + (LexMember(pre[0]) + z);
        PassesMember(src, s, pre[0], z, stk, m);
        CutBeforeRows(src, ObjectComma, pre[1..], n - |first|, stk, SetMeta(m, pre[0].key, pre[0].value).value);
      }
    }
  }

  lemma {:induction false} PassesMember(src: Source, s: TokenState, e: Member, z: Lexemes,
      stk: seq<TokenState>, m: Metadata)
    requires InObject(s) && !m.NilMeta? && e.key != "rows" && SetMeta(m, e.key, e.value).Ok?
    ensures BeginLoop(RowsConfig(src), Cursor(Sep(s) + (LexMember(e) + z), s, stk), m)
            == BeginLoop(RowsConfig(src), Cursor(z, ObjectComma, stk), SetMeta(m, e.key, e.value).value)
  {
    ReadsMember(s, e, z, stk);
    hide Token, Decode, LexMember, SetMeta;
  }

  lemma {:induction false} CutInFirstMember(src: Source, s: TokenState, e: Member, n: nat,
      stk: seq<TokenState>, m: Metadata)
    requires InObject(s) && !m.NilMeta? && e.key != "rows" && n < |Sep(s) + LexMember(e)|
    ensures BeginLoop(RowsConfig(src), Cursor((Sep(s) + LexMember(e))[..n], s, stk), m).0
            == Some(if n - |Sep(s)| <= 2 then EOF else Syntax)
  {
    MemberTruncated(s, e, n, stk);
    hide Token, Decode, LexMember, SetMeta;
  }

  lemma {:induction false} CutAtRowsKey(src: Source, s: TokenState, n: nat, stk: seq<TokenState>,
      m: Metadata)
    requires InObject(s) && n < |Sep(s)| + 3
    ensures BeginLoop(RowsConfig(src), Cursor((Sep(s) + [Text("rows"), Colon, LBracket])[..n], s, stk), m).0
            == Some(if n <= |Sep(s)| then EOF else BadGateway(EOF))
  {
    var ls := Sep(s) + [Text("rows"), Colon, LBracket];
    var c := Cursor(ls[..n], s, stk);
    var k := n - |Sep(s)|;
    if k <= 0 {
      if n == 1 {
        assert Token(c) == Token(Cursor([], ObjectKey, stk));
      }
    } else {
      var z := if k == 1 then [] else [Colon];
      assert ls[..n] == Sep(s) + ([Text("rows")] + z) by {
        assert ls[..n] == Sep(s) + [Text("rows"), Colon, LBracket][..k];
      }
      CutBehindKey(src, s, z, stk, m);
    }
  }

  lemma {:induction false} CutBehindKey(src: Source, s: TokenState, z: Lexemes, stk: seq<TokenState>, m: Metadata)
    requires InObject(s) && (z == [] || z == [Colon])
    ensures BeginLoop(RowsConfig(src), Cursor(Sep(s) + ([Text("rows")] + z), s, stk), m).0 == Some(BadGateway(EOF))
  {
    ReadsKey(s, "rows", z, stk);
    var c := Cursor(z, ObjectColon, stk);
    assert Token(c).0 == Err(EOF) by {
      if z == [Colon] {
        assert Token(c) == Token(Cursor([], ObjectValue, stk));
      }
    }
    hide Token;
  }

  /** finish passes on io.EOF only when nothing is left. */
  lemma {:induction false} BareEofMeansNothingLeft(cfg: Config, c: Cursor, m: Metadata)
    requires FinishLoop(cfg, c, m).0 == Some(EOF)
    ensures FinishLoop(cfg, c, m).1.rest == []
    decreases |c.rest|
  {
    if More(c) {
      var (t, c1) := Token(c);
      TokenEofMeansNothingLeft(c);
      match t
      case Ok(RBrace) => BareEofMeansNothingLeft(cfg, c1, m);
      case Ok(Text(key)) =>
        hide Decode, SetMeta;
        DecodeEofMeansNothingLeft(c1);
        var (e, c2, m') := ParseMeta(c1, m, key);
        if e.None? {
          BareEofMeansNothingLeft(cfg, c2, m');
        }
      case _ =>
    }
  }

  lemma {:induction false} TokenEofMeansNothingLeft(c: Cursor)
    ensures Token(c).0 == Err(EOF) ==> Token(c).1.rest == []
    decreases |c.rest|
  {
    if c.rest != [] && c.rest[0] == Colon {
      TokenEofMeansNothingLeft(Skip(c, ObjectValue));
    } else if c.rest != [] && c.rest[0] == Comma {
      TokenEofMeansNothingLeft(Skip(c, if c.state == ArrayComma then ArrayValue else ObjectKey));
    }
  }

  lemma DecodeEofMeansNothingLeft(c: Cursor)
    ensures Decode(c).0 == Err(EOF) ==> Decode(c).1.rest == []
  {
  }

  /** A row reader whose query is cut behind the opening bracket of its rows: if it ends without
      an error of its own, nothing is left of the input. */
  lemma {:induction false} CutBehindRowsKey(src: Source, q: Query, n: nat, stk: seq<TokenState>, m: Metadata)
    requires GoodQuery(src, q) && !m.NilMeta? && FoldMeta(m, q.post).Some?
    requires n < |LexItems(q.items) + LexMembersTail(q.post)|
    ensures var c := Cursor((LexItems(q.items) + LexMembersTail(q.post))[..n], ArrayStart, stk + [ObjectValue]);
            var d := Drain(RowsConfig(src), IterState(c, true, false, m));
            d.end == EOF ==> d.final.cur.rest == [] && d.final.closed && d.final.begun
  {
    hide Drain, FinishLoop, FoldMeta;
    var cfg, rows, last := RowsConfig(src), LexItems(q.items), LexMembersTail(q.post);
    LexItemsIsBody(q.items);
    if n < |rows| {
      assert (rows + last)[..n] == rows[..n];
      DrainItemsTruncated(cfg, ArrayStart, q.items, n, stk + [ObjectValue], m);
    } else {
      var z := last[..n - |rows|];
      assert (rows + last)[..n] == ItemsBody(ArrayStart, q.items) + ([RBracket] + z);
      DrainItems(cfg, ArrayStart, q.items, [RBracket] + z, stk + [ObjectValue], m);
      DrainAtBracket(cfg, AfterItems(ArrayStart, q.items), z, stk, m);
      FinishLoopTruncated(cfg, q.post, n - |rows|, stk, m);
      if FinishLoop(cfg, Cursor(z, ObjectComma, stk), m).0 == Some(EOF) {
        BareEofMeansNothingLeft(cfg, Cursor(z, ObjectComma, stk), m);
      }
    }
  }

  /** begin and the rows of one query that is cut short: begin fails with a bare io.EOF exactly
      if the cut is in front of the `rows` key and not inside a value; if it does not fail, and
      the rows end without an error of their own, nothing is left. */
  lemma {:induction false} CutQuery(src: Source, s: TokenState, q: Query, n: nat)
    requires InArray(s) && GoodQuery(src, q)
    requires n < |Sep(s) + Lex(QueryValue(q))|
    ensures var cfg := RowsConfig(src);
            var body := Cursor((Sep(s) + Lex(QueryValue(q)))[..n], s, [TopValue, ObjectValue]);
            var (e, c, m) := IterSpec.Begin(cfg, body, NO_ROWS_META);
            var k := n - |Sep(s)|;
            && (e.Some? ==>
                  && AsUnexpectedDelim(e.value) == None
                  && (e.value == EOF <==> k >= 1 && BeforeRows(ObjectStart, q.pre, k - 1)))
            && (e.None? ==>
                  && !(k >= 1 && BeforeRows(ObjectStart, q.pre, k - 1))
                  && var d := Drain(cfg, IterState(c, true, false, m));
                     d.end == EOF ==> d.final.cur.rest == [] && d.final.closed && d.final.begun)
  {
    hide Drain, BeginLoop, FoldMeta, Lex, BeforeRows;
    var k := n - |Sep(s)|;
    var head, y := Head(ObjectStart, q.pre, "rows"), LexItems(q.items) + LexMembersTail(q.post);
    KeyedLayout(q.pre, "rows", q.items, q.post);
    FoldMetaAppend(NO_ROWS_META, q.pre, q.post);
    assert Lex(QueryValue(q)) == [LBrace] + (head + y);
    if k <= 0 {
      CutBeforeQuery(src, s, q, n);
    } else if k - 1 < |head| {
      CutInQueryHead(src, s, q, head, y, n, k);
    } else {
      CutBehindQueryHead(src, s, q, head, y, n, k);
    }
  }

  lemma {:induction false} CutBeforeQuery(src: Source, s: TokenState, q: Query, n: nat)
    requires InArray(s) && n <= |Sep(s)|
    ensures var body := Cursor((Sep(s) + Lex(QueryValue(q)))[..n], s, [TopValue, ObjectValue]);
            IterSpec.Begin(RowsConfig(src), body, NO_ROWS_META).0
            == Some(BadGateway(EOF))
  {
    hide Lex, BeginLoop;
    var c := Cursor((Sep(s) + Lex(QueryValue(q)))[..n], s, [TopValue, ObjectValue]);
    assert c.rest == Sep(s)[..n];
    if n == 1 {
      assert Token(c) == Token(Cursor([], ArrayValue, c.stack));
    }
  }

  lemma {:induction false} CutInQueryHead(src: Source, s: TokenState, q: Query, head: Lexemes,
      y: Lexemes, n: nat, k: int)
    requires InArray(s) && GoodQuery(src, q) && FoldMeta(NO_ROWS_META, q.pre).Some?
    requires head == Head(ObjectStart, q.pre, "rows") && Lex(QueryValue(q)) == [LBrace] + (head + y)
    requires k == n - |Sep(s)| && 0 < k <= |head|
    ensures var body := Cursor((Sep(s) + Lex(QueryValue(q)))[..n], s, [TopValue, ObjectValue]);
            var e := IterSpec.Begin(RowsConfig(src), body, NO_ROWS_META).0;
            e.Some? && AsUnexpectedDelim(e.value) == None && (e.value == EOF <==> BeforeRows(ObjectStart, q.pre, k - 1))
  {
    hide Lex, BeginLoop, FoldMeta, BeforeRows;
    var c := Cursor((Sep(s) + Lex(QueryValue(q)))[..n], s, [TopValue, ObjectValue]);
    assert c.rest == Separator(s) + ([LBrace] + head[..k - 1]);
    OpenDelim(c, LBrace, head[..k - 1]);
    CutBeforeRows(src, ObjectStart, q.pre, k - 1, c.stack + [AfterSeparator(s)], NO_ROWS_META);
  }

  lemma {:induction false} BeginBehindQueryHead(src: Source, s: TokenState, q: Query, head: Lexemes,
      y: Lexemes, n: nat, k: int)
    requires InArray(s) && GoodQuery(src, q) && FoldMeta(NO_ROWS_META, q.pre).Some?
    requires head == Head(ObjectStart, q.pre, "rows") && Lex(QueryValue(q)) == [LBrace] + (head + y)
    requires k == n - |Sep(s)| && |head| < k < |Lex(QueryValue(q))|
    ensures var body := Cursor((Sep(s) + Lex(QueryValue(q)))[..n], s, [TopValue, ObjectValue]);
            IterSpec.Begin(RowsConfig(src), body, NO_ROWS_META) ==
            (None,
             Cursor(y[..k - 1 - |head|], ArrayStart, [TopValue, ObjectValue, AfterSeparator(s)] + [ObjectValue]),
             FoldMeta(NO_ROWS_META, q.pre).value)
  {
    hide Lex, BeginLoop, FoldMeta, Head;
    var c := Cursor((Sep(s) + Lex(QueryValue(q)))[..n], s, [TopValue, ObjectValue]);
    var z := y[..k - 1 - |head|];
    assert c.rest == Separator(s) + ([LBrace] + (head + z));
    BeginReads(RowsConfig(src), c, q.pre, z, NO_ROWS_META);
    assert c.stack + [AfterSeparator(s), ObjectValue] == [TopValue, ObjectValue, AfterSeparator(s)] + [ObjectValue];
  }

  lemma {:induction false} CutBehindQueryHead(src: Source, s: TokenState, q: Query, head: Lexemes,
      y: Lexemes, n: nat, k: int)
    requires InArray(s) && GoodQuery(src, q)
    requires FoldMeta(NO_ROWS_META, q.pre).Some? && FoldMeta(FoldMeta(NO_ROWS_META, q.pre).value, q.post).Some?
    requires y == LexItems(q.items) + LexMembersTail(q.post)
    requires head == Head(ObjectStart, q.pre, "rows") && Lex(QueryValue(q)) == [LBrace] + (head + y)
    requires k == n - |Sep(s)| && |head| < k < |Lex(QueryValue(q))|
    ensures var cfg := RowsConfig(src);
            var body := Cursor((Sep(s) + Lex(QueryValue(q)))[..n], s, [TopValue, ObjectValue]);
            var (e, c, m) := IterSpec.Begin(cfg, body, NO_ROWS_META);
            && e.None?
            && !BeforeRows(ObjectStart, q.pre, k - 1)
            && var d := Drain(cfg, IterState(c, true, false, m));
               d.end == EOF ==> d.final.cur.rest == [] && d.final.closed && d.final.begun
  {
    hide Lex, FoldMeta, Drain, BeforeRows, IterSpec.Begin;
    BeginBehindQueryHead(src, s, q, head, y, n, k);
    CutBehindRowsKey(src, q, k - 1 - |head|, [TopValue, ObjectValue, AfterSeparator(s)],
                     FoldMeta(NO_ROWS_META, q.pre).value);
    NotBeforeRows(ObjectStart, q.pre, k - 1);
  }

  lemma {:induction false} NotBeforeRows(s: TokenState, pre: seq<Member>, n: int)
    requires n >= |Head(s, pre, "rows")|
    ensures !BeforeRows(s, pre, n)
    decreases |pre|
  {
    if pre != [] {
      LexStarts(pre[0].value);
      hide Lex;
      assert |Head(s, pre, "rows")| == |Sep(s)| + |LexMember(pre[0])| + |Head(ObjectComma, pre[1..], "rows")|;
      NotBeforeRows(ObjectComma, pre[1..], n - |Sep(s)| - |LexMember(pre[0])|);
    }
  }

  // ---------------------------------------------------------------------------
  // The whole response, cut short
  // ---------------------------------------------------------------------------

  lemma {:induction false} LastCounts(a: seq<Event>, d: Delivered)
    requires d.events != []
    ensures LooksComplete(Prepend(a, d)) <==> LooksComplete(d)
  {
  }

  /** A row reader inside the multi-query reader that has begun on a query cut short behind its
      `rows` key: the response does not look complete. */
  lemma {:induction false} CutRowsAreNoticed(src: Source, input: Lexemes, st: MultiState)
    requires st.Reading? && !st.rows.closed && st.rows.begun && !st.legacy
    requires var d := Drain(RowsConfig(src), st.rows);
             d.end == EOF ==> d.final.cur.rest == [] && d.final.closed && d.final.begun
    ensures !LooksComplete(Deliver(src, input, st))
  {
    hide Deliver, Drain;
    EventsOfReader(src, input, st);
    var d := Drain(RowsConfig(src), st.rows);
    var st' := st.(rows := d.final);
    if d.end == EOF {
      NothingLeft(src, input, st');
      LastCounts([EndOfQuery(d.final.meta)], Deliver(src, input, st'));
      LastCounts(RowEvents(d.rows), Prepend([EndOfQuery(d.final.meta)], Deliver(src, input, st')));
    } else {
      LastCounts(RowEvents(d.rows), Delivered([End(d.end, d.final.meta)], st'));
    }
  }

  lemma {:induction false} NothingLeft(src: Source, input: Lexemes, st: MultiState)
    requires st.Reading? && st.rows.closed && !st.legacy && st.rows.cur.rest == []
    ensures Deliver(src, input, st).events == [End(BadGateway(EOF), st.rows.meta)]
  {
    assert IterSpec.Begin(RowsConfig(src), st.rows.cur, NO_ROWS_META).0 == Some(BadGateway(EOF));
    NextQueryFails(src, input, st, BadGateway(EOF));
  }

  /** What follows the opening bracket of the queries, from behind the first ones on. */
  function Rest(s: TokenState, qs: seq<Query>, tail: Lexemes): Lexemes {
    ItemsBody(s, QueryValues(qs)) + ([RBracket] + tail)
  }

  lemma {:induction false} RestOf(s: TokenState, qs: seq<Query>, tail: Lexemes)
    requires InArray(s) && qs != []
    ensures Rest(s, qs, tail) == (Sep(s) + Lex(QueryValue(qs[0]))) + Rest(ArrayComma, qs[1..], tail)
  {
    hide Lex, QueryValue;
    assert QueryValues(qs)[1..] == QueryValues(qs[1..]);
  }

  /** Behind a complete query. */
  lemma {:induction false} CutBehindQuery(src: Source, input: Lexemes, st: MultiState, qs: seq<Query>,
      tail: Lexemes, n: nat)
    requires GoodQueries(src, qs) && n <= |Rest(ArrayComma, qs, tail)|
    requires st.Reading? && st.rows.closed && !st.legacy
    requires st.rows.cur == Cursor(Rest(ArrayComma, qs, tail)[..n], ArrayComma, [TopValue, ObjectValue])
    ensures LooksComplete(Deliver(src, input, st)) <==> Unnoticed(src.closeError, ArrayComma, qs, n)
    decreases |qs|
  {
    hide Deliver, Lex, Drain, IterSpec.Begin, BeforeRows;
    if qs == [] {
      if n == 0 {
        NothingLeft(src, input, st);
      } else {
        AtClosingBracket(src, input, st);
      }
    } else {
      var first, more := Sep(ArrayComma) + Lex(QueryValue(qs[0])), Rest(ArrayComma, qs[1..], tail);
      RestOf(ArrayComma, qs, tail);
      if n < |first| {
        assert Rest(ArrayComma, qs, tail)[..n] == first[..n];
        CutQuery(src, ArrayComma, qs[0], n);
        var (e, c, m) := IterSpec.Begin(RowsConfig(src), st.rows.cur, NO_ROWS_META);
        if e.Some? {
          NextQueryFails(src, input, st, e.value);
        } else {
          NextQueryThenRead(src, input, st);
          CutRowsAreNoticed(src, input, Reading(IterState(c, true, false, m), false, st.queryIndex + 1));
        }
      } else {
        var end := more[..n - |first|];
        assert Rest(ArrayComma, qs, tail)[..n] == first + end;
        WholeQueryBeforeEnd(ArrayComma, qs[0], end);
        OneQuery(src, ArrayComma, [qs[0]], end);
        NextQueryThenRead(src, input, st);
        var (e, c, m) := IterSpec.Begin(RowsConfig(src), st.rows.cur, NO_ROWS_META);
        var st1 := Reading(IterState(c, true, false, m), false, st.queryIndex + 1);
        EventsOfReader(src, input, st1);
        var d := Drain(RowsConfig(src), st1.rows);
        NoQueryLeft(qs[0], end);
        CutBehindQuery(src, input, st1.(rows := d.final), qs[1..], tail, n - |first|);
        LastEvents(src, input, st1, d);
      }
    }
  }

  lemma {:induction false} LastEvents(src: Source, input: Lexemes, st: MultiState, d: Drained)
    requires st.Reading? && d.end == EOF && !st.legacy
    ensures var last := Deliver(src, input, st.(rows := d.final));
            LooksComplete(Prepend(RowEvents(d.rows), Prepend([EndOfQuery(d.final.meta)], last))) <==> LooksComplete(last)
  {
    var last := Deliver(src, input, st.(rows := d.final));
    EventsFollow(src, input, st.(rows := d.final));
    hide Deliver;
    LastCounts([EndOfQuery(d.final.meta)], last);
    LastCounts(RowEvents(d.rows), Prepend([EndOfQuery(d.final.meta)], last));
  }

  lemma {:induction false} EventsFollow(src: Source, input: Lexemes, st: MultiState)
    requires st.Reading?
    ensures Deliver(src, input, st).events != []
  {
  }

  lemma {:induction false} WholeQueryBeforeEnd(s: TokenState, q: Query, end: Lexemes)
    requires InArray(s)
    ensures AtQuery(s, [q], end) == Cursor((Sep(s) + Lex(QueryValue(q))) + end, s, [TopValue, ObjectValue])
  {
    hide Lex, QueryValue;
    assert QueryValues([q])[1..] == [] && QueryValues([q])[0] == QueryValue(q);
    assert ItemsBody(s, QueryValues([q])) == Sep(s) + (Lex(QueryValue(q)) + []);
  }

  lemma {:induction false} NoQueryLeft(q: Query, end: Lexemes)
    ensures AfterQuery(q, [q][1..], end) ==
            IterState(Cursor(end, ArrayComma, [TopValue, ObjectValue]), true, true, QueryMeta(q))
  {
    assert [q][1..] == [] && QueryValues([]) == [];
    assert ItemsBody(ArrayComma, []) + end == end;
  }

  lemma {:induction false} AtClosingBracket(src: Source, input: Lexemes, st: MultiState)
    requires st.Reading? && st.rows.closed && !st.legacy
    requires st.rows.cur.rest != [] && st.rows.cur.rest[0] == RBracket && st.rows.cur.state == ArrayComma
    ensures LooksComplete(Deliver(src, input, st)) <==> CloseResult(src.closeError) == EOF
  {
    assert Token(st.rows.cur).0 == Ok(RBracket);
    assert IterSpec.Begin(RowsConfig(src), st.rows.cur, NO_ROWS_META).0 == Some(UnexpectedDelim(RBracket));
    hide IterSpec.Begin;
    assert Deliver(src, input, st).events == [End(CloseResult(src.closeError), st.rows.meta)];
  }

  lemma {:induction false} BeginFailsAtOnce(src: Source, input: Lexemes, e: Error)
    requires Multi.Begin(src, input).0 == Some(e)
    ensures LooksComplete(Deliver(src, input, Unstarted)) <==> e == EOF && Multi.Begin(src, input).1.Reading?
  {
    hide Multi.Begin;
  }

  lemma {:induction false} CutAtColon(y: Lexemes)
    requires y == [] || y == [Colon]
    ensures ConsumeDelim(Cursor(y, ObjectColon, [TopValue]), LBracket).0 == Some(BadGateway(EOF))
  {
    if y == [Colon] {
      assert Token(Cursor(y, ObjectColon, [TopValue])) == Token(Cursor([], ObjectValue, [TopValue]));
    }
  }

  lemma {:induction false} CutAtBrace(src: Source)
    ensures Multi.Begin(src, []).0 == Some(BadGateway(EOF))
    ensures Multi.Begin(src, [LBrace]) == (Some(EOF), Broken)
  {
    hide IterSpec.Begin;
    OpenDelim(NewCursor([LBrace]), LBrace, []);
  }

  lemma {:induction false} CutBehindResultsKey(src: Source, y: Lexemes)
    requires y == [] || y == [Colon]
    ensures Multi.Begin(src, [LBrace] + ([Text("results")] + y)).0 == Some(BadGateway(EOF))
  {
    hide IterSpec.Begin;
    var z := [Text("results")] + y;
    OpenDelim(NewCursor([LBrace] + z), LBrace, z);
    assert [] + [TopValue] == [TopValue];
    ReadsKey(ObjectStart, "results", y, [TopValue]);
    CutAtColon(y);
  }

  /** A cut inside `{"results":[`. */
  lemma {:induction false} CutInResultsKey(src: Source, cut: nat)
    requires cut < 4
    ensures !LooksComplete(Deliver(src, [LBrace, Text("results"), Colon, LBracket][..cut], Unstarted))
  {
    hide Multi.Begin, Deliver, LooksComplete;
    var input := [LBrace, Text("results"), Colon, LBracket][..cut];
    if cut < 2 {
      assert input == if cut == 0 then [] else [LBrace];
      CutAtBrace(src);
      BeginFailsAtOnce(src, input, if cut == 0 then BadGateway(EOF) else EOF);
    } else {
      var y := if cut == 2 then [] else [Colon];
      assert input == [LBrace] + ([Text("results")] + y);
      CutBehindResultsKey(src, y);
      BeginFailsAtOnce(src, input, BadGateway(EOF));
    }
  }

  /** A cut behind `{"results":[`. */
  lemma {:induction false} CutInQueries(src: Source, qs: seq<Query>, tail: Lexemes, n: nat)
    requires qs != [] && GoodQueries(src, qs) && n <= |Rest(ArrayStart, qs, tail)|
    ensures var input := [LBrace] + ([Text("results")] + ([Colon] + ([LBracket] + Rest(ArrayStart, qs, tail)[..n])));
            LooksComplete(Deliver(src, input, Unstarted)) <==> Unnoticed(src.closeError, ArrayStart, qs, n)
  {
    hide Deliver, Lex, Drain, IterSpec.Begin, Multi.Begin, BeforeRows;
    var y := Rest(ArrayStart, qs, tail)[..n];
    var input := [LBrace] + ([Text("results")] + ([Colon] + ([LBracket] + y)));
    var first, more := Sep(ArrayStart) + Lex(QueryValue(qs[0])), Rest(ArrayComma, qs[1..], tail);
    RestOf(ArrayStart, qs, tail);
    BeginsOnResults(src, y);
    var (e, c, m) := IterSpec.Begin(RowsConfig(src), Cursor(y, ArrayStart, [TopValue, ObjectValue]), NO_ROWS_META);
    var st1 := Reading(IterState(c, true, false, m), false, 0);
    if n < |first| {
      assert y == first[..n];
      CutQuery(src, ArrayStart, qs[0], n);
      if e.Some? {
        BeginFailsAtOnce(src, input, e.value);
      } else {
        BeginThenRead(src, input, st1);
        CutRowsAreNoticed(src, input, st1);
      }
    } else {
      var end := more[..n - |first|];
      assert y == first + end;
      WholeQueryBeforeEnd(ArrayStart, qs[0], end);
      OneQuery(src, ArrayStart, [qs[0]], end);
      BeginThenRead(src, input, st1);
      EventsOfReader(src, input, st1);
      var d := Drain(RowsConfig(src), st1.rows);
      NoQueryLeft(qs[0], end);
      CutBehindQuery(src, input, st1.(rows := d.final), qs[1..], tail, n - |first|);
      LastEvents(src, input, st1, d);
    }
  }

  lemma {:induction false} ResponseText(qs: seq<Query>, more: seq<Member>)
    ensures Lex(Obj([Member("results", Arr(QueryValues(qs)))] + more))
            == [LBrace, Text("results"), Colon, LBracket] + Rest(ArrayStart, qs, LexMembersTail(more))
  {
    hide Lex, QueryValues;
    var y := Rest(ArrayStart, qs, LexMembersTail(more));
    var body := Lex(Obj([Member("results", Arr(QueryValues(qs)))] + more));
    assert LexMembersTail(more) + [] == LexMembersTail(more) && body + [] == body;
    ResponseLayout(qs, more, [], y);
    assert [LBrace] + ([Text("results")] + ([Colon] + ([LBracket] + y))) == [LBrace, Text("results"), Colon, LBracket] + y;
  }

  lemma {:induction false} NothingUnnoticed(closeError: Option<Error>, qs: seq<Query>, n: int)
    requires qs != [] && n <= 0
    ensures !Unnoticed(closeError, ArrayStart, qs, n)
  {
    hide Lex;
    LexStarts(QueryValue(qs[0]));
  }

  /** Exactly which truncated multi-query responses look complete: those cut inside a query, in
      front of its `rows` key and not inside a value; and those cut behind the closing bracket of
      the queries.  Behind the first brace the reader reports io.EOF, too, but then panics when it
      is asked for the metadata. */
  lemma {:induction false} MultiTruncationIsUnnoticedIff(src: Source, qs: seq<Query>,
      more: seq<Member>, cut: nat)
    requires qs != [] && GoodQueries(src, qs)
    requires cut < |Lex(Obj([Member("results", Arr(QueryValues(qs)))] + more))|
    ensures var d := Deliver(src, Lex(Obj([Member("results", Arr(QueryValues(qs)))] + more))[..cut], Unstarted);
            && (LooksComplete(d) <==> Unnoticed(src.closeError, ArrayStart, qs, cut - 4))
            && (Crashes(d) <==> cut == 1)
  {
    hide Deliver, Lex, BeforeRows, Unnoticed, Rest, QueryValues, Crashes;
    var body := Lex(Obj([Member("results", Arr(QueryValues(qs)))] + more));
    var y := Rest(ArrayStart, qs, LexMembersTail(more));
    var start := [LBrace, Text("results"), Colon, LBracket];
    ResponseText(qs, more);
    CrashesIff(src, body[..cut]);
    assert body[..cut] == [LBrace] <==> cut == 1;
    if cut < 4 {
      assert body[..cut] == start[..cut];
      CutInResultsKey(src, cut);
      NothingUnnoticed(src.closeError, qs, cut - 4);
    } else {
      assert body[..cut] == [LBrace] + ([Text("results")] + ([Colon] + ([LBracket] + y[..cut - 4])));
      CutInQueries(src, qs, LexMembersTail(more), cut - 4);
    }
  }

  // ---------------------------------------------------------------------------
  // When the reader panics
  // ---------------------------------------------------------------------------

  /** Whatever the body, the reader panics on the way to its first error exactly if the body is a
      single brace: there is then no row reader to ask for the metadata. */
  lemma {:induction false} CrashesIff(src: Source, input: Lexemes)
    ensures Crashes(Deliver(src, input, Unstarted)) <==> input == [LBrace]
  {
    hide Multi.Begin, Deliver, Crashes;
    var (e, st) := Multi.Begin(src, input);
    BrokenEofIff(src, input);
    if e.Some? {
      FailsAtOnce(src, input);
    } else {
      BeginThenRead(src, input, st);
      ReadersNeverCrash(src, input, st);
    }
  }

  lemma {:induction false} FailsAtOnce(src: Source, input: Lexemes)
    requires Multi.Begin(src, input).0.Some?
    ensures Crashes(Deliver(src, input, Unstarted)) <==> Multi.Begin(src, input) == (Some(EOF), Broken)
  {
    hide Multi.Begin;
    var (e, st) := Multi.Begin(src, input);
    assert st.Broken? || st.Reading?;
    assert Deliver(src, input, Unstarted).events == [Failing(e.value, st)];
  }

  /** begin fails with a bare io.EOF and without a row reader exactly behind a single brace. */
  lemma {:induction false} BrokenEofIff(src: Source, input: Lexemes)
    ensures Multi.Begin(src, input) == (Some(EOF), Broken) <==> input == [LBrace]
  {
    CutAtBrace(src);
    hide IterSpec.Begin;
    if Multi.Begin(src, input) == (Some(EOF), Broken) {
      var (e, c) := ConsumeDelim(NewCursor(input), LBrace);
      DelimErrorIsWrapped(NewCursor(input), LBrace);
      FirstBrace(input);
      var (k, c2) := NextKey(c);
      if k.Ok? {
        DelimErrorIsWrapped(c2, LBracket);
      }
      KeyEofMeansNothingLeft(c);
    }
  }

  lemma {:induction false} DelimErrorIsWrapped(c: Cursor, d: Lexeme)
    ensures ConsumeDelim(c, d).0 != Some(EOF)
  {
    hide Token;
  }

  lemma {:induction false} FirstBrace(input: Lexemes)
    requires ConsumeDelim(NewCursor(input), LBrace).0.None?
    ensures input != [] && input[0] == LBrace
    ensures ConsumeDelim(NewCursor(input), LBrace).1 == Cursor(input[1..], ObjectStart, [TopValue])
  {
    assert [] + [TopValue] == [TopValue];
  }

  lemma {:induction false} KeyEofMeansNothingLeft(c: Cursor)
    requires c.state == ObjectStart && NextKey(c).0 == Err(EOF)
    ensures c.rest == []
  {
  }

  /** A reader that has a row reader, and is not closed twice, never panics. */
  lemma {:induction false} ReadersNeverCrash(src: Source, input: Lexemes, st: MultiState)
    requires HasRows(st) && !st.ClosedAgain?
    ensures !Crashes(Deliver(src, input, st)) && Deliver(src, input, st).events != []
    decreases Remaining(input, st), if st.Reading? && st.rows.closed then 0 else 1
  {
    var (r, st') := Multi.Next(src, input, st);
    StillHasRows(src, input, st);
    DeliverStep(src, input, st);
    hide Multi.Next, Deliver;
    if r.Row? || r.EOQ? {
      ReadersNeverCrash(src, input, st');
    }
  }

  lemma {:induction false} StillHasRows(src: Source, input: Lexemes, st: MultiState)
    requires HasRows(st) && !st.ClosedAgain?
    ensures HasRows(Multi.Next(src, input, st).1) && !Multi.Next(src, input, st).1.ClosedAgain?
    ensures !Multi.Next(src, input, st).0.Panic?
  {
    hide IterSpec.Begin;
  }

  // ---------------------------------------------------------------------------
  // When io.EOF is final
  // ---------------------------------------------------------------------------

  /** begin passes on io.EOF only when nothing is left. */
  lemma {:induction false} BeginEofMeansNothingLeft(src: Source, c: Cursor)
    requires IterSpec.Begin(RowsConfig(src), c, NO_ROWS_META).0 == Some(EOF)
    ensures IterSpec.Begin(RowsConfig(src), c, NO_ROWS_META).1.rest == []
  {
    hide BeginLoop;
    BeginLoopEofMeansNothingLeft(RowsConfig(src), ConsumeDelim(c, LBrace).1, NO_ROWS_META);
  }

  lemma {:induction false} BeginLoopEofMeansNothingLeft(cfg: Config, c: Cursor, m: Metadata)
    ensures BeginLoop(cfg, c, m).0 == Some(EOF) ==> BeginLoop(cfg, c, m).1.rest == []
    decreases |c.rest|
  {
    TokenEofMeansNothingLeft(c);
    var (k, c1) := NextKey(c);
    hide Token, Decode, SetMeta;
    if k.Ok? && k.value != cfg.expectedKey {
      DecodeEofMeansNothingLeft(c1);
      var (e, c2, m') := ParseMeta(c1, m, k.value);
      if e.None? {
        BeginLoopEofMeansNothingLeft(cfg, c2, m');
      }
    }
  }

  /** The states in which io.EOF is all that will ever come. */
  predicate Ended(src: Source, st: MultiState) {
    || st.Closed?
    || (st.ClosedAgain? && st.last.Some? && st.legacy)
    || (st.Reading? && st.legacy && st.rows.closed && CloseResult(src.closeError) == EOF)
  }

  /** After an io.EOF that is not final the next call fails otherwise, or panics. */
  lemma {:induction false} EofOrNotAgain(src: Source, input: Lexemes, st: MultiState)
    requires Multi.Next(src, input, st).0 == Fail(EOF)
    ensures var st' := Multi.Next(src, input, st).1;
            var r := Multi.Next(src, input, st').0;
            if Ended(src, st') then r == Fail(EOF) && Ended(src, Multi.Next(src, input, st').1)
            else r.Panic? || (r.Fail? && r.error != EOF)
  {
    hide IterSpec.Begin, IterSpec.NextBegun;
    var st' := Multi.Next(src, input, st).1;
    if st.Unstarted? && Multi.Begin(src, input).0.Some? {
      EofOfBegin(src, input);
    } else if st.Reading? && st.rows.closed && !st.legacy {
      EofOfNextQuery(src, input, st);
    }
  }

  lemma {:induction false} EofOfBegin(src: Source, input: Lexemes)
    requires Multi.Begin(src, input).0 == Some(EOF)
    ensures var st' := Multi.Begin(src, input).1;
            !Ended(src, st') && var r := Multi.Next(src, input, st').0; r.Panic? || (r.Fail? && r.error != EOF)
  {
    var st' := Multi.Begin(src, input).1;
    if st'.Reading? {
      hide IterSpec.Begin;
      if st'.legacy {
        var key := NextKey(ConsumeDelim(NewCursor(input), LBrace).1);
        BeginEofMeansNothingLeft(src, NewCursor([LBrace, Text(key.0.value)] + key.1.rest));
      } else {
        var c := NextKey(ConsumeDelim(NewCursor(input), LBrace).1).1;
        BeginEofMeansNothingLeft(src, ConsumeDelim(c, LBracket).1);
      }
      hide Multi.Begin;
      RowsEndedByEOF(RowsConfig(src), st'.rows.cur, st'.rows.meta);
    }
  }

  lemma {:induction false} EofOfNextQuery(src: Source, input: Lexemes, st: MultiState)
    requires st.Reading? && st.rows.closed && !st.legacy && Multi.Next(src, input, st).0 == Fail(EOF)
    ensures var st' := Multi.Next(src, input, st).1;
            st'.Closed? || (!Ended(src, st') && var r := Multi.Next(src, input, st').0; r.Fail? && r.error != EOF)
  {
    hide IterSpec.Begin;
    var (e, c, m) := IterSpec.Begin(RowsConfig(src), st.rows.cur, NO_ROWS_META);
    if e == Some(EOF) {
      BeginEofMeansNothingLeft(src, st.rows.cur);
      NothingToBegin(src, c);
    }
  }

  lemma {:induction false} NothingToBegin(src: Source, c: Cursor)
    requires c.rest == []
    ensures IterSpec.Begin(RowsConfig(src), c, NO_ROWS_META).0 == Some(BadGateway(EOF))
  {
  }

  /** An io.EOF is final, that is, all later calls report it too, exactly if the reader is then
      closed, or in legacy mode has read its one result set to the end and closing the body will
      report no error.  Otherwise, as behind a response cut short, the very next call reports
      another error or panics. */
  lemma {:induction false} EofIsFinalIff(src: Source, input: Lexemes, st: MultiState)
    requires Multi.Next(src, input, st).0 == Fail(EOF)
    ensures var st' := Multi.Next(src, input, st).1;
            (forall n: nat :: ReplyAfter(src, input, st', n) == Fail(EOF)) <==> Ended(src, st')
    ensures var st' := Multi.Next(src, input, st).1;
            var next := ReplyAfter(src, input, st', 0);
            !Ended(src, st') ==> next.Panic? || (next.Fail? && next.error != EOF)
  {
    hide Multi.Next, Ended;
    var st' := Multi.Next(src, input, st).1;
    EofOrNotAgain(src, input, st);
    if Ended(src, st') {
      forall n: nat
        ensures ReplyAfter(src, input, st', n) == Fail(EOF)
      {
        EndedStaysEnded(src, input, st', n);
      }
    } else {
      assert ReplyAfter(src, input, st', 0) != Fail(EOF);
    }
  }

  lemma {:induction false} EndedStaysEnded(src: Source, input: Lexemes, st: MultiState, n: nat)
    requires Ended(src, st)
    ensures Ended(src, After(src, input, st, n)) && ReplyAfter(src, input, st, n) == Fail(EOF)
    decreases n
  {
    hide IterSpec.Begin, IterSpec.NextBegun;
    var (r, st') := Multi.Next(src, input, st);
    assert r == Fail(EOF) && Ended(src, st');
    if n > 0 {
      hide Multi.Next, Ended;
      EndedStaysEnded(src, input, st', n - 1);
    }
  }
}
