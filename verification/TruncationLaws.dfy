/** What the streaming row reader reports on a body that was cut short.

    In object mode no proper prefix of a well-formed body ends cleanly.  For a keyed array
    that is not so: finish passes on a bare io.EOF from Token or Decode, and next cannot
    tell it from the end of the rows.  TruncationIsSilentIffInTrailingMember says exactly
    which prefixes are mistaken for complete bodies. */
module TruncationLaws {
  import opened Json
  import opened Decoder
  import opened IterSpec
  import opened IterLaws
  import opened Wrappers

  // ---------------------------------------------------------------------------
  // One step on a part of the body that is cut short
  // ---------------------------------------------------------------------------

  /** Decode on a truncated value: io.EOF if nothing of the value is left, else a syntax error. */
  lemma {:induction false} DecodeTruncated(c: Cursor, v: Value, n: nat)
    requires ValueAllowed(AfterSeparator(c.state))
    requires n < |Separator(c.state) + Lex(v)|
    requires c.rest == (Separator(c.state) + Lex(v))[..n]
    ensures Decode(c).0 == Err(if n <= |Separator(c.state)| then EOF else Syntax)
    ensures n <= |Separator(c.state)| ==> Decode(c).1.rest == []
  {
    hide Lex;
    var k := |Separator(c.state)|;
    if n <= k {
      DecodeNothing(c, v, n);
    } else {
      var part := Lex(v)[..n - k];
      SplitCut(Separator(c.state), Lex(v), n);
      PrepareSkipsSeparator(c, part);
      TruncatedValueIsInvalid(v, n - k);
      hide Parse, PrepareForDecode;
    }
  }

  lemma {:induction false} DecodeNothing(c: Cursor, v: Value, n: nat)
    requires ValueAllowed(AfterSeparator(c.state))
    requires n <= |Separator(c.state)| && c.rest == (Separator(c.state) + Lex(v))[..n]
    ensures Decode(c).0 == Err(EOF) && Decode(c).1.rest == []
  {
    hide Lex, Parse;
    assert c.rest == Separator(c.state)[..n];
  }

  lemma {:induction false} SplitCut(a: Lexemes, b: Lexemes, n: nat)
    requires |a| <= n <= |a| + |b|
    ensures (a + b)[..n] == a + b[..n - |a|]
  {
  }

  /** A member cut short: the key or the value cannot be read. */
  lemma {:induction false} MemberTruncated(s: TokenState, m: Member, n: nat, stk: seq<TokenState>)
    requires InObject(s) && n < |Sep(s) + LexMember(m)|
    ensures var c := Cursor((Sep(s) + LexMember(m))[..n], s, stk);
            var k := n - |Sep(s)|;
            if k <= 0 then
              && (n > 0 ==> More(c)) && (n == 0 ==> !More(c))
              && Token(c).0 == Err(EOF) && NextKey(c).0 == Err(EOF) && Token(c).1.rest == []
            else
              && More(c)
              && Token(c).0 == Ok(Text(m.key))
              && NextKey(c) == (Ok(m.key), Token(c).1)
              && Decode(Token(c).1).0 == Err(if k <= 2 then EOF else Syntax)
  {
    var ls := Sep(s) + LexMember(m);
    var c := Cursor(ls[..n], s, stk);
    var k := n - |Sep(s)|;
    if k <= 0 {
      if n == 1 {
        assert Token(c) == Token(Cursor([], ObjectKey, stk));
      }
    } else {
      var z := ([Colon] + Lex(m.value))[..k - 1];
      assert LexMember(m) == [Text(m.key)] + ([Colon] + Lex(m.value));
      assert ls[..n] == Sep(s) + ([Text(m.key)] + z);
      ReadsKey(s, m.key, z, stk);
      DecodeTruncated(Cursor(z, ObjectColon, stk), m.value, k - 1);
    }
  }

  /** The expected key or its `[` is cut off. */
  lemma {:induction false} ExpectedKeyTruncated(cfg: Config, s: TokenState, n: nat, stk: seq<TokenState>, m: Metadata)
    requires InObject(s) && n < |Sep(s)| + 3
    ensures BeginLoop(cfg, Cursor((Sep(s) + [Text(cfg.expectedKey), Colon, LBracket])[..n], s, stk), m).0.Some?
  {
    var ls := Sep(s) + [Text(cfg.expectedKey), Colon, LBracket];
    var c := Cursor(ls[..n], s, stk);
    var k := n - |Sep(s)|;
    if k <= 0 {
      if n == 1 {
        assert Token(c) == Token(Cursor([], ObjectKey, stk));
      }
    } else {
      var z := [Colon][..k - 1];
      assert ls[..n] == Sep(s) + ([Text(cfg.expectedKey)] + z);
      ReadsKey(s, cfg.expectedKey, z, stk);
      if k == 2 {
        assert Token(Cursor(z, ObjectColon, stk)) == Token(Cursor([], ObjectValue, stk));
      }
    }
  }

  /** With the body ending before the rows, begin fails. */
  lemma {:induction false} BeginLoopTruncated(cfg: Config, s: TokenState, pre: seq<Member>, n: nat,
      stk: seq<TokenState>, m: Metadata)
    requires InObject(s) && (m.NilMeta? ==> pre == []) && NoKey(pre, cfg.expectedKey)
    requires n < |Head(s, pre, cfg.expectedKey)|
    ensures BeginLoop(cfg, Cursor(Head(s, pre, cfg.expectedKey)[..n], s, stk), m).0.Some?
    decreases |pre|
  {
    var h := Head(s, pre, cfg.expectedKey);
    if pre == [] {
      ExpectedKeyTruncated(cfg, s, n, stk, m);
    } else {
      var first := Sep(s) + LexMember(pre[0]);
      var h' := Head(ObjectComma, pre[1..], cfg.expectedKey);
      assert h == first + h';
      if n < |first| {
        assert h[..n] == first[..n];
        MemberTruncated(s, pre[0], n, stk);
      } else {
        var n' := n - |first|;
        var z := h'[..n'];
        assert h[..n] == Sep(s) + (LexMember(pre[0]) + z);
        ReadsMember(s, pre[0], z, stk);
        match SetMeta(m, pre[0].key, pre[0].value)
        case Err(_) =>
        case Ok(m') => BeginLoopTruncated(cfg, ObjectComma, pre[1..], n', stk, m');
      }
    }
  }

  /** With nothing left, a reader does not end cleanly inside its rows. */
  lemma {:induction false} RowsEndedByEOF(cfg: Config, c: Cursor, m: Metadata)
    requires (cfg.objMode || cfg.expectedKey != "") && c.rest == []
    ensures Finish(cfg, c, m).0 == Some(BadGateway(if cfg.objMode then BadGateway(EOF) else EOF))
  {
  }

  lemma {:induction false} ItemTruncated(cfg: Config, s: TokenState, v: Value, n: nat, stk: seq<TokenState>,
      m: Metadata)
    requires InArray(s) && !cfg.objMode && cfg.expectedKey != ""
    requires 0 < n < |Sep(s) + Lex(v)|
    ensures Drain(cfg, IterState(Cursor((Sep(s) + Lex(v))[..n], s, stk), true, false, m)).end != EOF
  {
    var first := Sep(s) + Lex(v);
    var c := Cursor(first[..n], s, stk);
    assert Separator(s) == Sep(s);
    DecodeTruncated(c, v, n);
    LexStarts(v);
    assert c.rest[0] == first[0];
    assert More(c);
    if n <= |Sep(s)| {
      RowsEndedByEOF(cfg, Decode(c).1, m);
    }
    hide Decode, Lex, Finish;
  }

  lemma {:induction false} DrainNothing(cfg: Config, s: TokenState, stk: seq<TokenState>, m: Metadata)
    requires !cfg.objMode && cfg.expectedKey != ""
    ensures Drain(cfg, IterState(Cursor([], s, stk), true, false, m)).end == BadGateway(EOF)
  {
    RowsEndedByEOF(cfg, Cursor([], s, stk), m);
    hide Finish;
  }

  lemma {:induction false} DrainRefusedItem(cfg: Config, s: TokenState, v: Value, z: Lexemes, stk: seq<TokenState>,
      m: Metadata)
    requires InArray(s) && !cfg.objMode && !cfg.accepts(v)
    ensures Drain(cfg, IterState(Cursor(Sep(s) + (Lex(v) + z), s, stk), true, false, m)).end == RowError(cfg, Mismatch)
  {
    ReadsItem(s, v, z, stk);
    hide Token, Decode, More, Finish, Lex;
  }

  /** With the body ending inside the array, the reader does not end cleanly. */
  lemma {:induction false} DrainItemsTruncated(cfg: Config, s: TokenState, items: seq<Value>, n: nat,
      stk: seq<TokenState>, m: Metadata)
    requires InArray(s) && !cfg.objMode && cfg.expectedKey != ""
    requires n < |ItemsBody(s, items) + [RBracket]|
    ensures Drain(cfg, IterState(Cursor((ItemsBody(s, items) + [RBracket])[..n], s, stk), true, false, m)).end != EOF
    decreases |items|
  {
    hide Drain, Lex;
    var ls := ItemsBody(s, items) + [RBracket];
    if n == 0 {
      DrainNothing(cfg, s, stk, m);
    } else {
      var first := Sep(s) + Lex(items[0]);
      var ls' := ItemsBody(ArrayComma, items[1..]) + [RBracket];
      assert ls == first + ls';
      hide ItemsBody;
      if n < |first| {
        assert ls[..n] == first[..n];
        ItemTruncated(cfg, s, items[0], n, stk, m);
      } else {
        var z := ls'[..n - |first|];
        assert ls[..n] == Sep(s) + (Lex(items[0]) + z);
        if cfg.accepts(items[0]) {
          DrainOneItem(cfg, s, items[0], z, stk, m);
          DrainItemsTruncated(cfg, ArrayComma, items[1..], n - |first|, stk, m);
        } else {
          DrainRefusedItem(cfg, s, items[0], z, stk, m);
        }
      }
    }
  }

  // ---------------------------------------------------------------------------
  // Truncation behind the array
  // ---------------------------------------------------------------------------

  /** `n` lexemes behind the array end right after the comma, key or colon of a member. */
  predicate StopsInMember(post: seq<Member>, n: int)
    decreases |post|
  {
    post != [] &&
    (1 <= n <= 3 || StopsInMember(post[1..], n - 1 - |LexMember(post[0])|))
  }

  lemma {:induction false} FinishLoopTruncated(cfg: Config, post: seq<Member>, n: nat, stk: seq<TokenState>,
      m: Metadata)
    requires (m.NilMeta? ==> post == []) && FoldMeta(m, post).Some?
    requires n < |LexMembersTail(post)|
    ensures var e := FinishLoop(cfg, Cursor(LexMembersTail(post)[..n], ObjectComma, stk), m).0;
            e.Some? && (e == Some(EOF) <==> StopsInMember(post, n))
    decreases |post|
  {
    hide FinishLoop, SetMeta;
    var ls := LexMembersTail(post);
    if n == 0 {
      NeverStopsAt(post, n);
      FinishLoopEnded(cfg, stk, m);
    } else {
      var first := [Comma] + LexMember(post[0]);
      var ls' := LexMembersTail(post[1..]);
      var k := n - 1 - |LexMember(post[0])|;
      assert ls == first + ls';
      LexStarts(post[0].value);
      if n < |first| {
        assert ls[..n] == first[..n];
        FinishLoopInMember(cfg, post[0], n, stk, m);
        NeverStopsAt(post[1..], k);
      } else {
        assert Sep(ObjectComma) + (LexMember(post[0]) + ls'[..k]) == first + ls'[..k];
        assert ls[..n] == first + ls'[..k];
        FinishLoopStep(cfg, post[0], ls'[..k], stk, m);
        FinishLoopTruncated(cfg, post[1..], k, stk, SetMeta(m, post[0].key, post[0].value).value);
      }
    }
  }

  lemma {:induction false} FinishLoopEnded(cfg: Config, stk: seq<TokenState>, m: Metadata)
    ensures FinishLoop(cfg, Cursor([], ObjectComma, stk), m).0 == Some(BadGateway(EOF))
  {
  }

  lemma {:induction false} FinishLoopInMember(cfg: Config, m: Member, n: nat, stk: seq<TokenState>, meta: Metadata)
    requires !meta.NilMeta? && 0 < n < |[Comma] + LexMember(m)|
    ensures FinishLoop(cfg, Cursor(([Comma] + LexMember(m))[..n], ObjectComma, stk), meta).0
            == Some(if n <= 3 then EOF else Syntax)
  {
    MemberTruncated(ObjectComma, m, n, stk);
  }

  lemma {:induction false} FinishLoopStep(cfg: Config, m: Member, z: Lexemes, stk: seq<TokenState>, meta: Metadata)
    requires !meta.NilMeta? && SetMeta(meta, m.key, m.value).Ok?
    ensures FinishLoop(cfg, Cursor(Sep(ObjectComma) + (LexMember(m) + z), ObjectComma, stk), meta)
            == FinishLoop(cfg, Cursor(z, ObjectComma, stk), SetMeta(meta, m.key, m.value).value)
  {
    ReadsMember(ObjectComma, m, z, stk);
  }

  lemma {:induction false} NeverStopsAt(post: seq<Member>, n: int)
    requires n <= 0
    ensures !StopsInMember(post, n)
    decreases |post|
  {
    if post != [] {
      NeverStopsAt(post[1..], n - 1 - |LexMember(post[0])|);
    }
  }

  // ---------------------------------------------------------------------------
  // Exactly which truncated bodies look complete
  // ---------------------------------------------------------------------------

  /** `cut` lies one, two or three lexemes behind the body that has only the first `j` members
      behind the array and no closing brace: behind the comma, key or colon of member `j`. */
  predicate InMember(pre: seq<Member>, key: string, items: seq<Value>, post: seq<Member>, cut: nat, j: nat)
    requires j < |post|
  {
    1 <= cut - (|Lex(Keyed(pre, key, items, post[..j]))| - 1) <= 3
  }

  predicate InTrailingMember(pre: seq<Member>, key: string, items: seq<Value>, post: seq<Member>, cut: nat) {
    exists j: nat | j < |post| :: InMember(pre, key, items, post, cut, j)
  }

  predicate StopsAt(post: seq<Member>, n: int, j: nat)
    requires j < |post|
  {
    1 <= n - (|LexMembersTail(post[..j])| - 1) <= 3
  }

  lemma {:induction false} StopsAtNext(post: seq<Member>, n: int, j: nat)
    requires 1 <= j < |post|
    ensures StopsAt(post, n, j) <==> StopsAt(post[1..], n - 1 - |LexMember(post[0])|, j - 1)
  {
    assert post[..j][1..] == post[1..][..j - 1];
  }

  lemma {:induction false} StopsInMemberAt(post: seq<Member>, n: int)
    ensures StopsInMember(post, n) <==> exists j: nat | j < |post| :: StopsAt(post, n, j)
    decreases |post|
  {
    if post != [] {
      var n' := n - 1 - |LexMember(post[0])|;
      StopsInMemberAt(post[1..], n');
      assert post[..0] == [];
      assert StopsAt(post, n, 0) <==> 1 <= n <= 3;
      if StopsInMember(post[1..], n') {
        var j: nat :| j < |post[1..]| && StopsAt(post[1..], n', j);
        StopsAtNext(post, n, j + 1);
      }
      if j: nat :| 1 <= j < |post| && StopsAt(post, n, j) {
        StopsAtNext(post, n, j);
      }
    }
  }

  lemma {:induction false} InTrailingMemberOffset(pre: seq<Member>, key: string, items: seq<Value>,
      post: seq<Member>, cut: nat, k: int)
    requires k == cut - 1 - |Head(ObjectStart, pre, key)| - |LexItems(items)|
    ensures InTrailingMember(pre, key, items, post, cut) <==> StopsInMember(post, k)
  {
    StopsInMemberAt(post, k);
    forall j: nat | j < |post|
      ensures InMember(pre, key, items, post, cut, j) <==> StopsAt(post, k, j)
    {
      KeyedLayout(pre, key, items, post[..j]);
    }
    if InTrailingMember(pre, key, items, post, cut) {
      var j: nat :| j < |post| && InMember(pre, key, items, post, cut, j);
      assert StopsAt(post, k, j);
    }
    if StopsInMember(post, k) {
      var j: nat :| j < |post| && StopsAt(post, k, j);
      assert InMember(pre, key, items, post, cut, j);
    }
  }

  /** A truncated body ends with io.EOF, as a complete one does, if and only if it stops right
      after the comma, the key or the colon of a member behind the array. */
  lemma {:induction false} TruncationIsSilentIffInTrailingMember(cfg: Config, pre: seq<Member>,
      items: seq<Value>, post: seq<Member>, cut: nat)
    requires !cfg.objMode && cfg.expectedKey != "" && (cfg.meta.NilMeta? ==> pre == [] && post == [])
    requires NoKey(pre, cfg.expectedKey) && AllAccepted(cfg, items)
    requires FoldMeta(cfg.meta, pre + post).Some?
    requires cut < |Lex(Keyed(pre, cfg.expectedKey, items, post))|
    ensures Drain(cfg, Fresh(cfg, Lex(Keyed(pre, cfg.expectedKey, items, post))[..cut])).end == EOF
            <==> InTrailingMember(pre, cfg.expectedKey, items, post, cut)
  {
    hide Drain;
    var k := cut - 1 - |Head(ObjectStart, pre, cfg.expectedKey)| - |LexItems(items)|;
    KeyedLayout(pre, cfg.expectedKey, items, post);
    FoldMetaAppend(cfg.meta, pre, post);
    InTrailingMemberOffset(pre, cfg.expectedKey, items, post, cut, k);
    SilentAt(cfg, pre, items, post, cut, Lex(Keyed(pre, cfg.expectedKey, items, post)), k);
  }

  lemma {:induction false} SilentAt(cfg: Config, pre: seq<Member>, items: seq<Value>, post: seq<Member>,
      cut: nat, full: Lexemes, k: int)
    requires !cfg.objMode && cfg.expectedKey != "" && (cfg.meta.NilMeta? ==> pre == [] && post == [])
    requires NoKey(pre, cfg.expectedKey) && AllAccepted(cfg, items)
    requires FoldMeta(cfg.meta, pre).Some? && FoldMeta(FoldMeta(cfg.meta, pre).value, post).Some?
    requires full == [LBrace] + (Head(ObjectStart, pre, cfg.expectedKey) + (LexItems(items) + LexMembersTail(post)))
    requires cut < |full| && k == cut - 1 - |Head(ObjectStart, pre, cfg.expectedKey)| - |LexItems(items)|
    ensures Drain(cfg, Fresh(cfg, full[..cut])).end == EOF <==> StopsInMember(post, k)
  {
    hide Drain;
    var y := LexItems(items) + LexMembersTail(post);
    if k + |LexItems(items)| < 0 {
      CutInHead(cfg, pre, y, cut, full);
      NeverStopsAt(post, k);
    } else {
      SilentBehindHead(cfg, pre, items, post, y, k + |LexItems(items)|, cut, full, k);
    }
  }

  lemma {:induction false} SilentBehindHead(cfg: Config, pre: seq<Member>, items: seq<Value>, post: seq<Member>,
      y: Lexemes, n: nat, cut: nat, full: Lexemes, k: int)
    requires !cfg.objMode && cfg.expectedKey != "" && (cfg.meta.NilMeta? ==> pre == [] && post == [])
    requires k == n - |LexItems(items)|
    requires NoKey(pre, cfg.expectedKey) && AllAccepted(cfg, items)
    requires FoldMeta(cfg.meta, pre).Some? && FoldMeta(FoldMeta(cfg.meta, pre).value, post).Some?
    requires y == LexItems(items) + LexMembersTail(post) && n < |y|
    requires full == [LBrace] + (Head(ObjectStart, pre, cfg.expectedKey) + y)
    requires cut == 1 + |Head(ObjectStart, pre, cfg.expectedKey)| + n
    ensures Drain(cfg, Fresh(cfg, full[..cut])).end == EOF <==> StopsInMember(post, k)
  {
    hide Drain;
    var m := FoldMeta(cfg.meta, pre).value;
    ReadHead(cfg, pre, y, n, cut, full);
    CutBehindHead(cfg, items, post, n, m);
  }

  lemma {:induction false} ReadHead(cfg: Config, pre: seq<Member>, y: Lexemes, n: nat, cut: nat, full: Lexemes)
    requires !cfg.objMode && cfg.expectedKey != "" && (cfg.meta.NilMeta? ==> pre == []) && NoKey(pre, cfg.expectedKey)
    requires FoldMeta(cfg.meta, pre).Some? && n <= |y| && cut == 1 + |Head(ObjectStart, pre, cfg.expectedKey)| + n
    requires full == [LBrace] + (Head(ObjectStart, pre, cfg.expectedKey) + y)
    ensures Drain(cfg, Fresh(cfg, full[..cut]))
            == Drain(
              cfg,
              IterState(Cursor(y[..n], ArrayStart, [TopValue, ObjectValue]), true, false, FoldMeta(cfg.meta, pre).value))
  {
    var head := Head(ObjectStart, pre, cfg.expectedKey);
    var st := Fresh(cfg, full[..cut]);
    assert st.cur.rest == [LBrace] + (head + y[..n]);
    BeginReads(cfg, st.cur, pre, y[..n], cfg.meta);
    assert st.cur.stack + [TopValue, ObjectValue] == [TopValue, ObjectValue];
    DrainBegins(cfg, st, Cursor(y[..n], ArrayStart, [TopValue, ObjectValue]), FoldMeta(cfg.meta, pre).value);
  }

  lemma {:induction false} CutInHead(cfg: Config, pre: seq<Member>, y: Lexemes, cut: nat, full: Lexemes)
    requires !cfg.objMode && cfg.expectedKey != "" && (cfg.meta.NilMeta? ==> pre == []) && NoKey(pre, cfg.expectedKey)
    requires cut <= |Head(ObjectStart, pre, cfg.expectedKey)|
    requires full == [LBrace] + (Head(ObjectStart, pre, cfg.expectedKey) + y)
    ensures Drain(cfg, Fresh(cfg, full[..cut])).end != EOF
  {
    hide Drain, BeginLoop;
    var head := Head(ObjectStart, pre, cfg.expectedKey);
    if cut > 0 {
      var z := head[..cut - 1];
      assert full[..cut] == [LBrace] + z;
      OpenDelim(NewCursor(full[..cut]), LBrace, z);
      assert [] + [TopValue] == [TopValue];
      BeginLoopTruncated(cfg, ObjectStart, pre, cut - 1, [TopValue], cfg.meta);
    }
    BeginFails(cfg, Fresh(cfg, full[..cut]));
  }

  lemma {:induction false} CutBehindHead(cfg: Config, items: seq<Value>, post: seq<Member>, n: nat, m: Metadata)
    requires !cfg.objMode && cfg.expectedKey != "" && (m.NilMeta? ==> post == [])
    requires AllAccepted(cfg, items) && FoldMeta(m, post).Some?
    requires n < |LexItems(items) + LexMembersTail(post)|
    ensures var c := Cursor((LexItems(items) + LexMembersTail(post))[..n], ArrayStart, [TopValue, ObjectValue]);
            Drain(cfg, IterState(c, true, false, m)).end == EOF
            <==> StopsInMember(post, n - |LexItems(items)|)
  {
    hide Drain, FinishLoop;
    var stk := [TopValue, ObjectValue];
    var rows, last := LexItems(items), LexMembersTail(post);
    LexItemsIsBody(items);
    if n < |rows| {
      NeverStopsAt(post, n - |rows|);
      assert (rows + last)[..n] == rows[..n];
      DrainItemsTruncated(cfg, ArrayStart, items, n, stk, m);
    } else {
      var z := last[..n - |rows|];
      assert (rows + last)[..n] == ItemsBody(ArrayStart, items) + ([RBracket] + z);
      DrainItems(cfg, ArrayStart, items, [RBracket] + z, stk, m);
      assert stk == [TopValue] + [ObjectValue];
      DrainAtBracket(cfg, AfterItems(ArrayStart, items), z, [TopValue], m);
      FinishLoopTruncated(cfg, post, n - |rows|, [TopValue], m);
    }
  }

  /** Where a row reader ends that stands at the closing bracket of its rows. */
  lemma {:induction false} DrainAtBracket(cfg: Config, s: TokenState, z: Lexemes, stk: seq<TokenState>, m: Metadata)
    requires !cfg.objMode && cfg.expectedKey != "" && InArray(s)
    ensures var d := Drain(cfg, IterState(Cursor([RBracket] + z, s, stk + [ObjectValue]), true, false, m));
            var (e, c, m') := FinishLoop(cfg, Cursor(z, ObjectComma, stk), m);
            d.end == (if e.Some? then e.value else CloseResult(cfg.closeError)) && d.final == IterState(c, true, true, m')
  {
    hide FinishLoop;
    CloseDelim(RBracket, s, z, stk, ObjectValue);
  }

  /** `{"rows":[],"total_rows"` is reported as a complete, empty result. */
  lemma {:induction false} TruncationCanBeSilent()
    ensures var cfg := Config("rows", false, NO_ROWS_META, v => true, false, None);
            var cut := [LBrace, Text("rows"), Colon, LBracket, RBracket, Comma, Text("total_rows")];
            Drain(cfg, Fresh(cfg, cut)).end == EOF
  {
    var cfg := Config("rows", false, NO_ROWS_META, v => true, false, None);
    var post := [Member("total_rows", Atom(Int(3)))];
    var body := [LBrace, Text("rows"), Colon, LBracket, RBracket, Comma, Text("total_rows")];
    KeyedLayout([], "rows", [], post);
    var full := Lex(Keyed([], "rows", [], post));
    assert full == body + [Colon, Literal(Int(3)), RBrace];
    assert [] + post == post;
    assert FoldMeta(cfg.meta, post) == FoldMeta(SetMeta(cfg.meta, "total_rows", Atom(Int(3))).value, []);
    assert full[..7] == body;
    InTrailingMemberOffset([], "rows", [], post, 7, 2);
    TruncationIsSilentIffInTrailingMember(cfg, [], [], post, 7);
  }

  // ---------------------------------------------------------------------------
  // Object mode
  // ---------------------------------------------------------------------------

  lemma {:induction false} NextEntry(cfg: Config, s: TokenState, e: Member, z: Lexemes, stk: seq<TokenState>,
      m: Metadata)
    requires InObject(s) && cfg.objMode
    ensures Next(cfg, IterState(Cursor(Sep(s) + (LexMember(e) + z), s, stk), true, false, m))
            == (Ok(Entry(e.key, e.value)), IterState(Cursor(z, ObjectComma, stk), true, false, m))
  {
    ReadsMember(s, e, z, stk);
  }

  lemma {:induction false} DrainEntries(cfg: Config, s: TokenState, ms: seq<Member>, y: Lexemes,
      stk: seq<TokenState>, m: Metadata)
    requires InObject(s) && cfg.objMode
    ensures Drain(cfg, IterState(Cursor(MembersBody(s, ms) + y, s, stk), true, false, m))
            == var d := Drain(cfg, IterState(Cursor(y, if ms == [] then s else ObjectComma, stk), true, false, m));
               d.(rows := Entries(ms) + d.rows)
    decreases |ms|
  {
    hide Drain, LexMember, Sep;
    if ms == [] {
      var d := Drain(cfg, IterState(Cursor(y, s, stk), true, false, m));
      assert MembersBody(s, ms) + y == y;
      assert Entries(ms) + d.rows == d.rows;
    } else {
      var z := MembersBody(ObjectComma, ms[1..]) + y;
      assert MembersBody(s, ms) + y == Sep(s) + (LexMember(ms[0]) + z);
      hide MembersBody, Entries;
      DrainOneEntry(cfg, s, ms[0], z, stk, m);
      DrainEntries(cfg, ObjectComma, ms[1..], y, stk, m);
      PrependEntry(ms, Drain(cfg, IterState(Cursor(y, ObjectComma, stk), true, false, m)).rows);
    }
  }

  lemma {:induction false} DrainOneEntry(cfg: Config, s: TokenState, e: Member, z: Lexemes, stk: seq<TokenState>,
      m: Metadata)
    requires InObject(s) && cfg.objMode
    ensures Drain(cfg, IterState(Cursor(Sep(s) + (LexMember(e) + z), s, stk), true, false, m))
            == var d := Drain(cfg, IterState(Cursor(z, ObjectComma, stk), true, false, m));
               d.(rows := [Entry(e.key, e.value)] + d.rows)
  {
    hide IterSpec.Next, Drain, LexMember, Sep;
    NextEntry(cfg, s, e, z, stk, m);
    DrainStep(cfg, IterState(Cursor(Sep(s) + (LexMember(e) + z), s, stk), true, false, m));
  }

  lemma {:induction false} PrependEntry(ms: seq<Member>, rows: seq<Row>)
    requires ms != []
    ensures Entries(ms) + rows == [Entry(ms[0].key, ms[0].value)] + (Entries(ms[1..]) + rows)
  {
  }

  /** In object mode the rows are exactly the members, in order, and then io.EOF or the error of
      closing the body. */
  lemma {:induction false} ObjectIsReadExactly(cfg: Config, ms: seq<Member>, tail: Lexemes)
    requires cfg.objMode
    ensures var d := Drain(cfg, Fresh(cfg, Lex(Obj(ms)) + tail));
            && d.rows == Entries(ms) && d.end == CloseResult(cfg.closeError)
            && d.final == IterState(Cursor(tail, TopValue, []), true, true, cfg.meta)
  {
    hide Drain, MembersBody, Entries;
    var z := [RBrace] + tail;
    var y := MembersBody(ObjectStart, ms) + z;
    assert Lex(Obj(ms)) == [LBrace] + LexMembers(ms);
    hide Lex;
    LexMembersIsBody(ms);
    var st := Fresh(cfg, Lex(Obj(ms)) + tail);
    assert st.cur.rest == [LBrace] + y;
    OpenDelim(st.cur, LBrace, y);
    assert st.cur.stack + [TopValue] == [TopValue] == [] + [TopValue];
    DrainBegins(cfg, st, Cursor(y, ObjectStart, [TopValue]), cfg.meta);
    DrainEntries(cfg, ObjectStart, ms, z, [TopValue], cfg.meta);
    DrainAtBrace(cfg, if ms == [] then ObjectStart else ObjectComma, tail, cfg.meta);
    assert Entries(ms) + [] == Entries(ms);
  }

  lemma {:induction false} DrainAtBrace(cfg: Config, s: TokenState, tail: Lexemes, m: Metadata)
    requires cfg.objMode && InObject(s)
    ensures Drain(cfg, IterState(Cursor([RBrace] + tail, s, [TopValue]), true, false, m))
            == Drained([], CloseResult(cfg.closeError), IterState(Cursor(tail, TopValue, []), true, true, m))
  {
    assert [] + [TopValue] == [TopValue];
    CloseDelim(RBrace, s, tail, [], TopValue);
    hide Token, ConsumeDelim, DecodeItem;
  }

  /** With the body ending inside an entry, next fails, and not with io.EOF. */
  lemma {:induction false} NextEntryTruncated(cfg: Config, s: TokenState, e: Member, n: nat,
      stk: seq<TokenState>, m: Metadata)
    requires cfg.objMode && InObject(s) && n < |Sep(s) + LexMember(e)|
    ensures var r := Next(cfg, IterState(Cursor((Sep(s) + LexMember(e))[..n], s, stk), true, false, m)).0;
            r.Err? && r.error != EOF
  {
    var k := n - |Sep(s)|;
    var c := Cursor((Sep(s) + LexMember(e))[..n], s, stk);
    MemberTruncated(s, e, n, stk);
    if k <= 0 {
      RowsEndedByEOF(cfg, if n == 0 then c else Token(c).1, m);
    } else if k <= 2 {
      var z := ([Colon] + Lex(e.value))[..k - 1];
      assert c.rest == Sep(s) + ([Text(e.key)] + z);
      ReadsKey(s, e.key, z, stk);
      DecodeTruncated(Cursor(z, ObjectColon, stk), e.value, k - 1);
      RowsEndedByEOF(cfg, Decode(Cursor(z, ObjectColon, stk)).1, m);
    }
    hide Token, Decode, More, Finish, Lex, LexMember;
  }

  lemma {:induction false} DrainEntriesTruncated(cfg: Config, s: TokenState, ms: seq<Member>, n: nat,
      stk: seq<TokenState>, m: Metadata)
    requires InObject(s) && cfg.objMode
    requires n < |MembersBody(s, ms) + [RBrace]|
    ensures Drain(cfg, IterState(Cursor((MembersBody(s, ms) + [RBrace])[..n], s, stk), true, false, m)).end != EOF
    decreases |ms|
  {
    var ls := MembersBody(s, ms) + [RBrace];
    if n == 0 {
    } else {
      hide IterSpec.Next;
      var first := Sep(s) + LexMember(ms[0]);
      var ls' := MembersBody(ObjectComma, ms[1..]) + [RBrace];
      assert ls == first + ls';
      if n < |first| {
        assert ls[..n] == first[..n];
        NextEntryTruncated(cfg, s, ms[0], n, stk, m);
      } else {
        var n' := n - |first|;
        assert ls[..n] == Sep(s) + (LexMember(ms[0]) + ls'[..n']);
        NextEntry(cfg, s, ms[0], ls'[..n'], stk, m);
        DrainEntriesTruncated(cfg, ObjectComma, ms[1..], n', stk, m);
      }
    }
  }

  /** In object mode io.EOF means the whole body was there: no proper prefix ends cleanly. */
  lemma {:induction false} ObjectModeIsNeverSilent(cfg: Config, ms: seq<Member>, cut: nat)
    requires cfg.objMode && cut < |Lex(Obj(ms))|
    ensures Drain(cfg, Fresh(cfg, Lex(Obj(ms))[..cut])).end != EOF
  {
    LexMembersIsBody(ms);
    var full := Lex(Obj(ms));
    assert full == [LBrace] + (MembersBody(ObjectStart, ms) + [RBrace]);
    hide Drain, Lex;
    if cut == 0 {
      BeginFails(cfg, Fresh(cfg, full[..cut]));
    } else {
      var z := (MembersBody(ObjectStart, ms) + [RBrace])[..cut - 1];
      assert full[..cut] == [LBrace] + z;
      var st := Fresh(cfg, full[..cut]);
      OpenDelim(st.cur, LBrace, z);
      assert st.cur.stack + [TopValue] == [TopValue];
      DrainBegins(cfg, st, Cursor(z, ObjectStart, [TopValue]), cfg.meta);
      DrainEntriesTruncated(cfg, ObjectStart, ms, cut - 1, [TopValue], cfg.meta);
    }
  }
}
