/** Laws of the streaming row reader: which rows and metadata it delivers, and which
    truncated bodies it reports as complete. */
module IterLaws {
  import opened Json
  import opened Decoder
  import opened IterSpec
  import opened Wrappers

  /** Everything a client that calls next until it fails gets to see. */
  datatype Drained = Drained(rows: seq<Row>, end: Error, final: IterState)

  function Drain(cfg: Config, st: IterState): Drained
    decreases |st.cur.rest|
  {
    var (r, st') := Next(cfg, st);
    match r
    case Err(e) => Drained([], e, st')
    case Ok(row) => var d := Drain(cfg, st'); d.(rows := [row] + d.rows)
  }

  lemma {:induction false} DrainStep(cfg: Config, st: IterState)
    ensures var (r, st') := Next(cfg, st);
            Drain(cfg, st) ==
            match r
            case Err(e) => Drained([], e, st')
            case Ok(row) => var d := Drain(cfg, st'); Drained([row] + d.rows, d.end, d.final)
  {
    hide Next;
  }

  function Items(vs: seq<Value>): seq<Row> {
    seq(|vs|, i requires 0 <= i < |vs| => Item(vs[i]))
  }

  function Entries(ms: seq<Member>): seq<Row> {
    seq(|ms|, i requires 0 <= i < |ms| => Entry(ms[i].key, ms[i].value))
  }

  /** The metadata found in a list of members, or None if one has the wrong type. */
  function FoldMeta(m: Metadata, ms: seq<Member>): (r: Option<Metadata>)
    ensures r.Some? ==> (r.value.NilMeta? <==> m.NilMeta?)
    decreases |ms|
  {
    if ms == [] then Some(m)
    else match SetMeta(m, ms[0].key, ms[0].value)
      case Err(_) => None
      case Ok(m') => FoldMeta(m', ms[1..])
  }

  lemma {:induction false} FoldMetaAppend(m: Metadata, a: seq<Member>, b: seq<Member>)
    ensures FoldMeta(m, a + b) ==
            match FoldMeta(m, a) case None => None case Some(m') => FoldMeta(m', b)
    decreases |a|
  {
    if a == [] {
      assert a + b == b;
    } else {
      assert (a + b)[1..] == a[1..] + b;
      match SetMeta(m, a[0].key, a[0].value)
      case Err(_) =>
      case Ok(m') => FoldMetaAppend(m', a[1..], b);
    }
  }

  predicate NoKey(ms: seq<Member>, key: string) {
    forall i :: 0 <= i < |ms| ==> ms[i].key != key
  }

  predicate AllAccepted(cfg: Config, items: seq<Value>) {
    forall i :: 0 <= i < |items| ==> cfg.accepts(items[i])
  }

  // ---------------------------------------------------------------------------
  // Layout of an object that holds a keyed array
  // ---------------------------------------------------------------------------

  /** The separator before the next member or item, which only the first one lacks. */
  function Sep(s: TokenState): Lexemes {
    if s == ObjectStart || s == ArrayStart then [] else [Comma]
  }

  /** Members one after the other, without the closing brace. */
  function MembersBody(s: TokenState, ms: seq<Member>): Lexemes
    decreases |ms|
  {
    if ms == [] then [] else Sep(s) + (LexMember(ms[0]) + MembersBody(ObjectComma, ms[1..]))
  }

  /** Items one after the other, without the closing bracket. */
  function ItemsBody(s: TokenState, items: seq<Value>): Lexemes
    decreases |items|
  {
    if items == [] then [] else Sep(s) + (Lex(items[0]) + ItemsBody(ArrayComma, items[1..]))
  }

  /** The members in front of the expected key, that key, its colon and its `[`. */
  function Head(s: TokenState, pre: seq<Member>, key: string): Lexemes
    decreases |pre|
  {
    if pre == [] then Sep(s) + [Text(key), Colon, LBracket]
    else Sep(s) + (LexMember(pre[0]) + Head(ObjectComma, pre[1..], key))
  }

  function KeyedMembers(pre: seq<Member>, key: string, items: seq<Value>, post: seq<Member>): seq<Member> {
    pre + ([Member(key, Arr(items))] + post)
  }

  function Keyed(pre: seq<Member>, key: string, items: seq<Value>, post: seq<Member>): Value {
    Obj(KeyedMembers(pre, key, items, post))
  }

  lemma {:induction false} LexItemsTailIsBody(items: seq<Value>)
    ensures LexItemsTail(items) == ItemsBody(ArrayComma, items) + [RBracket]
  {
    if items != [] {
      LexItemsTailIsBody(items[1..]);
    }
  }

  lemma {:induction false} LexItemsIsBody(items: seq<Value>)
    ensures LexItems(items) == ItemsBody(ArrayStart, items) + [RBracket]
  {
    if items != [] {
      LexItemsTailIsBody(items[1..]);
    }
  }

  lemma {:induction false} LexMembersTailIsBody(ms: seq<Member>)
    ensures LexMembersTail(ms) == MembersBody(ObjectComma, ms) + [RBrace]
  {
    if ms != [] {
      LexMembersTailIsBody(ms[1..]);
    }
  }

  lemma {:induction false} LexMembersIsBody(ms: seq<Member>)
    ensures LexMembers(ms) == MembersBody(ObjectStart, ms) + [RBrace]
  {
    if ms != [] {
      LexMembersTailIsBody(ms[1..]);
    }
  }

  lemma {:induction false} BodyAppend(s: TokenState, a: seq<Member>, b: seq<Member>)
    ensures MembersBody(s, a + b) == MembersBody(s, a) + MembersBody(if a == [] then s else ObjectComma, b)
    decreases |a|
  {
    hide LexMember;
    if a == [] {
      assert a + b == b;
    } else {
      assert (a + b)[1..] == a[1..] + b;
      BodyAppend(ObjectComma, a[1..], b);
    }
  }

  lemma {:induction false} KeyedTailLayout(pre: seq<Member>, key: string, items: seq<Value>, post: seq<Member>)
    ensures LexMembersTail(KeyedMembers(pre, key, items, post))
            == Head(ObjectComma, pre, key) + (LexItems(items) + LexMembersTail(post))
  {
    var ms := KeyedMembers(pre, key, items, post);
    if pre == [] {
      assert ms == [Member(key, Arr(items))] + post;
      assert LexMember(ms[0]) == [Text(key), Colon, LBracket] + LexItems(items);
      assert ms[1..] == post;
    } else {
      assert ms[1..] == KeyedMembers(pre[1..], key, items, post);
      KeyedTailLayout(pre[1..], key, items, post);
    }
  }

  lemma {:induction false} KeyedLayout(pre: seq<Member>, key: string, items: seq<Value>, post: seq<Member>)
    ensures Lex(Keyed(pre, key, items, post))
            == [LBrace] + (Head(ObjectStart, pre, key) + (LexItems(items) + LexMembersTail(post)))
  {
    var ms := KeyedMembers(pre, key, items, post);
    if pre == [] {
      assert ms == [Member(key, Arr(items))] + post;
      assert LexMember(ms[0]) == [Text(key), Colon, LBracket] + LexItems(items);
      assert ms[1..] == post;
    } else {
      assert ms[1..] == KeyedMembers(pre[1..], key, items, post);
      KeyedTailLayout(pre[1..], key, items, post);
    }
  }

  lemma {:induction false} KeyedLayoutBefore(pre: seq<Member>, key: string, items: seq<Value>, post: seq<Member>,
      tail: Lexemes)
    ensures Lex(Keyed(pre, key, items, post)) + tail
            == [LBrace] + (Head(ObjectStart, pre, key) + (LexItems(items) + (LexMembersTail(post) + tail)))
  {
    KeyedLayout(pre, key, items, post);
  }

  // ---------------------------------------------------------------------------
  // One step on a complete part of the body
  // ---------------------------------------------------------------------------

  predicate InObject(s: TokenState) { s in {ObjectStart, ObjectComma} }
  predicate InArray(s: TokenState) { s in {ArrayStart, ArrayComma} }

  lemma {:induction false} OpenDelim(c: Cursor, d: Lexeme, y: Lexemes)
    requires d in {LBrace, LBracket}
    requires ValueAllowed(AfterSeparator(c.state))
    requires c.rest == Separator(c.state) + ([d] + y)
    ensures ConsumeDelim(c, d) ==
            (None, Cursor(y, if d == LBrace then ObjectStart else ArrayStart,
                          c.stack + [AfterSeparator(c.state)]))
  {
    var c1 := Cursor([d] + y, AfterSeparator(c.state), c.stack);
    if c.state in {ArrayComma, ObjectColon} {
      assert c.rest[1..] == [d] + y;
    } else {
      assert c.rest == [d] + y;
    }
    assert Token(c) == Token(c1);
    assert ([d] + y)[1..] == y;
  }

  lemma {:induction false} ReadsKey(s: TokenState, key: string, y: Lexemes, stk: seq<TokenState>)
    requires InObject(s)
    ensures NextKey(Cursor(Sep(s) + ([Text(key)] + y), s, stk)) == (Ok(key), Cursor(y, ObjectColon, stk))
    ensures Token(Cursor(Sep(s) + ([Text(key)] + y), s, stk)) == (Ok(Text(key)), Cursor(y, ObjectColon, stk))
    ensures More(Cursor(Sep(s) + ([Text(key)] + y), s, stk))
  {
    var ls := Sep(s) + ([Text(key)] + y);
    assert ([Text(key)] + y)[1..] == y;
    if s == ObjectComma {
      assert ls[1..] == [Text(key)] + y;
      assert Token(Cursor(ls, s, stk)) == Token(Cursor([Text(key)] + y, ObjectKey, stk));
    } else {
      assert ls == [Text(key)] + y;
    }
  }

  lemma {:induction false} ReadsMember(s: TokenState, m: Member, y: Lexemes, stk: seq<TokenState>)
    requires InObject(s)
    ensures var c := Cursor(Sep(s) + (LexMember(m) + y), s, stk);
            var c1 := Cursor([Colon] + (Lex(m.value) + y), ObjectColon, stk);
            && More(c) && Token(c) == (Ok(Text(m.key)), c1) && NextKey(c) == (Ok(m.key), c1)
            && Decode(c1) == (Ok(m.value), Cursor(y, ObjectComma, stk))
  {
    hide Token, Decode, NextKey, More, Lex;
    var z := [Colon] + (Lex(m.value) + y);
    assert LexMember(m) + y == [Text(m.key)] + z;
    ReadsKey(s, m.key, z, stk);
    DecodeReads(Cursor(z, ObjectColon, stk), m.value, y);
  }

  lemma {:induction false} ReadsItem(s: TokenState, v: Value, y: Lexemes, stk: seq<TokenState>)
    requires InArray(s)
    ensures Decode(Cursor(Sep(s) + (Lex(v) + y), s, stk)) == (Ok(v), Cursor(y, ArrayComma, stk))
    ensures More(Cursor(Sep(s) + (Lex(v) + y), s, stk))
  {
    DecodeReads(Cursor(Sep(s) + (Lex(v) + y), s, stk), v, y);
    LexStarts(v);
  }

  lemma {:induction false} BeginLoopReads(cfg: Config, s: TokenState, pre: seq<Member>, y: Lexemes,
      stk: seq<TokenState>, m: Metadata)
    requires InObject(s) && (m.NilMeta? ==> pre == [])
    requires NoKey(pre, cfg.expectedKey) && FoldMeta(m, pre).Some?
    ensures BeginLoop(cfg, Cursor(Head(s, pre, cfg.expectedKey) + y, s, stk), m)
            == (None, Cursor(y, ArrayStart, stk + [ObjectValue]), FoldMeta(m, pre).value)
    decreases |pre|
  {
    if pre == [] {
      var z := [Colon] + ([LBracket] + y);
      assert Head(s, pre, cfg.expectedKey) + y == Sep(s) + ([Text(cfg.expectedKey)] + z);
      ReadsKey(s, cfg.expectedKey, z, stk);
      OpenDelim(Cursor(z, ObjectColon, stk), LBracket, y);
    } else {
      var z := Head(ObjectComma, pre[1..], cfg.expectedKey) + y;
      assert Head(s, pre, cfg.expectedKey) + y == Sep(s) + (LexMember(pre[0]) + z);
      ReadsMember(s, pre[0], z, stk);
      BeginLoopReads(cfg, ObjectComma, pre[1..], y, stk, SetMeta(m, pre[0].key, pre[0].value).value);
    }
  }

  /** begin reads up to the rows, wherever in the input the object starts. */
  lemma {:induction false} BeginReads(cfg: Config, c: Cursor, pre: seq<Member>, y: Lexemes, m: Metadata)
    requires !cfg.objMode && cfg.expectedKey != "" && (m.NilMeta? ==> pre == [])
    requires ValueAllowed(AfterSeparator(c.state))
    requires c.rest == Separator(c.state) + ([LBrace] + (Head(ObjectStart, pre, cfg.expectedKey) + y))
    requires NoKey(pre, cfg.expectedKey) && FoldMeta(m, pre).Some?
    ensures Begin(cfg, c, m) ==
            (None, Cursor(y, ArrayStart, c.stack + [AfterSeparator(c.state), ObjectValue]), FoldMeta(m, pre).value)
  {
    OpenDelim(c, LBrace, Head(ObjectStart, pre, cfg.expectedKey) + y);
    BeginLoopReads(cfg, ObjectStart, pre, y, c.stack + [AfterSeparator(c.state)], m);
    assert c.stack + [AfterSeparator(c.state)] + [ObjectValue] == c.stack + [AfterSeparator(c.state), ObjectValue];
  }

  function AfterItems(s: TokenState, items: seq<Value>): TokenState {
    if items == [] then s else ArrayComma
  }

  lemma {:induction false} NextItem(cfg: Config, s: TokenState, v: Value, z: Lexemes, stk: seq<TokenState>, m: Metadata)
    requires InArray(s) && !cfg.objMode && cfg.accepts(v)
    ensures Next(cfg, IterState(Cursor(Sep(s) + (Lex(v) + z), s, stk), true, false, m))
            == (Ok(Item(v)), IterState(Cursor(z, ArrayComma, stk), true, false, m))
  {
    hide Token, Finish;
    ReadsItem(s, v, z, stk);
  }

  /** Complete items are delivered one by one, and the rest is left. */
  lemma {:induction false} DrainItems(cfg: Config, s: TokenState, items: seq<Value>, y: Lexemes,
      stk: seq<TokenState>, m: Metadata)
    requires InArray(s) && !cfg.objMode && AllAccepted(cfg, items)
    ensures Drain(cfg, IterState(Cursor(ItemsBody(s, items) + y, s, stk), true, false, m))
            == var d := Drain(cfg, IterState(Cursor(y, AfterItems(s, items), stk), true, false, m));
               d.(rows := Items(items) + d.rows)
    decreases |items|
  {
    hide Drain, Lex, Sep;
    if items == [] {
      var d := Drain(cfg, IterState(Cursor(y, s, stk), true, false, m));
      assert ItemsBody(s, items) + y == y;
      assert Items(items) + d.rows == d.rows;
    } else {
      var z := ItemsBody(ArrayComma, items[1..]) + y;
      assert ItemsBody(s, items) + y == Sep(s) + (Lex(items[0]) + z);
      hide ItemsBody, Items;
      DrainOneItem(cfg, s, items[0], z, stk, m);
      DrainItems(cfg, ArrayComma, items[1..], y, stk, m);
      PrependItem(items, Drain(cfg, IterState(Cursor(y, ArrayComma, stk), true, false, m)).rows);
    }
  }

  lemma {:induction false} DrainOneItem(cfg: Config, s: TokenState, v: Value, z: Lexemes, stk: seq<TokenState>,
      m: Metadata)
    requires InArray(s) && !cfg.objMode && cfg.accepts(v)
    ensures Drain(cfg, IterState(Cursor(Sep(s) + (Lex(v) + z), s, stk), true, false, m))
            == var d := Drain(cfg, IterState(Cursor(z, ArrayComma, stk), true, false, m)); d.(rows := [Item(v)] + d.rows)
  {
    hide IterSpec.Next, Drain, Lex, Sep;
    NextItem(cfg, s, v, z, stk, m);
    DrainStep(cfg, IterState(Cursor(Sep(s) + (Lex(v) + z), s, stk), true, false, m));
  }

  lemma {:induction false} PrependItem(items: seq<Value>, rows: seq<Row>)
    requires items != []
    ensures Items(items) + rows == [Item(items[0])] + (Items(items[1..]) + rows)
  {
  }

  lemma {:induction false} CloseDelim(d: Lexeme, s: TokenState, y: Lexemes, stk: seq<TokenState>, outer: TokenState)
    requires if d == RBrace then InObject(s) else d == RBracket && InArray(s)
    ensures ConsumeDelim(Cursor([d] + y, s, stk + [outer]), d) == (None, Cursor(y, ValueEnd(outer), stk))
    ensures !More(Cursor([d] + y, s, stk + [outer]))
  {
    assert ([d] + y)[1..] == y;
    assert (stk + [outer])[..|stk|] == stk;
  }

  /** finish collects one trailing member. */
  lemma {:induction false} FinishPassesMember(cfg: Config, e: Member, z: Lexemes, stk: seq<TokenState>, m: Metadata)
    requires !m.NilMeta? && SetMeta(m, e.key, e.value).Ok?
    ensures FinishLoop(cfg, Cursor(Sep(ObjectComma) + (LexMember(e) + z), ObjectComma, stk), m)
            == FinishLoop(cfg, Cursor(z, ObjectComma, stk), SetMeta(m, e.key, e.value).value)
  {
    ReadsMember(ObjectComma, e, z, stk);
    hide Token, Decode, More, LexMember, SetMeta;
  }

  lemma {:induction false} FinishLoopReads(cfg: Config, post: seq<Member>, y: Lexemes, stk: seq<TokenState>,
      outer: TokenState, m: Metadata)
    requires (m.NilMeta? ==> post == []) && FoldMeta(m, post).Some?
    ensures FinishLoop(cfg, Cursor(LexMembersTail(post) + y, ObjectComma, stk + [outer]), m)
            == (None, Cursor(y, ValueEnd(outer), stk), FoldMeta(m, post).value)
    decreases |post|
  {
    if post == [] {
      CloseDelim(RBrace, ObjectComma, y, stk, outer);
    } else {
      var z := LexMembersTail(post[1..]) + y;
      assert LexMembersTail(post) + y == Sep(ObjectComma) + (LexMember(post[0]) + z);
      hide FinishLoop, LexMember, LexMembersTail, SetMeta;
      FinishPassesMember(cfg, post[0], z, stk + [outer], m);
      FinishLoopReads(cfg, post[1..], y, stk, outer, SetMeta(m, post[0].key, post[0].value).value);
    }
  }

  /** finish reads everything after the rows. */
  lemma {:induction false} FinishReads(cfg: Config, s: TokenState, post: seq<Member>, y: Lexemes,
      stk: seq<TokenState>, outer: TokenState, m: Metadata)
    requires !cfg.objMode && cfg.expectedKey != "" && (m.NilMeta? ==> post == []) && InArray(s)
    requires FoldMeta(m, post).Some?
    ensures Finish(cfg, Cursor([RBracket] + (LexMembersTail(post) + y), s, stk + [outer, ObjectValue]), m)
            == (cfg.closeError, Cursor(y, ValueEnd(outer), stk), FoldMeta(m, post).value)
  {
    assert stk + [outer, ObjectValue] == (stk + [outer]) + [ObjectValue];
    CloseDelim(RBracket, s, LexMembersTail(post) + y, stk + [outer], ObjectValue);
    FinishLoopReads(cfg, post, y, stk, outer, m);
  }

  /** From the first row on, all rows and then a clean end. */
  lemma {:induction false} DrainRowsAndFinish(cfg: Config, items: seq<Value>, post: seq<Member>, y: Lexemes,
      stk: seq<TokenState>, outer: TokenState, m: Metadata)
    requires !cfg.objMode && cfg.expectedKey != "" && (m.NilMeta? ==> post == [])
    requires AllAccepted(cfg, items) && FoldMeta(m, post).Some?
    ensures Drain(cfg, IterState(Cursor(LexItems(items) + (LexMembersTail(post) + y), ArrayStart,
                                        stk + [outer, ObjectValue]), true, false, m))
            == Drained(Items(items), CloseResult(cfg.closeError),
                       IterState(Cursor(y, ValueEnd(outer), stk), true, true, FoldMeta(m, post).value))
  {
    var z := [RBracket] + (LexMembersTail(post) + y);
    var stk' := stk + [outer, ObjectValue];
    LexItemsIsBody(items);
    assert LexItems(items) + (LexMembersTail(post) + y) == ItemsBody(ArrayStart, items) + z;
    DrainItems(cfg, ArrayStart, items, z, stk', m);
    var s := AfterItems(ArrayStart, items);
    FinishReads(cfg, s, post, y, stk, outer, m);
    assert !More(Cursor(z, s, stk'));
    assert Items(items) + [] == Items(items);
  }

  // ---------------------------------------------------------------------------
  // Row iteration is exact, and the position of metadata does not matter
  // ---------------------------------------------------------------------------

  /** For every object with the expected array behind any other members, the rows are exactly
      the array's items in order, then io.EOF or the error of closing the body; all metadata
      before and after the array is collected; exactly the object is consumed; and every later
      call reports io.EOF.  A reader without metadata does not expect other members. */
  lemma {:induction false} KeyedArrayIsReadExactly(cfg: Config, pre: seq<Member>, items: seq<Value>,
      post: seq<Member>, tail: Lexemes)
    requires !cfg.objMode && cfg.expectedKey != "" && (cfg.meta.NilMeta? ==> pre == [] && post == [])
    requires NoKey(pre, cfg.expectedKey) && AllAccepted(cfg, items)
    requires FoldMeta(cfg.meta, pre + post).Some?
    ensures var d := Drain(cfg, Fresh(cfg, Lex(Keyed(pre, cfg.expectedKey, items, post)) + tail));
            && d.rows == Items(items)
            && d.end == CloseResult(cfg.closeError)
            && d.final == IterState(Cursor(tail, TopValue, []), true, true, FoldMeta(cfg.meta, pre + post).value)
            && Next(cfg, d.final) == (Err(EOF), d.final)
  {
    hide Lex, FoldMeta, Begin, Drain, Next;
    FoldMetaAppend(cfg.meta, pre, post);
    var m := FoldMeta(cfg.meta, pre).value;
    var y := LexItems(items) + (LexMembersTail(post) + tail);
    var st := Fresh(cfg, Lex(Keyed(pre, cfg.expectedKey, items, post)) + tail);
    KeyedLayoutBefore(pre, cfg.expectedKey, items, post, tail);
    BeginReads(cfg, st.cur, pre, y, cfg.meta);
    assert st.cur.stack + [TopValue, ObjectValue] == [TopValue, ObjectValue];
    DrainRowsAndFinish(cfg, items, post, tail, [], TopValue, m);
    DrainBegins(cfg, st, Cursor(y, ArrayStart, [TopValue, ObjectValue]), m);
    ClosedIsOver(cfg, Drain(cfg, st).final);
  }

  lemma {:induction false} ClosedIsOver(cfg: Config, st: IterState)
    requires st.closed
    ensures Next(cfg, st) == (Err(EOF), st)
  {
  }

  /** A first call to next begins and then goes on as if begun. */
  lemma {:induction false} DrainBegins(cfg: Config, st: IterState, c: Cursor, m: Metadata)
    requires !st.begun && !st.closed && Begin(cfg, st.cur, st.meta) == (None, c, m)
    ensures Drain(cfg, st) == Drain(cfg, IterState(c, true, false, m))
  {
    var st' := IterState(c, true, false, m);
    hide Begin, NextBegun;
    assert Next(cfg, st) == Next(cfg, st');
  }

  /** When begin fails, so does the first call to next, and not with io.EOF. */
  lemma {:induction false} BeginFails(cfg: Config, st: IterState)
    requires !st.begun && !st.closed && Begin(cfg, st.cur, st.meta).0.Some?
    ensures Drain(cfg, st).rows == [] && Drain(cfg, st).end == BadGateway(Begin(cfg, st.cur, st.meta).0.value)
  {
    hide Begin, NextBegun;
  }
}
