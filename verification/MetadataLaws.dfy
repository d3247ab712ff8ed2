/** Which metadata a row reader reports, and how it ends when a member or a row has the wrong
    type. */
module MetadataLaws {
  import opened Json
  import opened Decoder
  import opened IterSpec
  import opened IterLaws
  import opened Wrappers

  /** The value of the last member with this key that is not null. */
  function LastNonNull(ms: seq<Member>, key: string): Option<Value>
    decreases |ms|
  {
    if ms == [] then None
    else
      var last := ms[|ms| - 1];
      if last.key == key && last.value != Atom(Null) then Some(last.value) else LastNonNull(ms[..|ms| - 1], key)
  }

  /** The value of the last member with this key, null or not. */
  function LastValue(ms: seq<Member>, key: string): Option<Value>
    decreases |ms|
  {
    if ms == [] then None
    else
      var last := ms[|ms| - 1];
      if last.key == key then Some(last.value) else LastValue(ms[..|ms| - 1], key)
  }

  predicate IsInt64OrNull(v: Value) {
    v == Atom(Null) || (v.Atom? && v.a.Int? && -9223372036854775808 <= v.a.n <= 9223372036854775807)
  }

  predicate IsStringOrNull(v: Value) {
    v == Atom(Null) || v.Str?
  }

  /** The member may stand among the metadata that m is of. */
  predicate WellTyped(m: Metadata, e: Member) {
    match m
    case NilMeta => true
    case RowsMeta(_, _, _, _, _) =>
      && (e.key == "offset" || e.key == "total_rows" ==> IsInt64OrNull(e.value))
      && (e.key == "warning" || e.key == "bookmark" ==> IsStringOrNull(e.value))
    case ChangesMeta(_, _) => e.key == "pending" ==> IsInt64OrNull(e.value)
    case UpdatesMeta(_) => e.key == "last_seq" ==> IsStringOrNull(e.value)
  }

  predicate AllWellTyped(m: Metadata, ms: seq<Member>) {
    forall i :: 0 <= i < |ms| ==> WellTyped(m, ms[i])
  }

  /** The integer that a field holds whose members had `found` as the last value. */
  predicate HoldsInt(field: int, before: int, found: Option<Value>) {
    match found case None => field == before case Some(v) => v == Atom(Int(field))
  }

  predicate HoldsString(field: string, before: string, found: Option<Value>) {
    match found case None => field == before case Some(v) => v == Str(field)
  }

  predicate HoldsValue(field: Option<Value>, before: Option<Value>, found: Option<Value>) {
    match found case None => field == before case Some(v) => field == Some(v)
  }

  /** Each field holds the last value under its own key.  Null sets no integer and no string, and
      no other key sets anything. */
  predicate HoldsLast(m: Metadata, ms: seq<Member>, m': Metadata) {
    match m
    case NilMeta => m' == NilMeta
    case RowsMeta(_, _, _, _, _) =>
      && m'.RowsMeta?
      && HoldsInt(m'.offset, m.offset, LastNonNull(ms, "offset"))
      && HoldsInt(m'.totalRows, m.totalRows, LastNonNull(ms, "total_rows"))
      && HoldsValue(m'.updateSeq, m.updateSeq, LastValue(ms, "update_seq"))
      && HoldsString(m'.warning, m.warning, LastNonNull(ms, "warning"))
      && HoldsString(m'.bookmark, m.bookmark, LastNonNull(ms, "bookmark"))
    case ChangesMeta(_, _) =>
      && m'.ChangesMeta?
      && HoldsValue(m'.lastSeq, m.lastSeq, LastValue(ms, "last_seq"))
      && HoldsInt(m'.pending, m.pending, LastNonNull(ms, "pending"))
    case UpdatesMeta(_) =>
      m'.UpdatesMeta? && HoldsString(m'.lastID, m.lastID, LastNonNull(ms, "last_seq"))
  }

  /** One more member. */
  lemma {:induction false} HoldsLastStep(m: Metadata, ms: seq<Member>, before: Metadata)
    requires ms != [] && HoldsLast(m, ms[..|ms| - 1], before)
    ensures var e := ms[|ms| - 1];
            match SetMeta(before, e.key, e.value)
            case Err(_) => !WellTyped(m, e)
            case Ok(m') => WellTyped(m, e) && HoldsLast(m, ms, m')
  {
  }

  /** For every list of members and each of the parsers: the list is accepted if and only if every
      field's members have the field's type, and each field then holds the last value under its
      own key. */
  lemma {:induction false} MetadataIsLast(m: Metadata, ms: seq<Member>)
    ensures FoldMeta(m, ms).Some? <==> AllWellTyped(m, ms)
    ensures AllWellTyped(m, ms) ==> HoldsLast(m, ms, FoldMeta(m, ms).value)
    decreases |ms|
  {
    if ms != [] {
      var n := |ms| - 1;
      MetadataIsLast(m, ms[..n]);
      FoldMetaAppend(m, ms[..n], [ms[n]]);
      assert ms[..n] + [ms[n]] == ms;
      assert AllWellTyped(m, ms) <==> AllWellTyped(m, ms[..n]) && WellTyped(m, ms[n]);
      if AllWellTyped(m, ms[..n]) {
        var before := FoldMeta(m, ms[..n]).value;
        HoldsLastStep(m, ms, before);
        hide SetMeta, HoldsLast, WellTyped;
        assert FoldMeta(m, ms) == FoldMeta(before, [ms[n]]);
      }
    }
  }

  // ---------------------------------------------------------------------------
  // Values of the wrong type
  // ---------------------------------------------------------------------------

  /** begin stops at the first member of the wrong type. */
  lemma {:induction false} BeginLoopRefuses(cfg: Config, s: TokenState, pre: seq<Member>, y: Lexemes,
      stk: seq<TokenState>, m: Metadata)
    requires InObject(s) && !m.NilMeta? && NoKey(pre, cfg.expectedKey) && FoldMeta(m, pre).None?
    ensures BeginLoop(cfg, Cursor(Head(s, pre, cfg.expectedKey) + y, s, stk), m).0 == Some(Mismatch)
    decreases |pre|
  {
    var z := Head(ObjectComma, pre[1..], cfg.expectedKey) + y;
    assert Head(s, pre, cfg.expectedKey) + y == Sep(s) + (LexMember(pre[0]) + z);
    ReadsMember(s, pre[0], z, stk);
    hide Head, LexMember, SetMeta;
    match SetMeta(m, pre[0].key, pre[0].value)
    case Err(_) =>
    case Ok(m') => BeginLoopRefuses(cfg, ObjectComma, pre[1..], y, stk, m');
  }

  /** finish stops at the first member of the wrong type. */
  lemma {:induction false} FinishLoopRefuses(cfg: Config, post: seq<Member>, y: Lexemes, stk: seq<TokenState>,
      m: Metadata)
    requires !m.NilMeta? && FoldMeta(m, post).None?
    ensures FinishLoop(cfg, Cursor(LexMembersTail(post) + y, ObjectComma, stk), m).0 == Some(Mismatch)
    decreases |post|
  {
    var z := LexMembersTail(post[1..]) + y;
    assert LexMembersTail(post) + y == Sep(ObjectComma) + (LexMember(post[0]) + z);
    ReadsMember(ObjectComma, post[0], z, stk);
    hide LexMembersTail, LexMember, SetMeta, Token, Decode;
    match SetMeta(m, post[0].key, post[0].value)
    case Err(_) =>
    case Ok(m') => FinishLoopRefuses(cfg, post[1..], y, stk, m');
  }

  /** A row of the wrong type ends the iteration. */
  lemma {:induction false} DrainStopsAtItem(cfg: Config, s: TokenState, v: Value, z: Lexemes, stk: seq<TokenState>,
      m: Metadata)
    requires InArray(s) && !cfg.objMode && !cfg.accepts(v)
    ensures var d := Drain(cfg, IterState(Cursor(Sep(s) + (Lex(v) + z), s, stk), true, false, m));
            d.rows == [] && d.end == if cfg.wraps then BadGateway(Mismatch) else Mismatch
  {
    hide Token, Finish;
    ReadsItem(s, v, z, stk);
  }

  lemma {:induction false} FirstRows(cfg: Config, items: seq<Value>, k: nat)
    requires 0 < k < |items| && AllAccepted(cfg, items[..k])
    ensures cfg.accepts(items[0]) && items[1..][k - 1] == items[k] && AllAccepted(cfg, items[1..][..k - 1])
    ensures Items(items[..k]) == [Item(items[0])] + Items(items[1..][..k - 1])
  {
    assert items[0] == items[..k][0];
    assert items[1..][..k - 1] == items[..k][1..];
  }

  /** Rows are delivered up to the first one of the wrong type. */
  lemma {:induction false} DrainStopsBehindRows(cfg: Config, s: TokenState, items: seq<Value>, k: nat, y: Lexemes,
      stk: seq<TokenState>, m: Metadata)
    requires InArray(s) && !cfg.objMode && k < |items| && AllAccepted(cfg, items[..k]) && !cfg.accepts(items[k])
    ensures var d := Drain(cfg, IterState(Cursor(ItemsBody(s, items) + y, s, stk), true, false, m));
            d.rows == Items(items[..k]) && d.end == if cfg.wraps then BadGateway(Mismatch) else Mismatch
    decreases k
  {
    var z := ItemsBody(ArrayComma, items[1..]) + y;
    assert ItemsBody(s, items) + y == Sep(s) + (Lex(items[0]) + z);
    hide Drain, Lex, Sep, ItemsBody;
    if k == 0 {
      DrainStopsAtItem(cfg, s, items[0], z, stk, m);
      assert Items(items[..0]) == [];
    } else {
      FirstRows(cfg, items, k);
      hide Items, AllAccepted;
      DrainOneItem(cfg, s, items[0], z, stk, m);
      DrainStopsBehindRows(cfg, ArrayComma, items[1..], k - 1, y, stk, m);
    }
  }

  lemma {:induction false} FinishRefuses(cfg: Config, s: TokenState, post: seq<Member>, y: Lexemes,
      stk: seq<TokenState>, m: Metadata)
    requires !cfg.objMode && cfg.expectedKey != "" && !m.NilMeta? && InArray(s) && FoldMeta(m, post).None?
    ensures Finish(cfg, Cursor([RBracket] + (LexMembersTail(post) + y), s, stk + [ObjectValue]), m).0 == Some(Mismatch)
  {
    CloseDelim(RBracket, s, LexMembersTail(post) + y, stk, ObjectValue);
    FinishLoopRefuses(cfg, post, y, stk, m);
    hide FinishLoop, ConsumeDelim, LexMembersTail;
  }

  /** A trailing member of the wrong type is reported behind the last row. */
  lemma {:induction false} DrainRowsAndFail(cfg: Config, items: seq<Value>, post: seq<Member>, y: Lexemes,
      stk: seq<TokenState>, outer: TokenState, m: Metadata)
    requires !cfg.objMode && cfg.expectedKey != "" && !m.NilMeta?
    requires AllAccepted(cfg, items) && FoldMeta(m, post).None?
    ensures var d := Drain(cfg, IterState(Cursor(LexItems(items) + (LexMembersTail(post) + y), ArrayStart,
                                                 stk + [outer, ObjectValue]), true, false, m));
            d.rows == Items(items) && d.end == Mismatch
  {
    var z := [RBracket] + (LexMembersTail(post) + y);
    var stk' := stk + [outer, ObjectValue];
    LexItemsIsBody(items);
    assert LexItems(items) + (LexMembersTail(post) + y) == ItemsBody(ArrayStart, items) + z;
    DrainItems(cfg, ArrayStart, items, z, stk', m);
    var s := AfterItems(ArrayStart, items);
    assert stk' == (stk + [outer]) + [ObjectValue];
    FinishRefuses(cfg, s, post, y, stk + [outer], m);
    hide Finish, LexMembersTail, ItemsBody, Lex, LexItems;
    assert !More(Cursor(z, s, stk'));
    assert Items(items) + [] == Items(items);
  }

  /** How reading a keyed array ends: at a member of the wrong type in front of it, at a row of the
      wrong type, at a member of the wrong type behind it, or well. */
  function EndOfKeyed(cfg: Config, pre: seq<Member>, items: seq<Value>, post: seq<Member>): Error {
    if !AllWellTyped(cfg.meta, pre) then BadGateway(Mismatch)
    else if !AllAccepted(cfg, items) then if cfg.wraps then BadGateway(Mismatch) else Mismatch
    else if !AllWellTyped(cfg.meta, post) then Mismatch
    else match cfg.closeError case Some(e) => e case None => EOF
  }

  /** For every object with the expected array, whatever the types of its rows and members: the
      first k rows, which are those before the first one of the wrong type, are delivered unless
      a member in front of the array has the wrong type, and then the first thing that has the
      wrong type is reported.  So io.EOF follows the rows exactly if nothing has, and the body
      could be closed. */
  lemma {:induction false} KeyedArrayIsReadUpToMismatch(cfg: Config, pre: seq<Member>, items: seq<Value>,
      post: seq<Member>, tail: Lexemes, k: nat)
    requires !cfg.objMode && cfg.expectedKey != "" && (cfg.meta.NilMeta? ==> pre == [] && post == [])
    requires NoKey(pre, cfg.expectedKey)
    requires k <= |items| && AllAccepted(cfg, items[..k]) && (k < |items| ==> !cfg.accepts(items[k]))
    ensures var d := Drain(cfg, Fresh(cfg, Lex(Keyed(pre, cfg.expectedKey, items, post)) + tail));
            && d.rows == (if AllWellTyped(cfg.meta, pre) then Items(items[..k]) else [])
            && d.end == EndOfKeyed(cfg, pre, items, post)
  {
    MetadataIsLast(cfg.meta, pre);
    assert AllAccepted(cfg, items) <==> k == |items| by {
      assert k == |items| ==> items[..k] == items;
    }
    hide Lex, FoldMeta, Drain, AllAccepted, HoldsLast;
    if AllWellTyped(cfg.meta, pre) {
      SameKind(cfg.meta, pre, post);
      DrainGoesOn(cfg, pre, items, post, tail);
      DrainFromRows(cfg, items, post, tail, FoldMeta(cfg.meta, pre).value, k);
    } else {
      DrainFailsAtOnce(cfg, pre, items, post, tail);
    }
  }

  lemma {:induction false} DrainFailsAtOnce(cfg: Config, pre: seq<Member>, items: seq<Value>, post: seq<Member>,
      tail: Lexemes)
    requires !cfg.objMode && cfg.expectedKey != "" && !cfg.meta.NilMeta?
    requires NoKey(pre, cfg.expectedKey) && FoldMeta(cfg.meta, pre).None?
    ensures var d := Drain(cfg, Fresh(cfg, Lex(Keyed(pre, cfg.expectedKey, items, post)) + tail));
            d.rows == [] && d.end == BadGateway(Mismatch)
  {
    var y := LexItems(items) + (LexMembersTail(post) + tail);
    var st := Fresh(cfg, Lex(Keyed(pre, cfg.expectedKey, items, post)) + tail);
    KeyedLayoutBefore(pre, cfg.expectedKey, items, post, tail);
    hide Lex, FoldMeta, Drain, LexItems, LexMembersTail;
    OpenDelim(st.cur, LBrace, Head(ObjectStart, pre, cfg.expectedKey) + y);
    BeginLoopRefuses(cfg, ObjectStart, pre, y, [TopValue], cfg.meta);
    assert [] + [TopValue] == [TopValue];
    BeginFails(cfg, st);
  }

  lemma {:induction false} DrainGoesOn(cfg: Config, pre: seq<Member>, items: seq<Value>, post: seq<Member>,
      tail: Lexemes)
    requires !cfg.objMode && cfg.expectedKey != "" && (cfg.meta.NilMeta? ==> pre == [])
    requires NoKey(pre, cfg.expectedKey) && FoldMeta(cfg.meta, pre).Some?
    ensures Drain(cfg, Fresh(cfg, Lex(Keyed(pre, cfg.expectedKey, items, post)) + tail))
            == Drain(cfg, IterState(Cursor(LexItems(items) + (LexMembersTail(post) + tail), ArrayStart,
                                           [TopValue, ObjectValue]), true, false, FoldMeta(cfg.meta, pre).value))
  {
    var y := LexItems(items) + (LexMembersTail(post) + tail);
    var st := Fresh(cfg, Lex(Keyed(pre, cfg.expectedKey, items, post)) + tail);
    KeyedLayoutBefore(pre, cfg.expectedKey, items, post, tail);
    hide Lex, FoldMeta, Drain, Begin, LexItems, LexMembersTail;
    BeginReads(cfg, st.cur, pre, y, cfg.meta);
    assert st.cur.stack + [TopValue, ObjectValue] == [TopValue, ObjectValue];
    DrainBegins(cfg, st, Cursor(y, ArrayStart, [TopValue, ObjectValue]), FoldMeta(cfg.meta, pre).value);
  }

  /** What is well typed does not depend on what has been collected. */
  lemma {:induction false} SameKind(m: Metadata, pre: seq<Member>, post: seq<Member>)
    requires FoldMeta(m, pre).Some?
    ensures FoldMeta(FoldMeta(m, pre).value, post).Some? <==> AllWellTyped(m, post)
  {
    MetadataIsLast(m, pre);
    MetadataIsLast(FoldMeta(m, pre).value, post);
    var m' := FoldMeta(m, pre).value;
    assert forall i :: 0 <= i < |post| ==> (WellTyped(m, post[i]) <==> WellTyped(m', post[i]));
  }

  lemma {:induction false} DrainFromRows(cfg: Config, items: seq<Value>, post: seq<Member>, tail: Lexemes,
      m: Metadata, k: nat)
    requires !cfg.objMode && cfg.expectedKey != "" && (m.NilMeta? ==> post == [])
    requires k <= |items| && AllAccepted(cfg, items[..k]) && (k < |items| ==> !cfg.accepts(items[k]))
    ensures var d := Drain(cfg, IterState(Cursor(LexItems(items) + (LexMembersTail(post) + tail), ArrayStart,
                                                 [TopValue, ObjectValue]), true, false, m));
            && d.rows == Items(items[..k])
            && d.end == if k < |items| then if cfg.wraps then BadGateway(Mismatch) else Mismatch
                        else if FoldMeta(m, post).None? then Mismatch
                        else CloseResult(cfg.closeError)
  {
    hide Drain, LexMembersTail;
    assert [] + [TopValue, ObjectValue] == [TopValue, ObjectValue];
    if k < |items| {
      var z := [RBracket] + (LexMembersTail(post) + tail);
      LexItemsIsBody(items);
      assert LexItems(items) + (LexMembersTail(post) + tail) == ItemsBody(ArrayStart, items) + z;
      DrainStopsBehindRows(cfg, ArrayStart, items, k, z, [TopValue, ObjectValue], m);
    } else {
      assert items[..k] == items;
      if FoldMeta(m, post).None? {
        DrainRowsAndFail(cfg, items, post, tail, [], TopValue, m);
      } else {
        DrainRowsAndFinish(cfg, items, post, tail, [], TopValue, m);
      }
    }
  }

  // ---------------------------------------------------------------------------
  // Bodies without the array
  // ---------------------------------------------------------------------------

  /** What consumeDelim says of a value that does not begin with the delimiter. */
  function NotTheDelim(v: Value): Error {
    match v
    case Obj(_) => UnexpectedDelim(LBrace)
    case Arr(_) => UnexpectedDelim(LBracket)
    case _ => BadGateway(UnexpectedToken)
  }

  lemma {:induction false} OtherDelim(c: Cursor, d: Lexeme, v: Value, y: Lexemes)
    requires d == LBrace || d == LBracket
    requires (d == LBrace ==> !v.Obj?) && (d == LBracket ==> !v.Arr?)
    requires c.state == ObjectColon || ValueAllowed(c.state)
    requires c.rest == (if c.state == ObjectColon then [Colon] else []) + (Lex(v) + y)
    ensures ConsumeDelim(c, d).0 == Some(NotTheDelim(v))
  {
    LexStarts(v);
    var c1 := if c.state == ObjectColon then Skip(c, ObjectValue) else c;
    assert c1.rest == Lex(v) + y;
    assert Token(c) == Token(c1);
    assert c1.rest[0] == Lex(v)[0];
    match v
    case Atom(_) =>
    case Str(_) =>
    case Arr(_) =>
    case Obj(_) =>
  }

  /** A body that is not an object is refused by the first call to next. */
  lemma {:induction false} BodyMustBeObject(cfg: Config, v: Value, tail: Lexemes)
    requires (cfg.objMode || cfg.expectedKey != "") && !v.Obj?
    ensures var d := Drain(cfg, Fresh(cfg, Lex(v) + tail));
            d.rows == [] && d.end == BadGateway(NotTheDelim(v))
  {
    var st := Fresh(cfg, Lex(v) + tail);
    assert [] + (Lex(v) + tail) == Lex(v) + tail;
    OtherDelim(st.cur, LBrace, v, tail);
    hide Lex, Drain, ConsumeDelim, NotTheDelim;
    BeginFails(cfg, st);
  }

  lemma {:induction false} BeginLoopStops(cfg: Config, s: TokenState, pre: seq<Member>, y: Lexemes,
      stk: seq<TokenState>, m: Metadata)
    requires InObject(s) && !m.NilMeta? && NoKey(pre, cfg.expectedKey) && FoldMeta(m, pre).Some?
    ensures var s' := if pre == [] then s else ObjectComma;
            BeginLoop(cfg, Cursor(MembersBody(s, pre) + y, s, stk), m)
            == BeginLoop(cfg, Cursor(y, s', stk), FoldMeta(m, pre).value)
    decreases |pre|
  {
    if pre == [] {
      assert MembersBody(s, pre) + y == y;
    } else {
      var z := MembersBody(ObjectComma, pre[1..]) + y;
      assert MembersBody(s, pre) + y == Sep(s) + (LexMember(pre[0]) + z);
      ReadsMember(s, pre[0], z, stk);
      hide MembersBody, LexMember, SetMeta, Token, Decode;
      BeginLoopStops(cfg, ObjectComma, pre[1..], y, stk, SetMeta(m, pre[0].key, pre[0].value).value);
    }
  }

  /** So is an object without the expected key, and one in which its value is not an array. */
  lemma {:induction false} ArrayMustBeThere(cfg: Config, pre: seq<Member>, v: Value, post: seq<Member>, tail: Lexemes)
    requires !cfg.objMode && cfg.expectedKey != "" && !cfg.meta.NilMeta?
    requires NoKey(pre, cfg.expectedKey) && AllWellTyped(cfg.meta, pre)
    ensures var d := Drain(cfg, Fresh(cfg, Lex(Obj(pre)) + tail));
            d.rows == [] && d.end == BadGateway(UnexpectedToken)
    ensures !v.Arr? ==>
              var d := Drain(cfg, Fresh(cfg, Lex(Obj(pre + ([Member(cfg.expectedKey, v)] + post))) + tail));
              d.rows == [] && d.end == BadGateway(NotTheDelim(v))
  {
    MetadataIsLast(cfg.meta, pre);
    hide FoldMeta, HoldsLast, AllWellTyped, Lex, LexMember, MembersBody, Drain, NotTheDelim;
    ObjectOpens(pre, tail);
    var st := Fresh(cfg, Lex(Obj(pre)) + tail);
    OpenDelim(st.cur, LBrace, MembersBody(ObjectStart, pre) + ([RBrace] + tail));
    assert [] + [TopValue] == [TopValue];
    BeginLoopStops(cfg, ObjectStart, pre, [RBrace] + tail, [TopValue], cfg.meta);
    NoMoreKeys(cfg, if pre == [] then ObjectStart else ObjectComma, tail, FoldMeta(cfg.meta, pre).value);
    BeginFails(cfg, st);
    if !v.Arr? {
      NotAnArray(cfg, pre, v, post, tail);
    }
  }

  lemma {:induction false} ObjectOpens(ms: seq<Member>, tail: Lexemes)
    ensures Lex(Obj(ms)) + tail == [LBrace] + (MembersBody(ObjectStart, ms) + ([RBrace] + tail))
  {
    assert Lex(Obj(ms)) == [LBrace] + LexMembers(ms);
    LexMembersIsBody(ms);
  }

  lemma {:induction false} NoMoreKeys(cfg: Config, s: TokenState, tail: Lexemes, m: Metadata)
    requires InObject(s)
    ensures BeginLoop(cfg, Cursor([RBrace] + tail, s, [TopValue]), m).0 == Some(UnexpectedToken)
  {
  }

  lemma {:induction false} MemberInMiddle(pre: seq<Member>, e: Member, post: seq<Member>, y: Lexemes)
    ensures MembersBody(ObjectStart, pre + ([e] + post)) + y ==
            MembersBody(ObjectStart, pre) + (Sep(if pre == [] then ObjectStart else ObjectComma)
              + (LexMember(e) + (MembersBody(ObjectComma, post) + y)))
  {
    hide LexMember;
    BodyAppend(ObjectStart, pre, [e] + post);
    assert ([e] + post)[1..] == post;
  }

  lemma {:induction false} NotAnArray(cfg: Config, pre: seq<Member>, v: Value, post: seq<Member>, tail: Lexemes)
    requires !cfg.objMode && cfg.expectedKey != "" && !cfg.meta.NilMeta? && !v.Arr?
    requires NoKey(pre, cfg.expectedKey) && FoldMeta(cfg.meta, pre).Some?
    ensures var d := Drain(cfg, Fresh(cfg, Lex(Obj(pre + ([Member(cfg.expectedKey, v)] + post))) + tail));
            d.rows == [] && d.end == BadGateway(NotTheDelim(v))
  {
    var e := Member(cfg.expectedKey, v);
    var ms := pre + ([e] + post);
    var s := if pre == [] then ObjectStart else ObjectComma;
    var z := MembersBody(ObjectComma, post) + ([RBrace] + tail);
    var y := Sep(s) + (LexMember(e) + z);
    hide FoldMeta, Lex, LexMember, Drain, NotTheDelim, MembersBody;
    MemberInMiddle(pre, e, post, [RBrace] + tail);
    ObjectOpens(ms, tail);
    var st := Fresh(cfg, Lex(Obj(ms)) + tail);
    OpenDelim(st.cur, LBrace, MembersBody(ObjectStart, pre) + y);
    assert [] + [TopValue] == [TopValue];
    BeginLoopStops(cfg, ObjectStart, pre, y, [TopValue], cfg.meta);
    ReadsMember(s, e, z, [TopValue]);
    OtherDelim(Cursor([Colon] + (Lex(v) + z), ObjectColon, [TopValue]), LBracket, v, z);
    hide ConsumeDelim, Token, NextKey;
    BeginFails(cfg, st);
  }
}
