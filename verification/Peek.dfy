/** What reading ahead in a body finds: readRev of couchdb/chttp/chttp.go and updatesFeedType of
    couchdb/client.go, as functions of the body. */
module Peek {
  import opened Json
  import opened Decoder
  import opened IterLaws

  const REV_KEY := "_rev"

  datatype RevError = Read(e: Error) | NotAnObject(found: Lexeme) | NotAString(found: Lexeme) | NoRev

  datatype RevResult = Rev(rev: string) | NoLuck(e: RevError)

  /** The loop of readRev, and the decoder when it ends. */
  function FindRev(c: Cursor): (r: (RevResult, Cursor))
    ensures |r.1.rest| <= |c.rest|
    decreases |c.rest|
  {
    if !More(c) then (NoLuck(NoRev), c)
    else
      var (t, c1) := Token(c);
      match t
      case Err(e) => (NoLuck(Read(e)), c1)
      case Ok(l) =>
        if l == Text(REV_KEY) then
          var (t, c2) := Token(c1);
          (match t
           case Err(e) => (NoLuck(Read(e)), c2)
           case Ok(Text(rev)) => (Rev(rev), c2)
           case Ok(l) => (NoLuck(NotAString(l)), c2))
        else
          var (v, c2) := Decode(c1);
          match v
          case Err(e) => (NoLuck(Read(e)), c2)
          case Ok(_) => FindRev(c2)
  }

  function FindRevIn(body: Lexemes): (RevResult, Cursor) {
    var (t, c) := Token(NewCursor(body));
    match t
    case Err(e) => (NoLuck(Read(e)), c)
    case Ok(l) => if l != LBrace then (NoLuck(NotAnObject(l)), c) else FindRev(c)
  }

  /** One round of the loop. */
  lemma {:induction false} FindRevRound(c: Cursor)
    ensures FindRev(c) ==
            if !More(c) then (NoLuck(NoRev), c)
            else
              var (t, c1) := Token(c);
              match t
              case Err(e) => (NoLuck(Read(e)), c1)
              case Ok(l) =>
                if l == Text(REV_KEY) then
                  var (t, c2) := Token(c1);
                  (match t
                   case Err(e) => (NoLuck(Read(e)), c2)
                   case Ok(Text(rev)) => (Rev(rev), c2)
                   case Ok(l) => (NoLuck(NotAString(l)), c2))
                else
                  var (v, c2) := Decode(c1);
                  match v
                  case Err(e) => (NoLuck(Read(e)), c2)
                  case Ok(_) => FindRev(c2)
  {
  }

  // ---------------------------------------------------------------------------
  // What is found
  // ---------------------------------------------------------------------------

  /** What readRev should find in an object: the string under its first own `_rev` key. */
  function FirstRev(ms: seq<Member>): RevResult
    decreases |ms|
  {
    if ms == [] then NoLuck(NoRev)
    else if ms[0].key != "_rev" then FirstRev(ms[1..])
    else match ms[0].value
      case Str(rev) => Rev(rev)
      case v => NoLuck(NotAString(Lex(v)[0]))
  }

  lemma {:induction false} TokenReadsFirst(v: Value, y: Lexemes, stk: seq<TokenState>)
    ensures Token(Cursor([Colon] + (Lex(v) + y), ObjectColon, stk)).0 == Ok(Lex(v)[0])
    ensures v.Str? ==>
              Token(Cursor([Colon] + (Lex(v) + y), ObjectColon, stk)) == (Ok(Text(v.s)), Cursor(y, ObjectComma, stk))
  {
    var c, c1 := Cursor([Colon] + (Lex(v) + y), ObjectColon, stk), Cursor(Lex(v) + y, ObjectValue, stk);
    assert c.rest[1..] == c1.rest;
    assert Token(c) == Token(c1);
    assert v.Str? ==> c1.rest[1..] == y;
  }

  lemma {:induction false} FindsNothing(s: TokenState, y: Lexemes, stk: seq<TokenState>)
    requires y != [] && y[0] == RBrace
    ensures FindRev(Cursor(y, s, stk)).0 == NoLuck(NoRev)
  {
    hide Token, Decode;
  }

  lemma {:induction false} FindsFirstRev(s: TokenState, ms: seq<Member>, y: Lexemes, stk: seq<TokenState>)
    requires InObject(s) && (FirstRev(ms) == NoLuck(NoRev) ==> y != [] && y[0] == RBrace)
    ensures FindRev(Cursor(MembersBody(s, ms) + y, s, stk)).0 == FirstRev(ms)
    decreases |ms|
  {
    hide FindRev, Lex, LexMember;
    if ms == [] {
      assert MembersBody(s, ms) + y == y;
      FindsNothing(s, y, stk);
    } else {
      var m, z := ms[0], MembersBody(ObjectComma, ms[1..]) + y;
      assert MembersBody(s, ms) + y == Sep(s) + (LexMember(m) + z);
      hide MembersBody;
      PassesOrReadsMember(s, m, z, stk);
      if m.key != REV_KEY {
        FindsFirstRev(ObjectComma, ms[1..], y, stk);
      }
    }
  }

  lemma {:induction false} PassesOrReadsMember(s: TokenState, m: Member, z: Lexemes, stk: seq<TokenState>)
    requires InObject(s)
    ensures FindRev(Cursor(Sep(s) + (LexMember(m) + z), s, stk)).0 ==
            if m.key != REV_KEY then FindRev(Cursor(z, ObjectComma, stk)).0
            else match m.value case Str(rev) => Rev(rev) case v => NoLuck(NotAString(Lex(v)[0]))
  {
    ReadsMember(s, m, z, stk);
    TokenReadsFirst(m.value, z, stk);
    LexStarts(m.value);
    NoTextButStr(m.value);
    hide Token, Decode, More, Lex, LexMember;
  }

  lemma NoTextButStr(v: Value)
    ensures Lex(v) != [] && (Lex(v)[0].Text? <==> v.Str?)
  {
  }

  /** On every object, with anything behind it, readRev finds the first top-level `_rev`; a
      `_rev` inside a value is never taken for it. */
  lemma {:induction false} ReadRevFindsFirstRev(ms: seq<Member>, tail: Lexemes)
    ensures FindRevIn(Lex(Obj(ms)) + tail).0 == FirstRev(ms)
  {
    hide FindRev;
    assert Lex(Obj(ms)) == [LBrace] + LexMembers(ms);
    hide Lex;
    LexMembersIsBody(ms);
    var y := MembersBody(ObjectStart, ms) + ([RBrace] + tail);
    assert Lex(Obj(ms)) + tail == [LBrace] + y;
    FindsFirstRev(ObjectStart, ms, [RBrace] + tail, [TopValue]);
    assert ([LBrace] + y)[1..] == y && [] + [TopValue] == [TopValue];
  }

  /** Any other value is not an object, and on an empty body reading fails with io.EOF. */
  lemma {:induction false} ReadRevNeedsAnObject(v: Value, tail: Lexemes)
    requires !v.Obj?
    ensures FindRevIn(Lex(v) + tail).0 == NoLuck(NotAnObject(Lex(v)[0]))
    ensures FindRevIn([]).0 == NoLuck(Read(EOF))
  {
    LexStarts(v);
  }

  /** It does so as soon as the revision has arrived: the input may end, or go on with
      anything, right behind it. */
  lemma {:induction false} ReadRevNeedsNoMore(pre: seq<Member>, rev: string, tail: Lexemes)
    requires NoKey(pre, REV_KEY)
    ensures FindRevIn([LBrace] + (MembersBody(ObjectStart, pre + [Member(REV_KEY, Str(rev))]) + tail)).0 == Rev(rev)
  {
    hide FindRev;
    var ms := pre + [Member(REV_KEY, Str(rev))];
    var y := MembersBody(ObjectStart, ms) + tail;
    FirstRevBehind(pre, rev);
    FindsFirstRev(ObjectStart, ms, tail, [TopValue]);
    assert ([LBrace] + y)[1..] == y && [] + [TopValue] == [TopValue];
  }

  lemma {:induction false} FirstRevBehind(pre: seq<Member>, rev: string)
    requires NoKey(pre, REV_KEY)
    ensures FirstRev(pre + [Member(REV_KEY, Str(rev))]) == Rev(rev)
    decreases |pre|
  {
    var ms := pre + [Member(REV_KEY, Str(rev))];
    if pre != [] {
      assert ms[1..] == pre[1..] + [Member(REV_KEY, Str(rev))];
      FirstRevBehind(pre[1..], rev);
    }
  }

  // ---------------------------------------------------------------------------
  // The type of an updates feed
  // ---------------------------------------------------------------------------

  datatype FeedType = Normal | Continuous | Empty
  datatype FeedError = FeedRead(e: Error) | NotABrace(found: Lexeme) | Unknown(found: Lexeme)
  datatype FeedResult = Feed(t: FeedType) | NoFeed(e: FeedError)

  function OfFirstToken(l: Lexeme): FeedResult {
    if l == Text("db_name") then Feed(Continuous)
    else if l == Text("results") then Feed(Normal)
    else if l == Text("last_seq") then Feed(Empty)
    else NoFeed(Unknown(l))
  }

  /** updatesFeedType, and the decoder when it ends: two tokens decide. */
  function FindFeedType(body: Lexemes): (FeedResult, Cursor) {
    var (t, c) := Token(NewCursor(body));
    match t
    case Err(e) => (NoFeed(FeedRead(e)), c)
    case Ok(l) =>
      if l != LBrace then (NoFeed(NotABrace(l)), c)
      else
        var (t, c1) := Token(c);
        match t
        case Err(e) => (NoFeed(FeedRead(e)), c1)
        case Ok(l) => (OfFirstToken(l), c1)
  }

  /** On an object with members the first key decides, and it is enough that this key has
      arrived. */
  lemma {:induction false} FirstKeyDecides(key: string, y: Lexemes)
    ensures FindFeedType([LBrace] + ([Text(key)] + y)) ==
            (if key == "results" then Feed(Normal)
             else if key == "db_name" then Feed(Continuous)
             else if key == "last_seq" then Feed(Empty)
             else NoFeed(Unknown(Text(key))),
             Cursor(y, ObjectColon, [TopValue]))
  {
    var body := [LBrace] + ([Text(key)] + y);
    assert [] + [TopValue] == [TopValue];
    assert body[1..] == [Text(key)] + y;
    assert Token(NewCursor(body)) == (Ok(LBrace), Cursor([Text(key)] + y, ObjectStart, [TopValue]));
    ReadsKey(ObjectStart, key, y, [TopValue]);
    assert Sep(ObjectStart) + ([Text(key)] + y) == [Text(key)] + y;
    hide Token;
  }

  /** A type is found in no body but those that begin with a brace and one of the three keys. */
  lemma {:induction false} FeedTypeIff(body: Lexemes)
    ensures FindFeedType(body).0 == Feed(Normal) <==> [LBrace, Text("results")] <= body
    ensures FindFeedType(body).0 == Feed(Continuous) <==> [LBrace, Text("db_name")] <= body
    ensures FindFeedType(body).0 == Feed(Empty) <==> [LBrace, Text("last_seq")] <= body
  {
    if |body| >= 2 && body[0] == LBrace && body[1].Text? {
      assert body == [LBrace] + ([Text(body[1].s)] + body[2..]);
      FirstKeyDecides(body[1].s, body[2..]);
    } else {
      OtherwiseNoFeed(body);
    }
  }

  lemma {:induction false} OtherwiseNoFeed(body: Lexemes)
    requires |body| < 2 || body[0] != LBrace || !body[1].Text?
    ensures FindFeedType(body).0.NoFeed?
  {
  }

  // ---------------------------------------------------------------------------
  // What is read, and giving it back
  // ---------------------------------------------------------------------------

  lemma {:induction false} TokenIsLocal(c: Cursor, p: Lexemes, q: Lexemes)
    requires c.rest == p + q && Token(c).0.Ok? && |Token(c).1.rest| >= |q|
    ensures p != [] && Token(c.(rest := p)).0 == Token(c).0
    ensures var c' := Token(c).1;
            var p' := Token(c.(rest := p)).1.rest;
            c' == Token(c.(rest := p)).1.(rest := p' + q)
    decreases |p|
  {
    assert c.rest[1..] == p[1..] + q;
    if c.rest[0] == Colon {
      TokenIsLocal(Skip(c, ObjectValue), p[1..], q);
    } else if c.rest[0] == Comma {
      TokenIsLocal(Skip(c, if c.state == ArrayComma then ArrayValue else ObjectKey), p[1..], q);
    }
  }

  lemma {:induction false} SplitBehind(p: Lexemes, q: Lexemes, a: Lexemes, b: Lexemes, r: Lexemes)
    requires p + q == a + (b + r) && |r| >= |q|
    ensures p == a + (b + r[..|r| - |q|]) && r == r[..|r| - |q|] + q
  {
    assert a + (b + r) == (a + b) + r;
    assert p == ((a + b) + r)[..|p|];
    assert r == (p + q)[|a + b|..];
  }

  lemma {:induction false} DecodeIsLocal(c: Cursor, p: Lexemes, q: Lexemes)
    requires c.rest == p + q && Decode(c).0.Ok? && |Decode(c).1.rest| >= |q|
    ensures Decode(c.(rest := p)).0 == Decode(c).0
    ensures var p' := Decode(c.(rest := p)).1.rest;
            Decode(c).1 == Decode(c.(rest := p)).1.(rest := p' + q)
  {
    var v, c' := Decode(c).0.value, Decode(c).1;
    DecodeIsAllowed(c);
    DecodeConsumesOneValue(c, v);
    DecodeReads(c, v, c'.rest);
    hide Decode, Lex, Separator, ValueAllowed;
    var p' := c'.rest[..|c'.rest| - |q|];
    SplitBehind(p, q, Separator(c.state), Lex(v), c'.rest);
    DecodeReads(c.(rest := p), v, p');
  }

  lemma {:induction false} DecodeIsAllowed(c: Cursor)
    requires Decode(c).0.Ok?
    ensures ValueAllowed(AfterSeparator(c.state))
  {
    PrepareSkipsOnlySeparator(c);
    hide Parse;
  }

  /** readRev's answer depends only on what it has read: with any continuation, or none, it
      answers the same. */
  lemma {:induction false} FindRevIsLocal(c: Cursor, p: Lexemes, q: Lexemes)
    requires c.rest == p + q && FindRev(c).0.Rev? && |FindRev(c).1.rest| >= |q|
    ensures FindRev(c.(rest := p)).0 == FindRev(c).0
    decreases |p|
  {
    hide Token, Decode;
    var c1 := Token(c).1;
    TokenIsLocal(c, p, q);
    assert More(c.(rest := p));
    var p1 := Token(c.(rest := p)).1.rest;
    if Token(c).0 == Ok(Text(REV_KEY)) {
      TokenIsLocal(c1, p1, q);
    } else {
      var c2 := Decode(c1).1;
      DecodeIsLocal(c1, p1, q);
      FindRevIsLocal(c2, Decode(c1.(rest := p1)).1.rest, q);
    }
  }

  lemma {:induction false} FindRevInIsLocal(body: Lexemes, p: Lexemes, q: Lexemes)
    requires body == p + q && FindRevIn(body).0.Rev? && |FindRevIn(body).1.rest| >= |q|
    ensures FindRevIn(p).0 == FindRevIn(body).0
  {
    hide Token, Decode;
    TokenIsLocal(NewCursor(body), p, q);
    FindRevIsLocal(Token(NewCursor(body)).1, Token(NewCursor(p)).1.rest, q);
  }

  lemma {:induction false} FindFeedTypeIsLocal(body: Lexemes, p: Lexemes, q: Lexemes)
    requires body == p + q && FindFeedType(body).0.Feed? && |FindFeedType(body).1.rest| >= |q|
    ensures FindFeedType(p).0 == FindFeedType(body).0
  {
    hide Token, OfFirstToken;
    TokenIsLocal(NewCursor(body), p, q);
    TokenIsLocal(Token(NewCursor(body)).1, Token(NewCursor(p)).1.rest, q);
  }
}
