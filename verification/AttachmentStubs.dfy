/** copyWithAttachmentStubs of couchdb/db.go: a streaming rewrite of a JSON object. */
module AttachmentStubs {
  import opened Json
  import opened Decoder
  import opened IterLaws
  import opened TruncationLaws
  import opened Wrappers
  import JsonString

  const ATTACHMENTS_KEY := "_attachments"

  /** What the copier writes: lexemes; a decoded key between quotes, not escaped again; or
      what Go prints for a nil token. */
  datatype Piece = Copied(l: Lexeme) | RawKey(s: string) | NilToken

  type Output = seq<Piece>

  datatype CopyError =
    | ExpectedBrace(found: Lexeme) | BadRequest(e: Error) | Plain(e: Error) | ExpectedClose(found: Lexeme)
    | WriteFailed

  function Copy(ls: Lexemes): Output {
    seq(|ls|, i requires 0 <= i < |ls| => Copied(ls[i]))
  }

  /** What a key adds to the output: a comma unless it is the first, the key, a colon. */
  function KeyPieces(first: bool, key: string): Output {
    (if first then [] else [Copied(Comma)]) + [RawKey(key), Copied(Colon)]
  }

  /** The loop over tokens; `out` has been written. */
  function CopyLoop(c: Cursor, stubs: Value, first: bool, out: Output): (Option<CopyError>, Output)
    decreases |c.rest|
  {
    var (t, c1) := Token(c);
    match t
    case Err(e) => (if e == EOF then None else Some(BadRequest(e)), out)
    case Ok(Text(key)) =>
      var out1 := out + KeyPieces(first, key);
      var (v, c2) := Decode(c1);
      (match v
       case Err(e) => (Some(Plain(e)), out1)
       case Ok(v) =>
         if key == ATTACHMENTS_KEY then (None, out1 + Copy(Lex(stubs)) + Copy(c2.rest))
         else CopyLoop(c2, stubs, false, out1 + Copy(Lex(v))))
    case Ok(Literal(_)) => CopyLoop(c1, stubs, first, out)
    case Ok(d) =>
      if d != RBrace then (Some(ExpectedClose(d)), out)
      else CopyLoop(c1, stubs, first, out + [Copied(RBrace)])
  }

  function CopyWithStubs(input: Lexemes, stubs: Value): (Option<CopyError>, Output) {
    var (t, c) := Token(NewCursor(input));
    match t
    case Ok(l) => if l != LBrace then (Some(ExpectedBrace(l)), []) else CopyLoop(c, stubs, true, [Copied(LBrace)])
    case Err(e) => if e != EOF then (Some(Plain(e)), []) else CopyLoop(c, stubs, true, [NilToken])
  }

  /** What becomes of the copy when the writer fails behind `room` pieces. */
  function Limited(r: (Option<CopyError>, Output), room: nat): (Option<CopyError>, Output) {
    if |r.1| <= room then r else (Some(WriteFailed), r.1[..room])
  }

  /** An io.Writer, which takes `room` more pieces and then fails. */
  class Writer {
    var written: Output
    var room: nat

    constructor (room: nat)
      ensures written == [] && this.room == room
    {
      written, this.room := [], room;
    }

    method Write(p: Output) returns (ok: bool)
      modifies this
      ensures ok <==> |p| <= old(room)
      ensures written == old(written) + (if ok then p else p[..old(room)])
      ensures room == if ok then old(room) - |p| else 0
    {
      ok := |p| <= room;
      var n := if ok then |p| else room;
      written := written + p[..n];
      room := room - n;
      assert p[..|p|] == p;
    }
  }

  /** Writes the next part of `full`, of which `limit` pieces fit. */
  method WritePart(w: Writer, p: Output, ghost full: Output, ghost limit: nat) returns (ok: bool)
    requires w.room + |w.written| == limit && w.written + p <= full
    modifies w
    ensures ok ==> w.room + |w.written| == limit && w.written == old(w.written) + p
    ensures !ok ==> |full| > limit && w.written == full[..limit]
  {
    FailsWithin(full, w.written, p, w.room);
    ok := w.Write(p);
  }

  method CopyWithAttachmentStubs(w: Writer, input: Lexemes, stubs: Value) returns (err: Option<CopyError>)
    requires w.written == []
    modifies w
    ensures (err, w.written) == Limited(CopyWithStubs(input, stubs), old(w.room))
  {
    hide CopyLoop, Copy, KeyPieces, Token, Decode, Lex;
    ghost var limit, full := w.room, CopyWithStubs(input, stubs).1;
    var dec := new JsonDecoder(input);
    var t := dec.NextToken();
    if t.Ok? && t.value != LBrace {
      return Some(ExpectedBrace(t.value));
    }
    if t.Err? && t.error != EOF {
      return Some(Plain(t.error));
    }
    var start := [if t.Ok? then Copied(t.value) else NilToken];
    CopyLoopAppends(dec.cur, stubs, true, start);
    assert w.written + start == start;
    var ok := WritePart(w, start, full, limit);
    if !ok {
      return Some(WriteFailed);
    }
    var first := true;
    while true
      invariant w.room + |w.written| == limit
      invariant CopyLoop(dec.cur, stubs, first, w.written) == CopyWithStubs(input, stubs)
      decreases |dec.cur.rest|
    {
      CopyLoopRound(dec.cur, stubs, first, w.written);
      var t := dec.NextToken();
      if t == Err(EOF) {
        break;
      }
      if t.Err? {
        return Some(BadRequest(t.error));
      }
      match t.value {
        case Text(key) =>
          ok := WritePart(w, KeyPieces(first, key), full, limit);
          if !ok {
            return Some(WriteFailed);
          }
          first := false;
          var v := dec.DecodeValue();
          if v.Err? {
            return Some(Plain(v.error));
          }
          if key == ATTACHMENTS_KEY {
            ok := WritePart(w, Copy(Lex(stubs)), full, limit);
            if !ok {
              return Some(WriteFailed);
            }
            ok := WritePart(w, Copy(dec.cur.rest), full, limit);
            return if ok then None else Some(WriteFailed);
          }
          ok := WritePart(w, Copy(Lex(v.value)), full, limit);
          if !ok {
            return Some(WriteFailed);
          }
        case Literal(_) =>
        case RBrace =>
          ok := WritePart(w, [Copied(RBrace)], full, limit);
          if !ok {
            return Some(WriteFailed);
          }
        case d => return Some(ExpectedClose(d));
      }
    }
    err := None;
  }

  /** A write that fails leaves the output cut at the limit. */
  lemma {:induction false} FailsWithin(full: Output, written: Output, p: Output, room: nat)
    requires written + p <= full
    ensures |p| > room ==> |full| > |written| + room && written + p[..room] == full[..|written| + room]
    ensures written <= full
  {
    assert full[..|written + p|] == written + p;
    if |p| > room {
      assert full[..|written| + room] == (written + p)[..|written| + room];
    }
  }

  lemma {:induction false} CopyLoopAppends(c: Cursor, stubs: Value, first: bool, out: Output)
    ensures out <= CopyLoop(c, stubs, first, out).1
    decreases |c.rest|
  {
    hide Token, Decode, Copy, KeyPieces;
    var (t, c1) := Token(c);
    if t.Ok? {
      if t.value.Text? {
        var out1 := out + KeyPieces(first, t.value.s);
        var (v, c2) := Decode(c1);
        if v.Ok? && t.value.s != ATTACHMENTS_KEY {
          CopyLoopAppends(c2, stubs, false, out1 + Copy(Lex(v.value)));
        }
      } else if t.value.Literal? {
        CopyLoopAppends(c1, stubs, first, out);
      } else if t.value == RBrace {
        CopyLoopAppends(c1, stubs, first, out + [Copied(RBrace)]);
      }
    }
  }

  /** What one round of the loop adds to the output. */
  lemma {:induction false} CopyLoopRound(c: Cursor, stubs: Value, first: bool, out: Output)
    ensures var (t, c1) := Token(c);
            var full := CopyLoop(c, stubs, first, out);
            match t
            case Err(e) => full == (if e == EOF then None else Some(BadRequest(e)), out)
            case Ok(Text(key)) =>
              var out1 := out + KeyPieces(first, key);
              var (v, c2) := Decode(c1);
              out1 <= full.1
              && (match v
                  case Err(e) => full == (Some(Plain(e)), out1)
                  case Ok(v) =>
                    if key == ATTACHMENTS_KEY then
                      full == (None, out1 + Copy(Lex(stubs)) + Copy(c2.rest)) && out1 + Copy(Lex(stubs)) <= full.1
                    else
                      full == CopyLoop(c2, stubs, false, out1 + Copy(Lex(v))) && out1 + Copy(Lex(v)) <= full.1)
            case Ok(Literal(_)) => full == CopyLoop(c1, stubs, first, out)
            case Ok(d) =>
              if d != RBrace then full == (Some(ExpectedClose(d)), out)
              else full == CopyLoop(c1, stubs, first, out + [Copied(RBrace)]) && out + [Copied(RBrace)] <= full.1
  {
    hide Token, Decode, Copy, KeyPieces;
    var (t, c1) := Token(c);
    if t.Ok? {
      if t.value.Text? {
        var (v, c2) := Decode(c1);
        if v.Ok? && t.value.s != ATTACHMENTS_KEY {
          CopyLoopAppends(c2, stubs, false, out + KeyPieces(first, t.value.s) + Copy(Lex(v.value)));
        }
      } else if t.value == RBrace {
        CopyLoopAppends(c1, stubs, first, out + [Copied(RBrace)]);
      }
    }
  }

  // ---------------------------------------------------------------------------
  // What the output reads as
  // ---------------------------------------------------------------------------

  /** What a piece can be read as: a raw key as any JSON string that begins at its opening quote,
      whatever is printed behind it and wherever that string ends. */
  ghost predicate CanRead(p: Piece, l: Lexeme) {
    match p
    case Copied(copied) => l == copied
    case RawKey(s) =>
      exists rest :: JsonString.Read(s + ("\"" + rest)).Some? && l == Text(JsonString.Read(s + ("\"" + rest)).value.0)
    case NilToken => false
  }

  /** Piece by piece, the output can be read as those lexemes. */
  ghost predicate ReadsAs(out: Output, ls: Lexemes) {
    |out| == |ls| && forall i :: 0 <= i < |out| ==> CanRead(out[i], ls[i])
  }

  predicate PlainKeys(ms: seq<Member>) {
    forall i :: 0 <= i < |ms| ==> JsonString.Plain(ms[i].key)
  }

  lemma {:induction false} ReadsAsConcat(a: Output, b: Output, la: Lexemes, lb: Lexemes)
    requires |a| == |la|
    ensures ReadsAs(a + b, la + lb) <==> ReadsAs(a, la) && ReadsAs(b, lb)
  {
    if ReadsAs(a + b, la + lb) {
      assert forall i :: 0 <= i < |a| ==> (a + b)[i] == a[i] && (la + lb)[i] == la[i];
      assert forall i :: 0 <= i < |b| ==> (a + b)[|a| + i] == b[i] && (la + lb)[|la| + i] == lb[i];
    }
  }

  lemma {:induction false} CopyReadsAs(ls: Lexemes)
    ensures |Copy(ls)| == |ls| && ReadsAs(Copy(ls), ls)
  {
  }

  lemma {:induction false} RawKeyReadsAsItself(key: string)
    ensures CanRead(RawKey(key), Text(key)) <==> JsonString.Plain(key)
  {
    hide JsonString.Read, JsonString.Plain;
    forall rest: string
      ensures JsonString.Read(key + ("\"" + rest)) == Some((key, rest)) <==> JsonString.Plain(key)
      ensures var r := JsonString.Read(key + ("\"" + rest)); r.Some? && r.value.0 == key ==> JsonString.Plain(key)
    {
      JsonString.UnescapedReadsBackIffPlain(key, rest);
    }
    assert JsonString.Plain(key) ==> JsonString.Read(key + ("\"" + "")) == Some((key, ""));
  }

  lemma CopiedReadsAsItself(l: Lexeme)
    ensures CanRead(Copied(l), l)
  {
  }

  lemma {:induction false} KeyReadsAs(s: TokenState, key: string)
    requires InObject(s)
    ensures ReadsAs(KeyPieces(s == ObjectStart, key), Sep(s) + [Text(key), Colon]) <==> JsonString.Plain(key)
  {
    hide JsonString.Read, JsonString.Plain, CanRead;
    var out, ls := KeyPieces(s == ObjectStart, key), Sep(s) + [Text(key), Colon];
    RawKeyReadsAsItself(key);
    CopiedReadsAsItself(Comma);
    CopiedReadsAsItself(Colon);
    var k := |Sep(s)|;
    assert |out| == |ls| == k + 2;
    assert out[k] == RawKey(key) && ls[k] == Text(key) && out[k + 1] == Copied(Colon) && ls[k + 1] == Colon;
  }

  /** The pieces written for whole members. */
  function MemberPieces(s: TokenState, ms: seq<Member>): Output
    decreases |ms|
  {
    if ms == [] then []
    else KeyPieces(s == ObjectStart, ms[0].key) + (Copy(Lex(ms[0].value)) + MemberPieces(ObjectComma, ms[1..]))
  }

  lemma {:induction false} MembersReadAs(s: TokenState, ms: seq<Member>)
    requires InObject(s)
    ensures |MemberPieces(s, ms)| == |MembersBody(s, ms)|
    ensures ReadsAs(MemberPieces(s, ms), MembersBody(s, ms)) <==> PlainKeys(ms)
    decreases |ms|
  {
    if ms != [] {
      hide ReadsAs, KeyPieces, JsonString.Plain, PlainKeys, Lex, Copy, LexMember;
      var m := ms[0];
      MembersReadAs(ObjectComma, ms[1..]);
      KeyReadsAs(s, m.key);
      CopyReadsAs(Lex(m.value));
      PlainKeysFirst(ms);
      FirstMemberBody(s, ms);
      ReadsAsConcat3(KeyPieces(s == ObjectStart, m.key), Copy(Lex(m.value)), MemberPieces(ObjectComma, ms[1..]),
                     Sep(s) + [Text(m.key), Colon], Lex(m.value), MembersBody(ObjectComma, ms[1..]));
    }
  }

  lemma {:induction false} FirstMemberBody(s: TokenState, ms: seq<Member>)
    requires InObject(s) && ms != []
    ensures MembersBody(s, ms) ==
            (Sep(s) + [Text(ms[0].key), Colon]) + (Lex(ms[0].value) + MembersBody(ObjectComma, ms[1..]))
    ensures |KeyPieces(s == ObjectStart, ms[0].key)| == |Sep(s) + [Text(ms[0].key), Colon]|
  {
    hide Lex;
    var key, value, more := [Text(ms[0].key), Colon], Lex(ms[0].value), MembersBody(ObjectComma, ms[1..]);
    assert MembersBody(s, ms) == Sep(s) + ((key + value) + more);
    hide MembersBody;
    assert (key + value) + more == key + (value + more);
    assert Sep(s) + (key + (value + more)) == (Sep(s) + key) + (value + more);
  }

  lemma {:induction false} ReadsAsConcat3(a: Output, b: Output, c: Output, la: Lexemes, lb: Lexemes, lc: Lexemes)
    requires |a| == |la| && |b| == |lb| && |c| == |lc|
    ensures |a + (b + c)| == |la + (lb + lc)|
    ensures ReadsAs(a + (b + c), la + (lb + lc)) <==> ReadsAs(a, la) && ReadsAs(b, lb) && ReadsAs(c, lc)
  {
    hide ReadsAs;
    ReadsAsConcat(b, c, lb, lc);
    ReadsAsConcat(a, b + c, la, lb + lc);
  }

  lemma {:induction false} PlainKeysFirst(ms: seq<Member>)
    requires ms != []
    ensures PlainKeys(ms) <==> JsonString.Plain(ms[0].key) && PlainKeys(ms[1..])
  {
    hide JsonString.Plain;
    assert ms == [ms[0]] + ms[1..];
  }

  // ---------------------------------------------------------------------------
  // Whole members are copied
  // ---------------------------------------------------------------------------

  lemma {:induction false} CopiesOneMember(s: TokenState, m: Member, y: Lexemes, stk: seq<TokenState>,
      stubs: Value, out: Output)
    requires InObject(s)
    ensures var out1 := out + KeyPieces(s == ObjectStart, m.key);
            CopyLoop(Cursor(Sep(s) + (LexMember(m) + y), s, stk), stubs, s == ObjectStart, out) ==
            if m.key == ATTACHMENTS_KEY then (None, out1 + Copy(Lex(stubs)) + Copy(y))
            else CopyLoop(Cursor(y, ObjectComma, stk), stubs, false, out1 + Copy(Lex(m.value)))
  {
    hide Token, Decode, Lex, LexMember, KeyPieces, Copy;
    ReadsMember(s, m, y, stk);
  }

  lemma {:induction false} CopiesMembers(s: TokenState, ms: seq<Member>, y: Lexemes, stk: seq<TokenState>,
      stubs: Value, out: Output)
    requires InObject(s) && NoKey(ms, ATTACHMENTS_KEY)
    ensures CopyLoop(Cursor(MembersBody(s, ms) + y, s, stk), stubs, s == ObjectStart, out)
            == CopyLoop(Cursor(y, if ms == [] then s else ObjectComma, stk), stubs, s == ObjectStart && ms == [],
                        out + MemberPieces(s, ms))
    decreases |ms|
  {
    hide CopyLoop, KeyPieces, Copy, Lex, LexMember;
    if ms == [] {
      assert MembersBody(s, ms) + y == y;
      assert out + MemberPieces(s, ms) == out;
    } else {
      var m, z := ms[0], MembersBody(ObjectComma, ms[1..]) + y;
      assert MembersBody(s, ms) + y == Sep(s) + (LexMember(m) + z);
      CopiesOneMember(s, m, z, stk, stubs, out);
      var out1 := out + KeyPieces(s == ObjectStart, m.key) + Copy(Lex(m.value));
      CopiesMembers(ObjectComma, ms[1..], y, stk, stubs, out1);
      assert out1 + MemberPieces(ObjectComma, ms[1..]) == out + MemberPieces(s, ms);
    }
  }

  /** The state in which the member after `ms` is read. */
  function StateAfter(ms: seq<Member>): TokenState {
    if ms == [] then ObjectStart else ObjectComma
  }

  lemma {:induction false} OpensObject(y: Lexemes, stubs: Value)
    ensures CopyWithStubs([LBrace] + y, stubs)
            == CopyLoop(Cursor(y, ObjectStart, [TopValue]), stubs, true, [Copied(LBrace)])
  {
    hide CopyLoop;
    assert [] + [TopValue] == [TopValue];
    assert ([LBrace] + y)[1..] == y;
  }

  /** With an `_attachments` member somewhere: the members before it, its key, the stubs, and
      then all further input, whatever it is. */
  lemma {:induction false} OutputWithAttachments(pre: seq<Member>, v: Value, y: Lexemes, stubs: Value)
    requires NoKey(pre, ATTACHMENTS_KEY)
    ensures var s := StateAfter(pre);
            CopyWithStubs(
              [LBrace] + (MembersBody(ObjectStart, pre) + (Sep(s) + (LexMember(Member(ATTACHMENTS_KEY, v)) + y))), stubs)
            == (None, [Copied(LBrace)] + (MemberPieces(ObjectStart, pre)
                      + (KeyPieces(s == ObjectStart, ATTACHMENTS_KEY) + (Copy(Lex(stubs)) + Copy(y)))))
  {
    hide CopyLoop, CopyWithStubs, KeyPieces, Copy, Lex, LexMember, MembersBody, MemberPieces;
    var s := StateAfter(pre);
    var z := Sep(s) + (LexMember(Member(ATTACHMENTS_KEY, v)) + y);
    OpensObject(MembersBody(ObjectStart, pre) + z, stubs);
    CopiesMembers(ObjectStart, pre, z, [TopValue], stubs, [Copied(LBrace)]);
    var out := [Copied(LBrace)] + MemberPieces(ObjectStart, pre);
    CopiesOneMember(s, Member(ATTACHMENTS_KEY, v), y, [TopValue], stubs, out);
    var key := KeyPieces(s == ObjectStart, ATTACHMENTS_KEY);
    assert out + key + Copy(Lex(stubs)) + Copy(y)
        == [Copied(LBrace)] + (MemberPieces(ObjectStart, pre) + (key + (Copy(Lex(stubs)) + Copy(y))));
  }

  /** The object with the first top-level `_attachments` value replaced. */
  lemma {:induction false} ObjectLayout(pre: seq<Member>, v: Value, post: seq<Member>, tail: Lexemes)
    ensures Lex(Obj(pre + ([Member(ATTACHMENTS_KEY, v)] + post))) + tail
            == [LBrace] + (MembersBody(ObjectStart, pre)
               + (Sep(StateAfter(pre)) + (LexMember(Member(ATTACHMENTS_KEY, v)) + (LexMembersTail(post) + tail))))
  {
    hide LexMember, MembersBody;
    var m := Member(ATTACHMENTS_KEY, v);
    var ms := pre + ([m] + post);
    assert Lex(Obj(ms)) == [LBrace] + LexMembers(ms);
    hide Lex, LexMembers, LexMembersTail;
    LexMembersIsBody(ms);
    LexMembersTailIsBody(post);
    BodyLayout(pre, m, post);
    Regroup(MembersBody(ObjectStart, pre), Sep(StateAfter(pre)), LexMember(m), MembersBody(ObjectComma, post), tail);
  }

  lemma {:induction false} BodyLayout(pre: seq<Member>, m: Member, post: seq<Member>)
    ensures MembersBody(ObjectStart, pre + ([m] + post))
            == MembersBody(ObjectStart, pre) + (Sep(StateAfter(pre)) + (LexMember(m) + MembersBody(ObjectComma, post)))
  {
    hide LexMember;
    BodyAppend(ObjectStart, pre, [m] + post);
    assert ([m] + post)[1..] == post;
  }

  lemma {:induction false} Regroup(b: Lexemes, s: Lexemes, m: Lexemes, p: Lexemes, tail: Lexemes)
    ensures ([LBrace] + ((b + (s + (m + p))) + [RBrace])) + tail
            == [LBrace] + (b + (s + (m + ((p + [RBrace]) + tail))))
  {
  }

  lemma {:induction false} KeyLength(s: TokenState, key: string)
    requires InObject(s)
    ensures |KeyPieces(s == ObjectStart, key)| == |Sep(s) + [Text(key), Colon]|
  {
  }

  lemma {:induction false} AttachmentsKeyIsPlain()
    ensures JsonString.Plain(ATTACHMENTS_KEY)
  {
  }

  lemma {:induction false} BraceReadsAs()
    ensures ReadsAs([Copied(LBrace)], [LBrace]) && ReadsAs([Copied(RBrace)], [RBrace])
  {
  }

  /** The output succeeds and reads as the input with only the first top-level `_attachments`
      value replaced by the stubs; nested `_attachments` keys, everything behind the
      replacement and anything behind the object are untouched.  That it reads so depends on
      the keys before it alone: they are printed unescaped, so they must need no escaping. */
  lemma {:induction false} StubsReplaceAttachments(pre: seq<Member>, v: Value, post: seq<Member>, tail: Lexemes,
      stubs: Value)
    requires NoKey(pre, "_attachments")
    ensures var (err, out) := CopyWithStubs(Lex(Obj(pre + ([Member("_attachments", v)] + post))) + tail, stubs);
            && err == None
            && (ReadsAs(out, Lex(Obj(pre + ([Member("_attachments", stubs)] + post))) + tail) <==> PlainKeys(pre))
  {
    hide CopyWithStubs, ReadsAs, KeyPieces, Copy, Lex, MembersBody, MemberPieces, PlainKeys, LexMembersTail;
    var s, y := StateAfter(pre), LexMembersTail(post) + tail;
    ObjectLayout(pre, v, post, tail);
    ObjectLayout(pre, stubs, post, tail);
    OutputWithAttachments(pre, v, y, stubs);
    MembersReadAs(ObjectStart, pre);
    KeyReadsAs(s, ATTACHMENTS_KEY);
    AttachmentsKeyIsPlain();
    CopyReadsAs(Lex(stubs));
    CopyReadsAs(y);
    var key := KeyPieces(s == ObjectStart, ATTACHMENTS_KEY);
    var keyLs := Sep(s) + [Text(ATTACHMENTS_KEY), Colon];
    KeyLength(s, ATTACHMENTS_KEY);
    ReadsAsConcat3(key, Copy(Lex(stubs)), Copy(y), keyLs, Lex(stubs), y);
    BraceReadsAs();
    ReadsAsConcat3([Copied(LBrace)], MemberPieces(ObjectStart, pre), key + (Copy(Lex(stubs)) + Copy(y)),
                   [LBrace], MembersBody(ObjectStart, pre), keyLs + (Lex(stubs) + y));
    assert Sep(s) + (LexMember(Member(ATTACHMENTS_KEY, stubs)) + y) == keyLs + (Lex(stubs) + y);
  }

  /** Without an `_attachments` member the object is copied whole. */
  lemma {:induction false} WithoutAttachmentsIsCopied(ms: seq<Member>, stubs: Value)
    requires NoKey(ms, "_attachments")
    ensures var (err, out) := CopyWithStubs(Lex(Obj(ms)), stubs);
            err == None && (ReadsAs(out, Lex(Obj(ms))) <==> PlainKeys(ms))
  {
    hide CopyLoop, CopyWithStubs, ReadsAs, KeyPieces, Copy, MembersBody, MemberPieces, PlainKeys;
    assert Lex(Obj(ms)) == [LBrace] + LexMembers(ms);
    hide Lex;
    LexMembersIsBody(ms);
    OpensObject(MembersBody(ObjectStart, ms) + [RBrace], stubs);
    CopiesMembers(ObjectStart, ms, [RBrace], [TopValue], stubs, [Copied(LBrace)]);
    ClosesObject(StateAfter(ms), stubs, ms == [], [Copied(LBrace)] + MemberPieces(ObjectStart, ms));
    MembersReadAs(ObjectStart, ms);
    BraceReadsAs();
    ReadsAsConcat3([Copied(LBrace)], MemberPieces(ObjectStart, ms), [Copied(RBrace)],
                   [LBrace], MembersBody(ObjectStart, ms), [RBrace]);
    assert [Copied(LBrace)] + MemberPieces(ObjectStart, ms) + [Copied(RBrace)]
        == [Copied(LBrace)] + (MemberPieces(ObjectStart, ms) + [Copied(RBrace)]);
  }

  lemma {:induction false} ClosesObject(s: TokenState, stubs: Value, first: bool, out: Output)
    requires InObject(s)
    ensures CopyLoop(Cursor([RBrace], s, [TopValue]), stubs, first, out) == (None, out + [Copied(RBrace)])
  {
    assert CopyLoop(Cursor([], TopValue, []), stubs, first, out + [Copied(RBrace)]) == (None, out + [Copied(RBrace)]);
  }

  // ---------------------------------------------------------------------------
  // Input that is not an object
  // ---------------------------------------------------------------------------

  /** What may follow whole members: a comma or the closing brace, or at first a key. */
  predicate MayFollow(ms: seq<Member>, l: Lexeme) {
    l == RBrace || if ms == [] then l.Text? else l == Comma
  }

  /** Anything else that follows whole members in front of `_attachments`, such as a key without its
      comma, is a bad request; and so is what is neither key nor value behind a comma. */
  lemma {:induction false} BrokenObjectIsRefused(ms: seq<Member>, l: Lexeme, y: Lexemes, stubs: Value)
    requires NoKey(ms, "_attachments")
    ensures !MayFollow(ms, l) ==>
              CopyWithStubs([LBrace] + (MembersBody(ObjectStart, ms) + ([l] + y)), stubs)
              == (Some(BadRequest(Syntax)), [Copied(LBrace)] + MemberPieces(ObjectStart, ms))
    ensures ms != [] && !l.Text? ==>
              CopyWithStubs([LBrace] + (MembersBody(ObjectStart, ms) + ([Comma] + ([l] + y))), stubs)
              == (Some(BadRequest(Syntax)), [Copied(LBrace)] + MemberPieces(ObjectStart, ms))
  {
    hide CopyLoop, CopyWithStubs, MembersBody, MemberPieces;
    var s, out := StateAfter(ms), [Copied(LBrace)] + MemberPieces(ObjectStart, ms);
    OpensObject(MembersBody(ObjectStart, ms) + ([l] + y), stubs);
    CopiesMembers(ObjectStart, ms, [l] + y, [TopValue], stubs, [Copied(LBrace)]);
    OpensObject(MembersBody(ObjectStart, ms) + ([Comma] + ([l] + y)), stubs);
    CopiesMembers(ObjectStart, ms, [Comma] + ([l] + y), [TopValue], stubs, [Copied(LBrace)]);
    if !MayFollow(ms, l) {
      SyntaxErrorEnds(Cursor([l] + y, s, [TopValue]), stubs, ms == [], out);
    }
    if ms != [] && !l.Text? {
      assert ([Comma] + ([l] + y))[1..] == [l] + y;
      assert Token(Cursor([Comma] + ([l] + y), s, [TopValue])) == Token(Cursor([l] + y, ObjectKey, [TopValue]));
      SyntaxErrorEnds(Cursor([Comma] + ([l] + y), s, [TopValue]), stubs, false, out);
    }
  }

  lemma {:induction false} SyntaxErrorEnds(c: Cursor, stubs: Value, first: bool, out: Output)
    requires Token(c).0 == Err(Syntax)
    ensures CopyLoop(c, stubs, first, out) == (Some(BadRequest(Syntax)), out)
  {
  }

  /** What follows an object without `_attachments`: a structure is refused as not the closing
      brace, any other structural character as bad, and a number or literal name is dropped. */
  lemma {:induction false} BehindTheObject(ms: seq<Member>, l: Lexeme, y: Lexemes, stubs: Value)
    requires NoKey(ms, "_attachments")
    ensures var copied := [Copied(LBrace)] + MemberPieces(ObjectStart, ms) + [Copied(RBrace)];
            var r := CopyWithStubs(Lex(Obj(ms)) + ([l] + y), stubs);
            match l
            case LBrace | LBracket => r == (Some(ExpectedClose(l)), copied)
            case RBrace | RBracket | Comma | Colon => r == (Some(BadRequest(Syntax)), copied)
            case Literal(_) => r == CopyWithStubs(Lex(Obj(ms)) + y, stubs)
            case Text(_) => true
  {
    var copied := [Copied(LBrace)] + MemberPieces(ObjectStart, ms) + [Copied(RBrace)];
    CopiesToTheBrace(ms, [l] + y, stubs);
    CopiesToTheBrace(ms, y, stubs);
    hide CopyWithStubs, MemberPieces, Lex;
    AtTopLevel(l, y, stubs, ms == [], copied);
  }

  lemma {:induction false} AtTopLevel(l: Lexeme, y: Lexemes, stubs: Value, first: bool, out: Output)
    ensures var r := CopyLoop(Cursor([l] + y, TopValue, []), stubs, first, out);
            match l
            case LBrace | LBracket => r == (Some(ExpectedClose(l)), out)
            case RBrace | RBracket | Comma | Colon => r == (Some(BadRequest(Syntax)), out)
            case Literal(_) => r == CopyLoop(Cursor(y, TopValue, []), stubs, first, out)
            case Text(_) => true
  {
    assert ([l] + y)[1..] == y;
  }

  /** An object without `_attachments` is copied, and the loop goes on behind it. */
  lemma {:induction false} CopiesToTheBrace(ms: seq<Member>, y: Lexemes, stubs: Value)
    requires NoKey(ms, ATTACHMENTS_KEY)
    ensures CopyWithStubs(Lex(Obj(ms)) + y, stubs) ==
            CopyLoop(Cursor(y, TopValue, []), stubs, ms == [],
                     [Copied(LBrace)] + MemberPieces(ObjectStart, ms) + [Copied(RBrace)])
  {
    hide CopyLoop, CopyWithStubs, MembersBody, MemberPieces;
    assert Lex(Obj(ms)) == [LBrace] + LexMembers(ms);
    hide Lex;
    LexMembersIsBody(ms);
    var z := [RBrace] + y;
    assert Lex(Obj(ms)) + y == [LBrace] + (MembersBody(ObjectStart, ms) + z);
    OpensObject(MembersBody(ObjectStart, ms) + z, stubs);
    CopiesMembers(ObjectStart, ms, z, [TopValue], stubs, [Copied(LBrace)]);
    PassesBrace(StateAfter(ms), y, stubs, ms == [], [Copied(LBrace)] + MemberPieces(ObjectStart, ms));
  }

  lemma {:induction false} PassesBrace(s: TokenState, y: Lexemes, stubs: Value, first: bool, out: Output)
    requires InObject(s)
    ensures CopyLoop(Cursor([RBrace] + y, s, [TopValue]), stubs, first, out)
            == CopyLoop(Cursor(y, TopValue, []), stubs, first, out + [Copied(RBrace)])
  {
    assert ([RBrace] + y)[1..] == y && [TopValue][..0] == [];
  }

  /** Nothing is written for a value that is not an object. */
  lemma {:induction false} NeedsAnObject(v: Value, tail: Lexemes, stubs: Value)
    requires !v.Obj?
    ensures CopyWithStubs(Lex(v) + tail, stubs) == (Some(ExpectedBrace(Lex(v)[0])), [])
  {
    LexStarts(v);
  }

  // ---------------------------------------------------------------------------
  // Input that was cut short
  // ---------------------------------------------------------------------------

  /** Where a cut at `n` lexemes falls in the members. */
  datatype Cut = BetweenMembers | BehindKey | InsideValue | BehindAttachments

  function Where(s: TokenState, ms: seq<Member>, n: int): Cut
    decreases |ms|
  {
    var k := n - |Sep(s)|;
    if ms == [] || k <= 0 then BetweenMembers
    else if k < |LexMember(ms[0])| then (if k <= 2 then BehindKey else InsideValue)
    else if ms[0].key == ATTACHMENTS_KEY then BehindAttachments
    else Where(ObjectComma, ms[1..], k - |LexMember(ms[0])|)
  }

  /** replaceAttachments hands the error to CloseWithError, for which nil and io.EOF are the
      same: whoever reads the copy sees it end normally. */
  predicate EndsNormally(err: Option<CopyError>) {
    err == None || err == Some(Plain(EOF))
  }

  /** The copy of an object that was cut short ends normally unless the cut is inside a value
      in front of the `_attachments` member or in its own value. */
  lemma {:induction false} CutIsNoticedIffInsideValue(ms: seq<Member>, cut: nat, stubs: Value)
    requires cut < |Lex(Obj(ms))|
    ensures EndsNormally(CopyWithStubs(Lex(Obj(ms))[..cut], stubs).0) <==>
            cut == 0 || Where(ObjectStart, ms, cut - 1) != InsideValue
  {
    hide CopyLoop, Where;
    if cut == 0 {
      EmptyInputPrintsNil(stubs);
      assert Lex(Obj(ms))[..cut] == [];
    } else {
      assert Lex(Obj(ms)) == [LBrace] + LexMembers(ms);
      hide Lex, CopyWithStubs;
      LexMembersIsBody(ms);
      var body := MembersBody(ObjectStart, ms);
      assert ([LBrace] + (body + [RBrace]))[..cut] == [LBrace] + body[..cut - 1];
      OpensObject(body[..cut - 1], stubs);
      CutMembers(ObjectStart, ms, cut - 1, [TopValue], stubs, [Copied(LBrace)]);
    }
  }

  lemma {:induction false} CutMembers(s: TokenState, ms: seq<Member>, n: nat, stk: seq<TokenState>, stubs: Value,
      out: Output)
    requires InObject(s) && n <= |MembersBody(s, ms)|
    ensures CopyLoop(Cursor(MembersBody(s, ms)[..n], s, stk), stubs, s == ObjectStart, out).0
            == match Where(s, ms, n)
               case BetweenMembers | BehindAttachments => None
               case BehindKey => Some(Plain(EOF))
               case InsideValue => Some(Plain(Syntax))
    decreases |ms|
  {
    hide CopyLoop, KeyPieces, Copy, Lex, LexMember;
    if ms == [] {
      CutHere(Cursor([], s, stk), stubs, s == ObjectStart, out);
    } else {
      var first, more := Sep(s) + LexMember(ms[0]), MembersBody(ObjectComma, ms[1..]);
      var k := |first|;
      assert MembersBody(s, ms) == first + more;
      if n < k {
        assert MembersBody(s, ms)[..n] == first[..n];
        CutInMember(s, ms[0], n, stk, stubs, out);
      } else {
        var n' := n - k;
        assert MembersBody(s, ms)[..n] == Sep(s) + (LexMember(ms[0]) + more[..n']);
        MemberLength(s, ms[0]);
        CopiesOneMember(s, ms[0], more[..n'], stk, stubs, out);
        if ms[0].key != ATTACHMENTS_KEY {
          CutMembers(
            ObjectComma, ms[1..], n', stk, stubs, out + KeyPieces(s == ObjectStart, ms[0].key) + Copy(Lex(ms[0].value)));
        }
      }
    }
  }

  lemma MemberLength(s: TokenState, m: Member)
    ensures |LexMember(m)| >= 3 && |Sep(s)| <= 1
  {
    LexStarts(m.value);
  }

  lemma {:induction false} CutHere(c: Cursor, stubs: Value, first: bool, out: Output)
    requires Token(c).0 == Err(EOF)
    ensures CopyLoop(c, stubs, first, out) == (None, out)
  {
  }

  lemma {:induction false} CutInMember(s: TokenState, m: Member, n: nat, stk: seq<TokenState>, stubs: Value,
      out: Output)
    requires InObject(s) && n < |Sep(s) + LexMember(m)|
    ensures var k := n - |Sep(s)|;
            CopyLoop(Cursor((Sep(s) + LexMember(m))[..n], s, stk), stubs, s == ObjectStart, out).0
            == if k <= 0 then None else Some(Plain(if k <= 2 then EOF else Syntax))
  {
    hide Token, Decode, LexMember, KeyPieces, Copy;
    MemberTruncated(s, m, n, stk);
  }

  /** An empty input is not an error either: the copy is `<nil>`. */
  lemma {:induction false} EmptyInputPrintsNil(stubs: Value)
    ensures CopyWithStubs([], stubs) == (None, [NilToken])
  {
    CutHere(NewCursor([]), stubs, true, [NilToken]);
  }
}
