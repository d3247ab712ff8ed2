/** A decoder that reads its input in chunks, as it needs it: json.Decoder over a tee. */
module StreamDecoder {
  import opened Json
  import opened Decoder
  import opened Wrappers

  // ---------------------------------------------------------------------------
  // Streams
  // ---------------------------------------------------------------------------

  /** A byte of a body, with the lexemes that are complete when it has been read: none inside a
      string or a number, and for the comma behind a number the number as well. */
  datatype Byte = Byte(code: char, completes: Lexemes)

  type Bytes = seq<Byte>

  /** The lexemes that are complete when these bytes have been read. */
  function Whole(bs: Bytes): Lexemes {
    if bs == [] then [] else bs[0].completes + Whole(bs[1..])
  }

  lemma {:induction false} WholeConcat(a: Bytes, b: Bytes)
    ensures Whole(a + b) == Whole(a) + Whole(b)
  {
    if a == [] {
      assert a + b == b;
    } else {
      assert (a + b)[1..] == a[1..] + b;
      WholeConcat(a[1..], b);
    }
  }

  /** A response body: each read delivers some of what is still to come, at least something
      while there is something, and it may end anywhere. */
  class Source {
    var pending: Bytes

    constructor (body: Bytes)
      ensures pending == body
    {
      pending := body;
    }

    method Read(max: nat) returns (chunk: Bytes)
      modifies this
      ensures chunk + pending == old(pending) && |chunk| <= max
      ensures max > 0 && old(pending) != [] ==> chunk != []
    {
      var n: nat :| n <= max && n <= |pending| && (max > 0 && pending != [] ==> n > 0);
      chunk := pending[..n];
      pending := pending[n..];
    }
  }

  /** io.TeeReader */
  class TeeReader {
    const src: Source
    var buf: Bytes

    constructor (src: Source)
      ensures this.src == src && buf == []
    {
      this.src, buf := src, [];
    }

    method Read(max: nat) returns (chunk: Bytes)
      modifies this, src
      ensures chunk + src.pending == old(src.pending) && buf == old(buf) + chunk
      ensures max > 0 && old(src.pending) != [] ==> chunk != []
    {
      chunk := src.Read(max);
      buf := buf + chunk;
    }
  }

  // ---------------------------------------------------------------------------
  // Reading a value from part of the input
  // ---------------------------------------------------------------------------

  /** Short: what there is could be the beginning of a value.  Wrong: it could not. */
  datatype Scanned<T> = Complete(value: T, rest: Lexemes) | Wrong | Short {
    predicate IsFailure() { !Complete? }
    function PropagateFailure<U>(): Scanned<U> requires !Complete? { if Wrong? then Wrong else Short }
    function Extract(): (T, Lexemes) requires Complete? { (value, rest) }
  }

  /** Reads one value from the front of `ls`, and says of a failure whether more input can mend
      it. */
  function Scan(ls: Lexemes): (r: Scanned<Value>)
    ensures r.Complete? ==> |r.rest| < |ls|
    decreases |ls|, 0
  {
    if ls == [] then Short
    else match ls[0]
      case Literal(a) => Complete(Atom(a), ls[1..])
      case Text(s) => Complete(Str(s), ls[1..])
      case LBracket =>
        if |ls| > 1 && ls[1] == RBracket then Complete(Arr([]), ls[2..])
        else
          var (v, rest) :- Scan(ls[1..]);
          var (vs, rest') :- ScanItemsTail(rest);
          Complete(Arr([v] + vs), rest')
      case LBrace =>
        if |ls| > 1 && ls[1] == RBrace then Complete(Obj([]), ls[2..])
        else
          var (m, rest) :- ScanMember(ls[1..]);
          var (ms, rest') :- ScanMembersTail(rest);
          Complete(Obj([m] + ms), rest')
      case _ => Wrong
  }

  function ScanItemsTail(ls: Lexemes): (r: Scanned<seq<Value>>)
    ensures r.Complete? ==> |r.rest| < |ls|
    decreases |ls|, 1
  {
    if ls == [] then Short
    else if ls[0] == RBracket then Complete([], ls[1..])
    else if ls[0] == Comma then
      var (v, rest) :- Scan(ls[1..]);
      var (vs, rest') :- ScanItemsTail(rest);
      Complete([v] + vs, rest')
    else Wrong
  }

  function ScanMember(ls: Lexemes): (r: Scanned<Member>)
    ensures r.Complete? ==> |r.rest| < |ls|
    decreases |ls|, 1
  {
    if ls == [] then Short
    else if !ls[0].Text? then Wrong
    else if |ls| == 1 then Short
    else if ls[1] != Colon then Wrong
    else
      var (v, rest) :- Scan(ls[2..]);
      Complete(Member(ls[0].s, v), rest)
  }

  function ScanMembersTail(ls: Lexemes): (r: Scanned<seq<Member>>)
    ensures r.Complete? ==> |r.rest| < |ls|
    decreases |ls|, 2
  {
    if ls == [] then Short
    else if ls[0] == RBrace then Complete([], ls[1..])
    else if ls[0] == Comma then
      var (m, rest) :- ScanMember(ls[1..]);
      var (ms, rest') :- ScanMembersTail(rest);
      Complete([m] + ms, rest')
    else Wrong
  }

  /** What a scan of some of the input says of all of it. */
  predicate Foretells<T(==)>(s: Scanned<T>, more: Lexemes, some: Parsed<T>, all: Parsed<T>) {
    match s
    case Complete(v, rest) => all == Parsed(v, rest + more)
    case Wrong => all == Invalid
    case Short => some == Invalid
  }

  lemma {:induction false} ScanForetells(ls: Lexemes, more: Lexemes)
    ensures Foretells(Scan(ls), more, Parse(ls), Parse(ls + more))
    decreases |ls|, 0
  {
    if ls != [] {
      var all := ls + more;
      assert all[1..] == ls[1..] + more;
      match ls[0]
      case LBracket =>
        if |ls| > 1 && ls[1] == RBracket {
          assert all[2..] == ls[2..] + more;
        } else {
          ScanForetells(ls[1..], more);
          if Scan(ls[1..]).Complete? {
            var rest := Scan(ls[1..]).rest;
            ScanIsParse(ls[1..]);
            ScanItemsForetell(rest, more);
          }
        }
      case LBrace =>
        if |ls| > 1 && ls[1] == RBrace {
          assert all[2..] == ls[2..] + more;
        } else {
          ScanMemberForetells(ls[1..], more);
          if ScanMember(ls[1..]).Complete? {
            var rest := ScanMember(ls[1..]).rest;
            ScanMemberIsParse(ls[1..]);
            ScanMembersForetell(rest, more);
          }
        }
      case _ =>
    }
  }

  lemma {:induction false} ScanItemsForetell(ls: Lexemes, more: Lexemes)
    ensures Foretells(ScanItemsTail(ls), more, ParseItemsTail(ls), ParseItemsTail(ls + more))
    decreases |ls|, 1
  {
    if ls != [] {
      assert (ls + more)[1..] == ls[1..] + more;
      if ls[0] == Comma {
        ScanForetells(ls[1..], more);
        if Scan(ls[1..]).Complete? {
          ScanIsParse(ls[1..]);
          ScanItemsForetell(Scan(ls[1..]).rest, more);
        }
      }
    }
  }

  lemma {:induction false} ScanMemberForetells(ls: Lexemes, more: Lexemes)
    ensures Foretells(ScanMember(ls), more, ParseMember(ls), ParseMember(ls + more))
    decreases |ls|, 1
  {
    if |ls| >= 2 {
      assert (ls + more)[2..] == ls[2..] + more;
      ScanForetells(ls[2..], more);
    }
  }

  lemma {:induction false} ScanMembersForetell(ls: Lexemes, more: Lexemes)
    ensures Foretells(ScanMembersTail(ls), more, ParseMembersTail(ls), ParseMembersTail(ls + more))
    decreases |ls|, 2
  {
    if ls != [] {
      assert (ls + more)[1..] == ls[1..] + more;
      if ls[0] == Comma {
        ScanMemberForetells(ls[1..], more);
        if ScanMember(ls[1..]).Complete? {
          ScanMemberIsParse(ls[1..]);
          ScanMembersForetell(ScanMember(ls[1..]).rest, more);
        }
      }
    }
  }

  lemma {:induction false} ScanIsParse(ls: Lexemes)
    requires Scan(ls).Complete?
    ensures Parse(ls) == Parsed(Scan(ls).value, Scan(ls).rest)
    decreases |ls|, 3
  {
    ScanForetells(ls, []);
    assert ls + [] == ls && Scan(ls).rest + [] == Scan(ls).rest;
  }

  lemma {:induction false} ScanMemberIsParse(ls: Lexemes)
    requires ScanMember(ls).Complete?
    ensures ParseMember(ls) == Parsed(ScanMember(ls).value, ScanMember(ls).rest)
    decreases |ls|, 3
  {
    ScanMemberForetells(ls, []);
    assert ls + [] == ls && ScanMember(ls).rest + [] == ScanMember(ls).rest;
  }

  lemma {:induction false} ScanLeavesASuffix(ls: Lexemes)
    requires Scan(ls).Complete?
    ensures ls[|ls| - |Scan(ls).rest|..] == Scan(ls).rest
  {
    ScanIsParse(ls);
    ParseSound(ls);
  }

  // ---------------------------------------------------------------------------
  // The decoder
  // ---------------------------------------------------------------------------

  /** A json.Decoder on a tee.  It knows what it has read, `tee.buf`, and how many of the lexemes in
      that it has consumed, and reads another chunk only when it needs more. */
  class StreamDecoder {
    const tee: TeeReader
    const max: nat
    var pos: nat
    var state: TokenState
    var stack: seq<TokenState>

    constructor (tee: TeeReader, max: nat)
      requires max > 0 && tee.buf == []
      ensures this.tee == tee && Valid() && Ahead() == NewCursor(Whole(tee.src.pending))
    {
      this.tee, this.max := tee, max;
      pos, state, stack := 0, TopValue, [];
    }

    predicate Valid()
      reads this, tee
    {
      max > 0 && pos <= |Seen()|
    }

    /** The lexemes that are complete in what has been read. */
    function Seen(): Lexemes
      reads this, tee
    {
      Whole(tee.buf)
    }

    /** The whole body: what has been read and what has not. */
    function Body(): Bytes
      reads tee, tee.src
    {
      tee.buf + tee.src.pending
    }

    /** Where a decoder of the whole body would stand. */
    function Ahead(): Cursor
      requires Valid()
      reads this, tee, tee.src
    {
      Cursor(Seen()[pos..] + Whole(tee.src.pending), state, stack)
    }

    /** Reads another chunk, which may complete no lexeme, or several. */
    method Refill() returns (ok: bool)
      requires Valid()
      modifies tee, tee.src
      ensures Valid() && Ahead() == old(Ahead()) && Body() == old(Body())
      ensures old(Seen()) <= Seen()
      ensures ok ==> |tee.src.pending| < |old(tee.src.pending)|
      ensures !ok ==> tee.src.pending == [] && tee.buf == old(tee.buf)
    {
      var chunk := tee.Read(max);
      ok := chunk != [];
      WholeConcat(old(tee.buf), chunk);
      WholeConcat(chunk, tee.src.pending);
      assert Seen()[pos..] == old(Seen())[pos..] + Whole(chunk);
      if !ok {
        assert old(tee.buf) + chunk == old(tee.buf);
      }
    }

    /** The next lexeme, read from the body if it has not been yet. */
    method Peek() returns (l: Option<Lexeme>)
      requires Valid()
      modifies tee, tee.src
      ensures Valid() && Ahead() == old(Ahead()) && Body() == old(Body())
      ensures l.None? <==> Ahead().rest == []
      ensures l.Some? ==> pos < |Seen()| && l.value == Seen()[pos] == Ahead().rest[0]
    {
      while pos == |Seen()|
        invariant Valid() && Ahead() == old(Ahead()) && Body() == old(Body())
        decreases |tee.src.pending|
      {
        var ok := Refill();
        if !ok {
          return None;
        }
      }
      l := Some(Seen()[pos]);
    }

    /** Consumes a lexeme that has been read. */
    method Advance(s: TokenState, stk: seq<TokenState>)
      requires Valid() && pos < |Seen()|
      modifies this
      ensures Valid() && Ahead() == Cursor(old(Ahead().rest)[1..], s, stk)
    {
      assert (Seen()[pos..] + Whole(tee.src.pending))[1..] == Seen()[pos + 1..] + Whole(tee.src.pending);
      pos, state, stack := pos + 1, s, stk;
    }

    method HasMore() returns (more: bool)
      requires Valid()
      modifies tee, tee.src
      ensures Valid() && Ahead() == old(Ahead()) && Body() == old(Body())
      ensures more == More(Ahead())
    {
      var l := Peek();
      more := l.Some? && l.value != RBracket && l.value != RBrace;
    }

    method NextToken() returns (t: Result<Lexeme>)
      requires Valid()
      modifies this, tee, tee.src
      ensures Valid() && Body() == old(Body())
      ensures (t, Ahead()) == Token(old(Ahead()))
    {
      while true
        invariant Valid() && Body() == old(Body()) && Token(Ahead()) == Token(old(Ahead()))
        decreases |Ahead().rest|
      {
        var l := Peek();
        if l.None? {
          return Err(EOF);
        }
        var next := l.value;
        var n := |stack|;
        match next {
          case Colon =>
            if state != ObjectColon {
              return Err(Syntax);
            }
            Advance(ObjectValue, stack);
          case Comma =>
            if state != ArrayComma && state != ObjectComma {
              return Err(Syntax);
            }
            Advance(if state == ArrayComma then ArrayValue else ObjectKey, stack);
          case LBracket | LBrace =>
            if !ValueAllowed(state) {
              return Err(Syntax);
            }
            Advance(if next == LBracket then ArrayStart else ObjectStart, stack + [state]);
            return Ok(next);
          case RBracket | RBrace =>
            if state !in (if next == RBracket then {ArrayStart, ArrayComma} else {ObjectStart, ObjectComma}) {
              return Err(Syntax);
            }
            Advance(if n == 0 then TopValue else ValueEnd(stack[n - 1]), if n == 0 then [] else stack[..n - 1]);
            return Ok(next);
          case Text(s) =>
            if state == ObjectStart || state == ObjectKey {
              Advance(ObjectColon, stack);
              return Ok(next);
            }
            if !ValueAllowed(state) {
              return Err(Syntax);
            }
            Advance(ValueEnd(state), stack);
            return Ok(next);
          case Literal(_) =>
            if !ValueAllowed(state) {
              return Err(Syntax);
            }
            Advance(ValueEnd(state), stack);
            return Ok(next);
        }
      }
    }

    /** The separator before a value. */
    method SkipSeparator() returns (e: Option<Error>)
      requires Valid()
      modifies this, tee, tee.src
      ensures Valid() && Body() == old(Body())
      ensures (e, Ahead()) == PrepareForDecode(old(Ahead()))
    {
      if state != ArrayComma && state != ObjectColon {
        return None;
      }
      var l := Peek();
      if l.None? {
        return Some(EOF);
      }
      if l.value != (if state == ArrayComma then Comma else Colon) {
        return Some(Syntax);
      }
      Advance(if state == ArrayComma then ArrayValue else ObjectValue, stack);
      e := None;
    }

    method DecodeValue() returns (v: Result<Value>)
      requires Valid()
      modifies this, tee, tee.src
      ensures Valid() && Body() == old(Body())
      ensures (v, Ahead()) == Decode(old(Ahead()))
    {
      var e := SkipSeparator();
      if e.Some? {
        return Err(e.value);
      }
      if !ValueAllowed(state) {
        return Err(Syntax);
      }
      v := ReadValue();
    }

    /** A value, read to its end and no further than the chunk that brings it; or until what has
        been read cannot be the beginning of one. */
    method ReadValue() returns (v: Result<Value>)
      requires Valid() && ValueAllowed(state)
      modifies this, tee, tee.src
      ensures Valid() && Body() == old(Body())
      ensures var c := old(Ahead());
              if c.rest == [] then v == Err(EOF) && Ahead() == c
              else match Parse(c.rest)
                case Invalid => v == Err(Syntax) && Ahead() == c
                case Parsed(x, rest) => v == Ok(x) && Ahead() == Cursor(rest, ValueEnd(c.state), c.stack)
    {
      hide Scan, Parse, Whole;
      while true
        invariant Valid() && Body() == old(Body()) && Ahead() == old(Ahead())
        invariant pos == old(pos) && state == old(state) && stack == old(stack)
        decreases |tee.src.pending|
      {
        var some := Seen()[pos..];
        ScanForetells(some, Whole(tee.src.pending));
        match Scan(some)
        case Complete(x, rest) =>
          ScanLeavesASuffix(some);
          Consumed(rest);
          return Ok(x);
        case Wrong =>
          assert Ahead().rest != [] by {
            NothingIsShort();
          }
          return Err(Syntax);
        case Short =>
          var ok := Refill();
          if !ok {
            NothingIsNoLexeme();
            assert some + [] == some;
            return Err(if some == [] then EOF else Syntax);
          }
      }
    }

    /** What is consumed when `rest` is left of what has been read. */
    method Consumed(rest: Lexemes)
      requires Valid() && |rest| <= |Seen()| - pos && Seen()[|Seen()| - |rest|..] == rest
      modifies this
      ensures Valid() && Ahead() == Cursor(rest + Whole(tee.src.pending), ValueEnd(old(state)), old(stack))
    {
      pos, state := |Seen()| - |rest|, ValueEnd(state);
    }
  }

  lemma NothingIsNoLexeme()
    ensures Whole([]) == []
  {
  }

  lemma NothingIsShort()
    ensures Scan([]) == Short
  {
  }
}
