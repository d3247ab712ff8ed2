/** The streaming decoder of Go's encoding/json: Token, Decode and More.

    A cursor is what a json.Decoder knows: the lexemes still to come, the state of its
    token machine, and the states of the containers around the current one. */
module Decoder {
  import opened Json
  import opened Wrappers

  datatype TokenState =
    | TopValue
    | ArrayStart | ArrayValue | ArrayComma
    | ObjectStart | ObjectKey | ObjectColon | ObjectValue | ObjectComma

  datatype Cursor = Cursor(rest: Lexemes, state: TokenState, stack: seq<TokenState>)

  datatype Error =
    | EOF                        // io.EOF itself
    | Syntax                     // a syntax error, or io.ErrUnexpectedEOF
    | Mismatch                   // a value of the wrong type for its target
    | UnexpectedToken
    | UnexpectedDelim(d: Lexeme)
    | BadGateway(cause: Error)   // an internal.Error with status 502

  datatype Result<+T> = Ok(value: T) | Err(error: Error)

  /** json.NewDecoder */
  function NewCursor(body: Lexemes): Cursor {
    Cursor(body, TopValue, [])
  }

  predicate ValueAllowed(s: TokenState) {
    s in {TopValue, ArrayStart, ArrayValue, ObjectValue}
  }

  /** The state after a value has ended. */
  function ValueEnd(s: TokenState): TokenState {
    match s
    case ArrayStart | ArrayValue => ArrayComma
    case ObjectValue => ObjectComma
    case _ => s
  }

  function Push(c: Cursor, inner: TokenState): Cursor
    requires c.rest != []
  {
    Cursor(c.rest[1..], inner, c.stack + [c.state])
  }

  /** Leaves a container.  A decoder that is inside one has a non-empty stack. */
  function Pop(c: Cursor): Cursor
    requires c.rest != []
  {
    if c.stack == [] then Cursor(c.rest[1..], TopValue, [])
    else
      var n := |c.stack| - 1;
      Cursor(c.rest[1..], ValueEnd(c.stack[n]), c.stack[..n])
  }

  function Skip(c: Cursor, s: TokenState): Cursor
    requires c.rest != []
  {
    Cursor(c.rest[1..], s, c.stack)
  }

  /** Decoder.More: is there another element in the current array or object? */
  predicate More(c: Cursor) {
    c.rest != [] && c.rest[0] != RBracket && c.rest[0] != RBrace
  }

  /** Decoder.Token: the next token.  Commas and colons are checked and skipped. */
  function Token(c: Cursor): (r: (Result<Lexeme>, Cursor))
    ensures r.0.Ok? ==> |r.1.rest| < |c.rest|
    ensures |r.1.rest| <= |c.rest|
    decreases |c.rest|
  {
    if c.rest == [] then (Err(EOF), c)
    else match c.rest[0]
      case LBracket =>
        if ValueAllowed(c.state) then (Ok(LBracket), Push(c, ArrayStart)) else (Err(Syntax), c)
      case LBrace =>
        if ValueAllowed(c.state) then (Ok(LBrace), Push(c, ObjectStart)) else (Err(Syntax), c)
      case RBracket =>
        if c.state in {ArrayStart, ArrayComma} then (Ok(RBracket), Pop(c)) else (Err(Syntax), c)
      case RBrace =>
        if c.state in {ObjectStart, ObjectComma} then (Ok(RBrace), Pop(c)) else (Err(Syntax), c)
      case Colon =>
        if c.state == ObjectColon then Token(Skip(c, ObjectValue)) else (Err(Syntax), c)
      case Comma =>
        if c.state == ArrayComma then Token(Skip(c, ArrayValue))
        else if c.state == ObjectComma then Token(Skip(c, ObjectKey))
        else (Err(Syntax), c)
      case Text(s) =>
        if c.state in {ObjectStart, ObjectKey} then (Ok(Text(s)), Skip(c, ObjectColon))
        else if ValueAllowed(c.state) then (Ok(Text(s)), Skip(c, ValueEnd(c.state)))
        else (Err(Syntax), c)
      case Literal(a) =>
        if ValueAllowed(c.state) then (Ok(Literal(a)), Skip(c, ValueEnd(c.state)))
        else (Err(Syntax), c)
  }

  /** The separator that Decode consumes before a value. */
  function PrepareForDecode(c: Cursor): (r: (Option<Error>, Cursor))
    ensures |r.1.rest| <= |c.rest|
  {
    if c.state == ArrayComma then
      if c.rest == [] then (Some(EOF), c)
      else if c.rest[0] != Comma then (Some(Syntax), c)
      else (None, Skip(c, ArrayValue))
    else if c.state == ObjectColon then
      if c.rest == [] then (Some(EOF), c)
      else if c.rest[0] != Colon then (Some(Syntax), c)
      else (None, Skip(c, ObjectValue))
    else (None, c)
  }

  /** Decoder.Decode: the next value, whole. */
  function Decode(c: Cursor): (r: (Result<Value>, Cursor))
    ensures r.0.Ok? ==> |r.1.rest| < |c.rest|
    ensures |r.1.rest| <= |c.rest|
  {
    var (e, c1) := PrepareForDecode(c);
    if e.Some? then (Err(e.value), c1)
    else if !ValueAllowed(c1.state) then (Err(Syntax), c1)
    else if c1.rest == [] then (Err(EOF), c1)
    else match Parse(c1.rest)
      case Invalid => (Err(Syntax), c1)
      case Parsed(v, rest) => (Ok(v), Cursor(rest, ValueEnd(c1.state), c1.stack))
  }

  /** consumeDelim */
  function ConsumeDelim(c: Cursor, d: Lexeme): (r: (Option<Error>, Cursor))
    ensures r.0.None? ==> |r.1.rest| < |c.rest|
    ensures |r.1.rest| <= |c.rest|
    ensures r.0 != Some(EOF)
  {
    var (t, c1) := Token(c);
    match t
    case Err(e) => (Some(BadGateway(e)), c1)
    case Ok(l) =>
      if l.Text? || l.Literal? then (Some(BadGateway(UnexpectedToken)), c1)
      else if l != d then (Some(UnexpectedDelim(l)), c1)
      else (None, c1)
  }

  /** nextKey */
  function NextKey(c: Cursor): (r: (Result<string>, Cursor))
    ensures r.0.Ok? ==> |r.1.rest| < |c.rest|
    ensures |r.1.rest| <= |c.rest|
  {
    var (t, c1) := Token(c);
    match t
    case Err(e) => (Err(e), c1)
    case Ok(l) => if l.Text? then (Ok(l.s), c1) else (Err(UnexpectedToken), c1)
  }

  /** A json.Decoder.  Several readers may share one. */
  class JsonDecoder {
    var cur: Cursor

    constructor (body: Lexemes)
      ensures cur == NewCursor(body)
    {
      cur := NewCursor(body);
    }

    method NextToken() returns (t: Result<Lexeme>)
      modifies this
      ensures (t, cur) == Token(old(cur))
    {
      var r := Token(cur);
      t, cur := r.0, r.1;
    }

    method DecodeValue() returns (v: Result<Value>)
      modifies this
      ensures (v, cur) == Decode(old(cur))
    {
      var r := Decode(cur);
      v, cur := r.0, r.1;
    }

    method Consume(d: Lexeme) returns (e: Option<Error>)
      modifies this
      ensures (e, cur) == ConsumeDelim(old(cur), d)
    {
      var t := NextToken();
      match t
      case Err(err) => e := Some(BadGateway(err));
      case Ok(l) =>
        if l.Text? || l.Literal? {
          e := Some(BadGateway(UnexpectedToken));
        } else if l != d {
          e := Some(UnexpectedDelim(l));
        } else {
          e := None;
        }
    }

    method ReadKey() returns (k: Result<string>)
      modifies this
      ensures (k, cur) == NextKey(old(cur))
    {
      var t := NextToken();
      match t
      case Err(err) => k := Err(err);
      case Ok(l) => k := if l.Text? then Ok(l.s) else Err(UnexpectedToken);
    }
  }

  // ---------------------------------------------------------------------------
  // Decode consumes exactly one value
  // ---------------------------------------------------------------------------

  /** The separator expected before a value in state `s`. */
  function Separator(s: TokenState): Lexemes {
    match s
    case ArrayComma => [Comma]
    case ObjectColon => [Colon]
    case _ => []
  }

  /** The state in which a value that follows the separator is read. */
  function AfterSeparator(s: TokenState): TokenState {
    match s
    case ArrayComma => ArrayValue
    case ObjectColon => ObjectValue
    case _ => s
  }

  lemma PrepareSkipsSeparator(c: Cursor, body: Lexemes)
    requires c.rest == Separator(c.state) + body
    ensures PrepareForDecode(c) == (None, Cursor(body, AfterSeparator(c.state), c.stack))
  {
    if c.state in {ArrayComma, ObjectColon} {
      assert c.rest[1..] == body;
    } else {
      assert c.rest == body;
    }
  }

  lemma PrepareSkipsOnlySeparator(c: Cursor)
    requires PrepareForDecode(c).0.None?
    ensures c.rest == Separator(c.state) + PrepareForDecode(c).1.rest
    ensures PrepareForDecode(c).1.state == AfterSeparator(c.state)
    ensures PrepareForDecode(c).1.stack == c.stack
  {
    if c.state in {ArrayComma, ObjectColon} {
      assert c.rest == [c.rest[0]] + c.rest[1..];
    }
  }

  /** With a separator (if one is due) and a whole value ahead, Decode reads that value. */
  lemma DecodeReads(c: Cursor, v: Value, tail: Lexemes)
    requires ValueAllowed(AfterSeparator(c.state))
    requires c.rest == Separator(c.state) + (Lex(v) + tail)
    ensures Decode(c) == (Ok(v), Cursor(tail, ValueEnd(AfterSeparator(c.state)), c.stack))
  {
    PrepareSkipsSeparator(c, Lex(v) + tail);
    ParseLex(v, tail);
    LexStarts(v);
  }

  /** Decode consumes exactly one balanced value: it yields `v` if and only if the lexemes
      consumed are the separator due in the current state and the lexemes of `v`. */
  lemma DecodeConsumesOneValue(c: Cursor, v: Value)
    requires ValueAllowed(AfterSeparator(c.state))
    ensures Decode(c).0 == Ok(v) <==>
            exists tail :: c.rest == Separator(c.state) + (Lex(v) + tail)
    ensures Decode(c).0 == Ok(v) ==>
            c.rest == Separator(c.state) + (Lex(v) + Decode(c).1.rest)
  {
    if tail :| c.rest == Separator(c.state) + (Lex(v) + tail) {
      DecodeReads(c, v, tail);
    }
    if Decode(c).0 == Ok(v) {
      PrepareSkipsOnlySeparator(c);
      ParseSound(PrepareForDecode(c).1.rest);
    }
  }
}
