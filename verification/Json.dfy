/** JSON values, their lexemes, and a recursive-descent reader over lexemes.

    A body is modelled as the sequence of its lexemes (RFC 8259 section 2: the six
    structural characters, strings, numbers and the literal names).  White space is
    not represented, and a truncated body is a prefix of the lexeme sequence. */
module Json {

  /** Int is a number written without fraction or exponent, Frac any other number. */
  datatype Scalar = Null | Bool(b: bool) | Int(n: int) | Frac(r: real)

  datatype Value =
    | Atom(a: Scalar)
    | Str(s: string)
    | Arr(items: seq<Value>)
    | Obj(members: seq<Member>)

  datatype Member = Member(key: string, value: Value)

  datatype Lexeme =
    | LBrace | RBrace | LBracket | RBracket | Comma | Colon
    | Text(s: string)
    | Literal(a: Scalar)

  type Lexemes = seq<Lexeme>

  /** The lexemes of a value (RFC 8259 sections 3 to 5). */
  function Lex(v: Value): Lexemes
    decreases v, 0
  {
    match v
    case Atom(a) => [Literal(a)]
    case Str(s) => [Text(s)]
    case Arr(items) => [LBracket] + LexItems(items)
    case Obj(members) => [LBrace] + LexMembers(members)
  }

  /** Everything after `[`: the items, separated by commas, and `]`. */
  function LexItems(items: seq<Value>): Lexemes
    decreases items, 1
  {
    if items == [] then [RBracket] else Lex(items[0]) + LexItemsTail(items[1..])
  }

  /** Everything after an item: each further item behind its comma, and `]`. */
  function LexItemsTail(items: seq<Value>): Lexemes
    decreases items, 0
  {
    if items == [] then [RBracket] else [Comma] + Lex(items[0]) + LexItemsTail(items[1..])
  }

  function LexMember(m: Member): Lexemes
    decreases m, 1
  {
    [Text(m.key), Colon] + Lex(m.value)
  }

  /** Everything after `{`: the members, separated by commas, and `}`. */
  function LexMembers(ms: seq<Member>): Lexemes
    decreases ms, 1
  {
    if ms == [] then [RBrace] else LexMember(ms[0]) + LexMembersTail(ms[1..])
  }

  /** Everything after a member: each further member behind its comma, and `}`. */
  function LexMembersTail(ms: seq<Member>): Lexemes
    decreases ms, 0
  {
    if ms == [] then [RBrace] else [Comma] + LexMember(ms[0]) + LexMembersTail(ms[1..])
  }

  /** The outcome of reading one T from the front of a lexeme sequence. */
  datatype Parsed<T> = Parsed(value: T, rest: Lexemes) | Invalid {
    predicate IsFailure() { Invalid? }
    function PropagateFailure<U>(): Parsed<U> requires Invalid? { Invalid }
    function Extract(): (T, Lexemes) requires Parsed? { (value, rest) }
  }

  /** Reads one value from the front of `ls`. */
  function Parse(ls: Lexemes): (r: Parsed<Value>)
    ensures r.Parsed? ==> |r.rest| < |ls|
    decreases |ls|, 0
  {
    if ls == [] then Invalid
    else match ls[0]
      case Literal(a) => Parsed(Atom(a), ls[1..])
      case Text(s) => Parsed(Str(s), ls[1..])
      case LBracket =>
        if |ls| > 1 && ls[1] == RBracket then Parsed(Arr([]), ls[2..])
        else
          var (v, rest) :- Parse(ls[1..]);
          var (vs, rest') :- ParseItemsTail(rest);
          Parsed(Arr([v] + vs), rest')
      case LBrace =>
        if |ls| > 1 && ls[1] == RBrace then Parsed(Obj([]), ls[2..])
        else
          var (m, rest) :- ParseMember(ls[1..]);
          var (ms, rest') :- ParseMembersTail(rest);
          Parsed(Obj([m] + ms), rest')
      case _ => Invalid
  }

  function ParseItemsTail(ls: Lexemes): (r: Parsed<seq<Value>>)
    ensures r.Parsed? ==> |r.rest| < |ls|
    decreases |ls|, 1
  {
    if ls == [] then Invalid
    else if ls[0] == RBracket then Parsed([], ls[1..])
    else if ls[0] == Comma then
      var (v, rest) :- Parse(ls[1..]);
      var (vs, rest') :- ParseItemsTail(rest);
      Parsed([v] + vs, rest')
    else Invalid
  }

  function ParseMember(ls: Lexemes): (r: Parsed<Member>)
    ensures r.Parsed? ==> |r.rest| < |ls|
    decreases |ls|, 1
  {
    if |ls| >= 2 && ls[0].Text? && ls[1] == Colon then
      var (v, rest) :- Parse(ls[2..]);
      Parsed(Member(ls[0].s, v), rest)
    else Invalid
  }

  function ParseMembersTail(ls: Lexemes): (r: Parsed<seq<Member>>)
    ensures r.Parsed? ==> |r.rest| < |ls|
    decreases |ls|, 2
  {
    if ls == [] then Invalid
    else if ls[0] == RBrace then Parsed([], ls[1..])
    else if ls[0] == Comma then
      var (m, rest) :- ParseMember(ls[1..]);
      var (ms, rest') :- ParseMembersTail(rest);
      Parsed([m] + ms, rest')
    else Invalid
  }

  // ---------------------------------------------------------------------------
  // Reading back what was written
  // ---------------------------------------------------------------------------

  /** Reading from the front of `Lex(v) + rest` gives `v` and leaves `rest`. */
  lemma {:induction false} ParseLex(v: Value, rest: Lexemes)
    ensures Parse(Lex(v) + rest) == Parsed(v, rest)
    decreases v, 0
  {
    var ls := Lex(v) + rest;
    match v
    case Atom(a) => assert ls[1..] == rest;
    case Str(s) => assert ls[1..] == rest;
    case Arr(items) =>
      assert ls[1..] == LexItems(items) + rest;
      if items == [] {
        assert ls[2..] == rest;
      } else {
        LexStarts(items[0]);
        var tail := LexItemsTail(items[1..]) + rest;
        assert ls[1..] == Lex(items[0]) + tail;
        ParseLex(items[0], tail);
        ParseLexItems(items[1..], rest);
        assert items == [items[0]] + items[1..];
      }
    case Obj(members) =>
      assert ls[1..] == LexMembers(members) + rest;
      if members == [] {
        assert ls[2..] == rest;
      } else {
        var tail := LexMembersTail(members[1..]) + rest;
        assert ls[1..] == LexMember(members[0]) + tail;
        ParseLexMember(members[0], tail);
        ParseLexMembers(members[1..], rest);
        assert members == [members[0]] + members[1..];
      }
  }

  lemma {:induction false} ParseLexItems(items: seq<Value>, rest: Lexemes)
    ensures ParseItemsTail(LexItemsTail(items) + rest) == Parsed(items, rest)
    decreases items, 0
  {
    var ls := LexItemsTail(items) + rest;
    if items == [] {
      assert ls[1..] == rest;
    } else {
      var tail := LexItemsTail(items[1..]) + rest;
      assert ls[1..] == Lex(items[0]) + tail;
      ParseLex(items[0], tail);
      ParseLexItems(items[1..], rest);
      assert items == [items[0]] + items[1..];
    }
  }

  lemma {:induction false} ParseLexMember(m: Member, rest: Lexemes)
    ensures ParseMember(LexMember(m) + rest) == Parsed(m, rest)
    decreases m, 1
  {
    var ls := LexMember(m) + rest;
    assert ls[2..] == Lex(m.value) + rest;
    ParseLex(m.value, rest);
  }

  lemma {:induction false} ParseLexMembers(ms: seq<Member>, rest: Lexemes)
    ensures ParseMembersTail(LexMembersTail(ms) + rest) == Parsed(ms, rest)
    decreases ms, 0
  {
    var ls := LexMembersTail(ms) + rest;
    if ms == [] {
      assert ls[1..] == rest;
    } else {
      var tail := LexMembersTail(ms[1..]) + rest;
      assert ls[1..] == LexMember(ms[0]) + tail;
      ParseLexMember(ms[0], tail);
      ParseLexMembers(ms[1..], rest);
      assert ms == [ms[0]] + ms[1..];
    }
  }

  /** No value starts with a closing delimiter or a separator. */
  lemma LexStarts(v: Value)
    ensures |Lex(v)| > 0
    ensures Lex(v)[0] !in {RBrace, RBracket, Comma, Colon}
  {
  }

  // ---------------------------------------------------------------------------
  // Nothing but a written value is read
  // ---------------------------------------------------------------------------

  /** What was read is exactly the lexemes of one balanced value. */
  lemma {:induction false} ParseSound(ls: Lexemes)
    requires Parse(ls).Parsed?
    ensures ls == Lex(Parse(ls).value) + Parse(ls).rest
    decreases |ls|, 0
  {
    match ls[0]
    case LBracket =>
      if |ls| > 1 && ls[1] == RBracket {
      } else {
        var p := Parse(ls[1..]);
        var q := ParseItemsTail(p.rest);
        ParseSound(ls[1..]);
        ParseSoundItems(p.rest);
        assert ([p.value] + q.value)[1..] == q.value;
        assert ls == [LBracket] + ls[1..];
      }
    case LBrace =>
      if |ls| > 1 && ls[1] == RBrace {
      } else {
        var p := ParseMember(ls[1..]);
        var q := ParseMembersTail(p.rest);
        ParseSoundMember(ls[1..]);
        ParseSoundMembers(p.rest);
        assert ([p.value] + q.value)[1..] == q.value;
        assert ls == [LBrace] + ls[1..];
      }
    case _ =>
  }

  lemma {:induction false} ParseSoundItems(ls: Lexemes)
    requires ParseItemsTail(ls).Parsed?
    ensures ls == LexItemsTail(ParseItemsTail(ls).value) + ParseItemsTail(ls).rest
    decreases |ls|, 1
  {
    if ls[0] == Comma {
      var p := Parse(ls[1..]);
      var q := ParseItemsTail(p.rest);
      ParseSound(ls[1..]);
      ParseSoundItems(p.rest);
      assert ([p.value] + q.value)[1..] == q.value;
      assert ls == [Comma] + ls[1..];
    }
  }

  lemma {:induction false} ParseSoundMember(ls: Lexemes)
    requires ParseMember(ls).Parsed?
    ensures ls == LexMember(ParseMember(ls).value) + ParseMember(ls).rest
    decreases |ls|, 1
  {
    ParseSound(ls[2..]);
    assert ls == [ls[0], ls[1]] + ls[2..];
  }

  lemma {:induction false} ParseSoundMembers(ls: Lexemes)
    requires ParseMembersTail(ls).Parsed?
    ensures ls == LexMembersTail(ParseMembersTail(ls).value) + ParseMembersTail(ls).rest
    decreases |ls|, 2
  {
    if ls[0] == Comma {
      var p := ParseMember(ls[1..]);
      var q := ParseMembersTail(p.rest);
      ParseSoundMember(ls[1..]);
      ParseSoundMembers(p.rest);
      assert ([p.value] + q.value)[1..] == q.value;
      assert ls == [Comma] + ls[1..];
    }
  }

  /** A value cut short is not a value: no proper prefix of a value's lexemes can be read. */
  lemma TruncatedValueIsInvalid(v: Value, cut: nat)
    requires cut < |Lex(v)|
    ensures Parse(Lex(v)[..cut]) == Invalid
  {
    var p := Lex(v)[..cut];
    if Parse(p).Parsed? {
      ParseSound(p);
      var w, rest := Parse(p).value, Parse(p).rest;
      assert Lex(v) + [] == Lex(w) + (rest + Lex(v)[cut..]);
      ParseLex(v, []);
      ParseLex(w, rest + Lex(v)[cut..]);
      assert false;
    }
  }
}
