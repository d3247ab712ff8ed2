/** Readers of continuous feeds, whose bodies are values one after the other, and rows that are cut
    short. */
module StreamLaws {
  import opened Json
  import opened Decoder
  import opened IterSpec
  import opened IterLaws
  import opened Wrappers

  /** The values one after the other. */
  function Stream(vs: seq<Value>): Lexemes
    decreases |vs|
  {
    if vs == [] then [] else Lex(vs[0]) + Stream(vs[1..])
  }

  predicate Streaming(cfg: Config) {
    cfg.expectedKey == "" && !cfg.objMode
  }

  /** The reader between two values, with `y` to come. */
  function Between(y: Lexemes, m: Metadata): IterState {
    IterState(Cursor(y, TopValue, []), true, false, m)
  }

  lemma {:induction false} BeginsAtOnce(cfg: Config, input: Lexemes)
    requires Streaming(cfg)
    ensures Drain(cfg, Fresh(cfg, input)) == Drain(cfg, Between(input, cfg.meta))
  {
    DrainBegins(cfg, Fresh(cfg, input), NewCursor(input), cfg.meta);
  }

  lemma {:induction false} NextValue(cfg: Config, v: Value, y: Lexemes, m: Metadata)
    requires Streaming(cfg) && cfg.accepts(v)
    ensures Next(cfg, Between(Lex(v) + y, m)) == (Ok(Item(v)), Between(y, m))
  {
    hide Finish;
    var c := Cursor(Lex(v) + y, TopValue, []);
    assert [] + (Lex(v) + y) == Lex(v) + y;
    DecodeReads(c, v, y);
    LexStarts(v);
  }

  lemma {:induction false} DrainStream(cfg: Config, vs: seq<Value>, y: Lexemes, m: Metadata)
    requires Streaming(cfg) && AllAccepted(cfg, vs)
    ensures Drain(cfg, Between(Stream(vs) + y, m)) ==
            var d := Drain(cfg, Between(y, m)); d.(rows := Items(vs) + d.rows)
    decreases |vs|
  {
    hide Next, Lex, Drain;
    var d := Drain(cfg, Between(y, m));
    if vs == [] {
      assert Stream(vs) + y == y && Items(vs) + d.rows == d.rows;
    } else {
      var z := Stream(vs[1..]) + y;
      assert Stream(vs) + y == Lex(vs[0]) + z;
      hide Stream, Items;
      NextValue(cfg, vs[0], z, m);
      DrainStep(cfg, Between(Lex(vs[0]) + z, m));
      DrainStream(cfg, vs[1..], y, m);
      PrependItem(vs, d.rows);
    }
  }

  /** For every stream of values the rows are exactly those, in order; then io.EOF or the error of
      closing the body, which is closed. */
  lemma {:induction false} StreamIsReadExactly(cfg: Config, vs: seq<Value>)
    requires Streaming(cfg) && AllAccepted(cfg, vs)
    ensures var d := Drain(cfg, Fresh(cfg, Stream(vs)));
            && d.rows == Items(vs)
            && d.end == (match cfg.closeError case Some(e) => e case None => EOF)
            && d.final == IterState(Cursor([], TopValue, []), true, true, cfg.meta)
  {
    BeginsAtOnce(cfg, Stream(vs));
    DrainStream(cfg, vs, [], cfg.meta);
    assert Stream(vs) + [] == Stream(vs) && Items(vs) + [] == Items(vs);
  }

  /** A stream that is cut inside a value is not taken for a complete one: the whole values are
      delivered, and then a syntax error. */
  lemma {:induction false} CutStreamIsNoticed(cfg: Config, vs: seq<Value>, v: Value, cut: nat)
    requires Streaming(cfg) && AllAccepted(cfg, vs) && 0 < cut < |Lex(v)|
    ensures var d := Drain(cfg, Fresh(cfg, Stream(vs) + Lex(v)[..cut]));
            d.rows == Items(vs) && d.end == if cfg.wraps then BadGateway(Syntax) else Syntax
  {
    var p := Lex(v)[..cut];
    BeginsAtOnce(cfg, Stream(vs) + p);
    DrainStream(cfg, vs, p, cfg.meta);
    LexStarts(v);
    TruncatedValueIsInvalid(v, cut);
    hide Parse, Lex, Stream;
    assert p[0] == Lex(v)[0];
    var (r, st) := Next(cfg, Between(p, cfg.meta));
    assert r == Err(if cfg.wraps then BadGateway(Syntax) else Syntax);
    assert Items(vs) + [] == Items(vs);
  }

  /** Nor is one in which a closing brace or bracket stands between the values. */
  lemma {:induction false} StrayDelimIsNoticed(cfg: Config, vs: seq<Value>, d: Lexeme, y: Lexemes)
    requires Streaming(cfg) && AllAccepted(cfg, vs) && (d == RBrace || d == RBracket)
    ensures var r := Drain(cfg, Fresh(cfg, Stream(vs) + ([d] + y)));
            r.rows == Items(vs) && r.end == BadGateway(Syntax) && r.final.closed
  {
    BeginsAtOnce(cfg, Stream(vs) + ([d] + y));
    DrainStream(cfg, vs, [d] + y, cfg.meta);
    assert Items(vs) + [] == Items(vs);
  }

  /** In object mode, too, a value that is cut short is a syntax error, reported as it is. */
  lemma {:induction false} CutEntryIsNoticed(cfg: Config, s: TokenState, key: string, v: Value, cut: nat,
      stk: seq<TokenState>, m: Metadata)
    requires cfg.objMode && InObject(s) && 0 < cut < |Lex(v)|
    ensures Next(cfg, IterState(Cursor(Sep(s) + ([Text(key)] + ([Colon] + Lex(v)[..cut])), s, stk), true, false, m)).0
            == Err(Syntax)
  {
    var p := Lex(v)[..cut];
    ReadsKey(s, key, [Colon] + p, stk);
    TruncatedValueIsInvalid(v, cut);
    assert ([Colon] + p)[1..] == p;
    hide Parse, Lex, Finish, Token;
  }
}
