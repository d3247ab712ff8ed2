/** The streaming row reader of couchdb/iter.go. */
module CouchIter {
  import opened Json
  import opened Decoder
  import opened IterSpec
  import opened Wrappers
  import Spec = IterSpec

  class Iter {
    const cfg: Config
    const body: Lexemes
    var meta: Metadata
    var dec: JsonDecoder?
    var closed: bool

    /** newIter */
    constructor (cfg: Config, body: Lexemes)
      ensures this.cfg == cfg && this.body == body && dec == null
      ensures State() == Fresh(cfg, body)
    {
      this.cfg, this.body := cfg, body;
      meta, dec, closed := cfg.meta, null, false;
    }

    ghost function State(): IterState
      reads this, dec
    {
      IterState(if dec == null then NewCursor(body) else dec.cur, dec != null, closed, meta)
    }

    method Next() returns (r: Result<Row>)
      modifies this, dec
      ensures (r, State()) == Spec.Next(cfg, old(State()))
      ensures old(dec) != null ==> dec == old(dec)
      ensures old(dec) == null ==> dec == null || fresh(dec)
    {
      if closed {
        return Err(EOF);
      }
      if dec == null {
        dec := new JsonDecoder(body);
        var e := Begin();
        if e.Some? {
          return Err(BadGateway(e.value));
        }
      }
      r := NextRow();
      if r == Err(EOF) {
        var e := Finish();
        if e.Some? {
          r := Err(e.value);
        }
      }
    }

    method Begin() returns (e: Option<Error>)
      requires dec != null
      modifies this`meta, dec
      ensures (e, dec.cur, meta) == Spec.Begin(cfg, old(dec.cur), old(meta))
    {
      if cfg.expectedKey == "" && !cfg.objMode {
        return None;
      }
      e := dec.Consume(LBrace);
      if e.Some? || cfg.objMode {
        return;
      }
      ghost var start, meta0 := dec.cur, meta;
      while true
        invariant BeginLoop(cfg, start, meta0) == BeginLoop(cfg, dec.cur, meta)
        decreases |dec.cur.rest|
      {
        var k := dec.ReadKey();
        if k.Err? {
          return Some(k.error);
        }
        if k.value == cfg.expectedKey {
          e := dec.Consume(LBracket);
          return;
        }
        e := ReadMeta(k.value);
        if e.Some? {
          return;
        }
      }
    }

    /** parseMeta */
    method ReadMeta(key: string) returns (e: Option<Error>)
      requires dec != null
      modifies this`meta, dec
      ensures (e, dec.cur, meta) == ParseMeta(old(dec.cur), old(meta), key)
    {
      if meta.NilMeta? {
        return None;
      }
      var v := dec.DecodeValue();
      if v.Err? {
        return Some(v.error);
      }
      match SetMeta(meta, key, v.value)
      case Err(err) => e := Some(err);
      case Ok(m) => meta := m; e := None;
    }

    method NextRow() returns (r: Result<Row>)
      requires dec != null
      modifies dec
      ensures (r, dec.cur) == Spec.NextRow(cfg, old(dec.cur))
    {
      if !More(dec.cur) {
        return Err(EOF);
      }
      if cfg.objMode {
        var k := dec.ReadKey();
        if k.Err? {
          return Err(k.error);
        }
        var v := dec.DecodeValue();
        r := if v.Err? then Err(v.error) else Ok(Entry(k.value, v.value));
      } else {
        var v := dec.DecodeValue();
        r := if v.Err? then Err(RowError(cfg, v.error))
             else if cfg.accepts(v.value) then Ok(Item(v.value)) else Err(RowError(cfg, Mismatch));
      }
    }

    /** finish: whatever comes of reading the end, the body is closed, and an error of that is
        reported if there is no other */
    method Finish() returns (e: Option<Error>)
      requires dec != null
      modifies this`meta, this`closed, dec
      ensures (e, dec.cur, meta) == Spec.Finish(cfg, old(dec.cur), old(meta))
      ensures closed
    {
      e := ReadEnd();
      var e2 := Close();
      if e.None? {
        e := e2;
      }
    }

    method Close() returns (e: Option<Error>)
      modifies this`closed
      ensures closed && e == cfg.closeError
    {
      closed := true;
      e := cfg.closeError;
    }

    /** The part of finish that reads. */
    method ReadEnd() returns (e: Option<Error>)
      requires dec != null
      modifies this`meta, dec
      ensures (e, dec.cur, meta) == Spec.ReadEnd(cfg, old(dec.cur), old(meta))
    {
      if cfg.expectedKey == "" && !cfg.objMode {
        var t := dec.NextToken();
        return if t.Err? && t.error != EOF then Some(BadGateway(t.error)) else None;
      }
      if cfg.objMode {
        e := dec.Consume(RBrace);
        return if e.Some? && e.value != EOF then Some(BadGateway(e.value)) else None;
      }
      e := dec.Consume(RBracket);
      if e.Some? {
        return;
      }
      ghost var start, meta0 := dec.cur, meta;
      while More(dec.cur)
        invariant FinishLoop(cfg, start, meta0) == FinishLoop(cfg, dec.cur, meta)
        decreases |dec.cur.rest|
      {
        var t := dec.NextToken();
        if t.Err? {
          return Some(t.error);
        }
        match t.value {
          case RBrace =>
          case Text(key) =>
            e := ReadMeta(key);
            if e.Some? {
              return;
            }
          case _ => return Some(UnexpectedToken);
        }
      }
      e := dec.Consume(RBrace);
    }
  }
}
