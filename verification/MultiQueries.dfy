/** multiQueriesRows of couchdb/rows.go: one decoder shared by a sequence of row readers. */
module MultiQueries {
  import opened Json
  import opened Decoder
  import opened CouchIter
  import opened MultiSpec
  import opened Wrappers
  import Spec = MultiSpec

  class MultiQueriesRows {
    const input: Lexemes
    const src: Source
    var rows: Iter?
    var dec: JsonDecoder?
    var queryIndex: nat
    var closed: nat
    var legacy: bool

    /** newMultiQueriesRows */
    constructor (src: Source, input: Lexemes)
      ensures this.src == src && this.input == input
      ensures Valid() && State() == Unstarted && rows == null && closed == 0
    {
      this.src, this.input := src, input;
      rows, dec, queryIndex, closed, legacy := null, null, 0, 0, false;
    }

    /** The current row reader has a decoder, which outside legacy mode is the shared one. */
    ghost predicate Valid()
      reads this, rows
    {
      && (rows != null ==> rows.dec != null && rows.cfg == RowsConfig(src))
      && (rows != null && closed == 0 ==> dec != null)
      && (dec == null && closed == 0 ==> queryIndex == 0 && !legacy)
      && (rows != null && closed == 0 && !legacy ==> rows.dec == dec)
      && (rows == null ==> !legacy)
      && (closed > 0 && rows != null ==> rows.closed)
      && (closed > 0 && (rows != null || closed == 1) ==> dec == null)
    }

    ghost function Footprint(): set<object?>
      reads this, rows
    {
      {this, rows} + (if rows == null then {} else {rows.dec})
    }

    ghost function State(): MultiState
      reads this, rows, if rows == null then {} else {rows.dec}
      requires Valid()
    {
      if closed == 1 then Closed(if rows == null then None else Some(rows.State()), legacy)
      else if closed > 1 then ClosedAgain(if rows == null then None else Some(rows.State()), legacy, dec != null)
      else if dec == null then Unstarted
      else if rows == null then Broken
      else Reading(rows.State(), legacy, queryIndex)
    }

    method Next() returns (r: Reply)
      requires Valid()
      modifies this, rows, if rows == null then {} else {rows.dec}
      ensures Valid() && fresh(Footprint() - old(Footprint()))
      ensures (r, State()) == Spec.Next(src, input, old(State()))
    {
      if closed == 1 {
        return Fail(EOF);
      }
      if rows != null && rows.closed {
        if !legacy && dec == null {
          // Closed twice: begin of the next row reader finds no decoder.
          return Panic;
        }
        var e := NextQuery();
        if e.Some? {
          return Fail(e.value);
        }
      }
      if dec == null {
        if closed > 1 {
          dec := new JsonDecoder([]);
          return Fail(BadGateway(src.afterClose));
        }
        var e := Begin();
        if e.Some? {
          return Fail(e.value);
        }
      }
      if rows == null {
        return Panic;
      }
      r := ReadRow();
    }

    /** The last part of Next: a row of the current row reader, or its end. */
    method ReadRow() returns (r: Reply)
      requires Valid() && State().Reading?
      modifies rows, rows.dec
      ensures Valid() && Footprint() == old(Footprint())
      ensures (r, State()) == Spec.Read(src, old(State()))
    {
      var x := rows.Next();
      match x
      case Ok(row) => r := Row(row);
      case Err(e) => r := if e == EOF && !legacy then EOQ else Fail(e);
    }

    method Begin() returns (e: Option<Error>)
      requires Valid() && closed == 0 && dec == null && rows == null && queryIndex == 0 && !legacy
      modifies this
      ensures Valid() && closed == 0 && fresh(Footprint() - {this, null})
      ensures (e, State()) == Spec.Begin(src, input)
    {
      hide IterSpec.Begin, ConsumeDelim, NextKey;
      dec := new JsonDecoder(input);
      e := dec.Consume(LBrace);
      if e.Some? {
        return;
      }
      var k := dec.ReadKey();
      if k.Err? {
        return Some(k.error);
      }
      if k.value != "results" {
        // An old server: go back and read the body as a single result set.
        legacy := true;
        var again := [LBrace, Text(k.value)] + dec.cur.rest;
        rows := new Iter(RowsConfig(src), again);
        rows.dec := new JsonDecoder(again);
        e := rows.Begin();
        return;
      }
      e := dec.Consume(LBracket);
      if e.Some? {
        return;
      }
      rows := new Iter(RowsConfig(src), input);
      rows.dec := dec;
      e := rows.Begin();
    }

    method NextQuery() returns (e: Option<Error>)
      requires Valid() && rows != null && rows.closed && (legacy || dec != null) && closed != 1
      modifies this, rows, rows.dec
      ensures Valid() && fresh(Footprint() - old(Footprint()))
      ensures (e, State()) ==
              if old(State()).Reading? then Spec.NextQuery(src, old(State())) else (Some(EOF), old(State()))
    {
      hide IterSpec.Begin;
      if legacy {
        e := Close();
        return if e.Some? then e else Some(EOF);
      }
      var next := new Iter(RowsConfig(src), input);
      next.dec := dec;
      e := next.Begin();
      if e.Some? {
        if AsUnexpectedDelim(e.value) == Some(RBracket) {
          e := Close();
          e := if e.Some? then e else Some(EOF);
        }
        return;
      }
      queryIndex := queryIndex + 1;
      rows := next;
    }

    /** Close: every call counts, and only the first one does something. */
    method Close() returns (e: Option<Error>)
      requires Valid()
      modifies this`closed, this`dec, rows
      ensures Valid() && closed == old(closed) + 1 && rows == old(rows)
      ensures rows != null ==> rows.dec == old(rows.dec)
      ensures e == if old(closed) == 0 then src.closeError else None
      ensures State() == Spec.Close(old(State()))
    {
      closed := closed + 1;
      if closed > 1 {
        return None;
      }
      dec := null;
      if rows != null {
        rows.closed := true;
      }
      e := src.closeError;
    }
  }
}
