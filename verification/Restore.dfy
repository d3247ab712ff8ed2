/** readRev and ExtractRev of couchdb/chttp/chttp.go, updatesFeedType of couchdb/client.go: a body
    is read ahead through a tee, and given back as the buffer followed by what is still unread. */
module Restore {
  import opened Json
  import opened Decoder
  import opened Peek
  import opened StreamDecoder

  /** io.MultiReader of a buffer and a body */
  class MultiReader {
    const src: Source
    var buf: Bytes

    constructor (buf: Bytes, src: Source)
      ensures this.src == src && this.buf == buf
    {
      this.src, this.buf := src, buf;
    }

    function Contents(): Bytes
      reads this, src
    {
      buf + src.pending
    }

    method Read(max: nat) returns (chunk: Bytes)
      modifies this, src
      ensures chunk + Contents() == old(Contents())
      ensures max > 0 && old(Contents()) != [] ==> chunk != []
    {
      if buf != [] {
        var n := if max < |buf| then max else |buf|;
        chunk := buf[..n];
        buf := buf[n..];
      } else {
        chunk := src.Read(max);
      }
    }

    /** Reading to the end, in chunks of any size. */
    method ReadAll(max: nat) returns (all: Bytes)
      requires max > 0
      modifies this, src
      ensures all == old(Contents()) && Contents() == []
    {
      all := [];
      while |buf| + |src.pending| > 0
        invariant all + Contents() == old(Contents())
        decreases |Contents()|
      {
        var chunk := Read(max);
        all := all + chunk;
      }
    }
  }

  /** readRev, on a decoder that reads the body as it needs it. */
  method ReadRev(dec: StreamDecoder) returns (r: RevResult)
    requires dec.Valid() && dec.Ahead() == NewCursor(dec.Ahead().rest)
    modifies dec, dec.tee, dec.tee.src
    ensures dec.Valid() && dec.Body() == old(dec.Body())
    ensures (r, dec.Ahead()) == FindRevIn(old(dec.Ahead().rest))
  {
    hide FindRev, Token, Decode;
    ghost var body := dec.Ahead().rest;
    var t := dec.NextToken();
    if t.Err? {
      return NoLuck(Read(t.error));
    }
    if t.value != LBrace {
      return NoLuck(NotAnObject(t.value));
    }
    var more := dec.HasMore();
    while more
      invariant dec.Valid() && dec.Body() == old(dec.Body()) && more == More(dec.Ahead())
      invariant FindRev(dec.Ahead()) == FindRevIn(body)
      decreases |dec.Ahead().rest|
    {
      FindRevRound(dec.Ahead());
      var t := dec.NextToken();
      if t.Err? {
        return NoLuck(Read(t.error));
      }
      if t.value == Text(REV_KEY) {
        t := dec.NextToken();
        if t.Err? {
          return NoLuck(Read(t.error));
        }
        return if t.value.Text? then Rev(t.value.s) else NoLuck(NotAString(t.value));
      }
      var v := dec.DecodeValue();
      if v.Err? {
        return NoLuck(Read(v.error));
      }
      more := dec.HasMore();
    }
    FindRevRound(dec.Ahead());
    r := NoLuck(NoRev);
  }

  /** ExtractRev: for every chunking of reads the answer, success or failure, is that for the
      whole body, and the body is given back as it was; and what has been read of it when a
      revision is found is enough for that answer. */
  method ExtractRev(rc: Source, max: nat) returns (again: MultiReader, r: RevResult)
    requires max > 0
    modifies rc
    ensures fresh(again) && again.src == rc && again.Contents() == old(rc.pending)
    ensures r == FindRevIn(Whole(old(rc.pending))).0
    ensures r.Rev? ==> FindRevIn(Whole(again.buf)).0 == r
  {
    hide FindRevIn, Whole;
    ghost var body := Whole(rc.pending);
    var tee := new TeeReader(rc);
    var dec := new StreamDecoder(tee, max);
    assert dec.Ahead().rest == body;
    r := ReadRev(dec);
    again := new MultiReader(tee.buf, rc);
    if r.Rev? {
      assert tee.buf + rc.pending == old(rc.pending);
      WholeConcat(tee.buf, rc.pending);
      FindRevInIsLocal(body, Whole(tee.buf), Whole(rc.pending));
    }
  }

  /** updatesFeedType: the same, for the first two tokens; on failure no reader is returned. */
  method UpdatesFeedType(rc: Source, max: nat) returns (again: MultiReader?, r: FeedResult)
    requires max > 0
    modifies rc
    ensures r == FindFeedType(Whole(old(rc.pending))).0 && (again != null <==> r.Feed?)
    ensures again != null ==> fresh(again) && again.src == rc && again.Contents() == old(rc.pending)
    ensures again != null ==> FindFeedType(Whole(again.buf)).0 == r
  {
    hide Token, Whole, OfFirstToken;
    ghost var body := Whole(rc.pending);
    again := null;
    var tee := new TeeReader(rc);
    var dec := new StreamDecoder(tee, max);
    assert dec.Ahead().rest == body;
    var t := dec.NextToken();
    if t.Err? {
      return null, NoFeed(FeedRead(t.error));
    }
    if t.value != LBrace {
      return null, NoFeed(NotABrace(t.value));
    }
    t := dec.NextToken();
    if t.Err? {
      return null, NoFeed(FeedRead(t.error));
    }
    r := OfFirstToken(t.value);
    if r.Feed? {
      again := new MultiReader(tee.buf, rc);
      assert tee.buf + rc.pending == old(rc.pending);
      WholeConcat(tee.buf, rc.pending);
      FindFeedTypeIsLocal(body, Whole(tee.buf), Whole(rc.pending));
    }
  }
}
