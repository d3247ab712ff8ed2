/** EncodeDocID of couchdb/chttp/encode.go. */
module DocIDs {
  import Hex
  import opened Wrappers

  const PREFIX_DESIGN := "_design/"
  const PREFIX_LOCAL := "_local/"

  /** A Go string: each char stands for one byte. */
  predicate IsBytes(s: string) {
    forall i :: 0 <= i < |s| ==> s[i] < 256 as char
  }

  /** RFC 3986 section 2.3 */
  predicate Unreserved(c: char) {
    'a' <= c <= 'z' || 'A' <= c <= 'Z' || '0' <= c <= '9' || c == '-' || c == '_' || c == '.' || c == '~'
  }

  /** url.QueryEscape */
  function QueryEscape(s: string): string
    requires IsBytes(s)
  {
    if s == "" then ""
    else if s[0] == ' ' then "+" + QueryEscape(s[1..])
    else if Unreserved(s[0]) then [s[0]] + QueryEscape(s[1..])
    else ['%', Hex.Digit(s[0] as int / 16), Hex.Digit(s[0] as int % 16)] + QueryEscape(s[1..])
  }

  /** strings.ReplaceAll(s, "+", "%20") */
  function ReplacePlus(s: string): string {
    if s == "" then "" else (if s[0] == '+' then "%20" else [s[0]]) + ReplacePlus(s[1..])
  }

  /** encodeDocID */
  function EncodeSegment(s: string): string
    requires IsBytes(s)
  {
    ReplacePlus(QueryEscape(s))
  }

  /** The prefix that is left as it is. */
  function PrefixOf(docID: string): string {
    if PREFIX_DESIGN <= docID then PREFIX_DESIGN else if PREFIX_LOCAL <= docID then PREFIX_LOCAL else ""
  }

  function EncodeDocID(docID: string): string
    requires IsBytes(docID)
  {
    PrefixOf(docID) + EncodeSegment(docID[|PrefixOf(docID)|..])
  }

  // ---------------------------------------------------------------------------
  // Decoding
  // ---------------------------------------------------------------------------

  /** Percent-decoding (RFC 3986 section 2.1): a plus sign stands for itself. */
  function Decode(s: string): Option<string> {
    if s == "" then Some("")
    else if s[0] == '%' then
      if |s| < 3 then None
      else match (Hex.ValueOf(s[1]), Hex.ValueOf(s[2]), Decode(s[3..]))
        case (Some(hi), Some(lo), Some(rest)) => Some([(16 * hi + lo) as char] + rest)
        case _ => None
    else match Decode(s[1..])
      case Some(rest) => Some([s[0]] + rest)
      case None => None
  }

  /** What one byte becomes. */
  function EncodeByte(c: char): string
    requires c < 256 as char
  {
    if Unreserved(c) then [c] else ['%', Hex.Digit(c as int / 16), Hex.Digit(c as int % 16)]
  }

  lemma {:induction false} ReplacePlusConcat(a: string, b: string)
    ensures ReplacePlus(a + b) == ReplacePlus(a) + ReplacePlus(b)
  {
    if a == "" {
      assert a + b == b;
    } else {
      assert (a + b)[1..] == a[1..] + b;
      ReplacePlusConcat(a[1..], b);
    }
  }

  lemma {:induction false} NoPlusToReplace(s: string)
    requires '+' !in s
    ensures ReplacePlus(s) == s
  {
    if s != "" {
      NoPlusToReplace(s[1..]);
    }
  }

  /** A space becomes %20 like any other byte that is not unreserved, and a plus sign %2B, so
      that replacing plus signs meets only those that stand for spaces. */
  lemma {:induction false} EncodesByteByByte(s: string)
    requires IsBytes(s) && s != ""
    ensures EncodeSegment(s) == EncodeByte(s[0]) + EncodeSegment(s[1..])
  {
    var c := s[0];
    if c == ' ' {
      ReplacePlusConcat("+", QueryEscape(s[1..]));
      assert "+"[1..] == "" && EncodeByte(c) == "%20";
    } else {
      ReplacePlusConcat(EncodeByte(c), QueryEscape(s[1..]));
      assert QueryEscape(s) == EncodeByte(c) + QueryEscape(s[1..]);
      NoPlusToReplace(EncodeByte(c));
    }
  }

  lemma {:induction false} DecodesByte(c: char, rest: string)
    requires c < 256 as char && Decode(rest).Some?
    ensures Decode(EncodeByte(c) + rest) == Some([c] + Decode(rest).value)
  {
    var e := EncodeByte(c);
    var hi, lo := c as int / 16, c as int % 16;
    assert Hex.ValueOf(Hex.Digit(hi)) == Some(hi) && Hex.ValueOf(Hex.Digit(lo)) == Some(lo);
    assert (e + rest)[|e|..] == rest;
    assert 16 * hi + lo == c as int;
  }

  lemma {:induction false} SegmentRoundTrip(s: string)
    requires IsBytes(s)
    ensures Decode(EncodeSegment(s)) == Some(s)
  {
    if s != "" {
      EncodesByteByByte(s);
      SegmentRoundTrip(s[1..]);
      DecodesByte(s[0], EncodeSegment(s[1..]));
      assert s == [s[0]] + s[1..];
    }
  }

  lemma {:induction false} DecodeKeeps(p: string, rest: string)
    requires '%' !in p && Decode(rest).Some?
    ensures Decode(p + rest) == Some(p + Decode(rest).value)
  {
    if p == "" {
      assert p + rest == rest && p + Decode(rest).value == Decode(rest).value;
    } else {
      assert (p + rest)[1..] == p[1..] + rest;
      DecodeKeeps(p[1..], rest);
      assert p[0] in p;
      assert [p[0]] + (p[1..] + Decode(rest).value) == p + Decode(rest).value;
    }
  }

  /** Percent-decoding what EncodeDocID wrote gives the document ID back, for every ID. */
  lemma {:induction false} RoundTrip(docID: string)
    requires IsBytes(docID)
    ensures Decode(EncodeDocID(docID)) == Some(docID)
  {
    var p := PrefixOf(docID);
    SegmentRoundTrip(docID[|p|..]);
    DecodeKeeps(p, EncodeSegment(docID[|p|..]));
    assert docID == p + docID[|p|..];
  }

  /** So different IDs never share a path. */
  lemma {:induction false} Injective(a: string, b: string)
    requires IsBytes(a) && IsBytes(b) && EncodeDocID(a) == EncodeDocID(b)
    ensures a == b
  {
    RoundTrip(a);
    RoundTrip(b);
  }

  /** Nothing but unreserved characters and percent signs comes out of a segment. */
  lemma {:induction false} SegmentIsSafe(s: string, i: nat)
    requires IsBytes(s) && i < |EncodeSegment(s)|
    ensures Unreserved(EncodeSegment(s)[i]) || EncodeSegment(s)[i] == '%'
  {
    if s != "" {
      EncodesByteByByte(s);
      var n := |EncodeByte(s[0])|;
      if i >= n {
        SegmentIsSafe(s[1..], i - n);
      }
    }
  }

  /** A slash in the path is the one of the `_design/` or `_local/` prefix. */
  lemma {:induction false} SlashOnlyFromPrefix(docID: string, i: nat)
    requires IsBytes(docID) && i < |EncodeDocID(docID)|
    ensures EncodeDocID(docID)[i] == '/' <==> ("_design/" <= docID && i == 7) || ("_local/" <= docID && i == 6)
  {
    var p := PrefixOf(docID);
    if i >= |p| {
      SegmentIsSafe(docID[|p|..], i - |p|);
    }
  }

  /** The two prefixes are kept, and what follows them is encoded on its own; of any other ID all is. */
  lemma {:induction false} KeepsPrefixes(s: string)
    requires IsBytes(s)
    ensures IsBytes("_design/" + s) && EncodeDocID("_design/" + s) == "_design/" + EncodeSegment(s)
    ensures IsBytes("_local/" + s) && EncodeDocID("_local/" + s) == "_local/" + EncodeSegment(s)
    ensures !("_design/" <= s) && !("_local/" <= s) ==> EncodeDocID(s) == EncodeSegment(s)
  {
    assert ("_design/" + s)[|"_design/"|..] == s && ("_local/" + s)[|"_local/"|..] == s;
    assert s[0..] == s;
    assert ("_design/" + s)[1] != ("_local/")[1] && ("_local/" + s)[1] != ("_design/")[1];
  }

  /** Letters, digits and four marks are kept; any other byte becomes a percent sign and its value
      in upper-case hexadecimal. */
  lemma {:induction false} BytesKeptAndEscaped(c: char)
    requires c < 256 as char
    ensures EncodeByte(c) ==
            if 'A' <= c <= 'Z' || 'a' <= c <= 'z' || '0' <= c <= '9' || c in "-_.~" then [c]
            else ['%', "0123456789ABCDEF"[c as int / 16], "0123456789ABCDEF"[c as int % 16]]
  {
    HexMeans(c as int / 16);
    HexMeans(c as int % 16);
    assert c in "-_.~" <==> c == '-' || c == '_' || c == '.' || c == '~' by {
      assert "-_.~"[0] == '-' && "-_.~"[1] == '_' && "-_.~"[2] == '.' && "-_.~"[3] == '~';
    }
  }

  lemma {:induction false} HexMeans(n: nat)
    requires n < 16
    ensures Hex.Digit(n) == "0123456789ABCDEF"[n]
  {
  }
}
