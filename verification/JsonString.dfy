/** JSON string syntax (RFC 8259 section 7), for text that is written without escaping. */
module JsonString {
  import Hex
  import opened Wrappers

  /** Characters that stand for themselves inside quotes. */
  predicate Plain(s: string) {
    forall i :: 0 <= i < |s| ==> s[i] != '"' && s[i] != '\\' && s[i] >= ' '
  }

  /** Four hexadecimal digits. */
  function Hex4(t: string): (r: Option<int>)
    ensures r.Some? ==> |t| >= 4 && 0 <= r.value < 0x1_0000
  {
    if |t| < 4 then None
    else match (Hex.ValueOf(t[0]), Hex.ValueOf(t[1]), Hex.ValueOf(t[2]), Hex.ValueOf(t[3]))
      case (Some(a), Some(b), Some(c), Some(d)) => Some(0x1000 * a + 0x100 * b + 0x10 * c + d)
      case _ => None
  }

  const REPLACEMENT: char := '\U{FFFD}'

  /** What follows `\u`: a code unit, or a pair of surrogates; a lone surrogate is replaced. */
  function Unicode(t: string): (r: Option<(char, string)>)
    ensures r.Some? ==> |r.value.1| < |t|
  {
    match Hex4(t)
    case None => None
    case Some(u) =>
      if u < 0xD800 || u >= 0xE000 then Some((u as char, t[4..]))
      else if u < 0xDC00 && |t| >= 6 && t[4] == '\\' && t[5] == 'u'
              && Hex4(t[6..]).Some? && 0xDC00 <= Hex4(t[6..]).value < 0xE000 then
        Some(((0x1_0000 + (u - 0xD800) * 0x400 + (Hex4(t[6..]).value - 0xDC00)) as char, t[10..]))
      else Some((REPLACEMENT, t[4..]))
  }

  /** What follows a backslash. */
  function Escape(t: string): (r: Option<(char, string)>)
    ensures r.Some? ==> |r.value.1| < |t|
  {
    if t == "" then None
    else match t[0]
      case '"' => Some(('"', t[1..]))
      case '\\' => Some(('\\', t[1..]))
      case '/' => Some(('/', t[1..]))
      case 'b' => Some((8 as char, t[1..]))
      case 'f' => Some((12 as char, t[1..]))
      case 'n' => Some(('\n', t[1..]))
      case 'r' => Some(('\r', t[1..]))
      case 't' => Some(('\t', t[1..]))
      case 'u' => Unicode(t[1..])
      case _ => None
  }

  /** Reads a string whose opening quote has been read: the string, and the text behind its
      closing quote. */
  function Read(t: string): (r: Option<(string, string)>)
    ensures r.Some? ==> |r.value.0| + 1 + |r.value.1| <= |t|
    decreases |t|
  {
    if t == "" || t[0] < ' ' then None
    else if t[0] == '"' then Some(("", t[1..]))
    else
      var step := if t[0] == '\\' then Escape(t[1..]) else Some((t[0], t[1..]));
      if step.None? then None
      else match Read(step.value.1)
        case None => None
        case Some((s, rest)) => Some(([step.value.0] + s, rest))
  }

  lemma {:induction false} PlainReads(s: string, rest: string)
    requires Plain(s)
    ensures Read(s + ("\"" + rest)) == Some((s, rest))
  {
    var t := s + ("\"" + rest);
    if s == "" {
      assert t[1..] == rest;
    } else {
      PlainReads(s[1..], rest);
      assert t[1..] == s[1..] + ("\"" + rest);
      assert [s[0]] + s[1..] == s;
    }
  }

  /** Every escape is longer than what it stands for. */
  lemma {:induction false} NothingSpared(t: string)
    requires Read(t).Some? && |Read(t).value.0| + 1 + |Read(t).value.1| == |t|
    ensures Plain(Read(t).value.0)
    decreases |t|
  {
    if t[0] != '"' && t[0] != '\\' {
      NothingSpared(t[1..]);
    }
  }

  /** No quote is among the characters of a `\u` escape. */
  lemma {:induction false} NoQuoteInUnicode(t: string, q: nat)
    requires Unicode(t).Some? && q < |t| - |Unicode(t).value.1|
    ensures t[q] != '"'
  {
    if q < 4 {
      NoQuoteInHex4(t, q);
    } else if q >= 6 {
      NoQuoteInHex4(t[6..], q - 6);
    }
  }

  lemma {:induction false} NoQuoteInHex4(t: string, q: nat)
    requires Hex4(t).Some? && q < 4
    ensures t[q] != '"'
  {
  }

  /** A quote that does not close the string is escaped, and so stands earlier in what is read. */
  lemma {:induction false} QuoteIsReadEarlier(t: string, q: nat) returns (j: nat)
    requires Read(t).Some? && q + 1 < |t| - |Read(t).value.1| && t[q] == '"'
    ensures j < q && j < |Read(t).value.0| && Read(t).value.0[j] == '"'
    decreases |t|
  {
    if t[0] != '\\' {
      j := QuoteIsReadEarlier(t[1..], q - 1);
      j := j + 1;
    } else {
      var (c, more) := Escape(t[1..]).value;
      var k := |t| - |more|;
      EscapeLeavesASuffix(t[1..]);
      if q < k {
        if t[1] == 'u' {
          NoQuoteInUnicode(t[2..], q - 2);
        }
        j := 0;
      } else {
        j := QuoteIsReadEarlier(more, q - k);
        j := j + 1;
      }
    }
  }

  lemma {:induction false} EscapeLeavesASuffix(t: string)
    requires Escape(t).Some?
    ensures |Escape(t).value.1| < |t| && Escape(t).value.1 == t[|t| - |Escape(t).value.1|..]
  {
  }

  /** What begins with `s` and a quote, and reads as `s`, has no quote inside `s`. */
  lemma {:induction false} NoQuoteBefore(s: string, rest: string, q: nat)
    requires var r := Read(s + ("\"" + rest));
             r.Some? && r.value.0 == s && |s| + 1 < |s| + 1 + |rest| - |r.value.1|
    requires q <= |s| && (s + ("\"" + rest))[q] == '"'
    ensures false
    decreases q
  {
    var j := QuoteIsReadEarlier(s + ("\"" + rest), q);
    NoQuoteBefore(s, rest, j);
  }

  /** A string printed between quotes without escaping is read back as itself, whatever is
      printed behind it, if all its characters are plain; and otherwise never, wherever the
      string that is read may end. */
  lemma {:induction false} UnescapedReadsBackIffPlain(s: string, rest: string)
    ensures Read(s + ("\"" + rest)) == Some((s, rest)) <==> Plain(s)
    ensures Read(s + ("\"" + rest)).Some? && Read(s + ("\"" + rest)).value.0 == s ==> Plain(s)
  {
    if Plain(s) {
      PlainReads(s, rest);
    }
    var r := Read(s + ("\"" + rest));
    if r.Some? && r.value.0 == s {
      if |r.value.1| < |rest| {
        NoQuoteBefore(s, rest, |s|);
      } else {
        NothingSpared(s + ("\"" + rest));
      }
    }
  }

  /** For example, a string with a quote is read as what stands before the quote. */
  lemma {:induction false} QuoteEndsTheString(a: string, b: string, rest: string)
    requires Plain(a)
    ensures Read((a + ("\"" + b)) + ("\"" + rest)) == Some((a, b + ("\"" + rest)))
  {
    PlainReads(a, b + ("\"" + rest));
    assert (a + ("\"" + b)) + ("\"" + rest) == a + ("\"" + (b + ("\"" + rest)));
  }

  // ---------------------------------------------------------------------------
  // Escaping would have helped
  // ---------------------------------------------------------------------------

  /** A code unit as four hexadecimal digits. */
  function Digits4(u: int): string
    requires 0 <= u < 0x1_0000
  {
    [Hex.Digit(u / 0x1000), Hex.Digit(u / 0x100 % 0x10), Hex.Digit(u / 0x10 % 0x10), Hex.Digit(u % 0x10)]
  }

  lemma {:induction false} DigitsAreRead(a: nat, b: nat, c: nat, d: nat, rest: string)
    requires a < 16 && b < 16 && c < 16 && d < 16
    ensures var t := [Hex.Digit(a), Hex.Digit(b), Hex.Digit(c), Hex.Digit(d)];
            Hex4(t + rest) == Some(0x1000 * a + 0x100 * b + 0x10 * c + d) && (t + rest)[4..] == rest
  {
    Hex.DigitIsRead(a);
    Hex.DigitIsRead(b);
    Hex.DigitIsRead(c);
    Hex.DigitIsRead(d);
    hide Hex.Digit, Hex.ValueOf;
  }

  lemma {:induction false} DigitsOf(u: int)
    requires 0 <= u < 0x1_0000
    ensures u == 0x1000 * (u / 0x1000) + 0x100 * (u / 0x100 % 0x10) + 0x10 * (u / 0x10 % 0x10) + u % 0x10
  {
    assert u / 0x100 == u / 0x10 / 0x10 && u / 0x1000 == u / 0x100 / 0x10;
  }

  lemma {:induction false} Digits4AreRead(u: int, rest: string)
    requires 0 <= u < 0x1_0000
    ensures Hex4(Digits4(u) + rest) == Some(u) && (Digits4(u) + rest)[4..] == rest
  {
    DigitsOf(u);
    hide Hex4;
    DigitsAreRead(u / 0x1000, u / 0x100 % 0x10, u / 0x10 % 0x10, u % 0x10, rest);
  }

  /** A character as a `\u` escape, without the backslash and the u in front: beyond the first
      0x10000 a pair of surrogates. */
  function UnicodeEscape(c: char): string {
    var n := c as int;
    if n < 0x1_0000 then Digits4(n)
    else Digits4(0xD800 + (n - 0x1_0000) / 0x400) + ("\\u" + Digits4(0xDC00 + (n - 0x1_0000) % 0x400))
  }

  lemma {:induction false} UnicodeEscapeIsRead(c: char, rest: string)
    ensures Unicode(UnicodeEscape(c) + rest) == Some((c, rest))
  {
    var n, t := c as int, UnicodeEscape(c) + rest;
    hide Digits4, Hex4;
    if n < 0x1_0000 {
      Digits4AreRead(n, rest);
    } else {
      var hi, lo := 0xD800 + (n - 0x1_0000) / 0x400, 0xDC00 + (n - 0x1_0000) % 0x400;
      assert t == Digits4(hi) + ("\\u" + (Digits4(lo) + rest));
      Digits4AreRead(hi, "\\u" + (Digits4(lo) + rest));
      Digits4AreRead(lo, rest);
      assert t[4..] == "\\u" + (Digits4(lo) + rest);
      assert t[4] == t[4..][0] && t[5] == t[4..][1] && t[6..] == t[4..][2..] == Digits4(lo) + rest;
      assert t[10..] == t[6..][4..];
    }
  }

  /** Half of a pair on its own is read as the replacement character, and what follows on its own. */
  lemma {:induction false} LoneSurrogateIsReplaced(u: int, rest: string)
    requires 0xD800 <= u < 0xE000 && !("\\u" <= rest)
    ensures Unicode(Digits4(u) + rest) == Some(('\U{FFFD}', rest))
  {
    Digits4AreRead(u, rest);
    var t := Digits4(u) + rest;
    hide Hex4, Digits4;
    assert |t| >= 6 ==> t[4] == t[4..][0] && t[5] == t[4..][1];
  }

  /** A character as it may stand between quotes: as itself, or escaped. */
  function EscapedChar(c: char): string {
    if c == '"' || c == '\\' then ['\\', c]
    else if c < ' ' then "\\u" + UnicodeEscape(c)
    else [c]
  }

  function Escaped(s: string): string {
    if s == "" then "" else EscapedChar(s[0]) + Escaped(s[1..])
  }

  lemma {:induction false} EscapedCharIsRead(c: char, more: string)
    ensures Read(EscapedChar(c) + more) ==
            match Read(more) case None => None case Some((s, rest)) => Some(([c] + s, rest))
  {
    hide UnicodeEscape, Unicode;
    var t := EscapedChar(c) + more;
    if c == '"' || c == '\\' {
      assert t[1..] == [c] + more && t[1..][1..] == more;
    } else if c < ' ' {
      UnicodeEscapeIsRead(c, more);
      assert t[1..] == "u" + (UnicodeEscape(c) + more) && t[1..][1..] == UnicodeEscape(c) + more;
    } else {
      assert t[1..] == more;
    }
  }

  lemma ClosingQuote(rest: string)
    ensures Read("\"" + rest) == Some(("", rest))
  {
    assert ("\"" + rest)[1..] == rest;
  }

  /** Escaped, every string reads back, whatever is printed behind it. */
  lemma {:induction false} EscapedReadsBack(s: string, rest: string)
    ensures Read(Escaped(s) + ("\"" + rest)) == Some((s, rest))
  {
    hide EscapedChar, Read, Escape;
    if s == "" {
      ClosingQuote(rest);
      assert Escaped(s) + ("\"" + rest) == "\"" + rest;
    } else {
      var more := Escaped(s[1..]) + ("\"" + rest);
      EscapedReadsBack(s[1..], rest);
      EscapedCharIsRead(s[0], more);
      assert Escaped(s) + ("\"" + rest) == EscapedChar(s[0]) + more;
      assert [s[0]] + s[1..] == s;
    }
  }
}
