/** Hexadecimal digits. */
module Hex {
  import opened Wrappers

  function Digit(n: int): char
    requires 0 <= n < 16
  {
    if n < 10 then ('0' as int + n) as char else ('A' as int + n - 10) as char
  }

  /** The value of a digit in upper or lower case. */
  function ValueOf(c: char): (r: Option<int>)
    ensures r.Some? ==> 0 <= r.value < 16
  {
    if '0' <= c <= '9' then Some(c as int - '0' as int)
    else if 'A' <= c <= 'F' then Some(c as int - 'A' as int + 10)
    else if 'a' <= c <= 'f' then Some(c as int - 'a' as int + 10)
    else None
  }

  /** Digits are read in upper and in lower case. */
  lemma DigitIsRead(n: nat)
    requires n < 16
    ensures ValueOf(Digit(n)) == Some(n) && ValueOf("0123456789abcdef"[n]) == Some(n)
  {
  }
}
