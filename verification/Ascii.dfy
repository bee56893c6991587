/** C strings and the digits in them. */
module Ascii {
  /** A NUL-free C string: every character is a byte other than the terminator. */
  predicate CString(s: string) {
    forall i :: 0 <= i < |s| ==> 0 < s[i] as int < 256
  }

  predicate IsDigit(c: char) {
    '0' <= c <= '9'
  }

  /** The value of a hex digit, or -1. */
  function HexDigit(c: char): (d: int)
    ensures -1 <= d < 16
  {
    if '0' <= c <= '9' then c as int - '0' as int
    else if 'A' <= c <= 'F' then 10 + c as int - 'A' as int
    else if 'a' <= c <= 'f' then 10 + c as int - 'a' as int
    else -1
  }

  /** `%d` of a value that is not negative. */
  function Decimal(n: nat): (d: string)
    ensures |d| >= 1
  {
    var last := [('0' as int + n % 10) as char];
    if n < 10 then last else Decimal(n / 10) + last
  }

  const HEX := "0123456789abcdef"

  /** The sixteen digits: of ten and more the six first letters, read in either case, written in lower
      case. */
  lemma HexTable(c: char, d: nat)
    requires d < 16
    ensures HexDigit(c) == d
       <==> (if d < 10 then c as int == 48 + d else c as int == 65 + (d - 10) || c as int == 97 + (d - 10))
    ensures HEX[d] as int == if d < 10 then 48 + d else 97 + (d - 10)
    ensures IsDigit(c) <==> 48 <= c as int <= 57
  {
  }

  /** `%x`. */
  function HexText(n: nat): (h: string)
    ensures |h| >= 1
  {
    if n < 16 then [HEX[n]] else HexText(n / 16) + [HEX[n % 16]]
  }

  /** The buffer begins with the text and its terminator. */
  ghost predicate TextIn(buffer: array<char>, s: string)
    reads buffer
  {
    |s| < buffer.Length && buffer[..|s|] == s && buffer[|s|] == '\0'
  }
}
