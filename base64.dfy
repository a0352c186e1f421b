/** Base64 encoding with the standard alphabet and `=` padding (section 4 of
    RFC 4648), as base64.b64encode computes it, over the UTF-8 bytes of an
    ASCII string. */
module Base64 {

  predicate IsByte(b: int) {
    0 <= b < 256
  }

  predicate IsAscii(s: string) {
    forall i :: 0 <= i < |s| ==> s[i] as int < 128
  }

  /** str.encode() of an ASCII string: one byte per character. */
  function AsciiBytes(s: string): (r: seq<int>)
    requires IsAscii(s)
    ensures |r| == |s| && forall i :: 0 <= i < |r| ==> r[i] == s[i] as int && IsByte(r[i])
  {
    seq(|s|, i requires 0 <= i < |s| => s[i] as int)
  }

  /** The digit for a six-bit value: A-Z, a-z, 0-9, then + and /. */
  function Digit(n: int): char
    requires 0 <= n < 64
  {
    if n < 26 then ('A' as int + n) as char
    else if n < 52 then ('a' as int + (n - 26)) as char
    else if n < 62 then ('0' as int + (n - 52)) as char
    else if n == 62 then '+'
    else '/'
  }

  lemma ByteParts(x: int)
    requires IsByte(x)
    ensures 0 <= x / 4 < 64 && 0 <= x % 4 < 4
    ensures 0 <= x / 16 < 16 && 0 <= x % 16 < 16
    ensures 0 <= x / 64 < 4 && 0 <= x % 64 < 64
  {
  }

  /** Each group of three bytes becomes four digits; a final group of one or
      two bytes is padded with `=`. */
  function Encode(b: seq<int>): (r: string)
    requires forall i :: 0 <= i < |b| ==> IsByte(b[i])
    decreases |b|
  {
    if |b| == 0 then ""
    else
    ByteParts(b[0]);
    if |b| == 1 then
      [Digit(b[0] / 4), Digit((b[0] % 4) * 16), '=', '=']
    else
    ByteParts(b[1]);
    if |b| == 2 then
      [Digit(b[0] / 4), Digit((b[0] % 4) * 16 + b[1] / 16), Digit((b[1] % 16) * 4), '=']
    else
      ByteParts(b[2]);
      [Digit(b[0] / 4), Digit((b[0] % 4) * 16 + b[1] / 16), Digit((b[1] % 16) * 4 + b[2] / 64), Digit(b[2] % 64)]
      + Encode(b[3..])
  }

  /** The encoding is four characters per started group of three bytes. */
  lemma {:induction false} EncodeLength(b: seq<int>)
    requires forall i :: 0 <= i < |b| ==> IsByte(b[i])
    ensures |Encode(b)| == 4 * ((|b| + 2) / 3)
    decreases |b|
  {
    if |b| >= 3 {
      EncodeLength(b[3..]);
      assert |Encode(b)| == 4 + |Encode(b[3..])|;
      assert (|b| + 2) / 3 == (|b[3..]| + 2) / 3 + 1;
    }
  }

  /** b64encode(s.encode()).decode() for an ASCII string. */
  function EncodeAscii(s: string): string
    requires IsAscii(s)
  {
    Encode(AsciiBytes(s))
  }
}
