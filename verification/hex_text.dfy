/** The text <-> integer conversions the Colour type is built on, as Python
    performs them: `str.lstrip('#')`, `int(s, base=16)`, the `"{0:06x}"`
    format and the `string.hexdigits` alphabet. */
module HexText {
  import opened Wrappers

  /** Python's `string.hexdigits`. */
  const HexDigits: string := "0123456789abcdefABCDEF"

  /** A character `int(_, 16)` accepts as a digit. */
  predicate IsHexDigit(c: char) {
    ('0' <= c <= '9') || ('a' <= c <= 'f') || ('A' <= c <= 'F')
  }

  predicate AllHex(s: string) {
    forall i :: 0 <= i < |s| ==> IsHexDigit(s[i])
  }

  /** The `j`-th character of `string.hexdigits`. */
  function HexDigitAt(j: nat): (c: char)
    requires j < 22
    ensures IsHexDigit(c)
  {
    if j < 10 then ('0' as int + j) as char
    else if j < 16 then ('a' as int + j - 10) as char
    else ('A' as int + j - 16) as char
  }

  /** `HexDigitAt` spells out `string.hexdigits`, in order. */
  lemma HexDigitAtAgrees(j: nat)
    requires j < 22
    ensures |HexDigits| == 22 && HexDigitAt(j) == HexDigits[j]
  {
    if j < 10 {
      assert HexDigits[..10] == "0123456789";
      assert HexDigits[j] == HexDigits[..10][j];
    } else if j < 16 {
      assert HexDigits[10..16] == "abcdef";
      assert HexDigits[j] == HexDigits[10..16][j - 10];
    } else {
      assert HexDigits[16..] == "ABCDEF";
      assert HexDigits[j] == HexDigits[16..][j - 16];
    }
  }

  /** The position in `string.hexdigits` of a digit character. */
  function HexDigitIndex(c: char): (j: nat)
    requires IsHexDigit(c)
    ensures j < 22 && HexDigitAt(j) == c
  {
    if '0' <= c <= '9' then c as int - '0' as int
    else if 'a' <= c <= 'f' then c as int - 'a' as int + 10
    else c as int - 'A' as int + 16
  }

  /** The digit predicate accepts exactly the characters of `string.hexdigits`. */
  lemma HexDigitsAgree(c: char)
    ensures IsHexDigit(c) <==> c in HexDigits
  {
    if c in HexDigits {
      var j :| 0 <= j < |HexDigits| && HexDigits[j] == c;
      HexDigitAtAgrees(j);
    }
    if IsHexDigit(c) {
      HexDigitAtAgrees(HexDigitIndex(c));
    }
  }

  /** The value of one hex digit, either case. */
  function DigitValue(c: char): (v: nat)
    requires IsHexDigit(c)
    ensures v < 16
  {
    if '0' <= c <= '9' then c as int - '0' as int
    else if 'a' <= c <= 'f' then c as int - 'a' as int + 10
    else c as int - 'A' as int + 10
  }

  /** Digits are read without regard to case: `'A'`..`'F'` have the values
      of `'a'`..`'f'`, which `LowerDigit` fixes as 10..15. */
  lemma DigitValueIgnoresCase(c: char)
    requires 'A' <= c <= 'F'
    ensures DigitValue(c) == DigitValue((c as int - 'A' as int + 'a' as int) as char)
    ensures DigitValue(c) == 10 + (c as int - 'A' as int)
  {}

  /** The lower-case digit `format(_, 'x')` writes for a value below 16. */
  function LowerDigit(v: nat): (c: char)
    requires v < 16
    ensures IsHexDigit(c) && DigitValue(c) == v
    ensures !('A' <= c <= 'F')
  {
    if v < 10 then ('0' as int + v) as char else ('a' as int + v - 10) as char
  }

  function Pow16(k: nat): (p: nat)
    ensures p > 0
    ensures k > 0 ==> p >= 16
  {
    if k == 0 then 1 else 16 * Pow16(k - 1)
  }

  /** The value of a string of hex digits, most significant digit first. */
  function DigitsValue(s: string): (v: nat)
    requires AllHex(s)
    ensures v < Pow16(|s|)
  {
    if |s| == 0 then 0
    else
      var init := DigitsValue(s[..|s| - 1]);
      assert init + 1 <= Pow16(|s| - 1);
      assert init * 16 + 16 <= Pow16(|s|);
      init * 16 + DigitValue(s[|s| - 1])
  }

  /** `s.lstrip('#')`: the longest suffix of `s` that does not start with `#`. */
  function LStripHash(s: string): (r: string)
    ensures |r| <= |s| && r == s[|s| - |r|..]
    ensures forall i :: 0 <= i < |s| - |r| ==> s[i] == '#'
    ensures |r| > 0 ==> r[0] != '#'
  {
    if |s| > 0 && s[0] == '#' then LStripHash(s[1..]) else s
  }

  /** The digits of a literal once an optional leading sign is removed. */
  function Magnitude(s: string): string {
    if |s| > 0 && (s[0] == '-' || s[0] == '+') then s[1..] else s
  }

  /** A literal `int(_, 16)` accepts within this model: an optional sign and
      at least one hex digit. */
  predicate IsHexLiteral(s: string) {
    |Magnitude(s)| > 0 && AllHex(Magnitude(s))
  }

  /** `int(s, base=16)`; `None` stands for the `ValueError` Python raises. */
  function ParseHex(s: string): (r: Option<int>)
    ensures r.Some? <==> IsHexLiteral(s)
  {
    var m := Magnitude(s);
    if |m| == 0 || !AllHex(m) then None
    else if s[0] == '-' then Some(0 - DigitsValue(m))
    else Some(DigitsValue(m))
  }

  /** The shortest lower-case hex rendering of `n` (Python's `format(n, 'x')`
      for a non-negative `n`). */
  function LowerHex(n: nat): (s: string)
    ensures |s| > 0 && AllLowerHex(s)
    ensures AllHex(s) && DigitsValue(s) == n
  {
    if n < 16 then [LowerDigit(n)]
    else
      var init := LowerHex(n / 16);
      var s := init + [LowerDigit(n % 16)];
      assert s[..|s| - 1] == init;
      s
  }

  /** Every character is a digit `format(_, 'x')` may write. */
  predicate AllLowerHex(s: string) {
    forall i :: 0 <= i < |s| ==> IsHexDigit(s[i]) && !('A' <= s[i] <= 'F')
  }

  /** `s` left-padded with `0` to at least `width` characters. */
  function PadZeros(s: string, width: nat): (r: string)
    ensures |r| == if |s| < width then width else |s|
    ensures AllLowerHex(s) ==> AllLowerHex(r)
  {
    if |s| < width then seq(width - |s|, _ => '0') + s else s
  }

  /** The lower-case digits of `m`, zero-padded to at least `width`. */
  function PaddedHex(m: nat, width: nat): (p: string)
    ensures |p| > 0 && |p| >= width
    ensures AllLowerHex(p) && AllHex(p) && DigitsValue(p) == m
    ensures width > 0 && m < Pow16(width) ==> |p| == width
  {
    var digits := LowerHex(m);
    PadZerosValue(digits, width);
    assert m < Pow16(width) && width > 0 ==> |digits| <= width by {
      if m < Pow16(width) && width > 0 { LowerHexLength(m, width); }
    }
    PadZeros(digits, width)
  }

  /** Python's `"{0:06x}".format(n)`: lower-case hex, zero-padded to a
      total width of six characters, the sign counted in the width. */
  function Format06x(n: int): (s: string)
    ensures |s| >= 6 && s[0] != '#'
    ensures 0 <= n ==> AllLowerHex(s)
    ensures 0 <= n < Pow16(6) ==> |s| == 6
  {
    if n >= 0 then PaddedHex(n, 6) else "-" + PaddedHex(-n, 5)
  }

  /** A number below 16^k needs at most k digits. */
  lemma {:induction false} LowerHexLength(n: nat, k: nat)
    requires k >= 1 && n < Pow16(k)
    ensures |LowerHex(n)| <= k
  {
    if n >= 16 {
      assert n / 16 < Pow16(k - 1);
      LowerHexLength(n / 16, k - 1);
    }
  }

  lemma AllHexConcat(a: string, b: string)
    requires AllHex(a) && AllHex(b)
    ensures AllHex(a + b)
  {
    var ab := a + b;
    forall i | 0 <= i < |ab|
      ensures IsHexDigit(ab[i])
    {
      if i < |a| { assert ab[i] == a[i]; } else { assert ab[i] == b[i - |a|]; }
    }
  }

  /** Zeros in front of digits do not change their value. */
  lemma {:induction false} LeadingZerosValue(z: string, s: string)
    requires forall i :: 0 <= i < |z| ==> z[i] == '0'
    requires AllHex(s)
    ensures AllHex(z + s) && DigitsValue(z + s) == DigitsValue(s)
  {
    ZerosValue(z);
    AllHexConcat(z, s);
    if |s| == 0 {
      assert z + s == z;
    } else {
      var s' := s[..|s| - 1];
      assert (z + s)[..|z + s| - 1] == z + s';
      assert (z + s)[|z + s| - 1] == s[|s| - 1];
      LeadingZerosValue(z, s');
    }
  }

  /** Leading zeros do not change the value. */
  lemma {:induction false} PadZerosValue(s: string, width: nat)
    requires AllHex(s)
    ensures AllHex(PadZeros(s, width))
    ensures DigitsValue(PadZeros(s, width)) == DigitsValue(s)
  {
    if |s| < width {
      LeadingZerosValue(seq(width - |s|, _ => '0'), s);
    }
  }

  lemma {:induction false} ZerosValue(z: string)
    requires forall i :: 0 <= i < |z| ==> z[i] == '0'
    ensures AllHex(z) && DigitsValue(z) == 0
  {
    if |z| > 0 {
      ZerosValue(z[..|z| - 1]);
    }
  }

  /** A non-negative number renders as its digits padded to six.
      Only unfolds the definition; kept separate so that proofs using it stay within the solver's resource budget. */
  lemma FormatNonNegative(n: int)
    requires n >= 0
    ensures Format06x(n) == PaddedHex(n, 6)
  {}

  /** A negative number renders as `-` and its magnitude padded to five.
      Only unfolds the definition; kept separate so that proofs using it stay within the solver's resource budget. */
  lemma FormatNegative(n: int)
    requires n < 0
    ensures Format06x(n) == "-" + PaddedHex(-n, 5)
  {}

  /** Stripping leading `#` from one `#` before a non-`#` text leaves the text. */
  lemma StripOneHash(body: string)
    requires |body| > 0 && body[0] != '#'
    ensures LStripHash("#" + body) == body
  {
    assert ("#" + body)[1..] == body;
  }

  /** A `-` sign negates the value of the digits after it. */
  lemma ParseNegative(p: string)
    requires |p| > 0 && AllHex(p)
    ensures ParseHex("-" + p) == Some(0 - DigitsValue(p))
  {
    var s := "-" + p;
    assert s[1..] == p;
    assert Magnitude(s) == p;
  }

  /** A `+` sign leaves the value of the digits after it unchanged. */
  lemma ParsePlus(p: string)
    requires |p| > 0 && AllHex(p)
    ensures ParseHex("+" + p) == Some(DigitsValue(p))
  {
    var s := "+" + p;
    assert s[1..] == p;
    assert Magnitude(s) == p;
  }

  /** Unsigned digits parse to their value. */
  lemma ParseUnsigned(p: string)
    requires |p| > 0 && AllHex(p)
    ensures ParseHex(p) == Some(DigitsValue(p))
  {
    assert IsHexDigit(p[0]);
    assert Magnitude(p) == p;
  }
}
