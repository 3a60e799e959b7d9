/** Decimal digit strings: reading a run of ASCII digits as a number (the
    numeric fields of a strptime format) and writing a number the way
    Python's str(int) does. */
module Digits {

  predicate IsDigit(c: char) {
    '0' <= c <= '9'
  }

  predicate AllDigits(s: string) {
    forall i :: 0 <= i < |s| ==> IsDigit(s[i])
  }

  function DigitValue(c: char): (v: nat)
    requires IsDigit(c)
    ensures v < 10
  {
    c as int - '0' as int
  }

  function DigitChar(v: nat): (c: char)
    requires v < 10
    ensures IsDigit(c) && DigitValue(c) == v
  {
    ('0' as int + v) as char
  }

  function Pow10(k: nat): (p: nat)
    ensures p >= 1
  {
    if k == 0 then 1 else 10 * Pow10(k - 1)
  }

  /** The number a digit string denotes, most significant digit first. */
  function FromDigits(s: string): (n: nat)
    requires AllDigits(s)
    ensures n < Pow10(|s|)
    decreases |s|
  {
    if s == [] then 0 else FromDigits(s[..|s| - 1]) * 10 + DigitValue(s[|s| - 1])
  }

  /** The last `width` decimal digits of n, zero-padded on the left. */
  function ToDigits(n: nat, width: nat): (s: string)
    ensures |s| == width && AllDigits(s)
  {
    if width == 0 then [] else ToDigits(n / 10, width - 1) + [DigitChar(n % 10)]
  }

  /** str(n): the shortest digit string denoting n (no leading zero). */
  function Decimal(n: nat): (s: string)
    ensures 1 <= |s| && AllDigits(s) && FromDigits(s) == n
    ensures |s| > 1 ==> s[0] != '0'
  {
    if n < 10 then [DigitChar(n)]
    else
      var s := Decimal(n / 10) + [DigitChar(n % 10)];
      assert s[..|s| - 1] == Decimal(n / 10);
      s
  }

  /** Writing n in `width` digits and reading it back gives n. */
  lemma {:induction false} FromToDigits(n: nat, width: nat)
    requires n < Pow10(width)
    ensures FromDigits(ToDigits(n, width)) == n
  {
    if width > 0 {
      var s := ToDigits(n, width);
      assert s[..|s| - 1] == ToDigits(n / 10, width - 1);
      FromToDigits(n / 10, width - 1);
    }
  }

  /** Reading a digit string and writing the number back in as many digits
      gives the same string: leading zeros included. */
  lemma {:induction false} ToFromDigits(s: string)
    requires AllDigits(s)
    ensures ToDigits(FromDigits(s), |s|) == s
  {
    if s != [] {
      var p := s[..|s| - 1];
      var n := FromDigits(s);
      assert n / 10 == FromDigits(p) && n % 10 == DigitValue(s[|s| - 1]);
      ToFromDigits(p);
      assert s == p + [s[|s| - 1]];
    }
  }

  lemma TwoDigitValue(s: string)
    requires |s| == 2 && AllDigits(s)
    ensures FromDigits(s) == 10 * DigitValue(s[0]) + DigitValue(s[1])
  {
    assert s[..1][..0] == [];
  }

  lemma FourDigitValue(s: string)
    requires |s| == 4 && AllDigits(s)
    ensures FromDigits(s) == 1000 * DigitValue(s[0]) + 100 * DigitValue(s[1]) + 10 * DigitValue(s[2]) + DigitValue(s[3])
  {
    TwoDigitValue(s[..2]);
    assert s[..3][..2] == s[..2];
  }
}
