/** Decimal digit text: the zero-padded numeric formats ("00", "D4") and their values. */
module Decimal {

  predicate IsDigit(c: char) {
    '0' <= c <= '9'
  }

  predicate AllDigits(s: string) {
    forall i :: 0 <= i < |s| ==> IsDigit(s[i])
  }

  function DigitValue(c: char): (d: nat)
    requires IsDigit(c)
    ensures d < 10
  {
    c as int - '0' as int
  }

  function DigitChar(d: int): (c: char)
    requires 0 <= d < 10
    ensures IsDigit(c) && DigitValue(c) == d
  {
    ('0' as int + d) as char
  }

  function Pow10(k: nat): (p: nat)
    ensures p >= 1
  {
    if k == 0 then 1 else 10 * Pow10(k - 1)
  }

  /** The number a digit string denotes, most significant digit first. */
  function Value(s: string): nat
    requires AllDigits(s)
  {
    if s == [] then 0 else Value(s[..|s| - 1]) * 10 + DigitValue(s[|s| - 1])
  }

  /** The last `width` decimal digits of `n`, most significant first. */
  function Fixed(n: nat, width: nat): (s: string)
    ensures |s| == width && AllDigits(s)
  {
    if width == 0 then [] else Fixed(n / 10, width - 1) + [DigitChar(n % 10)]
  }

  /** Number of digits in the shortest decimal form of `n`. */
  function NumDigits(n: nat): (k: nat)
    ensures 1 <= k && n < Pow10(k)
  {
    if n < 10 then 1 else 1 + NumDigits(n / 10)
  }

  /** `n` in decimal, left-padded with zeros to at least `width` digits. */
  function Pad(n: nat, width: nat): (s: string)
    ensures AllDigits(s) && |s| >= width
    ensures 1 <= width && n < Pow10(width) ==> |s| == width
  {
    var k := if NumDigits(n) > width then NumDigits(n) else width;
    assert 1 <= width && n < Pow10(width) ==> k == width by {
      if 1 <= width && n < Pow10(width) {
        NumDigitsBound(n, width);
      }
    }
    Fixed(n, k)
  }

  lemma {:induction false} NumDigitsBound(n: nat, width: nat)
    requires 1 <= width && n < Pow10(width)
    ensures NumDigits(n) <= width
  {
    if n >= 10 {
      NumDigitsBound(n / 10, width - 1);
    }
  }

  lemma {:induction false} ValueOfFixed(n: nat, width: nat)
    requires n < Pow10(width)
    ensures Value(Fixed(n, width)) == n
  {
    if width > 0 {
      var s := Fixed(n, width);
      assert s[..width - 1] == Fixed(n / 10, width - 1);
      ValueOfFixed(n / 10, width - 1);
    }
  }

  /** Reading back a padded number gives the number. */
  lemma ValueOfPad(n: nat, width: nat)
    ensures Value(Pad(n, width)) == n
  {
    var k := if NumDigits(n) > width then NumDigits(n) else width;
    PowMonotone(NumDigits(n), k);
    ValueOfFixed(n, k);
  }

  lemma {:induction false} PowMonotone(a: nat, b: nat)
    requires a <= b
    ensures Pow10(a) <= Pow10(b)
  {
    if a < b {
      PowMonotone(a, b - 1);
    }
  }

  /** A digit string is the fixed-width form of its own value. */
  lemma {:induction false} FixedOfValue(s: string)
    requires AllDigits(s)
    ensures Fixed(Value(s), |s|) == s
  {
    if s != [] {
      var init := s[..|s| - 1];
      FixedOfValue(init);
      var v := Value(s);
      assert v / 10 == Value(init) && v % 10 == DigitValue(s[|s| - 1]);
      assert s == init + [s[|s| - 1]];
    }
  }

  /** A digit string denotes a number below ten to the power of its length. */
  lemma {:induction false} ValueBound(s: string)
    requires AllDigits(s)
    ensures Value(s) < Pow10(|s|)
  {
    if s != [] {
      ValueBound(s[..|s| - 1]);
    }
  }

  /** A non-empty digit string is the zero-padded form, at its own width, of its value. */
  lemma PadOfValue(s: string)
    requires AllDigits(s) && |s| >= 1
    ensures Pad(Value(s), |s|) == s
  {
    ValueBound(s);
    NumDigitsBound(Value(s), |s|);
    FixedOfValue(s);
  }

  lemma PadInjective(a: nat, b: nat, width: nat)
    requires Pad(a, width) == Pad(b, width)
    ensures a == b
  {
    ValueOfPad(a, width);
    ValueOfPad(b, width);
  }
}
