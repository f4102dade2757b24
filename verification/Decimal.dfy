/** Decimal numerals, as integers are printed and read. */
module Decimal {
  import opened Wrappers

  predicate IsDigit(c: char) {
    '0' <= c <= '9'
  }

  function DigitOf(n: nat): (c: char)
    requires n < 10
    ensures IsDigit(c)
  {
    '0' + n as char
  }

  /** Without leading zeros. */
  function Digits(n: nat): string {
    if n < 10 then [DigitOf(n)] else Digits(n / 10) + [DigitOf(n % 10)]
  }

  predicate AllDigits(s: string) {
    forall i :: 0 <= i < |s| ==> IsDigit(s[i])
  }

  /** The number a row of digits stands for, leading zeros or not. */
  function Value(s: string): nat
    requires AllDigits(s)
  {
    if s == [] then 0 else 10 * Value(s[..|s| - 1]) + (s[|s| - 1] as nat - '0' as nat)
  }

  lemma {:induction false} DigitsHaveValue(n: nat)
    ensures Digits(n) != [] && AllDigits(Digits(n)) && Value(Digits(n)) == n
  {
    if n >= 10 {
      DigitsHaveValue(n / 10);
      assert Digits(n)[..|Digits(n)| - 1] == Digits(n / 10);
    } else {
      assert Digits(n)[..0] == [];
    }
  }

  function Zeros(k: nat): (z: string)
    ensures |z| == k && AllDigits(z)
  {
    seq(k, _ => '0')
  }

  lemma {:induction false} ZerosAddNothing(k: nat, s: string)
    requires AllDigits(s)
    ensures AllDigits(Zeros(k) + s) && Value(Zeros(k) + s) == Value(s)
    decreases k + |s|
  {
    var all := Zeros(k) + s;
    if s != [] {
      ZerosAddNothing(k, s[..|s| - 1]);
      assert all[..|all| - 1] == Zeros(k) + s[..|s| - 1];
    } else if k > 0 {
      ZerosAddNothing(k - 1, s);
      assert all[..k - 1] == Zeros(k - 1) + s;
    }
  }

  /** Any row of digits is a numeral with zeros in front. */
  lemma {:induction false} DigitsAreCanonical(s: string) returns (k: nat)
    requires s != [] && AllDigits(s)
    ensures s == Zeros(k) + Digits(Value(s))
  {
    var front, last := s[..|s| - 1], s[|s| - 1];
    var d := last as nat - '0' as nat;
    assert s == front + [last] && DigitOf(d) == last;
    if front == [] {
      k := 0;
    } else {
      k := DigitsAreCanonical(front);
      if Value(front) == 0 {
        assert front == Zeros(k + 1);
        k := k + 1;
      } else {
        assert Value(s) / 10 == Value(front) && Value(s) % 10 == d;
      }
    }
  }

  /** Filled with zeros to `width`, after the sign. */
  function Padded(n: int, width: nat): string {
    if n < 0 then "-" + Filled(-n, if width == 0 then 0 else width - 1) else Filled(n, width)
  }

  function Filled(n: nat, width: nat): string {
    Zeros(if |Digits(n)| < width then width - |Digits(n)| else 0) + Digits(n)
  }

  lemma FilledHasValue(n: nat, width: nat)
    ensures Filled(n, width) != [] && AllDigits(Filled(n, width)) && Value(Filled(n, width)) == n
  {
    DigitsHaveValue(n);
    ZerosAddNothing(if |Digits(n)| < width then width - |Digits(n)| else 0, Digits(n));
  }

  /** The sign and the value of a padded number. */
  lemma PaddedHasValue(n: int, width: nat)
    ensures var s := Padded(n, width);
            && s != [] && (s[0] == '-' <==> n < 0)
            && if n < 0 then AllDigits(s[1..]) && Value(s[1..]) == -n else AllDigits(s) && Value(s) == n
  {
    if n < 0 {
      var narrow := if width == 0 then 0 else width - 1;
      FilledHasValue(-n, narrow);
      assert Padded(n, width)[1..] == Filled(-n, narrow);
    } else {
      FilledHasValue(n, width);
      assert IsDigit(Padded(n, width)[0]);
    }
  }

  /** A padded number is read in one way. */
  lemma PaddedIsInjective(a: int, b: int, width: nat)
    requires Padded(a, width) == Padded(b, width)
    ensures a == b
  {
    PaddedHasValue(a, width);
    PaddedHasValue(b, width);
  }

  lemma TwoDigits(n: nat)
    requires n < 100
    ensures |Padded(n, 2)| == 2
  {
    if n >= 10 {
      assert n / 10 < 10 && Digits(n / 10) == [DigitOf(n / 10)];
    }
  }
}
