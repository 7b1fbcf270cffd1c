/** Decimal spellings of natural numbers: strconv.FormatUint and the digits ParseUint reads. */
module Digits {

  predicate IsDigit(c: char) { '0' <= c <= '9' }

  predicate AllDigits(s: string) { forall i :: 0 <= i < |s| ==> IsDigit(s[i]) }

  function DigitValue(c: char): (d: nat)
    requires IsDigit(c)
    ensures d < 10
  {
    c as nat - '0' as nat
  }

  function DigitChar(d: nat): (c: char)
    requires d < 10
    ensures IsDigit(c) && DigitValue(c) == d
  {
    ('0' as nat + d) as char
  }

  function Pow10(e: nat): (p: nat)
    ensures p >= 1
  {
    if e == 0 then 1 else 10 * Pow10(e - 1)
  }

  function Value(s: string): (n: nat)
    requires AllDigits(s)
  {
    if |s| == 0 then 0 else 10 * Value(s[..|s| - 1]) + DigitValue(s[|s| - 1])
  }

  function Format(n: nat): (s: string)
    ensures AllDigits(s) && |s| > 0
  {
    if n < 10 then [DigitChar(n)] else Format(n / 10) + [DigitChar(n % 10)]
  }

  /** A spelling without leading zeros. */
  predicate Canonical(s: string) { |s| > 0 && AllDigits(s) && (|s| > 1 ==> s[0] != '0') }

  lemma {:induction false} ValueFormat(n: nat)
    ensures Value(Format(n)) == n && Canonical(Format(n))
  {
    if n < 10 {
      assert [DigitChar(n)][..0] == [];
    } else {
      ValueFormat(n / 10);
      assert Format(n)[..|Format(n)| - 1] == Format(n / 10);
      var front := Format(n / 10);
      assert |front| == 1 ==> front[..0] == [] && DigitValue(front[0]) == n / 10;
    }
  }

  lemma {:induction false} CanonicalLarge(s: string)
    requires Canonical(s) && |s| > 1
    ensures Value(s) >= 10
  {
    var front := s[..|s| - 1];
    if |front| > 1 { CanonicalLarge(front); } else { assert front[..0] == [] && front[0] == s[0]; }
  }

  lemma {:induction false} FormatValue(s: string)
    requires Canonical(s)
    ensures Format(Value(s)) == s
  {
    if |s| == 1 {
      assert s[..0] == [] && s == [s[0]];
    } else {
      var front, d := s[..|s| - 1], s[|s| - 1];
      FormatValue(front);
      CanonicalLarge(s);
      FormatNext(Value(front), d);
      assert s == front + [d];
    }
  }

  lemma FormatNext(n: nat, d: char)
    requires IsDigit(d) && 10 * n + DigitValue(d) >= 10
    ensures Format(10 * n + DigitValue(d)) == Format(n) + [d]
  {
    assert (10 * n + DigitValue(d)) / 10 == n && (10 * n + DigitValue(d)) % 10 == DigitValue(d);
  }

  lemma ShiftSum(a: nat, p: nat, f: nat)
    ensures 10 * (a * p + f) == a * (10 * p) + 10 * f
  {}

  lemma {:induction false} ValueAppend(a: string, b: string)
    requires AllDigits(a) && AllDigits(b)
    ensures AllDigits(a + b) && Value(a + b) == Value(a) * Pow10(|b|) + Value(b)
  {
    if |b| == 0 {
      assert a + b == a;
    } else {
      var front := b[..|b| - 1];
      ValueAppend(a, front);
      assert (a + b)[..|a + b| - 1] == a + front;
      assert (a + b)[|a + b| - 1] == b[|b| - 1];
      ShiftSum(Value(a), Pow10(|front|), Value(front));
    }
  }

  function Zeros(n: nat): (s: string)
    ensures AllDigits(s) && |s| == n
  {
    if n == 0 then "" else "0" + Zeros(n - 1)
  }

  lemma {:induction false} ValueZeros(n: nat)
    ensures Value(Zeros(n)) == 0
  {
    if n > 0 {
      ValueZeros(n - 1);
      assert "0"[..0] == [];
      ValueAppend("0", Zeros(n - 1));
    }
  }

  lemma ZeroTimes(p: nat)
    ensures 0 * p == 0
  {}

  lemma ValueLeadingZeros(n: nat, s: string)
    requires AllDigits(s)
    ensures AllDigits(Zeros(n) + s) && Value(Zeros(n) + s) == Value(s)
  {
    ValueAppend(Zeros(n), s);
    ValueZeros(n);
    ZeroTimes(Pow10(|s|));
  }
}
