/** Decimal rendering of non-negative integers, as JavaScript's template literals
    print `members.length + 1` and `teams[k].length`, together with the reading
    back of such a rendering. */
module Decimal {

  predicate IsDigit(c: char)
  {
    '0' <= c <= '9'
  }

  predicate AllDigits(s: string)
  {
    forall i :: 0 <= i < |s| ==> IsDigit(s[i])
  }

  /** A canonical decimal numeral: non-empty, digits only, no leading zero except "0" itself. */
  predicate Canonical(s: string)
  {
    && 1 <= |s|
    && AllDigits(s)
    && (s[0] == '0' ==> |s| == 1)
  }

  function DigitValue(c: char): (d: nat)
    requires IsDigit(c)
    ensures d < 10
    ensures (d == 0) == (c == '0')
  {
    c as int - '0' as int
  }

  function DigitChar(d: nat): (c: char)
    requires d < 10
    ensures IsDigit(c)
    ensures DigitValue(c) == d
  {
    ('0' as int + d) as char
  }

  /** The numeral JavaScript prints for the integer `n`. */
  function NatToDecimal(n: nat): (s: string)
    ensures Canonical(s)
    ensures (s == "0") == (n == 0)
    decreases n
  {
    if n < 10 then [DigitChar(n)] else NatToDecimal(n / 10) + [DigitChar(n % 10)]
  }

  /** The number a string of digits denotes, most significant digit first. */
  function DecimalValue(s: string): nat
    requires AllDigits(s)
  {
    if |s| == 0 then 0 else 10 * DecimalValue(s[..|s| - 1]) + DigitValue(s[|s| - 1])
  }

  /** Reading a rendered number gives the number back. */
  lemma {:induction false} DecimalRoundTrip(n: nat)
    ensures DecimalValue(NatToDecimal(n)) == n
    decreases n
  {
    if n >= 10 {
      var s := NatToDecimal(n);
      assert s[..|s| - 1] == NatToDecimal(n / 10);
      DecimalRoundTrip(n / 10);
    }
  }

  /** A canonical numeral of more than one digit denotes at least ten. */
  lemma {:induction false} CanonicalValueLowerBound(s: string)
    requires Canonical(s)
    ensures |s| >= 2 ==> DecimalValue(s) >= 10
    ensures s[0] != '0' ==> DecimalValue(s) >= 1
    decreases |s|
  {
    if |s| >= 2 {
      var p := s[..|s| - 1];
      assert p[0] == s[0];
      CanonicalValueLowerBound(p);
    }
  }

  /** Rendering the value of a canonical numeral gives the numeral back. */
  lemma {:induction false} CanonicalRoundTrip(s: string)
    requires Canonical(s)
    ensures NatToDecimal(DecimalValue(s)) == s
    decreases |s|
  {
    if |s| >= 2 {
      var p := s[..|s| - 1];
      assert p[0] == s[0];
      CanonicalValueLowerBound(s);
      CanonicalRoundTrip(p);
      var v := DecimalValue(s);
      assert v / 10 == DecimalValue(p);
      assert v % 10 == DigitValue(s[|s| - 1]);
      assert s == p + [s[|s| - 1]];
    }
  }

  /** Two numbers print alike exactly when they are equal. */
  lemma NatToDecimalInjective(m: nat, n: nat)
    ensures NatToDecimal(m) == NatToDecimal(n) <==> m == n
  {
    DecimalRoundTrip(m);
    DecimalRoundTrip(n);
  }
}
