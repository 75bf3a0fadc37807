/** Decimal numerals: what std::to_string prints, what a digit string denotes, and the order on
    digit strings that the range grammar is built from. */
module Decimals {

  predicate IsDigit(c: char) { '0' <= c <= '9' }

  predicate IsDigits(s: string) { forall i :: 0 <= i < |s| ==> IsDigit(s[i]) }

  function DigitVal(c: char): nat
    requires IsDigit(c)
  {
    c as nat - '0' as nat
  }

  function DigitChar(n: nat): (c: char)
    requires n < 10
    ensures IsDigit(c) && DigitVal(c) == n
  {
    (n + '0' as nat) as char
  }

  function Pow10(n: nat): (r: nat)
    ensures r >= 1
  {
    if n == 0 then 1 else 10 * Pow10(n - 1)
  }

  function Value(s: string): nat
    requires IsDigits(s)
  {
    if s == [] then 0 else DigitVal(s[0]) * Pow10(|s| - 1) + Value(s[1..])
  }

  function Decimal(n: nat): string {
    if n < 10 then [DigitChar(n)] else Decimal(n / 10) + [DigitChar(n % 10)]
  }

  function Signed(n: int): string {
    if n < 0 then "-" + Decimal(-n) else Decimal(n)
  }

  // No leading zero, except in "0" itself.
  predicate Canonical(s: string) {
    s != [] && IsDigits(s) && (|s| > 1 ==> s[0] != '0')
  }

  function Repeat(c: char, n: nat): (s: string)
    ensures |s| == n && forall i :: 0 <= i < n ==> s[i] == c
  {
    seq(n, _ => c)
  }

  // Lexicographic order on digit strings of one length.
  predicate LexLeq(a: string, b: string)
    requires |a| == |b|
  {
    a == [] || a[0] < b[0] || (a[0] == b[0] && LexLeq(a[1..], b[1..]))
  }

  predicate ShortLex(a: string, b: string) {
    |a| < |b| || (|a| == |b| && LexLeq(a, b))
  }

  lemma {:induction false} AtMostNineTimes(x: nat, p: nat)
    requires x <= 9
    ensures x * p <= 9 * p
  {
  }

  lemma {:induction false} ValueBound(s: string)
    requires IsDigits(s)
    ensures Value(s) < Pow10(|s|)
  {
    if s != [] {
      ValueBound(s[1..]);
      AtMostNineTimes(DigitVal(s[0]), Pow10(|s| - 1));
    }
  }

  lemma {:induction false} ShiftDigit(x: nat, p: nat)
    ensures x * (10 * p) == 10 * (x * p)
  {
  }

  lemma {:induction false} ValueSnoc(s: string, c: char)
    requires IsDigits(s) && IsDigit(c)
    ensures IsDigits(s + [c]) && Value(s + [c]) == 10 * Value(s) + DigitVal(c)
  {
    var t := s + [c];
    if s == [] {
      assert t[1..] == [];
    } else {
      ValueSnoc(s[1..], c);
      assert t[1..] == s[1..] + [c];
      var x, p := DigitVal(s[0]), Pow10(|s| - 1);
      assert Pow10(|s|) == 10 * p;
      ShiftDigit(x, p);
      assert Value(s) == x * p + Value(s[1..]);
      assert Value(t) == x * (10 * p) + Value(t[1..]);
    }
  }

  lemma {:induction false} DecimalCanonical(n: nat)
    ensures Canonical(Decimal(n)) && Value(Decimal(n)) == n
    ensures n > 0 ==> Decimal(n)[0] != '0'
  {
    if n < 10 {
      assert Decimal(n)[1..] == [];
    } else {
      DecimalCanonical(n / 10);
      ValueSnoc(Decimal(n / 10), DigitChar(n % 10));
    }
  }

  // A larger leading digit outweighs everything behind it.
  lemma {:induction false} LeadingDigitDecides(x: nat, y: nat, p: nat, u: nat, v: nat)
    requires x < y && u < p
    ensures x * p + u < y * p + v
  {
    assert (x + 1) * p <= y * p;
  }

  lemma {:induction false} LexLeqValue(a: string, b: string)
    requires IsDigits(a) && IsDigits(b) && |a| == |b|
    ensures LexLeq(a, b) <==> Value(a) <= Value(b)
  {
    if a != [] {
      var x, y, p := DigitVal(a[0]), DigitVal(b[0]), Pow10(|a| - 1);
      var u, v := Value(a[1..]), Value(b[1..]);
      assert Value(a) == x * p + u && Value(b) == y * p + v;
      if x < y {
        ValueBound(a[1..]);
        LeadingDigitDecides(x, y, p, u, v);
      } else if y < x {
        ValueBound(b[1..]);
        LeadingDigitDecides(y, x, p, v, u);
      } else {
        LexLeqValue(a[1..], b[1..]);
      }
    }
  }

  lemma {:induction false} Pow10Mono(m: nat, n: nat)
    requires m <= n
    ensures Pow10(m) <= Pow10(n)
    decreases n - m
  {
    if m < n { Pow10Mono(m + 1, n); }
  }

  lemma {:induction false} CanonicalLow(s: string)
    requires Canonical(s) && |s| > 1
    ensures Value(s) >= Pow10(|s| - 1)
  {
    assert DigitVal(s[0]) >= 1;
    assert DigitVal(s[0]) * Pow10(|s| - 1) >= 1 * Pow10(|s| - 1);
  }

  // On canonical numerals, shorter-then-lexicographic is the numeric order.
  lemma {:induction false} ShortLexValue(a: string, b: string)
    requires Canonical(a) && Canonical(b)
    ensures ShortLex(a, b) <==> Value(a) <= Value(b)
  {
    if |a| == |b| {
      LexLeqValue(a, b);
    } else if |a| < |b| {
      ValueBound(a);
      CanonicalLow(b);
      Pow10Mono(|a|, |b| - 1);
    } else {
      ValueBound(b);
      CanonicalLow(a);
      Pow10Mono(|b|, |a| - 1);
    }
  }

  lemma {:induction false} LexAntisymmetric(a: string, b: string)
    requires |a| == |b| && LexLeq(a, b) && LexLeq(b, a)
    ensures a == b
  {
    if a != [] {
      LexAntisymmetric(a[1..], b[1..]);
      assert a == [a[0]] + a[1..] && b == [b[0]] + b[1..];
    }
  }

  lemma {:induction false} CanonicalIsDecimal(s: string)
    requires Canonical(s)
    ensures Decimal(Value(s)) == s
  {
    var t := Decimal(Value(s));
    DecimalCanonical(Value(s));
    ShortLexValue(s, t);
    ShortLexValue(t, s);
    LexAntisymmetric(s, t);
  }

  lemma {:induction false} LexReflexive(a: string)
    ensures LexLeq(a, a)
  {
    if a != [] { LexReflexive(a[1..]); }
  }

  lemma {:induction false} LexExtremes(s: string)
    requires IsDigits(s)
    ensures LexLeq(Repeat('0', |s|), s) && LexLeq(s, Repeat('9', |s|))
  {
    if s != [] {
      LexExtremes(s[1..]);
      assert Repeat('0', |s|)[1..] == Repeat('0', |s| - 1);
      assert Repeat('9', |s|)[1..] == Repeat('9', |s| - 1);
    }
  }

  // Equal prefixes can be cancelled.
  lemma {:induction false} LexCancel(p: string, a: string, b: string)
    requires |a| == |b|
    ensures LexLeq(p + a, p + b) <==> LexLeq(a, b)
  {
    if p == [] {
      assert p + a == a && p + b == b;
    } else {
      LexCancel(p[1..], a, b);
      assert (p + a)[1..] == p[1..] + a && (p + b)[1..] == p[1..] + b;
    }
  }
}
