/** Integer ranges as grammar alternatives (`build_min_max_int`).  The functions describe the
    expression that is written; the methods are the loops that write it. */
module IntRange {
  import opened Basics
  import opened Gbnf
  import opened Decimals

  const INT64_MAX: int := 0x7fff_ffff_ffff_ffff
  const INT64_MIN: int := -0x8000_0000_0000_0000

  function DigitRange(from: char, to: char): Expr { Class([(from, to)], false) }

  function MoreDigits(lo: nat, hi: nat): Expr {
    if lo == hi && lo == 1 then DigitRange('0', '9') else Rep(DigitRange('0', '9'), lo, Some(hi))
  }

  // ---------- all digit strings between two of the same length ----------

  function CommonPrefix(a: string, b: string): (i: nat)
    ensures i <= |a| && i <= |b| && a[..i] == b[..i]
    ensures i < |a| && i < |b| ==> a[i] != b[i]
  {
    if a != [] && b != [] && a[0] == b[0] then 1 + CommonPrefix(a[1..], b[1..]) else 0
  }

  // The printed form of an integer, or its last digits.
  predicate NumberText(s: string) { IsDigits(s) || (s != "" && s[0] == '-' && IsDigits(s[1..])) }

  // The second text may be shorter, or negative, when the bounds are not in order.
  function Uniform(from: string, to: string): Expr
    requires IsDigits(from) && NumberText(to)
    decreases |from|, 1
  {
    var i := CommonPrefix(from, to);
    if i == |from| || i == |to| then Lit(from[..i])
    else if i > 0 then Cat(Lit(from[..i]), UniformSplit(from[i..], to[i..]))
    else UniformSplit(from, to)
  }

  // The part that starts where the two bounds first differ.
  function UniformSplit(from: string, to: string): Expr
    requires IsDigits(from) && NumberText(to) && from != [] && to != [] && from[0] != to[0]
    decreases |from|, 0
  {
    var n := |from| - 1;
    if n == 0 then DigitRange(from[0], to[0])
    else
      var fromSub, toSub := from[1..], to[1..];
      var zeros, nines := Repeat('0', n), Repeat('9', n);
      var last := Cat(DigitRange(to[0], to[0]), Uniform(zeros, toSub));
      if fromSub == zeros then
        Alt(Cat(DigitRange(from[0], Shift(to[0], -1)), MoreDigits(n, n)), last)
      else
        var first := Cat(DigitRange(from[0], from[0]), Uniform(fromSub, nines));
        if from[0] < Shift(to[0], -1) then
          if toSub == nines then
            Alt(first, Cat(DigitRange(Shift(from[0], 1), to[0]), MoreDigits(n, n)))
          else
            Alt(first, Alt(Cat(DigitRange(Shift(from[0], 1), Shift(to[0], -1)), MoreDigits(n, n)), last))
        else
          Alt(first, last)
  }

  function Shift(c: char, delta: int): char
    requires (IsDigit(c) || c == '-') && -1 <= delta <= 1
  {
    (c as int + delta) as char
  }

  // What the text of `uniform_range` accepts.
  predicate Between(from: string, s: string, to: string)
    requires |from| == |to|
  {
    |s| == |from| && IsDigits(s) && LexLeq(from, s) && LexLeq(s, to)
  }

  lemma {:induction false} AcceptsDigitRange(g: Rules, from: char, to: char, e: Expr, s: string)
    ensures Accepts(g, Cat(DigitRange(from, to), e), s)
            <==> |s| >= 1 && from <= s[0] <= to && Accepts(g, e, s[1..])
  {
    CatClass(g, [(from, to)], false, e, s);
    if |s| >= 1 {
      assert InClass(s[0], [(from, to)]) <==> from <= s[0] <= to by {
        assert [(from, to)][0] == (from, to);
      }
    }
  }

  lemma {:induction false} AcceptsMoreDigits(g: Rules, lo: nat, hi: nat, s: string)
    ensures Accepts(g, MoreDigits(lo, hi), s) <==> IsDigits(s) && lo <= |s| <= hi
  {
    var rs := [('0', '9')];
    assert forall c :: InClass(c, rs) <==> IsDigit(c) by {
      assert rs[0] == ('0', '9');
    }
    AcceptsRepClass(g, rs, false, lo, Some(hi), s);
    AcceptsClass(g, rs, false, s);
  }

  lemma {:induction false} AcceptsDigitsFrom(g: Rules, from: char, to: char, lo: nat, hi: nat, s: string)
    ensures Accepts(g, Cat(DigitRange(from, to), MoreDigits(lo, hi)), s)
            <==> |s| >= 1 && from <= s[0] <= to && IsDigits(s[1..]) && lo <= |s| - 1 <= hi
  {
    AcceptsDigitRange(g, from, to, MoreDigits(lo, hi), s);
    if |s| >= 1 { AcceptsMoreDigits(g, lo, hi, s[1..]); }
  }

  lemma {:induction false} UniformExact(g: Rules, from: string, to: string, s: string)
    requires |from| == |to| && IsDigits(from) && IsDigits(to) && LexLeq(from, to)
    ensures Accepts(g, Uniform(from, to), s) <==> Between(from, s, to)
    decreases |from|, 1
  {
    hide Accepts, Between;
    var i := CommonPrefix(from, to);
    var p := from[..i];
    assert from == p + from[i..] && to == p + to[i..];
    if i == |from| {
      assert from[..i] == from == to;
      AcceptsLit(g, from, s);
      BetweenSame(from, s);
    } else {
      if i > 0 { CatLit(g, p, UniformSplit(from[i..], to[i..]), s); } else { assert from[0..] == from && to[0..] == to; }
      LexCancel(p, from[i..], to[i..]);
      BetweenAfter(p, from[i..], s, to[i..]);
      if p <= s { UniformSplitExact(g, from[i..], to[i..], s[i..]); }
    }
  }

  lemma {:induction false} BetweenSame(a: string, s: string)
    requires IsDigits(a)
    ensures Between(a, s, a) <==> s == a
  {
    LexReflexive(a);
    if Between(a, s, a) { LexAntisymmetric(a, s); }
  }

  // A common front is shared by everything in between.
  lemma {:induction false} BetweenAfter(p: string, a: string, s: string, b: string)
    requires |a| == |b| && IsDigits(p)
    ensures Between(p + a, s, p + b) <==> p <= s && Between(a, s[|p|..], b)
  {
    var i := |p|;
    if p <= s {
      var t := s[i..];
      assert s == p + t;
      if |t| == |a| {
        LexCancel(p, a, t);
        LexCancel(p, t, b);
      }
      assert IsDigits(s) <==> IsDigits(t) by {
        assert forall k :: 0 <= k < |s| ==> s[k] == if k < i then p[k] else t[k - i];
        assert forall k :: 0 <= k < |t| ==> t[k] == s[i + k];
      }
    } else if Between(p + a, s, p + b) {
      SandwichPrefix(p, p + a, s, p + b);
    }
  }

  lemma {:induction false} SandwichPrefix(p: string, a: string, s: string, b: string)
    requires |a| == |s| == |b| && p <= a && p <= b && LexLeq(a, s) && LexLeq(s, b)
    ensures p <= s
  {
    if p != [] {
      SandwichPrefix(p[1..], a[1..], s[1..], b[1..]);
      assert s == [s[0]] + s[1..] && p == [p[0]] + p[1..];
    }
  }

  lemma {:induction false} OneDigitBetween(from: string, s: string, to: string)
    requires |from| == |s| == |to| == 1 && IsDigits(from) && IsDigits(to)
    ensures Between(from, s, to) <==> from[0] <= s[0] <= to[0]
  {
    assert from[1..] == s[1..] == to[1..] == [];
    assert LexLeq(from[1..], s[1..]) && LexLeq(s[1..], to[1..]);
  }

  lemma {:induction false} UniformSplitExact(g: Rules, from: string, to: string, s: string)
    requires |from| == |to| && IsDigits(from) && IsDigits(to) && from != [] && from[0] != to[0] && LexLeq(from, to)
    ensures Accepts(g, UniformSplit(from, to), s) <==> Between(from, s, to)
    decreases |from|, 0
  {
    hide Accepts;
    var n := |from| - 1;
    if n == 0 {
      AcceptsClass(g, [(from[0], to[0])], false, s);
      assert [(from[0], to[0])][0] == (from[0], to[0]);
      if |s| == 1 { OneDigitBetween(from, s, to); }
    } else {
      var fromSub, toSub := from[1..], to[1..];
      var zeros, nines := Repeat('0', n), Repeat('9', n);
      LexExtremes(fromSub);
      LexExtremes(toSub);
      var e := UniformSplit(from, to);
      if |s| == |from| {
        if IsDigits(s[1..]) { LexExtremes(s[1..]); }
      }
      var last := Cat(DigitRange(to[0], to[0]), Uniform(zeros, toSub));
      assert Accepts(g, last, s) <==> |s| == n + 1 && IsDigits(s[1..]) && s[0] == to[0] && LexLeq(s[1..], toSub) by {
        AcceptsDigitRange(g, to[0], to[0], Uniform(zeros, toSub), s);
        if |s| >= 1 { UniformExact(g, zeros, toSub, s[1..]); }
      }
      if fromSub == zeros {
        AcceptsAlt(g, e.left, e.right, s);
        AcceptsDigitsFrom(g, from[0], Shift(to[0], -1), n, n, s);
      } else {
        var first := Cat(DigitRange(from[0], from[0]), Uniform(fromSub, nines));
        assert Accepts(g, first, s) <==> |s| == n + 1 && IsDigits(s[1..]) && s[0] == from[0] && LexLeq(fromSub, s[1..]) by {
          AcceptsDigitRange(g, from[0], from[0], Uniform(fromSub, nines), s);
          if |s| >= 1 { UniformExact(g, fromSub, nines, s[1..]); }
        }
        AcceptsAlt(g, e.left, e.right, s);
        if from[0] < Shift(to[0], -1) {
          if toSub == nines {
            AcceptsDigitsFrom(g, Shift(from[0], 1), to[0], n, n, s);
          } else {
            AcceptsAlt(g, e.right.left, e.right.right, s);
            AcceptsDigitsFrom(g, Shift(from[0], 1), Shift(to[0], -1), n, n, s);
          }
        }
      }
    }
  }

  // ---------- both bounds given ----------

  function LengthAlts(minS: string, maxS: string): (alts: seq<Expr>)
    requires Canonical(minS) && NumberText(maxS)
    ensures alts != []
    decreases |maxS| - |minS|
  {
    var n := |minS|;
    if n < |maxS| then
      [Uniform(minS, Repeat('9', n))] + LengthAlts("1" + Repeat('0', n), maxS)
    else
      [Uniform(minS, maxS)]
  }

  lemma {:induction false} LengthAltsExact(g: Rules, minS: string, maxS: string, s: string)
    requires Canonical(minS) && Canonical(maxS) && ShortLex(minS, maxS)
    ensures Accepts(g, AltAll(LengthAlts(minS, maxS)), s)
            <==> Canonical(s) && ShortLex(minS, s) && ShortLex(s, maxS)
    decreases |maxS| - |minS|
  {
    var n := |minS|;
    var alts := LengthAlts(minS, maxS);
    if n < |maxS| {
      var nines, next := Repeat('9', n), "1" + Repeat('0', n);
      LexExtremes(minS);
      UniformExact(g, minS, nines, s);
      AcceptsAlt(g, alts[0], AltAll(alts[1..]), s);
      assert alts[1..] == LengthAlts(next, maxS);
      PowerOfTenFirst(maxS, n);
      LengthAltsExact(g, next, maxS, s);
      if Canonical(s) {
        PowerOfTenFirst(s, n);
        if |s| == n {
          LexExtremes(s);
          assert s[0] != '0' || n == 1;
        }
      }
      if Between(minS, s, nines) { SandwichCanonical(minS, s); }
    } else {
      UniformExact(g, minS, maxS, s);
      if Between(minS, s, maxS) { SandwichCanonical(minS, s); }
    }
  }

  lemma {:induction false} SandwichCanonical(a: string, s: string)
    requires Canonical(a) && |s| == |a| && IsDigits(s) && LexLeq(a, s)
    ensures Canonical(s)
  {
  }

  // 10^n is the first canonical numeral of more than n digits.
  lemma {:induction false} PowerOfTenFirst(s: string, n: nat)
    requires Canonical(s) && n >= 1
    ensures Canonical("1" + Repeat('0', n))
    ensures ShortLex("1" + Repeat('0', n), s) <==> |s| > n
  {
    var p := "1" + Repeat('0', n);
    assert p[1..] == Repeat('0', n);
    if |s| == n + 1 {
      LexExtremes(s[1..]);
    }
  }

  lemma {:induction false} SignedIsText(n: int)
    ensures NumberText(Signed(n))
  {
    DecimalCanonical(if n < 0 then -n else n);
    if n < 0 { assert Signed(n)[1..] == Decimal(-n); }
  }

  // From a lower bound that is not negative to any upper bound.
  function Nonnegative(min: nat, max: int): Expr {
    DecimalCanonical(min);
    SignedIsText(max);
    AltAll(LengthAlts(Decimal(min), Signed(max)))
  }

  lemma {:induction false} NonnegativeExact(g: Rules, min: nat, max: nat, s: string)
    requires min <= max
    ensures Accepts(g, Nonnegative(min, max), s)
            <==> exists n: nat :: min <= n <= max && s == Decimal(n)
  {
    var a, b := Decimal(min), Decimal(max);
    DecimalCanonical(min);
    DecimalCanonical(max);
    ShortLexValue(a, b);
    LengthAltsExact(g, a, b, s);
    if Canonical(s) {
      ShortLexValue(a, s);
      ShortLexValue(s, b);
      CanonicalIsDecimal(s);
      assert min <= Value(s) <= max ==> s == Decimal(Value(s));
    }
    if n: nat :| min <= n <= max && s == Decimal(n) {
      DecimalCanonical(n);
    }
  }

  // ---------- the whole of build_min_max_int ----------

  // A bound equal to the int64 extreme means "no bound".
  predicate HasMin(min: int) { min != INT64_MIN }
  predicate HasMax(max: int) { max != INT64_MAX }

  predicate ValidArgs(min: int, max: int) {
    INT64_MIN <= min <= INT64_MAX && INT64_MIN < max <= INT64_MAX
  }

  function Rank(min: int, max: int): nat {
    if HasMin(min) && HasMax(max) then (if min < 0 then 3 else 0)
    else if HasMin(min) then (if min < 0 then 4 else 2)
    else if max >= 0 then 3 else 4
  }

  // Digits that may follow, for a single lower bound whose leading digits have been written.
  function LowerBound(min: nat, decimalsLeft: nat, topLevel: bool): Expr
    requires decimalsLeft >= 1
    decreases min
  {
    var less := if decimalsLeft - 1 > 1 then decimalsLeft - 1 else 1;
    if min == 0 then
      if topLevel then Alt(DigitRange('0', '0'), Cat(DigitRange('1', '9'), MoreDigits(0, less)))
      else MoreDigits(1, decimalsLeft)
    else if min <= 9 then
      var c := DigitChar(min);
      var start := if topLevel then '1' else '0';
      var above := Cat(DigitRange(c, '9'), MoreDigits(0, less));
      if c > start then Alt(Cat(DigitRange(start, Shift(c, -1)), MoreDigits(1, less)), above) else above
    else
      DecimalCanonical(min);
      var minS := Decimal(min);
      var c, len := minS[0], |minS|;
      TailSmaller(min);
      var same := Cat(DigitRange(c, c), LowerBound(Value(minS[1..]), less, false));
      var sameOrAbove := if c < '9' then Alt(same, Cat(DigitRange(Shift(c, 1), '9'), MoreDigits(len - 1, less))) else same;
      if c > '1' then
        Alt(Cat(DigitRange(if topLevel then '1' else '0', Shift(c, -1)), MoreDigits(len, less)), sameOrAbove)
      else sameOrAbove
  }

  lemma {:induction false} TailSmaller(n: nat)
    requires n >= 1
    ensures IsDigits(Decimal(n)) && Decimal(n) != [] && Value(Decimal(n)[1..]) < n
  {
    DecimalCanonical(n);
    var s := Decimal(n);
    ValueBound(s[1..]);
    LeadingDigitDecides(0, DigitVal(s[0]), Pow10(|s| - 1), Value(s[1..]), Value(s[1..]));
  }

  function MinMax(min: int, max: int, decimalsLeft: nat, topLevel: bool): (r: Result<Expr, string>)
    requires ValidArgs(min, max) && decimalsLeft >= 1
    decreases Rank(min, max)
  {
    if HasMin(min) && HasMax(max) then
      if min < 0 && max < 0 then
        Negated(MinMax(-max, -min, decimalsLeft, true))
      else if min < 0 then
        EitherOf(Negated(MinMax(0, -min, decimalsLeft, true)), Nonnegative(0, max))
      else
        Ok(Nonnegative(min, max))
    else if HasMin(min) then
      if min < 0 then
        EitherOf(Negated(MinMax(INT64_MIN, -min, decimalsLeft, false)),
                 Alt(DigitRange('0', '0'), Cat(DigitRange('1', '9'), MoreDigits(0, decimalsLeft - 1))))
      else
        Ok(LowerBound(min, decimalsLeft, topLevel))
    else if HasMax(max) then
      if max >= 0 then
        var less := if decimalsLeft - 1 > 1 then decimalsLeft - 1 else 1;
        var upTo := MinMax(0, max, decimalsLeft, true);
        if topLevel && upTo.Ok? then
          Ok(Alt(Cat(Lit("-"), Cat(DigitRange('1', '9'), MoreDigits(0, less))), upTo.value))
        else upTo
      else
        Negated(MinMax(-max, INT64_MAX, decimalsLeft, false))
    else
      Err("At least one of min_value or max_value must be set")
  }

  function Negated(r: Result<Expr, string>): Result<Expr, string> {
    if r.Ok? then Ok(Cat(Lit("-"), r.value)) else r
  }

  function EitherOf(r: Result<Expr, string>, e: Expr): Result<Expr, string> {
    if r.Ok? then Ok(Alt(r.value, e)) else r
  }

  // ---------- two-sided ranges: exactly the integers between the bounds, and "-0" ----------

  ghost predicate IsIntegerIn(s: string, min: int, max: int) {
    exists n :: min <= n <= max && s == Signed(n)
  }

  lemma {:induction false} AcceptsNegated(g: Rules, e: Expr, s: string)
    ensures Accepts(g, Cat(Lit("-"), e), s) <==> |s| >= 1 && s[0] == '-' && Accepts(g, e, s[1..])
  {
    CatLit(g, "-", e, s);
    assert "-" <= s <==> |s| >= 1 && s[0] == '-';
  }

  lemma {:induction false} IsDecimalIn(s: string, n: nat, lo: int, hi: int)
    requires lo <= n <= hi && s == Decimal(n)
    ensures exists m: nat :: lo <= m <= hi && s == Decimal(m)
  {
  }

  lemma {:induction false} TwoSidedExact(g: Rules, min: int, max: int, decimalsLeft: nat, topLevel: bool, s: string)
    requires -INT64_MAX < min <= max < INT64_MAX && decimalsLeft >= 1
    ensures MinMax(min, max, decimalsLeft, topLevel).Ok?
    ensures Accepts(g, MinMax(min, max, decimalsLeft, topLevel).value, s)
            <==> IsIntegerIn(s, min, max) || (s == "-0" && min < 0 <= max)
  {
    var lo, hi := if max < 0 then -max else 0, -min;
    if min < 0 {
      AcceptsNegated(g, Nonnegative(lo, hi), s);
      if |s| >= 1 {
        NonnegativeExact(g, lo, hi, s[1..]);
        assert s[0] == '-' ==> s == "-" + s[1..];
      }
      NegativeHalf(s, lo, hi);
      if max >= 0 {
        AcceptsAlt(g, Cat(Lit("-"), Nonnegative(0, hi)), Nonnegative(0, max), s);
        NonnegativeExact(g, 0, max, s);
        NonnegativeHalf(s, min, max);
      }
    } else {
      NonnegativeExact(g, min, max, s);
      if IsIntegerIn(s, min, max) {
        var n :| min <= n <= max && s == Signed(n);
        IsDecimalIn(s, n, min, max);
      }
      if n: nat :| min <= n <= max && s == Decimal(n) { assert s == Signed(n); }
    }
  }

  // "-" before a numeral of [lo, hi]: the negatives of that interval, or "-0".
  lemma {:induction false} NegativeHalf(s: string, lo: int, hi: int)
    requires 0 <= lo <= hi
    ensures (|s| >= 1 && s[0] == '-' && exists n: nat :: lo <= n <= hi && s[1..] == Decimal(n))
            <==> IsIntegerIn(s, -hi, if lo == 0 then -1 else -lo) || (s == "-0" && lo == 0)
  {
    assert Decimal(0) == "0";
    if |s| >= 1 && s[0] == '-' && exists n: nat :: lo <= n <= hi && s[1..] == Decimal(n) {
      var n: nat :| lo <= n <= hi && s[1..] == Decimal(n);
      assert s == "-" + s[1..];
      var k: int := -(n as int);
      if n > 0 { assert s == Signed(k); }
    }
    if n :| -hi <= n <= (if lo == 0 then -1 else -lo) && s == Signed(n) {
      assert s[1..] == Decimal(-n);
      IsDecimalIn(s[1..], -n, lo, hi);
    }
    if s == "-0" && lo == 0 { IsDecimalIn(s[1..], 0, lo, hi); }
  }

  lemma {:induction false} NonnegativeHalf(s: string, min: int, max: int)
    requires min < 0 <= max
    ensures IsIntegerIn(s, min, max)
            <==> IsIntegerIn(s, min, -1) || exists n: nat :: 0 <= n <= max && s == Decimal(n)
  {
    if n :| min <= n <= max && s == Signed(n) {
      if n >= 0 { IsDecimalIn(s, n, 0, max); } else { assert IsIntegerIn(s, min, -1); }
    }
    if n :| min <= n <= -1 && s == Signed(n) {
      assert IsIntegerIn(s, min, max);
    }
    if n: nat :| 0 <= n <= max && s == Decimal(n) { assert s == Signed(n); }
  }

  // ---------- bounds out of order: when nothing is accepted ----------

  // All digits but the last agree, and the last one falls.
  predicate LastFalls(a: string, b: string) {
    |a| == |b| && a != "" && a[..|a| - 1] == b[..|b| - 1] && a[|a| - 1] > b[|b| - 1]
  }

  lemma {:induction false} UniformNone(g: Rules, from: string, to: string, s: string)
    requires IsDigits(from) && IsDigits(to) && LastFalls(from, to)
    ensures !Accepts(g, Uniform(from, to), s)
  {
    hide Accepts;
    var i := CommonPrefix(from, to);
    var n := |from| - 1;
    assert forall k :: 0 <= k < n ==> from[k] == from[..n][k] == to[..n][k] == to[k];
    assert i == n;
    var hi, lo := from[n], to[n];
    assert from[i..] == [hi] && to[i..] == [lo];
    var last := DigitRange(hi, lo);
    forall t ensures !Accepts(g, last, t) {
      AcceptsClass(g, [(hi, lo)], false, t);
      assert [(hi, lo)][0] == (hi, lo);
    }
    if i > 0 { CatLit(g, from[..i], last, s); } else { assert from[0..] == from && to[0..] == to; }
  }

  lemma {:induction false} UniformSome(g: Rules, from: string, to: string) returns (s: string)
    requires IsDigits(from) && NumberText(to) && |to| <= |from| && !LastFalls(from, to)
    ensures Accepts(g, Uniform(from, to), s)
    decreases |from|, 1
  {
    hide Accepts;
    var i := CommonPrefix(from, to);
    var p := from[..i];
    if i == |from| || i == |to| {
      s := p;
      AcceptsLit(g, p, s);
    } else {
      var a, b := from[i..], to[i..];
      assert from == p + a && to == p + b;
      LaterFalls(p, a, b);
      var t := UniformSplitSome(g, a, b);
      s := p + t;
      assert s[i..] == t;
      if i > 0 { CatLit(g, p, UniformSplit(a, b), s); } else { assert from[0..] == from && to[0..] == to && s == t; }
    }
  }

  lemma {:induction false} LaterFalls(p: string, a: string, b: string)
    ensures LastFalls(a, b) ==> LastFalls(p + a, p + b)
  {
    if a != "" && b != "" {
      assert (p + a)[..|p + a| - 1] == p + a[..|a| - 1] && (p + b)[..|p + b| - 1] == p + b[..|b| - 1];
      assert (p + a)[|p + a| - 1] == a[|a| - 1] && (p + b)[|p + b| - 1] == b[|b| - 1];
    }
  }

  lemma {:induction false} FirstAgrees(a: string, b: string)
    ensures |a| > 1 && LastFalls(a, b) ==> a[0] == b[0]
  {
    if |a| > 1 && |b| > 1 { assert a[0] == a[..|a| - 1][0] && b[0] == b[..|b| - 1][0]; }
  }

  lemma {:induction false} UniformSplitSome(g: Rules, from: string, to: string) returns (s: string)
    requires IsDigits(from) && NumberText(to) && from != [] && to != [] && from[0] != to[0]
    requires |to| <= |from| && !LastFalls(from, to)
    ensures Accepts(g, UniformSplit(from, to), s)
    decreases |from|, 0
  {
    hide Accepts;
    var n := |from| - 1;
    if n == 0 {
      s := from;
      AcceptsClass(g, [(from[0], to[0])], false, s);
      assert [(from[0], to[0])][0] == (from[0], to[0]);
    } else {
      var fromSub, toSub := from[1..], to[1..];
      var zeros, nines := Repeat('0', n), Repeat('9', n);
      var e := UniformSplit(from, to);
      if fromSub != zeros && from[0] < Shift(to[0], -1) && toSub == nines {
        s := [to[0]] + toSub;
        assert s[1..] == toSub;
        AcceptsAlt(g, e.left, e.right, s);
        AcceptsDigitsFrom(g, Shift(from[0], 1), to[0], n, n, s);
      } else {
        var t := UniformSome(g, zeros, toSub);
        s := [to[0]] + t;
        assert s[1..] == t;
        AcceptsDigitRange(g, to[0], to[0], Uniform(zeros, toSub), s);
        AcceptsAlt(g, e.left, e.right, s);
        if e.right.Alt? { AcceptsAlt(g, e.right.left, e.right.right, s); }
      }
    }
  }

  lemma {:induction false} TensAgree(a: nat, b: nat)
    requires b < a
    ensures LastFalls(Decimal(a), Decimal(b)) <==> a / 10 == b / 10
  {
    var x, y := Decimal(a), Decimal(b);
    if a >= 10 {
      assert x[..|x| - 1] == Decimal(a / 10);
      assert |Decimal(a / 10)| >= 1 by { DecimalCanonical(a / 10); }
    }
    if b >= 10 {
      assert y[..|y| - 1] == Decimal(b / 10);
      assert |Decimal(b / 10)| >= 1 by { DecimalCanonical(b / 10); }
    }
    if a >= 10 && b >= 10 {
      DecimalCanonical(a / 10);
      DecimalCanonical(b / 10);
    }
  }

  lemma {:induction false} NonnegativeEmpty(g: Rules, min: nat, max: int)
    requires max < min
    ensures (forall s :: !Accepts(g, Nonnegative(min, max), s)) <==> max >= 0 && min / 10 == max / 10
  {
    hide Accepts;
    var a, b := Decimal(min), Signed(max);
    DecimalCanonical(min);
    SignedIsText(max);
    if max >= 0 {
      DecimalCanonical(max);
      ShortLexValue(a, b);
      TensAgree(min, max);
      if min / 10 == max / 10 {
        forall s ensures !Accepts(g, Nonnegative(min, max), s) { UniformNone(g, a, b, s); }
      } else {
        var s := UniformSome(g, a, b);
        assert Accepts(g, Nonnegative(min, max), s);
      }
    } else if |b| <= |a| {
      DecimalCanonical(-max);
      FirstAgrees(a, b);
      var s := UniformSome(g, a, b);
      assert Accepts(g, Nonnegative(min, max), s);
    } else {
      var nines := Repeat('9', |a|);
      LexExtremes(a);
      LexReflexive(a);
      UniformExact(g, a, nines, a);
      var alts := LengthAlts(a, b);
      AcceptsAlt(g, alts[0], AltAll(alts[1..]), a);
      assert Accepts(g, Nonnegative(min, max), a);
    }
  }

  predicate NothingBetween(min: int, max: int) {
    if max >= 0 then min / 10 == max / 10 else min < 0 && -max / 10 == -min / 10
  }

  // No integer is between bounds that are out of order, yet only if they are of one sign and differ in
  // nothing but the last digit does the rule accept nothing.
  lemma {:induction false} EmptyRangeExact(g: Rules, min: int, max: int, decimalsLeft: nat, topLevel: bool)
    requires INT64_MIN < max < min <= INT64_MAX && HasMax(max) && decimalsLeft >= 1
    ensures MinMax(min, max, decimalsLeft, topLevel).Ok?
    ensures (forall s :: !Accepts(g, MinMax(min, max, decimalsLeft, topLevel).value, s)) <==> NothingBetween(min, max)
  {
    hide Accepts, Nonnegative;
    if min < 0 {
      var e := Nonnegative(-max, -min);
      assert MinMax(min, max, decimalsLeft, topLevel) == Ok(Cat(Lit("-"), e));
      NonnegativeEmpty(g, -max, -min);
      forall s ensures Accepts(g, Cat(Lit("-"), e), s) <==> |s| >= 1 && s[0] == '-' && Accepts(g, e, s[1..]) {
        AcceptsNegated(g, e, s);
      }
      if t :| Accepts(g, e, t) {
        assert ("-" + t)[1..] == t;
        assert Accepts(g, Cat(Lit("-"), e), "-" + t);
      }
    } else {
      NonnegativeEmpty(g, min, max);
    }
  }

  // From 10 down to 5: twelve is accepted.
  lemma {:induction false} TenToFive(g: Rules, decimalsLeft: nat, topLevel: bool)
    requires decimalsLeft >= 1
    ensures MinMax(10, 5, decimalsLeft, topLevel).Ok? && Accepts(g, MinMax(10, 5, decimalsLeft, topLevel).value, "12")
  {
    hide Accepts;
    assert Decimal(10) == "10" && Signed(5) == "5";
    assert "10"[1..] == "0" == Repeat('0', 1) && "5"[1..] == "";
    var e := UniformSplit("10", "5");
    AcceptsAlt(g, e.left, e.right, "12");
    AcceptsDigitsFrom(g, '1', '4', 1, 1, "12");
    assert "12"[1..] == "2";
  }

  // ---------- a single bound: when the alternatives are exact ----------

  // Every digit but the last is at least 2.
  predicate Regular(r: string) {
    forall i :: 0 <= i < |r| - 1 ==> r[i] >= '2'
  }

  // `t` may follow when the numeral so far equals the bound's and `r` is the rest of the bound.
  predicate TailOk(r: string, t: string, decimalsLeft: nat) {
    IsDigits(t) && |t| <= decimalsLeft && ShortLex(r, t)
  }

  // The first digit of `t` decides, or equals the bound's and leaves the decision to the rest.
  predicate ByFirstDigit(r: string, t: string, decimalsLeft: nat, start: char, restOk: bool)
    requires r != [] && t != []
  {
    (t[0] == r[0] && restOk)
    || (IsDigits(t[1..]) && |t| <= decimalsLeft
        && ((r[0] < t[0] <= '9' && |t| >= |r|) || (start <= t[0] < r[0] && |t| > |r|)))
  }

  lemma {:induction false} LowerBoundSmall(g: Rules, min: nat, decimalsLeft: nat, topLevel: bool, s: string)
    requires 1 <= min <= 9 && decimalsLeft >= 2
    ensures var c := DigitChar(min);
            Accepts(g, LowerBound(min, decimalsLeft, topLevel), s)
            <==> |s| >= 1 && IsDigits(s[1..]) && |s| <= decimalsLeft
                 && (c <= s[0] <= '9' || ((if topLevel then '1' else '0') <= s[0] < c && |s| >= 2))
  {
    var c := DigitChar(min);
    var less := decimalsLeft - 1;
    var start := if topLevel then '1' else '0';
    var above := Cat(DigitRange(c, '9'), MoreDigits(0, less));
    AcceptsDigitsFrom(g, c, '9', 0, less, s);
    if c > start {
      AcceptsAlt(g, Cat(DigitRange(start, Shift(c, -1)), MoreDigits(1, less)), above, s);
      AcceptsDigitsFrom(g, start, Shift(c, -1), 1, less, s);
    }
  }

  lemma {:induction false} LowerBoundLarge(g: Rules, min: nat, decimalsLeft: nat, topLevel: bool, s: string)
    requires min >= 10 && decimalsLeft >= 2
    ensures Canonical(Decimal(min))
    ensures var r := Decimal(min); var start := if topLevel then '1' else '0';
            Accepts(g, LowerBound(min, decimalsLeft, topLevel), s)
            <==> |s| >= 1
                 && ByFirstDigit(r, s, decimalsLeft, if '1' < r[0] then start else r[0],
                                 Accepts(g, LowerBound(Value(r[1..]), decimalsLeft - 1, false), s[1..]))
  {
    DecimalCanonical(min);
    TailSmaller(min);
    var r, less := Decimal(min), decimalsLeft - 1;
    var c, len := r[0], |r|;
    var inner := LowerBound(Value(r[1..]), less, false);
    var same := Cat(DigitRange(c, c), inner);
    AcceptsDigitRange(g, c, c, inner, s);
    var sameOrAbove := if c < '9' then Alt(same, Cat(DigitRange(Shift(c, 1), '9'), MoreDigits(len - 1, less))) else same;
    if c < '9' {
      AcceptsAlt(g, same, Cat(DigitRange(Shift(c, 1), '9'), MoreDigits(len - 1, less)), s);
      AcceptsDigitsFrom(g, Shift(c, 1), '9', len - 1, less, s);
    }
    if c > '1' {
      var start := if topLevel then '1' else '0';
      var below := Cat(DigitRange(start, Shift(c, -1)), MoreDigits(len, less));
      AcceptsAlt(g, below, sameOrAbove, s);
      AcceptsDigitsFrom(g, start, Shift(c, -1), len, less, s);
    }
  }

  lemma {:induction false} SingleDigit(r: string)
    requires IsDigits(r) && |r| == 1
    ensures Value(r) == DigitVal(r[0]) && DigitChar(Value(r)) == r[0]
  {
    assert r[1..] == [];
  }

  lemma {:induction false} LongIsLarge(r: string)
    requires Canonical(r) && |r| >= 2
    ensures Value(r) >= 10 && Decimal(Value(r)) == r
  {
    CanonicalIsDecimal(r);
    CanonicalLow(r);
    Pow10Mono(1, |r| - 1);
    assert Pow10(1) == 10;
  }

  lemma {:induction false} InnerOneDigit(g: Rules, r: string, decimalsLeft: nat, t: string)
    requires IsDigits(r) && 1 == |r| < decimalsLeft
    ensures Accepts(g, LowerBound(Value(r), decimalsLeft, false), t) <==> TailOk(r, t, decimalsLeft)
  {
    SingleDigit(r);
    if r[0] == '0' {
      AcceptsMoreDigits(g, 1, decimalsLeft, t);
    } else {
      LowerBoundSmall(g, Value(r), decimalsLeft, false, t);
    }
    if |t| >= 1 {
      assert t == [t[0]] + t[1..];
      assert |t| == 1 ==> (LexLeq(r, t) <==> r[0] <= t[0]);
    }
  }

  lemma {:induction false} InnerExact(g: Rules, r: string, decimalsLeft: nat, t: string)
    requires IsDigits(r) && 1 <= |r| < decimalsLeft && Regular(r)
    ensures Accepts(g, LowerBound(Value(r), decimalsLeft, false), t) <==> TailOk(r, t, decimalsLeft)
  {
    if |r| == 1 {
      InnerOneDigit(g, r, decimalsLeft, t);
    } else {
      assert r[0] >= '2';
      LongIsLarge(r);
      LowerBoundLarge(g, Value(r), decimalsLeft, false, t);
      if |t| >= 1 {
        assert Regular(r[1..]) by {
          assert forall i :: 0 <= i < |r| - 2 ==> r[1..][i] == r[i + 1];
        }
        InnerExact(g, r[1..], decimalsLeft - 1, t[1..]);
      }
      TailOkByHead(r, t, decimalsLeft);
    }
  }

  lemma {:induction false} TailOkByHead(r: string, t: string, decimalsLeft: nat)
    requires IsDigits(r) && 2 <= |r| < decimalsLeft
    ensures TailOk(r, t, decimalsLeft)
            <==> |t| >= 1 && ByFirstDigit(r, t, decimalsLeft, '0', TailOk(r[1..], t[1..], decimalsLeft - 1))
  {
    if |t| >= 1 {
      assert t == [t[0]] + t[1..];
      assert IsDigits(t) <==> IsDigit(t[0]) && IsDigits(t[1..]);
    }
  }

  // Whatever the bound, some string no longer than its numeral is accepted.
  lemma {:induction false} ShortAccepted(g: Rules, n: nat, decimalsLeft: nat) returns (t: string)
    requires |Decimal(n)| < decimalsLeft
    ensures |t| <= |Decimal(n)| && Accepts(g, LowerBound(n, decimalsLeft, false), t)
    decreases n
  {
    if n <= 9 {
      t := [DigitChar(n)];
      if n == 0 { AcceptsMoreDigits(g, 1, decimalsLeft, t); } else { LowerBoundSmall(g, n, decimalsLeft, false, t); }
    } else {
      TailSmaller(n);
      DecimalCanonical(n);
      var r := Decimal(n);
      assert |r| >= 2;
      ValueShorter(r[1..]);
      var u := ShortAccepted(g, Value(r[1..]), decimalsLeft - 1);
      t := [r[0]] + u;
      assert t[1..] == u;
      LowerBoundLarge(g, n, decimalsLeft, false, t);
    }
  }

  // Reading digits as a number and printing it again never lengthens them.
  lemma {:induction false} ValueShorter(r: string)
    requires IsDigits(r) && r != []
    ensures |Decimal(Value(r))| <= |r|
  {
    var d := Decimal(Value(r));
    DecimalCanonical(Value(r));
    if |d| > |r| {
      CanonicalLow(d);
      ValueBound(r);
      Pow10Mono(|r|, |d| - 1);
    }
  }

  lemma {:induction false} LeadingZeroDropped(r: string)
    requires IsDigits(r) && |r| >= 2 && r[0] == '0'
    ensures |Decimal(Value(r))| < |r|
  {
    assert Value(r) == Value(r[1..]);
    ValueShorter(r[1..]);
  }

  lemma {:induction false} InnerInexact(g: Rules, r: string, decimalsLeft: nat) returns (t: string)
    requires IsDigits(r) && |r| + 1 <= decimalsLeft && !Regular(r)
    ensures Accepts(g, LowerBound(Value(r), decimalsLeft, false), t) != TailOk(r, t, decimalsLeft)
  {
    if r[0] == '0' {
      LeadingZeroDropped(r);
      t := ShortAccepted(g, Value(r), decimalsLeft);
    } else {
      LongIsLarge(r);
      if r[0] == '1' {
        t := Repeat('0', |r| + 1);
        LowerBoundLarge(g, Value(r), decimalsLeft, false, t);
      } else {
        var u := InnerInexact(g, r[1..], decimalsLeft - 1);
        t := [r[0]] + u;
        assert t[1..] == u;
        LowerBoundLarge(g, Value(r), decimalsLeft, false, t);
        assert IsDigits(t) <==> IsDigits(u) by {
          assert forall i :: 0 <= i < |u| ==> u[i] == t[i + 1];
        }
      }
    }
  }

  // ---------- one-sided ranges as the schema converter calls them (16 digits) ----------

  const DECIMALS: nat := 16
  const TEN_TO_15: int := 1_000_000_000_000_000

  // What a lower bound alone should accept: the integers that satisfy it, the non-negative ones
  // up to 16 digits.  "-0" is let through as well.
  ghost predicate MinAloneSpec(min: int, s: string) {
    (exists n :: min <= n && s == Signed(n) && (n >= 0 ==> |s| <= DECIMALS)) || (s == "-0" && min < 0)
  }

  // An upper bound alone: the negative integers up to 16 digits.
  ghost predicate MaxAloneSpec(max: int, s: string) {
    exists n :: n <= max && s == Signed(n) && (n < 0 ==> |s| <= DECIMALS + 1)
  }

  predicate MinAloneCondition(min: int) {
    min < 0 || Regular(Decimal(min)[1..])
  }

  predicate MaxAloneCondition(max: int) {
    max >= 0 || (|Decimal(-max)| >= 2 && Decimal(-max)[0] == '1' && Regular(Decimal(-max)[1..]))
  }

  // Canonical numerals of at most 16 digits that are at least `min`.
  predicate AtLeast(min: nat, s: string) {
    Canonical(s) && |s| <= DECIMALS && Value(s) >= min
  }

  lemma {:induction false} FifteenDigits(n: nat)
    requires n < TEN_TO_15
    ensures |Decimal(n)| <= 15
  {
    DecimalCanonical(n);
    assert Pow10(3) == 1000;
    assert Pow10(6) == 1000_000;
    assert Pow10(9) == 1000_000_000;
    assert Pow10(12) == 1000_000_000_000;
    assert Pow10(15) == TEN_TO_15;
    if |Decimal(n)| > 15 {
      CanonicalLow(Decimal(n));
      Pow10Mono(15, |Decimal(n)| - 1);
    }
  }

  lemma {:induction false} TopExact(g: Rules, min: nat, s: string)
    requires min < TEN_TO_15 && Regular(Decimal(min)[1..])
    ensures Accepts(g, LowerBound(min, DECIMALS, true), s) <==> AtLeast(min, s)
  {
    DecimalCanonical(min);
    FifteenDigits(min);
    var r := Decimal(min);
    if |s| >= 1 { assert s == [s[0]] + s[1..]; }
    if Canonical(s) { ShortLexValue(r, s); }
    if min == 0 {
      AcceptsAlt(g, DigitRange('0', '0'), Cat(DigitRange('1', '9'), MoreDigits(0, 15)), s);
      AcceptsClass(g, [('0', '0')], false, s);
      assert [('0', '0')][0] == ('0', '0');
      AcceptsDigitsFrom(g, '1', '9', 0, 15, s);
    } else if min <= 9 {
      LowerBoundSmall(g, min, DECIMALS, true, s);
    } else {
      LowerBoundLarge(g, min, DECIMALS, true, s);
      if |s| >= 1 { InnerExact(g, r[1..], 15, s[1..]); }
    }
  }

  lemma {:induction false} TopInexact(g: Rules, min: nat) returns (s: string)
    requires min < TEN_TO_15 && !Regular(Decimal(min)[1..])
    ensures Accepts(g, LowerBound(min, DECIMALS, true), s) != AtLeast(min, s)
  {
    DecimalCanonical(min);
    FifteenDigits(min);
    var r := Decimal(min);
    assert min >= 10;
    var u := InnerInexact(g, r[1..], 15);
    s := [r[0]] + u;
    assert s[1..] == u;
    LowerBoundLarge(g, min, DECIMALS, true, s);
    assert IsDigits(s) <==> IsDigits(u) by {
      assert forall i :: 0 <= i < |u| ==> u[i] == s[i + 1];
    }
    if Canonical(s) { ShortLexValue(r, s); }
  }

  lemma {:induction false} AtLeastIsDecimal(min: nat, s: string)
    ensures AtLeast(min, s) <==> exists n: nat :: min <= n && s == Decimal(n) && |s| <= DECIMALS
  {
    if AtLeast(min, s) { CanonicalIsDecimal(s); }
    if n: nat :| min <= n && s == Decimal(n) && |s| <= DECIMALS { DecimalCanonical(n); }
  }

  lemma {:induction false} MinAloneNonneg(min: nat, s: string)
    ensures MinAloneSpec(min, s) <==> AtLeast(min, s)
  {
    AtLeastIsDecimal(min, s);
    if n :| min <= n && s == Signed(n) && (n >= 0 ==> |s| <= DECIMALS) {
      var m: nat := n;
      assert s == Decimal(m);
    }
    if n: nat :| min <= n && s == Decimal(n) && |s| <= DECIMALS { assert s == Signed(n); }
  }

  lemma {:induction false} MinAloneNegative(g: Rules, min: int, s: string)
    requires -INT64_MAX < min < 0
    ensures MinMax(min, INT64_MAX, DECIMALS, true).Ok?
    ensures Accepts(g, MinMax(min, INT64_MAX, DECIMALS, true).value, s) <==> MinAloneSpec(min, s)
  {
    var below := Nonnegative(0, -min);
    assert MinMax(0, -min, DECIMALS, true) == Ok(below);
    assert MinMax(INT64_MIN, -min, DECIMALS, false) == Ok(below);
    var zero, above := DigitRange('0', '0'), Cat(DigitRange('1', '9'), MoreDigits(0, 15));
    AcceptsAlt(g, Cat(Lit("-"), below), Alt(zero, above), s);
    assert LowerBound(0, DECIMALS, true) == Alt(zero, above);
    assert Decimal(0)[1..] == "";
    TopExact(g, 0, s);
    MinAloneNonneg(0, s);
    AcceptsNegated(g, below, s);
    if |s| >= 1 { NonnegativeExact(g, 0, -min, s[1..]); }
    NegativeHalf(s, 0, -min);
    if n :| min <= n && s == Signed(n) && (n >= 0 ==> |s| <= DECIMALS) {
      if n < 0 { assert IsIntegerIn(s, min, -1); } else { assert MinAloneSpec(0, s); }
    }
    if n :| 0 <= n && s == Signed(n) && (n >= 0 ==> |s| <= DECIMALS) { assert MinAloneSpec(min, s); }
    if n :| min <= n <= -1 && s == Signed(n) { assert MinAloneSpec(min, s); }
  }

  // A lower bound alone is exact if and only if it is negative or none of its digits but the first
  // and the last is 0 or 1.
  lemma {:induction false} MinAloneExact(g: Rules, min: int)
    requires -INT64_MAX < min < TEN_TO_15
    ensures MinMax(min, INT64_MAX, DECIMALS, true).Ok?
    ensures (forall s :: Accepts(g, MinMax(min, INT64_MAX, DECIMALS, true).value, s) <==> MinAloneSpec(min, s))
            <==> MinAloneCondition(min)
  {
    if min < 0 {
      MinAloneNegative(g, min, "");
      forall s ensures Accepts(g, MinMax(min, INT64_MAX, DECIMALS, true).value, s) <==> MinAloneSpec(min, s) {
        MinAloneNegative(g, min, s);
      }
    } else if Regular(Decimal(min)[1..]) {
      forall s ensures Accepts(g, LowerBound(min, DECIMALS, true), s) <==> MinAloneSpec(min, s) {
        TopExact(g, min, s);
        MinAloneNonneg(min, s);
      }
    } else {
      var s := TopInexact(g, min);
      MinAloneNonneg(min, s);
    }
  }

  lemma {:induction false} MaxAloneNonneg(g: Rules, max: int, s: string)
    requires 0 <= max < INT64_MAX
    ensures MinMax(INT64_MIN, max, DECIMALS, true).Ok?
    ensures Accepts(g, MinMax(INT64_MIN, max, DECIMALS, true).value, s) <==> MaxAloneSpec(max, s)
  {
    var upTo, negative := Nonnegative(0, max), Cat(DigitRange('1', '9'), MoreDigits(0, 15));
    assert MinMax(0, max, DECIMALS, true) == Ok(upTo);
    AcceptsAlt(g, Cat(Lit("-"), negative), upTo, s);
    NonnegativeExact(g, 0, max, s);
    AcceptsNegated(g, negative, s);
    if |s| >= 1 {
      AcceptsDigitsFrom(g, '1', '9', 0, 15, s[1..]);
      NegativeNumeral(s);
    }
    if n :| n <= max && s == Signed(n) && (n < 0 ==> |s| <= DECIMALS + 1) {
      if n >= 0 { IsDecimalIn(s, n, 0, max); } else { DecimalCanonical(-n); }
    }
    if n: nat :| 0 <= n <= max && s == Decimal(n) { assert s == Signed(n); }
  }

  // "-" before a canonical numeral other than "0" prints exactly one negative integer.
  lemma {:induction false} NegativeNumeral(s: string)
    requires |s| >= 1
    ensures s[0] == '-' && Canonical(s[1..]) && s[1] != '0'
            ==> Value(s[1..]) > 0 && s == Signed(-(Value(s[1..]) as int))
  {
    if s[0] == '-' && Canonical(s[1..]) && s[1] != '0' {
      CanonicalIsDecimal(s[1..]);
      assert s == "-" + s[1..];
    }
  }

  lemma {:induction false} MaxAloneNegative(n: nat, s: string)
    requires n >= 1
    ensures MaxAloneSpec(-(n as int), s) <==> |s| >= 1 && s[0] == '-' && AtLeast(n, s[1..])
  {
    if m :| m <= -(n as int) && s == Signed(m) && (m < 0 ==> |s| <= DECIMALS + 1) {
      DecimalCanonical(-m);
      assert s[1..] == Decimal(-m);
    }
    if |s| >= 1 && s[0] == '-' && AtLeast(n, s[1..]) {
      if |s| == 2 { SingleDigit(s[1..]); }
      NegativeNumeral(s);
    }
  }

  // An upper bound alone is exact if and only if it is non-negative, or its numeral starts with 1,
  // has a second digit, and none between the first and the last is 0 or 1.
  lemma {:induction false} MaxAloneExact(g: Rules, max: int)
    requires -TEN_TO_15 < max < INT64_MAX
    ensures MinMax(INT64_MIN, max, DECIMALS, true).Ok?
    ensures (forall s :: Accepts(g, MinMax(INT64_MIN, max, DECIMALS, true).value, s) <==> MaxAloneSpec(max, s))
            <==> MaxAloneCondition(max)
  {
    if max >= 0 {
      MaxAloneNonneg(g, max, "");
      forall s ensures Accepts(g, MinMax(INT64_MIN, max, DECIMALS, true).value, s) <==> MaxAloneSpec(max, s) {
        MaxAloneNonneg(g, max, s);
      }
    } else {
      var n: nat := -max;
      var inner := LowerBound(n, DECIMALS, false);
      assert MinMax(INT64_MIN, max, DECIMALS, true) == Ok(Cat(Lit("-"), inner));
      DecimalCanonical(n);
      var r := Decimal(n);
      if MaxAloneCondition(max) {
        LongIsLarge(r);
        assert inner == LowerBound(n, DECIMALS, true);
        forall s ensures Accepts(g, Cat(Lit("-"), inner), s) <==> MaxAloneSpec(max, s) {
          AcceptsNegated(g, inner, s);
          MaxAloneNegative(n, s);
          if |s| >= 1 { TopExact(g, n, s[1..]); }
        }
      } else {
        var t := InnerWitness(g, n);
        var s := "-" + t;
        assert s[1..] == t;
        AcceptsNegated(g, inner, s);
        MaxAloneNegative(n, s);
      }
    }
  }

  lemma {:induction false} InnerWitness(g: Rules, n: nat) returns (t: string)
    requires 1 <= n < TEN_TO_15
    requires var r := Decimal(n); |r| == 1 || r[0] != '1' || !Regular(r[1..])
    ensures Accepts(g, LowerBound(n, DECIMALS, false), t) != AtLeast(n, t)
  {
    var r := Decimal(n);
    DecimalCanonical(n);
    FifteenDigits(n);
    if n <= 9 {
      t := "00";
      LowerBoundSmall(g, n, DECIMALS, false, t);
    } else if r[0] == '1' {
      assert LowerBound(n, DECIMALS, false) == LowerBound(n, DECIMALS, true);
      t := TopInexact(g, n);
    } else {
      t := Repeat('0', |r| + 1);
      LowerBoundLarge(g, n, DECIMALS, false, t);
    }
  }

  // The exception is thrown when neither bound is given, and also for the lower bound 1 - 2^63
  // alone, whose negation is the "no upper bound" value.
  lemma {:induction false} ThrowsExactly(min: int, max: int, decimalsLeft: nat, topLevel: bool)
    requires ValidArgs(min, max) && decimalsLeft >= 1
    ensures MinMax(min, max, decimalsLeft, topLevel).Err?
            <==> !HasMax(max) && (!HasMin(min) || min == -INT64_MAX)
  {
    if HasMin(min) && min < 0 {
      var upTo := MinMax(if HasMax(max) then (if max < 0 then -max else 0) else INT64_MIN, -min, decimalsLeft, HasMax(max));
      if min != -INT64_MAX {
        assert MinMax(0, -min, decimalsLeft, true).Ok?;
      }
    } else if !HasMin(min) && HasMax(max) {
      var inner := if max >= 0 then MinMax(0, max, decimalsLeft, true) else MinMax(-max, INT64_MAX, decimalsLeft, false);
      assert inner.Ok?;
    }
  }

  // A text of more than the permitted digits gets past no 0 that comes before they are used up.
  lemma {:induction false} ZeroStops(g: Rules, n: nat, decimalsLeft: nat, topLevel: bool, s: string, k: nat)
    requires decimalsLeft >= 2 && |s| > decimalsLeft && k < decimalsLeft - 1 && s[k] == '0'
    ensures !Accepts(g, LowerBound(n, decimalsLeft, topLevel), s)
    decreases decimalsLeft
  {
    hide Accepts;
    if n == 0 {
      AcceptsMoreDigits(g, 1, decimalsLeft, s);
      AcceptsAlt(g, DigitRange('0', '0'), Cat(DigitRange('1', '9'), MoreDigits(0, decimalsLeft - 1)), s);
      AcceptsClass(g, [('0', '0')], false, s);
      AcceptsDigitsFrom(g, '1', '9', 0, decimalsLeft - 1, s);
    } else if n <= 9 {
      LowerBoundSmall(g, n, decimalsLeft, topLevel, s);
    } else {
      LowerBoundLarge(g, n, decimalsLeft, topLevel, s);
      DecimalCanonical(n);
      if k > 0 && decimalsLeft > 2 { ZeroStops(g, Value(Decimal(n)[1..]), decimalsLeft - 1, false, s[1..], k - 1); }
    }
  }

  predicate EighthIsZero(n: nat) { |Decimal(n)| > 7 && Decimal(n)[7] == '0' }

  lemma {:induction false} OneDigitMore(q: nat, n: nat)
    requires EighthIsZero(q) && n / 10 == q
    ensures EighthIsZero(n)
  {
  }

  lemma {:induction false} EightDigits()
    ensures EighthIsZero(92233720)
  {
    assert |Decimal(9223)| == 4;
    assert |Decimal(9223372)| == 7;
  }

  // INT64_MAX is 9223372036854775807.
  lemma {:induction false} MaxNumeral()
    ensures EighthIsZero(INT64_MAX)
  {
    EightDigits();
    hide EighthIsZero;
    OneDigitMore(92233720, 922337203);
    OneDigitMore(922337203, 9223372036);
    OneDigitMore(9223372036, 92233720368);
    OneDigitMore(92233720368, 922337203685);
    OneDigitMore(922337203685, 9223372036854);
    OneDigitMore(9223372036854, 92233720368547);
    OneDigitMore(92233720368547, 922337203685477);
    OneDigitMore(922337203685477, 9223372036854775);
    OneDigitMore(9223372036854775, 92233720368547758);
    OneDigitMore(92233720368547758, 922337203685477580);
    OneDigitMore(922337203685477580, INT64_MAX);
  }

  lemma {:induction false} NegatedCollision(g: Rules, max: int, d: string)
    requires -INT64_MAX <= max < 0 && d == Decimal(INT64_MAX) && |d| > DECIMALS
    ensures MinMax(-INT64_MAX, max, DECIMALS, true).Ok?
    ensures !Accepts(g, MinMax(-INT64_MAX, max, DECIMALS, true).value, "-" + d)
  {
    hide Accepts, LowerBound;
    MaxNumeral();
    hide Decimal;
    var e := LowerBound(-max, DECIMALS, true);
    assert MinMax(-INT64_MAX, max, DECIMALS, true) == Ok(Cat(Lit("-"), e));
    ZeroStops(g, -max, DECIMALS, true, d, 7);
    AcceptsNegated(g, e, "-" + d);
    assert ("-" + d)[1..] == d;
  }

  // 1 - 2^63 is also the one lower bound that is not exact: its negation reads as "no upper bound", so the
  // negative half is written as if it were unbounded, and 1 - 2^63 itself is not accepted.
  lemma {:induction false} SentinelCollision(g: Rules, max: int) returns (s: string)
    requires -INT64_MAX <= max < INT64_MAX
    ensures MinMax(-INT64_MAX, max, DECIMALS, true).Ok?
    ensures IsIntegerIn(s, -INT64_MAX, max) && !Accepts(g, MinMax(-INT64_MAX, max, DECIMALS, true).value, s)
  {
    hide Accepts, LowerBound, Nonnegative, Decimal, Value;
    var d := Decimal(INT64_MAX);
    DecimalCanonical(INT64_MAX);
    s := "-" + d;
    assert s[1..] == d && s == Signed(-INT64_MAX);
    LongMax(d);
    if max < 0 {
      NegatedCollision(g, max, d);
      return;
    }
    var negative, upTo := Cat(Lit("-"), LowerBound(0, DECIMALS, true)), Nonnegative(0, max);
    assert MinMax(0, INT64_MAX, DECIMALS, true) == Ok(LowerBound(0, DECIMALS, true));
    assert MinMax(-INT64_MAX, max, DECIMALS, true) == Ok(Alt(negative, upTo));
    AcceptsAlt(g, negative, upTo, s);
    AcceptsNegated(g, LowerBound(0, DECIMALS, true), s);
    ZeroRegular();
    TopExact(g, 0, d);
    NonnegativeExact(g, 0, max, s);
    if n: nat :| 0 <= n <= max && s == Decimal(n) { DecimalCanonical(n); }
  }

  lemma {:induction false} ZeroRegular()
    ensures Regular(Decimal(0)[1..])
  {
  }

  lemma {:induction false} LongMax(d: string)
    requires IsDigits(d) && Value(d) == INT64_MAX
    ensures |d| > 16
  {
    hide Value;
    assert Pow10(4) == 10_000;
    assert Pow10(8) == 100_000_000;
    assert Pow10(12) == 1_000_000_000_000;
    assert Pow10(16) == 10_000_000_000_000_000;
    ValueBound(d);
    if |d| <= 16 { Pow10Mono(|d|, 16); }
  }

  // ---------- the loops ----------

  method UniformRange(from: string, to: string) returns (e: Expr)
    requires IsDigits(from) && NumberText(to)
    ensures e == Uniform(from, to)
    decreases |from|, 1
  {
    assert from[0..] == from && to[0..] == to;
    var i := 0;
    while i < |from| && i < |to| && from[i] == to[i]
      invariant i <= |from| && i <= |to| && NumberText(to[i..])
      invariant CommonPrefix(from, to) == i + CommonPrefix(from[i..], to[i..])
    {
      assert from[i..][1..] == from[i + 1..] && to[i..][1..] == to[i + 1..];
      i := i + 1;
    }
    if i == |from| || i == |to| {
      return Lit(from[..i]);
    }
    e := UniformRest(from[i..], to[i..]);
    if i > 0 {
      e := Cat(Lit(from[..i]), e);
    }
  }

  method UniformRest(from: string, to: string) returns (e: Expr)
    requires IsDigits(from) && NumberText(to) && from != [] && to != [] && from[0] != to[0]
    ensures e == UniformSplit(from, to)
    decreases |from|, 0
  {
    var n := |from| - 1;
    if n == 0 {
      return DigitRange(from[0], to[0]);
    }
    var fromSub, toSub := from[1..], to[1..];
    var zeros, nines := Repeat('0', n), Repeat('9', n);
    var alts: seq<Expr> := [];
    var toReached := false;
    if fromSub == zeros {
      alts := [Cat(DigitRange(from[0], Shift(to[0], -1)), MoreDigits(n, n))];
    } else {
      var above := UniformRange(fromSub, nines);
      alts := [Cat(DigitRange(from[0], from[0]), above)];
      if from[0] < Shift(to[0], -1) {
        if toSub == nines {
          alts := alts + [Cat(DigitRange(Shift(from[0], 1), to[0]), MoreDigits(n, n))];
          toReached := true;
        } else {
          alts := alts + [Cat(DigitRange(Shift(from[0], 1), Shift(to[0], -1)), MoreDigits(n, n))];
        }
      }
    }
    if !toReached {
      var below := UniformRange(zeros, toSub);
      alts := alts + [Cat(DigitRange(to[0], to[0]), below)];
    }
    AltAllShort(alts);
    e := AltAll(alts);
  }

  method NonnegativeRange(min: nat, max: int) returns (e: Expr)
    ensures e == Nonnegative(min, max)
  {
    DecimalCanonical(min);
    SignedIsText(max);
    var minS, maxS := Decimal(min), Signed(max);
    var alts: seq<Expr> := [];
    var digits := |minS|;
    while digits < |maxS|
      invariant digits == |minS| && Canonical(minS)
      invariant alts + LengthAlts(minS, maxS) == LengthAlts(Decimal(min), maxS)
    {
      var part := UniformRange(minS, Repeat('9', digits));
      alts := alts + [part];
      minS := "1" + Repeat('0', digits);
      digits := digits + 1;
    }
    var last := UniformRange(minS, maxS);
    alts := alts + [last];
    e := AltAll(alts);
  }

  method BuildMinMaxInt(minValue: int, max: int, decimalsLeft: nat, topLevel: bool) returns (r: Result<Expr, string>)
    requires ValidArgs(minValue, max) && decimalsLeft >= 1
    ensures r == MinMax(minValue, max, decimalsLeft, topLevel)
    decreases Rank(minValue, max)
  {
    if HasMin(minValue) && HasMax(max) {
      var min := minValue;
      if min < 0 && max < 0 {
        r := BuildMinMaxInt(-max, -min, decimalsLeft, true);
        return Negated(r);
      }
      if min < 0 {
        r := BuildMinMaxInt(0, -min, decimalsLeft, true);
        if r.Err? { return; }
        min := 0;
      }
      var e := NonnegativeRange(min, max);
      r := Ok(if minValue < 0 then Alt(Cat(Lit("-"), r.value), e) else e);
    } else if HasMin(minValue) {
      if minValue < 0 {
        r := BuildMinMaxInt(INT64_MIN, -minValue, decimalsLeft, false);
        r := EitherOf(Negated(r), Alt(DigitRange('0', '0'), Cat(DigitRange('1', '9'), MoreDigits(0, decimalsLeft - 1))));
      } else {
        r := Ok(LowerBound(minValue, decimalsLeft, topLevel));
      }
    } else if HasMax(max) {
      if max >= 0 {
        r := BuildMinMaxInt(0, max, decimalsLeft, true);
        if topLevel && r.Ok? {
          var less := if decimalsLeft - 1 > 1 then decimalsLeft - 1 else 1;
          r := Ok(Alt(Cat(Lit("-"), Cat(DigitRange('1', '9'), MoreDigits(0, less))), r.value));
        }
      } else {
        r := BuildMinMaxInt(-max, INT64_MAX, decimalsLeft, false);
        r := Negated(r);
      }
    } else {
      r := Err("At least one of min_value or max_value must be set");
    }
  }
}
