/** Which rule names the generated expressions use: none for integer ranges, only defined ones for
    patterns, excluded keys and objects. */
module SchemaNames {
  import opened Basics
  import opened Decimals
  import opened Gbnf
  import opened RuleStore
  import opened Primitives
  import IntRange
  import NotStrings
  import ObjectRule
  import Pattern

  // ---------- integer ranges use no rules ----------

  lemma {:induction false} NoNames(a: Expr, b: Expr)
    requires Names(a) == {} == Names(b)
    ensures Names(Cat(a, b)) == {} == Names(Alt(a, b))
  {
  }

  lemma {:induction false} DigitsNoNames(from: char, to: char, lo: nat, hi: nat)
    ensures Names(IntRange.DigitRange(from, to)) == {} == Names(IntRange.MoreDigits(lo, hi))
    ensures Names(Cat(IntRange.DigitRange(from, to), IntRange.MoreDigits(lo, hi))) == {}
  {
  }

  lemma {:induction false} UniformNames(from: string, to: string)
    requires IsDigits(from) && IntRange.NumberText(to)
    ensures Names(IntRange.Uniform(from, to)) == {}
    decreases |from|, 1
  {
    var i := IntRange.CommonPrefix(from, to);
    if i == |from| || i == |to| {
    } else if i > 0 {
      SplitNames(from[i..], to[i..]);
    } else {
      SplitNames(from, to);
    }
  }

  lemma {:induction false} SplitNames(from: string, to: string)
    requires IsDigits(from) && IntRange.NumberText(to) && from != [] && to != [] && from[0] != to[0]
    ensures Names(IntRange.UniformSplit(from, to)) == {}
    decreases |from|, 0
  {
    if |from| > 1 {
      hide IntRange.Uniform, IntRange.UniformSplit, Names;
      UniformNames(Repeat('0', |from| - 1), to[1..]);
      UniformNames(from[1..], Repeat('9', |from| - 1));
      FormsNames(from, to);
    } else {
      DigitsNoNames(from[0], to[0], 0, 0);
    }
  }

  lemma {:induction false} FormsNames(from: string, to: string)
    requires IsDigits(from) && IntRange.NumberText(to) && |from| > 1 && to != [] && from[0] != to[0]
    requires Names(IntRange.Uniform(from[1..], Repeat('9', |from| - 1))) == {}
    requires Names(IntRange.Uniform(Repeat('0', |from| - 1), to[1..])) == {}
    ensures Names(IntRange.UniformSplit(from, to)) == {}
  {
    hide *;
    FirstDigits(from, to);
    SplitForms(from, to);
    SplitParts(from[0], to[0], |from| - 1, IntRange.Uniform(from[1..], Repeat('9', |from| - 1)), IntRange.Uniform(Repeat('0', |from| - 1), to[1..]));
  }

  lemma {:induction false} FirstDigits(a: string, b: string)
    requires a != [] && b != [] && IsDigits(a) && IntRange.NumberText(b)
    ensures IsDigit(a[0]) && (IsDigit(b[0]) || b[0] == '-') && IsDigits(a[1..]) && IsDigits(b[1..]) && IsDigits(Repeat('0', |a| - 1)) && IsDigits(Repeat('9', |a| - 1))
    ensures IntRange.NumberText(b[1..]) && IntRange.NumberText(Repeat('9', |a| - 1))
  {
  }

  lemma {:induction false} SplitForms(from: string, to: string)
    requires IsDigits(from) && IntRange.NumberText(to) && |from| > 1 && to != [] && from[0] != to[0]
    requires IsDigit(from[0]) && (IsDigit(to[0]) || to[0] == '-') && IsDigits(from[1..]) && IsDigits(to[1..])
    requires IsDigits(Repeat('0', |from| - 1)) && IsDigits(Repeat('9', |from| - 1))
    ensures var n := |from| - 1;
            var first := Cat(IntRange.DigitRange(from[0], from[0]), IntRange.Uniform(from[1..], Repeat('9', n)));
            var last := Cat(IntRange.DigitRange(to[0], to[0]), IntRange.Uniform(Repeat('0', n), to[1..]));
            var next, before := IntRange.Shift(from[0], 1), IntRange.Shift(to[0], -1);
            var e := IntRange.UniformSplit(from, to);
            || e == Alt(Cat(IntRange.DigitRange(from[0], before), IntRange.MoreDigits(n, n)), last)
            || e == Alt(first, Cat(IntRange.DigitRange(next, to[0]), IntRange.MoreDigits(n, n)))
            || e == Alt(first, Alt(Cat(IntRange.DigitRange(next, before), IntRange.MoreDigits(n, n)), last))
            || e == Alt(first, last)
  {
    hide IntRange.Uniform, IntRange.DigitRange, IntRange.MoreDigits, IntRange.Shift;
  }

  lemma {:induction false} SplitParts(a: char, b: char, n: nat, low: Expr, high: Expr)
    requires IsDigit(a) && (IsDigit(b) || b == '-') && Names(low) == {} == Names(high)
    ensures var first, last := Cat(IntRange.DigitRange(a, a), low), Cat(IntRange.DigitRange(b, b), high);
            var next, before := IntRange.Shift(a, 1), IntRange.Shift(b, -1);
            && Names(Alt(Cat(IntRange.DigitRange(a, before), IntRange.MoreDigits(n, n)), last)) == {}
            && Names(Alt(first, Cat(IntRange.DigitRange(next, b), IntRange.MoreDigits(n, n)))) == {}
            && Names(Alt(first, Alt(Cat(IntRange.DigitRange(next, before), IntRange.MoreDigits(n, n)), last))) == {}
            && Names(Alt(first, last)) == {}
  {
    hide IntRange.DigitRange, IntRange.MoreDigits, IntRange.Shift;
    var next, before := IntRange.Shift(a, 1), IntRange.Shift(b, -1);
    DigitsNoNames(a, a, n, n);
    DigitsNoNames(b, b, n, n);
    DigitsNoNames(a, before, n, n);
    DigitsNoNames(next, b, n, n);
    DigitsNoNames(next, before, n, n);
    var first, last := Cat(IntRange.DigitRange(a, a), low), Cat(IntRange.DigitRange(b, b), high);
    var middle := Cat(IntRange.DigitRange(next, before), IntRange.MoreDigits(n, n));
    hide Names;
    NoNames(IntRange.DigitRange(a, a), low);
    NoNames(IntRange.DigitRange(b, b), high);
    NoNames(Cat(IntRange.DigitRange(a, before), IntRange.MoreDigits(n, n)), last);
    NoNames(first, Cat(IntRange.DigitRange(next, b), IntRange.MoreDigits(n, n)));
    NoNames(middle, last);
    NoNames(first, Alt(middle, last));
    NoNames(first, last);
  }

  lemma {:induction false} LengthNames(minS: string, maxS: string)
    requires Canonical(minS) && IntRange.NumberText(maxS)
    ensures Names(AltAll(IntRange.LengthAlts(minS, maxS))) == {}
    decreases |maxS| - |minS|
  {
    hide IntRange.Uniform;
    var n := |minS|;
    if n < |maxS| {
      UniformNames(minS, Repeat('9', n));
      LengthNames("1" + Repeat('0', n), maxS);
      var alts := IntRange.LengthAlts(minS, maxS);
      assert alts[1..] == IntRange.LengthAlts("1" + Repeat('0', n), maxS);
    } else {
      UniformNames(minS, maxS);
    }
  }

  lemma {:induction false} NonnegativeNames(min: nat, max: int)
    ensures Names(IntRange.Nonnegative(min, max)) == {}
  {
    DecimalCanonical(min);
    IntRange.SignedIsText(max);
    LengthNames(Decimal(min), Signed(max));
  }

  lemma {:induction false} LowerBoundNames(min: nat, decimalsLeft: nat, topLevel: bool)
    requires decimalsLeft >= 1
    ensures Names(IntRange.LowerBound(min, decimalsLeft, topLevel)) == {}
    decreases min
  {
    if min > 9 {
      LargeBoundNames(min, decimalsLeft, topLevel);
    } else {
      assert forall c, d, n, m :: Names(Cat(IntRange.DigitRange(c, d), IntRange.MoreDigits(n, m))) == {} by {
        forall c, d, n: nat, m: nat ensures Names(Cat(IntRange.DigitRange(c, d), IntRange.MoreDigits(n, m))) == {} {
          DigitsNoNames(c, d, n, m);
        }
      }
    }
  }

  lemma {:induction false} LargeBoundNames(min: nat, decimalsLeft: nat, topLevel: bool)
    requires decimalsLeft >= 1 && min > 9
    ensures Names(IntRange.LowerBound(min, decimalsLeft, topLevel)) == {}
    decreases min, 0
  {
    DecimalCanonical(min);
    IntRange.TailSmaller(min);
    var less := if decimalsLeft - 1 > 1 then decimalsLeft - 1 else 1;
    var minS := Decimal(min);
    var c, len := minS[0], |minS|;
    var tail := IntRange.LowerBound(Value(minS[1..]), less, false);
    LowerBoundNames(Value(minS[1..]), less, false);
    hide Decimal, Value, IntRange.DigitRange, IntRange.MoreDigits;
    DigitsNoNames(c, c, 0, 0);
    NoNames(IntRange.DigitRange(c, c), tail);
    var same := Cat(IntRange.DigitRange(c, c), tail);
    var sameOrAbove := same;
    if c < '9' {
      var above := Cat(IntRange.DigitRange(IntRange.Shift(c, 1), '9'), IntRange.MoreDigits(len - 1, less));
      DigitsNoNames(IntRange.Shift(c, 1), '9', len - 1, less);
      NoNames(same, above);
      sameOrAbove := Alt(same, above);
    }
    if c > '1' {
      var from := if topLevel then '1' else '0';
      DigitsNoNames(from, IntRange.Shift(c, -1), len, less);
      NoNames(Cat(IntRange.DigitRange(from, IntRange.Shift(c, -1)), IntRange.MoreDigits(len, less)), sameOrAbove);
    }
  }

  lemma {:induction false} MinMaxNames(min: int, max: int, decimalsLeft: nat, topLevel: bool)
    requires IntRange.ValidArgs(min, max) && decimalsLeft >= 1
    ensures var r := IntRange.MinMax(min, max, decimalsLeft, topLevel); r.Ok? ==> Names(r.value) == {}
    decreases IntRange.Rank(min, max)
  {
    hide IntRange.Nonnegative, IntRange.LowerBound;
    if IntRange.HasMin(min) && IntRange.HasMax(max) {
      if min < 0 && max < 0 {
        MinMaxNames(-max, -min, decimalsLeft, true);
      } else if min < 0 {
        var upTo := IntRange.MinMax(0, -min, decimalsLeft, true);
        MinMaxNames(0, -min, decimalsLeft, true);
        NonnegativeNames(0, max);
        if upTo.Ok? {
          NoNames(Lit("-"), upTo.value);
          NoNames(Cat(Lit("-"), upTo.value), IntRange.Nonnegative(0, max));
        }
      } else {
        NonnegativeNames(min, max);
      }
    } else if IntRange.HasMin(min) {
      if min < 0 {
        var upTo := IntRange.MinMax(IntRange.INT64_MIN, -min, decimalsLeft, false);
        MinMaxNames(IntRange.INT64_MIN, -min, decimalsLeft, false);
        var zero, above := IntRange.DigitRange('0', '0'), Cat(IntRange.DigitRange('1', '9'), IntRange.MoreDigits(0, decimalsLeft - 1));
        DigitsNoNames('1', '9', 0, decimalsLeft - 1);
        NoNames(zero, above);
        if upTo.Ok? {
          NoNames(Lit("-"), upTo.value);
          NoNames(Cat(Lit("-"), upTo.value), Alt(zero, above));
        }
      } else {
        LowerBoundNames(min, decimalsLeft, topLevel);
      }
    } else if IntRange.HasMax(max) {
      if max >= 0 {
        MinMaxNames(0, max, decimalsLeft, true);
        var less := if decimalsLeft - 1 > 1 then decimalsLeft - 1 else 1;
        var below := Cat(IntRange.DigitRange('1', '9'), IntRange.MoreDigits(0, less));
        DigitsNoNames('1', '9', 0, less);
        NoNames(Lit("-"), below);
      } else { MinMaxNames(-max, IntRange.INT64_MAX, decimalsLeft, false); }
    }
  }

  // ---------- excluded keys ----------

  lemma {:induction false} ConcatNames(a: seq<Expr>, b: seq<Expr>, allowed: set<string>)
    requires forall i :: 0 <= i < |a| ==> Names(a[i]) <= allowed
    requires forall i :: 0 <= i < |b| ==> Names(b[i]) <= allowed
    ensures forall i :: 0 <= i < |a + b| ==> Names((a + b)[i]) <= allowed
  {
    hide Names;
  }

  lemma {:induction false} TrieNames(t: NotStrings.Trie)
    requires t.children != []
    ensures Names(NotStrings.Visit(t)) <= {"char"}
    decreases t, 1
  {
    var alts, last := NotStrings.EdgeAlts(t.children), Cat(Class(NotStrings.Rejects(t.children), true), Rep(NotStrings.CharRule(), 0, None));
    EdgesNames(t.children);
    ConcatNames(alts, [last], {"char"});
    AltAllNames(alts + [last], {"char"});
  }

  lemma {:induction false} EdgesNames(es: seq<NotStrings.Edge>)
    ensures forall i :: 0 <= i < |NotStrings.EdgeAlts(es)| ==> Names(NotStrings.EdgeAlts(es)[i]) <= {"char"}
    decreases es, 0
  {
    forall i | 0 <= i < |es| ensures Names(NotStrings.EdgeExpr(es[i])) <= {"char"} {
      EdgeNames(es[i]);
    }
  }

  lemma {:induction false} EdgeNames(e: NotStrings.Edge)
    ensures Names(NotStrings.EdgeExpr(e)) <= {"char"}
    decreases e, 2
  {
    if e.sub.children != [] { TrieNames(e.sub); }
  }

  lemma {:induction false} NotStringsNames(strings: seq<string>)
    ensures Names(NotStrings.NotStringsExpr(strings)) <= {"char", "space"}
  {
    var t := NotStrings.TrieOf(strings);
    if t.children != [] { TrieNames(t); }
    hide NotStrings.TrieOf, NotStrings.Visit;
    CatAllNames([NotStrings.OneChar('"'), NotStrings.Body(t), NotStrings.OneChar('"'), Ref("space")], {"char", "space"});
  }

  // ---------- patterns ----------

  predicate ItemsWithin(items: seq<Pattern.Item>, allowed: set<string>) {
    forall k :: 0 <= k < |items| ==> items[k].Rule? ==> Names(items[k].e) <= allowed
  }

  ghost predicate StateWithin(st: Pattern.PState, promised: set<string>) {
    ClosedBut(st.rules, promised) && forall e :: e in st.subIds ==> st.subIds[e] in st.rules
  }

  lemma {:induction false} MergedWithin(acc: string, items: seq<Pattern.Item>, allowed: set<string>)
    requires ItemsWithin(items, allowed)
    ensures ItemsWithin(Pattern.Merged(acc, items), allowed)
    decreases |items|
  {
    hide Names;
    if items != [] {
      assert forall k :: 0 <= k < |items[1..]| ==> items[1..][k] == items[k + 1];
      if items[0].Literal? { MergedWithin(acc + items[0].text, items[1..], allowed); } else { MergedWithin("", items[1..], allowed); }
    }
  }

  lemma {:induction false} ReadWithin(es: seq<Expr>, items: seq<Pattern.Item>, allowed: set<string>)
    requires ItemsWithin(items, allowed) && forall i :: 0 <= i < |es| ==> Names(es[i]) <= allowed
    ensures Names(Pattern.ReadRule(es, items)) <= allowed
    decreases |items|
  {
    if items == [] {
      CatAllNames(es, allowed);
    } else {
      assert forall k :: 0 <= k < |items[1..]| ==> items[1..][k] == items[k + 1];
      if items[0].Bar? {
        CatAllNames(es, allowed);
        ReadWithin([], items[1..], allowed);
      } else {
        ItemWithin(items, 0, allowed);
        hide Names;
        ReadWithin(es + [Pattern.ToRule(items[0])], items[1..], allowed);
      }
    }
  }

  lemma {:induction false} ItemWithin(items: seq<Pattern.Item>, k: nat, allowed: set<string>)
    requires ItemsWithin(items, allowed) && k < |items| && !items[k].Bar?
    ensures Names(Pattern.ToRule(items[k])) <= allowed
  {
  }

  lemma {:induction false} JoinWithin(items: seq<Pattern.Item>, allowed: set<string>)
    requires ItemsWithin(items, allowed)
    ensures Names(Pattern.JoinSeq(items)) <= allowed
  {
    hide Names, Pattern.Merged;
    MergedWithin("", items, allowed);
    ReadWithin([], Pattern.Merged("", items), allowed);
  }

  lemma {:induction false} MoreAllowed(items: seq<Pattern.Item>, it: Pattern.Item, small: set<string>, large: set<string>)
    requires ItemsWithin(items, small) && small <= large && (it.Rule? ==> Names(it.e) <= large)
    ensures ItemsWithin(items, large) && ItemsWithin(items + [it], large)
    ensures items != [] ==> ItemsWithin(items[|items| - 1 := it], large)
  {
    hide Names;
  }

  lemma {:induction false} SubRuleWithin(st: Pattern.PState, name: string, e: Expr, promised: set<string>)
    requires StateWithin(st, promised) && Names(e) <= st.rules.Keys + promised
    ensures var r := Pattern.SubRule(st, name, e);
            StateWithin(r.0, promised) && Extends(r.0.rules, st.rules) && r.1 in r.0.rules
  {
    hide Names, Decimal, EscapeName;
    if e !in st.subIds {
      var part := name + "-" + Decimal(|st.subIds| + 1);
      AddKeepsClosed(st.rules, part, e, promised);
      var r := AddRule(st.rules, part, e);
      hide ClosedBut;
      var ids := st.subIds[e := r.1];
      forall x | x in ids ensures ids[x] in r.0 {
        if x != e { assert x in st.subIds; }
      }
    }
  }

  lemma {:induction false} RepeatedWithin(st: Pattern.PState, name: string, it: Pattern.Item, promised: set<string>)
    requires StateWithin(st, promised) && !it.Bar? && Names(Pattern.ToRule(it)) <= st.rules.Keys + promised
    ensures var r := Pattern.Repeated(st, name, it);
            StateWithin(r.0, promised) && Extends(r.0.rules, st.rules) && Names(r.1) <= r.0.rules.Keys
  {
    hide StateWithin, Pattern.SubRule;
    if it.Rule? { SubRuleWithin(st, name, it.e, promised); }
  }

  lemma {:induction false} BuiltWithin(e: Expr, lo: nat, hi: Option<nat>)
    ensures Names(Pattern.BuildRepetition(e, lo, hi)) <= Names(e)
  {
  }

  // Whatever the pattern, what is written uses defined (or promised) rules only.
  lemma {:induction false} LoopWithin(p: string, i: nat, items: seq<Pattern.Item>, st: Pattern.PState, cfg: Pattern.Config, promised: set<string>)
    requires i <= |p| && StateWithin(st, promised) && ItemsWithin(items, st.rules.Keys + promised)
    ensures var o := Pattern.Loop(p, i, items, st, cfg);
            o.Done? ==> StateWithin(o.st, promised) && Extends(o.st.rules, st.rules) && Names(o.e) <= o.st.rules.Keys + promised
    decreases |p| - i, 1
  {
    hide Names, StateWithin, ItemsWithin, Pattern.Repeated, Pattern.BuildRepetition, Pattern.ReadBounds, Pattern.JoinSeq;
    var here := st.rules.Keys + promised;
    if i == |p| {
      JoinWithin(items, here);
    } else {
      var c := p[i];
      if c == '.' {
        DotWithin(p, i, items, st, cfg, promised);
      } else if c == '(' {
        GroupWithin(p, i, items, st, cfg, promised);
      } else if c == ')' {
        JoinWithin(items, here);
      } else if c == '|' {
        MoreAllowed(items, Pattern.Bar, here, here);
        LoopWithin(p, i + 1, items + [Pattern.Bar], st, cfg, promised);
      } else if c == '*' || c == '+' || c == '?' {
        if Pattern.CanRepeat(items) {
          PostfixWithin(items, c, here);
          LoopWithin(p, i + 1, Pattern.Postfix(items, c), st, cfg, promised);
        }
      } else if c == '{' {
        CurlyWithin(p, i, items, st, cfg, promised);
      } else if c == '[' || c == '\\' || c == '"' || c == ']' || c == '}' {
      } else {
        var k := Pattern.LiteralEnd(p, i, i + 1);
        MoreAllowed(items, Pattern.Literal(p[i..k]), here, here);
        LoopWithin(p, k, items + [Pattern.Literal(p[i..k])], st, cfg, promised);
      }
    }
  }

  lemma {:induction false} PostfixWithin(items: seq<Pattern.Item>, c: char, allowed: set<string>)
    requires Pattern.CanRepeat(items) && ItemsWithin(items, allowed)
    ensures ItemsWithin(Pattern.Postfix(items, c), allowed)
  {
    ItemWithin(items, |items| - 1, allowed);
    var e := Rep(Pattern.ToRule(Pattern.Last(items)), if c == '+' then 1 else 0, if c == '?' then Some(1) else None);
    assert Names(e) <= allowed;
    MoreAllowed(items, Pattern.Rule(e), allowed, allowed);
  }

  lemma {:induction false} DotWithin(p: string, i: nat, items: seq<Pattern.Item>, st: Pattern.PState, cfg: Pattern.Config, promised: set<string>)
    requires i < |p| && p[i] == '.' && StateWithin(st, promised) && ItemsWithin(items, st.rules.Keys + promised)
    ensures var o := Pattern.Loop(p, i, items, st, cfg);
            o.Done? ==> StateWithin(o.st, promised) && Extends(o.st.rules, st.rules) && Names(o.e) <= o.st.rules.Keys + promised
    decreases |p| - i, 0
  {
    var r := AddRule(st.rules, "dot", Pattern.DotRule(cfg.dotall));
    AddKeepsClosed(st.rules, "dot", Pattern.DotRule(cfg.dotall), promised);
    MoreAllowed(items, Pattern.Rule(Ref(r.1)), st.rules.Keys + promised, r.0.Keys + promised);
    LoopWithin(p, i + 1, items + [Pattern.Rule(Ref(r.1))], st.(rules := r.0), cfg, promised);
  }

  lemma {:induction false} GroupWithin(p: string, i: nat, items: seq<Pattern.Item>, st: Pattern.PState, cfg: Pattern.Config, promised: set<string>)
    requires i < |p| && p[i] == '(' && StateWithin(st, promised) && ItemsWithin(items, st.rules.Keys + promised)
    ensures var o := Pattern.Loop(p, i, items, st, cfg);
            o.Done? ==> StateWithin(o.st, promised) && Extends(o.st.rules, st.rules) && Names(o.e) <= o.st.rules.Keys + promised
    decreases |p| - i, 0
  {
    hide StateWithin, Names;
    var inner := Pattern.Loop(p, i + 1, [], st, cfg);
    LoopWithin(p, i + 1, [], st, cfg, promised);
    if inner.Done? {
      MoreAllowed(items, Pattern.Rule(inner.e), st.rules.Keys + promised, inner.st.rules.Keys + promised);
      LoopWithin(p, inner.i, items + [Pattern.Rule(inner.e)], inner.st, cfg, promised);
    }
  }

  lemma {:induction false} CurlyWithin(p: string, i: nat, items: seq<Pattern.Item>, st: Pattern.PState, cfg: Pattern.Config, promised: set<string>)
    requires i < |p| && p[i] == '{' && StateWithin(st, promised) && ItemsWithin(items, st.rules.Keys + promised)
    ensures var o := Pattern.Loop(p, i, items, st, cfg);
            o.Done? ==> StateWithin(o.st, promised) && Extends(o.st.rules, st.rules) && Names(o.e) <= o.st.rules.Keys + promised
    decreases |p| - i, 0
  {
    hide StateWithin, Names, ItemsWithin, Pattern.Loop, Pattern.ReadBounds, Pattern.Repeated, Pattern.BuildRepetition;
    Pattern.AtCurly(p, i, items, st, cfg);
    var k := Pattern.Find(p, '}', i + 1);
    if k < |p| && Pattern.CanRepeat(items) && Pattern.ReadBounds(p[i + 1..k]).Some? {
      var b := Pattern.ReadBounds(p[i + 1..k]).value;
      var r := Pattern.Repeated(st, cfg.name, Pattern.Last(items));
      ItemWithin(items, |items| - 1, st.rules.Keys + promised);
      RepeatedWithin(st, cfg.name, Pattern.Last(items), promised);
      var e := Pattern.BuildRepetition(r.1, b.0, b.1);
      BuiltWithin(r.1, b.0, b.1);
      MoreAllowed(items, Pattern.Rule(e), st.rules.Keys + promised, r.0.rules.Keys + promised);
      LoopWithin(p, k + 1, Pattern.SetLast(items, e), r.0, cfg, promised);
    }
  }

  lemma {:induction false} PatternClosed(p: string, rules: Rules, cfg: Pattern.Config, promised: set<string>)
    requires ClosedBut(rules, promised) && "space" in rules
    ensures var o := Pattern.Translate(p, rules, cfg);
            o.Translated? ==> ClosedBut(o.rules, promised) && o.key in o.rules && Extends(o.rules, rules) && EscapeName(cfg.name) in o.rules
  {
    hide Pattern.Loop, Names;
    if p != "" && p[0] == '^' && p[|p| - 1] == '$' {
      var st := Pattern.PState(rules, map[]);
      var sub := p[1..|p| - 1];
      LoopWithin(sub, 0, [], st, cfg, promised);
      var o := Pattern.Loop(sub, 0, [], st, cfg);
      if o.Done? {
        PatternQuoted(o.e);
        AddKeepsClosed(o.st.rules, cfg.name, Pattern.Quoted(o.e), promised);
      }
    }
  }

  lemma {:induction false} PatternQuoted(e: Expr)
    ensures Names(Pattern.Quoted(e)) <= Names(e) + {"space"}
  {
    CatAllNames([Lit("\""), e, Lit("\""), Ref("space")], Names(e) + {"space"});
  }

  // ---------- objects ----------

  // The chain rules it adds, and the expression, use the pairs' rules, the space rule and each other.
  lemma {:induction false} ChainClosed(rules: Rules, name: string, kv: ObjectRule.KvNames, ks: seq<string>, first: bool, promised: set<string>)
    requires ObjectRule.Named(kv, ks) && ClosedBut(rules, promised) && "space" in rules && kv.Values <= rules.Keys
    ensures var r := ObjectRule.RecursiveRefs(rules, name, kv, ks, first);
            ClosedBut(r.0, promised) && Names(r.1) <= r.0.Keys
    decreases ks
  {
    if ks != [] {
      var k := ks[0];
      KvWithin(kv, k, rules.Keys);
      var res :=
        if first then [Rep(ObjectRule.CommaKv(kv, k), 0, ObjectRule.CountMax(k))]
        else if k == ObjectRule.STAR then [ObjectRule.Kv(kv, k), Rep(ObjectRule.CommaKv(kv, k), 0, None)]
        else [ObjectRule.Kv(kv, k)];
      assert forall i :: 0 <= i < |res| ==> Names(res[i]) <= rules.Keys;
      if |ks| > 1 {
        ChainClosed(rules, name, kv, ks[1..], true, promised);
        var (rules1, rest) := ObjectRule.RecursiveRefs(rules, name, kv, ks[1..], true);
        hide Names, ObjectRule.CommaKv;
        AddKeepsClosed(rules1, ObjectRule.JoinName(name, k), rest, promised);
        var (rules2, key) := AddRule(rules1, ObjectRule.JoinName(name, k), rest);
        RefNames(key);
        ConcatNames(res, [Ref(key)], rules2.Keys);
        CatAllNames(res + [Ref(key)], rules2.Keys);
      } else {
        CatAllNames(res, rules.Keys);
      }
    }
  }

  lemma {:induction false} RefNames(n: string)
    ensures Names(Ref(n)) == {n}
  {
  }

  lemma {:induction false} KvWithin(kv: ObjectRule.KvNames, k: string, allowed: set<string>)
    requires k in kv && kv.Values <= allowed && "space" in allowed
    ensures Names(ObjectRule.Kv(kv, k)) <= allowed && Names(ObjectRule.CommaKv(kv, k)) <= allowed
  {
    assert kv[k] in kv.Values;
    CatAllNames(ObjectRule.Comma() + [ObjectRule.Kv(kv, k)], allowed);
  }

  lemma {:induction false} AlternativesClosed(rules: Rules, name: string, kv: ObjectRule.KvNames, optional: seq<string>, i: nat, promised: set<string>)
    requires ObjectRule.Named(kv, optional) && i <= |optional| && ClosedBut(rules, promised) && "space" in rules && kv.Values <= rules.Keys
    ensures var r := ObjectRule.Alternatives(rules, name, kv, optional, i);
            ClosedBut(r.0, promised) && forall j :: 0 <= j < |r.1| ==> Names(r.1[j]) <= r.0.Keys
    decreases |optional| - i
  {
    hide Names;
    if i < |optional| {
      ChainClosed(rules, name, kv, optional[i..], false, promised);
      var (rules1, e) := ObjectRule.RecursiveRefs(rules, name, kv, optional[i..], false);
      AlternativesClosed(rules1, name, kv, optional, i + 1, promised);
    }
  }

  lemma {:induction false} RequiredNames(kv: ObjectRule.KvNames, required: seq<string>, allowed: set<string>)
    requires ObjectRule.Named(kv, required) && kv.Values <= allowed && "space" in allowed
    ensures forall i :: 0 <= i < |ObjectRule.RequiredItems(kv, required)| ==> Names(ObjectRule.RequiredItems(kv, required)[i]) <= allowed
  {
    if required != [] {
      KvWithin(kv, required[0], allowed);
      if |required| > 1 {
        RequiredNames(kv, required[1..], allowed);
        var tail := ObjectRule.RequiredItems(kv, required[1..]);
        ConcatNames([ObjectRule.Kv(kv, required[0])] + ObjectRule.Comma(), tail, allowed);
      }
    }
  }

  lemma {:induction false} RequiredOnly(kv: ObjectRule.KvNames, required: seq<string>, more: seq<Expr>, allowed: set<string>)
    requires ObjectRule.Named(kv, required) && kv.Values <= allowed && "space" in allowed
    requires forall i :: 0 <= i < |more| ==> Names(more[i]) <= allowed
    ensures Names(CatAll([Lit("{"), Space()] + ObjectRule.RequiredItems(kv, required) + more + [Lit("}"), Space()])) <= allowed
  {
    var open, close := [Lit("{"), Space()], [Lit("}"), Space()];
    assert forall i :: 0 <= i < 2 ==> Names(open[i]) <= allowed && Names(close[i]) <= allowed;
    RequiredNames(kv, required, allowed);
    hide *;
    var items := ObjectRule.RequiredItems(kv, required);
    ConcatNames(open, items, allowed);
    ConcatNames(open + items, more, allowed);
    ConcatNames(open + items + more, close, allowed);
    CatAllNames(open + items + more + close, allowed);
  }

  lemma {:induction false} OptionalNames(required: seq<string>, alts: seq<Expr>, allowed: set<string>)
    requires alts != [] && (forall j :: 0 <= j < |alts| ==> Names(alts[j]) <= allowed) && "space" in allowed
    ensures Names(Rep(if required == [] then AltAll(alts) else CatAll(ObjectRule.Comma() + [AltAll(alts)]), 0, Some(1))) <= allowed
  {
    AltAllNames(alts, allowed);
    CatAllNames(ObjectRule.Comma() + [AltAll(alts)], allowed);
  }

  lemma {:induction false} ObjectClosed(rules: Rules, name: string, kv: ObjectRule.KvNames, required: seq<string>, optional: seq<string>, promised: set<string>)
    requires ObjectRule.Named(kv, required) && ObjectRule.Named(kv, optional)
    requires ClosedBut(rules, promised) && "space" in rules && kv.Values <= rules.Keys
    ensures var r := ObjectRule.ObjectExpr(rules, name, kv, required, optional);
            ClosedBut(r.0, promised) && Names(r.1) <= r.0.Keys
  {
    hide Names, ClosedBut, CatAll, AltAll, ObjectRule.Comma, ObjectRule.RequiredItems;
    if optional == [] {
      RequiredOnly(kv, required, [], rules.Keys);
      var front := [Lit("{"), Space()] + ObjectRule.RequiredItems(kv, required);
      assert front + [] == front;
    } else {
      AlternativesClosed(rules, name, kv, optional, 0, promised);
      var (rules1, alts) := ObjectRule.Alternatives(rules, name, kv, optional, 0);
      OptionalNames(required, alts, rules1.Keys);
      var body := if required == [] then AltAll(alts) else CatAll(ObjectRule.Comma() + [AltAll(alts)]);
      RequiredOnly(kv, required, [Rep(body, 0, Some(1))], rules1.Keys);
    }
  }
}
