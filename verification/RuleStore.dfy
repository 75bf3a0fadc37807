/** The converter's rule table and `_add_rule`: rules are only ever added, never rebound. */
module RuleStore {
  import opened Gbnf
  import opened Decimals

  predicate IsNameChar(c: char) {
    'a' <= c <= 'z' || 'A' <= c <= 'Z' || '0' <= c <= '9' || c == '-'
  }

  // Every maximal run of other characters becomes one '-'.
  function EscapeName(name: string): string {
    if name == [] then []
    else if IsNameChar(name[0]) then [name[0]] + EscapeName(name[1..])
    else if |name| > 1 && !IsNameChar(name[1]) then EscapeName(name[1..])
    else "-" + EscapeName(name[1..])
  }

  // The rule for white space, which every table holds from the start.
  function Space(): Expr { Ref("space") }

  predicate Available(rules: Rules, key: string, rule: Expr) {
    key !in rules || rules[key] == rule
  }

  function Numbered(base: string, i: nat): string { base + Decimal(i) }

  lemma {:induction false} NumberedInjective(base: string, i: nat, j: nat)
    requires Numbered(base, i) == Numbered(base, j)
    ensures i == j
  {
    DecimalCanonical(i);
    DecimalCanonical(j);
    assert Decimal(i) == Numbered(base, i)[|base|..];
    assert Decimal(j) == Numbered(base, j)[|base|..];
  }

  lemma {:induction false} NumberedCount(base: string, i: nat, keys: set<string>)
    requires forall j: nat :: j < i ==> Numbered(base, j) in keys
    ensures i <= |keys|
    decreases i
  {
    if i > 0 {
      var last := Numbered(base, i - 1);
      forall j: nat | j < i - 1 ensures Numbered(base, j) in keys - {last} {
        if Numbered(base, j) == last { NumberedInjective(base, j, i - 1); }
      }
      NumberedCount(base, i - 1, keys - {last});
    }
  }

  // The first number from `i` on whose key is free or already holds the rule.
  function FirstAvailable(rules: Rules, base: string, rule: Expr, i: nat): (r: nat)
    requires forall j: nat :: j < i ==> Numbered(base, j) in rules
    ensures r >= i && Available(rules, Numbered(base, r), rule)
    ensures forall j: nat :: i <= j < r ==> !Available(rules, Numbered(base, j), rule)
    decreases |rules.Keys| - i
  {
    if Available(rules, Numbered(base, i), rule) then i
    else
      NumberedCount(base, i + 1, rules.Keys);
      FirstAvailable(rules, base, rule, i + 1)
  }

  function KeyFor(rules: Rules, name: string, rule: Expr): string {
    var base := EscapeName(name);
    if Available(rules, base, rule) then base else Numbered(base, FirstAvailable(rules, base, rule, 0))
  }

  ghost predicate Extends(newer: Rules, older: Rules) {
    forall k :: k in older ==> k in newer && newer[k] == older[k]
  }

  function AddRule(rules: Rules, name: string, rule: Expr): (r: (Rules, string))
    ensures Extends(r.0, rules)
    ensures r.1 in r.0 && r.0[r.1] == rule
    ensures r.0.Keys == rules.Keys + {r.1}
  {
    var key := KeyFor(rules, name, rule);
    (rules[key := rule], key)
  }

  // Asking again, however much has been added since, gives the same key and changes nothing.
  lemma {:induction false} AddRuleStable(rules: Rules, name: string, rule: Expr, later: Rules)
    requires Extends(later, AddRule(rules, name, rule).0)
    ensures AddRule(later, name, rule) == (later, AddRule(rules, name, rule).1)
  {
    var base := EscapeName(name);
    var key := AddRule(rules, name, rule).1;
    assert later[key] == rule;
    if !Available(rules, base, rule) {
      var i := FirstAvailable(rules, base, rule, 0);
      var i' := FirstAvailable(later, base, rule, 0);
      assert !Available(later, base, rule);
      assert Available(later, Numbered(base, i), rule);
      assert forall j: nat :: j < i ==> !Available(later, Numbered(base, j), rule) by {
        assert forall j: nat :: 0 <= j < i ==> !Available(rules, Numbered(base, j), rule);
      }
      assert i' == i;
    }
    assert later[key := rule] == later;
  }

  class Store {
    var rules: Rules

    constructor ()
      ensures rules == map[]
    {
      rules := map[];
    }

    method Add(name: string, rule: Expr) returns (key: string)
      modifies this
      ensures (rules, key) == AddRule(old(rules), name, rule)
    {
      var base := EscapeName(name);
      if base !in rules || rules[base] == rule {
        rules := rules[base := rule];
        return base;
      }
      var i := 0;
      while Numbered(base, i) in rules && rules[Numbered(base, i)] != rule
        invariant rules == old(rules)
        invariant forall j: nat :: j < i ==> Numbered(base, j) in rules
        invariant FirstAvailable(rules, base, rule, i) == FirstAvailable(rules, base, rule, 0)
        decreases |rules.Keys| - i
      {
        NumberedCount(base, i + 1, rules.Keys);
        i := i + 1;
      }
      key := Numbered(base, i);
      rules := rules[key := rule];
    }
  }
}
