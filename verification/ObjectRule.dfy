/** Object schemas as grammar rules (the second half of `_build_object_rule`): the required keys
    in order, then a chain of "-rest" rules that lets the optional keys appear in order. */
module ObjectRule {
  import opened Basics
  import opened Gbnf
  import opened RuleStore

  const STAR := "*"   // stands for additional properties

  function Comma(): seq<Expr> { [Lit(","), Space()] }

  // The grammar rule of each key's "key : value" pair.
  type KvNames = map<string, string>

  function Kv(kv: KvNames, k: string): Expr
    requires k in kv
  {
    Ref(kv[k])
  }

  predicate Named(kv: KvNames, ks: seq<string>) { forall i :: 0 <= i < |ks| ==> ks[i] in kv }

  // `, k : v`, as it follows another pair.
  function CommaKv(kv: KvNames, k: string): Expr
    requires k in kv
  {
    CatAll(Comma() + [Kv(kv, k)])
  }

  function CountMax(k: string): Option<nat> { if k == STAR then None else Some(1) }

  function JoinName(name: string, k: string): string {
    name + (if name == "" then "" else "-") + k + "-rest"
  }

  // get_recursive_refs
  function RecursiveRefs(rules: Rules, name: string, kv: KvNames, ks: seq<string>, firstIsOptional: bool): (r: (Rules, Expr))
    requires Named(kv, ks)
    ensures Extends(r.0, rules)
    decreases ks
  {
    if ks == [] then (rules, CatAll([]))
    else
      var k := ks[0];
      var res :=
        if firstIsOptional then [Rep(CommaKv(kv, k), 0, CountMax(k))]
        else if k == STAR then [Kv(kv, k), Rep(CommaKv(kv, k), 0, None)]
        else [Kv(kv, k)];
      if |ks| > 1 then
        var (rules1, rest) := RecursiveRefs(rules, name, kv, ks[1..], true);
        var (rules2, key) := AddRule(rules1, JoinName(name, k), rest);
        (rules2, CatAll(res + [Ref(key)]))
      else
        (rules, CatAll(res))
  }

  // One alternative for each optional key that may come first.
  function Alternatives(rules: Rules, name: string, kv: KvNames, optional: seq<string>, i: nat): (r: (Rules, seq<Expr>))
    requires Named(kv, optional) && i <= |optional|
    ensures Extends(r.0, rules) && |r.1| == |optional| - i
    decreases |optional| - i
  {
    if i == |optional| then (rules, [])
    else
      var (rules1, e) := RecursiveRefs(rules, name, kv, optional[i..], false);
      var (rules2, es) := Alternatives(rules1, name, kv, optional, i + 1);
      (rules2, [e] + es)
  }

  function RequiredItems(kv: KvNames, required: seq<string>): seq<Expr>
    requires Named(kv, required)
  {
    if required == [] then []
    else if |required| == 1 then [Kv(kv, required[0])]
    else [Kv(kv, required[0])] + Comma() + RequiredItems(kv, required[1..])
  }

  function ObjectExpr(rules: Rules, name: string, kv: KvNames, required: seq<string>, optional: seq<string>): (r: (Rules, Expr))
    requires Named(kv, required) && Named(kv, optional)
    ensures Extends(r.0, rules)
  {
    var open, close := [Lit("{"), Space()], [Lit("}"), Space()];
    if optional == [] then (rules, CatAll(open + RequiredItems(kv, required) + close))
    else
      var (rules1, alts) := Alternatives(rules, name, kv, optional, 0);
      var body := if required == [] then AltAll(alts) else CatAll(Comma() + [AltAll(alts)]);
      (rules1, CatAll(open + RequiredItems(kv, required) + [Rep(body, 0, Some(1))] + close))
  }

  // ---------- the intended language ----------

  // The pairs of `ks`, separated by commas.
  function Pairs(kv: KvNames, ks: seq<string>): seq<Expr>
    requires Named(kv, ks)
  {
    if ks == [] then [] else [Kv(kv, ks[0])] + CommaPairs(kv, ks[1..])
  }

  function CommaPairs(kv: KvNames, ks: seq<string>): seq<Expr>
    requires Named(kv, ks)
  {
    if ks == [] then [] else Comma() + [Kv(kv, ks[0])] + CommaPairs(kv, ks[1..])
  }

  function ObjectWith(kv: KvNames, ks: seq<string>): Expr
    requires Named(kv, ks)
  {
    CatAll([Lit("{"), Space()] + Pairs(kv, ks) + [Lit("}"), Space()])
  }

  function Times(k: string, n: nat): seq<string> { seq(n, _ => k) }

  // `ks` takes from each optional key, in order, one or no occurrence; any number from "*".
  ghost predicate Picks(optional: seq<string>, ks: seq<string>)
    decreases optional
  {
    if optional == [] then ks == []
    else exists n: nat :: n <= |ks| && CountOk(n, 0, CountMax(optional[0]))
                          && ks[..n] == Times(optional[0], n) && Picks(optional[1..], ks[n..])
  }

  ghost predicate ValidKeys(required: seq<string>, optional: seq<string>, ks: seq<string>) {
    |required| <= |ks| && ks[..|required|] == required && Picks(optional, ks[|required|..])
  }

  lemma {:induction false} PicksNamed(kv: KvNames, optional: seq<string>, ks: seq<string>)
    requires Named(kv, optional) && Picks(optional, ks)
    ensures Named(kv, ks)
    decreases optional
  {
    if optional != [] {
      var n: nat :| n <= |ks| && CountOk(n, 0, CountMax(optional[0]))
                    && ks[..n] == Times(optional[0], n) && Picks(optional[1..], ks[n..]);
      PicksNamed(kv, optional[1..], ks[n..]);
      forall i | 0 <= i < |ks| ensures ks[i] in kv {
        if i < n { assert ks[i] == ks[..n][i]; } else { assert ks[i] == ks[n..][i - n]; }
      }
    }
  }

  lemma {:induction false} CommaPairsConcat(kv: KvNames, a: seq<string>, b: seq<string>)
    requires Named(kv, a) && Named(kv, b)
    ensures Named(kv, a + b) && CommaPairs(kv, a + b) == CommaPairs(kv, a) + CommaPairs(kv, b)
  {
    if a == [] {
      assert a + b == b;
    } else {
      assert (a + b)[1..] == a[1..] + b;
      CommaPairsConcat(kv, a[1..], b);
    }
  }

  // ---------- a repeated ", k : v" is that many comma pairs ----------

  lemma {:induction false} RepeatedPairs(g: Rules, kv: KvNames, k: string, parts: seq<string>)
    requires k in kv && AllAccepted(g, CommaKv(kv, k), parts)
    ensures Named(kv, Times(k, |parts|)) && Accepts(g, CatAll(CommaPairs(kv, Times(k, |parts|))), Flat(parts))
  {
    var n := |parts|;
    if n == 0 {
      AcceptsLit(g, "", "");
    } else {
      RepeatedPairs(g, kv, k, parts[1..]);
      assert Times(k, n)[1..] == Times(k, n - 1);
      CatAllJoin(g, Comma() + [Kv(kv, k)], CommaPairs(kv, Times(k, n - 1)), parts[0], Flat(parts[1..]));
    }
  }

  lemma {:induction false} PairsRepeated(g: Rules, kv: KvNames, k: string, n: nat, s: string) returns (parts: seq<string>)
    requires k in kv
    requires Named(kv, Times(k, n)) && Accepts(g, CatAll(CommaPairs(kv, Times(k, n))), s)
    ensures |parts| == n && Flat(parts) == s && AllAccepted(g, CommaKv(kv, k), parts)
    decreases n
  {
    if n == 0 {
      AcceptsLit(g, "", s);
      parts := [];
    } else {
      assert Times(k, n)[1..] == Times(k, n - 1);
      var i := CatAllSplit(g, Comma() + [Kv(kv, k)], CommaPairs(kv, Times(k, n - 1)), s);
      var more := PairsRepeated(g, kv, k, n - 1, s[i..]);
      parts := [s[..i]] + more;
      assert parts[1..] == more && s == s[..i] + s[i..];
    }
  }

  lemma {:induction false} RepPairs(g: Rules, kv: KvNames, k: string, hi: Option<nat>, s: string)
    requires k in kv
    ensures Accepts(g, Rep(CommaKv(kv, k), 0, hi), s)
            <==> exists n: nat :: CountOk(n, 0, hi) && Named(kv, Times(k, n))
                                  && Accepts(g, CatAll(CommaPairs(kv, Times(k, n))), s)
  {
    if Accepts(g, Rep(CommaKv(kv, k), 0, hi), s) {
      var parts := RepSplit(g, CommaKv(kv, k), 0, hi, s);
      RepeatedPairs(g, kv, k, parts);
    }
    if n: nat :| CountOk(n, 0, hi) && Named(kv, Times(k, n)) && Accepts(g, CatAll(CommaPairs(kv, Times(k, n))), s) {
      var parts := PairsRepeated(g, kv, k, n, s);
      RepJoin(g, CommaKv(kv, k), 0, hi, parts);
    }
  }

  // ---------- the chain of "-rest" rules ----------

  // `g` holds all the rules the chain for `ks` adds.
  lemma {:induction false} ChainUnfold(rules: Rules, name: string, kv: KvNames, ks: seq<string>, opt: bool, g: Rules) returns (key: string)
    requires Named(kv, ks) && |ks| > 1 && Extends(g, RecursiveRefs(rules, name, kv, ks, opt).0)
    ensures var (rules1, rest) := RecursiveRefs(rules, name, kv, ks[1..], true);
            Extends(g, rules1) && key in g && g[key] == rest
    ensures var k := ks[0];
            RecursiveRefs(rules, name, kv, ks, opt).1
            == CatAll((if opt then [Rep(CommaKv(kv, k), 0, CountMax(k))]
                       else if k == STAR then [Kv(kv, k), Rep(CommaKv(kv, k), 0, None)]
                       else [Kv(kv, k)]) + [Ref(key)])
  {
    var (rules1, rest) := RecursiveRefs(rules, name, kv, ks[1..], true);
    key := AddRule(rules1, JoinName(name, ks[0]), rest).1;
  }

  ghost predicate SomePicks(g: Rules, kv: KvNames, optional: seq<string>, s: string) {
    exists ks :: Picks(optional, ks) && Named(kv, ks) && Accepts(g, CatAll(CommaPairs(kv, ks)), s)
  }

  lemma {:induction false} OptionalChain(rules: Rules, name: string, kv: KvNames, ks: seq<string>, g: Rules, s: string)
    requires Named(kv, ks) && Extends(g, RecursiveRefs(rules, name, kv, ks, true).0)
    ensures Accepts(g, RecursiveRefs(rules, name, kv, ks, true).1, s) <==> SomePicks(g, kv, ks, s)
    decreases ks
  {
    if ks == [] {
      AcceptsLit(g, "", s);
      NoPicks(g, kv, s);
    } else {
      var rep := Rep(CommaKv(kv, ks[0]), 0, CountMax(ks[0]));
      if |ks| == 1 {
        assert [rep] + [] == [rep];
        LastLink(g, kv, ks, s);
      } else {
        var key := ChainUnfold(rules, name, kv, ks, true, g);
        forall i | 0 <= i <= |s|
          ensures Accepts(g, CatAll([Ref(key)]), s[i..]) <==> SomePicks(g, kv, ks[1..], s[i..])
        {
          AcceptsCatAllOne(g, Ref(key), s[i..]);
          AcceptsRef(g, key, s[i..]);
          OptionalChain(rules, name, kv, ks[1..], g, s[i..]);
        }
        Link(g, kv, ks, key, s);
      }
    }
  }

  lemma {:induction false} NoPicks(g: Rules, kv: KvNames, s: string)
    ensures SomePicks(g, kv, [], s) <==> s == ""
  {
    if s == "" {
      AcceptsLit(g, "", "");
      assert Picks([], []) && Named(kv, []) && CommaPairs(kv, []) == [];
    }
    if SomePicks(g, kv, [], s) {
      var none :| Picks([], none) && Named(kv, none) && Accepts(g, CatAll(CommaPairs(kv, none)), s);
      AcceptsLit(g, "", s);
    }
  }

  lemma {:induction false} LastLink(g: Rules, kv: KvNames, ks: seq<string>, s: string)
    requires |ks| == 1 && Named(kv, ks)
    ensures Accepts(g, CatAll([Rep(CommaKv(kv, ks[0]), 0, CountMax(ks[0]))]), s) <==> SomePicks(g, kv, ks, s)
  {
    var rep := Rep(CommaKv(kv, ks[0]), 0, CountMax(ks[0]));
    AcceptsCatAllOne(g, rep, s);
    if Accepts(g, rep, s) {
      assert s[..|s|] == s;
      NoPicks(g, kv, s[|s|..]);
      PicksJoin(g, kv, ks, s, |s|);
    }
    if SomePicks(g, kv, ks, s) {
      var i := PicksSplit(g, kv, ks, s);
      NoPicks(g, kv, s[i..]);
      assert s[..i] == s;
    }
  }

  lemma {:induction false} Link(g: Rules, kv: KvNames, ks: seq<string>, key: string, s: string)
    requires |ks| > 1 && Named(kv, ks)
    requires forall i :: 0 <= i <= |s| ==> (Accepts(g, CatAll([Ref(key)]), s[i..]) <==> SomePicks(g, kv, ks[1..], s[i..]))
    ensures Accepts(g, CatAll([Rep(CommaKv(kv, ks[0]), 0, CountMax(ks[0]))] + [Ref(key)]), s) <==> SomePicks(g, kv, ks, s)
  {
    hide Accepts, SomePicks, CatAll;
    var rep := Rep(CommaKv(kv, ks[0]), 0, CountMax(ks[0]));
    if Accepts(g, CatAll([rep] + [Ref(key)]), s) {
      var i := CatAllSplit(g, [rep], [Ref(key)], s);
      AcceptsCatAllOne(g, rep, s[..i]);
      PicksJoin(g, kv, ks, s, i);
    }
    if SomePicks(g, kv, ks, s) {
      var i := PicksSplit(g, kv, ks, s);
      AcceptsCatAllOne(g, rep, s[..i]);
      CatAllJoin(g, [rep], [Ref(key)], s[..i], s[i..]);
      assert s == s[..i] + s[i..];
    }
  }

  lemma {:induction false} PicksJoin(g: Rules, kv: KvNames, ks: seq<string>, s: string, i: nat)
    requires Named(kv, ks) && ks != [] && i <= |s|
    requires Accepts(g, Rep(CommaKv(kv, ks[0]), 0, CountMax(ks[0])), s[..i]) && SomePicks(g, kv, ks[1..], s[i..])
    ensures SomePicks(g, kv, ks, s)
  {
    hide Accepts, CatAll;
    var k := ks[0];
    RepPairs(g, kv, k, CountMax(k), s[..i]);
    var n: nat :| CountOk(n, 0, CountMax(k)) && Named(kv, Times(k, n)) && Accepts(g, CatAll(CommaPairs(kv, Times(k, n))), s[..i]);
    var more :| Picks(ks[1..], more) && Named(kv, more) && Accepts(g, CatAll(CommaPairs(kv, more)), s[i..]);
    var all := Times(k, n) + more;
    assert all[..n] == Times(k, n) && all[n..] == more;
    CommaPairsConcat(kv, Times(k, n), more);
    CatAllJoin(g, CommaPairs(kv, Times(k, n)), CommaPairs(kv, more), s[..i], s[i..]);
    assert s == s[..i] + s[i..];
  }

  lemma {:induction false} PicksSplit(g: Rules, kv: KvNames, ks: seq<string>, s: string) returns (i: nat)
    requires Named(kv, ks) && ks != [] && SomePicks(g, kv, ks, s)
    ensures i <= |s|
    ensures Accepts(g, Rep(CommaKv(kv, ks[0]), 0, CountMax(ks[0])), s[..i]) && SomePicks(g, kv, ks[1..], s[i..])
  {
    var all :| Picks(ks, all) && Named(kv, all) && Accepts(g, CatAll(CommaPairs(kv, all)), s);
    var k := ks[0];
    var n: nat :| n <= |all| && CountOk(n, 0, CountMax(k)) && all[..n] == Times(k, n) && Picks(ks[1..], all[n..]);
    assert all == all[..n] + all[n..];
    CommaPairsConcat(kv, Times(k, n), all[n..]);
    i := CatAllSplit(g, CommaPairs(kv, Times(k, n)), CommaPairs(kv, all[n..]), s);
    RepPairs(g, kv, k, CountMax(k), s[..i]);
  }

  // ---------- the alternative that starts with a given key ----------

  ghost predicate FirstPicks(g: Rules, kv: KvNames, ks: seq<string>, s: string)
    requires ks != []
  {
    exists all :: StartsWithHead(ks, all) && Named(kv, all) && Accepts(g, CatAll(Pairs(kv, all)), s)
  }

  // The head of `ks` at least once, then picks from the rest.
  ghost predicate StartsWithHead(ks: seq<string>, all: seq<string>)
    requires ks != []
  {
    exists n: nat :: 1 <= n && PicksBy(ks, all, n)
  }

  // What may follow a head that is written once: more of the same for "*", then the rest.
  function AfterHead(ks: seq<string>): seq<string>
    requires ks != []
  {
    (if ks[0] == STAR then [STAR] else []) + ks[1..]
  }

  // Membership in Picks for a non-empty list, with the count named.
  ghost predicate PicksBy(ks: seq<string>, all: seq<string>, n: nat)
    requires ks != []
  {
    n <= |all| && CountOk(n, 0, CountMax(ks[0])) && all[..n] == Times(ks[0], n) && Picks(ks[1..], all[n..])
  }

  lemma {:induction false} PicksByOne(ks: seq<string>, all: seq<string>, n: nat)
    requires ks != [] && PicksBy(ks, all, n)
    ensures Picks(ks, all)
  {
  }

  lemma {:induction false} PicksCount(ks: seq<string>, all: seq<string>) returns (n: nat)
    requires ks != [] && Picks(ks, all)
    ensures PicksBy(ks, all, n)
  {
    var m: nat :| m <= |all| && CountOk(m, 0, CountMax(ks[0])) && all[..m] == Times(ks[0], m) && Picks(ks[1..], all[m..]);
    n := m;
  }

  lemma {:induction false} TimesTail(k: string, all: seq<string>, n: nat)
    requires 1 <= n <= |all|
    ensures all[..n] == Times(k, n) <==> all[0] == k && all[1..][..n - 1] == Times(k, n - 1)
  {
    if all[..n] == Times(k, n) {
      assert all[0] == all[..n][0];
      forall i | 0 <= i < n - 1 ensures all[1..][i] == k { assert all[..n][i + 1] == k; }
    }
    if all[0] == k && all[1..][..n - 1] == Times(k, n - 1) {
      forall i | 0 <= i < n ensures all[i] == k { if i > 0 { assert all[i] == all[1..][..n - 1][i - 1]; } }
    }
  }

  lemma {:induction false} StartsWithHeadSplit(ks: seq<string>, all: seq<string>)
    requires ks != []
    ensures StartsWithHead(ks, all) <==> all != [] && all[0] == ks[0] && Picks(AfterHead(ks), all[1..])
  {
    hide Picks;
    var k := ks[0];
    var tail := AfterHead(ks);
    if k == STAR {
      assert tail[1..] == ks[1..];
    } else {
      assert tail == ks[1..];
    }
    if n: nat :| 1 <= n <= |all| && PicksBy(ks, all, n) {
      TimesTail(k, all, n);
      assert all[1..][n - 1..] == all[n..];
      if k == STAR { PicksByOne(tail, all[1..], n - 1); }
    }
    if all != [] && all[0] == k && Picks(tail, all[1..]) {
      var m := 0;
      if k == STAR { m := PicksCount(tail, all[1..]); }
      TimesTail(k, all, m + 1);
      assert all[1..][m..] == all[m + 1..];
      assert PicksBy(ks, all, m + 1);
    }
  }

  lemma {:induction false} FirstChain(rules: Rules, name: string, kv: KvNames, ks: seq<string>, g: Rules, s: string)
    requires ks != [] && Named(kv, ks) && Extends(g, RecursiveRefs(rules, name, kv, ks, false).0)
    ensures Accepts(g, RecursiveRefs(rules, name, kv, ks, false).1, s) <==> FirstPicks(g, kv, ks, s)
  {
    var k := ks[0];
    var e := RecursiveRefs(rules, name, kv, ks, false).1;
    var more := if k == STAR then [Rep(CommaKv(kv, k), 0, None)] else [];
    var rest: seq<Expr> := [];
    if |ks| > 1 {
      var key := ChainUnfold(rules, name, kv, ks, false, g);
      rest := [Ref(key)];
      forall t ensures Accepts(g, CatAll(rest), t) <==> SomePicks(g, kv, ks[1..], t) {
        AcceptsCatAllOne(g, Ref(key), t);
        AcceptsRef(g, key, t);
        OptionalChain(rules, name, kv, ks[1..], g, t);
      }
    } else {
      forall t ensures Accepts(g, CatAll(rest), t) <==> SomePicks(g, kv, ks[1..], t) {
        AcceptsLit(g, "", t);
        NoPicks(g, kv, t);
      }
    }
    assert e == CatAll([Kv(kv, k)] + (more + rest)) by {
      assert [Kv(kv, k)] + (more + rest) == [Kv(kv, k)] + more + rest;
      if k == STAR { assert [Kv(kv, k)] + more == [Kv(kv, k), Rep(CommaKv(kv, k), 0, None)]; }
      assert |ks| == 1 ==> [Kv(kv, k)] + more + rest == [Kv(kv, k)] + more;
    }
    forall t ensures Accepts(g, CatAll(more + rest), t) <==> SomePicks(g, kv, AfterHead(ks), t) {
      StarThenRest(g, kv, ks, rest, t);
    }
    HeadThenPicks(g, kv, ks, more + rest, s);
  }

  lemma {:induction false} StarThenRest(g: Rules, kv: KvNames, ks: seq<string>, rest: seq<Expr>, t: string)
    requires ks != [] && Named(kv, ks)
    requires forall u :: Accepts(g, CatAll(rest), u) <==> SomePicks(g, kv, ks[1..], u)
    ensures var k := ks[0];
            Accepts(g, CatAll((if k == STAR then [Rep(CommaKv(kv, k), 0, None)] else []) + rest), t)
            <==> SomePicks(g, kv, AfterHead(ks), t)
  {
    hide Accepts, SomePicks;
    var k := ks[0];
    if k == STAR {
      var rep := Rep(CommaKv(kv, k), 0, None);
      var tail := [STAR] + ks[1..];
      assert tail == ks;
      if Accepts(g, CatAll([rep] + rest), t) {
        var i := CatAllSplit(g, [rep], rest, t);
        AcceptsCatAllOne(g, rep, t[..i]);
        PicksJoin(g, kv, ks, t, i);
      }
      if SomePicks(g, kv, ks, t) {
        var i := PicksSplit(g, kv, ks, t);
        AcceptsCatAllOne(g, rep, t[..i]);
        CatAllJoin(g, [rep], rest, t[..i], t[i..]);
        assert t == t[..i] + t[i..];
      }
    } else {
      assert [] + rest == rest && [] + ks[1..] == ks[1..];
    }
  }

  lemma {:induction false} HeadThenPicks(g: Rules, kv: KvNames, ks: seq<string>, tail: seq<Expr>, s: string)
    requires ks != [] && Named(kv, ks)
    requires forall t :: Accepts(g, CatAll(tail), t) <==> SomePicks(g, kv, AfterHead(ks), t)
    ensures Accepts(g, CatAll([Kv(kv, ks[0])] + tail), s) <==> FirstPicks(g, kv, ks, s)
  {
    hide Accepts, SomePicks, FirstPicks;
    var head := [Kv(kv, ks[0])];
    if Accepts(g, CatAll(head + tail), s) {
      var i := CatAllSplit(g, head, tail, s);
      HeadAndPicks(g, kv, ks, s, i);
    }
    if FirstPicks(g, kv, ks, s) {
      var i := HeadOfPicks(g, kv, ks, s);
      CatAllJoin(g, head, tail, s[..i], s[i..]);
      assert s == s[..i] + s[i..];
    }
  }

  lemma {:induction false} HeadAndPicks(g: Rules, kv: KvNames, ks: seq<string>, s: string, i: nat)
    requires ks != [] && Named(kv, ks) && i <= |s|
    requires Accepts(g, CatAll([Kv(kv, ks[0])]), s[..i]) && SomePicks(g, kv, AfterHead(ks), s[i..])
    ensures FirstPicks(g, kv, ks, s)
  {
    var more :| Picks(AfterHead(ks), more) && Named(kv, more) && Accepts(g, CatAll(CommaPairs(kv, more)), s[i..]);
    var all := [ks[0]] + more;
    assert all[1..] == more;
    StartsWithHeadSplit(ks, all);
    CatAllJoin(g, [Kv(kv, ks[0])], CommaPairs(kv, more), s[..i], s[i..]);
    assert s == s[..i] + s[i..];
  }

  lemma {:induction false} HeadOfPicks(g: Rules, kv: KvNames, ks: seq<string>, s: string) returns (i: nat)
    requires ks != [] && Named(kv, ks) && FirstPicks(g, kv, ks, s)
    ensures i <= |s|
    ensures Accepts(g, CatAll([Kv(kv, ks[0])]), s[..i]) && SomePicks(g, kv, AfterHead(ks), s[i..])
  {
    var all :| StartsWithHead(ks, all) && Named(kv, all) && Accepts(g, CatAll(Pairs(kv, all)), s);
    StartsWithHeadSplit(ks, all);
    i := CatAllSplit(g, [Kv(kv, ks[0])], CommaPairs(kv, all[1..]), s);
  }

  // ---------- all the alternatives together: any non-empty picks ----------

  lemma {:induction false} SkipToHead(optional: seq<string>, i: nat, all: seq<string>)
    requires i < |optional| && StartsWithHead(optional[i..], all)
    ensures Picks(optional, all)
    decreases i
  {
    var rest := optional[i..];
    assert rest[0] == optional[i] && rest[1..] == optional[i + 1..];
    if i == 0 {
      assert rest == optional;
      var n: nat :| 1 <= n && PicksBy(rest, all, n);
    } else {
      assert optional[1..][i - 1..] == rest;
      SkipToHead(optional[1..], i - 1, all);
      assert all[..0] == Times(optional[0], 0) && all[0..] == all;
    }
  }

  lemma {:induction false} FirstPicked(optional: seq<string>, all: seq<string>) returns (i: nat)
    requires Picks(optional, all) && all != []
    ensures i < |optional| && StartsWithHead(optional[i..], all)
    decreases optional
  {
    var n: nat :| n <= |all| && CountOk(n, 0, CountMax(optional[0])) && all[..n] == Times(optional[0], n) && Picks(optional[1..], all[n..]);
    if n == 0 {
      assert all[0..] == all;
      var j := FirstPicked(optional[1..], all);
      i := j + 1;
      assert optional[1..][j..] == optional[i..];
    } else {
      i := 0;
      assert optional[0..] == optional;
      assert PicksBy(optional, all, n);
    }
  }

  lemma {:induction false} AlternativesAre(rules: Rules, name: string, kv: KvNames, optional: seq<string>, i: nat, g: Rules, s: string)
    requires Named(kv, optional) && i <= |optional| && Extends(g, Alternatives(rules, name, kv, optional, i).0)
    ensures forall j :: i <= j < |optional| ==>
              (Accepts(g, Alternatives(rules, name, kv, optional, i).1[j - i], s) <==> FirstPicks(g, kv, optional[j..], s))
    decreases |optional| - i
  {
    if i < |optional| {
      var (rules1, e) := RecursiveRefs(rules, name, kv, optional[i..], false);
      FirstChain(rules, name, kv, optional[i..], g, s);
      AlternativesAre(rules1, name, kv, optional, i + 1, g, s);
      var es, es' := Alternatives(rules, name, kv, optional, i).1, Alternatives(rules1, name, kv, optional, i + 1).1;
      assert es[0] == e;
      forall j | i <= j < |optional|
        ensures Accepts(g, es[j - i], s) <==> FirstPicks(g, kv, optional[j..], s)
      {
        if j > i { assert es[j - i] == es'[j - (i + 1)]; }
      }
    }
  }

  ghost predicate NonemptyPicks(g: Rules, kv: KvNames, optional: seq<string>, s: string) {
    exists ks :: ks != [] && Picks(optional, ks) && Named(kv, ks) && Accepts(g, CatAll(Pairs(kv, ks)), s)
  }

  lemma {:induction false} AlternativesExact(rules: Rules, name: string, kv: KvNames, optional: seq<string>, g: Rules, s: string)
    requires Named(kv, optional) && optional != [] && Extends(g, Alternatives(rules, name, kv, optional, 0).0)
    ensures Accepts(g, AltAll(Alternatives(rules, name, kv, optional, 0).1), s) <==> NonemptyPicks(g, kv, optional, s)
  {
    var es := Alternatives(rules, name, kv, optional, 0).1;
    AlternativesAre(rules, name, kv, optional, 0, g, s);
    AcceptsAltAll(g, es, s);
    if Accepts(g, AltAll(es), s) {
      var j :| 0 <= j < |es| && Accepts(g, es[j], s);
      assert es[j] == es[j - 0];
      var all :| StartsWithHead(optional[j..], all) && Named(kv, all) && Accepts(g, CatAll(Pairs(kv, all)), s);
      SkipToHead(optional, j, all);
    }
    if NonemptyPicks(g, kv, optional, s) {
      var all :| all != [] && Picks(optional, all) && Named(kv, all) && Accepts(g, CatAll(Pairs(kv, all)), s);
      var j := FirstPicked(optional, all);
      assert FirstPicks(g, kv, optional[j..], s);
      assert Accepts(g, es[j - 0], s);
    }
  }

  // ---------- the object rule ----------

  lemma {:induction false} RequiredPairs(kv: KvNames, required: seq<string>)
    requires Named(kv, required)
    ensures RequiredItems(kv, required) == Pairs(kv, required)
  {
    if |required| > 1 {
      RequiredPairs(kv, required[1..]);
    } else if |required| == 1 {
      assert CommaPairs(kv, required[1..]) == [];
    }
  }

  lemma {:induction false} PairsConcat(kv: KvNames, a: seq<string>, b: seq<string>)
    requires Named(kv, a) && Named(kv, b) && a != []
    ensures Named(kv, a + b) && Pairs(kv, a + b) == Pairs(kv, a) + CommaPairs(kv, b)
  {
    hide CommaPairs;
    CommaPairsConcat(kv, a[1..], b);
    assert (a + b)[1..] == a[1..] + b && (a + b)[0] == a[0];
    var all, head := a + b, [Kv(kv, a[0])];
    assert Pairs(kv, all) == head + CommaPairs(kv, all[1..]);
    Assoc(head, CommaPairs(kv, a[1..]), CommaPairs(kv, b));
  }

  lemma {:induction false} Regroup<T>(a: seq<T>, b: seq<T>, c: seq<T>, d: seq<T>)
    ensures a + (b + c) + d == (a + b) + (c + d)
    ensures (a + b) + c + d == (a + b) + (c + d)
  {
  }

  // What stands between the required pairs and the closing brace.
  function OptionalPairs(kv: KvNames, required: seq<string>, ks: seq<string>): seq<Expr>
    requires Named(kv, ks)
  {
    if required == [] then Pairs(kv, ks) else CommaPairs(kv, ks)
  }

  function OptionalBody(required: seq<string>, alts: seq<Expr>): Expr
    requires alts != []
  {
    if required == [] then AltAll(alts) else CatAll(Comma() + [AltAll(alts)])
  }

  lemma {:induction false} CommaThenPairs(kv: KvNames, ks: seq<string>)
    requires Named(kv, ks) && ks != []
    ensures CommaPairs(kv, ks) == Comma() + Pairs(kv, ks)
  {
    assert Comma() + [Kv(kv, ks[0])] + CommaPairs(kv, ks[1..]) == Comma() + ([Kv(kv, ks[0])] + CommaPairs(kv, ks[1..]));
  }

  ghost predicate SomeNonempty(g: Rules, kv: KvNames, required: seq<string>, optional: seq<string>, s: string) {
    exists ks :: ks != [] && Picks(optional, ks) && Named(kv, ks) && Accepts(g, CatAll(OptionalPairs(kv, required, ks)), s)
  }

  // A comma in front turns non-empty pairs into comma pairs.
  lemma {:induction false} CommaJoin(g: Rules, kv: KvNames, optional: seq<string>, s: string, i: nat)
    requires i <= |s| && Accepts(g, CatAll(Comma()), s[..i]) && NonemptyPicks(g, kv, optional, s[i..])
    ensures exists ks :: ks != [] && Picks(optional, ks) && Named(kv, ks) && Accepts(g, CatAll(CommaPairs(kv, ks)), s)
  {
    hide Accepts, Picks;
    var ks :| ks != [] && Picks(optional, ks) && Named(kv, ks) && Accepts(g, CatAll(Pairs(kv, ks)), s[i..]);
    CommaThenPairs(kv, ks);
    CatAllJoin(g, Comma(), Pairs(kv, ks), s[..i], s[i..]);
    assert s == s[..i] + s[i..];
  }

  lemma {:induction false} CommaSplit(g: Rules, kv: KvNames, optional: seq<string>, ks: seq<string>, s: string) returns (i: nat)
    requires ks != [] && Picks(optional, ks) && Named(kv, ks) && Accepts(g, CatAll(CommaPairs(kv, ks)), s)
    ensures i <= |s| && Accepts(g, CatAll(Comma()), s[..i]) && NonemptyPicks(g, kv, optional, s[i..])
  {
    hide Accepts, Picks;
    CommaThenPairs(kv, ks);
    i := CatAllSplit(g, Comma(), Pairs(kv, ks), s);
  }

  lemma {:induction false} OptionalBodyExact(rules: Rules, name: string, kv: KvNames, required: seq<string>, optional: seq<string>, g: Rules, s: string)
    requires Named(kv, optional) && optional != [] && Extends(g, Alternatives(rules, name, kv, optional, 0).0)
    ensures Accepts(g, OptionalBody(required, Alternatives(rules, name, kv, optional, 0).1), s)
            <==> SomeNonempty(g, kv, required, optional, s)
  {
    hide Accepts, Picks, CommaPairs, CatAll, AltAll, Alternatives;
    var alts := Alternatives(rules, name, kv, optional, 0).1;
    if required == [] {
      AlternativesExact(rules, name, kv, optional, g, s);
    } else {
      if Accepts(g, OptionalBody(required, alts), s) {
        var i := CatAllSplit(g, Comma(), [AltAll(alts)], s);
        AcceptsCatAllOne(g, AltAll(alts), s[i..]);
        AlternativesExact(rules, name, kv, optional, g, s[i..]);
        CommaJoin(g, kv, optional, s, i);
      }
      if SomeNonempty(g, kv, required, optional, s) {
        var ks :| ks != [] && Picks(optional, ks) && Named(kv, ks) && Accepts(g, CatAll(OptionalPairs(kv, required, ks)), s);
        var i := CommaSplit(g, kv, optional, ks, s);
        AlternativesExact(rules, name, kv, optional, g, s[i..]);
        AcceptsCatAllOne(g, AltAll(alts), s[i..]);
        CatAllJoin(g, Comma(), [AltAll(alts)], s[..i], s[i..]);
        assert s == s[..i] + s[i..];
      }
    }
  }

  lemma {:induction false} NonePicked(optional: seq<string>)
    ensures Picks(optional, [])
  {
    if optional != [] {
      NonePicked(optional[1..]);
      PicksByOne(optional, [], 0);
    }
  }

  ghost predicate SomeOptional(g: Rules, kv: KvNames, required: seq<string>, optional: seq<string>, s: string) {
    exists ks :: Picks(optional, ks) && Named(kv, ks) && Accepts(g, CatAll(OptionalPairs(kv, required, ks)), s)
  }

  lemma {:induction false} OptionalPartExact(rules: Rules, name: string, kv: KvNames, required: seq<string>, optional: seq<string>, g: Rules, s: string)
    requires Named(kv, optional) && optional != [] && Extends(g, Alternatives(rules, name, kv, optional, 0).0)
    ensures Accepts(g, Rep(OptionalBody(required, Alternatives(rules, name, kv, optional, 0).1), 0, Some(1)), s)
            <==> SomeOptional(g, kv, required, optional, s)
  {
    hide Accepts, Picks;
    AcceptsOptional(g, OptionalBody(required, Alternatives(rules, name, kv, optional, 0).1), s);
    OptionalBodyExact(rules, name, kv, required, optional, g, s);
    NonePicked(optional);
    AcceptsLit(g, "", s);
    assert Named(kv, []) && OptionalPairs(kv, required, []) == [];
    if s == "" {
      assert Accepts(g, CatAll(OptionalPairs(kv, required, [])), s);
    }
  }

  ghost predicate AcceptsSomeValid(g: Rules, kv: KvNames, required: seq<string>, optional: seq<string>, s: string) {
    exists ks :: ValidKeys(required, optional, ks) && Named(kv, ks) && Accepts(g, ObjectWith(kv, ks), s)
  }

  lemma {:induction false} RequiredThenOptional(kv: KvNames, required: seq<string>, ks: seq<string>)
    requires Named(kv, required) && Named(kv, ks)
    ensures Named(kv, required + ks) && Pairs(kv, required + ks) == RequiredItems(kv, required) + OptionalPairs(kv, required, ks)
  {
    RequiredPairs(kv, required);
    if required == [] {
      assert required + ks == ks;
    } else {
      PairsConcat(kv, required, ks);
    }
  }

  lemma {:induction false} NoOptionalExact(kv: KvNames, required: seq<string>, g: Rules, s: string)
    requires Named(kv, required)
    ensures Accepts(g, CatAll([Lit("{"), Space()] + RequiredItems(kv, required) + [Lit("}"), Space()]), s)
            <==> AcceptsSomeValid(g, kv, required, [], s)
  {
    hide Accepts, Picks;
    RequiredPairs(kv, required);
    NonePicked([]);
    assert required[|required|..] == [] && required[..|required|] == required;
    assert ValidKeys(required, [], required);
    if ks :| ValidKeys(required, [], ks) && Named(kv, ks) && Accepts(g, ObjectWith(kv, ks), s) {
      OnlyRequired(required, ks);
    }
  }

  // The required pairs, something optional, and the closing brace.
  lemma {:induction false} WithOptionalExact(kv: KvNames, required: seq<string>, optional: seq<string>, opt: Expr, g: Rules, s: string)
    requires Named(kv, required)
    requires forall t :: Accepts(g, opt, t) <==> SomeOptional(g, kv, required, optional, t)
    ensures Accepts(g, CatAll([Lit("{"), Space()] + RequiredItems(kv, required) + [opt] + [Lit("}"), Space()]), s)
            <==> AcceptsSomeValid(g, kv, required, optional, s)
  {
    hide Accepts, Picks, SomeOptional, AcceptsSomeValid, CatAll;
    var open, close := [Lit("{"), Space()], [Lit("}"), Space()];
    var front := open + RequiredItems(kv, required);
    Assoc(front, [opt], close);
    if Accepts(g, CatAll(front + [opt] + close), s) {
      var i := CatAllSplit(g, front, [opt] + close, s);
      var j := CatAllSplit(g, [opt], close, s[i..]);
      AcceptsCatAllOne(g, opt, s[i..][..j]);
      ObjectJoin(g, kv, required, optional, s, i, j);
    }
    if AcceptsSomeValid(g, kv, required, optional, s) {
      var i, j := ObjectSplit(g, kv, required, optional, s);
      AcceptsCatAllOne(g, opt, s[i..][..j]);
      CatAllJoin(g, [opt], close, s[i..][..j], s[i..][j..]);
      assert s[i..] == s[i..][..j] + s[i..][j..];
      CatAllJoin(g, front, [opt] + close, s[..i], s[i..]);
      assert s == s[..i] + s[i..];
    }
  }

  // Main result: the rule accepts exactly the objects whose keys are the required ones in order,
  // then an ordered choice of the optional ones, whatever the value rules accept.
  lemma {:induction false} ObjectExact(rules: Rules, name: string, kv: KvNames, required: seq<string>, optional: seq<string>, g: Rules, s: string)
    requires Named(kv, required) && Named(kv, optional)
    requires Extends(g, ObjectExpr(rules, name, kv, required, optional).0)
    ensures Accepts(g, ObjectExpr(rules, name, kv, required, optional).1, s)
            <==> AcceptsSomeValid(g, kv, required, optional, s)
  {
    hide Accepts, Picks, SomeOptional, AcceptsSomeValid, CatAll, RequiredItems;
    if optional == [] {
      NoOptionalExact(kv, required, g, s);
    } else {
      var opt := Rep(OptionalBody(required, Alternatives(rules, name, kv, optional, 0).1), 0, Some(1));
      forall t ensures Accepts(g, opt, t) <==> SomeOptional(g, kv, required, optional, t) {
        OptionalPartExact(rules, name, kv, required, optional, g, t);
      }
      WithOptionalExact(kv, required, optional, opt, g, s);
    }
  }

  lemma {:induction false} OnlyRequired(required: seq<string>, ks: seq<string>)
    requires ValidKeys(required, [], ks)
    ensures ks == required
  {
    assert ks == ks[..|required|] + ks[|required|..];
  }

  lemma {:induction false} ObjectJoin(g: Rules, kv: KvNames, required: seq<string>, optional: seq<string>, s: string, i: nat, j: nat)
    requires Named(kv, required) && i <= |s| && j <= |s[i..]|
    requires Accepts(g, CatAll([Lit("{"), Space()] + RequiredItems(kv, required)), s[..i])
    requires SomeOptional(g, kv, required, optional, s[i..][..j])
    requires Accepts(g, CatAll([Lit("}"), Space()]), s[i..][j..])
    ensures AcceptsSomeValid(g, kv, required, optional, s)
  {
    hide Accepts, Picks;
    var open, close := [Lit("{"), Space()], [Lit("}"), Space()];
    var ks :| Picks(optional, ks) && Named(kv, ks) && Accepts(g, CatAll(OptionalPairs(kv, required, ks)), s[i..][..j]);
    var all := required + ks;
    RequiredThenOptional(kv, required, ks);
    assert all[..|required|] == required && all[|required|..] == ks;
    var front, middle := open + RequiredItems(kv, required), OptionalPairs(kv, required, ks);
    CatAllJoin(g, middle, close, s[i..][..j], s[i..][j..]);
    assert s[i..] == s[i..][..j] + s[i..][j..];
    CatAllJoin(g, front, middle + close, s[..i], s[i..]);
    assert s == s[..i] + s[i..];
    Regroup(open, RequiredItems(kv, required), middle, close);
    assert ObjectWith(kv, all) == CatAll(front + (middle + close));
  }

  lemma {:induction false} ObjectSplit(g: Rules, kv: KvNames, required: seq<string>, optional: seq<string>, s: string) returns (i: nat, j: nat)
    requires Named(kv, required) && AcceptsSomeValid(g, kv, required, optional, s)
    ensures i <= |s| && j <= |s[i..]|
    ensures Accepts(g, CatAll([Lit("{"), Space()] + RequiredItems(kv, required)), s[..i])
    ensures SomeOptional(g, kv, required, optional, s[i..][..j])
    ensures Accepts(g, CatAll([Lit("}"), Space()]), s[i..][j..])
  {
    hide Accepts, Picks;
    var open, close := [Lit("{"), Space()], [Lit("}"), Space()];
    var all :| ValidKeys(required, optional, all) && Named(kv, all) && Accepts(g, ObjectWith(kv, all), s);
    var ks := all[|required|..];
    assert all == required + ks;
    RequiredThenOptional(kv, required, ks);
    var front, middle := open + RequiredItems(kv, required), OptionalPairs(kv, required, ks);
    Regroup(open, RequiredItems(kv, required), middle, close);
    assert ObjectWith(kv, all) == CatAll(front + (middle + close));
    i := CatAllSplit(g, front, middle + close, s);
    j := CatAllSplit(g, middle, close, s[i..]);
  }

  // ---------- what the key sequences are ----------

  ghost predicate Subsequence(sub: seq<string>, full: seq<string>)
    decreases full
  {
    if full == [] then sub == []
    else (sub != [] && sub[0] == full[0] && Subsequence(sub[1..], full[1..])) || Subsequence(sub, full[1..])
  }

  // `ks` ends with `m` additional keys, and what precedes them is a subsequence of the properties.
  ghost predicate EndsWithExtras(props: seq<string>, extra: bool, ks: seq<string>, m: nat) {
    m <= |ks| && (m > 0 ==> extra) && ks[|ks| - m..] == Times(STAR, m) && Subsequence(ks[..|ks| - m], props)
  }

  function WithStar(props: seq<string>, extra: bool): seq<string> {
    props + (if extra then [STAR] else [])
  }

  lemma {:induction false} PicksToSubsequence(props: seq<string>, extra: bool, ks: seq<string>) returns (m: nat)
    requires STAR !in props && Picks(WithStar(props, extra), ks)
    ensures EndsWithExtras(props, extra, ks, m)
    decreases props
  {
    hide Picks;
    var optional := WithStar(props, extra);
    if props == [] {
      if extra {
        assert optional[1..] == [];
        m := PicksCount(optional, ks);
        OnlyEmpty(ks[m..]);
        assert ks == ks[..m] + ks[m..];
        assert ks[|ks| - m..] == ks[..m] && ks[..|ks| - m] == [];
      } else {
        assert optional == [];
        OnlyEmpty(ks);
        m := 0;
      }
    } else {
      assert optional[1..] == WithStar(props[1..], extra);
      var n := PicksCount(optional, ks);
      m := PicksToSubsequence(props[1..], extra, ks[n..]);
      if n == 0 {
        assert ks[0..] == ks;
      } else {
        assert ks[0] == ks[..n][0];
        assert ks[|ks| - m..] == ks[1..][|ks[1..]| - m..];
        assert ks[..|ks| - m][1..] == ks[1..][..|ks[1..]| - m];
      }
    }
  }

  lemma {:induction false} OnlyEmpty(ks: seq<string>)
    requires Picks([], ks)
    ensures ks == []
  {
  }

  lemma {:induction false} SubsequenceToPicks(props: seq<string>, extra: bool, ks: seq<string>, m: nat)
    requires STAR !in props && EndsWithExtras(props, extra, ks, m)
    ensures Picks(WithStar(props, extra), ks)
    decreases props
  {
    hide Picks;
    var optional := WithStar(props, extra);
    if props == [] {
      assert ks == ks[..|ks| - m] + ks[|ks| - m..];
      if extra {
        NonePicked([]);
        assert ks[..m] == ks && ks[m..] == [] && optional[1..] == [];
        PicksByOne(optional, ks, m);
      } else {
        NonePicked(optional);
      }
    } else {
      assert optional[1..] == WithStar(props[1..], extra);
      var sub := ks[..|ks| - m];
      if Subsequence(sub, props[1..]) {
        SubsequenceToPicks(props[1..], extra, ks, m);
        assert ks[..0] == Times(props[0], 0) && ks[0..] == ks;
        PicksByOne(optional, ks, 0);
      } else {
        assert ks[1..][|ks[1..]| - m..] == ks[|ks| - m..];
        assert ks[1..][..|ks[1..]| - m] == sub[1..];
        SubsequenceToPicks(props[1..], extra, ks[1..], m);
        assert ks[..1] == Times(props[0], 1);
        PicksByOne(optional, ks, 1);
      }
    }
  }

  // When no property is called "*", the picks are a subsequence of the properties followed by any
  // number of additional keys.
  lemma {:induction false} PicksAreSubsequences(props: seq<string>, extra: bool, ks: seq<string>)
    requires STAR !in props
    ensures Picks(WithStar(props, extra), ks) <==> exists m: nat :: EndsWithExtras(props, extra, ks, m)
  {
    if Picks(WithStar(props, extra), ks) { var m := PicksToSubsequence(props, extra, ks); }
    if m: nat :| EndsWithExtras(props, extra, ks, m) { SubsequenceToPicks(props, extra, ks, m); }
  }

  // "{}" is accepted exactly when nothing is required (pairs are never empty, the space rule may be).
  lemma {:induction false} EmptyObject(rules: Rules, name: string, kv: KvNames, required: seq<string>, optional: seq<string>, g: Rules)
    requires Named(kv, required) && Named(kv, optional)
    requires Extends(g, ObjectExpr(rules, name, kv, required, optional).0)
    requires Accepts(g, Space(), "")
    requires forall k :: k in kv ==> !Accepts(g, Kv(kv, k), "")
    ensures Accepts(g, ObjectExpr(rules, name, kv, required, optional).1, "{}") <==> required == []
  {
    ObjectExact(rules, name, kv, required, optional, g, "{}");
    if required == [] {
      NonePicked(optional);
      assert ValidKeys(required, optional, []) && Named(kv, []);
      BracesOnly(g, kv);
    }
    if ks :| ValidKeys(required, optional, ks) && Named(kv, ks) && Accepts(g, ObjectWith(kv, ks), "{}") {
      if ks != [] { BracesLeaveNoRoom(g, kv, ks); }
    }
  }

  lemma {:induction false} BracesOnly(g: Rules, kv: KvNames)
    requires Accepts(g, Space(), "")
    ensures Accepts(g, ObjectWith(kv, []), "{}")
  {
    hide Accepts;
    AcceptsLit(g, "{", "{");
    AcceptsLit(g, "}", "}");
    AcceptsCatAllOne(g, Lit("{"), "{");
    AcceptsCatAllOne(g, Lit("}"), "}");
    AcceptsCatAllOne(g, Space(), "");
    CatAllJoin(g, [Lit("{")], [Space()], "{", "");
    CatAllJoin(g, [Lit("}")], [Space()], "}", "");
    assert "{" + "" == "{" && "}" + "" == "}" && "{" + "}" == "{}";
    CatAllJoin(g, [Lit("{")] + [Space()], [Lit("}")] + [Space()], "{", "}");
    assert [Lit("{"), Space()] + Pairs(kv, []) + [Lit("}"), Space()] == [Lit("{")] + [Space()] + ([Lit("}")] + [Space()]);
  }

  lemma {:induction false} BracesLeaveNoRoom(g: Rules, kv: KvNames, ks: seq<string>)
    requires Named(kv, ks) && ks != []
    requires !Accepts(g, Kv(kv, ks[0]), "")
    ensures !Accepts(g, ObjectWith(kv, ks), "{}")
  {
    hide Accepts;
    if Accepts(g, ObjectWith(kv, ks), "{}") {
      var open, first := [Lit("{"), Space()], [Kv(kv, ks[0])];
      var close := [Lit("}"), Space()];
      var rest := CommaPairs(kv, ks[1..]);
      assert open + Pairs(kv, ks) + close == open + (first + (rest + close));
      var i := CatAllSplit(g, open, first + (rest + close), "{}");
      StartsWith(g, '{', "{}"[..i]);
      var j := CatAllSplit(g, first, rest + close, "{}"[i..]);
      AcceptsCatAllOne(g, Kv(kv, ks[0]), "{}"[i..][..j]);
      var k := CatAllSplit(g, rest, close, "{}"[i..][j..]);
      StartsWith(g, '}', "{}"[i..][j..][k..]);
    }
  }

  lemma {:induction false} StartsWith(g: Rules, c: char, s: string)
    requires Accepts(g, CatAll([Lit([c]), Space()]), s)
    ensures s != "" && s[0] == c
  {
    var i := CatSplit(g, Lit([c]), CatAll([Space()]), s);
    AcceptsLit(g, [c], s[..i]);
  }

  // ---------- the chain is linear in the number of optional keys ----------

  // Written again against any later table, a chain is the same expression and adds no rule.
  lemma {:induction false} ChainReused(rules: Rules, name: string, kv: KvNames, ks: seq<string>, opt: bool, again: bool, g: Rules)
    requires Named(kv, ks) && Extends(g, RecursiveRefs(rules, name, kv, ks, opt).0)
    ensures RecursiveRefs(g, name, kv, ks, again).0 == g
    ensures RecursiveRefs(g, name, kv, ks, opt) == (g, RecursiveRefs(rules, name, kv, ks, opt).1)
    decreases ks
  {
    if |ks| > 1 {
      var (rules1, rest) := RecursiveRefs(rules, name, kv, ks[1..], true);
      ChainReused(rules, name, kv, ks[1..], true, true, g);
      AddRuleStable(rules1, JoinName(name, ks[0]), rest, g);
    }
  }

  lemma {:induction false} ChainSize(rules: Rules, name: string, kv: KvNames, ks: seq<string>, opt: bool)
    requires Named(kv, ks) && ks != []
    ensures |RecursiveRefs(rules, name, kv, ks, opt).0.Keys| <= |rules.Keys| + |ks| - 1
    decreases ks
  {
    if |ks| > 1 {
      var (rules1, rest) := RecursiveRefs(rules, name, kv, ks[1..], true);
      ChainSize(rules, name, kv, ks[1..], true);
      var (rules2, key) := AddRule(rules1, JoinName(name, ks[0]), rest);
    }
  }

  lemma {:induction false} LaterAlternativesAddNothing(rules: Rules, name: string, kv: KvNames, optional: seq<string>, i: nat, g: Rules)
    requires Named(kv, optional) && 1 <= i <= |optional|
    requires Extends(g, RecursiveRefs(rules, name, kv, optional[i - 1..], false).0)
    ensures Alternatives(g, name, kv, optional, i).0 == g
    decreases |optional| - i
  {
    if i < |optional| {
      var ks := optional[i - 1..];
      assert ks[1..] == optional[i..];
      ChainReused(rules, name, kv, optional[i..], true, false, g);
      LaterAlternativesAddNothing(g, name, kv, optional, i + 1, g);
    }
  }

  // All the alternatives share one chain: at most one rule per optional key but the last.
  lemma {:induction false} LinearChain(rules: Rules, name: string, kv: KvNames, required: seq<string>, optional: seq<string>)
    requires Named(kv, required) && Named(kv, optional) && optional != []
    ensures ObjectExpr(rules, name, kv, required, optional).0 == RecursiveRefs(rules, name, kv, optional, false).0
    ensures |ObjectExpr(rules, name, kv, required, optional).0.Keys| <= |rules.Keys| + |optional| - 1
  {
    var rules1 := RecursiveRefs(rules, name, kv, optional, false).0;
    assert optional[0..] == optional;
    LaterAlternativesAddNothing(rules, name, kv, optional, 1, rules1);
    ChainSize(rules, name, kv, optional, false);
  }

  // ---------- the loops ----------

  method GetRecursiveRefs(store: Store, name: string, kv: KvNames, ks: seq<string>, firstIsOptional: bool) returns (e: Expr)
    requires Named(kv, ks)
    modifies store
    ensures (store.rules, e) == RecursiveRefs(old(store.rules), name, kv, ks, firstIsOptional)
    decreases ks
  {
    if ks == [] { return CatAll([]); }
    var k := ks[0];
    var res: seq<Expr>;
    if firstIsOptional {
      res := [Rep(CommaKv(kv, k), 0, CountMax(k))];
    } else {
      res := [Kv(kv, k)];
      if k == STAR {
        res := res + [Rep(CommaKv(kv, k), 0, None)];
        assert res == [Kv(kv, k), Rep(CommaKv(kv, k), 0, None)];
      }
    }
    if |ks| > 1 {
      var rest := GetRecursiveRefs(store, name, kv, ks[1..], true);
      var key := store.Add(JoinName(name, k), rest);
      res := res + [Ref(key)];
    }
    e := CatAll(res);
  }

  method WriteRequired(kv: KvNames, required: seq<string>) returns (items: seq<Expr>)
    requires Named(kv, required)
    ensures items == RequiredItems(kv, required)
  {
    RequiredPairs(kv, required);
    items := [];
    var i := 0;
    while i < |required|
      invariant 0 <= i <= |required|
      invariant items == Pairs(kv, required[..i])
    {
      if i > 0 {
        items := items + Comma();
        PairsConcat(kv, required[..i], [required[i]]);
        assert CommaPairs(kv, [required[i]]) == Comma() + [Kv(kv, required[i])];
      }
      assert required[..i + 1] == required[..i] + [required[i]];
      items := items + [Kv(kv, required[i])];
      i := i + 1;
    }
    assert required[..i] == required;
  }

  method WriteAlternatives(store: Store, name: string, kv: KvNames, optional: seq<string>) returns (alts: seq<Expr>)
    requires Named(kv, optional)
    modifies store
    ensures (store.rules, alts) == Alternatives(old(store.rules), name, kv, optional, 0)
  {
    hide RecursiveRefs;
    ghost var all := Alternatives(store.rules, name, kv, optional, 0);
    alts := [];
    var j := 0;
    while j < |optional|
      invariant 0 <= j <= |optional|
      invariant Alternatives(store.rules, name, kv, optional, j).0 == all.0
      invariant alts + Alternatives(store.rules, name, kv, optional, j).1 == all.1
    {
      ghost var rest := Alternatives(store.rules, name, kv, optional, j).1;
      var alt := GetRecursiveRefs(store, name, kv, optional[j..], false);
      assert rest == [alt] + Alternatives(store.rules, name, kv, optional, j + 1).1;
      alts := alts + [alt];
      j := j + 1;
    }
    assert alts + [] == alts;
  }

  method BuildObjectRule(store: Store, name: string, kv: KvNames, required: seq<string>, optional: seq<string>) returns (e: Expr)
    requires Named(kv, required) && Named(kv, optional)
    modifies store
    ensures (store.rules, e) == ObjectExpr(old(store.rules), name, kv, required, optional)
  {
    var items := WriteRequired(kv, required);
    var rule := [Lit("{"), Space()] + items;
    if optional != [] {
      var alts := WriteAlternatives(store, name, kv, optional);
      var body := AltAll(alts);
      if required != [] { body := CatAll(Comma() + [body]); }
      rule := rule + [Rep(body, 0, Some(1))];
    }
    e := CatAll(rule + [Lit("}"), Space()]);
  }
}
