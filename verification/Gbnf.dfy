/** The grammar language the schema converter writes: its abstract syntax, and which strings an
    expression accepts.  A rule reference may be unfolded any finite number of times; `Matches`
    bounds the nesting of unfoldings and `Accepts` quantifies the bound away. */
module Gbnf {
  import opened Basics

  datatype Expr =
    | Lit(text: string)
    | Class(ranges: seq<(char, char)>, negated: bool)
    | Cat(left: Expr, right: Expr)
    | Alt(left: Expr, right: Expr)
    | Rep(body: Expr, min: nat, max: Option<nat>)
    | Ref(name: string)

  type Rules = map<string, Expr>

  predicate InClass(c: char, ranges: seq<(char, char)>) {
    exists i :: 0 <= i < |ranges| && ranges[i].0 <= c <= ranges[i].1
  }

  function Flat(parts: seq<string>): string {
    if parts == [] then [] else parts[0] + Flat(parts[1..])
  }

  predicate CountOk(n: nat, lo: nat, hi: Option<nat>) {
    lo <= n && (hi.Some? ==> n <= hi.value)
  }

  // `s` is cut into a permitted number of parts, each of which `e` matches.
  ghost predicate Matches(g: Rules, e: Expr, s: string, d: nat)
    decreases d, e
  {
    match e
    case Lit(t) => s == t
    case Class(rs, neg) => |s| == 1 && (InClass(s[0], rs) != neg)
    case Cat(l, r) => exists i :: 0 <= i <= |s| && Matches(g, l, s[..i], d) && Matches(g, r, s[i..], d)
    case Alt(l, r) => Matches(g, l, s, d) || Matches(g, r, s, d)
    case Rep(b, lo, hi) =>
      exists parts :: Flat(parts) == s && CountOk(|parts|, lo, hi)
                      && forall i :: 0 <= i < |parts| ==> Matches(g, b, parts[i], d)
    case Ref(n) => d > 0 && n in g && Matches(g, g[n], s, d - 1)
  }

  ghost predicate Accepts(g: Rules, e: Expr, s: string) {
    exists d: nat :: Matches(g, e, s, d)
  }

  ghost predicate AllAccepted(g: Rules, e: Expr, parts: seq<string>) {
    forall i :: 0 <= i < |parts| ==> Accepts(g, e, parts[i])
  }

  // ---------- more unfolding never hurts ----------

  lemma {:induction false} MatchesDeeper(g: Rules, e: Expr, s: string, d: nat, d': nat)
    requires Matches(g, e, s, d) && d <= d'
    ensures Matches(g, e, s, d')
    decreases d, e
  {
    match e
    case Lit(_) =>
    case Class(_, _) =>
    case Cat(l, r) =>
      var i :| 0 <= i <= |s| && Matches(g, l, s[..i], d) && Matches(g, r, s[i..], d);
      MatchesDeeper(g, l, s[..i], d, d');
      MatchesDeeper(g, r, s[i..], d, d');
    case Alt(l, r) =>
      if Matches(g, l, s, d) { MatchesDeeper(g, l, s, d, d'); } else { MatchesDeeper(g, r, s, d, d'); }
    case Rep(b, lo, hi) =>
      var parts :| Flat(parts) == s && CountOk(|parts|, lo, hi)
                   && forall i :: 0 <= i < |parts| ==> Matches(g, b, parts[i], d);
      forall i | 0 <= i < |parts| ensures Matches(g, b, parts[i], d') {
        MatchesDeeper(g, b, parts[i], d, d');
      }
    case Ref(n) =>
      MatchesDeeper(g, g[n], s, d - 1, d' - 1);
  }

  // ---------- Accepts obeys the grammar's equations ----------

  lemma {:induction false} AcceptsLit(g: Rules, t: string, s: string)
    ensures Accepts(g, Lit(t), s) <==> s == t
  {
    if s == t { assert Matches(g, Lit(t), s, 0); }
  }

  lemma {:induction false} AcceptsClass(g: Rules, rs: seq<(char, char)>, neg: bool, s: string)
    ensures Accepts(g, Class(rs, neg), s) <==> |s| == 1 && (InClass(s[0], rs) != neg)
  {
    if |s| == 1 && (InClass(s[0], rs) != neg) { assert Matches(g, Class(rs, neg), s, 0); }
  }

  lemma {:induction false} AcceptsAlt(g: Rules, l: Expr, r: Expr, s: string)
    ensures Accepts(g, Alt(l, r), s) <==> Accepts(g, l, s) || Accepts(g, r, s)
  {
    if d: nat :| Matches(g, l, s, d) { assert Matches(g, Alt(l, r), s, d); }
    if d: nat :| Matches(g, r, s, d) { assert Matches(g, Alt(l, r), s, d); }
    if d: nat :| Matches(g, Alt(l, r), s, d) {
      assert Matches(g, l, s, d) || Matches(g, r, s, d);
    }
  }

  lemma {:induction false} CatJoin(g: Rules, l: Expr, r: Expr, s: string, t: string)
    requires Accepts(g, l, s) && Accepts(g, r, t)
    ensures Accepts(g, Cat(l, r), s + t)
  {
    var d1: nat :| Matches(g, l, s, d1);
    var d2: nat :| Matches(g, r, t, d2);
    var d := if d1 < d2 then d2 else d1;
    MatchesDeeper(g, l, s, d1, d);
    MatchesDeeper(g, r, t, d2, d);
    assert (s + t)[..|s|] == s && (s + t)[|s|..] == t;
    assert Matches(g, Cat(l, r), s + t, d);
  }

  lemma {:induction false} CatSplit(g: Rules, l: Expr, r: Expr, s: string) returns (i: nat)
    requires Accepts(g, Cat(l, r), s)
    ensures i <= |s| && Accepts(g, l, s[..i]) && Accepts(g, r, s[i..])
  {
    var d: nat :| Matches(g, Cat(l, r), s, d);
    i :| 0 <= i <= |s| && Matches(g, l, s[..i], d) && Matches(g, r, s[i..], d);
  }

  lemma {:induction false} AcceptsCat(g: Rules, l: Expr, r: Expr, s: string)
    ensures Accepts(g, Cat(l, r), s)
            <==> exists i :: 0 <= i <= |s| && Accepts(g, l, s[..i]) && Accepts(g, r, s[i..])
  {
    if Accepts(g, Cat(l, r), s) {
      var i := CatSplit(g, l, r, s);
    }
    if i :| 0 <= i <= |s| && Accepts(g, l, s[..i]) && Accepts(g, r, s[i..]) {
      CatJoin(g, l, r, s[..i], s[i..]);
      assert s == s[..i] + s[i..];
    }
  }

  lemma {:induction false} AcceptsRef(g: Rules, n: string, s: string)
    ensures Accepts(g, Ref(n), s) <==> n in g && Accepts(g, g[n], s)
  {
    if n in g && Accepts(g, g[n], s) {
      var d: nat :| Matches(g, g[n], s, d);
      assert Matches(g, Ref(n), s, d + 1);
    }
    if d: nat :| Matches(g, Ref(n), s, d) {
      assert Matches(g, g[n], s, d - 1);
    }
  }

  lemma {:induction false} CommonDepth(g: Rules, e: Expr, parts: seq<string>) returns (d: nat)
    requires AllAccepted(g, e, parts)
    ensures forall i :: 0 <= i < |parts| ==> Matches(g, e, parts[i], d)
  {
    if parts == [] {
      d := 0;
    } else {
      var d1: nat :| Matches(g, e, parts[0], d1);
      var d2 := CommonDepth(g, e, parts[1..]);
      d := if d1 < d2 then d2 else d1;
      forall i | 0 <= i < |parts| ensures Matches(g, e, parts[i], d) {
        if i == 0 {
          MatchesDeeper(g, e, parts[0], d1, d);
        } else {
          assert parts[i] == parts[1..][i - 1];
          MatchesDeeper(g, e, parts[i], d2, d);
        }
      }
    }
  }

  lemma {:induction false} RepJoin(g: Rules, e: Expr, lo: nat, hi: Option<nat>, parts: seq<string>)
    requires CountOk(|parts|, lo, hi) && AllAccepted(g, e, parts)
    ensures Accepts(g, Rep(e, lo, hi), Flat(parts))
  {
    var d := CommonDepth(g, e, parts);
    assert Matches(g, Rep(e, lo, hi), Flat(parts), d);
  }

  lemma {:induction false} RepSplit(g: Rules, e: Expr, lo: nat, hi: Option<nat>, s: string) returns (parts: seq<string>)
    requires Accepts(g, Rep(e, lo, hi), s)
    ensures Flat(parts) == s && CountOk(|parts|, lo, hi) && AllAccepted(g, e, parts)
  {
    var d: nat :| Matches(g, Rep(e, lo, hi), s, d);
    parts :| Flat(parts) == s && CountOk(|parts|, lo, hi)
             && forall i :: 0 <= i < |parts| ==> Matches(g, e, parts[i], d);
  }

  lemma {:induction false} AcceptsOptional(g: Rules, e: Expr, s: string)
    ensures Accepts(g, Rep(e, 0, Some(1)), s) <==> s == "" || Accepts(g, e, s)
  {
    if Accepts(g, Rep(e, 0, Some(1)), s) {
      var parts := RepSplit(g, e, 0, Some(1), s);
      if |parts| == 1 { assert parts[1..] == [] && s == parts[0]; }
    }
    if s == "" { RepJoin(g, e, 0, Some(1), []); }
    if Accepts(g, e, s) {
      RepJoin(g, e, 0, Some(1), [s]);
      assert [s][1..] == [] && Flat([s]) == s;
    }
  }

  // ---------- repetitions of one character ----------

  function Singles(s: string): seq<string> {
    if s == [] then [] else [[s[0]]] + Singles(s[1..])
  }

  lemma {:induction false} FlatSingles(s: string)
    ensures Flat(Singles(s)) == s && |Singles(s)| == |s|
    ensures forall i :: 0 <= i < |s| ==> Singles(s)[i] == [s[i]]
  {
    if s != [] {
      FlatSingles(s[1..]);
      assert Singles(s)[1..] == Singles(s[1..]);
    }
  }

  lemma {:induction false} FlatOfSingles(parts: seq<string>)
    requires forall i :: 0 <= i < |parts| ==> |parts[i]| == 1
    ensures |Flat(parts)| == |parts|
    ensures forall i :: 0 <= i < |parts| ==> parts[i] == [Flat(parts)[i]]
  {
    if parts != [] {
      FlatOfSingles(parts[1..]);
      forall i | 0 <= i < |parts| ensures parts[i] == [Flat(parts)[i]] {
        if i > 0 { assert parts[i] == parts[1..][i - 1]; }
      }
    }
  }

  // A repetition of a character class is decided by length and by each character alone.
  lemma {:induction false} AcceptsRepClass(g: Rules, rs: seq<(char, char)>, neg: bool, lo: nat, hi: Option<nat>, s: string)
    ensures Accepts(g, Rep(Class(rs, neg), lo, hi), s)
            <==> CountOk(|s|, lo, hi) && forall i :: 0 <= i < |s| ==> (InClass(s[i], rs) != neg)
  {
    var e := Class(rs, neg);
    if Accepts(g, Rep(e, lo, hi), s) {
      var parts := RepSplit(g, e, lo, hi, s);
      forall i | 0 <= i < |parts| ensures |parts[i]| == 1 && (InClass(parts[i][0], rs) != neg) {
        AcceptsClass(g, rs, neg, parts[i]);
      }
      FlatOfSingles(parts);
      forall i | 0 <= i < |s| ensures InClass(s[i], rs) != neg {
        assert parts[i] == [s[i]];
      }
    }
    if CountOk(|s|, lo, hi) && forall i :: 0 <= i < |s| ==> (InClass(s[i], rs) != neg) {
      FlatSingles(s);
      forall i | 0 <= i < |s| ensures Accepts(g, e, Singles(s)[i]) {
        AcceptsClass(g, rs, neg, [s[i]]);
      }
      RepJoin(g, e, lo, hi, Singles(s));
    }
  }

  // ---------- a deterministic first character or literal ----------

  lemma {:induction false} CatClass(g: Rules, rs: seq<(char, char)>, neg: bool, e: Expr, s: string)
    ensures Accepts(g, Cat(Class(rs, neg), e), s)
            <==> |s| >= 1 && (InClass(s[0], rs) != neg) && Accepts(g, e, s[1..])
  {
    if Accepts(g, Cat(Class(rs, neg), e), s) {
      var i := CatSplit(g, Class(rs, neg), e, s);
      AcceptsClass(g, rs, neg, s[..i]);
    }
    if |s| >= 1 && (InClass(s[0], rs) != neg) && Accepts(g, e, s[1..]) {
      AcceptsClass(g, rs, neg, [s[0]]);
      CatJoin(g, Class(rs, neg), e, [s[0]], s[1..]);
      assert s == [s[0]] + s[1..];
    }
  }

  lemma {:induction false} CatLit(g: Rules, t: string, e: Expr, s: string)
    ensures Accepts(g, Cat(Lit(t), e), s) <==> t <= s && Accepts(g, e, s[|t|..])
  {
    if Accepts(g, Cat(Lit(t), e), s) {
      var i := CatSplit(g, Lit(t), e, s);
      AcceptsLit(g, t, s[..i]);
    }
    if t <= s && Accepts(g, e, s[|t|..]) {
      AcceptsLit(g, t, t);
      CatJoin(g, Lit(t), e, t, s[|t|..]);
      assert s == t + s[|t|..];
    }
  }

  // ---------- n-ary alternation, as "a | b | c" is read ----------

  function AltAll(es: seq<Expr>): Expr
    requires es != []
  {
    if |es| == 1 then es[0] else Alt(es[0], AltAll(es[1..]))
  }

  lemma {:induction false} AltAllShort(es: seq<Expr>)
    requires es != []
    ensures |es| == 1 ==> AltAll(es) == es[0]
    ensures |es| == 2 ==> AltAll(es) == Alt(es[0], es[1])
    ensures |es| == 3 ==> AltAll(es) == Alt(es[0], Alt(es[1], es[2]))
  {
    if |es| == 3 { AltAllShort(es[1..]); }
  }

  lemma {:induction false} AcceptsAltAll(g: Rules, es: seq<Expr>, s: string)
    requires es != []
    ensures Accepts(g, AltAll(es), s) <==> exists i :: 0 <= i < |es| && Accepts(g, es[i], s)
  {
    if |es| > 1 {
      AcceptsAlt(g, es[0], AltAll(es[1..]), s);
      AcceptsAltAll(g, es[1..], s);
      if i :| 0 <= i < |es| && Accepts(g, es[i], s) {
        if i > 0 { assert es[i] == es[1..][i - 1]; }
      }
    }
  }

  // ---------- n-ary sequence, as "a b c" is read ----------

  function CatAll(es: seq<Expr>): Expr {
    if es == [] then Lit("") else Cat(es[0], CatAll(es[1..]))
  }

  lemma {:induction false} CatAllJoin(g: Rules, a: seq<Expr>, b: seq<Expr>, s: string, t: string)
    requires Accepts(g, CatAll(a), s) && Accepts(g, CatAll(b), t)
    ensures Accepts(g, CatAll(a + b), s + t)
  {
    hide Accepts;
    if a == [] {
      AcceptsLit(g, "", s);
      assert a + b == b && s + t == t;
    } else {
      var i := CatSplit(g, a[0], CatAll(a[1..]), s);
      CatAllJoin(g, a[1..], b, s[i..], t);
      CatJoin(g, a[0], CatAll(a[1..] + b), s[..i], s[i..] + t);
      assert (a + b)[1..] == a[1..] + b;
      assert s + t == s[..i] + (s[i..] + t);
    }
  }

  lemma {:induction false} CatAllSplit(g: Rules, a: seq<Expr>, b: seq<Expr>, s: string) returns (i: nat)
    requires Accepts(g, CatAll(a + b), s)
    ensures i <= |s| && Accepts(g, CatAll(a), s[..i]) && Accepts(g, CatAll(b), s[i..])
  {
    if a == [] {
      i := 0;
      assert a + b == b && s[0..] == s;
      AcceptsLit(g, "", []);
    } else {
      assert (a + b)[1..] == a[1..] + b;
      var j := CatSplit(g, a[0], CatAll(a[1..] + b), s);
      var k := CatAllSplit(g, a[1..], b, s[j..]);
      i := j + k;
      CatJoin(g, a[0], CatAll(a[1..]), s[..j], s[j..][..k]);
      assert s[..j] + s[j..][..k] == s[..i];
      assert s[j..][k..] == s[i..];
    }
  }

  lemma {:induction false} AcceptsCatAllOne(g: Rules, e: Expr, s: string)
    ensures Accepts(g, CatAll([e]), s) <==> Accepts(g, e, s)
  {
    assert CatAll([e]) == Cat(e, Lit(""));
    if Accepts(g, CatAll([e]), s) {
      var i := CatSplit(g, e, Lit(""), s);
      AcceptsLit(g, "", s[i..]);
      assert s[..i] == s;
    }
    if Accepts(g, e, s) {
      AcceptsLit(g, "", "");
      CatJoin(g, e, Lit(""), s, "");
      assert s + "" == s;
    }
  }
}
