/** The pattern compiler preserves meaning: the rule it adds accepts exactly the quoted strings the
    regular expression matches. */
module PatternMeaning {
  import opened Basics
  import opened Decimals
  import opened Gbnf
  import opened RuleStore
  import opened Pattern

  // ---------- joining items ----------

  predicate NoBar(items: seq<Item>) { forall k :: 0 <= k < |items| ==> !items[k].Bar? }

  function Exprs(items: seq<Item>): (es: seq<Expr>)
    requires NoBar(items)
    ensures |es| == |items|
  {
    if items == [] then [] else [ToRule(items[0])] + Exprs(items[1..])
  }

  function SeqExpr(items: seq<Item>): Expr
    requires NoBar(items)
  {
    CatAll(Exprs(items))
  }

  lemma {:induction false} SeqExprCons(it: Item, items: seq<Item>)
    requires !it.Bar? && NoBar(items)
    ensures NoBar([it] + items) && SeqExpr([it] + items) == Cat(ToRule(it), SeqExpr(items))
  {
    var all := [it] + items;
    assert all[1..] == items;
    var es := Exprs(all);
    assert es == [ToRule(it)] + Exprs(items) && es[1..] == Exprs(items);
  }

  lemma {:induction false} CatCongruent(g: Rules, e: Expr, a: Expr, b: Expr, s: string)
    requires forall t :: Accepts(g, a, t) <==> Accepts(g, b, t)
    ensures Accepts(g, Cat(e, a), s) <==> Accepts(g, Cat(e, b), s)
  {
    hide Accepts;
    AcceptsCat(g, e, a, s);
    AcceptsCat(g, e, b, s);
  }

  // Merging literals does not change what a sequence accepts.
  lemma {:induction false} MergedSame(g: Rules, acc: string, items: seq<Item>, s: string)
    requires NoBar(items)
    ensures NoBar(Merged(acc, items))
    ensures Accepts(g, SeqExpr(Merged(acc, items)), s) <==> acc <= s && Accepts(g, SeqExpr(items), s[|acc|..])
    decreases |items|
  {
    hide Accepts, SeqExpr;
    if items == [] {
      NothingMerged(g, acc, s);
    } else {
      assert items == [items[0]] + items[1..];
      SeqExprCons(items[0], items[1..]);
      if items[0].Literal? {
        var t := items[0].text;
        MergedSame(g, acc + t, items[1..], s);
        if acc <= s {
          CatLit(g, t, SeqExpr(items[1..]), s[|acc|..]);
          assert acc + t <= s <==> t <= s[|acc|..];
          if acc + t <= s { assert s[|acc|..][|t|..] == s[|acc + t|..]; }
        }
      } else {
        RuleKept(g, acc, items, s);
      }
    }
  }

  lemma {:induction false} NothingMerged(g: Rules, acc: string, s: string)
    ensures NoBar(Merged(acc, []))
    ensures Accepts(g, SeqExpr(Merged(acc, [])), s) <==> acc <= s && Accepts(g, SeqExpr([]), s[|acc|..])
  {
    hide Accepts;
    AcceptsLit(g, "", s);
    if acc <= s { AcceptsLit(g, "", s[|acc|..]); }
    if acc != "" {
      SeqExprCons(Literal(acc), []);
      assert [Literal(acc)] + [] == [Literal(acc)];
      CatLit(g, acc, Lit(""), s);
    }
  }

  lemma {:induction false} RuleKept(g: Rules, acc: string, items: seq<Item>, s: string)
    requires NoBar(items) && items != [] && items[0].Rule?
    ensures NoBar(Merged(acc, items))
    ensures Accepts(g, SeqExpr(Merged(acc, items)), s) <==> acc <= s && Accepts(g, SeqExpr(items), s[|acc|..])
    decreases |items|, 0
  {
    hide Accepts, SeqExpr;
    var rest, merged := items[1..], Merged("", items[1..]);
    MergedSame(g, "", rest, "");
    forall t ensures NoBar(merged) && (Accepts(g, SeqExpr(merged), t) <==> Accepts(g, SeqExpr(rest), t)) {
      MergedSame(g, "", rest, t);
      assert t[|""|..] == t;
    }
    SeqExprCons(items[0], rest);
    assert items == [items[0]] + rest;
    SeqExprCons(items[0], merged);
    forall t ensures Accepts(g, SeqExpr([items[0]] + merged), t) <==> Accepts(g, SeqExpr(items), t) {
      CatCongruent(g, ToRule(items[0]), SeqExpr(merged), SeqExpr(rest), t);
    }
    if acc == "" {
      assert Merged(acc, items) == [items[0]] + merged && s[|acc|..] == s;
    } else {
      assert Merged(acc, items) == [Literal(acc)] + ([items[0]] + merged);
      SeqExprCons(Literal(acc), [items[0]] + merged);
      CatLit(g, acc, SeqExpr([items[0]] + merged), s);
    }
  }

  lemma {:induction false} MergedAtBar(acc: string, a: seq<Item>, rest: seq<Item>)
    requires NoBar(a)
    ensures Merged(acc, a + ([Bar] + rest)) == Merged(acc, a) + ([Bar] + Merged("", rest))
    decreases |a|
  {
    var all := a + ([Bar] + rest);
    if a == [] {
      assert all == [Bar] + rest && all[1..] == rest;
    } else {
      assert all[0] == a[0] && all[1..] == a[1..] + ([Bar] + rest);
      if a[0].Literal? {
        MergedAtBar(acc + a[0].text, a[1..], rest);
      } else {
        MergedAtBar("", a[1..], rest);
        var f, m, t := FlushLiteral(acc) + [a[0]], Merged("", a[1..]), [Bar] + Merged("", rest);
        assert f + (m + t) == (f + m) + t;
      }
    }
  }

  lemma {:induction false} ReadRuleSeq(es: seq<Expr>, a: seq<Item>, rest: seq<Item>)
    requires NoBar(a)
    ensures ReadRule(es, a + rest) == ReadRule(es + Exprs(a), rest)
    decreases |a|
  {
    if a == [] {
      assert a + rest == rest && es + [] == es;
    } else {
      assert (a + rest)[0] == a[0] && (a + rest)[1..] == a[1..] + rest;
      ReadRuleSeq(es + [ToRule(a[0])], a[1..], rest);
      assert es + [ToRule(a[0])] + Exprs(a[1..]) == es + Exprs(a);
    }
  }

  lemma {:induction false} JoinedSeq(g: Rules, a: seq<Item>, s: string)
    requires NoBar(a)
    ensures Accepts(g, JoinSeq(a), s) <==> Accepts(g, SeqExpr(a), s)
  {
    hide Accepts, Merged;
    MergedSame(g, "", a, s);
    var m := Merged("", a);
    ReadRuleSeq([], m, []);
    assert m + [] == m && [] + Exprs(m) == Exprs(m) && s[|""|..] == s;
  }

  lemma {:induction false} JoinedBar(g: Rules, a: seq<Item>, rest: seq<Item>, s: string)
    requires NoBar(a)
    ensures Accepts(g, JoinSeq(a + ([Bar] + rest)), s) <==> Accepts(g, SeqExpr(a), s) || Accepts(g, JoinSeq(rest), s)
  {
    hide Accepts, Merged;
    MergedSame(g, "", a, s);
    MergedAtBar("", a, rest);
    var m, t := Merged("", a), Merged("", rest);
    ReadRuleSeq([], m, [Bar] + t);
    assert ([Bar] + t)[1..] == t && [] + Exprs(m) == Exprs(m) && s[|""|..] == s;
    AcceptsAlt(g, SeqExpr(m), ReadRule([], t), s);
  }

  // ---------- what an expression means, under every extension of a rule table ----------

  ghost predicate MeansAtom(rules: Rules, dotall: bool, e: Expr, a: Atom) {
    forall g, s :: Extends(g, rules) ==> (Accepts(g, e, s) <==> AtomMatches(dotall, a, s))
  }

  ghost predicate MeansPiece(rules: Rules, dotall: bool, e: Expr, p: Piece) {
    forall g, s :: Extends(g, rules) ==> (Accepts(g, e, s) <==> PieceMatches(dotall, p, s))
  }

  ghost predicate MeansPieces(rules: Rules, dotall: bool, items: seq<Item>, ps: seq<Piece>) {
    NoBar(items) &&
    forall g, s :: Extends(g, rules) ==> (Accepts(g, SeqExpr(items), s) <==> PiecesMatch(dotall, ps, s))
  }

  ghost predicate SomeBranch(dotall: bool, bs: seq<Branch>, s: string) {
    exists k :: 0 <= k < |bs| && PiecesMatch(dotall, bs[k].pieces, s)
  }

  ghost predicate MeansBranches(rules: Rules, dotall: bool, e: Expr, bs: seq<Branch>) {
    forall g, s :: Extends(g, rules) ==> (Accepts(g, e, s) <==> SomeBranch(dotall, bs, s))
  }

  lemma {:induction false} StillMeans(rules: Rules, more: Rules, dotall: bool, items: seq<Item>, ps: seq<Piece>)
    requires MeansPieces(rules, dotall, items, ps) && Extends(more, rules)
    ensures MeansPieces(more, dotall, items, ps)
  {
    hide Accepts, PiecesMatch, SeqExpr;
    forall g, s | Extends(g, more) ensures Accepts(g, SeqExpr(items), s) <==> PiecesMatch(dotall, ps, s) {
      assert Extends(g, rules);
    }
  }

  lemma {:induction false} StillMeansPiece(rules: Rules, more: Rules, dotall: bool, e: Expr, p: Piece)
    requires MeansPiece(rules, dotall, e, p) && Extends(more, rules)
    ensures MeansPiece(more, dotall, e, p)
  {
    hide Accepts, PieceMatches;
    forall g, s | Extends(g, more) ensures Accepts(g, e, s) <==> PieceMatches(dotall, p, s) {
      assert Extends(g, rules);
    }
  }

  lemma {:induction false} NoPieces(rules: Rules, dotall: bool)
    ensures MeansPieces(rules, dotall, [], [])
  {
    hide Accepts;
    forall g, s | Extends(g, rules) ensures Accepts(g, SeqExpr([]), s) <==> PiecesMatch(dotall, [], s) {
      AcceptsLit(g, "", s);
    }
  }

  lemma {:induction false} OnePieceMore(rules: Rules, dotall: bool, it: Item, items: seq<Item>, ps: seq<Piece>)
    requires ps != [] && !it.Bar? && MeansPiece(rules, dotall, ToRule(it), ps[0]) && MeansPieces(rules, dotall, items, ps[1..])
    ensures MeansPieces(rules, dotall, [it] + items, ps)
  {
    hide Accepts, PieceMatches, SeqExpr;
    SeqExprCons(it, items);
    forall g, s | Extends(g, rules) ensures Accepts(g, SeqExpr([it] + items), s) <==> PiecesMatch(dotall, ps, s) {
      AcceptsCat(g, ToRule(it), SeqExpr(items), s);
    }
  }

  // A run of characters, each matched once.
  predicate PlainRun(text: string, ps: seq<Piece>) {
    |text| <= |ps| && forall k :: 0 <= k < |text| ==> ps[k] == Piece(Ch(text[k]), Once)
  }

  lemma {:induction false} OneChar(dotall: bool, c: char, s: string)
    ensures PieceMatches(dotall, Piece(Ch(c), Once), s) <==> s == [c]
  {
    if s == [c] {
      assert Flat([s]) == s && CountOk(|[s]|, 1, Some(1)) by { assert [s][1..] == []; }
      assert forall i :: 0 <= i < 1 ==> AtomMatches(dotall, Ch(c), [s][i]);
    }
    if PieceMatches(dotall, Piece(Ch(c), Once), s) {
      var parts :| Flat(parts) == s && CountOk(|parts|, 1, Some(1)) && forall i :: 0 <= i < |parts| ==> AtomMatches(dotall, Ch(c), parts[i]);
      assert parts[1..] == [] && Flat(parts) == parts[0];
      assert AtomMatches(dotall, Ch(c), parts[0]);
    }
  }

  lemma {:induction false} RunMatches(dotall: bool, text: string, ps: seq<Piece>, s: string)
    requires PlainRun(text, ps)
    ensures PiecesMatch(dotall, ps, s) <==> text <= s && PiecesMatch(dotall, ps[|text|..], s[|text|..])
    decreases |text|
  {
    hide PieceMatches;
    if text == "" {
      assert ps[0..] == ps && s[0..] == s;
    } else {
      forall t ensures PieceMatches(dotall, ps[0], t) <==> t == [text[0]] { OneChar(dotall, text[0], t); }
      if s != "" && s[0] == text[0] {
        RunMatches(dotall, text[1..], ps[1..], s[1..]);
        assert s[..1] == [text[0]];
        assert text <= s <==> text[1..] <= s[1..];
        assert ps[1..][|text| - 1..] == ps[|text|..];
        if text <= s { assert s[1..][|text| - 1..] == s[|text|..]; }
      }
      if PiecesMatch(dotall, ps, s) {
        var i :| 0 <= i <= |s| && PieceMatches(dotall, ps[0], s[..i]) && PiecesMatch(dotall, ps[1..], s[i..]);
        assert s[..i] == [text[0]] && i == |s[..i]| == 1 && s[..i][0] == s[0];
      }
    }
  }

  lemma {:induction false} RunMeans(rules: Rules, dotall: bool, text: string, items: seq<Item>, ps: seq<Piece>)
    requires PlainRun(text, ps) && MeansPieces(rules, dotall, items, ps[|text|..])
    ensures MeansPieces(rules, dotall, [Literal(text)] + items, ps)
  {
    hide Accepts, PiecesMatch, SeqExpr;
    SeqExprCons(Literal(text), items);
    forall g, s | Extends(g, rules)
      ensures Accepts(g, SeqExpr([Literal(text)] + items), s) <==> PiecesMatch(dotall, ps, s)
    {
      CatLit(g, text, SeqExpr(items), s);
      RunMatches(dotall, text, ps, s);
    }
  }

  lemma {:induction false} RepeatedMeans(rules: Rules, dotall: bool, e: Expr, p: Piece)
    requires MeansAtom(rules, dotall, e, p.atom)
    ensures MeansPiece(rules, dotall, Rep(e, Low(p.quant), High(p.quant)), p)
  {
    hide Accepts, AtomMatches;
    var lo, hi := Low(p.quant), High(p.quant);
    forall g, s | Extends(g, rules) ensures Accepts(g, Rep(e, lo, hi), s) <==> PieceMatches(dotall, p, s) {
      if Accepts(g, Rep(e, lo, hi), s) {
        var parts := RepSplit(g, e, lo, hi, s);
        assert forall i :: 0 <= i < |parts| ==> AtomMatches(dotall, p.atom, parts[i]);
      }
      if PieceMatches(dotall, p, s) {
        var parts :| Flat(parts) == s && CountOk(|parts|, lo, hi) && forall i :: 0 <= i < |parts| ==> AtomMatches(dotall, p.atom, parts[i]);
        RepJoin(g, e, lo, hi, parts);
      }
    }
  }

  // A maximum of zero leaves the empty string only.
  lemma {:induction false} BuiltMeans(rules: Rules, dotall: bool, e: Expr, p: Piece)
    requires MeansAtom(rules, dotall, e, p.atom) && QuantOk(p.quant)
    ensures MeansPiece(rules, dotall, BuildRepetition(e, Low(p.quant), High(p.quant)), p)
  {
    RepeatedMeans(rules, dotall, e, p);
    if High(p.quant) == Some(0) {
      hide Accepts, AtomMatches;
      assert Low(p.quant) == 0;
      forall g, s | Extends(g, rules) ensures Accepts(g, Lit(""), s) <==> PieceMatches(dotall, p, s) {
        AcceptsLit(g, "", s);
        if s == "" {
          var none: seq<string> := [];
          assert Flat(none) == s && CountOk(|none|, 0, Some(0));
        }
      }
    }
  }

  lemma {:induction false} OnceMeans(rules: Rules, dotall: bool, e: Expr, a: Atom)
    requires MeansAtom(rules, dotall, e, a)
    ensures MeansPiece(rules, dotall, e, Piece(a, Once))
  {
    hide Accepts;
    var p := Piece(a, Once);
    forall g, s | Extends(g, rules) ensures Accepts(g, e, s) <==> PieceMatches(dotall, p, s) {
      OnceIsAtom(dotall, a, s);
    }
  }

  lemma {:induction false} OnceIsAtom(dotall: bool, a: Atom, s: string)
    ensures PieceMatches(dotall, Piece(a, Once), s) <==> AtomMatches(dotall, a, s)
  {
    hide AtomMatches;
    if AtomMatches(dotall, a, s) {
      assert Flat([s]) == s && CountOk(|[s]|, 1, Some(1)) by { assert [s][1..] == []; }
      assert forall i :: 0 <= i < 1 ==> AtomMatches(dotall, a, [s][i]);
    }
    if PieceMatches(dotall, Piece(a, Once), s) {
      var parts :| Flat(parts) == s && CountOk(|parts|, 1, Some(1)) && forall i :: 0 <= i < |parts| ==> AtomMatches(dotall, a, parts[i]);
      assert parts[1..] == [] && Flat(parts) == parts[0];
      assert AtomMatches(dotall, a, parts[0]);
    }
  }

  lemma {:induction false} CharMeans(rules: Rules, dotall: bool, c: char)
    ensures MeansAtom(rules, dotall, Lit([c]), Ch(c))
  {
    hide Accepts;
    forall g, s | Extends(g, rules) ensures Accepts(g, Lit([c]), s) <==> AtomMatches(dotall, Ch(c), s) { AcceptsLit(g, [c], s); }
  }

  lemma {:induction false} DotMeans(rules: Rules, dotall: bool, key: string)
    requires key in rules && rules[key] == DotRule(dotall)
    ensures MeansAtom(rules, dotall, Ref(key), Dot)
  {
    hide Accepts;
    forall g, s | Extends(g, rules) ensures Accepts(g, Ref(key), s) <==> AtomMatches(dotall, Dot, s) {
      AcceptsRef(g, key, s);
      var e := DotRule(dotall);
      AcceptsClass(g, e.ranges, e.negated, s);
      if |s| == 1 {
        var c := s[0];
        if dotall {
          assert e.ranges[0].0 <= c <= e.ranges[0].1;
        } else {
          assert e.ranges[0] == ('\n', '\n') && e.ranges[1] == ('\r', '\r');
        }
      }
    }
  }

  // A repeated group or dot is replaced by a reference to a rule that holds it.
  ghost predicate StOk(st: PState) {
    forall e :: e in st.subIds ==> st.subIds[e] in st.rules && st.rules[st.subIds[e]] == e
  }

  lemma {:induction false} RepeatedItem(st: PState, cfg: Config, it: Item, a: Atom)
    requires StOk(st) && !it.Bar? && MeansAtom(st.rules, cfg.dotall, ToRule(it), a)
    ensures var r := Repeated(st, cfg.name, it);
            StOk(r.0) && Extends(r.0.rules, st.rules) && MeansAtom(r.0.rules, cfg.dotall, r.1, a)
  {
    hide Accepts, AtomMatches;
    if it.Rule? {
      var r := Repeated(st, cfg.name, it);
      forall g, s | Extends(g, r.0.rules) ensures Accepts(g, r.1, s) <==> AtomMatches(cfg.dotall, a, s) {
        AcceptsRef(g, r.1.name, s);
        assert Extends(g, st.rules);
      }
    }
  }

  // ---------- positions in the written form ----------

  predicate PiecesOk(ps: seq<Piece>) { forall k :: 0 <= k < |ps| ==> PieceOk(ps[k]) }

  predicate BranchesOk(bs: seq<Branch>) { forall k :: 0 <= k < |bs| ==> PiecesOk(bs[k].pieces) }

  // `text` stands at index `i`.
  predicate At(p: string, i: nat, text: string) { i + |text| <= |p| && p[i..i + |text|] == text }

  lemma {:induction false} AtSplit(p: string, i: nat, a: string, b: string)
    requires At(p, i, a + b)
    ensures At(p, i, a) && At(p, i + |a|, b)
  {
    assert p[i..i + |a|] == (a + b)[..|a|];
    assert p[i + |a|..i + |a| + |b|] == (a + b)[|a|..];
  }

  // A branch ends here; nothing that binds to the item before follows.
  predicate BranchEnds(p: string, i: nat) { i == |p| || (i < |p| && p[i] in {'|', ')'}) }

  predicate NoPostfix(p: string, i: nat) { i >= |p| || p[i] !in {'*', '+', '?', '{'} }

  lemma {:induction false} AtomText(a: Atom)
    requires a.Ch? ==> Plain(a.c)
    ensures PrintAtom(a) != "" && PrintAtom(a)[0] !in {'*', '+', '?', '{', '|', ')'}
    ensures !NonLiteral(PrintAtom(a)[0]) ==> a == Ch(PrintAtom(a)[0]) && |PrintAtom(a)| == 1
  {
  }

  lemma {:induction false} PiecesText(ps: seq<Piece>)
    requires ps != []
    ensures PrintPieces(ps) == (PrintAtom(ps[0].atom) + PrintQuant(ps[0].quant)) + PrintPieces(ps[1..])
  {
  }

  lemma {:induction false} PiecesStart(ps: seq<Piece>)
    requires PiecesOk(ps)
    ensures ps != [] ==> PrintPieces(ps) != "" && PrintPieces(ps)[0] !in {'*', '+', '?', '{', '|', ')'}
  {
    if ps != [] {
      assert PieceOk(ps[0]);
      PiecesText(ps);
      hide PrintPieces, PrintAtom, PrintQuant;
      AtomText(ps[0].atom);
    }
  }

  // The key lemma: a literal of several characters is followed by nothing that binds to it.
  lemma {:induction false} LiteralStops(p: string, i: nat, k: nat)
    requires i < k <= |p| && (k > i + 1 ==> NoPostfix(p, k))
    requires forall j :: i <= j < k ==> !NonLiteral(p[j]) && p[j] !in {'\\', '"'}
    ensures var e := LiteralEnd(p, i, k);
            && (e > i + 1 ==> NoPostfix(p, e))
            && (forall j :: i <= j < e ==> !NonLiteral(p[j]) && p[j] !in {'\\', '"'})
    decreases |p| - k
  {
    if LiteralEnd(p, i, k) != k { LiteralStops(p, i, k + 1); }
  }

  lemma {:induction false} RunCons(text: string, ps: seq<Piece>)
    requires text != "" && ps != [] && ps[0] == Piece(Ch(text[0]), Once) && PlainRun(text[1..], ps[1..])
    ensures PlainRun(text, ps)
  {
    forall k | 0 <= k < |text| ensures ps[k] == Piece(Ch(text[k]), Once) {
      if k > 0 { assert ps[k] == ps[1..][k - 1] && text[k] == text[1..][k - 1]; }
    }
  }

  // The characters of a literal are pieces matched once, the last one included.
  lemma {:induction false} LiteralIsRun(p: string, i: nat, n: nat, ps: seq<Piece>)
    requires PiecesOk(ps)
    requires At(p, i, PrintPieces(ps)) && BranchEnds(p, i + |PrintPieces(ps)|)
    requires i + n <= |p| && NoPostfix(p, i + n)
    requires forall j :: i <= j < i + n ==> !NonLiteral(p[j])
    ensures PlainRun(p[i..i + n], ps)
    ensures At(p, i + n, PrintPieces(ps[n..])) && n + |PrintPieces(ps[n..])| == |PrintPieces(ps)|
    decreases n
  {
    hide PieceOk, NonLiteral;
    if n == 0 {
      assert ps[0..] == ps;
    } else {
      RunNotOver(p, i, ps);
      OneOfRun(p, i, n, ps);
      hide PrintPieces, At;
      OtherPiecesOk(ps);
      LiteralIsRun(p, i + 1, n - 1, ps[1..]);
      assert ps[1..][n - 1..] == ps[n..];
      assert p[i..i + n][1..] == p[i + 1..i + 1 + (n - 1)];
      RunCons(p[i..i + n], ps);
    }
  }

  lemma {:induction false} RunNotOver(p: string, i: nat, ps: seq<Piece>)
    requires i < |p| && !NonLiteral(p[i]) && BranchEnds(p, i + |PrintPieces(ps)|)
    ensures ps != []
  {
  }

  lemma {:induction false} OneOfRun(p: string, i: nat, n: nat, ps: seq<Piece>)
    requires ps != [] && PieceOk(ps[0])
    requires At(p, i, PrintPieces(ps))
    requires n > 0 && i + n <= |p| && NoPostfix(p, i + n)
    requires forall j :: i <= j < i + n ==> !NonLiteral(p[j])
    ensures ps[0] == Piece(Ch(p[i]), Once)
    ensures At(p, i + 1, PrintPieces(ps[1..])) && |PrintPieces(ps)| == 1 + |PrintPieces(ps[1..])|
  {
    var a, q, rest := PrintAtom(ps[0].atom), PrintQuant(ps[0].quant), PrintPieces(ps[1..]);
    PiecesText(ps);
    AtomText(ps[0].atom) by { assert PieceOk(ps[0]); }
    QuantStart(ps[0].quant);
    hide PrintPieces, PrintAtom, PrintQuant, PieceOk;
    AtSplit(p, i, a + q, rest);
    AtSplit(p, i, a, q);
    assert p[i] == a[0];
    assert ps[0].atom == Ch(p[i]) && |a| == 1;
    NoQuantHere(p, i, n, ps[0].quant);
    assert ps[0] == Piece(ps[0].atom, ps[0].quant);
  }

  lemma {:induction false} NoQuantHere(p: string, i: nat, n: nat, q: Quant)
    requires At(p, i + 1, PrintQuant(q))
    requires n > 0 && i + n <= |p| && NoPostfix(p, i + n)
    requires forall j :: i <= j < i + n ==> !NonLiteral(p[j])
    ensures q.Once?
  {
    QuantStart(q);
    AtFirst(p, i + 1, PrintQuant(q));
  }

  lemma {:induction false} AtFirst(p: string, i: nat, text: string)
    requires At(p, i, text)
    ensures text != "" ==> i < |p| && p[i] == text[0]
  {
  }

  lemma {:induction false} QuantStart(q: Quant)
    ensures PrintQuant(q) == "" <==> q.Once?
    ensures PrintQuant(q) != "" ==> PrintQuant(q)[0] in {'*', '+', '?', '{'}
    ensures PrintQuant(q) != "" && PrintQuant(q)[0] != '{' ==> |PrintQuant(q)| == 1
  {
  }

  // ---------- counts ----------

  lemma {:induction false} FindIs(s: string, c: char, i: nat, k: nat)
    requires i <= k < |s| && s[k] == c && forall j :: i <= j < k ==> s[j] != c
    ensures Find(s, c, i) == k
  {
  }

  lemma {:induction false} CountReadsBack(n: nat)
    requires n <= INT_MAX
    ensures ReadCount(Decimal(n)) == Some(n) && Decimal(n) != "" && forall k :: 0 <= k < |Decimal(n)| ==> Decimal(n)[k] !in {',', '}'}
  {
    DecimalCanonical(n);
  }

  lemma {:induction false} TwoBounds(a: string, b: string)
    requires ',' !in a
    ensures ReadBounds(a + "," + b) ==
            var lo := if a == "" then Some(0) else ReadCount(a);
            var hi := if b == "" then Some(INT_MAX) else ReadCount(b);
            if lo.Some? && hi.Some? then Some((lo.value, NoMax(hi.value))) else None
  {
    hide ReadCount, Find;
    var s := a + "," + b;
    FindIs(s, ',', 0, |a|);
    assert s[..|a|] == a && s[|a| + 1..] == b;
  }

  lemma {:induction false} OneBound(a: string)
    requires ',' !in a && ReadCount(a).Some?
    ensures ReadBounds(a) == Some((ReadCount(a).value, NoMax(ReadCount(a).value)))
  {
    hide ReadCount;
  }

  lemma {:induction false} BoundsReadBack(q: Quant)
    requires QuantOk(q) && PrintQuant(q) != "" && PrintQuant(q)[0] == '{'
    ensures PrintQuant(q) == "{" + BoundsText(q) + "}"
    ensures '}' !in BoundsText(q)
    ensures ReadBounds(BoundsText(q)) == Some((Low(q), High(q)))
  {
    hide ReadCount, Decimal, ReadBounds;
    match q
    case Exactly(n) =>
      CountReadsBack(n);
      OneBound(Decimal(n));
    case AtLeast(m) =>
      CountReadsBack(m);
      TwoBounds(Decimal(m), "");
    case AtMost(n) =>
      CountReadsBack(n);
      TwoBounds("", Decimal(n));
    case Between(m, n) =>
      CountReadsBack(m);
      CountReadsBack(n);
      TwoBounds(Decimal(m), Decimal(n));
  }

  // ---------- single steps of the loop ----------

  lemma {:induction false} LastOf(items: seq<Item>, it: Item, e: Expr)
    ensures Last(items + [it]) == it && SetLast(items + [it], e) == items + [Rule(e)]
  {
  }

  lemma {:induction false} PostfixStep(p: string, i: nat, items: seq<Item>, it: Item, st: PState, cfg: Config)
    requires i < |p| && p[i] in {'*', '+', '?'} && !it.Bar?
    ensures Loop(p, i, items + [it], st, cfg)
            == Loop(p, i + 1, items + [Rule(Rep(ToRule(it), if p[i] == '+' then 1 else 0, if p[i] == '?' then Some(1) else None))], st, cfg)
  {
    LastOf(items, it, Rep(ToRule(it), if p[i] == '+' then 1 else 0, if p[i] == '?' then Some(1) else None));
  }

  lemma {:induction false} CurlyStep(p: string, i: nat, k: nat, items: seq<Item>, it: Item, st: PState, cfg: Config)
    requires i < k < |p| && p[i] == '{' && p[k] == '}' && (forall j :: i < j < k ==> p[j] != '}') && !it.Bar?
    requires ReadBounds(p[i + 1..k]).Some?
    ensures var b, r := ReadBounds(p[i + 1..k]).value, Repeated(st, cfg.name, it);
            Loop(p, i, items + [it], st, cfg) == Loop(p, k + 1, items + [Rule(BuildRepetition(r.1, b.0, b.1))], r.0, cfg)
  {
    hide ReadBounds, Repeated, BuildRepetition;
    FindIs(p, '}', i + 1, k);
    var b, r := ReadBounds(p[i + 1..k]).value, Repeated(st, cfg.name, it);
    LastOf(items, it, BuildRepetition(r.1, b.0, b.1));
  }

  lemma {:induction false} LiteralStep(p: string, i: nat, items: seq<Item>, st: PState, cfg: Config)
    requires i < |p| && !NonLiteral(p[i]) && p[i] !in {'\\', '"'}
    ensures var k := LiteralEnd(p, i, i + 1);
            Loop(p, i, items, st, cfg) == Loop(p, k, items + [Literal(p[i..k])], st, cfg)
  {
    hide LiteralEnd;
  }

  lemma {:induction false} DotStep(p: string, i: nat, items: seq<Item>, st: PState, cfg: Config)
    requires i < |p| && p[i] == '.'
    ensures var r := AddRule(st.rules, "dot", DotRule(cfg.dotall));
            Loop(p, i, items, st, cfg) == Loop(p, i + 1, items + [Rule(Ref(r.1))], st.(rules := r.0), cfg)
  {
    hide DotRule;
  }

  lemma {:induction false} GroupStep(p: string, i: nat, items: seq<Item>, st: PState, cfg: Config)
    requires i < |p| && p[i] == '('
    ensures var inner := Loop(p, i + 1, [], st, cfg);
            inner.Done? ==> Loop(p, i, items, st, cfg) == Loop(p, inner.i, items + [Rule(inner.e)], inner.st, cfg)
  {
  }

  lemma {:induction false} BarStep(p: string, i: nat, items: seq<Item>, st: PState, cfg: Config)
    requires i < |p| && p[i] == '|'
    ensures Loop(p, i, items, st, cfg) == Loop(p, i + 1, items + [Bar], st, cfg)
  {
  }

  lemma {:induction false} EndStep(p: string, i: nat, items: seq<Item>, st: PState, cfg: Config)
    requires i <= |p| && (i < |p| ==> p[i] == ')')
    ensures Loop(p, i, items, st, cfg) == Done(if i == |p| then i else i + 1, JoinSeq(items), st)
  {
  }

  // ---------- one piece ----------

  // After the atom: the operator that binds to it, if any, turns its item into the piece's.
  lemma {:induction false} QuantRun(p: string, i: nat, x: Piece, items: seq<Item>, it: Item, st: PState, cfg: Config)
    returns (it2: Item, st2: PState)
    requires QuantOk(x.quant) && At(p, i, PrintQuant(x.quant))
    requires StOk(st) && !it.Bar? && MeansAtom(st.rules, cfg.dotall, ToRule(it), x.atom)
    ensures StOk(st2) && Extends(st2.rules, st.rules) && !it2.Bar? && MeansPiece(st2.rules, cfg.dotall, ToRule(it2), x)
    ensures Loop(p, i, items + [it], st, cfg) == Loop(p, i + |PrintQuant(x.quant)|, items + [it2], st2, cfg)
  {
    hide MeansAtom, MeansPiece, StOk, Decimal, Loop, Repeated, BuildRepetition;
    var q := PrintQuant(x.quant);
    QuantStart(x.quant);
    if q == "" {
      assert x == Piece(x.atom, Once);
      OnceMeans(st.rules, cfg.dotall, ToRule(it), x.atom);
      it2, st2 := it, st;
    } else if q[0] != '{' {
      assert p[i] == q[0];
      RepeatedMeans(st.rules, cfg.dotall, ToRule(it), x);
      it2, st2 := Rule(Rep(ToRule(it), Low(x.quant), High(x.quant))), st;
      PostfixStep(p, i, items, it, st, cfg);
    } else {
      it2, st2 := CurlyRun(p, i, x, items, it, st, cfg);
    }
  }

  lemma {:induction false} InCurly(p: string, i: nat, text: string)
    requires At(p, i, "{" + text + "}") && '}' !in text
    ensures var k := i + 1 + |text|;
            k < |p| && p[i] == '{' && p[i + 1..k] == text && p[k] == '}' && forall j :: i < j < k ==> p[j] != '}'
  {
    AtSplit(p, i, "{" + text, "}");
    AtSplit(p, i, "{", text);
    var k := i + 1 + |text|;
    assert p[i + 1..k] == text;
    assert forall j :: i + 1 <= j < k ==> p[j] == text[j - (i + 1)];
  }

  lemma {:induction false} CurlyRun(p: string, i: nat, x: Piece, items: seq<Item>, it: Item, st: PState, cfg: Config)
    returns (it2: Item, st2: PState)
    requires QuantOk(x.quant) && At(p, i, PrintQuant(x.quant)) && PrintQuant(x.quant) != "" && PrintQuant(x.quant)[0] == '{'
    requires StOk(st) && !it.Bar? && MeansAtom(st.rules, cfg.dotall, ToRule(it), x.atom)
    ensures StOk(st2) && Extends(st2.rules, st.rules) && !it2.Bar? && MeansPiece(st2.rules, cfg.dotall, ToRule(it2), x)
    ensures Loop(p, i, items + [it], st, cfg) == Loop(p, i + |PrintQuant(x.quant)|, items + [it2], st2, cfg)
  {
    var text := BoundsText(x.quant);
    hide MeansAtom, MeansPiece, StOk, Decimal, Loop, Repeated, BuildRepetition, BoundsText, ReadBounds;
    BoundsReadBack(x.quant);
    hide PrintQuant, Low, High, QuantOk;
    var k := i + 1 + |text|;
    InCurly(p, i, text);
    CurlyStep(p, i, k, items, it, st, cfg);
    var r := Repeated(st, cfg.name, it);
    RepeatedItem(st, cfg, it, x.atom);
    BuiltMeans(r.0.rules, cfg.dotall, r.1, x);
    it2, st2 := Rule(BuildRepetition(r.1, Low(x.quant), High(x.quant))), r.0;
  }

  // ---------- whole expressions ----------

  // A character before an operator is a literal of its own.
  lemma {:induction false} LoneChar(p: string, i: nat, items: seq<Item>, st: PState, cfg: Config)
    requires i < |p| && Plain(p[i]) && !NoPostfix(p, i + 1)
    ensures Loop(p, i, items, st, cfg) == Loop(p, i + 1, items + [Literal([p[i]])], st, cfg)
  {
    hide Loop;
    LiteralStep(p, i, items, st, cfg);
    assert LiteralEnd(p, i, i + 1) == i + 1;
    assert p[i..i + 1] == [p[i]];
  }

  lemma {:induction false} DotRun(p: string, i: nat, items: seq<Item>, st: PState, cfg: Config) returns (it: Item, st2: PState)
    requires i < |p| && p[i] == '.' && StOk(st)
    ensures StOk(st2) && Extends(st2.rules, st.rules) && !it.Bar? && MeansAtom(st2.rules, cfg.dotall, ToRule(it), Dot)
    ensures Loop(p, i, items, st, cfg) == Loop(p, i + 1, items + [it], st2, cfg)
  {
    hide MeansAtom, Loop, DotRule;
    DotStep(p, i, items, st, cfg);
    var r := AddRule(st.rules, "dot", DotRule(cfg.dotall));
    DotMeans(r.0, cfg.dotall, r.1);
    it, st2 := Rule(Ref(r.1)), st.(rules := r.0);
  }

  lemma {:induction false} SomeBranchCons(dotall: bool, bs: seq<Branch>, s: string)
    requires bs != []
    ensures SomeBranch(dotall, bs, s) <==> PiecesMatch(dotall, bs[0].pieces, s) || SomeBranch(dotall, bs[1..], s)
  {
    hide PiecesMatch;
    if k :| 0 <= k < |bs| && PiecesMatch(dotall, bs[k].pieces, s) {
      if k > 0 { assert bs[1..][k - 1] == bs[k]; }
    }
    if k :| 0 <= k < |bs[1..]| && PiecesMatch(dotall, bs[1..][k].pieces, s) {
      assert bs[1..][k] == bs[k + 1];
    }
  }

  lemma {:induction false} LastBranch(rules: Rules, dotall: bool, items: seq<Item>, bs: seq<Branch>)
    requires |bs| == 1 && MeansPieces(rules, dotall, items, bs[0].pieces)
    ensures MeansBranches(rules, dotall, JoinSeq(items), bs)
  {
    hide Accepts, PiecesMatch, SeqExpr, JoinSeq;
    forall g, s | Extends(g, rules) ensures Accepts(g, JoinSeq(items), s) <==> SomeBranch(dotall, bs, s) {
      JoinedSeq(g, items, s);
      SomeBranchCons(dotall, bs, s);
      assert bs[1..] == [] && !SomeBranch(dotall, bs[1..], s);
    }
  }

  lemma {:induction false} MoreBranches(rules: Rules, dotall: bool, a: seq<Item>, rest: seq<Item>, bs: seq<Branch>)
    requires bs != [] && MeansPieces(rules, dotall, a, bs[0].pieces) && MeansBranches(rules, dotall, JoinSeq(rest), bs[1..])
    ensures MeansBranches(rules, dotall, JoinSeq(a + ([Bar] + rest)), bs)
  {
    hide Accepts, PiecesMatch, SeqExpr, JoinSeq, SomeBranch;
    forall g, s | Extends(g, rules) ensures Accepts(g, JoinSeq(a + ([Bar] + rest)), s) <==> SomeBranch(dotall, bs, s) {
      JoinedBar(g, a, rest, s);
      SomeBranchCons(dotall, bs, s);
    }
  }

  lemma {:induction false} GroupMeans(rules: Rules, dotall: bool, e: Expr, r: Regex)
    requires MeansBranches(rules, dotall, e, r.branches)
    ensures MeansAtom(rules, dotall, e, Group(r))
  {
    hide Accepts, PiecesMatch;
    forall g, s | Extends(g, rules) ensures Accepts(g, e, s) <==> AtomMatches(dotall, Group(r), s) {
      assert SomeBranch(dotall, r.branches, s) <==> RegexMatches(dotall, r, s);
    }
  }

  // One atom: a lone character, a dot, or a group translated by a nested call.
  lemma {:induction false} AtomRun(p: string, i: nat, x: Piece, items: seq<Item>, st: PState, cfg: Config)
    returns (it: Item, st2: PState)
    requires PieceOk(x) && (x.atom.Ch? ==> !NoPostfix(p, i + 1))
    requires At(p, i, PrintAtom(x.atom)) && StOk(st)
    ensures StOk(st2) && Extends(st2.rules, st.rules) && !it.Bar? && MeansAtom(st2.rules, cfg.dotall, ToRule(it), x.atom)
    ensures Loop(p, i, items, st, cfg) == Loop(p, i + |PrintAtom(x.atom)|, items + [it], st2, cfg)
    decreases x, 0
  {
    hide MeansAtom, Loop, StOk, RegexOk, PrintRegex;
    match x.atom
    case Ch(c) =>
      assert p[i] == c;
      CharMeans(st.rules, cfg.dotall, c);
      LoneChar(p, i, items, st, cfg);
      it, st2 := Literal([c]), st;
    case Dot =>
      assert p[i] == '.';
      it, st2 := DotRun(p, i, items, st, cfg);
    case Group(r) =>
      InGroup(p, i, PrintRegex(r));
      var e: Expr;
      e, st2 := RegexRun(p, i + 1, r, st, cfg);
      it := Rule(e);
      GroupStep(p, i, items, st, cfg);
      GroupMeans(st2.rules, cfg.dotall, e, r);
  }

  lemma {:induction false} InGroup(p: string, i: nat, text: string)
    requires At(p, i, "(" + text + ")")
    ensures var k := i + 1 + |text|; k < |p| && p[i] == '(' && At(p, i + 1, text) && p[k] == ')'
  {
    AtSplit(p, i, "(" + text, ")");
    AtSplit(p, i, "(", text);
    AtFirst(p, i + 1 + |text|, ")");
  }

  lemma {:induction false} OtherPiecesOk(ps: seq<Piece>)
    requires ps != [] && PiecesOk(ps)
    ensures PieceOk(ps[0]) && PiecesOk(ps[1..])
  {
    hide PieceOk;
    assert forall k :: 0 <= k < |ps[1..]| ==> ps[1..][k] == ps[k + 1];
  }

  lemma {:induction false} OtherBranchesOk(bs: seq<Branch>)
    requires bs != [] && BranchesOk(bs)
    ensures PiecesOk(bs[0].pieces) && BranchesOk(bs[1..])
  {
    hide PiecesOk;
    assert forall k :: 0 <= k < |bs[1..]| ==> bs[1..][k] == bs[k + 1];
  }

  lemma {:induction false} ExtendsItself(rules: Rules)
    ensures Extends(rules, rules)
  {
  }

  lemma {:induction false} ExtendsFurther(a: Rules, b: Rules, c: Rules)
    requires Extends(a, b) && Extends(b, c)
    ensures Extends(a, c)
  {
  }

  // From `i` with `items` the loop gets to `j` with `more` behind them, keeping the table sound.
  ghost predicate Gets(p: string, i: nat, j: nat, items: seq<Item>, more: seq<Item>, st: PState, st2: PState, cfg: Config) {
    && i <= |p| && j <= |p|
    && StOk(st2) && Extends(st2.rules, st.rules)
    && Loop(p, i, items, st, cfg) == Loop(p, j, items + more, st2, cfg)
  }

  lemma {:induction false} GetsOn(p: string, i: nat, j: nat, k: nat, items: seq<Item>, a: seq<Item>, b: seq<Item>,
                                  st: PState, st1: PState, st2: PState, cfg: Config)
    requires Gets(p, i, j, items, a, st, st1, cfg) && Gets(p, j, k, items + a, b, st1, st2, cfg)
    ensures Gets(p, i, k, items, a + b, st, st2, cfg)
  {
    hide Loop, StOk, Extends;
    Assoc(items, a, b);
    ExtendsFurther(st2.rules, st1.rules, st.rules);
  }

  lemma {:induction false} GetsNowhere(p: string, i: nat, items: seq<Item>, st: PState, cfg: Config)
    requires i <= |p| && StOk(st)
    ensures Gets(p, i, i, items, [], st, st, cfg)
  {
    hide Loop, StOk;
    assert items + [] == items;
  }

  // A branch, piece by piece; a literal takes several pieces at once.
  lemma {:induction false} PiecesRun(p: string, i: nat, j: nat, ps: seq<Piece>, items: seq<Item>, st: PState, cfg: Config)
    returns (more: seq<Item>, st2: PState)
    requires PiecesOk(ps) && StOk(st)
    requires At(p, i, PrintPieces(ps)) && j == i + |PrintPieces(ps)| && BranchEnds(p, j)
    ensures Gets(p, i, j, items, more, st, st2, cfg) && MeansPieces(st2.rules, cfg.dotall, more, ps)
    decreases ps, 1
  {
    hide MeansPieces, Gets, PieceOk, StOk, PrintAtom, PrintQuant, BranchEnds;
    if ps == [] {
      more, st2 := [], st;
      NoPieces(st.rules, cfg.dotall);
      GetsNowhere(p, i, items, st, cfg);
    } else if ps[0].atom.Ch? && ps[0].quant.Once? {
      more, st2 := LiteralRun(p, i, j, ps, items, st, cfg);
    } else {
      more, st2 := PieceThenRest(p, i, j, ps, items, st, cfg);
    }
  }

  // Where the parts of the first piece and the rest stand.
  lemma {:induction false} PieceShape(p: string, i: nat, ps: seq<Piece>)
    requires ps != [] && PieceOk(ps[0]) && !(ps[0].atom.Ch? && ps[0].quant.Once?)
    requires At(p, i, PrintPieces(ps))
    ensures var x := ps[0];
            var j, k := i + |PrintAtom(x.atom)|, i + |PrintPiece(x)|;
            && At(p, i, PrintAtom(x.atom)) && At(p, j, PrintQuant(x.quant)) && At(p, k, PrintPieces(ps[1..]))
            && k + |PrintPieces(ps[1..])| == i + |PrintPieces(ps)|
            && (x.atom.Ch? ==> !NoPostfix(p, i + 1))
  {
    PiecesText(ps);
    QuantStart(ps[0].quant);
    var x := ps[0];
    var a, q, rest := PrintAtom(x.atom), PrintQuant(x.quant), PrintPieces(ps[1..]);
    assert PrintPiece(x) == a + q && (x.atom.Ch? ==> |a| == 1);
    hide PrintAtom, PrintQuant, PrintPieces, PrintPiece, PieceOk;
    AtSplit(p, i, a + q, rest);
    AtSplit(p, i, a, q);
    AtFirst(p, i + |a|, q);
  }

  lemma {:induction false} PieceThenRest(p: string, i: nat, j: nat, ps: seq<Piece>, items: seq<Item>, st: PState, cfg: Config)
    returns (more: seq<Item>, st2: PState)
    requires PiecesOk(ps) && StOk(st)
    requires ps != [] && !(ps[0].atom.Ch? && ps[0].quant.Once?)
    requires At(p, i, PrintPieces(ps)) && j == i + |PrintPieces(ps)| && BranchEnds(p, j)
    ensures Gets(p, i, j, items, more, st, st2, cfg) && MeansPieces(st2.rules, cfg.dotall, more, ps)
    decreases ps, 0
  {
    hide *;
    OtherPiecesOk(ps);
    PieceShape(p, i, ps);
    var k := i + |PrintPiece(ps[0])|;
    var it, st1 := OnePieceRun(p, i, k, ps[0], items, st, cfg);
    GetsSound(p, i, k, items, [it], st, st1, cfg);
    var tail: seq<Item>;
    tail, st2 := PiecesRun(p, k, j, ps[1..], items + [it], st1, cfg);
    GetsSound(p, k, j, items + [it], tail, st1, st2, cfg);
    more := [it] + tail;
    GetsOn(p, i, k, j, items, [it], tail, st, st1, st2, cfg);
    PieceJoins(st1, st2, cfg, it, tail, ps);
  }

  lemma {:induction false} GetsSound(p: string, i: nat, j: nat, items: seq<Item>, more: seq<Item>, st: PState, st2: PState, cfg: Config)
    requires Gets(p, i, j, items, more, st, st2, cfg)
    ensures i <= |p| && j <= |p| && StOk(st2) && Extends(st2.rules, st.rules)
  {
  }

  lemma {:induction false} PieceJoins(st1: PState, st2: PState, cfg: Config, it: Item, tail: seq<Item>, ps: seq<Piece>)
    requires ps != [] && !it.Bar? && Extends(st2.rules, st1.rules)
    requires MeansPiece(st1.rules, cfg.dotall, ToRule(it), ps[0]) && MeansPieces(st2.rules, cfg.dotall, tail, ps[1..])
    ensures MeansPieces(st2.rules, cfg.dotall, [it] + tail, ps)
  {
    hide *;
    StillMeansPiece(st1.rules, st2.rules, cfg.dotall, ToRule(it), ps[0]);
    OnePieceMore(st2.rules, cfg.dotall, it, tail, ps);
  }

  lemma {:induction false} OnePieceRun(p: string, i: nat, k: nat, x: Piece, items: seq<Item>, st: PState, cfg: Config)
    returns (it: Item, st2: PState)
    requires PieceOk(x) && (x.atom.Ch? ==> !NoPostfix(p, i + 1)) && StOk(st) && k == i + |PrintPiece(x)|
    requires At(p, i, PrintAtom(x.atom)) && At(p, i + |PrintAtom(x.atom)|, PrintQuant(x.quant))
    ensures !it.Bar? && Gets(p, i, k, items, [it], st, st2, cfg) && MeansPiece(st2.rules, cfg.dotall, ToRule(it), x)
    decreases x, 1
  {
    hide *;
    PieceParts(x);
    var j := i + |PrintAtom(x.atom)|;
    var it1, st1 := AtomRun(p, i, x, items, st, cfg);
    it, st2 := QuantRun(p, j, x, items, it1, st1, cfg);
    ExtendsFurther(st2.rules, st1.rules, st.rules);
    AtWithin(p, j, PrintQuant(x.quant));
    GetsIs(p, i, k, items, [it], st, st2, cfg);
  }

  lemma {:induction false} PieceParts(x: Piece)
    requires PieceOk(x)
    ensures QuantOk(x.quant) && |PrintPiece(x)| == |PrintAtom(x.atom)| + |PrintQuant(x.quant)|
  {
    hide PrintAtom, PrintQuant;
  }

  lemma {:induction false} AtWithin(p: string, i: nat, text: string)
    requires At(p, i, text)
    ensures i + |text| <= |p|
  {
  }

  lemma {:induction false} GetsIs(p: string, i: nat, j: nat, items: seq<Item>, more: seq<Item>, st: PState, st2: PState, cfg: Config)
    requires i <= |p| && j <= |p| && StOk(st2) && Extends(st2.rules, st.rules)
    requires Loop(p, i, items, st, cfg) == Loop(p, j, items + more, st2, cfg)
    ensures Gets(p, i, j, items, more, st, st2, cfg)
  {
  }

  lemma {:induction false} LiteralRun(p: string, i: nat, j: nat, ps: seq<Piece>, items: seq<Item>, st: PState, cfg: Config)
    returns (more: seq<Item>, st2: PState)
    requires PiecesOk(ps) && StOk(st)
    requires ps != [] && ps[0].atom.Ch? && ps[0].quant.Once?
    requires At(p, i, PrintPieces(ps)) && j == i + |PrintPieces(ps)| && BranchEnds(p, j)
    ensures Gets(p, i, j, items, more, st, st2, cfg) && MeansPieces(st2.rules, cfg.dotall, more, ps)
    decreases ps, 0
  {
    hide *;
    var k := LiteralRunEnd(p, i, ps);
    var n, text := k - i, p[i..k];
    PiecesFrom(ps, n);
    LiteralGets(p, i, items, st, cfg);
    var tail: seq<Item>;
    tail, st2 := PiecesRun(p, k, j, ps[n..], items + [Literal(text)], st, cfg);
    more := [Literal(text)] + tail;
    GetsOn(p, i, k, j, items, [Literal(text)], tail, st, st, st2, cfg);
    RunMeans(st2.rules, cfg.dotall, text, tail, ps);
  }

  lemma {:induction false} PiecesFrom(ps: seq<Piece>, n: nat)
    requires n <= |ps| && PiecesOk(ps)
    ensures PiecesOk(ps[n..])
  {
    hide PieceOk;
    assert forall k :: 0 <= k < |ps[n..]| ==> ps[n..][k] == ps[k + n];
  }

  lemma {:induction false} LiteralGets(p: string, i: nat, items: seq<Item>, st: PState, cfg: Config)
    requires i < |p| && !NonLiteral(p[i]) && p[i] !in {'\\', '"'} && StOk(st)
    ensures var k := LiteralEnd(p, i, i + 1); Gets(p, i, k, items, [Literal(p[i..k])], st, st, cfg)
  {
    hide Loop, StOk, LiteralEnd;
    LiteralStep(p, i, items, st, cfg);
  }

  lemma {:induction false} LiteralRunEnd(p: string, i: nat, ps: seq<Piece>) returns (k: nat)
    requires PiecesOk(ps)
    requires ps != [] && ps[0].atom.Ch? && ps[0].quant.Once?
    requires At(p, i, PrintPieces(ps)) && BranchEnds(p, i + |PrintPieces(ps)|)
    ensures i < |p| && !NonLiteral(p[i]) && p[i] !in {'\\', '"'} && k == LiteralEnd(p, i, i + 1)
    ensures i < k <= |p| && k - i <= |ps| && PlainRun(p[i..k], ps)
    ensures At(p, k, PrintPieces(ps[k - i..])) && k + |PrintPieces(ps[k - i..])| == i + |PrintPieces(ps)|
  {
    PiecesText(ps);
    var c := ps[0].atom.c;
    OtherPiecesOk(ps);
    assert Plain(c) && PrintAtom(ps[0].atom) + PrintQuant(ps[0].quant) == [c];
    var rest := PrintPieces(ps[1..]);
    hide PrintPieces, PieceOk, PrintAtom, PrintQuant;
    AtSplit(p, i, [c], rest);
    AtFirst(p, i, [c]);
    AfterOneChar(p, i, ps);
    LiteralStops(p, i, i + 1);
    k := LiteralEnd(p, i, i + 1);
    LiteralIsRun(p, i, k - i, ps);
  }

  // What follows a single character matched once does not bind to it either.
  lemma {:induction false} AfterOneChar(p: string, i: nat, ps: seq<Piece>)
    requires PiecesOk(ps)
    requires ps != [] && ps[0].atom.Ch? && ps[0].quant.Once?
    requires At(p, i, PrintPieces(ps)) && BranchEnds(p, i + |PrintPieces(ps)|)
    ensures NoPostfix(p, i + 1)
  {
    PiecesText(ps);
    var c, rest := ps[0].atom.c, PrintPieces(ps[1..]);
    assert PrintAtom(ps[0].atom) + PrintQuant(ps[0].quant) == [c];
    hide PrintPieces, PrintAtom, PrintQuant, PieceOk;
    AtSplit(p, i, [c], rest);
    OtherPiecesOk(ps);
    PiecesStart(ps[1..]);
    if ps[1..] == [] { NoText(); }
    AtFirst(p, i + 1, rest);
  }

  lemma {:induction false} NoText()
    ensures PrintPieces([]) == ""
  {
  }

  predicate RegexEnds(p: string, i: nat) { i == |p| || (i < |p| && p[i] == ')') }

  // All branches; the bars separate their items.
  lemma {:induction false} BranchesRun(p: string, i: nat, j: nat, bs: seq<Branch>, items: seq<Item>, st: PState, cfg: Config)
    returns (more: seq<Item>, st2: PState)
    requires bs != [] && BranchesOk(bs) && StOk(st)
    requires At(p, i, PrintBranches(bs)) && j == i + |PrintBranches(bs)| && RegexEnds(p, j)
    ensures Gets(p, i, j, items, more, st, st2, cfg) && MeansBranches(st2.rules, cfg.dotall, JoinSeq(more), bs)
    decreases bs, 1
  {
    hide MeansPieces, MeansBranches, Gets, StOk, PieceOk, PrintPieces, JoinSeq;
    OtherBranchesOk(bs);
    if |bs| == 1 {
      more, st2 := PiecesRun(p, i, j, bs[0].pieces, items, st, cfg);
      LastBranch(st2.rules, cfg.dotall, more, bs);
    } else {
      more, st2 := BranchThenRest(p, i, j, bs, items, st, cfg);
    }
  }

  lemma {:induction false} BranchShape(p: string, i: nat, bs: seq<Branch>)
    requires |bs| > 1 && At(p, i, PrintBranches(bs))
    ensures var j := i + |PrintPieces(bs[0].pieces)|;
            && At(p, i, PrintPieces(bs[0].pieces)) && j < |p| && p[j] == '|' && BranchEnds(p, j) && At(p, j + 1, PrintBranches(bs[1..]))
            && j + 1 + |PrintBranches(bs[1..])| == i + |PrintBranches(bs)|
  {
    var text, rest := PrintPieces(bs[0].pieces), PrintBranches(bs[1..]);
    assert PrintBranches(bs) == text + ("|" + rest);
    hide PrintPieces, PrintBranches;
    AtSplit(p, i, text, "|" + rest);
    AtSplit(p, i + |text|, "|", rest);
    AtFirst(p, i + |text|, "|");
  }

  lemma {:induction false} BarGets(p: string, i: nat, items: seq<Item>, st: PState, cfg: Config)
    requires i < |p| && p[i] == '|' && StOk(st)
    ensures Gets(p, i, i + 1, items, [Bar], st, st, cfg)
  {
    hide Loop, StOk;
    BarStep(p, i, items, st, cfg);
  }

  lemma {:induction false} BranchThenRest(p: string, i: nat, j: nat, bs: seq<Branch>, items: seq<Item>, st: PState, cfg: Config)
    returns (more: seq<Item>, st2: PState)
    requires |bs| > 1 && BranchesOk(bs) && StOk(st)
    requires At(p, i, PrintBranches(bs)) && j == i + |PrintBranches(bs)| && RegexEnds(p, j)
    ensures Gets(p, i, j, items, more, st, st2, cfg) && MeansBranches(st2.rules, cfg.dotall, JoinSeq(more), bs)
    decreases bs, 0
  {
    hide *;
    BranchShape(p, i, bs);
    OtherBranchesOk(bs);
    var k := i + |PrintPieces(bs[0].pieces)|;
    var first, st1 := PiecesRun(p, i, k, bs[0].pieces, items, st, cfg);
    GetsSound(p, i, k, items, first, st, st1, cfg);
    BarGets(p, k, items + first, st1, cfg);
    var tail: seq<Item>;
    tail, st2 := BranchesRun(p, k + 1, j, bs[1..], items + first + [Bar], st1, cfg);
    more := first + ([Bar] + tail);
    GetsSound(p, k + 1, j, items + first + [Bar], tail, st1, st2, cfg);
    GetsOn(p, k, k + 1, j, items + first, [Bar], tail, st1, st1, st2, cfg);
    GetsOn(p, i, k, j, items, first, [Bar] + tail, st, st1, st2, cfg);
    BranchJoins(st1, st2, cfg, first, tail, bs);
  }

  lemma {:induction false} BranchJoins(st1: PState, st2: PState, cfg: Config, a: seq<Item>, rest: seq<Item>, bs: seq<Branch>)
    requires bs != [] && Extends(st2.rules, st1.rules)
    requires MeansPieces(st1.rules, cfg.dotall, a, bs[0].pieces) && MeansBranches(st2.rules, cfg.dotall, JoinSeq(rest), bs[1..])
    ensures MeansBranches(st2.rules, cfg.dotall, JoinSeq(a + ([Bar] + rest)), bs)
  {
    hide *;
    StillMeans(st1.rules, st2.rules, cfg.dotall, a, bs[0].pieces);
    MoreBranches(st2.rules, cfg.dotall, a, rest, bs);
  }

  lemma {:induction false} RegexShape(r: Regex)
    requires RegexOk(r)
    ensures r.branches != [] && BranchesOk(r.branches)
  {
    forall k | 0 <= k < |r.branches| ensures PiecesOk(r.branches[k].pieces) {
      assert BranchOk(r.branches[k]);
    }
  }

  // One call of the inner function on a whole expression.
  lemma {:induction false} RegexRun(p: string, i: nat, r: Regex, st: PState, cfg: Config) returns (e: Expr, st2: PState)
    requires RegexOk(r) && At(p, i, PrintRegex(r)) && RegexEnds(p, i + |PrintRegex(r)|) && StOk(st)
    ensures StOk(st2) && Extends(st2.rules, st.rules) && MeansBranches(st2.rules, cfg.dotall, e, r.branches)
    ensures var end := i + |PrintRegex(r)|;
            Loop(p, i, [], st, cfg) == Done(if end == |p| then end else end + 1, e, st2)
    decreases r
  {
    hide MeansBranches, Loop, StOk, Extends, JoinSeq, PrintBranches;
    RegexShape(r);
    var end := i + |PrintRegex(r)|;
    var more: seq<Item>;
    more, st2 := BranchesRun(p, i, end, r.branches, [], st, cfg);
    assert [] + more == more;
    EndStep(p, end, more, st2, cfg);
    e := JoinSeq(more);
  }

  // ---------- the main result ----------

  // The JSON text of a string the expression matches, and the space after it.
  ghost predicate QuotedMatch(g: Rules, dotall: bool, r: Regex, t: string) {
    exists s, w :: t == "\"" + s + "\"" + w && RegexMatches(dotall, r, s) && Accepts(g, Ref("space"), w)
  }

  lemma {:induction false} QuotedAccepts(g: Rules, e: Expr, t: string)
    ensures Accepts(g, Quoted(e), t) <==> exists s, w :: t == "\"" + s + "\"" + w && Accepts(g, e, s) && Accepts(g, Ref("space"), w)
  {
    hide Accepts;
    var q, sp := Lit("\""), Ref("space");
    var tail := CatAll([q, sp]);
    var l4, l3, l2 := [q, e, q, sp], [e, q, sp], [q, sp];
    assert l4[1..] == l3 && l3[1..] == l2 && l2[1..] == [sp];
    assert CatAll(l2) == Cat(q, CatAll([sp]));
    assert CatAll(l3) == Cat(e, CatAll(l2));
    assert Quoted(e) == CatAll(l4) == Cat(q, CatAll(l3));
    CatLit(g, "\"", Cat(e, tail), t);
    if Accepts(g, Quoted(e), t) {
      var u := t[1..];
      var i := CatSplit(g, e, tail, u);
      CatLit(g, "\"", CatAll([sp]), u[i..]);
      AcceptsCatAllOne(g, sp, u[i..][1..]);
      assert t == "\"" + u[..i] + "\"" + u[i..][1..];
    }
    if s, w :| t == "\"" + s + "\"" + w && Accepts(g, e, s) && Accepts(g, sp, w) {
      AcceptsCatAllOne(g, sp, w);
      assert ("\"" + w)[1..] == w;
      CatLit(g, "\"", CatAll([sp]), "\"" + w);
      CatJoin(g, e, tail, s, "\"" + w);
      assert t[1..] == s + ("\"" + w);
    }
  }

  // Translating the written form of an expression ends, adds rules only, and gives a rule that
  // accepts exactly the quoted strings the expression matches.
  lemma {:induction false} TranslationExact(r: Regex, rules: Rules, cfg: Config, g: Rules, t: string)
    requires RegexOk(r)
    ensures var o := Translate("^" + PrintRegex(r) + "$", rules, cfg);
            && o.Translated? && Extends(o.rules, rules)
            && (Extends(g, o.rules) ==> (Accepts(g, Ref(o.key), t) <==> QuotedMatch(g, cfg.dotall, r, t)))
  {
    var pattern, p := "^" + PrintRegex(r) + "$", PrintRegex(r);
    assert pattern[1..|pattern| - 1] == p && pattern[0] == '^' && pattern[|pattern| - 1] == '$';
    var st := PState(rules, map[]);
    assert StOk(st);
    hide Loop, StOk, PrintRegex, RegexOk, Quoted;
    var e, st2 := RegexRun(p, 0, r, st, cfg);
    var o := Translate(pattern, rules, cfg);
    assert o == Translated(AddRule(st2.rules, cfg.name, Quoted(e)).0, AddRule(st2.rules, cfg.name, Quoted(e)).1);
    if Extends(g, o.rules) {
      assert Extends(g, st2.rules) && g[o.key] == Quoted(e);
      hide Accepts;
      AcceptsRef(g, o.key, t);
      QuotedAccepts(g, e, t);
      forall s ensures Accepts(g, e, s) <==> RegexMatches(cfg.dotall, r, s) {
        assert SomeBranch(cfg.dotall, r.branches, s) <==> RegexMatches(cfg.dotall, r, s);
      }
    }
  }
}
