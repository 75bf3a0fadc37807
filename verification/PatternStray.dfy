/** Closing brackets without their partner: no branch of the pattern compiler's loop takes them, so it
    stands still for ever when it comes to one. */
module PatternStray {
  import opened Basics
  import opened Gbnf
  import opened RuleStore
  import opened Pattern
  import opened PatternMeaning

  // ---------- patterns with a stray closing bracket ----------

  // From index `i`, inside `depth` open groups, a stray ']' or '}' comes before the outermost group ends
  // and before anything the model does not cover; `rep` says that an operator has something to bind to.
  predicate Strays(p: string, i: nat, depth: nat, rep: bool)
    requires i <= |p|
    decreases |p| - i
  {
    if i == |p| then false
    else
      var c := p[i];
      if c == ']' || c == '}' then true
      else if c == '(' then Strays(p, i + 1, depth + 1, false)
      else if c == ')' then depth > 0 && Strays(p, i + 1, depth - 1, true)
      else if c == '|' then Strays(p, i + 1, depth, false)
      else if c == '*' || c == '+' || c == '?' then rep && Strays(p, i + 1, depth, true)
      else if c == '{' then
        var k := Find(p, '}', i + 1);
        rep && k < |p| && ReadBounds(p[i + 1..k]).Some? && Strays(p, k + 1, depth, true)
      else c !in {'[', '\\', '"'} && Strays(p, i + 1, depth, true)
  }

  predicate Anchored(pattern: string) { pattern != "" && pattern[0] == '^' && pattern[|pattern| - 1] == '$' }

  // ---------- the loop stops at them ----------

  // A literal is passed one character at a time.
  lemma {:induction false} LiteralPassed(p: string, start: nat, k: nat, depth: nat)
    requires start < k <= |p|
    ensures Strays(p, k, depth, true) <==> Strays(p, LiteralEnd(p, start, k), depth, true)
    decreases |p| - k
  {
    if k < |p| && LiteralEnd(p, start, k) != k {
      LiteralPassed(p, start, k + 1, depth);
    }
  }

  lemma {:induction false} CanRepeatAfter(items: seq<Item>, it: Item)
    ensures CanRepeat(items + [it]) <==> !it.Bar?
  {
  }

  lemma {:induction false} CanRepeatSet(items: seq<Item>, e: Expr)
    requires items != []
    ensures CanRepeat(SetLast(items, e))
  {
  }

  // What one call of the inner function does, as the scan sees it.
  ghost predicate AsScanned(p: string, i: nat, depth: nat, rep: bool, o: Outcome)
    requires i <= |p|
  {
    && (o.Stuck? ==> Strays(p, i, depth, rep))
    && (o.Outside? ==> !Strays(p, i, depth, rep))
    && (o.Done? ==> o.i <= |p| && (Strays(p, i, depth, rep) <==> depth > 0 && Strays(p, o.i, depth - 1, true)))
  }

  lemma {:induction false} LoopScanned(p: string, i: nat, items: seq<Item>, st: PState, cfg: Config, depth: nat)
    requires i <= |p|
    ensures AsScanned(p, i, depth, CanRepeat(items), Loop(p, i, items, st, cfg))
    decreases |p| - i
  {
    if i == |p| {
      AtEnd(p, items, st, cfg, depth);
    } else if p[i] == '{' {
      CurlyScanned(p, i, items, st, cfg, depth);
    } else if p[i] == '(' {
      GroupScanned(p, i, items, st, cfg, depth);
    } else {
      OtherScanned(p, i, items, st, cfg, depth);
    }
  }

  lemma {:induction false} AtEnd(p: string, items: seq<Item>, st: PState, cfg: Config, depth: nat)
    ensures AsScanned(p, |p|, depth, CanRepeat(items), Loop(p, |p|, items, st, cfg))
  {
    hide JoinSeq, CanRepeat;
  }

  lemma {:induction false} CurlyScanned(p: string, i: nat, items: seq<Item>, st: PState, cfg: Config, depth: nat)
    requires i < |p| && p[i] == '{'
    ensures AsScanned(p, i, depth, CanRepeat(items), Loop(p, i, items, st, cfg))
    decreases |p| - i, 0
  {
    hide Loop, Find, ReadBounds, Repeated, BuildRepetition, SetLast, Last, CanRepeat;
    AtCurly(p, i, items, st, cfg);
    var k := Find(p, '}', i + 1);
    if k < |p| && CanRepeat(items) && ReadBounds(p[i + 1..k]).Some? {
      var b := ReadBounds(p[i + 1..k]).value;
      NotEmpty(items);
      var r := Repeated(st, cfg.name, Last(items));
      var items1 := SetLast(items, BuildRepetition(r.1, b.0, b.1));
      CanRepeatSet(items, BuildRepetition(r.1, b.0, b.1));
      LoopScanned(p, k + 1, items1, r.0, cfg, depth);
    }
  }

  lemma {:induction false} NotEmpty(items: seq<Item>)
    ensures CanRepeat(items) ==> items != [] && !Last(items).Bar?
  {
  }

  lemma {:induction false} GroupScanned(p: string, i: nat, items: seq<Item>, st: PState, cfg: Config, depth: nat)
    requires i < |p| && p[i] == '('
    ensures AsScanned(p, i, depth, CanRepeat(items), Loop(p, i, items, st, cfg))
    decreases |p| - i, 0
  {
    hide Loop, CanRepeat;
    AtOther(p, i, items, st, cfg);
    var inner := Loop(p, i + 1, [], st, cfg);
    LoopScanned(p, i + 1, [], st, cfg, depth + 1);
    assert !CanRepeat([]) by { NotEmpty([]); }
    if inner.Done? {
      CanRepeatAfter(items, Rule(inner.e));
      LoopScanned(p, inner.i, items + [Rule(inner.e)], inner.st, cfg, depth);
    }
  }

  lemma {:induction false} OtherScanned(p: string, i: nat, items: seq<Item>, st: PState, cfg: Config, depth: nat)
    requires i < |p| && p[i] != '{' && p[i] != '('
    ensures AsScanned(p, i, depth, CanRepeat(items), Loop(p, i, items, st, cfg))
    decreases |p| - i, 0
  {
    hide Loop, CanRepeat, AddRule, DotRule, Postfix, LiteralEnd, JoinSeq;
    AtOther(p, i, items, st, cfg);
    var c := p[i];
    if c == '.' {
      var r := AddRule(st.rules, "dot", DotRule(cfg.dotall));
      CanRepeatAfter(items, Rule(Ref(r.1)));
      LoopScanned(p, i + 1, items + [Rule(Ref(r.1))], st.(rules := r.0), cfg, depth);
    } else if c == '|' {
      CanRepeatAfter(items, Bar);
      LoopScanned(p, i + 1, items + [Bar], st, cfg, depth);
    } else if c == '*' || c == '+' || c == '?' {
      if CanRepeat(items) {
        NotEmpty(items);
        PostfixRepeats(items, c);
        LoopScanned(p, i + 1, Postfix(items, c), st, cfg, depth);
      }
    } else if c !in {')', '[', '\\', '"', ']', '}'} {
      var k := LiteralEnd(p, i, i + 1);
      CanRepeatAfter(items, Literal(p[i..k]));
      LoopScanned(p, k, items + [Literal(p[i..k])], st, cfg, depth);
      LiteralPassed(p, i, i + 1, depth);
      if depth > 0 { LiteralPassed(p, i, i + 1, depth - 1); }
    }
  }

  lemma {:induction false} PostfixRepeats(items: seq<Item>, c: char)
    requires CanRepeat(items)
    ensures CanRepeat(Postfix(items, c))
  {
  }

  // Main result: the translation never ends exactly when the pattern is anchored and holds a stray
  // closing bracket that the loop comes to.
  lemma {:induction false} DivergesExact(pattern: string, rules: Rules, cfg: Config)
    ensures Translate(pattern, rules, cfg) == Diverges
            <==> Anchored(pattern) && Strays(pattern[1..|pattern| - 1], 0, 0, false)
  {
    hide Loop, Strays, Quoted, AddRule;
    if Anchored(pattern) {
      LoopScanned(pattern[1..|pattern| - 1], 0, [], PState(rules, map[]), cfg, 0);
      assert !CanRepeat([]);
    }
  }

  // ---------- where they make it stop ----------

  // Regular expressions one inside another, each group but the last left open.
  function Opened(rs: seq<Regex>): string {
    if rs == [] then "" else if |rs| == 1 then PrintRegex(rs[0]) else PrintRegex(rs[0]) + ("(" + Opened(rs[1..]))
  }

  ghost predicate AllOk(rs: seq<Regex>) { forall k :: 0 <= k < |rs| ==> RegexOk(rs[k]) }

  // From `i` to `j` the scan only passes on, at the same depth; what follows may bind if `rep2` says so.
  ghost predicate Passes(p: string, i: nat, rep: bool, j: nat, rep2: bool) {
    i <= |p| && j <= |p| && forall depth: nat :: Strays(p, i, depth, rep) <==> Strays(p, j, depth, rep2)
  }

  lemma {:induction false} PassesOn(p: string, i: nat, rep: bool, j: nat, rep1: bool, k: nat, rep2: bool)
    requires Passes(p, i, rep, j, rep1) && Passes(p, j, rep1, k, rep2)
    ensures Passes(p, i, rep, k, rep2)
  {
    hide Strays;
  }

  lemma {:induction false} CurlyPassed(p: string, i: nat, text: string)
    requires At(p, i, "{" + text + "}") && '}' !in text && ReadBounds(text).Some?
    ensures Passes(p, i, true, i + 1 + |text| + 1, true)
  {
    hide ReadBounds;
    var k := i + 1 + |text|;
    InCurly(p, i, text);
    FindIs(p, '}', i + 1, k);
    hide Find;
    forall depth: nat ensures Strays(p, i, depth, true) <==> Strays(p, k + 1, depth, true) {
    }
  }

  lemma {:induction false} OperatorPassed(p: string, i: nat)
    requires i < |p| && p[i] in {'*', '+', '?'}
    ensures Passes(p, i, true, i + 1, true)
  {
  }

  lemma {:induction false} QuantPassed(p: string, i: nat, q: Quant)
    requires QuantOk(q) && At(p, i, PrintQuant(q))
    ensures Passes(p, i, true, i + |PrintQuant(q)|, true)
  {
    hide *;
    QuantStart(q);
    AtFirst(p, i, PrintQuant(q));
    AtWithin(p, i, PrintQuant(q));
    if PrintQuant(q) == "" {
      PassesNowhere(p, i);
    } else if PrintQuant(q)[0] == '{' {
      BoundsReadBack(q);
      CurlyPassed(p, i, BoundsText(q));
    } else {
      OperatorPassed(p, i);
    }
  }

  lemma {:induction false} PassesNowhere(p: string, i: nat)
    requires i <= |p|
    ensures Passes(p, i, true, i, true)
  {
  }

  lemma {:induction false} AtomPassed(p: string, i: nat, a: Atom, rep: bool)
    requires At(p, i, PrintAtom(a)) && (a.Ch? ==> Plain(a.c)) && (a.Group? ==> RegexOk(a.body))
    ensures Passes(p, i, rep, i + |PrintAtom(a)|, true)
    decreases a, 0
  {
    hide Passes;
    match a
    case Ch(c) => CharPassed(p, i, c, rep);
    case Dot => CharPassed(p, i, '.', rep);
    case Group(r) =>
      var k := i + 1 + |PrintRegex(r)|;
      InGroup(p, i, PrintRegex(r));
      var inner := RegexPassed(p, i + 1, r, false);
      GroupPassed(p, i, k, rep, inner);
  }

  lemma {:induction false} CharPassed(p: string, i: nat, c: char, rep: bool)
    requires At(p, i, [c]) && (Plain(c) || c == '.')
    ensures Passes(p, i, rep, i + 1, true)
  {
    AtFirst(p, i, [c]);
  }

  lemma {:induction false} GroupPassed(p: string, i: nat, k: nat, rep: bool, inner: bool)
    requires i < k < |p| && p[i] == '(' && p[k] == ')' && Passes(p, i + 1, false, k, inner)
    ensures Passes(p, i, rep, k + 1, true)
  {
    forall depth: nat ensures Strays(p, i, depth, rep) <==> Strays(p, k + 1, depth, true) {
      assert Strays(p, i, depth, rep) <==> Strays(p, i + 1, depth + 1, false);
      assert Strays(p, k, depth + 1, inner) <==> Strays(p, k + 1, depth, true);
    }
  }

  lemma {:induction false} PiecePassed(p: string, i: nat, x: Piece, rep: bool)
    requires PieceOk(x) && At(p, i, PrintAtom(x.atom)) && At(p, i + |PrintAtom(x.atom)|, PrintQuant(x.quant))
    ensures Passes(p, i, rep, i + |PrintAtom(x.atom)| + |PrintQuant(x.quant)|, true)
    decreases x, 0
  {
    hide Passes, PrintAtom, PrintQuant, QuantOk, RegexOk, Plain, At;
    var j := i + |PrintAtom(x.atom)|;
    AtomPassed(p, i, x.atom, rep);
    QuantPassed(p, j, x.quant);
    PassesOn(p, i, rep, j, true, j + |PrintQuant(x.quant)|, true);
  }

  lemma {:induction false} PiecesPassed(p: string, i: nat, ps: seq<Piece>, rep: bool) returns (rep2: bool)
    requires PiecesOk(ps) && At(p, i, PrintPieces(ps))
    ensures Passes(p, i, rep, i + |PrintPieces(ps)|, rep2)
    decreases ps, 0
  {
    hide Strays, PrintAtom, PrintQuant, PieceOk;
    rep2 := rep;
    if ps != [] {
      var x := ps[0];
      OtherPiecesOk(ps);
      PiecesText(ps);
      var a, q, rest := PrintAtom(x.atom), PrintQuant(x.quant), PrintPieces(ps[1..]);
      hide PrintPieces, Passes;
      AtSplit(p, i, a + q, rest);
      AtSplit(p, i, a, q);
      PiecePassed(p, i, x, rep);
      rep2 := PiecesPassed(p, i + |a| + |q|, ps[1..], true);
      PassesOn(p, i, rep, i + |a| + |q|, true, i + |a + q + rest|, rep2);
    }
  }

  lemma {:induction false} BranchesPassed(p: string, i: nat, bs: seq<Branch>, rep: bool) returns (rep2: bool)
    requires bs != [] && BranchesOk(bs) && At(p, i, PrintBranches(bs))
    ensures Passes(p, i, rep, i + |PrintBranches(bs)|, rep2)
    decreases bs, 0
  {
    hide Passes, PrintPieces, PiecesOk;
    OtherBranchesOk(bs);
    if |bs| == 1 {
      rep2 := PiecesPassed(p, i, bs[0].pieces, rep);
    } else {
      BranchShape(p, i, bs);
      hide PrintBranches;
      var j := i + |PrintPieces(bs[0].pieces)|;
      var rep1 := PiecesPassed(p, i, bs[0].pieces, rep);
      BarPassed(p, j, rep1);
      rep2 := BranchesPassed(p, j + 1, bs[1..], false);
      PassesOn(p, i, rep, j, rep1, j + 1, false);
      PassesOn(p, i, rep, j + 1, false, i + |PrintBranches(bs)|, rep2);
    }
  }

  lemma {:induction false} BarPassed(p: string, i: nat, rep: bool)
    requires i < |p| && p[i] == '|'
    ensures Passes(p, i, rep, i + 1, false)
  {
  }

  lemma {:induction false} RegexPassed(p: string, i: nat, r: Regex, rep: bool) returns (rep2: bool)
    requires RegexOk(r) && At(p, i, PrintRegex(r))
    ensures Passes(p, i, rep, i + |PrintRegex(r)|, rep2)
    decreases r, 0
  {
    hide Passes, PrintBranches;
    RegexShape(r);
    rep2 := BranchesPassed(p, i, r.branches, rep);
  }

  lemma {:induction false} OpenedStrays(p: string, i: nat, rs: seq<Regex>, depth: nat, rep: bool)
    requires rs != [] && AllOk(rs) && At(p, i, Opened(rs))
    requires i + |Opened(rs)| < |p| && p[i + |Opened(rs)|] in {']', '}'}
    ensures Strays(p, i, depth, rep)
    decreases |rs|
  {
    hide PrintRegex, RegexOk;
    if |rs| == 1 {
      var rep2 := RegexPassed(p, i, rs[0], rep);
    } else {
      var text, rest := PrintRegex(rs[0]), Opened(rs[1..]);
      assert Opened(rs) == text + ("(" + rest);
      assert forall k :: 0 <= k < |rs[1..]| ==> rs[1..][k] == rs[k + 1];
      hide Opened;
      AtSplit(p, i, text, "(" + rest);
      AtSplit(p, i + |text|, "(", rest);
      AtFirst(p, i + |text|, "(");
      var rep2 := RegexPassed(p, i, rs[0], rep);
      OpenedStrays(p, i + |text| + 1, rs[1..], depth + 1, false);
      assert Strays(p, i + |text|, depth, rep2);
    }
  }

  // A closing bracket behind any regular expressions, at the top level or in groups still open, makes
  // the translation go on for ever, whatever follows it.
  lemma {:induction false} StrayDiverges(rs: seq<Regex>, c: char, rest: string, rules: Rules, cfg: Config)
    requires rs != [] && AllOk(rs) && c in {']', '}'}
    ensures Translate("^" + (Opened(rs) + [c] + rest) + "$", rules, cfg) == Diverges
  {
    hide Opened, RegexOk, Translate, Strays;
    var p := Opened(rs) + [c] + rest;
    var pattern := "^" + p + "$";
    assert pattern[1..|pattern| - 1] == p;
    assert p[..|Opened(rs)|] == Opened(rs) && p[|Opened(rs)|] == c;
    OpenedStrays(p, 0, rs, 0, false);
    DivergesExact(pattern, rules, cfg);
  }
}
