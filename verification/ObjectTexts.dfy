/** The object rule in terms of texts: braces, pairs and commas with white space between them. */
module ObjectTexts {
  import opened Basics
  import opened JsonText
  import opened Gbnf
  import opened RuleStore
  import opened Primitives
  import opened ObjectRule

  // ---------- white space ----------

  predicate AllBlank(s: string) { forall i :: 0 <= i < |s| ==> s[i] == ' ' || s[i] == '\t' }

  predicate LinesThenBlanks(s: string, n: nat) {
    n <= |s| <= n + 20 && (forall i :: 0 <= i < n ==> s[i] == '\n') && AllBlank(s[n..])
  }

  // Nothing, a blank, or one or two newlines and up to twenty blanks and tabs.
  predicate SpaceText(s: string) { s == "" || s == " " || LinesThenBlanks(s, 1) || LinesThenBlanks(s, 2) }

  ghost predicate HasSpaceRule(g: Rules) { "space" in g && g["space"] == SPACE_RULE }

  lemma {:induction false} NewLines(g: Rules, s: string)
    ensures Accepts(g, Rep(Lit("\n"), 1, Some(2)), s) <==> s == "\n" || s == "\n\n"
  {
    hide Accepts;
    forall t: string ensures Accepts(g, Lit("\n"), t) <==> t == "\n" { AcceptsLit(g, "\n", t); }
    if Accepts(g, Rep(Lit("\n"), 1, Some(2)), s) {
      var parts := RepSplit(g, Lit("\n"), 1, Some(2), s);
      FlatOneOrTwo(parts);
    }
    var one, two := ["\n"], ["\n", "\n"];
    FlatOneOrTwo(one);
    FlatOneOrTwo(two);
    if s == "\n" { RepJoin(g, Lit("\n"), 1, Some(2), one); }
    assert "\n" + "\n" == "\n\n";
    if s == "\n\n" { RepJoin(g, Lit("\n"), 1, Some(2), two); }
  }

  lemma {:induction false} FlatOneOrTwo(parts: seq<string>)
    ensures |parts| == 1 ==> Flat(parts) == parts[0]
    ensures |parts| == 2 ==> Flat(parts) == parts[0] + parts[1]
  {
    if |parts| == 2 {
      FlatOneOrTwo(parts[1..]);
      assert parts[1..] == [parts[1]];
    } else if |parts| == 1 {
      assert parts[1..] == [] && parts[0] + [] == parts[0];
    }
  }

  lemma {:induction false} BlankClass(g: Rules, s: string)
    ensures Accepts(g, Rep(Class([(' ', ' '), ('\t', '\t')], false), 0, Some(20)), s) <==> |s| <= 20 && AllBlank(s)
  {
    var rs := [(' ', ' '), ('\t', '\t')];
    AcceptsRepClass(g, rs, false, 0, Some(20), s);
    forall c ensures InClass(c, rs) <==> c == ' ' || c == '\t' { assert rs[0] == (' ', ' ') && rs[1] == ('\t', '\t'); }
    hide Accepts;
  }

  lemma {:induction false} LinesBlanks(g: Rules, s: string)
    ensures Accepts(g, Cat(Rep(Lit("\n"), 1, Some(2)), Rep(Class([(' ', ' '), ('\t', '\t')], false), 0, Some(20))), s)
            <==> LinesThenBlanks(s, 1) || LinesThenBlanks(s, 2)
  {
    hide Accepts;
    var lines, blanks := Rep(Lit("\n"), 1, Some(2)), Rep(Class([(' ', ' '), ('\t', '\t')], false), 0, Some(20));
    AcceptsCat(g, lines, blanks, s);
    if i :| 0 <= i <= |s| && Accepts(g, lines, s[..i]) && Accepts(g, blanks, s[i..]) {
      NewLines(g, s[..i]);
      BlankClass(g, s[i..]);
      assert forall k :: 0 <= k < i ==> s[k] == s[..i][k];
    }
    if LinesThenBlanks(s, 1) {
      assert s[..1] == "\n";
      NewLines(g, s[..1]);
      BlankClass(g, s[1..]);
    }
    if LinesThenBlanks(s, 2) {
      assert s[..2] == "\n\n";
      NewLines(g, s[..2]);
      BlankClass(g, s[2..]);
    }
  }

  lemma {:induction false} SpaceExact(g: Rules, s: string)
    requires HasSpaceRule(g)
    ensures Accepts(g, Space(), s) <==> SpaceText(s)
  {
    AcceptsRef(g, "space", s);
    hide Accepts;
    AcceptsAlt(g, Lit(""), SPACE_RULE.right, s);
    AcceptsAlt(g, Lit(" "), SPACE_RULE.right.right, s);
    AcceptsLit(g, "", s);
    AcceptsLit(g, " ", s);
    LinesBlanks(g, s);
  }

  // ---------- lists and braces ----------

  // The texts one after another, a comma and white space between each two.
  ghost predicate Joined(texts: seq<string>, s: string)
    decreases |texts|
  {
    if texts == [] then s == ""
    else if |texts| == 1 then s == texts[0]
    else exists sp, rest :: JoinedAs(texts, s, sp, rest)
  }

  ghost predicate JoinedAs(texts: seq<string>, s: string, sp: string, rest: string)
    requires texts != []
    decreases |texts|, 0
  {
    s == texts[0] + ("," + (sp + rest)) && SpaceText(sp) && Joined(texts[1..], rest)
  }

  predicate Spaced(s: string, open: string, a: string, body: string, close: string, b: string) {
    s == open + (a + (body + (close + b))) && SpaceText(a) && SpaceText(b)
  }

  // Braces around the list, white space behind each of them.
  ghost predicate Braced(texts: seq<string>, s: string) { exists a, body, b :: Spaced(s, "{", a, body, "}", b) && Joined(texts, body) }

  ghost predicate TextsOf(g: Rules, es: seq<Expr>, texts: seq<string>) {
    |es| == |texts| && forall i :: 0 <= i < |es| ==> Accepts(g, es[i], texts[i])
  }

  // ---------- the rule's parts ----------

  lemma {:induction false} AfterLit(g: Rules, t: string, e: Expr, s: string)
    ensures Accepts(g, Cat(Lit(t), e), s) <==> exists rest :: s == t + rest && Accepts(g, e, rest)
  {
    CatLit(g, t, e, s);
    hide Accepts;
    if t <= s && Accepts(g, e, s[|t|..]) { assert s == t + s[|t|..]; }
    if rest :| s == t + rest && Accepts(g, e, rest) { assert s[|t|..] == rest; }
  }

  lemma {:induction false} AfterSpace(g: Rules, e: Expr, s: string)
    requires HasSpaceRule(g)
    ensures Accepts(g, Cat(Space(), e), s) <==> exists sp, rest :: s == sp + rest && SpaceText(sp) && Accepts(g, e, rest)
  {
    AcceptsCat(g, Space(), e, s);
    hide Accepts;
    if i :| 0 <= i <= |s| && Accepts(g, Space(), s[..i]) && Accepts(g, e, s[i..]) {
      SpaceExact(g, s[..i]);
      assert s == s[..i] + s[i..];
    }
    if sp, rest :| s == sp + rest && SpaceText(sp) && Accepts(g, e, rest) {
      SpaceExact(g, sp);
      assert s[..|sp|] == sp && s[|sp|..] == rest;
    }
  }

  // A comma, white space and the rest.
  lemma {:induction false} AfterComma(g: Rules, es: seq<Expr>, s: string)
    requires HasSpaceRule(g)
    ensures Accepts(g, CatAll(Comma() + es), s) <==> exists sp, rest :: s == "," + (sp + rest) && SpaceText(sp) && Accepts(g, CatAll(es), rest)
  {
    hide Accepts;
    var all := Comma() + es;
    assert all[1..] == [Space()] + es && all[1..][1..] == es;
    assert CatAll(all) == Cat(Lit(","), Cat(Space(), CatAll(es)));
    AfterLit(g, ",", Cat(Space(), CatAll(es)), s);
    if t :| s == "," + t && Accepts(g, Cat(Space(), CatAll(es)), t) { AfterSpace(g, CatAll(es), t); }
    if sp, rest :| s == "," + (sp + rest) && SpaceText(sp) && Accepts(g, CatAll(es), rest) { AfterSpace(g, CatAll(es), sp + rest); }
  }

  // White space, the bracket that closes and white space.
  lemma {:induction false} CloserExact(g: Rules, close: string, s: string)
    requires HasSpaceRule(g)
    ensures Accepts(g, CatAll([Lit(close), Space()]), s) <==> exists b :: s == close + b && SpaceText(b)
  {
    hide Accepts;
    assert [Lit(close), Space()][1..] == [Space()];
    AfterLit(g, close, CatAll([Space()]), s);
    if t :| s == close + t && Accepts(g, CatAll([Space()]), t) { AcceptsCatAllOne(g, Space(), t); SpaceExact(g, t); }
    if b :| s == close + b && SpaceText(b) { AcceptsCatAllOne(g, Space(), b); SpaceExact(g, b); }
  }

  // Brackets around whatever the body accepts.
  lemma {:induction false} BracketsExact(g: Rules, open: string, body: seq<Expr>, close: string, s: string)
    requires HasSpaceRule(g)
    ensures Accepts(g, CatAll([Lit(open), Space()] + body + [Lit(close), Space()]), s)
            <==> exists a, t, b :: Spaced(s, open, a, t, close, b) && Accepts(g, CatAll(body), t)
  {
    hide Accepts, CatAll, SpaceText;
    var end := [Lit(close), Space()];
    Opened(open, body + end);
    Assoc([Lit(open), Space()], body, end);
    var e := CatAll(body + end);
    AfterLit(g, open, Cat(Space(), e), s);
    if x :| s == open + x && Accepts(g, Cat(Space(), e), x) {
      AfterSpace(g, e, x);
      var a, y :| x == a + y && SpaceText(a) && Accepts(g, e, y);
      var i := CatAllSplit(g, body, end, y);
      CloserExact(g, close, y[i..]);
      var b :| y[i..] == close + b && SpaceText(b);
      assert y == y[..i] + (close + b);
      assert Spaced(s, open, a, y[..i], close, b);
    }
    if a, t, b :| Spaced(s, open, a, t, close, b) && Accepts(g, CatAll(body), t) {
      CloserExact(g, close, close + b);
      CatAllJoin(g, body, end, t, close + b);
      AfterSpace(g, e, a + (t + (close + b)));
    }
  }

  lemma {:induction false} Opened(open: string, es: seq<Expr>)
    ensures CatAll([Lit(open), Space()] + es) == Cat(Lit(open), Cat(Space(), CatAll(es)))
  {
    var all := [Lit(open), Space()] + es;
    assert all[1..] == [Space()] + es && all[1..][1..] == es;
  }

  // ---------- pairs with commas between ----------

  function KvExprs(kv: KvNames, ks: seq<string>): (es: seq<Expr>)
    requires Named(kv, ks)
  {
    seq(|ks|, i requires 0 <= i < |ks| => Kv(kv, ks[i]))
  }

  lemma {:induction false} PairsJoined(g: Rules, kv: KvNames, ks: seq<string>, s: string)
    requires Named(kv, ks) && HasSpaceRule(g)
    ensures Accepts(g, CatAll(Pairs(kv, ks)), s) <==> exists texts :: TextsOf(g, KvExprs(kv, ks), texts) && Joined(texts, s)
    decreases |ks|
  {
    hide Accepts, CatAll, SpaceText;
    if ks == [] {
      NoPairs(g, s);
      assert KvExprs(kv, ks) == [];
      if Accepts(g, CatAll([]), s) { assert TextsOf(g, [], []) && Joined([], s); }
    } else if |ks| == 1 {
      OnePair(g, kv, ks, s);
    } else {
      FirstPair(g, kv, ks, s);
    }
  }

  lemma {:induction false} NoPairs(g: Rules, s: string)
    ensures Accepts(g, CatAll([]), s) <==> s == ""
  {
    AcceptsLit(g, "", s);
  }

  lemma {:induction false} OnePair(g: Rules, kv: KvNames, ks: seq<string>, s: string)
    requires Named(kv, ks) && |ks| == 1
    ensures Accepts(g, CatAll(Pairs(kv, ks)), s) <==> exists texts :: TextsOf(g, KvExprs(kv, ks), texts) && Joined(texts, s)
  {
    hide Accepts;
    assert ks[1..] == [] && Pairs(kv, ks) == [Kv(kv, ks[0])] + [] == [Kv(kv, ks[0])];
    AcceptsCatAllOne(g, Kv(kv, ks[0]), s);
    hide CatAll;
    if Accepts(g, Kv(kv, ks[0]), s) { assert TextsOf(g, KvExprs(kv, ks), [s]) && Joined([s], s); }
  }

  lemma {:induction false} PairsUnfold(kv: KvNames, ks: seq<string>)
    requires Named(kv, ks) && ks != []
    ensures Named(kv, ks[1..]) && Pairs(kv, ks) == [Kv(kv, ks[0])] + CommaPairs(kv, ks[1..])
    ensures CommaPairs(kv, ks) == Comma() + [Kv(kv, ks[0])] + CommaPairs(kv, ks[1..])
  {
    hide Comma;
  }

  lemma {:induction false} PairsSplit(kv: KvNames, ks: seq<string>)
    requires Named(kv, ks) && |ks| > 1
    ensures Named(kv, ks[1..]) && Pairs(kv, ks) == [Kv(kv, ks[0])] + (Comma() + Pairs(kv, ks[1..]))
  {
    hide Comma, Pairs, CommaPairs, Kv;
    PairsUnfold(kv, ks);
    PairsUnfold(kv, ks[1..]);
    Assoc(Comma(), [Kv(kv, ks[1..][0])], CommaPairs(kv, ks[1..][1..]));
  }

  lemma {:induction false} KvExprsCons(kv: KvNames, ks: seq<string>)
    requires Named(kv, ks) && ks != []
    ensures Named(kv, ks[1..]) && KvExprs(kv, ks) == [Kv(kv, ks[0])] + KvExprs(kv, ks[1..])
  {
    hide Kv;
  }

  lemma {:induction false} FirstPair(g: Rules, kv: KvNames, ks: seq<string>, s: string)
    requires Named(kv, ks) && |ks| > 1 && HasSpaceRule(g)
    ensures Accepts(g, CatAll(Pairs(kv, ks)), s) <==> exists texts :: TextsOf(g, KvExprs(kv, ks), texts) && Joined(texts, s)
    decreases |ks|, 0
  {
    hide Accepts, SpaceText;
    PairsSplit(kv, ks);
    KvExprsCons(kv, ks);
    var k, rest := Kv(kv, ks[0]), Pairs(kv, ks[1..]);
    var all := [k] + (Comma() + rest);
    assert all[1..] == Comma() + rest && CatAll(all) == Cat(k, CatAll(Comma() + rest));
    hide CatAll, Pairs, KvExprs, Joined;
    AcceptsCat(g, k, CatAll(Comma() + rest), s);
    if i :| 0 <= i <= |s| && Accepts(g, k, s[..i]) && Accepts(g, CatAll(Comma() + rest), s[i..]) {
      AfterComma(g, rest, s[i..]);
      var sp, t :| s[i..] == "," + (sp + t) && SpaceText(sp) && Accepts(g, CatAll(rest), t);
      PairsJoined(g, kv, ks[1..], t);
      var texts :| TextsOf(g, KvExprs(kv, ks[1..]), texts) && Joined(texts, t);
      assert s == s[..i] + ("," + (sp + t));
      JoinsOne(g, k, KvExprs(kv, ks[1..]), s[..i], texts, s, sp, t);
    }
    if texts :| TextsOf(g, KvExprs(kv, ks), texts) && Joined(texts, s) {
      var sp, t := OneSplit(g, k, KvExprs(kv, ks[1..]), texts, s);
      PairsJoined(g, kv, ks[1..], t);
      AfterComma(g, rest, "," + (sp + t));
      assert s[..|texts[0]|] == texts[0] && s[|texts[0]|..] == "," + (sp + t);
    }
  }

  lemma {:induction false} JoinsOne(g: Rules, k: Expr, es: seq<Expr>, first: string, texts: seq<string>, s: string, sp: string, t: string)
    requires Accepts(g, k, first) && TextsOf(g, es, texts) && es != [] && Joined(texts, t) && SpaceText(sp) && s == first + ("," + (sp + t))
    ensures TextsOf(g, [k] + es, [first] + texts) && Joined([first] + texts, s)
  {
    hide Accepts, SpaceText;
    assert ([first] + texts)[1..] == texts;
    assert JoinedAs([first] + texts, s, sp, t);
  }

  lemma {:induction false} OneSplit(g: Rules, k: Expr, es: seq<Expr>, texts: seq<string>, s: string) returns (sp: string, t: string)
    requires TextsOf(g, [k] + es, texts) && es != [] && Joined(texts, s)
    ensures SpaceText(sp) && s == texts[0] + ("," + (sp + t)) && Accepts(g, k, texts[0]) && TextsOf(g, es, texts[1..]) && Joined(texts[1..], t)
  {
    hide Accepts, SpaceText;
    sp, t :| JoinedAs(texts, s, sp, t);
    assert ([k] + es)[0] == k;
    forall i | 0 <= i < |es| ensures Accepts(g, es[i], texts[1..][i]) { assert ([k] + es)[i + 1] == es[i]; }
  }

  // An object with the given keys is its pairs in braces.
  lemma {:induction false} ObjectWithExact(g: Rules, kv: KvNames, ks: seq<string>, s: string)
    requires Named(kv, ks) && HasSpaceRule(g)
    ensures Accepts(g, ObjectWith(kv, ks), s) <==> exists texts :: TextsOf(g, KvExprs(kv, ks), texts) && Braced(texts, s)
  {
    hide Accepts, CatAll, Pairs, KvExprs, Joined, SpaceText, TextsOf;
    BracketsExact(g, "{", Pairs(kv, ks), "}", s);
    if a, t, b :| Spaced(s, "{", a, t, "}", b) && Accepts(g, CatAll(Pairs(kv, ks)), t) {
      PairsJoined(g, kv, ks, t);
      var texts :| TextsOf(g, KvExprs(kv, ks), texts) && Joined(texts, t);
      assert Braced(texts, s);
    }
    if texts :| TextsOf(g, KvExprs(kv, ks), texts) && Braced(texts, s) {
      var a, t, b :| Spaced(s, "{", a, t, "}", b) && Joined(texts, t);
      PairsJoined(g, kv, ks, t);
    }
  }

  // ---------- which keys an object has ----------

  // Where the keys come from: positions in increasing order, those of "*" as often as wanted.
  ghost predicate InOrder(keys: seq<string>, js: seq<nat>) {
    && (forall a :: 0 <= a < |js| ==> js[a] < |keys|)
    && (forall a :: 0 < a < |js| ==> js[a - 1] < js[a] || (js[a - 1] == js[a] && keys[js[a]] == STAR))
  }

  function KeysAt(keys: seq<string>, js: seq<nat>): seq<string>
    requires forall a :: 0 <= a < |js| ==> js[a] < |keys|
  {
    seq(|js|, a requires 0 <= a < |js| => keys[js[a]])
  }

  lemma {:induction false} TimesAt(keys: seq<string>, n: nat, j: nat)
    requires j < |keys| && (n > 1 ==> keys[j] == STAR)
    ensures InOrder(keys, seq(n, _ => j)) && KeysAt(keys, seq(n, _ => j)) == Times(keys[j], n)
  {
  }

  function ShiftAll(js: seq<nat>, n: nat): (r: seq<nat>)
    ensures |r| == |js| && forall a :: 0 <= a < |js| ==> r[a] == js[a] + n
  {
    seq(|js|, a requires 0 <= a < |js| => js[a] + n)
  }

  function BackAll(js: seq<nat>): (r: seq<nat>)
    requires forall a :: 0 <= a < |js| ==> js[a] > 0
    ensures |r| == |js| && forall a :: 0 <= a < |js| ==> r[a] == js[a] - 1
  {
    seq(|js|, a requires 0 <= a < |js| => js[a] - 1)
  }

  ghost predicate PicksAt(optional: seq<string>, ks: seq<string>, js: seq<nat>) { InOrder(optional, js) && KeysAt(optional, js) == ks }

  lemma {:induction false} PicksToPositions(optional: seq<string>, ks: seq<string>) returns (js: seq<nat>)
    requires Picks(optional, ks)
    ensures PicksAt(optional, ks, js)
    decreases |optional|
  {
    if optional == [] {
      js := [];
    } else {
      var n: nat :| n <= |ks| && CountOk(n, 0, CountMax(optional[0])) && ks[..n] == Times(optional[0], n) && Picks(optional[1..], ks[n..]);
      hide Picks;
      var later := PicksToPositions(optional[1..], ks[n..]);
      js := seq(n, _ => 0) + ShiftAll(later, 1);
      Shifted(optional, ks, n, later, js);
    }
  }

  lemma {:induction false} Shifted(optional: seq<string>, ks: seq<string>, n: nat, later: seq<nat>, js: seq<nat>)
    requires optional != [] && n <= |ks| && CountOk(n, 0, CountMax(optional[0])) && ks[..n] == Times(optional[0], n)
    requires PicksAt(optional[1..], ks[n..], later) && js == seq(n, _ => 0) + ShiftAll(later, 1)
    ensures PicksAt(optional, ks, js)
  {
    forall a | 0 <= a < |js| ensures js[a] < |optional| && optional[js[a]] == ks[a] {
      if a >= n {
        assert js[a] == later[a - n] + 1 && optional[js[a]] == optional[1..][later[a - n]] == KeysAt(optional[1..], later)[a - n] == ks[n..][a - n];
      } else {
        assert ks[..n][a] == ks[a];
      }
    }
    assert |ks| == |js| by { assert |KeysAt(optional[1..], later)| == |ks[n..]|; }
    assert KeysAt(optional, js) == ks;
    forall a | 0 < a < |js| ensures js[a - 1] < js[a] || (js[a - 1] == js[a] && optional[js[a]] == STAR) {
      if a > n { assert optional[js[a]] == optional[1..][later[a - n]]; }
    }
  }

  lemma {:induction false} ZerosFirst(optional: seq<string>, js: seq<nat>) returns (n: nat)
    requires InOrder(optional, js) && optional != []
    ensures n <= |js| && js[..n] == seq(n, _ => 0) && CountOk(n, 0, CountMax(optional[0]))
    ensures forall a :: n <= a < |js| ==> js[a] > 0
    decreases |js|
  {
    if js == [] || js[|js| - 1] > 0 {
      if js == [] {
        n := 0;
      } else {
        var less := js[..|js| - 1];
        n := ZerosFirst(optional, less);
        assert js[..n] == less[..n];
      }
    } else {
      AllZero(optional, js, |js| - 1);
      n := |js|;
      assert js[..n] == js;
      if n > 1 { assert js[0] == js[1] == 0; }
    }
  }

  lemma {:induction false} AllZero(optional: seq<string>, js: seq<nat>, k: nat)
    requires InOrder(optional, js) && k < |js| && js[k] == 0
    ensures forall a :: 0 <= a <= k ==> js[a] == 0
    decreases k
  {
    if k > 0 { AllZero(optional, js, k - 1); }
  }

  lemma {:induction false} FirstPosition(keys: seq<string>, js: seq<nat>)
    requires InOrder(keys, js)
    ensures js != [] ==> js[0] < |keys|
  {
  }

  lemma {:induction false} PositionsToPicks(optional: seq<string>, ks: seq<string>, js: seq<nat>)
    requires PicksAt(optional, ks, js)
    ensures Picks(optional, ks)
    decreases |optional|
  {
    if optional == [] {
      FirstPosition(optional, js);
    } else {
      var n := ZerosFirst(optional, js);
      var later := BackAll(js[n..]);
      assert ks[..n] == Times(optional[0], n) by { assert forall a :: 0 <= a < n ==> js[a] == js[..n][a] == 0 && ks[a] == optional[js[a]]; }
      Backed(optional, ks, js, n, later);
      PositionsToPicks(optional[1..], ks[n..], later);
    }
  }

  lemma {:induction false} Backed(optional: seq<string>, ks: seq<string>, js: seq<nat>, n: nat, later: seq<nat>)
    requires PicksAt(optional, ks, js) && optional != [] && n <= |js| && (forall a :: n <= a < |js| ==> js[a] > 0)
    requires (forall a :: 0 <= a < |js[n..]| ==> js[n..][a] > 0) && later == BackAll(js[n..])
    ensures n <= |ks| && PicksAt(optional[1..], ks[n..], later)
  {
    assert forall a :: 0 <= a < |later| ==> later[a] == js[n + a] - 1;
    forall a | 0 <= a < |later| ensures later[a] < |optional[1..]| && optional[1..][later[a]] == ks[n..][a] {
      assert ks[n + a] == optional[js[n + a]];
    }
    forall a | 0 < a < |later| ensures later[a - 1] < later[a] || (later[a - 1] == later[a] && optional[1..][later[a]] == STAR) {
      var b := n + a;
      assert js[b - 1] < js[b] || (js[b - 1] == js[b] && optional[js[b]] == STAR);
    }
    assert KeysAt(optional[1..], later) == ks[n..];
  }

  // The choices of optional keys are the keys at positions in order.
  lemma {:induction false} PicksArePositions(optional: seq<string>, ks: seq<string>)
    ensures Picks(optional, ks) <==> exists js :: PicksAt(optional, ks, js)
  {
    hide Picks, PicksAt;
    if Picks(optional, ks) { var js := PicksToPositions(optional, ks); }
    if js :| PicksAt(optional, ks, js) { PositionsToPicks(optional, ks, js); }
  }
}
