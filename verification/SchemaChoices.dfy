/** What the rules of constants, choices, arrays and texts of limited length accept. */
module SchemaChoices {
  import opened Basics
  import opened Decimals
  import opened JsonText
  import opened Gbnf
  import opened RuleStore
  import opened Primitives
  import opened ObjectTexts
  import opened Schema
  import opened SchemaObjects
  import NotStrings
  import ObjectRule
  import Pattern

  lemma {:induction false} AsConstant(s: Schema, ty: Option<string>, name: string, st: CState, ctx: Context, c: string)
    requires s.constant == Some(c)
    ensures VisitAs(s, ty, name, st, ctx) == Add(st, RuleName(name), Cat(Lit(c), Space()))
  {
    hide Add, RuleName;
  }

  lemma {:induction false} AddIs(st: CState, name: string, e: Expr)
    ensures var r := Add(st, name, e); r.1 in r.0.rules && r.0.rules[r.1] == e
  {
    hide EscapeName;
  }

  // An expression and white space behind it.
  lemma {:induction false} ThenSpace(g: Rules, e: Expr, t: string)
    requires HasSpaceRule(g)
    ensures Accepts(g, Cat(e, Space()), t) <==> exists x, sp :: t == x + sp && Accepts(g, e, x) && SpaceText(sp)
  {
    hide Accepts, SpaceText;
    AcceptsCat(g, e, Space(), t);
    if i :| 0 <= i <= |t| && Accepts(g, e, t[..i]) && Accepts(g, Space(), t[i..]) {
      SpaceExact(g, t[i..]);
      assert t == t[..i] + t[i..];
    }
    if x, sp :| t == x + sp && Accepts(g, e, x) && SpaceText(sp) {
      SpaceExact(g, sp);
      CatJoin(g, e, Space(), x, sp);
    }
  }

  // ---------- constants and choices ----------

  // One of the constants, white space behind it.
  ghost predicate OneOf(values: seq<string>, t: string) { exists i, sp :: 0 <= i < |values| && t == values[i] + sp && SpaceText(sp) }

  lemma {:induction false} AddedMeans(g: Rules, st: CState, name: string, e: Expr, t: string)
    requires Extends(g, Add(st, name, e).0.rules)
    ensures Accepts(g, Ref(Add(st, name, e).1), t) <==> Accepts(g, e, t)
  {
    hide Accepts;
    AddedAccepts(g, st, name, e, t);
  }

  lemma {:induction false} ConstantAccepts(g: Rules, s: Schema, ty: Option<string>, name: string, st: CState, ctx: Context, c: string, t: string)
    requires s.constant == Some(c) && HasSpaceRule(g) && Extends(g, VisitAs(s, ty, name, st, ctx).0.rules)
    ensures Accepts(g, Ref(VisitAs(s, ty, name, st, ctx).1), t) <==> OneOf([c], t)
  {
    hide Accepts, VisitAs, Add, RuleName, SpaceText;
    AsConstant(s, ty, name, st, ctx, c);
    AddedMeans(g, st, RuleName(name), Cat(Lit(c), Space()), t);
    ThenSpace(g, Lit(c), t);
    forall x: string ensures Accepts(g, Lit(c), x) <==> x == c { AcceptsLit(g, c, x); }
    if sp :| t == c + sp && SpaceText(sp) { assert [c][0] == c; }
  }

  lemma {:induction false} LiteralsExact(g: Rules, values: seq<string>, t: string)
    requires values != [] && HasSpaceRule(g)
    ensures Accepts(g, Cat(Union(Literals(values)), Space()), t) <==> OneOf(values, t)
  {
    hide Accepts, SpaceText, AltAll;
    var es := Literals(values);
    ThenSpace(g, Union(es), t);
    forall x: string ensures Accepts(g, AltAll(es), x) <==> exists i :: 0 <= i < |values| && x == values[i] {
      AcceptsAltAll(g, es, x);
      forall i | 0 <= i < |values| ensures Accepts(g, es[i], x) <==> x == values[i] { AcceptsLit(g, values[i], x); }
    }
  }

  lemma {:induction false} EnumAccepts(g: Rules, s: Schema, ty: Option<string>, name: string, st: CState, ctx: Context, values: seq<string>, t: string)
    requires s.constant.None? && s.enumerated == Some(values) && HasSpaceRule(g) && Extends(g, VisitAs(s, ty, name, st, ctx).0.rules)
    ensures Accepts(g, Ref(VisitAs(s, ty, name, st, ctx).1), t) <==> if values == [] then SpaceText(t) else OneOf(values, t)
  {
    hide Accepts, VisitAs, Add, RuleName, SpaceText, Union, Literals;
    var e := Cat(Union(Literals(values)), Space());
    AsEnum(s, ty, name, st, ctx, values);
    AddedMeans(g, st, RuleName(name), e, t);
    if values == [] { NoLiterals(g, t); } else { LiteralsExact(g, values, t); }
  }

  lemma {:induction false} AsEnum(s: Schema, ty: Option<string>, name: string, st: CState, ctx: Context, values: seq<string>)
    requires s.constant.None? && s.enumerated == Some(values)
    ensures VisitAs(s, ty, name, st, ctx) == Add(st, RuleName(name), Cat(Union(Literals(values)), Space()))
  {
    hide Add, RuleName, Union, Literals;
  }

  lemma {:induction false} NoLiterals(g: Rules, t: string)
    requires HasSpaceRule(g)
    ensures Accepts(g, Cat(Union(Literals([])), Space()), t) <==> SpaceText(t)
  {
    hide Accepts, SpaceText;
    assert Union(Literals([])) == Lit("");
    CatLit(g, "", Space(), t);
    SpaceExact(g, t);
    assert t[0..] == t;
  }

  // The rules of the alternatives, each visited after the ones before it.
  function ChoiceRules(subs: seq<Schema>, name: string, i: nat, st: CState, ctx: Context): seq<string>
    decreases |subs|
  {
    if subs == [] then []
    else
      var r := Visit(subs[0], AlternativeName(name, i), st, ctx);
      [r.1] + ChoiceRules(subs[1..], name, i + 1, r.0, ctx)
  }

  lemma {:induction false} ChoicesAre(subs: seq<Schema>, name: string, i: nat, st: CState, ctx: Context)
    ensures VisitAlternatives(subs, name, i, st, ctx).1 == ChoiceRules(subs, name, i, st, ctx)
    decreases |subs|
  {
    hide Visit, AlternativeName;
    if subs != [] {
      var r := Visit(subs[0], AlternativeName(name, i), st, ctx);
      ChoicesAre(subs[1..], name, i + 1, r.0, ctx);
    }
  }

  // The rules of the schema once for each type.
  function TypeRules(s: Schema, ts: seq<string>, name: string, i: nat, st: CState, ctx: Context): seq<string>
    decreases |ts|
  {
    if ts == [] then []
    else
      var r := VisitAs(s, Some(ts[0]), AlternativeName(name, i), st, ctx);
      [r.1] + TypeRules(s, ts[1..], name, i + 1, r.0, ctx)
  }

  lemma {:induction false} TypesAre(s: Schema, ts: seq<string>, name: string, i: nat, st: CState, ctx: Context)
    ensures VisitEachType(s, ts, name, i, st, ctx).1 == TypeRules(s, ts, name, i, st, ctx)
    decreases |ts|
  {
    hide VisitAs, AlternativeName;
    if ts != [] {
      var r := VisitAs(s, Some(ts[0]), AlternativeName(name, i), st, ctx);
      TypesAre(s, ts[1..], name, i + 1, r.0, ctx);
    }
  }

  // One of the rules; with none, nothing but the empty text.
  ghost predicate ByOne(g: Rules, names: seq<string>, t: string) {
    if names == [] then t == "" else exists i :: 0 <= i < |names| && Accepts(g, Ref(names[i]), t)
  }

  lemma {:induction false} UnionExact(g: Rules, names: seq<string>, t: string)
    ensures Accepts(g, Union(RefsTo(names)), t) <==> ByOne(g, names, t)
  {
    hide Accepts, AltAll;
    if names == [] {
      assert RefsTo(names) == [];
      AcceptsLit(g, "", t);
    } else {
      var es := RefsTo(names);
      AcceptsAltAll(g, es, t);
      assert forall i :: 0 <= i < |names| ==> es[i] == Ref(names[i]);
      if i :| 0 <= i < |names| && Accepts(g, Ref(names[i]), t) { assert Accepts(g, es[i], t); }
    }
  }

  // "oneOf", "anyOf" and a list of types accept what one of the alternatives accepts.
  lemma {:induction false} ChoiceAccepts(g: Rules, s: Schema, name: string, st: CState, ctx: Context, t: string)
    requires s.ref.None? && (s.alternatives.AnyOf? || s.types.Several?) && Extends(g, Visit(s, name, st, ctx).0.rules)
    ensures Accepts(g, Ref(Visit(s, name, st, ctx).1), t)
            <==> ByOne(g, if s.alternatives.AnyOf? then ChoiceRules(s.alternatives.subs, name, 0, st, ctx)
                          else TypeRules(s, s.types.names, name, 0, st, ctx), t)
  {
    hide Accepts, VisitAlternatives, VisitEachType, Union, RefsTo, Add, RuleName, ChoiceRules, TypeRules, ByOne;
    if s.alternatives.AnyOf? {
      ChoicesAre(s.alternatives.subs, name, 0, st, ctx);
      var r := VisitAlternatives(s.alternatives.subs, name, 0, st, ctx);
      AddedMeans(g, r.0, RuleName(name), Union(RefsTo(r.1)), t);
      UnionExact(g, r.1, t);
    } else {
      TypesAre(s, s.types.names, name, 0, st, ctx);
      var r := VisitEachType(s, s.types.names, name, 0, st, ctx);
      AddedMeans(g, r.0, RuleName(name), Union(RefsTo(r.1)), t);
      UnionExact(g, r.1, t);
    }
  }

  // A reference accepts what the rule of its name accepts, or, looked at now, that of the schema it stands for.
  lemma {:induction false} ReferenceAccepts(g: Rules, s: Schema, ref: string, name: string, st: CState, ctx: Context, t: string)
    requires s.ref == Some(ref) && Extends(g, Visit(s, name, st, ctx).0.rules)
    ensures RefName(ref) in st.rules || ref in st.being ==> (Accepts(g, Ref(Visit(s, name, st, ctx).1), t) <==> Accepts(g, Ref(RefName(ref)), t))
    ensures RefName(ref) !in st.rules && ref !in st.being && ref in ctx.refs ==>
              (Accepts(g, Ref(Visit(s, name, st, ctx).1), t)
               <==> Accepts(g, Ref(Visit(ctx.refs[ref], RefName(ref), st.(being := st.being + {ref}), ctx.(chased := {})).1), t))
  {
    hide Accepts, ResolveRef, RefName, Add, RuleName, VisitAlternatives, VisitEachType, VisitAs, Visit;
    ReferenceVisit(s, ref, name, st, ctx);
    var r := ResolveRef(ref, st, ctx, s);
    AddedMeans(g, r.0, RuleName(name), Ref(r.1), t);
    Resolved(ref, st, ctx, s);
  }

  lemma {:induction false} ReferenceVisit(s: Schema, ref: string, name: string, st: CState, ctx: Context)
    requires s.ref == Some(ref)
    ensures var r := ResolveRef(ref, st, ctx, s); Visit(s, name, st, ctx) == Add(r.0, RuleName(name), Ref(r.1))
  {
    hide ResolveRef, Add, RuleName;
  }

  lemma {:induction false} Resolved(ref: string, st: CState, ctx: Context, at: Schema)
    ensures RefName(ref) in st.rules || ref in st.being ==> ResolveRef(ref, st, ctx, at).1 == RefName(ref)
    ensures RefName(ref) !in st.rules && ref !in st.being && ref in ctx.refs ==>
              ResolveRef(ref, st, ctx, at).1 == Visit(ctx.refs[ref], RefName(ref), st.(being := st.being + {ref}), ctx.(chased := {})).1
  {
    hide Visit, RefName, VisitLeaf;
  }

  // ---------- arrays ----------

  // Brackets around the list, white space behind each of them.
  ghost predicate ListText(texts: seq<string>, s: string) { exists a, body, b :: Spaced(s, "[", a, body, "]", b) && Joined(texts, body) }

  ghost predicate InTurnBy(g: Rules, rules: seq<string>, texts: seq<string>) {
    |rules| == |texts| && forall i :: 0 <= i < |texts| ==> Accepts(g, Ref(rules[i]), texts[i])
  }

  // How many items a list may have, as the limits are written into the grammar.
  predicate ItemsAllowed(lo: nat, hi: Option<nat>, n: nat) {
    if hi == Some(0) then n == 0
    else if hi == Some(1) && lo > 1 then n == 1
    else CountOk(n, lo, hi)
  }

  lemma {:induction false} CommaThen(g: Rules, e: Expr, s: string)
    requires HasSpaceRule(g)
    ensures Accepts(g, Cat(CommaSpace(), e), s) <==> exists sp, x :: s == "," + (sp + x) && SpaceText(sp) && Accepts(g, e, x)
  {
    hide Accepts, SpaceText;
    AcceptsCat(g, CommaSpace(), e, s);
    if i :| 0 <= i <= |s| && Accepts(g, CommaSpace(), s[..i]) && Accepts(g, e, s[i..]) {
      CommaExact(g, s[..i]);
      var sp :| s[..i] == "," + sp && SpaceText(sp);
      assert s == s[..i] + s[i..] == "," + (sp + s[i..]);
    }
    if sp, x :| s == "," + (sp + x) && SpaceText(sp) && Accepts(g, e, x) {
      CommaExact(g, "," + sp);
      CatJoin(g, CommaSpace(), e, "," + sp, x);
      assert s == ("," + sp) + x;
    }
  }

  lemma {:induction false} CommaExact(g: Rules, s: string)
    requires HasSpaceRule(g)
    ensures Accepts(g, CommaSpace(), s) <==> exists sp :: s == "," + sp && SpaceText(sp)
  {
    hide SpaceText;
    AfterLit(g, ",", Space(), s);
    hide Accepts;
    if sp :| s == "," + sp && Accepts(g, Space(), sp) { SpaceExact(g, sp); }
    if sp :| s == "," + sp && SpaceText(sp) { SpaceExact(g, sp); }
  }

  // A pair is a comma, white space and an item.
  ghost predicate AfterCommas(g: Rules, item: Expr, pair: Expr) {
    forall s: string :: Accepts(g, pair, s) <==> exists sp, x :: s == "," + (sp + x) && SpaceText(sp) && Accepts(g, item, x)
  }

  ghost predicate AllBy(g: Rules, item: Expr, texts: seq<string>) { forall i :: 0 <= i < |texts| ==> Accepts(g, item, texts[i]) }

  // A first item and further ones that follow a comma each.
  lemma {:induction false} PartsJoin(g: Rules, item: Expr, pair: Expr, first: string, parts: seq<string>) returns (texts: seq<string>)
    requires AfterCommas(g, item, pair) && Accepts(g, item, first) && AllAccepted(g, pair, parts)
    ensures |texts| == |parts| + 1 && AllBy(g, item, texts) && Joined(texts, first + Flat(parts)) && texts[0] == first
    decreases |parts|
  {
    hide Accepts, SpaceText;
    if parts == [] {
      texts := [first];
      assert first + Flat(parts) == first;
    } else {
      assert Accepts(g, pair, parts[0]);
      var sp, x :| parts[0] == "," + (sp + x) && SpaceText(sp) && Accepts(g, item, x);
      var rest := PartsJoin(g, item, pair, x, parts[1..]);
      texts := [first] + rest;
      assert texts[1..] == rest;
      assert first + Flat(parts) == first + ("," + (sp + (x + Flat(parts[1..]))));
      assert JoinedAs(texts, first + Flat(parts), sp, x + Flat(parts[1..]));
    }
  }

  lemma {:induction false} JoinedParts(g: Rules, item: Expr, pair: Expr, texts: seq<string>, s: string) returns (parts: seq<string>)
    requires AfterCommas(g, item, pair) && texts != [] && AllBy(g, item, texts) && Joined(texts, s)
    ensures |parts| == |texts| - 1 && AllAccepted(g, pair, parts) && s == texts[0] + Flat(parts)
    decreases |texts|
  {
    hide Accepts, SpaceText;
    if |texts| == 1 {
      parts := [];
      assert s == texts[0] + Flat(parts);
    } else {
      var sp, t :| JoinedAs(texts, s, sp, t);
      var rest := JoinedParts(g, item, pair, texts[1..], t);
      var first := "," + (sp + texts[1]);
      assert Accepts(g, pair, first);
      parts := [first] + rest;
      assert parts[1..] == rest && Flat(parts) == first + Flat(rest);
      assert s == texts[0] + (first + Flat(rest));
    }
  }

  // What the repetition with commas between accepts.
  ghost predicate CommaList(g: Rules, rule: string, lo: nat, hi: Option<nat>, s: string) {
    exists texts :: ItemsAllowed(lo, hi, |texts|) && AllBy(g, Ref(rule), texts) && Joined(texts, s)
  }

  lemma {:induction false} NoneListed(g: Rules, rule: string, lo: nat, hi: Option<nat>)
    requires ItemsAllowed(lo, hi, 0)
    ensures CommaList(g, rule, lo, hi, "")
  {
    var none: seq<string> := [];
    assert ItemsAllowed(lo, hi, |none|) && AllBy(g, Ref(rule), none) && Joined(none, "");
  }

  lemma {:induction false} OneListed(g: Rules, rule: string, lo: nat, hi: Option<nat>, s: string)
    requires ItemsAllowed(lo, hi, 1) && Accepts(g, Ref(rule), s)
    ensures CommaList(g, rule, lo, hi, s)
  {
    hide Accepts;
    var one := [s];
    assert ItemsAllowed(lo, hi, |one|) && AllBy(g, Ref(rule), one) && Joined(one, s);
  }

  // An item and a number of further ones.
  lemma {:induction false} ItemAndMore(g: Rules, item: Expr, pair: Expr, lo: nat, hi: Option<nat>, s: string)
    requires AfterCommas(g, item, pair)
    ensures Accepts(g, Cat(item, Rep(pair, lo, hi)), s)
            <==> exists texts :: texts != [] && CountOk(|texts| - 1, lo, hi) && AllBy(g, item, texts) && Joined(texts, s)
  {
    hide Accepts, AfterCommas, Joined;
    AcceptsCat(g, item, Rep(pair, lo, hi), s);
    if i :| 0 <= i <= |s| && Accepts(g, item, s[..i]) && Accepts(g, Rep(pair, lo, hi), s[i..]) {
      var parts := RepSplit(g, pair, lo, hi, s[i..]);
      var texts := PartsJoin(g, item, pair, s[..i], parts);
      assert s == s[..i] + s[i..];
    }
    if texts :| texts != [] && CountOk(|texts| - 1, lo, hi) && AllBy(g, item, texts) && Joined(texts, s) {
      var parts := JoinedParts(g, item, pair, texts, s);
      RepJoin(g, pair, lo, hi, parts);
      CatJoin(g, item, Rep(pair, lo, hi), texts[0], Flat(parts));
    }
  }

  // The repetition written for any limits.
  lemma {:induction false} SeparatedMeans(g: Rules, rule: string, lo: nat, hi: Option<nat>, s: string)
    requires HasSpaceRule(g)
    ensures Accepts(g, Separated(Ref(rule), CommaSpace(), lo, hi), s) <==> CommaList(g, rule, lo, hi, s)
  {
    hide Accepts, CommaSpace, SpaceText;
    if hi == Some(0) {
      AcceptsLit(g, "", s);
      if s == "" { NoneListed(g, rule, lo, hi); }
    } else if lo == 0 && hi == Some(1) {
      AcceptsOptional(g, Ref(rule), s);
      if s == "" { NoneListed(g, rule, lo, hi); } else if Accepts(g, Ref(rule), s) { OneListed(g, rule, lo, hi, s); }
    } else if hi == Some(1) {
      JustOne(g, rule, lo, s);
    } else {
      SeveralMeans(g, rule, lo, hi, s);
    }
  }

  lemma {:induction false} JustOne(g: Rules, rule: string, lo: nat, s: string)
    requires lo > 0
    ensures Accepts(g, Separated(Ref(rule), CommaSpace(), lo, Some(1)), s) <==> CommaList(g, rule, lo, Some(1), s)
  {
    hide Accepts, CommaSpace;
    AcceptsCat(g, Ref(rule), Lit(""), s);
    assert s[..|s|] == s && s[|s|..] == "";
    AcceptsLit(g, "", "");
    if i :| 0 <= i <= |s| && Accepts(g, Ref(rule), s[..i]) && Accepts(g, Lit(""), s[i..]) { AcceptsLit(g, "", s[i..]); }
    if Accepts(g, Ref(rule), s) { OneListed(g, rule, lo, Some(1), s); }
  }

  lemma {:induction false} SeveralMeans(g: Rules, rule: string, lo: nat, hi: Option<nat>, s: string)
    requires HasSpaceRule(g) && hi != Some(0) && hi != Some(1)
    ensures Accepts(g, Separated(Ref(rule), CommaSpace(), lo, hi), s) <==> CommaList(g, rule, lo, hi, s)
  {
    hide Accepts, CommaSpace, SpaceText, Joined;
    var lo' := if lo == 0 then 0 else lo - 1;
    var hi' := if hi.Some? then Some(hi.value - 1) else None;
    var pair := Cat(CommaSpace(), Ref(rule));
    var all := Cat(Ref(rule), Rep(pair, lo', hi'));
    forall x: string ensures Accepts(g, pair, x) <==> exists sp, y :: x == "," + (sp + y) && SpaceText(sp) && Accepts(g, Ref(rule), y) {
      CommaThen(g, Ref(rule), x);
    }
    ItemAndMore(g, Ref(rule), pair, lo', hi', s);
    if lo == 0 { AcceptsOptional(g, all, s); }
    if Accepts(g, all, s) {
      var texts :| texts != [] && CountOk(|texts| - 1, lo', hi') && AllBy(g, Ref(rule), texts) && Joined(texts, s);
      assert ItemsAllowed(lo, hi, |texts|);
    }
    if lo == 0 && s == "" { NoneListed(g, rule, lo, hi); }
    if CommaList(g, rule, lo, hi, s) {
      var texts :| ItemsAllowed(lo, hi, |texts|) && AllBy(g, Ref(rule), texts) && Joined(texts, s);
      if texts == [] { NoTexts(s); } else { assert CountOk(|texts| - 1, lo', hi'); }
    }
  }

  lemma {:induction false} NoTexts(s: string)
    ensures Joined([], s) <==> s == ""
  {
  }

  // Each item of a fixed list by its own rule.
  lemma {:induction false} TupleMeans(g: Rules, names: seq<string>, s: string)
    requires HasSpaceRule(g)
    ensures Accepts(g, CatAll(TupleItems(names)), s) <==> exists texts :: InTurnBy(g, names, texts) && Joined(texts, s)
    decreases |names|
  {
    hide Accepts, CatAll, CommaSpace, SpaceText;
    if names == [] {
      NoPairs(g, s);
      if s == "" {
        var none: seq<string> := [];
        assert InTurnBy(g, names, none) && Joined(none, s);
      }
    } else if |names| == 1 {
      AcceptsCatAllOne(g, Ref(names[0]), s);
      if Accepts(g, Ref(names[0]), s) { assert InTurnBy(g, names, [s]) && Joined([s], s); }
    } else {
      hide TupleItems, Joined;
      TupleStep(g, names, s);
      if i: nat, sp, x :| TupleCut(g, names[0], s, i, sp, x) && Accepts(g, CatAll(TupleItems(names[1..])), x) {
        TupleMeans(g, names[1..], x);
        var rest :| InTurnBy(g, names[1..], rest) && Joined(rest, x);
        TupleJoin(g, names, s, i, sp, x, rest);
      }
      if texts :| InTurnBy(g, names, texts) && Joined(texts, s) {
        var sp, x := TupleCutAt(g, names, texts, s);
        assert InTurnBy(g, names[1..], texts[1..]);
        TupleMeans(g, names[1..], x);
      }
    }
  }

  ghost predicate TupleCut(g: Rules, name: string, s: string, i: nat, sp: string, x: string) {
    i <= |s| && Accepts(g, Ref(name), s[..i]) && s[i..] == "," + (sp + x) && SpaceText(sp)
  }

  lemma {:induction false} TupleStep(g: Rules, names: seq<string>, s: string)
    requires HasSpaceRule(g) && |names| > 1
    ensures Accepts(g, CatAll(TupleItems(names)), s)
            <==> exists i: nat, sp, x :: TupleCut(g, names[0], s, i, sp, x) && Accepts(g, CatAll(TupleItems(names[1..])), x)
  {
    hide Accepts, CommaSpace, SpaceText;
    var rest := TupleItems(names[1..]);
    assert TupleItems(names) == [Ref(names[0])] + ([CommaSpace()] + rest);
    CatAllCons(Ref(names[0]), [CommaSpace()] + rest);
    CatAllCons(CommaSpace(), rest);
    var e := CatAll(rest);
    hide CatAll, TupleItems;
    AcceptsCat(g, Ref(names[0]), Cat(CommaSpace(), e), s);
    if i :| 0 <= i <= |s| && Accepts(g, Ref(names[0]), s[..i]) && Accepts(g, Cat(CommaSpace(), e), s[i..]) {
      CommaThen(g, e, s[i..]);
      var sp, x :| s[i..] == "," + (sp + x) && SpaceText(sp) && Accepts(g, e, x);
      assert TupleCut(g, names[0], s, i, sp, x);
    }
    if i: nat, sp, x :| TupleCut(g, names[0], s, i, sp, x) && Accepts(g, e, x) { CommaThen(g, e, s[i..]); }
  }

  lemma {:induction false} TupleJoin(g: Rules, names: seq<string>, s: string, i: nat, sp: string, x: string, rest: seq<string>)
    requires |names| > 1 && TupleCut(g, names[0], s, i, sp, x) && InTurnBy(g, names[1..], rest) && Joined(rest, x)
    ensures InTurnBy(g, names, [s[..i]] + rest) && Joined([s[..i]] + rest, s)
  {
    hide Accepts, SpaceText;
    var texts := [s[..i]] + rest;
    assert texts[1..] == rest && s == s[..i] + s[i..];
    assert JoinedAs(texts, s, sp, x);
    forall j | 0 <= j < |texts| ensures Accepts(g, Ref(names[j]), texts[j]) {
      if j > 0 { assert names[j] == names[1..][j - 1] && texts[j] == rest[j - 1]; }
    }
  }

  lemma {:induction false} TupleCutAt(g: Rules, names: seq<string>, texts: seq<string>, s: string) returns (sp: string, x: string)
    requires |names| > 1 && InTurnBy(g, names, texts) && Joined(texts, s)
    ensures TupleCut(g, names[0], s, |texts[0]|, sp, x) && Joined(texts[1..], x)
  {
    hide Accepts, SpaceText;
    sp, x :| JoinedAs(texts, s, sp, x);
    assert s[..|texts[0]|] == texts[0] && s[|texts[0]|..] == "," + (sp + x);
  }

  // The rules of the items of a fixed list, each visited after the ones before it.
  function TupleRules(subs: seq<Schema>, name: string, i: nat, st: CState, ctx: Context): seq<string>
    decreases |subs|
  {
    if subs == [] then []
    else
      var r := Visit(subs[0], Under(name, "tuple-" + Decimal(i)), st, ctx);
      [r.1] + TupleRules(subs[1..], name, i + 1, r.0, ctx)
  }

  lemma {:induction false} TupleAre(subs: seq<Schema>, name: string, i: nat, st: CState, ctx: Context)
    ensures VisitTuple(subs, name, i, st, ctx).1 == TupleRules(subs, name, i, st, ctx)
    decreases |subs|
  {
    hide Visit, Under;
    if subs != [] {
      var r := Visit(subs[0], Under(name, "tuple-" + Decimal(i)), st, ctx);
      TupleAre(subs[1..], name, i + 1, r.0, ctx);
    }
  }

  // The lists an array schema stands for.
  ghost predicate ArrayOf(g: Rules, s: Schema, name: string, st: CState, ctx: Context, t: string)
    requires !s.items.NoItems?
  {
    match s.items
    case Tuple(subs) => exists texts :: InTurnBy(g, TupleRules(subs, name, 0, st, ctx), texts) && ListText(texts, t)
    case Each(sub) =>
      exists texts :: ItemsAllowed(s.minItems, s.maxItems, |texts|) && AllBy(g, Ref(Visit(sub, Under(name, "item"), st, ctx).1), texts) && ListText(texts, t)
  }

  lemma {:induction false} EachMeans(g: Rules, rule: string, lo: nat, hi: Option<nat>, t: string)
    requires HasSpaceRule(g)
    ensures Accepts(g, Bracketed([Separated(Ref(rule), CommaSpace(), lo, hi)]), t)
            <==> exists texts :: ItemsAllowed(lo, hi, |texts|) && AllBy(g, Ref(rule), texts) && ListText(texts, t)
  {
    hide Accepts, Separated, CommaSpace, SpaceText, Joined, ItemsAllowed, AllBy;
    var e := Separated(Ref(rule), CommaSpace(), lo, hi);
    BracketsExact(g, "[", [e], "]", t);
    if a, x, b :| Spaced(t, "[", a, x, "]", b) && Accepts(g, CatAll([e]), x) {
      AcceptsCatAllOne(g, e, x);
      SeparatedMeans(g, rule, lo, hi, x);
      var texts :| ItemsAllowed(lo, hi, |texts|) && AllBy(g, Ref(rule), texts) && Joined(texts, x);
      assert ListText(texts, t);
    }
    if texts :| ItemsAllowed(lo, hi, |texts|) && AllBy(g, Ref(rule), texts) && ListText(texts, t) {
      var a, x, b :| Spaced(t, "[", a, x, "]", b) && Joined(texts, x);
      SeparatedMeans(g, rule, lo, hi, x);
      AcceptsCatAllOne(g, e, x);
    }
  }

  lemma {:induction false} FixedMeans(g: Rules, names: seq<string>, t: string)
    requires HasSpaceRule(g)
    ensures Accepts(g, Bracketed(TupleItems(names)), t) <==> exists texts :: InTurnBy(g, names, texts) && ListText(texts, t)
  {
    hide Accepts, TupleItems, SpaceText, Joined, InTurnBy, CatAll;
    BracketsExact(g, "[", TupleItems(names), "]", t);
    if a, x, b :| Spaced(t, "[", a, x, "]", b) && Accepts(g, CatAll(TupleItems(names)), x) {
      TupleMeans(g, names, x);
      var texts :| InTurnBy(g, names, texts) && Joined(texts, x);
      assert ListText(texts, t);
    }
    if texts :| InTurnBy(g, names, texts) && ListText(texts, t) {
      var a, x, b :| Spaced(t, "[", a, x, "]", b) && Joined(texts, x);
      TupleMeans(g, names, x);
    }
  }

  lemma {:induction false} ItemsMean(g: Rules, s: Schema, items: Items, name: string, st: CState, ctx: Context, t: string)
    requires items == s.items && !items.NoItems? && HasSpaceRule(g)
    ensures Accepts(g, VisitItems(s, items, name, st, ctx).1, t) <==> ArrayOf(g, s, name, st, ctx, t)
  {
    hide Accepts, Visit, VisitTuple, TupleRules, Bracketed, Separated, TupleItems, CommaSpace, ListText, AllBy, InTurnBy;
    match items
    case Tuple(subs) =>
      TupleAre(subs, name, 0, st, ctx);
      FixedMeans(g, VisitTuple(subs, name, 0, st, ctx).1, t);
    case Each(sub) => EachMeans(g, Visit(sub, Under(name, "item"), st, ctx).1, s.minItems, s.maxItems, t);
  }

  predicate IsArray(s: Schema, ty: Option<string>) {
    s.constant.None? && s.enumerated.None? && !IsObject(s, ty) && !IsAllOf(s, ty) && Untyped(ty, "array") && !s.items.NoItems?
  }

  lemma {:induction false} AsArray(s: Schema, ty: Option<string>, name: string, st: CState, ctx: Context)
    requires IsArray(s, ty)
    ensures VisitAs(s, ty, name, st, ctx) == Add(VisitItems(s, s.items, name, st, ctx).0, RuleName(name), VisitItems(s, s.items, name, st, ctx).1)
  {
    hide VisitItems, Add, RuleName, VisitObject, VisitAllOf, VisitLeaf;
  }

  // An array schema accepts the lists with an allowed number of items, each accepted by the item's rule;
  // with a list of schemas, the lists with one item for each of them.
  lemma {:induction false} ArrayAccepts(g: Rules, s: Schema, ty: Option<string>, name: string, st: CState, ctx: Context, t: string)
    requires IsArray(s, ty) && HasSpaceRule(g) && Extends(g, VisitAs(s, ty, name, st, ctx).0.rules)
    ensures Accepts(g, Ref(VisitAs(s, ty, name, st, ctx).1), t) <==> ArrayOf(g, s, name, st, ctx, t)
  {
    hide Accepts, VisitAs, VisitItems, Add, RuleName, ArrayOf;
    AsArray(s, ty, name, st, ctx);
    var r := VisitItems(s, s.items, name, st, ctx);
    AddedMeans(g, r.0, RuleName(name), r.1, t);
    ItemsMean(g, s, s.items, name, st, ctx, t);
  }
}
