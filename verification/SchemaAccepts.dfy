/** What the rules of a finished conversion accept: objects and merged objects, wherever in the whole schema
    they are visited, and the grammar's root. */
module SchemaAccepts {
  import opened Basics
  import opened Decimals
  import opened JsonText
  import opened Gbnf
  import opened RuleStore
  import opened Primitives
  import opened ObjectTexts
  import opened Schema
  import opened SchemaObjects
  import opened SchemaGuarded
  import opened SchemaChoices
  import NotStrings
  import ObjectRule
  import Pattern

  // ---------- objects ----------

  // The grammar is that of a whole conversion that went on from the given state.
  ghost predicate Finished(g: Rules, whole: Schema, at: Context, st: CState) { g == Convert(whole, at).0.rules && Extends(g, st.rules) }

  lemma {:induction false} FinishedKeeps(g: Rules, whole: Schema, at: Context, st: CState)
    requires Finished(g, whole, at, st)
    ensures HasSpaceRule(g) && OwnNamesKept(g) && ("char" in g ==> NotStrings.HasCharRule(g))
  {
    hide Visit, OwnNamesKept;
    ConversionGuarded(whole, at);
    OwnChar(g);
  }

  lemma {:induction false} OwnChar(g: Rules)
    requires OwnNamesKept(g)
    ensures HasSpaceRule(g) && ("char" in g ==> NotStrings.HasCharRule(g))
  {
    hide Known;
    KnownOwn();
    CharPlain();
  }

  lemma {:induction false} CharPlain()
    ensures SchemaGuarded.Plain("char") && EscapeName("char") == "char" && EscapeName("string") == "string"
  {
    hide Known;
    CleanName("char");
    CleanName("string");
    assert "char" in BUILTIN_NAMES;
  }

  lemma {:induction false} BuiltinAdds(rules: Rules, name: string, b: Builtin)
    ensures EscapeName(name) in AddPrimitive(rules, name, b).0
    ensures forall i :: 0 <= i < |b.deps| && b.deps[i] in BUILTINS ==> b.deps[i] in AddPrimitive(rules, name, b).0
  {
    hide EscapeName;
    var r := AddRule(rules, name, b.content);
    DepsAdd(r.0, b.deps);
    hide AddDeps;
    assert EscapeName(name) in r.0;
  }

  lemma {:induction false} DepsAdd(rules: Rules, deps: seq<string>)
    ensures forall i :: 0 <= i < |deps| && deps[i] in BUILTINS ==> deps[i] in AddDeps(rules, deps)
    decreases |deps|
  {
    hide AddDep, Known, BUILTINS;
    if deps != [] {
      var rules1 := AddDep(rules, deps[0], |deps|);
      DepAdds(rules, deps[0], |deps|);
      DepsAdd(rules1, deps[1..]);
      forall i | 0 <= i < |deps| && deps[i] in BUILTINS ensures deps[i] in AddDeps(rules, deps) {
        if i > 0 { assert deps[i] == deps[1..][i - 1]; }
      }
    }
  }

  lemma {:induction false} DepAdds(rules: Rules, dep: string, left: nat)
    requires left > 0
    ensures dep in BUILTINS ==> dep in AddDep(rules, dep, left)
  {
    hide Known, AddPrimitive;
    KnownNames(dep);
    if dep in BUILTINS && dep !in rules {
      BuiltinNameClean(dep);
      BuiltinAddsItself(rules, dep, Known(dep).value);
    }
  }

  lemma {:induction false} BuiltinAddsItself(rules: Rules, name: string, b: Builtin)
    ensures EscapeName(name) in AddPrimitive(rules, name, b).0
  {
    hide EscapeName, AddDeps;
    assert EscapeName(name) in AddRule(rules, name, b.content).0;
  }

  // Additional keys need "char".
  lemma {:induction false} ExtraAddsChar(ps: seq<Property>, sub: string, st: CState)
    ensures "char" in ExtraKey(ps, sub, st).0.rules
  {
    hide AddPrimitive, AddRule, NotStrings.NotStringsExpr, Known;
    CharPlain();
    if ps == [] {
      BuiltinAdds(st.rules, "string", StringRule());
      assert StringRule().deps[0] == "char";
    } else {
      BuiltinAddsItself(st.rules, "char", CharRule());
    }
  }

  lemma {:induction false} PairsAddChar(s: Schema, ps: seq<Property>, name: string, st: CState, ctx: Context)
    requires ps == PropertiesOf(s) && AllowsExtra(s)
    ensures "char" in VisitPairs(s, ps, name, st, ctx).0.rules
  {
    hide VisitProps, VisitExtra, Keys, PropertiesOf, ExtraKey, Visit, AddBuiltin;
    var r := VisitProps(s, ps, name, st, ctx);
    ExtraBound(s, s.additional, ps, name, r.0, ctx);
    var value := if s.additional.Extra? then Visit(s.additional.sub, Under(name, "additional") + "-value", r.0, ctx) else AddBuiltin(r.0, "value", ValueRule());
    ExtraAddsChar(ps, Under(name, "additional"), value.0);
  }

  lemma {:induction false} ObjectAddsChar(s: Schema, ty: Option<string>, name: string, st: CState, ctx: Context)
    requires s.constant.None? && s.enumerated.None? && IsObject(s, ty) && AllowsExtra(s)
    ensures "char" in VisitAs(s, ty, name, st, ctx).0.rules
  {
    hide VisitAs, VisitPairs, Keys, PropertiesOf, Object, RuleName, Add;
    AsObject(s, ty, name, st, ctx);
    PairsAddChar(s, PropertiesOf(s), name, st, ctx);
  }

  // Main result: wherever it is visited, a schema for objects accepts exactly the objects with the required
  // keys as they are listed, then an ordered choice of the other listed keys, then additional ones if
  // allowed, each value accepted by the rule its own sub-schema was visited to.
  lemma {:induction false} ObjectAccepts(g: Rules, whole: Schema, at: Context, s: Schema, ty: Option<string>, name: string, st: CState, ctx: Context, t: string)
    requires s.constant.None? && s.enumerated.None? && IsObject(s, ty)
    requires Finished(g, whole, at, VisitAs(s, ty, name, st, ctx).0)
    ensures Accepts(g, Ref(VisitAs(s, ty, name, st, ctx).1), t)
            <==> ObjectOf(g, PropertyNames(PropertiesOf(s)), s.required, RulesOf(PropertiesOf(s), name, st, ctx), ExtraRule(s, name, st, ctx), t)
  {
    hide VisitAs, Convert, Accepts, RulesOf, ExtraRule, ObjectOf, PropertiesOf, PropertyNames;
    FinishedKeeps(g, whole, at, VisitAs(s, ty, name, st, ctx).0);
    if AllowsExtra(s) { ObjectAddsChar(s, ty, name, st, ctx); }
    ObjectSchemaMeans(g, s, ty, name, st, ctx, t);
  }

  // ---------- the whole schema ----------

  // What `visit` goes on with when neither a reference nor a choice comes first.
  predicate Single(s: Schema, ty: Option<string>) {
    s.ref.None? && s.alternatives.NoAlternatives? && ((s.types.NoType? && ty.None?) || (s.types.One? && ty == Some(s.types.name)))
  }

  lemma {:induction false} VisitSingle(s: Schema, ty: Option<string>, name: string, st: CState, ctx: Context)
    requires Single(s, ty)
    ensures Visit(s, name, st, ctx) == VisitAs(s, ty, name, st, ctx)
  {
    hide VisitAs;
  }

  lemma {:induction false} RootFree(st: CState, e: Expr)
    requires "root" !in st.rules
    ensures Add(st, RuleName(""), e).1 == "root"
  {
    RootPlain();
    NoBuiltinEmpty();
    hide Reserved, EscapeName;
  }

  lemma {:induction false} RootStaysFree(st: CState)
    requires Guarded(START.rules, st.rules, false)
    ensures "root" !in st.rules
  {
  }

  // An object at the top of the schema is the grammar's root, unless a property has the empty key.
  lemma {:induction false} ObjectIsRoot(s: Schema, ty: Option<string>, ctx: Context)
    requires Single(s, ty) && s.constant.None? && s.enumerated.None? && IsObject(s, ty) && "" !in PropertyNames(PropertiesOf(s))
    ensures Convert(s, ctx).1 == "root"
  {
    hide VisitAs, VisitObject, PropertiesOf, Add, RuleName, PropertyNames, Keys;
    VisitSingle(s, ty, "", START, ctx);
    AsObject(s, ty, "", START, ctx);
    KeysAreNames(PropertiesOf(s), "");
    ObjectGuarded(s, PropertiesOf(s), "", START, ctx, false);
    var r := VisitObject(s, PropertiesOf(s), "", START, ctx);
    hide Guarded;
    RootStaysFree(r.0);
    RootFree(r.0, r.1);
  }

  lemma {:induction false} AsObject(s: Schema, ty: Option<string>, name: string, st: CState, ctx: Context)
    requires s.constant.None? && s.enumerated.None? && IsObject(s, ty)
    ensures VisitAs(s, ty, name, st, ctx)
            == Add(VisitObject(s, PropertiesOf(s), name, st, ctx).0, RuleName(name), VisitObject(s, PropertiesOf(s), name, st, ctx).1)
  {
    hide VisitObject, PropertiesOf, Add, RuleName;
  }

  // Main result: the grammar of an object schema accepts, from its root, exactly the objects meant.
  lemma {:induction false} ObjectConverts(s: Schema, ty: Option<string>, ctx: Context, t: string)
    requires Single(s, ty) && s.constant.None? && s.enumerated.None? && IsObject(s, ty)
    ensures var r := Convert(s, ctx);
            && (Accepts(r.0.rules, Ref(r.1), t)
                <==> ObjectOf(r.0.rules, PropertyNames(PropertiesOf(s)), s.required, RulesOf(PropertiesOf(s), "", START, ctx), ExtraRule(s, "", START, ctx), t))
            && ("" !in PropertyNames(PropertiesOf(s)) ==> r.1 == "root")
  {
    hide VisitAs, Visit, Accepts, RulesOf, ExtraRule, ObjectOf, PropertiesOf, PropertyNames;
    VisitSingle(s, ty, "", START, ctx);
    ObjectAccepts(Convert(s, ctx).0.rules, s, ctx, s, ty, "", START, ctx, t);
    if "" !in PropertyNames(PropertiesOf(s)) { ObjectIsRoot(s, ty, ctx); }
  }

  lemma {:induction false} FirstKept(p: Property, rest: seq<Property>, name: string, kv: ObjectRule.KvNames, st: CState, ctx: Context)
    ensures Extends(VisitProperties([p] + rest, name, kv, st, ctx).0.rules, Visit(p.sub, Under(name, p.key), st, ctx).0.rules)
  {
    hide Visit, Under, Keys, KvExpr;
    var ps := [p] + rest;
    assert ps[1..] == rest;
    var r := VisitProperty(p, name, st, ctx);
    assert VisitProperties(ps, name, kv, st, ctx) == VisitProperties(rest, name, kv[p.key := r.1], r.0, ctx);
  }

  lemma {:induction false} PropsKept(s: Schema, ps: seq<Property>, name: string, st: CState, ctx: Context)
    requires ps == PropertiesOf(s) && s.properties == Listed(ps)
    ensures Extends(VisitPairs(s, ps, name, st, ctx).0.rules, VisitProperties(ps, name, map[], st, ctx).0.rules)
  {
    hide VisitProperties, VisitExtra, Keys;
  }

  lemma {:induction false} ObjectKeeps(s: Schema, ps: seq<Property>, name: string, st: CState, ctx: Context)
    requires ps == PropertiesOf(s)
    ensures Extends(VisitObject(s, ps, name, st, ctx).0.rules, VisitPairs(s, ps, name, st, ctx).0.rules)
  {
    hide VisitPairs, Keys, PropertiesOf, Object;
  }

  // With the empty key first, the grammar's root is the rule of that key's value.
  lemma {:induction false} EmptyKeyIsRoot(s: Schema, ty: Option<string>, x: Schema, rest: seq<Property>, ctx: Context)
    requires Single(s, ty) && s.constant.None? && s.enumerated.None? && IsObject(s, ty) && s.properties == Listed([Property("", x)] + rest)
    requires "root" in Visit(x, "", START, ctx).0.rules
    ensures var r := Convert(s, ctx);
            "root" in r.0.rules && r.0.rules["root"] == Visit(x, "", START, ctx).0.rules["root"]
  {
    hide Visit, VisitAs, VisitObject, VisitPairs, VisitProperties, Add, RuleName, Keys;
    var ps := [Property("", x)] + rest;
    assert Under("", "") == "";
    VisitSingle(s, ty, "", START, ctx);
    AsObject(s, ty, "", START, ctx);
    FirstKept(Property("", x), rest, "", map[], START, ctx);
    PropsKept(s, ps, "", START, ctx);
    ObjectKeeps(s, ps, "", START, ctx);
  }

  // {"properties": {"": {"const": c}}} accepts from its root what c is written as, not the object.
  lemma {:induction false} EmptyKeyTakesRoot(s: Schema, x: Schema, c: string, ctx: Context, t: string)
    requires x == EMPTY.(constant := Some(c)) && s == EMPTY.(properties := Listed([Property("", x)]))
    ensures Accepts(Convert(s, ctx).0.rules, Ref("root"), t) <==> exists sp :: t == c + sp && SpaceText(sp)
  {
    hide Visit, VisitAs, Accepts, Add, RuleName, SpaceText;
    var g := Convert(s, ctx).0.rules;
    VisitSingle(x, None, "", START, ctx);
    AsConstant(x, None, "", START, ctx, c);
    RootFree(START, Cat(Lit(c), Space()));
    AddIs(START, RuleName(""), Cat(Lit(c), Space()));
    assert [Property("", x)] + [] == [Property("", x)];
    EmptyKeyIsRoot(s, None, x, [], ctx);
    FinishedKeeps(g, s, ctx, Convert(s, ctx).0);
    AcceptsRef(g, "root", t);
    ThenSpace(g, Lit(c), t);
    forall x: string ensures Accepts(g, Lit(c), x) <==> x == c { AcceptsLit(g, c, x); }
  }

  // Without properties, and with additional ones forbidden, nothing but the empty object is accepted.
  lemma {:induction false} ClosedObject(s: Schema, ty: Option<string>, ctx: Context, t: string)
    requires Single(s, ty) && s.constant.None? && s.enumerated.None? && s.properties.NoProperties? && s.additional == Flag(false)
    requires ty.None? || ty == Some("object")
    ensures Convert(s, ctx).1 == "root"
    ensures Accepts(Convert(s, ctx).0.rules, Ref("root"), t) <==> Braced([], t)
  {
    hide Visit, Accepts, Braced;
    NoRules("", START, ctx);
    assert PropertiesOf(s) == [] && PropertyNames([]) == [];
    ObjectConverts(s, ty, ctx, t);
    EmptyObject(Convert(s, ctx).0.rules, s.required, t);
  }

  lemma {:induction false} EmptyObject(g: Rules, required: set<string>, t: string)
    ensures ObjectOf(g, [], required, map[], None, t) <==> Braced([], t)
  {
    hide Braced;
    forall ks ensures Ordered([], required, false, ks) <==> ks == [] { NoKeys(required, ks); }
    var none: seq<string> := [];
    if Braced(none, t) { assert Ordered([], required, false, none) && SlotTexts(g, [], map[], None, none, none); }
    if ks, texts :| Ordered([], required, false, ks) && SlotTexts(g, [], map[], None, ks, texts) && Braced(texts, t) { assert texts == none; }
  }

  lemma {:induction false} NoKeys(required: set<string>, ks: seq<string>)
    ensures Ordered([], required, false, ks) <==> ks == []
  {
    var none: seq<nat> := [];
    if ks == [] { assert OrderedAt([], required, false, ks, none); }
    if js :| OrderedAt([], required, false, ks, js) {
      assert KeysOut([], required) + [] == [];
      assert |js| > 0 ==> js[0] < |KeysOut([], required)|;
    }
  }

  // ---------- "allOf" ----------

  // How often the members give the constant among theirs.
  function Given(c: Schema, refs: Refs, v: string): nat {
    var m := Follow(c, refs);
    if m.Found? && m.sub.properties.NoProperties? && m.sub.enumerated.Some? then multiset(m.sub.enumerated.value)[v] else 0
  }

  function GivenBy(cs: seq<Schema>, refs: Refs, v: string): nat { if cs == [] then 0 else Given(cs[0], refs, v) + GivenBy(cs[1..], refs, v) }

  // As many times as there are parts.
  predicate Shared(parts: seq<Part>, refs: Refs, v: string) { GivenBy(AllMembers(parts), refs, v) == |parts| > 0 }

  lemma {:induction false} GivenConcat(a: seq<Schema>, b: seq<Schema>, refs: Refs, v: string)
    ensures GivenBy(a + b, refs, v) == GivenBy(a, refs, v) + GivenBy(b, refs, v)
  {
    hide Given;
    if a == [] {
      assert a + b == b;
    } else {
      assert (a + b)[0] == a[0] && (a + b)[1..] == a[1..] + b;
      GivenConcat(a[1..], b, refs, v);
    }
  }

  lemma {:induction false} MembersGive(cs: seq<Schema>, refs: Refs, v: string)
    ensures multiset(MembersEnum(cs, refs))[v] == GivenBy(cs, refs, v)
  {
    if cs != [] {
      MembersGive(cs[1..], refs, v);
      assert multiset(MemberEnum(cs[0], refs))[v] == Given(cs[0], refs, v);
    }
  }

  lemma {:induction false} PartsGive(parts: seq<Part>, refs: Refs, v: string)
    ensures multiset(PartsEnum(parts, refs))[v] == GivenBy(AllMembers(parts), refs, v)
  {
    hide MembersEnum, Given;
    if parts != [] {
      PartsGive(parts[1..], refs, v);
      MembersGive(Members(parts[0]), refs, v);
      GivenConcat(Members(parts[0]), AllMembers(parts[1..]), refs, v);
    }
  }

  lemma {:induction false} CountedAre(all: seq<string>, rest: seq<string>, n: nat, v: string)
    ensures v in CountedTimes(all, rest, n) <==> v in rest && multiset(all)[v] == n
  {
    if rest != [] { CountedAre(all, rest[1..], n, v); }
  }

  lemma {:induction false} SharedAre(parts: seq<Part>, refs: Refs, v: string)
    ensures v in SharedEnum(parts, refs) <==> Shared(parts, refs, v)
  {
    hide PartsEnum, CountedTimes, GivenBy, AllMembers;
    var all := PartsEnum(parts, refs);
    PartsGive(parts, refs, v);
    CountedAre(all, all, |parts|, v);
    assert v in all <==> multiset(all)[v] > 0;
    if parts == [] { NoneGiven(refs); }
  }

  lemma {:induction false} NoneGiven(refs: Refs)
    ensures PartsEnum([], refs) == []
  {
  }

  // A constant that all members share, and white space.
  ghost predicate SharedText(parts: seq<Part>, refs: Refs, t: string) { exists v, sp :: Shared(parts, refs, v) && t == v + sp && SpaceText(sp) }

  ghost predicate HeldSet(parts: seq<Part>, refs: Refs, required: set<string>) { forall k :: k in required <==> HeldBy(parts, refs, k) }

  // What an "allOf" stands for: its shared constants if there are any, otherwise the members' properties
  // as one object.
  ghost predicate AllOfText(g: Rules, parts: seq<Part>, name: string, st: CState, ctx: Context, t: string)
    requires !PartsRevisit(parts, ctx)
  {
    if exists v :: Shared(parts, ctx.refs, v) then SharedText(parts, ctx.refs, t)
    else
      exists required: set<string> ::
        && HeldSet(parts, ctx.refs, required)
        && ObjectOf(g, ListedByAll(AllMembers(parts), ctx.refs), required, PartsRules(parts, name, map[], st, ctx), None, t)
  }

  predicate IsMerged(s: Schema, ty: Option<string>) { s.constant.None? && s.enumerated.None? && !IsObject(s, ty) && IsAllOf(s, ty) }

  lemma {:induction false} AsMerged(s: Schema, ty: Option<string>, name: string, st: CState, ctx: Context)
    requires IsMerged(s, ty)
    ensures VisitAs(s, ty, name, st, ctx)
            == Add(VisitAllOf(s, s.allOf, name, st, ctx).0, RuleName(name), VisitAllOf(s, s.allOf, name, st, ctx).1)
  {
    hide VisitAllOf, Add, RuleName, VisitObject, VisitItems, VisitLeaf;
  }

  lemma {:induction false} SharedMeans(g: Rules, parts: seq<Part>, refs: Refs, t: string)
    requires SharedEnum(parts, refs) != [] && HasSpaceRule(g)
    ensures Accepts(g, Cat(Union(Literals(SharedEnum(parts, refs))), Space()), t) <==> SharedText(parts, refs, t)
    ensures exists v :: Shared(parts, refs, v)
  {
    hide Accepts, SpaceText, SharedEnum, Shared, Union, Literals;
    var values := SharedEnum(parts, refs);
    LiteralsExact(g, values, t);
    SharedAre(parts, refs, values[0]);
    assert values[0] in values;
    if OneOf(values, t) {
      var i, sp :| 0 <= i < |values| && t == values[i] + sp && SpaceText(sp);
      SharedAre(parts, refs, values[i]);
      assert values[i] in values;
    }
    if v, sp :| Shared(parts, refs, v) && t == v + sp && SpaceText(sp) {
      SharedAre(parts, refs, v);
      var i :| 0 <= i < |values| && values[i] == v;
    }
  }

  // Main result: an "allOf" that ends accepts exactly its shared constants, or else exactly the objects of
  // all properties its members list, those of the members that must hold required.
  lemma {:induction false} AllOfAccepts(g: Rules, s: Schema, ty: Option<string>, name: string, st: CState, ctx: Context, t: string)
    requires IsMerged(s, ty) && !PartsLoop(s.allOf.parts, ctx.refs) && !PartsRevisit(s.allOf.parts, ctx)
    requires HasSpaceRule(g) && Extends(g, VisitAs(s, ty, name, st, ctx).0.rules)
    ensures Accepts(g, Ref(VisitAs(s, ty, name, st, ctx).1), t) <==> AllOfText(g, s.allOf.parts, name, st, ctx, t)
  {
    hide Accepts, VisitAs, VisitAllOf, Add, RuleName, PartsLoop, PartsRevisit, SharedEnum, Shared, SharedText, ObjectOf, HeldBy, ListedByAll, AllMembers, PartsRules;
    AsMerged(s, ty, name, st, ctx);
    var r, parts := VisitAllOf(s, s.allOf, name, st, ctx), s.allOf.parts;
    AddedMeans(g, r.0, RuleName(name), r.1, t);
    if SharedEnum(parts, ctx.refs) != [] {
      SharedMeans(g, parts, ctx.refs, t);
      SharedVisit(s, parts, name, st, ctx);
    } else {
      forall v ensures !Shared(parts, ctx.refs, v) { SharedAre(parts, ctx.refs, v); }
      forall k ensures k in PartsRequired(parts, ctx.refs) <==> HeldBy(parts, ctx.refs, k) { RequiredHeld(parts, ctx.refs, k); }
      MergedMeans(g, s, parts, PartsRequired(parts, ctx.refs), name, st, ctx, t);
      assert HeldSet(parts, ctx.refs, PartsRequired(parts, ctx.refs));
      forall required: set<string> | HeldSet(parts, ctx.refs, required) ensures required == PartsRequired(parts, ctx.refs) { HeldIs(parts, ctx.refs, required); }
    }
  }

  lemma {:induction false} HeldIs(parts: seq<Part>, refs: Refs, required: set<string>)
    requires HeldSet(parts, refs, required)
    ensures required == PartsRequired(parts, refs)
  {
    hide HeldBy, PartsRequired;
    forall k ensures k in PartsRequired(parts, refs) <==> k in required { RequiredHeld(parts, refs, k); }
  }

  lemma {:induction false} SharedVisit(s: Schema, parts: seq<Part>, name: string, st: CState, ctx: Context)
    requires s.allOf == Together(parts) && !PartsLoop(parts, ctx.refs) && SharedEnum(parts, ctx.refs) != []
    ensures VisitAllOf(s, s.allOf, name, st, ctx) == (st, Cat(Union(Literals(SharedEnum(parts, ctx.refs))), Space()))
  {
    hide VisitParts, SharedEnum, PartsLoop, PartsRevisit, Object, Union, Literals, Keys, PartsProperties, PartsRequired;
  }

  // At the top of the schema its rule is the grammar's root, unless some member lists the empty key.
  lemma {:induction false} MergedIsRoot(s: Schema, ty: Option<string>, ctx: Context)
    requires Single(s, ty) && IsMerged(s, ty) && "" !in ListedByAll(AllMembers(s.allOf.parts), ctx.refs)
    ensures Convert(s, ctx).1 == "root"
  {
    hide VisitAs, VisitAllOf, Add, RuleName, PropertyNames, Keys, PartsProperties, ListedByAll, AllMembers;
    var parts := s.allOf.parts;
    VisitSingle(s, ty, "", START, ctx);
    AsMerged(s, ty, "", START, ctx);
    PartsListed(parts, ctx.refs);
    KeysAreNames(PartsProperties(parts, ctx.refs), "");
    AllOfGuarded(s, s.allOf, "", START, ctx, false);
    var r := VisitAllOf(s, s.allOf, "", START, ctx);
    hide Guarded;
    RootStaysFree(r.0);
    RootFree(r.0, r.1);
  }

  // The grammar of an "allOf" at the top accepts, from its root, exactly what is meant.
  lemma {:induction false} AllOfConverts(s: Schema, ty: Option<string>, ctx: Context, t: string)
    requires Single(s, ty) && IsMerged(s, ty) && !PartsLoop(s.allOf.parts, ctx.refs) && !PartsRevisit(s.allOf.parts, ctx)
    ensures var r := Convert(s, ctx);
            && (Accepts(r.0.rules, Ref(r.1), t) <==> AllOfText(r.0.rules, s.allOf.parts, "", START, ctx, t))
            && ("" !in ListedByAll(AllMembers(s.allOf.parts), ctx.refs) ==> r.1 == "root")
  {
    hide VisitAs, Visit, Accepts, AllOfText, ListedByAll, AllMembers, PartsLoop, PartsRevisit;
    var r := Convert(s, ctx);
    VisitSingle(s, ty, "", START, ctx);
    FinishedKeeps(r.0.rules, s, ctx, r.0);
    AllOfAccepts(r.0.rules, s, ty, "", START, ctx, t);
    if "" !in ListedByAll(AllMembers(s.allOf.parts), ctx.refs) { MergedIsRoot(s, ty, ctx); }
  }

  // ---------- texts of limited length ----------

  // How many characters of a JSON string are written.
  function CharCount(s: string): nat
    requires NotStrings.CharText(s)
    decreases |s|
  {
    if s == "" then 0 else 1 + CharCount(s[NotStrings.CharWidth(s)..])
  }

  predicate LengthAllowed(lo: nat, hi: Option<nat>, n: nat) { if hi == Some(0) then n == 0 else CountOk(n, lo, hi) }

  lemma {:induction false} PartsCount(g: Rules, parts: seq<string>)
    requires NotStrings.HasCharRule(g) && AllAccepted(g, NotStrings.CharRule(), parts)
    ensures NotStrings.CharText(Flat(parts)) && CharCount(Flat(parts)) == |parts|
  {
    hide Accepts, NotStrings.CharWidth, NotStrings.CharRule;
    NotStrings.PartsAreText(g, parts);
    if parts != [] {
      PartsCount(g, parts[1..]);
      NotStrings.CharExact(g, parts[0]);
      NotStrings.WidthStays(parts[0], Flat(parts[1..]));
    }
  }

  lemma {:induction false} CharPartsCount(s: string)
    requires NotStrings.CharText(s)
    ensures |NotStrings.CharParts(s)| == CharCount(s)
    decreases |s|
  {
    hide NotStrings.CharWidth;
    if s != "" { CharPartsCount(s[NotStrings.CharWidth(s)..]); }
  }

  lemma {:induction false} CharsCounted(g: Rules, lo: nat, hi: Option<nat>, s: string)
    requires NotStrings.HasCharRule(g)
    ensures Accepts(g, Pattern.BuildRepetition(NotStrings.CharRule(), lo, hi), s)
            <==> NotStrings.CharText(s) && LengthAllowed(lo, hi, CharCount(s))
  {
    hide Accepts, NotStrings.CharText, NotStrings.CharRule, NotStrings.CharParts;
    var e := NotStrings.CharRule();
    if hi == Some(0) {
      AcceptsLit(g, "", s);
      NoChars(s);
    } else {
      if Accepts(g, Rep(e, lo, hi), s) {
        var parts := RepSplit(g, e, lo, hi, s);
        PartsCount(g, parts);
      }
      if NotStrings.CharText(s) && LengthAllowed(lo, hi, CharCount(s)) {
        NotStrings.CharPartsAre(g, s);
        CharPartsCount(s);
        RepJoin(g, e, lo, hi, NotStrings.CharParts(s));
      }
    }
  }

  lemma {:induction false} NoChars(s: string)
    ensures s == "" <==> NotStrings.CharText(s) && CharCount(s) == 0
  {
    hide NotStrings.CharWidth;
  }

  predicate IsLimited(s: Schema, ty: Option<string>) {
    && s.constant.None? && s.enumerated.None? && ty == Some("string") && s.allOf.NoAllOf? && s.pattern.None? && !IsUuid(s.format)
    && Format(s.format + "-string").None? && (s.minLength.Some? || s.maxLength.Some?)
  }

  lemma {:induction false} AsLimited(s: Schema, ty: Option<string>, name: string, st: CState, ctx: Context)
    requires IsLimited(s, ty)
    ensures VisitAs(s, ty, name, st, ctx) == VisitLength(s, name, st)
  {
    hide VisitLength, VisitObject, VisitItems, VisitAllOf, VisitPattern, IsUuid, Format;
  }

  lemma {:induction false} SameBody(g: Rules, a: Expr, b: Expr, lo: nat, hi: Option<nat>, x: string)
    requires forall y: string :: Accepts(g, a, y) <==> Accepts(g, b, y)
    ensures Accepts(g, Pattern.BuildRepetition(a, lo, hi), x) <==> Accepts(g, Pattern.BuildRepetition(b, lo, hi), x)
  {
    hide Accepts;
    if hi != Some(0) {
      if Accepts(g, Rep(a, lo, hi), x) {
        var parts := RepSplit(g, a, lo, hi, x);
        RepJoin(g, b, lo, hi, parts);
      }
      if Accepts(g, Rep(b, lo, hi), x) {
        var parts := RepSplit(g, b, lo, hi, x);
        RepJoin(g, a, lo, hi, parts);
      }
    }
  }

  lemma {:induction false} QuotedChars(g: Rules, rule: string, lo: nat, hi: Option<nat>, t: string)
    requires HasSpaceRule(g) && NotStrings.HasCharRule(g) && rule in g && g[rule] == NotStrings.CHAR_CONTENT
    ensures Accepts(g, CatAll([Lit("\""), Pattern.BuildRepetition(Ref(rule), lo, hi), Lit("\""), Space()]), t)
            <==> exists body, sp :: KeyParts(t, body, sp) && NotStrings.CharText(body) && LengthAllowed(lo, hi, CharCount(body))
  {
    var e, quote := Pattern.BuildRepetition(Ref(rule), lo, hi), Lit("\"");
    forall y: string ensures Accepts(g, Ref(rule), y) <==> Accepts(g, NotStrings.CharRule(), y) {
      AcceptsRef(g, rule, y);
      AcceptsRef(g, "char", y);
    }
    hide Accepts, NotStrings.CharText, CharCount, KeyParts, NotStrings.CHAR_CONTENT;
    forall x: string ensures Accepts(g, quote, x) <==> x == "\"" { AcceptsLit(g, "\"", x); }
    FourInARow(g, quote, e, t);
    QuotesExact(g, quote, e, quote, t);
    forall x: string ensures Accepts(g, e, x) <==> NotStrings.CharText(x) && LengthAllowed(lo, hi, CharCount(x)) {
      SameBody(g, Ref(rule), NotStrings.CharRule(), lo, hi, x);
      CharsCounted(g, lo, hi, x);
    }
  }

  // A string schema with a limited length accepts the JSON strings with an allowed number of characters.
  lemma {:induction false} LengthAccepts(g: Rules, whole: Schema, at: Context, s: Schema, ty: Option<string>, name: string, st: CState, ctx: Context, t: string)
    requires IsLimited(s, ty) && Finished(g, whole, at, VisitAs(s, ty, name, st, ctx).0)
    ensures Accepts(g, Ref(VisitAs(s, ty, name, st, ctx).1), t)
            <==> exists body, sp :: KeyParts(t, body, sp) && NotStrings.CharText(body)
                                    && LengthAllowed(if s.minLength.Some? then s.minLength.value else 0, s.maxLength, CharCount(body))
  {
    hide Accepts, VisitAs, Convert, NotStrings.CharText, CharCount, KeyParts, RuleName, AddPrimitive, CatAll, Pattern.BuildRepetition, Add, LengthAllowed;
    AsLimited(s, ty, name, st, ctx);
    var r, lo := AddBuiltin(st, "char", CharRule()), if s.minLength.Some? then s.minLength.value else 0;
    CharBuiltin(st);
    var e := CatAll([Lit("\""), Pattern.BuildRepetition(Ref(r.1), lo, s.maxLength), Lit("\""), Space()]);
    AddedMeans(g, r.0, RuleName(name), e, t);
    FinishedKeeps(g, whole, at, VisitAs(s, ty, name, st, ctx).0);
    QuotedChars(g, r.1, lo, s.maxLength, t);
  }

  lemma {:induction false} CharBuiltin(st: CState)
    ensures var r := AddBuiltin(st, "char", CharRule()); "char" in r.0.rules && r.1 in r.0.rules && r.0.rules[r.1] == NotStrings.CHAR_CONTENT
  {
    CharPlain();
    BuiltinAddsItself(st.rules, "char", CharRule());
    hide AddDeps, EscapeName;
  }
}
