/** References that share a rule name: which references a conversion looks at, and which it takes for one
    that it has already converted. */
module SchemaRefs {
  import opened Basics
  import opened Gbnf
  import opened RuleStore
  import opened Primitives
  import opened Schema
  import opened SchemaClosed
  import IntRange
  import Pattern

  // ---------- references with one name ----------

  // Every run of characters that names may not have looks the same.
  ghost predicate Run(x: string) { x != "" && forall i :: 0 <= i < |x| ==> !IsNameChar(x[i]) }

  lemma {:induction false} RunEnds(x: string, q: string, c: char)
    requires Run(x) && !IsNameChar(c)
    ensures EscapeName(x + q) == EscapeName([c] + q)
  {
    assert ([c] + q)[1..] == q;
    if |x| > 1 {
      assert (x + q)[1..] == x[1..] + q;
      RunEnds(x[1..], q, c);
    } else {
      assert (x + q)[1..] == q;
    }
  }

  lemma {:induction false} RunsAlike(p: string, x: string, y: string, q: string)
    requires Run(x) && Run(y)
    ensures EscapeName(p + x + q) == EscapeName(p + y + q)
  {
    if p == "" {
      assert p + x + q == x + q && p + y + q == y + q;
      RunEnds(x, q, '_');
      RunEnds(y, q, '_');
    } else {
      RunsAlike(p[1..], x, y, q);
      assert (p + x + q)[1..] == p[1..] + x + q && (p + y + q)[1..] == p[1..] + y + q;
    }
  }

  lemma {:induction false} FragmentIs(base: string, f: string)
    requires '#' !in base
    ensures Fragment(base + ("#" + f)) == f
  {
    var x := base + ("#" + f);
    if base != "" {
      assert x[1..] == base[1..] + ("#" + f);
      assert x[|base|] == '#';
      FragmentIs(base[1..], f);
    } else {
      assert x == "#" + f && x[1..] == f;
    }
  }

  // Neither the document nor the characters between the parts of the fragment tell two references apart.
  lemma {:induction false} NamesAlike(base1: string, base2: string, p: string, x: string, y: string, q: string)
    requires '#' !in base1 && '#' !in base2 && Run(x) && Run(y)
    ensures RefName(base1 + ("#" + (p + x + q))) == RefName(base2 + ("#" + (p + y + q)))
  {
    FragmentIs(base1, p + x + q);
    FragmentIs(base2, p + y + q);
    RunsAlike(p, x, y, q);
    hide Fragment, EscapeName;
  }

  // "#/$defs/a_b" and "#/$defs/a.b", and one fragment of two documents.
  lemma {:induction false} ClashingNames()
    ensures RefName("#/$defs/a_b") == RefName("#/$defs/a.b")
  {
    assert Run("_") && Run(".");
    hide RefName, Run;
    NamesAlike("", "", "/$defs/a", "_", ".", "b");
    assert "" + ("#" + ("/$defs/a" + "_" + "b")) == "#/$defs/a_b";
    assert "" + ("#" + ("/$defs/a" + "." + "b")) == "#/$defs/a.b";
  }

  lemma {:induction false} ClashingDocuments()
    ensures RefName("https://one#/x") == RefName("https://two#/x")
  {
    assert Run("/");
    hide RefName, Run;
    NamesAlike("https://one", "https://two", "", "/", "/", "x");
    assert "https://one" + ("#" + ("" + "/" + "x")) == "https://one#/x";
    assert "https://two" + ("#" + ("" + "/" + "x")) == "https://two#/x";
  }

  // ---------- which references are looked at ----------

  function Swapped(ref: string, other: Schema, ctx: Context): Context { ctx.(refs := ctx.refs[ref := other]) }

  // What the reference stands for makes a difference.
  ghost predicate LooksAt(ref: string, st: CState, ctx: Context, at: Schema) {
    exists other :: ResolveRef(ref, st, Swapped(ref, other, ctx), at) != ResolveRef(ref, st, ctx, at)
  }

  function Constant(text: string): Schema { EMPTY.(constant := Some(text)) }

  lemma {:induction false} ConstantVisited(text: string, name: string, st: CState, ctx: Context)
    ensures Visit(Constant(text), name, st, ctx) == Add(st, RuleName(name), Cat(Lit(text), Space()))
  {
    hide Add, RuleName;
  }

  lemma {:induction false} AddFree(st: CState, name: string, e: Expr)
    requires EscapeName(name) == name && name !in st.rules
    ensures Add(st, name, e) == (st.(rules := st.rules[name := e]), name)
  {
    hide EscapeName;
  }

  lemma {:induction false} ConstantResolved(ref: string, text: string, st: CState, ctx: Context, at: Schema)
    requires RefName(ref) !in st.rules && ref !in st.being && ref in ctx.refs && ctx.refs[ref] == Constant(text)
    ensures ResolveRef(ref, st, ctx, at) == (st.(rules := st.rules[RefName(ref) := Cat(Lit(text), Space())]), RefName(ref))
  {
    RefNameClean(ref);
    hide RefName, RuleName, EscapeName, Visit, Add, Constant, Space;
    var st1 := st.(being := st.being + {ref});
    ConstantVisited(text, RefName(ref), st1, ctx.(chased := {}));
    AddFree(st1, RefName(ref), Cat(Lit(text), Space()));
  }

  // A reference is looked at exactly when its name is free and it is not being resolved.
  lemma {:induction false} LooksExact(ref: string, st: CState, ctx: Context, at: Schema)
    requires ref in ctx.refs
    ensures LooksAt(ref, st, ctx, at) <==> RefName(ref) !in st.rules && ref !in st.being
  {
    if RefName(ref) !in st.rules && ref !in st.being {
      var one, two := Constant("1"), Constant("2");
      ConstantResolved(ref, "1", st, Swapped(ref, one, ctx), at);
      ConstantResolved(ref, "2", st, Swapped(ref, two, ctx), at);
      hide RefName, ResolveRef;
      assert st.rules[RefName(ref) := Cat(Lit("1"), Space())][RefName(ref)] == Cat(Lit("1"), Space());
      assert st.rules[RefName(ref) := Cat(Lit("2"), Space())][RefName(ref)] == Cat(Lit("2"), Space());
      assert ResolveRef(ref, st, Swapped(ref, one, ctx), at) != ResolveRef(ref, st, Swapped(ref, two, ctx), at);
    } else {
      hide RefName, Visit, VisitLeaf;
    }
  }

  // ---------- what a resolved reference leaves under its name ----------

  // A schema for a type or format with a rule of its own is that rule, under the rule's own name.
  predicate Shared(s: Schema) {
    && s.ref.None? && s.alternatives.NoAlternatives? && !s.types.Several?
    && SharedAs(s, if s.types.One? then Some(s.types.name) else None)
  }

  predicate SharedAs(s: Schema, ty: Option<string>) {
    && s.constant.None? && s.enumerated.None? && !NestedAs(s, ty) && !(Untyped(ty, "string") && s.pattern.Some?)
    && ((Untyped(ty, "string") && IsUuid(s.format)) || SharedType(s, ty))
  }

  predicate SharedType(s: Schema, ty: Option<string>) {
    && ty.Some? && ty.value != "object" && !Empty(s) && Primitive(ty.value).Some?
    && !(ty.value == "string" && Format(s.format + "-string").Some?)
    && !(ty.value == "string" && (s.minLength.Some? || s.maxLength.Some?))
    && !(ty.value == "integer" && (s.minimum.Some? || s.maximum.Some?))
  }

  ghost predicate Defined(name: string, r: (CState, string)) { r.0.halts != {} || EscapeName(RuleName(name)) in r.0.rules }

  lemma {:induction false} AddDefines(st: CState, name: string, e: Expr)
    ensures Defined(name, Add(st, RuleName(name), e))
  {
    hide EscapeName, RuleName;
  }

  lemma {:induction false} PatternDefines(p: string, name: string, dotall: bool, st: CState)
    ensures Defined(name, VisitPattern(p, RuleName(name), dotall, st))
  {
    hide EscapeName, RuleName, Pattern.Loop, Pattern.Quoted;
  }

  lemma {:induction false} UntypedDefines(s: Schema, ty: Option<string>, name: string, st: CState)
    requires !(ty.Some? && ty.value != "object" && !Empty(s) && Primitive(ty.value).Some?)
    ensures Defined(name, VisitUntyped(s, ty, name, st))
  {
    hide Add, AddBuiltin, Empty, Primitive, Defined, AnyObjectRule, ValueRule, RuleName;
    if ty == Some("object") || Empty(s) {
      var r := AddBuiltin(st, "object", AnyObjectRule());
      AddDefines(r.0, name, Ref(r.1));
    } else if ty.None? {
      var r := AddBuiltin(st, "value", ValueRule());
      AddDefines(r.0, name, Ref(r.1));
    } else {
      FailDefines(st, name);
    }
  }

  lemma {:induction false} FailDefines(st: CState, name: string)
    ensures Defined(name, Fail(st, Errors)) && Defined(name, Fail(st, Uncovered))
  {
    assert Errors in Fail(st, Errors).0.halts && Uncovered in Fail(st, Uncovered).0.halts;
  }

  lemma {:induction false} IntegerDefines(s: Schema, name: string, st: CState)
    ensures Defined(name, VisitInteger(s, name, st))
  {
    hide Add, IntRange.MinMax, IntRange.ValidArgs, Defined, RuleName;
    FailDefines(st, name);
    var lo := if s.minimum.Some? then s.minimum.value else IntRange.INT64_MIN;
    var hi := if s.maximum.Some? then s.maximum.value else IntRange.INT64_MAX;
    if IntRange.ValidArgs(lo, hi) && IntRange.MinMax(lo, hi, 16, true).Ok? {
      AddDefines(st, name, Cat(IntRange.MinMax(lo, hi, 16, true).value, Space()));
    }
  }

  lemma {:induction false} LengthDefines(s: Schema, name: string, st: CState)
    ensures Defined(name, VisitLength(s, name, st))
  {
    hide Add, AddBuiltin, Defined, RuleName, CatAll, Pattern.BuildRepetition, CharRule;
    var r := AddBuiltin(st, "char", CharRule());
    var lo := if s.minLength.Some? then s.minLength.value else 0;
    AddDefines(r.0, name, CatAll([Lit("\""), Pattern.BuildRepetition(Ref(r.1), lo, s.maxLength), Lit("\""), Space()]));
  }

  lemma {:induction false} LeafDefines(s: Schema, ty: Option<string>, name: string, dotall: bool, st: CState)
    requires s.constant.None? && s.enumerated.None? && !NestedAs(s, ty) && !SharedAs(s, ty)
    ensures Defined(name, VisitLeaf(s, ty, name, dotall, st))
  {
    hide NestedAs, VisitPattern, VisitLength, VisitInteger, VisitUntyped, Add, AddBuiltin, Defined, RuleName, Format, Primitive, Empty, IsUuid;
    if Untyped(ty, "string") && s.pattern.Some? {
      PatternDefines(s.pattern.value, name, dotall, st);
    } else if Untyped(ty, "string") && IsUuid(s.format) {
    } else if Untyped(ty, "string") && Format(s.format + "-string").Some? {
      var r := AddBuiltin(st, s.format + "-string", Format(s.format + "-string").value);
      AddDefines(r.0, name, Ref(r.1));
    } else if ty == Some("string") && (s.minLength.Some? || s.maxLength.Some?) {
      LengthDefines(s, name, st);
    } else if ty == Some("integer") && (s.minimum.Some? || s.maximum.Some?) {
      IntegerDefines(s, name, st);
    } else {
      UntypedDefines(s, ty, name, st);
    }
  }

  lemma {:induction false} VisitAsDefines(s: Schema, ty: Option<string>, name: string, st: CState, ctx: Context)
    requires !SharedAs(s, ty)
    ensures Defined(name, VisitAs(s, ty, name, st, ctx))
  {
    hide VisitLeaf, VisitObject, VisitAllOf, VisitItems, Union, Add, Defined, SharedAs, RuleName;
    if s.constant.Some? {
      AddDefines(st, name, Cat(Lit(s.constant.value), Space()));
    } else if s.enumerated.Some? {
      AddDefines(st, name, Cat(Union(Literals(s.enumerated.value)), Space()));
    } else if IsObject(s, ty) {
      var r := VisitObject(s, PropertiesOf(s), name, st, ctx);
      AddDefines(r.0, name, r.1);
    } else if IsAllOf(s, ty) {
      var r := VisitAllOf(s, s.allOf, name, st, ctx);
      AddDefines(r.0, name, r.1);
    } else if Untyped(ty, "array") && !s.items.NoItems? {
      var r := VisitItems(s, s.items, name, st, ctx);
      AddDefines(r.0, name, r.1);
    } else {
      LeafDefines(s, ty, name, ctx.dotall, st);
    }
  }

  lemma {:induction false} VisitDefines(s: Schema, name: string, st: CState, ctx: Context)
    requires !Shared(s)
    ensures Defined(name, Visit(s, name, st, ctx))
  {
    hide VisitAs, VisitAlternatives, VisitEachType, ResolveRef, Union, Add, Defined, SharedAs, RuleName;
    if s.ref.Some? {
      var r := ResolveRef(s.ref.value, st, ctx, s);
      AddDefines(r.0, name, Ref(r.1));
    } else if s.alternatives.AnyOf? {
      var r := VisitAlternatives(s.alternatives.subs, name, 0, st, ctx);
      AddDefines(r.0, name, Union(RefsTo(r.1)));
    } else {
      match s.types
      case Several(ts) =>
        var r := VisitEachType(s, ts, name, 0, st, ctx);
        AddDefines(r.0, name, Union(RefsTo(r.1)));
      case NoType => VisitAsDefines(s, None, name, st, ctx);
      case One(t) => VisitAsDefines(s, Some(t), name, st, ctx);
    }
  }

  // ---------- a shared rule leaves the names of references free ----------

  ghost predicate NoneNamed(newer: Rules, older: Rules) {
    forall k :: k in newer && k !in older ==> k != "" && k[0] != 'r'
  }

  ghost predicate NotRef(name: string) { name != "" && IsNameChar(name[0]) && name[0] != 'r' }

  lemma {:induction false} BuiltinNotRef(name: string)
    requires name in BUILTINS || IsUuid(name)
    ensures NotRef(name)
  {
    if name in BUILTINS {
      assert forall i :: 0 <= i < |BUILTIN_NAMES| ==> BUILTIN_NAMES[i] != "" && BUILTIN_NAMES[i][0] in "bdinvoausct";
      assert forall c :: c in "bdinvoausct" ==> IsNameChar(c) && c != 'r';
    }
  }

  lemma {:induction false} AddNotRef(rules: Rules, name: string, e: Expr)
    requires NotRef(name)
    ensures NoneNamed(AddRule(rules, name, e).0, rules)
  {
    assert EscapeName(name)[0] == name[0];
    hide EscapeName;
  }

  lemma {:induction false} NoneNamedTransitive(a: Rules, b: Rules, c: Rules)
    requires NoneNamed(a, b) && NoneNamed(b, c)
    ensures NoneNamed(a, c)
  {
  }

  lemma {:induction false} PrimitiveNotRef(rules: Rules, name: string, b: Builtin)
    requires NotRef(name)
    ensures NoneNamed(AddPrimitive(rules, name, b).0, rules)
    decreases |BUILTINS - rules.Keys - {EscapeName(name)}|, 1, 0
  {
    hide NoneNamed, NotRef;
    var r := AddRule(rules, name, b.content);
    FewerLeft(BUILTINS - r.0.Keys, BUILTINS - rules.Keys - {EscapeName(name)});
    AddNotRef(rules, name, b.content);
    DepsNotRef(r.0, b.deps);
    NoneNamedTransitive(AddDeps(r.0, b.deps), r.0, rules);
  }

  lemma {:induction false} DepsNotRef(rules: Rules, deps: seq<string>)
    ensures NoneNamed(AddDeps(rules, deps), rules)
    decreases |BUILTINS - rules.Keys|, 0, |deps|
  {
    if deps != [] {
      hide NoneNamed;
      var rules1 := AddDep(rules, deps[0], |deps|);
      FewerLeft(BUILTINS - rules1.Keys, BUILTINS - rules.Keys);
      DepNotRef(rules, deps[0], |deps|);
      DepsNotRef(rules1, deps[1..]);
      NoneNamedTransitive(AddDeps(rules1, deps[1..]), rules1, rules);
    }
  }

  lemma {:induction false} DepNotRef(rules: Rules, dep: string, left: nat)
    requires left > 0
    ensures NoneNamed(AddDep(rules, dep, left), rules)
    decreases |BUILTINS - rules.Keys|, 0, left - 1
  {
    hide NotRef, Known, EscapeName, AddPrimitive, AddDeps, IsUuid;
    if dep !in rules && Known(dep).Some? {
      KnownNames(dep);
      BuiltinNameClean(dep);
      BuiltinNotRef(dep);
      FewerLeft(BUILTINS - rules.Keys - {dep}, BUILTINS - rules.Keys);
      PrimitiveNotRef(rules, dep, Known(dep).value);
    }
  }

  lemma {:induction false} SharedLeaf(s: Schema, ty: Option<string>, name: string, dotall: bool, st: CState)
    requires SharedAs(s, ty) && RuleName(name) != "root"
    ensures NoneNamed(VisitLeaf(s, ty, name, dotall, st).0.rules, st.rules)
  {
    hide NestedAs, NoneNamed, NotRef, VisitPattern, VisitLength, VisitInteger, AddPrimitive, RuleName, Format, UuidRule, Empty, IsUuid, Primitive;
    if Untyped(ty, "string") && IsUuid(s.format) {
      BuiltinNotRef(s.format);
      PrimitiveNotRef(st.rules, s.format, UuidRule());
    } else {
      PrimitiveKnown(ty.value);
      BuiltinNotRef(ty.value);
      PrimitiveNotRef(st.rules, ty.value, Primitive(ty.value).value);
    }
  }

  lemma {:induction false} PrimitiveKnown(name: string)
    requires Primitive(name).Some?
    ensures name in BUILTINS
  {
    hide Primitive, Format;
    KnownNames(name);
  }

  lemma {:induction false} SharedVisit(s: Schema, name: string, st: CState, ctx: Context)
    requires Shared(s) && RuleName(name) != "root"
    ensures NoneNamed(Visit(s, name, st, ctx).0.rules, st.rules)
  {
    var ty := if s.types.One? then Some(s.types.name) else None;
    SharedLeaf(s, ty, name, ctx.dotall, st);
    hide NoneNamed, VisitLeaf, RuleName, VisitObject, VisitAllOf, VisitItems, Add, SharedType, ResolveRef, VisitAlternatives, VisitEachType;
  }

  // ---------- the second look ----------

  // A name is taken once a reference with it has been resolved to anything but a shared rule.
  predicate Taken(ref: string, st: CState, ctx: Context)
    requires ref in ctx.refs
  {
    RefName(ref) in st.rules || !Shared(ctx.refs[ref])
  }

  lemma {:induction false} ResolvedName(a: string, st: CState, ctx: Context, at: Schema)
    requires a in ctx.refs && a !in st.being
    ensures var st1 := ResolveRef(a, st, ctx, at).0;
            && (Taken(a, st, ctx) ==> st1.halts != {} || RefName(a) in st1.rules)
            && (!Taken(a, st, ctx) ==> NoneNamed(st1.rules, st.rules))
  {
    RefNameClean(a);
    assert RefName(a) != "root" by { assert RefName(a)[2] == 'f' && "root"[2] == 'o'; }
    hide Visit, RefName, RuleName, EscapeName, Shared, NoneNamed;
    if RefName(a) !in st.rules {
      var st1 := st.(being := st.being + {a});
      var ctx1 := ctx.(chased := {});
      if Shared(ctx.refs[a]) {
        SharedVisit(ctx.refs[a], RefName(a), st1, ctx1);
      } else {
        VisitDefines(ctx.refs[a], RefName(a), st1, ctx1);
      }
    }
  }

  // Main result: after one reference has been resolved, another is looked at exactly when it has another
  // name, no rule has its name, and it is not being resolved.  A reference to a shared rule takes no
  // name: whatever was looked at before it still is.
  lemma {:induction false} SecondLook(a: string, b: string, st: CState, ctx: Context, at: Schema)
    requires a in ctx.refs && b in ctx.refs && a !in st.being
    ensures var st1 := ResolveRef(a, st, ctx, at).0;
            || st1.halts != {}
            || (if Taken(a, st, ctx) then LooksAt(b, st1, ctx, at) <==> RefName(b) != RefName(a) && RefName(b) !in st1.rules && b !in st.being
                else LooksAt(b, st1, ctx, at) <==> LooksAt(b, st, ctx, at))
  {
    ResolvedName(a, st, ctx, at);
    assert RefName(b)[0] == 'r';
    hide RefName, ResolveRef, LooksAt, Taken;
    var st1 := ResolveRef(a, st, ctx, at).0;
    LooksExact(b, st, ctx, at);
    LooksExact(b, st1, ctx, at);
  }

  // The second of two references with one name is taken for the first, whatever it stands for.
  lemma {:induction false} SecondIgnored(a: string, b: string, st: CState, ctx: Context, at: Schema)
    requires a in ctx.refs && a !in st.being && Taken(a, st, ctx) && RefName(b) == RefName(a)
    ensures var st1 := ResolveRef(a, st, ctx, at).0;
            st1.halts != {} || ResolveRef(b, st1, ctx, at) == (st1, RefName(a))
  {
    ResolvedName(a, st, ctx, at);
    hide RefName, Visit, VisitLeaf, Taken;
  }

  // ---------- an input ----------

  const ONE := "https://one#/x"
  const TWO := "https://two#/x"

  function Either(): Schema { EMPTY.(alternatives := AnyOf([EMPTY.(ref := Some(ONE)), EMPTY.(ref := Some(TWO))])) }

  function TwoDocuments(second: Schema): Context { Context(map[ONE := Constant("1"), TWO := second], false, {}) }

  lemma {:induction false} NotStarted(ref: string)
    ensures RefName(ref) !in START.rules && ref !in START.being
  {
    assert RefName(ref)[0] == 'r' && "space"[0] == 's';
    hide RefName;
  }

  lemma {:induction false} FirstDocument(second: Schema)
    ensures ONE in TwoDocuments(second).refs && TwoDocuments(second).refs[ONE] == Constant("1")
  {
    assert ONE[9] == 'n' && TWO[9] == 'w';
    hide Constant;
  }

  lemma {:induction false} FirstResolved(second: Schema, at: Schema)
    ensures ResolveRef(ONE, START, TwoDocuments(second), at)
            == (START.(rules := START.rules[RefName(ONE) := Cat(Lit("1"), Space())]), RefName(ONE))
  {
    hide *;
    NotStarted(ONE);
    FirstDocument(second);
    ConstantResolved(ONE, "1", START, TwoDocuments(second), at);
  }

  lemma {:induction false} VisitRef(ref: string, name: string, st: CState, ctx: Context)
    ensures var at := EMPTY.(ref := Some(ref));
            Visit(at, name, st, ctx) == Add(ResolveRef(ref, st, ctx, at).0, RuleName(name), Ref(ResolveRef(ref, st, ctx, at).1))
  {
    hide ResolveRef, Add, RuleName;
  }

  function Outcome(): (CState, seq<string>) {
    var n := RefName(ONE);
    var first := Add(START.(rules := START.rules[n := Cat(Lit("1"), Space())]), RuleName(AlternativeName("", 0)), Ref(n));
    var next := Add(first.0, RuleName(AlternativeName("", 1)), Ref(n));
    (next.0, [first.1, next.1])
  }

  lemma {:induction false} SecondAlternative(x: Schema)
    ensures VisitAlternatives([EMPTY.(ref := Some(ONE)), EMPTY.(ref := Some(TWO))], "", 0, START, TwoDocuments(x)) == Outcome()
  {
    var one, two := EMPTY.(ref := Some(ONE)), EMPTY.(ref := Some(TWO));
    var ctx, n := TwoDocuments(x), RefName(ONE);
    ClashingDocuments();
    FirstResolved(x, one);
    hide RefName, RuleName, AlternativeName, TwoDocuments, Visit;
    VisitRef(ONE, AlternativeName("", 0), START, ctx);
    var first := Visit(one, AlternativeName("", 0), START, ctx);
    assert n in first.0.rules;
    assert ResolveRef(TWO, first.0, ctx, two) == (first.0, n);
    VisitRef(TWO, AlternativeName("", 1), first.0, ctx);
    hide ResolveRef, Add;
    assert [one, two][1..] == [two] && [two][1..] == [];
    var next := Visit(two, AlternativeName("", 1), first.0, ctx);
    assert VisitAlternatives([], "", 2, next.0, ctx) == (next.0, []);
    assert VisitAlternatives([two], "", 1, first.0, ctx) == (next.0, [next.1] + []);
    assert [first.1] + ([next.1] + []) == [first.1, next.1];
  }

  // Either of two documents' schemas: what the second document holds is never looked at.
  lemma {:induction false} SecondDocumentLost(second: Schema, another: Schema)
    ensures Convert(Either(), TwoDocuments(second)) == Convert(Either(), TwoDocuments(another))
  {
    var one, two := EMPTY.(ref := Some(ONE)), EMPTY.(ref := Some(TWO));
    forall x: Schema
      ensures VisitAlternatives([one, two], "", 0, START, TwoDocuments(x)) == Outcome()
    {
      SecondAlternative(x);
    }
    hide VisitAlternatives, Outcome, TwoDocuments, Add, RuleName, Union;
  }
}
