/** Conversion of a schema gives a closed grammar: every rule name used is defined, however the
    references go round in circles. */
module SchemaClosed {
  import opened Basics
  import opened Decimals
  import opened Gbnf
  import opened JsonText
  import opened RuleStore
  import opened Primitives
  import opened Schema
  import opened SchemaNames
  import IntRange
  import NotStrings
  import ObjectRule
  import Pattern

  ghost predicate Ready(st: CState, promised: set<string>) {
    "space" in st.rules && ClosedBut(st.rules, promised)
  }

  // The names of the references being resolved are promised.
  ghost predicate Promised(st: CState, promised: set<string>) {
    forall ref :: ref in st.being ==> RefName(ref) in promised
  }

  // What a visit leaves behind, unless the conversion has failed.
  ghost predicate Good(r: (CState, string), promised: set<string>) {
    r.0.halts != {} || (Ready(r.0, promised) && r.1 in r.0.rules)
  }

  lemma {:induction false} AddGood(st: CState, name: string, e: Expr, promised: set<string>)
    requires Ready(st, promised) && Names(e) <= st.rules.Keys + promised
    ensures Good(Add(st, name, e), promised) && Ready(Add(st, name, e).0, promised) && EscapeName(name) in Add(st, name, e).0.rules
  {
    AddKeepsClosed(st.rules, name, e, promised);
  }

  lemma {:induction false} BuiltinGood(st: CState, name: string, b: Builtin, promised: set<string>)
    requires Ready(st, promised) && Complete(b)
    ensures var r := AddBuiltin(st, name, b);
            Ready(r.0, promised) && r.1 in r.0.rules && EscapeName(name) in r.0.rules
  {
    PrimitiveClosed(st.rules, name, b, promised);
  }

  lemma {:induction false} RefRuleGood(st: CState, name: string, n: string, promised: set<string>)
    requires Ready(st, promised) && (n in st.rules || n in promised)
    ensures Good(Add(st, name, Ref(n)), promised) && EscapeName(name) in Add(st, name, Ref(n)).0.rules
  {
    hide *;
    RefNames(n);
    AddGood(st, name, Ref(n), promised);
  }

  // ---------- schemas without sub-schemas ----------

  // The start rule has its name.
  ghost predicate RootNamed(name: string, r: (CState, string)) {
    RuleName(name) == "root" ==> r.0.halts != {} || "root" in r.0.rules
  }

  lemma {:induction false} RootIsClean()
    ensures EscapeName("root") == "root"
  {
    CleanName("root");
  }

  lemma {:induction false} LengthGood(s: Schema, name: string, st: CState, promised: set<string>)
    requires Ready(st, promised)
    ensures Good(VisitLength(s, name, st), promised) && RootNamed(name, VisitLength(s, name, st))
  {
    CharComplete();
    BuiltinGood(st, "char", CharRule(), promised);
    var r := AddBuiltin(st, "char", CharRule());
    var lo := if s.minLength.Some? then s.minLength.value else 0;
    var chars := Pattern.BuildRepetition(Ref(r.1), lo, s.maxLength);
    RefNames(r.1);
    BuiltWithin(Ref(r.1), lo, s.maxLength);
    hide CharRule, AddBuiltin, Complete, Pattern.BuildRepetition;
    QuotedNames(chars, r.0.rules.Keys);
    hide Names, Ready;
    RootIsClean();
    SpaceThere(r.0, promised);
    AddGood(r.0, RuleName(name), CatAll([Lit("\""), chars, Lit("\""), Space()]), promised);
  }

  lemma {:induction false} QuotedNames(e: Expr, allowed: set<string>)
    requires Names(e) <= allowed
    ensures "space" in allowed ==> Names(CatAll([Lit("\""), e, Lit("\""), Space()])) <= allowed
  {
    if "space" in allowed { CatAllNames([Lit("\""), e, Lit("\""), Space()], allowed); }
  }

  lemma {:induction false} IntegerGood(s: Schema, name: string, st: CState, promised: set<string>)
    requires Ready(st, promised)
    ensures Good(VisitInteger(s, name, st), promised) && RootNamed(name, VisitInteger(s, name, st))
  {
    hide IntRange.MinMax;
    var lo := if s.minimum.Some? then s.minimum.value else IntRange.INT64_MIN;
    var hi := if s.maximum.Some? then s.maximum.value else IntRange.INT64_MAX;
    if IntRange.ValidArgs(lo, hi) {
      MinMaxNames(lo, hi, 16, true);
      var r := IntRange.MinMax(lo, hi, 16, true);
      if r.Ok? {
        assert Names(Cat(r.value, Space())) == {"space"};
        RootIsClean();
        AddGood(st, RuleName(name), Cat(r.value, Space()), promised);
      }
    }
  }

  lemma {:induction false} UntypedGood(s: Schema, ty: Option<string>, name: string, st: CState, promised: set<string>)
    requires Ready(st, promised)
    ensures Good(VisitUntyped(s, ty, name, st), promised) && RootNamed(name, VisitUntyped(s, ty, name, st))
  {
    hide Ready, AnyObjectRule, ValueRule, Primitive, AddBuiltin, Complete, Add, Empty;
    RootIsClean();
    if ty == Some("object") || Empty(s) {
      AnyObjectComplete();
      BuiltinGood(st, "object", AnyObjectRule(), promised);
      var r := AddBuiltin(st, "object", AnyObjectRule());
      RefRuleGood(r.0, RuleName(name), r.1, promised);
    } else if ty.None? {
      ValueComplete();
      BuiltinGood(st, "value", ValueRule(), promised);
      var r := AddBuiltin(st, "value", ValueRule());
      RefRuleGood(r.0, RuleName(name), r.1, promised);
    } else if Primitive(ty.value).Some? {
      PrimitivesComplete(ty.value);
      BuiltinGood(st, TopName(name, ty.value), Primitive(ty.value).value, promised);
    }
  }

  lemma {:induction false} FormatGood(format: string, name: string, st: CState, promised: set<string>)
    requires Ready(st, promised) && Format(format).Some?
    ensures var r := AddBuiltin(st, format, Format(format).value);
            var a := Add(r.0, RuleName(name), Ref(r.1));
            Good(a, promised) && RootNamed(name, a)
  {
    hide Ready, Format, AddBuiltin, Complete, Add;
    RootIsClean();
    FormatsComplete(format);
    BuiltinGood(st, format, Format(format).value, promised);
    var r := AddBuiltin(st, format, Format(format).value);
    RefRuleGood(r.0, RuleName(name), r.1, promised);
  }

  lemma {:induction false} LeafGood(s: Schema, ty: Option<string>, name: string, dotall: bool, st: CState, promised: set<string>)
    requires Ready(st, promised)
    ensures Good(VisitLeaf(s, ty, name, dotall, st), promised) && RootNamed(name, VisitLeaf(s, ty, name, dotall, st))
  {
    hide VisitLength, VisitInteger, VisitUntyped, UuidRule, AddBuiltin, Format, Complete, Add, Pattern.Translate, IsUuid;
    RootIsClean();
    if Untyped(ty, "string") && s.pattern.Some? {
      PatternClosed(s.pattern.value, st.rules, Pattern.Config(RuleName(name), dotall), promised);
    } else if Untyped(ty, "string") && IsUuid(s.format) {
      UuidComplete();
      BuiltinGood(st, TopName(name, s.format), UuidRule(), promised);
    } else if Untyped(ty, "string") && Format(s.format + "-string").Some? {
      FormatGood(s.format + "-string", name, st, promised);
    } else if ty == Some("string") && (s.minLength.Some? || s.maxLength.Some?) {
      LengthGood(s, name, st, promised);
    } else if ty == Some("integer") && (s.minimum.Some? || s.maximum.Some?) {
      IntegerGood(s, name, st, promised);
    } else {
      UntypedGood(s, ty, name, st, promised);
    }
  }

  // ---------- reference names ----------

  lemma {:induction false} EscapedIsClean(s: string)
    ensures forall i :: 0 <= i < |EscapeName(s)| ==> IsNameChar(EscapeName(s)[i])
  {
    if s != [] { EscapedIsClean(s[1..]); }
  }

  lemma {:induction false} NotReserved(name: string)
    requires |name| >= 3 && name[..3] == "ref"
    ensures !Reserved(name)
  {
    assert name[0] == name[..3][0] == 'r' && name[1] == name[..3][1] == 'e';
    assert forall i :: 0 <= i < |BUILTIN_NAMES| ==> BUILTIN_NAMES[i] != "" && BUILTIN_NAMES[i][0] != 'r';
  }

  // A reference's name is its own rule name and needs no escaping.
  lemma {:induction false} RefNameClean(ref: string)
    ensures RuleName(RefName(ref)) == RefName(ref) && EscapeName(RefName(ref)) == RefName(ref)
  {
    hide Fragment;
    var e := EscapeName(Fragment(ref));
    EscapedIsClean(Fragment(ref));
    assert RefName(ref)[..3] == "ref";
    NotReserved(RefName(ref));
    CleanName(RefName(ref));
  }

  // ---------- schemas with sub-schemas ----------

  predicate NestedAs(s: Schema, ty: Option<string>) {
    s.constant.None? && s.enumerated.None? && (IsObject(s, ty) || IsAllOf(s, ty) || (Untyped(ty, "array") && !s.items.NoItems?))
  }

  predicate Nested(s: Schema) {
    || s.ref.Some? || s.alternatives.AnyOf? || s.types.Several?
    || NestedAs(s, if s.types.One? then Some(s.types.name) else None)
  }

  // Visiting a schema with sub-schemas defines its rule name.
  ghost predicate Defines(nested: bool, name: string, r: (CState, string)) {
    nested ==> r.0.halts != {} || EscapeName(RuleName(name)) in r.0.rules
  }

  ghost predicate AllGood(st: CState, names: seq<string>, promised: set<string>) {
    st.halts != {} || (Ready(st, promised) && forall i :: 0 <= i < |names| ==> names[i] in st.rules)
  }

  lemma {:induction false} StillReady(st: CState, small: set<string>, large: set<string>)
    requires Ready(st, small) && small <= large
    ensures Ready(st, large)
  {
    hide Names;
  }

  lemma {:induction false} PromiseKept(st: CState, promised: set<string>, name: string)
    requires Ready(st, promised + {name}) && name in st.rules
    ensures Ready(st, promised)
  {
    hide Names;
  }

  lemma {:induction false} ConsGood(r: (CState, string), rest: (CState, seq<string>), promised: set<string>)
    requires Good(r, promised) && AllGood(rest.0, rest.1, promised) && Extends(rest.0.rules, r.0.rules) && r.0.halts <= rest.0.halts
    ensures AllGood(rest.0, [r.1] + rest.1, promised)
  {
    hide Names;
  }

  lemma {:induction false} UnionGood(st: CState, names: seq<string>, name: string, promised: set<string>)
    requires AllGood(st, names, promised)
    ensures var r := Add(st, RuleName(name), Union(RefsTo(names)));
            Good(r, promised) && RootNamed(name, r) && Defines(true, name, r)
  {
    if st.halts == {} {
      RootIsClean();
      forall i | 0 <= i < |names| ensures Names(RefsTo(names)[i]) <= st.rules.Keys { RefNames(names[i]); }
      if names != [] { AltAllNames(RefsTo(names), st.rules.Keys); }
      hide Names, AltAll, RefsTo;
      AddGood(st, RuleName(name), Union(RefsTo(names)), promised);
    }
  }

  lemma {:induction false} VisitGood(s: Schema, name: string, st: CState, ctx: Context, promised: set<string>)
    requires Ready(st, promised) && (Nested(s) ==> Promised(st, promised))
    ensures var r := Visit(s, name, st, ctx); Good(r, promised) && RootNamed(name, r) && Defines(Nested(s), name, r)
    decreases Left(ctx, st), Unchased(ctx), s, 3
  {
    hide Ready, Promised, Union, VisitAs, VisitAlternatives, VisitEachType, ResolveRef, NestedAs, Reserved;
    if s.ref.Some? {
      ResolveGood(s.ref.value, st, ctx, s, promised);
      var r := ResolveRef(s.ref.value, st, ctx, s);
      if r.0.halts == {} {
        RootIsClean();
        RefRuleGood(r.0, RuleName(name), r.1, promised);
      }
    } else if s.alternatives.AnyOf? {
      AlternativesGood(s.alternatives.subs, name, 0, st, ctx, promised);
      var r := VisitAlternatives(s.alternatives.subs, name, 0, st, ctx);
      UnionGood(r.0, r.1, name, promised);
    } else {
      match s.types
      case Several(ts) =>
        EachTypeGood(s, ts, name, 0, st, ctx, promised);
        var r := VisitEachType(s, ts, name, 0, st, ctx);
        UnionGood(r.0, r.1, name, promised);
      case NoType => VisitAsGood(s, None, name, st, ctx, promised);
      case One(t) => VisitAsGood(s, Some(t), name, st, ctx, promised);
    }
  }

  lemma {:induction false} ResolveGood(ref: string, st: CState, ctx: Context, at: Schema, promised: set<string>)
    requires Ready(st, promised) && Promised(st, promised)
    ensures var r := ResolveRef(ref, st, ctx, at);
            r.0.halts != {} || (Ready(r.0, promised) && (r.1 in r.0.rules || r.1 in promised))
    decreases Left(ctx, st), Unchased(ctx), at, 2
  {
    hide Visit, VisitLeaf, RefName, Nested;
    var name := RefName(ref);
    if name !in st.rules && ref !in st.being {
      if ref !in ctx.refs {
        LeafGood(EMPTY, None, name, ctx.dotall, st, promised);
      } else {
        RefNameClean(ref);
        var st1 := st.(being := st.being + {ref});
        FewerLeft(ctx.refs.Keys - st1.being, ctx.refs.Keys - st.being);
        if Nested(ctx.refs[ref]) {
          StillReady(st1, promised, promised + {name});
          VisitGood(ctx.refs[ref], name, st1, ctx.(chased := {}), promised + {name});
          var r := Visit(ctx.refs[ref], name, st1, ctx.(chased := {}));
          if r.0.halts == {} { PromiseKept(r.0, promised, name); }
        } else {
          VisitGood(ctx.refs[ref], name, st1, ctx.(chased := {}), promised);
        }
      }
    }
  }

  lemma {:induction false} AlternativesGood(subs: seq<Schema>, name: string, i: nat, st: CState, ctx: Context, promised: set<string>)
    requires Ready(st, promised) && Promised(st, promised)
    ensures var r := VisitAlternatives(subs, name, i, st, ctx); AllGood(r.0, r.1, promised)
    decreases Left(ctx, st), Unchased(ctx), subs, 0
  {
    hide Ready, Visit, AlternativeName, Nested, Promised;
    if subs != [] {
      var r := Visit(subs[0], AlternativeName(name, i), st, ctx);
      VisitGood(subs[0], AlternativeName(name, i), st, ctx, promised);
      var rest := VisitAlternatives(subs[1..], name, i + 1, r.0, ctx);
      if r.0.halts == {} {
        SamePromises(st, r.0, promised);
        AlternativesGood(subs[1..], name, i + 1, r.0, ctx, promised);
        ConsGood(r, rest, promised);
      }
    }
  }

  lemma {:induction false} SamePromises(st: CState, st': CState, promised: set<string>)
    requires Promised(st, promised) && st'.being == st.being
    ensures Promised(st', promised)
  {
  }

  lemma {:induction false} EachTypeGood(s: Schema, ts: seq<string>, name: string, i: nat, st: CState, ctx: Context, promised: set<string>)
    requires Ready(st, promised) && Promised(st, promised)
    ensures var r := VisitEachType(s, ts, name, i, st, ctx); AllGood(r.0, r.1, promised)
    decreases Left(ctx, st), Unchased(ctx), s, 2, |ts|
  {
    hide Ready, VisitAs, AlternativeName, NestedAs, Promised;
    if ts != [] {
      var r := VisitAs(s, Some(ts[0]), AlternativeName(name, i), st, ctx);
      VisitAsGood(s, Some(ts[0]), AlternativeName(name, i), st, ctx, promised);
      var rest := VisitEachType(s, ts[1..], name, i + 1, r.0, ctx);
      if r.0.halts == {} {
        SamePromises(st, r.0, promised);
        EachTypeGood(s, ts[1..], name, i + 1, r.0, ctx, promised);
        ConsGood(r, rest, promised);
      }
    }
  }

  lemma {:induction false} ConstantGood(st: CState, name: string, e: Expr, promised: set<string>)
    requires Ready(st, promised) && Names(e) == {}
    ensures var r := Add(st, RuleName(name), Cat(e, Space())); Good(r, promised) && RootNamed(name, r)
  {
    RootIsClean();
    assert Names(Cat(e, Space())) == {"space"};
    AddGood(st, RuleName(name), Cat(e, Space()), promised);
  }

  lemma {:induction false} LiteralNames(texts: seq<string>)
    ensures Names(Union(Literals(texts))) == {}
  {
    if texts != [] { AltAllNames(Literals(texts), {}); }
  }

  lemma {:induction false} VisitAsGood(s: Schema, ty: Option<string>, name: string, st: CState, ctx: Context, promised: set<string>)
    requires Ready(st, promised) && (NestedAs(s, ty) ==> Promised(st, promised))
    ensures var r := VisitAs(s, ty, name, st, ctx); Good(r, promised) && RootNamed(name, r) && Defines(NestedAs(s, ty), name, r)
    decreases Left(ctx, st), Unchased(ctx), s, 1
  {
    hide Ready, VisitLeaf, VisitObject, VisitAllOf, VisitItems, Union, Promised, Reserved, Add;
    RootIsClean();
    if s.constant.Some? {
      assert Names(Lit(s.constant.value)) == {};
      ConstantGood(st, name, Lit(s.constant.value), promised);
    } else if s.enumerated.Some? {
      LiteralNames(s.enumerated.value);
      ConstantGood(st, name, Union(Literals(s.enumerated.value)), promised);
    } else if IsObject(s, ty) {
      ObjectGood(s, PropertiesOf(s), name, st, ctx, promised);
      var r := VisitObject(s, PropertiesOf(s), name, st, ctx);
      AddedGood(r.0, name, r.1, promised);
    } else if IsAllOf(s, ty) {
      AllOfGood(s, s.allOf, name, st, ctx, promised);
      var r := VisitAllOf(s, s.allOf, name, st, ctx);
      AddedGood(r.0, name, r.1, promised);
    } else if Untyped(ty, "array") && !s.items.NoItems? {
      ItemsGood(s, s.items, name, st, ctx, promised);
      var r := VisitItems(s, s.items, name, st, ctx);
      AddedGood(r.0, name, r.1, promised);
    } else {
      LeafGood(s, ty, name, ctx.dotall, st, promised);
    }
  }

  lemma {:induction false} AddedGood(st: CState, name: string, e: Expr, promised: set<string>)
    requires st.halts != {} || (Ready(st, promised) && Names(e) <= st.rules.Keys)
    ensures var r := Add(st, RuleName(name), e); Good(r, promised) && RootNamed(name, r) && Defines(true, name, r)
  {
    RootIsClean();
    hide Names;
    if st.halts == {} { AddGood(st, RuleName(name), e, promised); }
  }

  // ---------- arrays ----------

  lemma {:induction false} TupleGood(subs: seq<Schema>, name: string, i: nat, st: CState, ctx: Context, promised: set<string>)
    requires Ready(st, promised) && Promised(st, promised)
    ensures var r := VisitTuple(subs, name, i, st, ctx); AllGood(r.0, r.1, promised)
    decreases Left(ctx, st), Unchased(ctx), subs, 0
  {
    hide Ready, Visit, Nested, Promised, Decimal, Under;
    if subs != [] {
      var sub := Under(name, "tuple-" + Decimal(i));
      var r := Visit(subs[0], sub, st, ctx);
      VisitGood(subs[0], sub, st, ctx, promised);
      var rest := VisitTuple(subs[1..], name, i + 1, r.0, ctx);
      if r.0.halts == {} {
        SamePromises(st, r.0, promised);
        TupleGood(subs[1..], name, i + 1, r.0, ctx, promised);
        ConsGood(r, rest, promised);
      }
    }
  }

  lemma {:induction false} TupleNames(names: seq<string>, allowed: set<string>)
    requires "space" in allowed && forall i :: 0 <= i < |names| ==> names[i] in allowed
    ensures forall i :: 0 <= i < |TupleItems(names)| ==> Names(TupleItems(names)[i]) <= allowed
  {
    if names != [] {
      RefNames(names[0]);
      assert Names(CommaSpace()) == {"space"};
      if |names| > 1 {
        TupleNames(names[1..], allowed);
        hide Names;
        ConcatNames([Ref(names[0]), CommaSpace()], TupleItems(names[1..]), allowed);
      }
    }
  }

  lemma {:induction false} BracketNames(body: seq<Expr>, allowed: set<string>)
    requires "space" in allowed && forall i :: 0 <= i < |body| ==> Names(body[i]) <= allowed
    ensures Names(Bracketed(body)) <= allowed
  {
    var open, close := [Lit("["), Space()], [Lit("]"), Space()];
    assert forall i :: 0 <= i < 2 ==> Names(open[i]) <= allowed && Names(close[i]) <= allowed;
    hide Names;
    ConcatNames(open, body, allowed);
    ConcatNames(open + body, close, allowed);
    CatAllNames(open + body + close, allowed);
  }

  lemma {:induction false} SeparatedNames(item: Expr, sep: Expr, lo: nat, hi: Option<nat>)
    ensures Names(Separated(item, sep, lo, hi)) <= Names(item) + Names(sep)
  {
    if hi != Some(0) && !(lo == 0 && hi == Some(1)) {
      var hi' := if hi.Some? then Some(hi.value - 1) else None;
      BuiltWithin(Cat(sep, item), if lo == 0 then 0 else lo - 1, hi');
    }
  }

  lemma {:induction false} ItemsGood(s: Schema, items: Items, name: string, st: CState, ctx: Context, promised: set<string>)
    requires items == s.items && !items.NoItems? && Ready(st, promised) && Promised(st, promised)
    ensures var r := VisitItems(s, items, name, st, ctx);
            r.0.halts != {} || (Ready(r.0, promised) && Names(r.1) <= r.0.rules.Keys)
    decreases Left(ctx, st), Unchased(ctx), s, 0
  {
    hide Visit, VisitTuple, Bracketed, Separated, CommaSpace, Under, Names, Nested, Promised;
    match items
    case Tuple(subs) =>
      TupleGood(subs, name, 0, st, ctx, promised);
      var r := VisitTuple(subs, name, 0, st, ctx);
      if r.0.halts == {} {
        TupleNames(r.1, r.0.rules.Keys);
        BracketNames(TupleItems(r.1), r.0.rules.Keys);
      }
    case Each(sub) =>
      VisitGood(sub, Under(name, "item"), st, ctx, promised);
      var r := Visit(sub, Under(name, "item"), st, ctx);
      if r.0.halts == {} {
        RefNames(r.1);
        CommaNames();
        SeparatedNames(Ref(r.1), CommaSpace(), s.minItems, s.maxItems);
        BracketNames([Separated(Ref(r.1), CommaSpace(), s.minItems, s.maxItems)], r.0.rules.Keys);
      }
  }

  lemma {:induction false} CommaNames()
    ensures Names(CommaSpace()) == {"space"}
  {
  }

  // ---------- objects ----------

  ghost predicate KvGood(st: CState, kv: ObjectRule.KvNames, promised: set<string>) {
    st.halts != {} || (Ready(st, promised) && kv.Values <= st.rules.Keys)
  }

  lemma {:induction false} KvNames(key: string, valueRule: string)
    ensures Names(KvExpr(key, valueRule)) <= {valueRule, "space"}
  {
    var es := [Lit(Dump(key)), Space(), Lit(":"), Space(), Ref(valueRule)];
    RefNames(valueRule);
    assert Names(es[0]) == Names(es[2]) == {} && Names(es[1]) == Names(es[3]) == {"space"};
    hide Names, Dump;
    CatAllNames(es, {valueRule, "space"});
  }

  lemma {:induction false} ExtraKvNames(keyRule: string, valueRule: string)
    ensures Names(ExtraKvExpr(keyRule, valueRule)) <= {keyRule, valueRule, "space"}
  {
    var es := [Ref(keyRule), Lit(":"), Space(), Ref(valueRule)];
    RefNames(keyRule);
    RefNames(valueRule);
    assert Names(es[1]) == {} && Names(es[2]) == {"space"};
    hide Names;
    CatAllNames(es, {keyRule, valueRule, "space"});
  }

  lemma {:induction false} PropertyGood(p: Property, name: string, st: CState, ctx: Context, promised: set<string>)
    requires Ready(st, promised) && Promised(st, promised)
    ensures Good(VisitProperty(p, name, st, ctx), promised)
    decreases Left(ctx, st), Unchased(ctx), p, 0
  {
    hide Visit, Under, Names, KvExpr, Nested, Promised, Add;
    VisitGood(p.sub, Under(name, p.key), st, ctx, promised);
    var r := Visit(p.sub, Under(name, p.key), st, ctx);
    if r.0.halts == {} {
      KvNames(p.key, r.1);
      AddGood(r.0, Under(name, p.key) + "-kv", KvExpr(p.key, r.1), promised);
    } else {
      FailedStays(r.0, Under(name, p.key) + "-kv", KvExpr(p.key, r.1));
    }
  }

  lemma {:induction false} FailedStays(st: CState, name: string, e: Expr)
    ensures st.halts <= Add(st, name, e).0.halts
  {
  }

  lemma {:induction false} KvCons(r: (CState, string), kv: ObjectRule.KvNames, key: string, promised: set<string>)
    requires Good(r, promised) && (r.0.halts != {} || kv.Values <= r.0.rules.Keys)
    ensures KvGood(r.0, kv[key := r.1], promised)
  {
    hide Ready;
    if r.0.halts == {} {
      var kv' := kv[key := r.1];
      forall v | v in kv'.Values ensures v in r.0.rules {
        var k :| k in kv' && kv'[k] == v;
        if k != key { assert kv[k] in kv.Values; }
      }
    }
  }

  lemma {:induction false} PropertiesGood(ps: seq<Property>, name: string, kv: ObjectRule.KvNames, st: CState, ctx: Context, promised: set<string>)
    requires Ready(st, promised) && Promised(st, promised) && kv.Values <= st.rules.Keys
    ensures var r := VisitProperties(ps, name, kv, st, ctx); KvGood(r.0, r.1, promised)
    decreases Left(ctx, st), Unchased(ctx), ps, 0
  {
    hide Ready, VisitProperty, Promised, Keys;
    if ps != [] {
      var r := VisitProperty(ps[0], name, st, ctx);
      PropertyGood(ps[0], name, st, ctx, promised);
      if r.0.halts == {} {
        KvCons(r, kv, ps[0].key, promised);
        SamePromises(st, r.0, promised);
        PropertiesGood(ps[1..], name, kv[ps[0].key := r.1], r.0, ctx, promised);
      }
    }
  }

  lemma {:induction false} ExtraKeyGood(ps: seq<Property>, subName: string, st: CState, promised: set<string>)
    requires Ready(st, promised)
    ensures Good(ExtraKey(ps, subName, st), promised)
  {
    hide AddBuiltin, CharRule, StringRule, NotStrings.NotStringsExpr, PropertyNames, Complete;
    if ps == [] {
      StringComplete();
      BuiltinGood(st, "string", StringRule(), promised);
    } else {
      CharComplete();
      BuiltinGood(st, "char", CharRule(), promised);
      var c := AddBuiltin(st, "char", CharRule());
      CleanName("char");
      NotStringsNames(PropertyNames(ps));
      AddGood(c.0, subName + "-k", NotStrings.NotStringsExpr(PropertyNames(ps)), promised);
    }
  }

  lemma {:induction false} ExtraValueGood(s: Schema, additional: Additional, name: string, st: CState, ctx: Context, promised: set<string>)
    requires additional == s.additional && additional.Extra? && Ready(st, promised) && Promised(st, promised)
    ensures Good(Visit(additional.sub, name, st, ctx), promised)
    decreases Left(ctx, st), Unchased(ctx), s, 0, 0, 0
  {
    hide Nested, Promised;
    VisitGood(additional.sub, name, st, ctx, promised);
  }

  lemma {:induction false} ExtraGood(s: Schema, additional: Additional, ps: seq<Property>, name: string, st: CState, ctx: Context, promised: set<string>)
    requires additional == s.additional && !additional.Absent? && Ready(st, promised) && Promised(st, promised)
    ensures Good(VisitExtra(s, additional, ps, name, st, ctx), promised)
    decreases Left(ctx, st), Unchased(ctx), s, 0, 0
  {
    hide Ready, Visit, AddBuiltin, ValueRule, ExtraKey, ExtraKvExpr, Complete, Names, Add, Under;
    var subName := Under(name, "additional");
    var value :=
      match additional
      case Extra(sub) => Visit(sub, subName + "-value", st, ctx)
      case _ => AddBuiltin(st, "value", ValueRule());
    if additional.Extra? {
      ExtraValueGood(s, additional, subName + "-value", st, ctx, promised);
    } else {
      ValueComplete();
      BuiltinGood(st, "value", ValueRule(), promised);
    }
    if value.0.halts == {} {
      ExtraKeyGood(ps, subName, value.0, promised);
      var key := ExtraKey(ps, subName, value.0);
      if key.0.halts == {} {
        assert value.1 in key.0.rules;
        ExtraKvNames(key.1, value.1);
        SpaceThere(key.0, promised);
        AddGood(key.0, subName + "-kv", ExtraKvExpr(key.1, value.1), promised);
      } else {
        FailedStays(key.0, subName + "-kv", ExtraKvExpr(key.1, value.1));
      }
    } else {
      FailedStays(ExtraKey(ps, subName, value.0).0, subName + "-kv", ExtraKvExpr(ExtraKey(ps, subName, value.0).1, value.1));
    }
  }

  lemma {:induction false} SpaceThere(st: CState, promised: set<string>)
    requires Ready(st, promised)
    ensures "space" in st.rules
  {
  }

  lemma {:induction false} PropsGood(s: Schema, ps: seq<Property>, name: string, st: CState, ctx: Context, promised: set<string>)
    requires ps == PropertiesOf(s) && Ready(st, promised) && Promised(st, promised)
    ensures var r := VisitProps(s, ps, name, st, ctx); KvGood(r.0, r.1, promised)
    decreases Left(ctx, st), Unchased(ctx), s, 0, 0
  {
    hide VisitProperties, Promised, Ready;
    if s.properties.Listed? { PropertiesGood(s.properties.list, name, map[], st, ctx, promised); }
  }

  lemma {:induction false} PairsGood(s: Schema, ps: seq<Property>, name: string, st: CState, ctx: Context, promised: set<string>)
    requires ps == PropertiesOf(s) && Ready(st, promised) && Promised(st, promised)
    ensures var r := VisitPairs(s, ps, name, st, ctx); KvGood(r.0, r.1, promised)
    decreases Left(ctx, st), Unchased(ctx), s, 0, 1
  {
    hide VisitProps, VisitExtra, Promised, Keys, Ready;
    PropsGood(s, ps, name, st, ctx, promised);
    var r := VisitProps(s, ps, name, st, ctx);
    if AllowsExtra(s) && r.0.halts == {} {
      SamePromises(st, r.0, promised);
      ExtraGood(s, s.additional, ps, name, r.0, ctx, promised);
      var x := VisitExtra(s, s.additional, ps, name, r.0, ctx);
      KvCons(x, r.1, ObjectRule.STAR, promised);
    }
  }

  lemma {:induction false} ObjectGood(s: Schema, ps: seq<Property>, name: string, st: CState, ctx: Context, promised: set<string>)
    requires ps == PropertiesOf(s) && Ready(st, promised) && Promised(st, promised)
    ensures var r := VisitObject(s, ps, name, st, ctx);
            r.0.halts != {} || (Ready(r.0, promised) && Names(r.1) <= r.0.rules.Keys)
    decreases Left(ctx, st), Unchased(ctx), s, 0, 2
  {
    hide VisitPairs, Promised, Keys, Names, ObjectRule.ObjectExpr;
    PairsGood(s, ps, name, st, ctx, promised);
    var r := VisitPairs(s, ps, name, st, ctx);
    if r.0.halts == {} {
      var extra := if AllowsExtra(s) then [ObjectRule.STAR] else [];
      ObjectClosed(r.0.rules, name, r.1, KeysWhere(ps, s.required, true), KeysWhere(ps, s.required, false) + extra, promised);
    }
  }

  // ---------- "allOf" ----------

  lemma {:induction false} MemberGood(c: Schema, name: string, kv: ObjectRule.KvNames, st: CState, ctx: Context, promised: set<string>)
    requires !Revisits(c, ctx) && Ready(st, promised) && Promised(st, promised) && kv.Values <= st.rules.Keys
    ensures var r := VisitMember(c, name, kv, st, ctx); KvGood(r.0, r.1, promised)
    decreases Left(ctx, st), Unchased(ctx), c, 4
  {
    hide VisitProperties, VisitMember, Promised, Ready, Follow, Revisits, Left, Unchased, Via, Keys;
    var m := Follow(c, ctx.refs);
    MemberStep(c, name, kv, st, ctx);
    MemberShrinks(c, st, ctx);
    if m.Found? && m.sub.properties.Listed? {
      PropertiesGood(m.sub.properties.list, name, kv, st, Via(ctx, m.last), promised);
    }
  }

  lemma {:induction false} MembersGood(cs: seq<Schema>, name: string, kv: ObjectRule.KvNames, st: CState, ctx: Context, promised: set<string>)
    requires !MembersRevisit(cs, ctx) && Ready(st, promised) && Promised(st, promised) && kv.Values <= st.rules.Keys
    ensures var r := VisitMembers(cs, name, kv, st, ctx); KvGood(r.0, r.1, promised)
    decreases Left(ctx, st), Unchased(ctx), cs, 0
  {
    hide VisitMember, Promised, Ready, Keys;
    if cs != [] {
      MemberGood(cs[0], name, kv, st, ctx, promised);
      var r := VisitMember(cs[0], name, kv, st, ctx);
      if r.0.halts == {} {
        SamePromises(st, r.0, promised);
        MembersGood(cs[1..], name, r.1, r.0, ctx, promised);
      }
    }
  }

  lemma {:induction false} PartGood(p: Part, name: string, kv: ObjectRule.KvNames, st: CState, ctx: Context, promised: set<string>)
    requires !MembersRevisit(Members(p), ctx) && Ready(st, promised) && Promised(st, promised) && kv.Values <= st.rules.Keys
    ensures var r := VisitPart(p, name, kv, st, ctx); KvGood(r.0, r.1, promised)
    decreases Left(ctx, st), Unchased(ctx), p, 0
  {
    hide VisitMember, VisitMembers, Promised, Ready, Keys;
    match p
    case Must(sub) => assert Members(p)[0] == sub; MemberGood(sub, name, kv, st, ctx, promised);
    case May(subs) => MembersGood(subs, name, kv, st, ctx, promised);
  }

  lemma {:induction false} PartsGood(parts: seq<Part>, name: string, kv: ObjectRule.KvNames, st: CState, ctx: Context, promised: set<string>)
    requires !PartsRevisit(parts, ctx) && Ready(st, promised) && Promised(st, promised) && kv.Values <= st.rules.Keys
    ensures var r := VisitParts(parts, name, kv, st, ctx); KvGood(r.0, r.1, promised)
    decreases Left(ctx, st), Unchased(ctx), parts, 0
  {
    hide VisitPart, Promised, Ready, Keys;
    if parts != [] {
      PartGood(parts[0], name, kv, st, ctx, promised);
      var r := VisitPart(parts[0], name, kv, st, ctx);
      if r.0.halts == {} {
        SamePromises(st, r.0, promised);
        PartsGood(parts[1..], name, r.1, r.0, ctx, promised);
      }
    }
  }

  lemma {:induction false} AllOfGood(s: Schema, allOf: AllOf, name: string, st: CState, ctx: Context, promised: set<string>)
    requires allOf == s.allOf && allOf.Together? && Ready(st, promised) && Promised(st, promised)
    ensures var r := VisitAllOf(s, allOf, name, st, ctx);
            r.0.halts != {} || (Ready(r.0, promised) && Names(r.1) <= r.0.rules.Keys)
    decreases Left(ctx, st), Unchased(ctx), s, 0, 2
  {
    hide VisitParts, Promised, Keys, ObjectRule.ObjectExpr, SharedEnum, PartsLoop, PartsRevisit, PartsProperties, PartsRequired, Union, Literals;
    match allOf
    case Together(parts) =>
      if !PartsLoop(parts, ctx.refs) {
        if SharedEnum(parts, ctx.refs) != [] {
          LiteralNames(SharedEnum(parts, ctx.refs));
          assert Names(Cat(Union(Literals(SharedEnum(parts, ctx.refs))), Space())) == {"space"};
        } else if !PartsRevisit(parts, ctx) {
          hide Names;
          PartsGood(parts, name, map[], st, ctx, promised);
          var r := VisitParts(parts, name, map[], st, ctx);
          if r.0.halts == {} {
            var ps, required := PartsProperties(parts, ctx.refs), PartsRequired(parts, ctx.refs);
            ObjectClosed(r.0.rules, name, r.1, KeysWhere(ps, required, true), KeysWhere(ps, required, false) + [], promised);
          }
        }
      }
  }

  // ---------- the main result ----------

  // A conversion that does not fail gives a grammar in which every name used is defined, the start
  // rule included.
  lemma {:induction false} ConversionClosed(s: Schema, ctx: Context)
    ensures var r := Convert(s, ctx);
            r.0.halts != {} || (ClosedBut(r.0.rules, {}) && r.1 in r.0.rules && "root" in r.0.rules)
  {
    hide Visit, Nested;
    assert Ready(START, {}) by {
      assert Names(SPACE_RULE) == {};
    }
    VisitGood(s, "", START, ctx, {});
    assert !Reserved("") && RuleName("") == "root" by { NotBuiltin(); }
  }

  lemma {:induction false} NotBuiltin()
    ensures "" !in BUILTINS
  {
    assert forall i :: 0 <= i < |BUILTIN_NAMES| ==> BUILTIN_NAMES[i] != "";
  }

  // ---------- references followed from "allOf" ----------

  // The reference starts a chain of references that never leaves a set.
  ghost predicate Endless(refs: Refs, c: Schema) { exists ring: set<string> :: Circling(refs, c, ring) }

  ghost predicate Circling(refs: Refs, c: Schema, ring: set<string>) {
    && c.ref.Some? && c.ref.value in ring
    && forall r :: r in ring ==> r in refs && refs[r].ref.Some? && refs[r].ref.value in ring
  }

  // The references passed so far each lead on to another of them, or are where the chain now stands.
  ghost predicate Passed(refs: Refs, c: Schema, chased: set<string>) {
    forall r :: r in chased ==> r in refs && refs[r].ref.Some? && (refs[r].ref.value in chased || refs[r].ref == c.ref)
  }

  lemma {:induction false} CircleGrows(refs: Refs, c: Schema, ring: set<string>)
    requires c.ref.Some? && c.ref.value in refs && Circling(refs, refs[c.ref.value], ring)
    ensures Endless(refs, c)
  {
    assert Circling(refs, c, ring + {c.ref.value});
  }

  lemma {:induction false} LoopsCircle(c: Schema, refs: Refs, seen: set<string>)
    requires Passed(refs, c, seen) && Chase(c, refs, seen).Loops?
    ensures Endless(refs, c)
    decreases |refs.Keys - seen|
  {
    if c.ref.value in seen {
      assert Circling(refs, c, seen);
    } else {
      var next, seen1 := refs[c.ref.value], seen + {c.ref.value};
      FewerLeft(refs.Keys - seen1, refs.Keys - seen);
      LoopsCircle(next, refs, seen1);
      hide Chase, Passed, Circling;
      var ring: set<string> :| Circling(refs, next, ring);
      CircleGrows(refs, c, ring);
    }
  }

  lemma {:induction false} CirclesLoop(c: Schema, refs: Refs, seen: set<string>, ring: set<string>)
    requires Circling(refs, c, ring)
    ensures Chase(c, refs, seen).Loops?
    decreases |refs.Keys - seen|
  {
    if c.ref.value !in seen {
      var seen1 := seen + {c.ref.value};
      FewerLeft(refs.Keys - seen1, refs.Keys - seen);
      CirclesLoop(refs[c.ref.value], refs, seen1, ring);
    }
  }

  // Following a member's references never ends exactly when they go round.
  lemma {:induction false} LoopsExact(c: Schema, refs: Refs)
    ensures Follow(c, refs).Loops? <==> Endless(refs, c)
  {
    if Follow(c, refs).Loops? { LoopsCircle(c, refs, {}); }
    if Endless(refs, c) {
      var ring: set<string> :| Circling(refs, c, ring);
      CirclesLoop(c, refs, {}, ring);
    }
  }

  // ---------- arrays: exactly the permitted numbers of items ----------

  // `n` items of which all but the first follow a separator.
  ghost predicate ItemsAre(g: Rules, item: Expr, sep: Expr, n: nat, s: string) {
    if n == 0 then s == ""
    else exists i, parts :: FirstAndParts(g, item, sep, n, s, i, parts)
  }

  ghost predicate FirstAndParts(g: Rules, item: Expr, sep: Expr, n: nat, s: string, i: int, parts: seq<string>)
    requires n > 0
  {
    0 <= i <= |s| && Accepts(g, item, s[..i]) && PartsAre(g, Cat(sep, item), parts, n - 1, s[i..])
  }

  ghost predicate PartsAre(g: Rules, e: Expr, parts: seq<string>, n: nat, s: string) {
    |parts| == n && Flat(parts) == s && AllAccepted(g, e, parts)
  }

  ghost predicate SomeItems(g: Rules, item: Expr, sep: Expr, lo: nat, hi: Option<nat>, s: string) {
    exists n: nat :: CountOk(n, lo, hi) && ItemsAre(g, item, sep, n, s)
  }

  lemma {:induction false} RepeatedParts(g: Rules, e: Expr, lo: nat, hi: Option<nat>, s: string)
    requires hi == Some(0) ==> lo == 0
    ensures Accepts(g, Pattern.BuildRepetition(e, lo, hi), s) <==> exists parts :: CountOk(|parts|, lo, hi) && PartsAre(g, e, parts, |parts|, s)
  {
    hide Accepts;
    if hi == Some(0) {
      AcceptsLit(g, "", s);
      if s == "" {
        var none: seq<string> := [];
        assert CountOk(|none|, lo, hi) && PartsAre(g, e, none, |none|, s);
      }
    } else {
      if Accepts(g, Rep(e, lo, hi), s) {
        var parts := RepSplit(g, e, lo, hi, s);
        assert PartsAre(g, e, parts, |parts|, s);
      }
      if parts :| CountOk(|parts|, lo, hi) && PartsAre(g, e, parts, |parts|, s) { RepJoin(g, e, lo, hi, parts); }
    }
  }

  lemma {:induction false} ItemThenParts(g: Rules, item: Expr, sep: Expr, lo: nat, hi: Option<nat>, s: string)
    requires hi == Some(0) ==> lo == 0
    ensures Accepts(g, Cat(item, Pattern.BuildRepetition(Cat(sep, item), lo, hi)), s)
            <==> exists m: nat :: CountOk(m, lo, hi) && ItemsAre(g, item, sep, m + 1, s)
  {
    hide Accepts, Pattern.BuildRepetition;
    var pair := Cat(sep, item);
    var more := Pattern.BuildRepetition(pair, lo, hi);
    AcceptsCat(g, item, more, s);
    if i :| 0 <= i <= |s| && Accepts(g, item, s[..i]) && Accepts(g, more, s[i..]) {
      RepeatedParts(g, pair, lo, hi, s[i..]);
      var parts :| CountOk(|parts|, lo, hi) && PartsAre(g, pair, parts, |parts|, s[i..]);
      assert FirstAndParts(g, item, sep, |parts| + 1, s, i, parts);
      assert ItemsAre(g, item, sep, |parts| + 1, s);
    }
    if m: nat :| CountOk(m, lo, hi) && ItemsAre(g, item, sep, m + 1, s) {
      var i, parts :| FirstAndParts(g, item, sep, m + 1, s, i, parts);
      RepeatedParts(g, pair, lo, hi, s[i..]);
    }
  }

  lemma {:induction false} OneItem(g: Rules, item: Expr, sep: Expr, s: string)
    ensures ItemsAre(g, item, sep, 1, s) <==> Accepts(g, item, s)
  {
    hide Accepts;
    if Accepts(g, item, s) {
      assert s[..|s|] == s && FirstAndParts(g, item, sep, 1, s, |s|, []);
    }
    if i, parts :| FirstAndParts(g, item, sep, 1, s, i, parts) {
      assert parts == [] && s[i..] == "" && s[..i] == s;
    }
  }

  // The repetition with a separator accepts exactly the lists of a permitted number of items.
  lemma {:induction false} SeparatedExact(g: Rules, item: Expr, sep: Expr, lo: nat, hi: Option<nat>, s: string)
    requires hi.Some? ==> lo <= hi.value
    ensures Accepts(g, Separated(item, sep, lo, hi), s) <==> SomeItems(g, item, sep, lo, hi, s)
  {
    hide Accepts, ItemsAre;
    EmptyList(g, item, sep, s);
    if hi == Some(0) {
      AcceptsLit(g, "", s);
    } else if lo == 0 && hi == Some(1) {
      AcceptsOptional(g, item, s);
      OneItem(g, item, sep, s);
    } else {
      SeveralItems(g, item, sep, lo, hi, s);
    }
  }

  lemma {:induction false} EmptyList(g: Rules, item: Expr, sep: Expr, s: string)
    ensures ItemsAre(g, item, sep, 0, s) <==> s == ""
  {
  }

  lemma {:induction false} SeveralItems(g: Rules, item: Expr, sep: Expr, lo: nat, hi: Option<nat>, s: string)
    requires (hi.Some? ==> lo <= hi.value && hi.value > 0) && !(lo == 0 && hi == Some(1))
    ensures Accepts(g, Separated(item, sep, lo, hi), s) <==> SomeItems(g, item, sep, lo, hi, s)
  {
    hide Accepts, ItemsAre, Pattern.BuildRepetition;
    var lo' := if lo == 0 then 0 else lo - 1;
    var hi' := if hi.Some? then Some(hi.value - 1) else None;
    var all := Cat(item, Pattern.BuildRepetition(Cat(sep, item), lo', hi'));
    EmptyList(g, item, sep, s);
    ItemThenParts(g, item, sep, lo', hi', s);
    if lo == 0 { AcceptsOptional(g, all, s); }
    if Accepts(g, all, s) {
      var m: nat :| CountOk(m, lo', hi') && ItemsAre(g, item, sep, m + 1, s);
      assert CountOk(m + 1, lo, hi);
    }
    if SomeItems(g, item, sep, lo, hi, s) {
      var n: nat :| CountOk(n, lo, hi) && ItemsAre(g, item, sep, n, s);
      if n > 0 { assert CountOk(n - 1, lo', hi') && ItemsAre(g, item, sep, (n - 1) + 1, s); }
    }
  }
}
