/** What schemas that only name a type or a format accept, in a finished conversion. */
module SchemaTypes {
  import opened Basics
  import opened Gbnf
  import opened RuleStore
  import opened Primitives
  import opened ObjectTexts
  import opened Schema
  import opened SchemaObjects
  import opened SchemaGuarded
  import opened SchemaChoices
  import opened SchemaAccepts
  import opened PrimitiveTexts
  import opened ValueTexts
  import NotStrings
  import SchemaClosed
  import Decimals

  // ---------- the rules a finished grammar holds ----------

  // Nobody has taken the names of the two parts of numbers.
  ghost predicate NumbersKept(g: Rules) {
    && ("integral-part" in g ==> g["integral-part"] == IntegralPartRule().content)
    && ("decimal-part" in g ==> g["decimal-part"] == DecimalPartRule().content)
  }

  // A finished grammar in which every name is defined and the built-in names mean what they should.
  ghost predicate Settled(g: Rules) { ClosedBut(g, {}) && OwnNamesKept(g) }

  lemma {:induction false} FinishedSettled(g: Rules, whole: Schema, at: Context, st: CState)
    requires Finished(g, whole, at, st) && Convert(whole, at).0.halts == {}
    ensures Settled(g)
  {
    hide Visit, ClosedBut, OwnNamesKept;
    SchemaClosed.ConversionClosed(whole, at);
    ConversionGuarded(whole, at);
  }

  lemma {:induction false} OwnHolds(g: Rules, name: string, b: Builtin)
    requires OwnNamesKept(g) && name in g && SchemaGuarded.Plain(name) && Known(name) == Some(b)
    ensures Holds(g, name, b)
  {
    hide Known;
  }

  lemma {:induction false} KnownTypes()
    ensures Known("object") == Some(AnyObjectRule()) && Known("array") == Some(AnyArrayRule()) && Known("value") == Some(ValueRule())
    ensures Known("string") == Some(StringRule()) && Known("number") == Some(NumberRule()) && Known("boolean") == Some(BooleanRule())
    ensures Known("null") == Some(NullRule()) && Known("integer") == Some(IntegerRule()) && Known("uuid") == Some(UuidRule())
    ensures Known("date") == Some(DateRule()) && Known("time") == Some(TimeRule())
  {
    hide AnyObjectRule, AnyArrayRule, ValueRule, StringRule, NumberRule, BooleanRule, NullRule, IntegerRule, UuidRule, DateRule, TimeRule;
  }

  lemma {:induction false} PlainTypes(name: string)
    requires name in ["object", "array", "value", "string", "number", "boolean", "null", "integer", "uuid", "date", "time", "char"]
    ensures SchemaGuarded.Plain(name)
  {
    assert name in BUILTIN_NAMES;
  }

  lemma {:induction false} TypeHolds(g: Rules, name: string, b: Builtin)
    requires OwnNamesKept(g) && name in g && Known(name) == Some(b)
    requires name in ["object", "array", "value", "string", "number", "boolean", "null", "integer", "uuid", "date", "time"]
    ensures Holds(g, name, b)
  {
    hide Known, OwnNamesKept;
    PlainTypes(name);
    OwnHolds(g, name, b);
  }

  lemma {:induction false} UsesAll(g: Rules, name: string, b: Builtin, n: string)
    requires ClosedBut(g, {}) && Holds(g, name, b) && n in Names(b.content)
    ensures n in g
  {
    hide Names;
  }

  lemma {:induction false} NamesUsed()
    ensures "object" in Names(ValueRule().content) && "array" in Names(ValueRule().content) && "string" in Names(ValueRule().content)
    ensures "number" in Names(ValueRule().content) && "boolean" in Names(ValueRule().content) && "null" in Names(ValueRule().content)
  {
  }

  lemma {:induction false} ObjectUses()
    ensures "value" in Names(AnyObjectRule().content)
  {
  }

  lemma {:induction false} ArrayUses()
    ensures "value" in Names(AnyArrayRule().content)
  {
  }

  lemma {:induction false} StringUses()
    ensures "char" in Names(StringRule().content)
  {
  }

  lemma {:induction false} NumberNamesUsed()
    ensures "integral-part" in Names(NumberRule().content) && "decimal-part" in Names(NumberRule().content) && "integral-part" in Names(IntegerRule().content)
    ensures "date" in Names(DateTimeRule().content) && "time" in Names(DateTimeRule().content)
  {
  }

  lemma {:induction false} NumberHolds(g: Rules)
    requires Settled(g) && NumbersKept(g) && "number" in g
    ensures Holds(g, "number", NumberRule()) && NumberRules(g)
  {
    NumberNamesUsed();
    KnownTypes();
    hide ClosedBut, OwnNamesKept, Known, Names, NumberRule;
    TypeHolds(g, "number", NumberRule());
    UsesAll(g, "number", NumberRule(), "integral-part");
    UsesAll(g, "number", NumberRule(), "decimal-part");
  }

  // All six rules a value may be are there, whatever the name of the rule that refers to them.
  lemma {:induction false} KindsHold(g: Rules, key: string)
    requires Settled(g) && Holds(g, key, ValueRule())
    ensures Holds(g, "object", AnyObjectRule()) && Holds(g, "array", AnyArrayRule()) && Holds(g, "string", StringRule()) && "number" in g
    ensures Holds(g, "boolean", BooleanRule()) && Holds(g, "null", NullRule())
  {
    NamesUsed();
    KnownTypes();
    hide ClosedBut, OwnNamesKept, Known, Names, ValueRule, AnyObjectRule, AnyArrayRule, StringRule, BooleanRule, NullRule, Holds;
    UsesAll(g, key, ValueRule(), "object");
    UsesAll(g, key, ValueRule(), "array");
    UsesAll(g, key, ValueRule(), "string");
    UsesAll(g, key, ValueRule(), "number");
    UsesAll(g, key, ValueRule(), "boolean");
    UsesAll(g, key, ValueRule(), "null");
    TypeHolds(g, "object", AnyObjectRule());
    TypeHolds(g, "array", AnyArrayRule());
    TypeHolds(g, "string", StringRule());
    TypeHolds(g, "boolean", BooleanRule());
    TypeHolds(g, "null", NullRule());
  }

  lemma {:induction false} StringHolds(g: Rules, key: string)
    requires Settled(g) && Holds(g, key, StringRule())
    ensures NotStrings.HasCharRule(g)
  {
    StringUses();
    hide ClosedBut, OwnNamesKept, Names, StringRule;
    UsesAll(g, key, StringRule(), "char");
    OwnChar(g);
  }

  lemma {:induction false} ValueHolds(g: Rules)
    requires Settled(g) && NumbersKept(g) && "value" in g
    ensures JsonRules(g)
  {
    KnownTypes();
    hide ClosedBut, OwnNamesKept, Known, NumbersKept, NumberRules, ValueRule, AnyObjectRule, AnyArrayRule, StringRule, NumberRule, BooleanRule, NullRule, Holds;
    OwnChar(g);
    TypeHolds(g, "value", ValueRule());
    KindsHold(g, "value");
    StringHolds(g, "string");
    NumberHolds(g);
  }

  // A value by any name comes with the rule "value" itself, which its objects use.
  lemma {:induction false} ValueNamed(g: Rules, key: string)
    requires Settled(g) && Holds(g, key, ValueRule())
    ensures "value" in g
  {
    ObjectUses();
    KindsHold(g, key);
    hide ClosedBut, OwnNamesKept, Names, AnyObjectRule, Holds;
    UsesAll(g, "object", AnyObjectRule(), "value");
  }

  // ---------- types ----------

  predicate ContainerType(ty: string) { ty == "object" || ty == "array" || ty == "value" }

  predicate NumberType(ty: string) { ty == "number" || ty == "integer" }

  predicate TextType(ty: string) { ty == "string" || ty == "boolean" || ty == "null" || ty == "uuid" }

  predicate IsType(ty: string) { ContainerType(ty) || NumberType(ty) || TextType(ty) }

  // The values of a type; of any type when none is given.
  ghost predicate TypeText(ty: string, t: string) {
    if ty == "object" then ObjectText(t)
    else if ty == "array" then ArrayText(t)
    else if ty == "string" then StringText(t)
    else if ty == "number" then NumberSpaced(t)
    else if ty == "integer" then exists x, sp :: t == x + sp && IntegerText(x) && SpaceText(sp)
    else if ty == "boolean" then OneOf(["true", "false"], t)
    else if ty == "null" then OneOf(["null"], t)
    else if ty == "uuid" then QuotedUuid(t)
    else ValueText(t)
  }

  // The rule of a type, under whatever name, in a grammar where all names are defined.
  lemma {:induction false} TypeExact(g: Rules, key: string, ty: string, t: string)
    requires Settled(g) && IsType(ty) && Primitive(ty).Some? && Holds(g, key, Primitive(ty).value) && (TextType(ty) || NumbersKept(g))
    ensures Accepts(g, Ref(key), t) <==> TypeText(ty, t)
  {
    KnownTypes();
    PrimitiveKnown(ty);
    var b := Primitive(ty).value;
    RefIs(g, key, b, t);
    hide ClosedBut, OwnNamesKept, Known, NumbersKept, Primitive, Accepts, TypeText, Holds, ContainerType, NumberType, TextType;
    hide AnyObjectRule, AnyArrayRule, ValueRule, StringRule, NumberRule, IntegerRule, BooleanRule, NullRule, UuidRule;
    if ContainerType(ty) {
      ContainerExact(g, key, ty, b, t);
    } else if NumberType(ty) {
      NumericExact(g, key, ty, b, t);
    } else {
      TextExact(g, key, ty, b, t);
    }
  }

  lemma {:induction false} TextExact(g: Rules, key: string, ty: string, b: Builtin, t: string)
    requires Settled(g) && Known(ty) == Some(b) && Holds(g, key, b) && TextType(ty)
    ensures Accepts(g, b.content, t) <==> TypeText(ty, t)
  {
    KnownTypes();
    hide ClosedBut, OwnNamesKept, Known, Accepts, StringText, OneOf, KeyParts, UuidText, StringRule, BooleanRule, NullRule, UuidRule, Holds;
    OwnChar(g);
    if ty == "string" {
      StringHolds(g, key);
      StringExact(g, t);
    } else if ty == "boolean" {
      BooleanExact(g, t);
    } else if ty == "null" {
      NullExact(g, t);
    } else {
      UuidExact(g, t);
    }
  }

  lemma {:induction false} ContainerExact(g: Rules, key: string, ty: string, b: Builtin, t: string)
    requires Settled(g) && NumbersKept(g) && Known(ty) == Some(b) && Holds(g, key, b) && ContainerType(ty)
    ensures Accepts(g, b.content, t) <==> TypeText(ty, t)
  {
    KnownTypes();
    ObjectUses();
    ArrayUses();
    hide ClosedBut, OwnNamesKept, Known, NumbersKept, JsonRules, Accepts, Names, Holds, ObjectText, ArrayText, ValueText;
    hide AnyObjectRule, AnyArrayRule, ValueRule, StringRule;
    if ty == "object" {
      UsesAll(g, key, b, "value");
    } else if ty == "array" {
      UsesAll(g, key, b, "value");
    } else {
      ValueNamed(g, key);
    }
    ValueHolds(g);
    ContentsAre(g, t);
    ContainersExact(g, t);
    ValueExact(g, t);
  }

  lemma {:induction false} ContentsAre(g: Rules, t: string)
    requires JsonRules(g)
    ensures Accepts(g, Ref("object"), t) <==> Accepts(g, AnyObjectRule().content, t)
    ensures Accepts(g, Ref("array"), t) <==> Accepts(g, AnyArrayRule().content, t)
    ensures Accepts(g, Ref("value"), t) <==> Accepts(g, ValueRule().content, t)
  {
    RefIs(g, "object", AnyObjectRule(), t);
    RefIs(g, "array", AnyArrayRule(), t);
    RefIs(g, "value", ValueRule(), t);
    hide Accepts;
  }

  lemma {:induction false} NumericExact(g: Rules, key: string, ty: string, b: Builtin, t: string)
    requires Settled(g) && NumbersKept(g) && Known(ty) == Some(b) && Holds(g, key, b) && NumberType(ty)
    ensures Accepts(g, b.content, t) <==> TypeText(ty, t)
  {
    KnownTypes();
    NumberNamesUsed();
    hide ClosedBut, OwnNamesKept, Known, Accepts, NumberText, IntegerText, SpaceText, Names, NumberRule, IntegerRule;
    OwnChar(g);
    UsesAll(g, key, b, "integral-part");
    if ty == "number" {
      UsesAll(g, key, b, "decimal-part");
      NumberExact(g, t);
    } else {
      IntegerExact(g, t);
    }
  }

  // A schema that says no more than a type, or nothing.
  predicate Bare(s: Schema, ty: Option<string>) {
    && s.constant.None? && s.enumerated.None? && !IsObject(s, ty) && !IsAllOf(s, ty) && !(Untyped(ty, "array") && !s.items.NoItems?)
    && !(Untyped(ty, "string") && (s.pattern.Some? || IsUuid(s.format) || Format(s.format + "-string").Some?))
    && !(ty == Some("string") && (s.minLength.Some? || s.maxLength.Some?))
    && !(ty == Some("integer") && (s.minimum.Some? || s.maximum.Some?))
  }

  lemma {:induction false} AsBare(s: Schema, ty: Option<string>, name: string, st: CState, ctx: Context)
    requires Bare(s, ty)
    ensures VisitAs(s, ty, name, st, ctx) == VisitUntyped(s, ty, name, st)
  {
    hide VisitUntyped, VisitObject, VisitItems, VisitAllOf, VisitPattern, VisitLength, VisitInteger, IsUuid, Format;
  }

  // The type meant: an empty schema is an object, one without a type anything.
  function TypeMeant(s: Schema, ty: Option<string>): string { if ty.Some? then ty.value else if Empty(s) then "object" else "value" }

  lemma {:induction false} UntypedBound(s: Schema, ty: Option<string>, name: string, st: CState) returns (key: string)
    requires IsType(TypeMeant(s, ty)) && Primitive(TypeMeant(s, ty)).Some? && (Empty(s) ==> ty.None? || ty == Some("object"))
    ensures var r := VisitUntyped(s, ty, name, st);
            && Holds(r.0.rules, key, Primitive(TypeMeant(s, ty)).value)
            && (key == r.1 || (r.1 in r.0.rules && r.0.rules[r.1] == Ref(key)))
  {
    hide RuleName, TopName, AddDeps, Empty, EscapeName;
    KnownOwn();
    KnownTypes();
    PrimitiveKnown(TypeMeant(s, ty));
    hide Known, Primitive, AnyObjectRule, ValueRule;
    if ty == Some("object") || Empty(s) {
      key := AddBuiltin(st, "object", AnyObjectRule()).1;
    } else if ty.None? {
      key := AddBuiltin(st, "value", ValueRule()).1;
    } else {
      key := AddBuiltin(st, TopName(name, ty.value), Primitive(ty.value).value).1;
    }
  }

  // A schema that only names a type accepts exactly the values of that type, as long as no property has
  // taken the name of a part of numbers.
  lemma {:induction false} TypeAccepts(g: Rules, whole: Schema, at: Context, s: Schema, ty: Option<string>, name: string, st: CState, ctx: Context, t: string)
    requires Bare(s, ty) && IsType(TypeMeant(s, ty)) && (Empty(s) ==> ty.None? || ty == Some("object"))
    requires Finished(g, whole, at, VisitAs(s, ty, name, st, ctx).0) && Convert(whole, at).0.halts == {}
    requires TextType(TypeMeant(s, ty)) || NumbersKept(g)
    ensures Accepts(g, Ref(VisitAs(s, ty, name, st, ctx).1), t) <==> TypeText(TypeMeant(s, ty), t)
  {
    hide Accepts, VisitAs, Convert, VisitUntyped, Settled, NumbersKept, TypeText, Empty, Bare, TypeMeant, Primitive, IsType, TextType;
    AsBare(s, ty, name, st, ctx);
    FinishedSettled(g, whole, at, VisitAs(s, ty, name, st, ctx).0);
    var r := VisitUntyped(s, ty, name, st);
    TypeKnown(TypeMeant(s, ty));
    var key := UntypedBound(s, ty, name, st);
    TypeExact(g, key, TypeMeant(s, ty), t);
    AcceptsRef(g, r.1, t);
  }

  lemma {:induction false} TypeKnown(ty: string)
    requires IsType(ty)
    ensures Primitive(ty).Some?
  {
  }

  // ---------- a type alone ----------

  // Every built-in name is bound to its own rule.
  ghost predicate AllOwn(rules: Rules) { forall k :: k in rules && k in BUILTINS ==> Known(k).Some? && rules[k] == Known(k).value.content }

  lemma {:induction false} AddOwn(rules: Rules, name: string, e: Expr)
    requires AllOwn(rules) && (EscapeName(name) in BUILTINS ==> Known(EscapeName(name)).Some? && Known(EscapeName(name)).value.content == e)
    ensures AllOwn(AddRule(rules, name, e).0)
  {
    hide EscapeName, Known;
    var base := EscapeName(name);
    if !Available(rules, base, e) {
      var i := FirstAvailable(rules, base, e, 0);
      NumberedNotBuiltin(base, i);
    }
  }

  lemma {:induction false} NumberedNotBuiltin(base: string, i: nat)
    ensures Numbered(base, i) !in BUILTINS
  {
    Decimals.DecimalCanonical(i);
    var d, k := Decimals.Decimal(i), Numbered(base, i);
    assert k[|k| - 1] == d[|d| - 1];
    if k in BUILTINS { PlainEnds(k); }
  }

  lemma {:induction false} BuiltinOwn(rules: Rules, name: string, b: Builtin)
    requires AllOwn(rules) && (EscapeName(name) in BUILTINS ==> Known(EscapeName(name)) == Some(b))
    ensures AllOwn(AddPrimitive(rules, name, b).0)
    decreases |BUILTINS - rules.Keys - {EscapeName(name)}|, 1, 0
  {
    hide Known, AllOwn;
    var r := AddRule(rules, name, b.content);
    FewerLeft(BUILTINS - r.0.Keys, BUILTINS - rules.Keys - {EscapeName(name)});
    AddOwn(rules, name, b.content);
    DepsOwn(r.0, b.deps);
  }

  lemma {:induction false} DepsOwn(rules: Rules, deps: seq<string>)
    requires AllOwn(rules)
    ensures AllOwn(AddDeps(rules, deps))
    decreases |BUILTINS - rules.Keys|, 0, |deps|
  {
    hide Known, AllOwn;
    if deps != [] {
      var rules1 := AddDep(rules, deps[0], |deps|);
      DepOwn(rules, deps[0], |deps|);
      FewerLeft(BUILTINS - rules1.Keys, BUILTINS - rules.Keys);
      DepsOwn(rules1, deps[1..]);
    }
  }

  lemma {:induction false} DepOwn(rules: Rules, dep: string, left: nat)
    requires left > 0 && AllOwn(rules)
    ensures AllOwn(AddDep(rules, dep, left))
    decreases |BUILTINS - rules.Keys|, 0, left - 1
  {
    hide Known, AllOwn;
    if dep !in rules && Known(dep).Some? {
      KnownNames(dep);
      BuiltinNameClean(dep);
      FewerLeft(BUILTINS - rules.Keys - {dep}, BUILTINS - rules.Keys);
      BuiltinOwn(rules, dep, Known(dep).value);
    }
  }

  lemma {:induction false} StartOwn()
    ensures AllOwn(START.rules) && "root" !in START.rules
  {
    hide Known;
    SpaceFree();
  }

  lemma {:induction false} PartsKnown()
    ensures "integral-part" in BUILTINS && "decimal-part" in BUILTINS
    ensures Known("integral-part") == Some(IntegralPartRule()) && Known("decimal-part") == Some(DecimalPartRule())
  {
    hide IntegralPartRule, DecimalPartRule;
    assert "integral-part" in BUILTIN_NAMES && "decimal-part" in BUILTIN_NAMES;
  }

  lemma {:induction false} OwnNumbers(g: Rules)
    requires AllOwn(g)
    ensures NumbersKept(g)
  {
    PartsKnown();
    hide Known;
  }

  lemma {:induction false} RootOwn(st: CState, e: Expr)
    requires AllOwn(st.rules)
    ensures AllOwn(Add(st, RuleName(""), e).0.rules)
  {
    RootPlain();
    NoBuiltinEmpty();
    hide EscapeName, Known, AllOwn, Reserved;
    AddOwn(st.rules, "root", e);
  }

  // The grammar of a type alone: its rule is "root", and nobody has taken a built-in name.
  lemma {:induction false} TypeAlone(s: Schema, ty: Option<string>)
    requires IsType(TypeMeant(s, ty))
    ensures var r := VisitUntyped(s, ty, "", START); AllOwn(r.0.rules) && r.1 == "root" && r.0.halts == {}
  {
    hide Known, AllOwn, Reserved, EscapeName, AddDeps, Primitive, Empty, AnyObjectRule, ValueRule, Guarded, RuleName, AddRule;
    KnownOwn();
    KnownTypes();
    StartOwn();
    if ty == Some("object") || Empty(s) {
      ThroughBuiltin("object", AnyObjectRule());
    } else if ty.None? {
      ThroughBuiltin("value", ValueRule());
    } else {
      TypeKnown(ty.value);
      NamedRoot(ty.value, Primitive(ty.value).value);
    }
  }

  lemma {:induction false} ThroughBuiltin(name: string, b: Builtin)
    requires Known(name) == Some(b) && name != "root"
    ensures var r := AddBuiltin(START, name, b);
            var t := Add(r.0, RuleName(""), Ref(r.1));
            AllOwn(t.0.rules) && t.1 == "root" && t.0.halts == {}
  {
    KnownNames(name);
    BuiltinNameClean(name);
    StartOwn();
    hide Known, AllOwn, EscapeName, AddDeps, AddRule, RuleName, AddPrimitive;
    BuiltinOwn(START.rules, name, b);
    OwnGuarded(START, name, b, false);
    var r := AddBuiltin(START, name, b);
    RootStaysFree(r.0);
    RootFree(r.0, Ref(r.1));
    RootOwn(r.0, Ref(r.1));
  }

  lemma {:induction false} NamedRoot(otherwise: string, b: Builtin)
    ensures var r := AddBuiltin(START, TopName("", otherwise), b); AllOwn(r.0.rules) && r.1 == "root" && r.0.halts == {}
  {
    NotRoot("");
    RootPlain();
    StartOwn();
    hide Known, AllOwn, EscapeName, AddDeps, RuleName;
    BuiltinOwn(START.rules, "root", b);
  }

  // Main result: a schema that says no more than a type, or nothing, is converted to a grammar that accepts
  // from its root exactly the values of that type.
  lemma {:induction false} TypeConverts(s: Schema, ty: Option<string>, ctx: Context, t: string)
    requires Single(s, ty) && Bare(s, ty) && IsType(TypeMeant(s, ty)) && (Empty(s) ==> ty.None?)
    ensures Accepts(Convert(s, ctx).0.rules, Ref("root"), t) <==> TypeText(TypeMeant(s, ty), t)
  {
    hide Accepts, VisitAs, Visit, VisitUntyped, AllOwn, TypeText, Empty, Bare, TypeMeant, IsType, TextType, NumbersKept;
    VisitSingle(s, ty, "", START, ctx);
    AsBare(s, ty, "", START, ctx);
    TypeAlone(s, ty);
    var g := Convert(s, ctx).0.rules;
    OwnNumbers(g);
    TypeAccepts(g, s, ctx, s, ty, "", START, ctx, t);
  }

  // ---------- formats ----------

  predicate IsFormatted(s: Schema, ty: Option<string>) {
    && s.constant.None? && s.enumerated.None? && !IsObject(s, ty) && !IsAllOf(s, ty) && !(Untyped(ty, "array") && !s.items.NoItems?)
    && Untyped(ty, "string") && s.pattern.None?
  }

  lemma {:induction false} AsFormatted(s: Schema, ty: Option<string>, name: string, st: CState, ctx: Context)
    requires IsFormatted(s, ty)
    ensures IsUuid(s.format) ==> VisitAs(s, ty, name, st, ctx) == AddBuiltin(st, TopName(name, s.format), UuidRule())
    ensures !IsUuid(s.format) && Format(s.format + "-string").Some? ==>
              var r := AddBuiltin(st, s.format + "-string", Format(s.format + "-string").value);
              VisitAs(s, ty, name, st, ctx) == Add(r.0, RuleName(name), Ref(r.1))
  {
    hide VisitUntyped, VisitObject, VisitItems, VisitAllOf, VisitPattern, VisitLength, VisitInteger, IsUuid, Format, AddBuiltin, Add, RuleName, TopName, UuidRule;
  }

  // "uuid" and its numbered forms accept the quoted UUIDs.
  lemma {:induction false} UuidAccepts(g: Rules, s: Schema, ty: Option<string>, name: string, st: CState, ctx: Context, t: string)
    requires IsFormatted(s, ty) && IsUuid(s.format) && HasSpaceRule(g) && Extends(g, VisitAs(s, ty, name, st, ctx).0.rules)
    ensures Accepts(g, Ref(VisitAs(s, ty, name, st, ctx).1), t) <==> QuotedUuid(t)
  {
    hide Accepts, VisitAs, TopName, IsUuid, AddDeps, UuidText, KeyParts, EscapeName;
    AsFormatted(s, ty, name, st, ctx);
    var r := AddBuiltin(st, TopName(name, s.format), UuidRule());
    RefIs(g, r.1, UuidRule(), t);
    UuidExact(g, t);
  }

  lemma {:induction false} FormatsAre()
    ensures Format("date-string") == Some(QuotedRule("date")) && Format("time-string") == Some(QuotedRule("time"))
    ensures Format("date-time-string") == Some(QuotedRule("date-time"))
    ensures !IsUuid("date") && !IsUuid("time") && !IsUuid("date-time")
    ensures "date" + "-string" == "date-string" && "time" + "-string" == "time-string" && "date-time" + "-string" == "date-time-string"
  {
    hide Quoted;
  }

  // What a format's rule comes down to: the quoted texts of the rule it is named after.
  lemma {:induction false} FormatMeans(g: Rules, s: Schema, ty: Option<string>, name: string, st: CState, ctx: Context, of: string, t: string)
    requires IsFormatted(s, ty) && !IsUuid(s.format) && Format(s.format + "-string") == Some(QuotedRule(of)) && of in BUILTINS
    requires HasSpaceRule(g) && Extends(g, VisitAs(s, ty, name, st, ctx).0.rules)
    ensures of in g && (Accepts(g, Ref(VisitAs(s, ty, name, st, ctx).1), t) <==> exists body, sp :: KeyParts(t, body, sp) && Accepts(g, Ref(of), body))
  {
    hide Accepts, VisitAs, IsUuid, Format, KeyParts, EscapeName, RuleName, Add, Quoted, AddRule;
    AsFormatted(s, ty, name, st, ctx);
    var n, b := s.format + "-string", QuotedRule(of);
    var r := AddBuiltin(st, n, b);
    BuiltinAdds(st.rules, n, b);
    assert b.deps[0] == of;
    AddedMeans(g, r.0, RuleName(name), Ref(r.1), t);
    BuiltinBound(st, n, b);
    RefIs(g, r.1, b, t);
    QuotedExact(g, Ref(of), t);
  }

  lemma {:induction false} BuiltinBound(st: CState, name: string, b: Builtin)
    ensures var r := AddBuiltin(st, name, b); Holds(r.0.rules, r.1, b)
  {
    hide AddDeps, EscapeName;
  }

  // The format "date" accepts the quoted dates.
  lemma {:induction false} DateAccepts(g: Rules, whole: Schema, at: Context, s: Schema, ty: Option<string>, name: string, st: CState, ctx: Context, t: string)
    requires IsFormatted(s, ty) && s.format == "date" && Finished(g, whole, at, VisitAs(s, ty, name, st, ctx).0)
    ensures Accepts(g, Ref(VisitAs(s, ty, name, st, ctx).1), t) <==> QuotedDate(t)
  {
    hide Accepts, VisitAs, Convert, KeyParts, DateText, DateRule, IsUuid, Format, IsFormatted, OwnNamesKept, Known, QuotedRule;
    FinishedKeeps(g, whole, at, VisitAs(s, ty, name, st, ctx).0);
    FormatsAre();
    KnownTypes();
    FormatNamed("date");
    FormatMeans(g, s, ty, name, st, ctx, "date", t);
    TypeHolds(g, "date", DateRule());
    forall x: string ensures Accepts(g, Ref("date"), x) <==> DateText(x) {
      RefIs(g, "date", DateRule(), x);
      DateExact(g, x);
    }
  }

  // The format "time" accepts the quoted times.
  lemma {:induction false} TimeAccepts(g: Rules, whole: Schema, at: Context, s: Schema, ty: Option<string>, name: string, st: CState, ctx: Context, t: string)
    requires IsFormatted(s, ty) && s.format == "time" && Finished(g, whole, at, VisitAs(s, ty, name, st, ctx).0)
    ensures Accepts(g, Ref(VisitAs(s, ty, name, st, ctx).1), t) <==> QuotedTime(t)
  {
    hide Accepts, VisitAs, Convert, KeyParts, TimeText, TimeRule, IsUuid, Format, IsFormatted, OwnNamesKept, Known, QuotedRule;
    FinishedKeeps(g, whole, at, VisitAs(s, ty, name, st, ctx).0);
    FormatsAre();
    KnownTypes();
    FormatNamed("time");
    FormatMeans(g, s, ty, name, st, ctx, "time", t);
    TypeHolds(g, "time", TimeRule());
    forall x: string ensures Accepts(g, Ref("time"), x) <==> TimeText(x) {
      RefIs(g, "time", TimeRule(), x);
      TimeExact(g, x);
    }
  }

  lemma {:induction false} FormatNamed(name: string)
    requires name == "date" || name == "time" || name == "date-time"
    ensures name in BUILTINS
  {
    assert name in BUILTIN_NAMES;
  }

  // The format "date-time" accepts the quoted dates with times, as long as no property has taken its name.
  lemma {:induction false} DateTimeAccepts(g: Rules, whole: Schema, at: Context, s: Schema, ty: Option<string>, name: string, st: CState, ctx: Context, t: string)
    requires IsFormatted(s, ty) && s.format == "date-time" && Finished(g, whole, at, VisitAs(s, ty, name, st, ctx).0) && Convert(whole, at).0.halts == {}
    requires "date-time" in g ==> g["date-time"] == DateTimeRule().content
    ensures Accepts(g, Ref(VisitAs(s, ty, name, st, ctx).1), t) <==> QuotedDateTime(t)
  {
    hide Accepts, VisitAs, Convert, KeyParts, DateTimeText, DateRule, TimeRule, IsUuid, Format, IsFormatted, OwnNamesKept, Known, QuotedRule, ClosedBut;
    FinishedKeeps(g, whole, at, VisitAs(s, ty, name, st, ctx).0);
    FinishedSettled(g, whole, at, VisitAs(s, ty, name, st, ctx).0);
    FormatsAre();
    KnownTypes();
    FormatNamed("date-time");
    FormatMeans(g, s, ty, name, st, ctx, "date-time", t);
    NumberNamesUsed();
    hide Names;
    UsesAll(g, "date-time", DateTimeRule(), "date");
    UsesAll(g, "date-time", DateTimeRule(), "time");
    TypeHolds(g, "date", DateRule());
    TypeHolds(g, "time", TimeRule());
    forall x: string ensures Accepts(g, Ref("date-time"), x) <==> DateTimeText(x) {
      RefIs(g, "date-time", DateTimeRule(), x);
      DateTimeExact(g, x);
    }
  }

  // ---------- a name with '-' can be taken ----------

  predicate AllName(s: string) { forall i :: 0 <= i < |s| ==> IsNameChar(s[i]) }

  lemma {:induction false} GapEscaped(p: string, q: string)
    requires AllName(p) && AllName(q)
    ensures EscapeName(p + " " + q) == p + "-" + q
  {
    var s := p + " " + q;
    if p == "" {
      CleanName(q);
      assert s[1..] == q;
    } else {
      GapEscaped(p[1..], q);
      assert s[1..] == p[1..] + " " + q;
      assert p + "-" + q == [p[0]] + (p[1..] + "-" + q);
    }
  }

  const TAKEN := "integral part"

  lemma {:induction false} TakenEscaped()
    ensures EscapeName(TAKEN) == "integral-part" && !Reserved(TAKEN) && Under("", TAKEN) == TAKEN
  {
    hide EscapeName, BUILTINS;
    GapEscaped("integral", "part");
    assert "integral" + " " + "part" == TAKEN && "integral" + "-" + "part" == "integral-part";
    assert TAKEN[8] == ' ' && "integral-part"[8] == '-' && TAKEN != "integral-part";
    if TAKEN in BUILTINS { BuiltinNameClean(TAKEN); }
  }

  lemma {:induction false} TakenByConstant(x: Schema, c: string, ctx: Context)
    requires x == EMPTY.(constant := Some(c))
    ensures "integral-part" in Visit(x, TAKEN, START, ctx).0.rules && Visit(x, TAKEN, START, ctx).0.rules["integral-part"] == Cat(Lit(c), Space())
  {
    hide Visit, VisitAs, EscapeName, Reserved;
    TakenEscaped();
    VisitSingle(x, None, TAKEN, START, ctx);
    AsConstant(x, None, TAKEN, START, ctx, c);
    AddIs(START, RuleName(TAKEN), Cat(Lit(c), Space()));
  }

  // After a first property "integral part" with a constant, the rule for integers accepts that constant
  // with a sign or without, and no integer.
  lemma {:induction false} DashedTaken(s: Schema, ty: Option<string>, x: Schema, c: string, rest: seq<Property>, ctx: Context, t: string)
    requires Single(s, ty) && s.constant.None? && s.enumerated.None? && IsObject(s, ty)
    requires x == EMPTY.(constant := Some(c)) && s.properties == Listed([Property(TAKEN, x)] + rest)
    ensures Accepts(Convert(s, ctx).0.rules, IntegerRule().content, t)
            <==> exists sp, sp' :: (t == c + sp + sp' || t == "-" + (c + sp) + sp') && SpaceText(sp) && SpaceText(sp')
  {
    hide Visit, VisitAs, VisitObject, VisitPairs, VisitProperties, Add, RuleName, Keys, Accepts, SpaceText, TAKEN;
    var g := Convert(s, ctx).0.rules;
    var ps := [Property(TAKEN, x)] + rest;
    TakenEscaped();
    VisitSingle(s, ty, "", START, ctx);
    AsObject(s, ty, "", START, ctx);
    FirstKept(Property(TAKEN, x), rest, "", map[], START, ctx);
    PropsKept(s, ps, "", START, ctx);
    ObjectKeeps(s, ps, "", START, ctx);
    TakenByConstant(x, c, ctx);
    FinishedKeeps(g, s, ctx, Convert(s, ctx).0);
    assert g["integral-part"] == Cat(Lit(c), Space());
    TakenIntegers(g, c, t);
  }

  lemma {:induction false} TakenIntegers(g: Rules, c: string, t: string)
    requires HasSpaceRule(g) && "integral-part" in g && g["integral-part"] == Cat(Lit(c), Space())
    ensures Accepts(g, IntegerRule().content, t)
            <==> exists sp, sp' :: (t == c + sp + sp' || t == "-" + (c + sp) + sp') && SpaceText(sp) && SpaceText(sp')
  {
    hide Accepts, SpaceText;
    var digits := Ref("integral-part");
    var e := Cat(Optional(Lit("-")), digits);
    Regrouped(g, Optional(Lit("-")), digits, Space(), t);
    ThenSpace(g, e, t);
    forall x: string ensures Accepts(g, digits, x) <==> exists sp :: x == c + sp && SpaceText(sp) { TakenDigits(g, c, x); }
    forall x: string ensures Accepts(g, e, x) <==> exists sp :: (x == c + sp || x == "-" + (c + sp)) && SpaceText(sp) {
      AfterOptional(g, Lit("-"), digits, x);
      AfterLit(g, "-", digits, x);
      if y :| x == "-" + y && Accepts(g, digits, y) { }
      if sp :| x == "-" + (c + sp) && SpaceText(sp) { assert Accepts(g, digits, c + sp); }
    }
  }

  lemma {:induction false} TakenDigits(g: Rules, c: string, x: string)
    requires HasSpaceRule(g) && "integral-part" in g && g["integral-part"] == Cat(Lit(c), Space())
    ensures Accepts(g, Ref("integral-part"), x) <==> exists sp :: x == c + sp && SpaceText(sp)
  {
    AcceptsRef(g, "integral-part", x);
    hide Accepts, SpaceText;
    ThenSpace(g, Lit(c), x);
    forall y: string ensures Accepts(g, Lit(c), y) <==> y == c { AcceptsLit(g, c, y); }
  }
}
