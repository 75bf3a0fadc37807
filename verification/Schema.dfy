/** Schemas and the converter's `visit`: which rule each kind of schema becomes, how rule names are
    made, and how references are resolved without following a cycle. */
module Schema {
  import opened Basics
  import opened Decimals
  import opened Gbnf
  import opened JsonText
  import opened RuleStore
  import opened Primitives
  import IntRange
  import NotStrings
  import ObjectRule
  import Pattern

  // ---------- schemas ----------

  datatype Types = NoType | One(name: string) | Several(names: seq<string>)
  datatype Property = Property(key: string, sub: Schema)
  datatype Alternatives = NoAlternatives | AnyOf(subs: seq<Schema>)
  datatype Properties = NoProperties | Listed(list: seq<Property>)
  datatype Additional = Absent | Flag(allowed: bool) | Extra(sub: Schema)
  datatype Items = NoItems | Tuple(subs: seq<Schema>) | Each(sub: Schema)
  // A member of "allOf" is a schema that must hold, or an "anyOf" of schemas that may.
  datatype Part = Must(sub: Schema) | May(subs: seq<Schema>)
  datatype AllOf = NoAllOf | Together(parts: seq<Part>)

  // The keywords `visit` looks at; `alternatives` is "oneOf", or "anyOf" when there is no "oneOf".
  // Constants are given as their JSON text, exclusive integer limits as the inclusive ones they mean.
  // `other` says that some keyword of no effect is present.
  datatype Schema = Schema(
    ref: Option<string>,
    alternatives: Alternatives,
    types: Types,
    constant: Option<string>,
    enumerated: Option<seq<string>>,
    properties: Properties,
    required: set<string>,
    additional: Additional,
    allOf: AllOf,
    items: Items,
    minItems: nat,
    maxItems: Option<nat>,
    pattern: Option<string>,
    format: string,
    minLength: Option<nat>,
    maxLength: Option<nat>,
    minimum: Option<int>,
    maximum: Option<int>,
    other: bool
  )

  const EMPTY := Schema(None, NoAlternatives, NoType, None, None, NoProperties, {}, Absent, NoAllOf, NoItems, 0, None, None, "", None, None, None, None, false)

  // No keyword at all.
  predicate Empty(s: Schema) {
    && s.ref.None? && s.alternatives.NoAlternatives? && s.types.NoType? && s.constant.None? && s.enumerated.None? && s.properties.NoProperties?
    && s.required == {} && s.additional.Absent? && s.allOf.NoAllOf? && s.items.NoItems? && s.minItems == 0 && s.maxItems.None? && s.pattern.None?
    && s.format == "" && s.minLength.None? && s.maxLength.None? && s.minimum.None? && s.maximum.None? && !s.other
  }

  type Refs = map<string, Schema>

  // Why a conversion has no result: an error is recorded or thrown; a pattern or bound is outside the
  // model; the translation of a pattern never ends; following "allOf" members never ends.
  datatype Halt = Errors | Uncovered | PatternLoop | AllOfLoop

  datatype CState = CState(rules: Rules, being: set<string>, halts: set<Halt>)

  const START := CState(map["space" := SPACE_RULE], {}, {})

  // ---------- names ----------

  function RuleName(name: string): string {
    if Reserved(name) then name + "-" else if name == "" then "root" else name
  }

  function Under(name: string, part: string): string { name + (if name == "" then "" else "-") + part }

  function AlternativeName(name: string, i: nat): string {
    name + (if name == "" then "alternative-" else "-") + Decimal(i)
  }

  // What follows the first '#', or the whole reference.
  function Fragment(ref: string): string {
    if ref == "" then "" else if ref[0] == '#' then ref[1..] else if '#' in ref then Fragment(ref[1..]) else ref
  }

  function RefName(ref: string): string { "ref" + EscapeName(Fragment(ref)) }

  // ---------- expressions ----------

  // One or more alternatives; nothing at all for none.
  function Union(es: seq<Expr>): Expr { if es == [] then Lit("") else AltAll(es) }

  function RefsTo(names: seq<string>): seq<Expr> { seq(|names|, i requires 0 <= i < |names| => Ref(names[i])) }

  function Literals(texts: seq<string>): seq<Expr> { seq(|texts|, i requires 0 <= i < |texts| => Lit(texts[i])) }

  // Separated items, between `lo` and `hi` of them.
  function Separated(item: Expr, sep: Expr, lo: nat, hi: Option<nat>): Expr {
    if hi == Some(0) then Lit("")
    else if lo == 0 && hi == Some(1) then Rep(item, 0, Some(1))
    else
      var hi' := if hi.Some? then Some(hi.value - 1) else None;
      var more := Pattern.BuildRepetition(Cat(sep, item), if lo == 0 then 0 else lo - 1, hi');
      var all := Cat(item, more);
      if lo == 0 then Rep(all, 0, Some(1)) else all
  }

  function CommaSpace(): Expr { Cat(Lit(","), Space()) }

  function TupleItems(names: seq<string>): seq<Expr> {
    if names == [] then []
    else if |names| == 1 then [Ref(names[0])]
    else [Ref(names[0]), CommaSpace()] + TupleItems(names[1..])
  }

  function Bracketed(body: seq<Expr>): Expr { CatAll([Lit("["), Space()] + body + [Lit("]"), Space()]) }

  function KvExpr(key: string, valueRule: string): Expr {
    CatAll([Lit(Dump(key)), Space(), Lit(":"), Space(), Ref(valueRule)])
  }

  function ExtraKvExpr(keyRule: string, valueRule: string): Expr {
    CatAll([Ref(keyRule), Lit(":"), Space(), Ref(valueRule)])
  }

  predicate IsUuid(format: string) {
    format in {"uuid", "uuid1", "uuid2", "uuid3", "uuid4", "uuid5"}
  }

  // ---------- adding to the state ----------

  function Add(st: CState, name: string, e: Expr): (r: (CState, string))
    ensures r.0.being == st.being && r.0.halts == st.halts && Extends(r.0.rules, st.rules)
  {
    var r := AddRule(st.rules, name, e);
    (st.(rules := r.0), r.1)
  }

  function AddBuiltin(st: CState, name: string, b: Builtin): (r: (CState, string))
    ensures r.0.being == st.being && r.0.halts == st.halts && Extends(r.0.rules, st.rules)
  {
    var r := AddPrimitive(st.rules, name, b);
    (st.(rules := r.0), r.1)
  }

  function Fail(st: CState, why: Halt): (CState, string) { (st.(halts := st.halts + {why}), "") }

  // ---------- the kinds of schema without sub-schemas ----------

  predicate Untyped(ty: Option<string>, t: string) { ty.None? || ty.value == t }

  function VisitPattern(p: string, name: string, dotall: bool, st: CState): (r: (CState, string))
    ensures r.0.being == st.being && Extends(r.0.rules, st.rules) && st.halts <= r.0.halts && (AllOfLoop in r.0.halts ==> AllOfLoop in st.halts)
  {
    match Pattern.Translate(p, st.rules, Pattern.Config(name, dotall))
    case Translated(rules, key) => (st.(rules := rules), key)
    case NoPattern => Fail(st, Errors)
    case NotCovered => Fail(st, Uncovered)
    case Diverges => Fail(st, PatternLoop)
  }

  function VisitLength(s: Schema, name: string, st: CState): (r: (CState, string))
    ensures r.0.being == st.being && Extends(r.0.rules, st.rules) && st.halts <= r.0.halts && (AllOfLoop in r.0.halts ==> AllOfLoop in st.halts)
  {
    var r := AddBuiltin(st, "char", CharRule());
    var lo := if s.minLength.Some? then s.minLength.value else 0;
    var chars := Pattern.BuildRepetition(Ref(r.1), lo, s.maxLength);
    Add(r.0, RuleName(name), CatAll([Lit("\""), chars, Lit("\""), Space()]))
  }

  function VisitInteger(s: Schema, name: string, st: CState): (r: (CState, string))
    ensures r.0.being == st.being && Extends(r.0.rules, st.rules) && st.halts <= r.0.halts && (AllOfLoop in r.0.halts ==> AllOfLoop in st.halts)
  {
    var lo := if s.minimum.Some? then s.minimum.value else IntRange.INT64_MIN;
    var hi := if s.maximum.Some? then s.maximum.value else IntRange.INT64_MAX;
    if !IntRange.ValidArgs(lo, hi) then Fail(st, Uncovered)
    else
      match IntRange.MinMax(lo, hi, 16, true)
      case Err(_) => Fail(st, Errors)
      case Ok(e) => Add(st, RuleName(name), Cat(e, Space()))
  }

  function TopName(name: string, otherwise: string): string { if RuleName(name) == "root" then "root" else otherwise }

  function VisitUntyped(s: Schema, ty: Option<string>, name: string, st: CState): (r: (CState, string))
    ensures r.0.being == st.being && Extends(r.0.rules, st.rules) && st.halts <= r.0.halts && (AllOfLoop in r.0.halts ==> AllOfLoop in st.halts)
  {
    if ty == Some("object") || Empty(s) then
      var r := AddBuiltin(st, "object", AnyObjectRule());
      Add(r.0, RuleName(name), Ref(r.1))
    else if ty.None? then
      var r := AddBuiltin(st, "value", ValueRule());
      Add(r.0, RuleName(name), Ref(r.1))
    else if Primitive(ty.value).None? then Fail(st, Errors)
    else AddBuiltin(st, TopName(name, ty.value), Primitive(ty.value).value)
  }

  // Everything from "pattern" on; the schema has no keyword with sub-schemas left.
  function VisitLeaf(s: Schema, ty: Option<string>, name: string, dotall: bool, st: CState): (r: (CState, string))
    ensures r.0.being == st.being && Extends(r.0.rules, st.rules) && st.halts <= r.0.halts && (AllOfLoop in r.0.halts ==> AllOfLoop in st.halts)
  {
    if Untyped(ty, "string") && s.pattern.Some? then VisitPattern(s.pattern.value, RuleName(name), dotall, st)
    else if Untyped(ty, "string") && IsUuid(s.format) then AddBuiltin(st, TopName(name, s.format), UuidRule())
    else if Untyped(ty, "string") && Format(s.format + "-string").Some? then
      var r := AddBuiltin(st, s.format + "-string", Format(s.format + "-string").value);
      Add(r.0, RuleName(name), Ref(r.1))
    else if ty == Some("string") && (s.minLength.Some? || s.maxLength.Some?) then VisitLength(s, name, st)
    else if ty == Some("integer") && (s.minimum.Some? || s.maximum.Some?) then VisitInteger(s, name, st)
    else VisitUntyped(s, ty, name, st)
  }

  // ---------- visiting ----------

  // `chased` are the references whose properties are being visited as those of an "allOf" member, since
  // the last one that was resolved.  The source keeps no such set: coming back to one it never ends.
  datatype Context = Context(refs: Refs, dotall: bool, chased: set<string>)

  function Left(ctx: Context, st: CState): nat { |ctx.refs.Keys - st.being| }

  function Unchased(ctx: Context): nat { |ctx.refs.Keys - ctx.chased| }

  // Each reference is resolved at most once at a time: the number of references not being resolved,
  // then of those not being followed from "allOf", then the schema, gets smaller.
  function Visit(s: Schema, name: string, st: CState, ctx: Context): (r: (CState, string))
    ensures r.0.being == st.being && Extends(r.0.rules, st.rules) && st.halts <= r.0.halts
    decreases Left(ctx, st), Unchased(ctx), s, 3
  {
    if s.ref.Some? then
      var r := ResolveRef(s.ref.value, st, ctx, s);
      Add(r.0, RuleName(name), Ref(r.1))
    else if s.alternatives.AnyOf? then
      var r := VisitAlternatives(s.alternatives.subs, name, 0, st, ctx);
      Add(r.0, RuleName(name), Union(RefsTo(r.1)))
    else
      match s.types
      case Several(ts) =>
        var r := VisitEachType(s, ts, name, 0, st, ctx);
        Add(r.0, RuleName(name), Union(RefsTo(r.1)))
      case NoType => VisitAs(s, None, name, st, ctx)
      case One(t) => VisitAs(s, Some(t), name, st, ctx)
  }

  function ResolveRef(ref: string, st: CState, ctx: Context, ghost at: Schema): (r: (CState, string))
    ensures r.0.being == st.being && Extends(r.0.rules, st.rules) && st.halts <= r.0.halts
    decreases Left(ctx, st), Unchased(ctx), at, 2
  {
    var name := RefName(ref);
    if name in st.rules || ref in st.being then (st, name)
    else if ref !in ctx.refs then VisitLeaf(EMPTY, None, name, ctx.dotall, st)
    else
      var st1 := st.(being := st.being + {ref});
      FewerLeft(ctx.refs.Keys - st1.being, ctx.refs.Keys - st.being);
      var r := Visit(ctx.refs[ref], name, st1, ctx.(chased := {}));
      (r.0.(being := st.being), r.1)
  }

  function VisitAlternatives(subs: seq<Schema>, name: string, i: nat, st: CState, ctx: Context): (r: (CState, seq<string>))
    ensures r.0.being == st.being && Extends(r.0.rules, st.rules) && st.halts <= r.0.halts
    decreases Left(ctx, st), Unchased(ctx), subs, 0
  {
    if subs == [] then (st, [])
    else
      var r := Visit(subs[0], AlternativeName(name, i), st, ctx);
      var rest := VisitAlternatives(subs[1..], name, i + 1, r.0, ctx);
      (rest.0, [r.1] + rest.1)
  }

  // The schema once for each of its types.
  function VisitEachType(s: Schema, ts: seq<string>, name: string, i: nat, st: CState, ctx: Context): (r: (CState, seq<string>))
    ensures r.0.being == st.being && Extends(r.0.rules, st.rules) && st.halts <= r.0.halts
    decreases Left(ctx, st), Unchased(ctx), s, 2, |ts|
  {
    if ts == [] then (st, [])
    else
      var r := VisitAs(s, Some(ts[0]), AlternativeName(name, i), st, ctx);
      var rest := VisitEachType(s, ts[1..], name, i + 1, r.0, ctx);
      (rest.0, [r.1] + rest.1)
  }

  predicate IsObject(s: Schema, ty: Option<string>) {
    Untyped(ty, "object") && (s.properties.Listed? || s.additional == Flag(false) || s.additional.Extra?)
  }

  function PropertiesOf(s: Schema): seq<Property> { if s.properties.Listed? then s.properties.list else [] }

  // From "const" on, with the type fixed.
  function VisitAs(s: Schema, ty: Option<string>, name: string, st: CState, ctx: Context): (r: (CState, string))
    ensures r.0.being == st.being && Extends(r.0.rules, st.rules) && st.halts <= r.0.halts
    decreases Left(ctx, st), Unchased(ctx), s, 1
  {
    if s.constant.Some? then Add(st, RuleName(name), Cat(Lit(s.constant.value), Space()))
    else if s.enumerated.Some? then Add(st, RuleName(name), Cat(Union(Literals(s.enumerated.value)), Space()))
    else if IsObject(s, ty) then
      var r := VisitObject(s, PropertiesOf(s), name, st, ctx);
      Add(r.0, RuleName(name), r.1)
    else if IsAllOf(s, ty) then
      var r := VisitAllOf(s, s.allOf, name, st, ctx);
      Add(r.0, RuleName(name), r.1)
    else if Untyped(ty, "array") && !s.items.NoItems? then
      var r := VisitItems(s, s.items, name, st, ctx);
      Add(r.0, RuleName(name), r.1)
    else VisitLeaf(s, ty, name, ctx.dotall, st)
  }

  function VisitTuple(subs: seq<Schema>, name: string, i: nat, st: CState, ctx: Context): (r: (CState, seq<string>))
    ensures r.0.being == st.being && Extends(r.0.rules, st.rules) && st.halts <= r.0.halts
    decreases Left(ctx, st), Unchased(ctx), subs, 0
  {
    if subs == [] then (st, [])
    else
      var r := Visit(subs[0], Under(name, "tuple-" + Decimal(i)), st, ctx);
      var rest := VisitTuple(subs[1..], name, i + 1, r.0, ctx);
      (rest.0, [r.1] + rest.1)
  }

  function VisitItems(s: Schema, items: Items, name: string, st: CState, ctx: Context): (r: (CState, Expr))
    requires items == s.items && !items.NoItems?
    ensures r.0.being == st.being && Extends(r.0.rules, st.rules) && st.halts <= r.0.halts
    decreases Left(ctx, st), Unchased(ctx), s, 0
  {
    match items
    case Tuple(subs) =>
      var r := VisitTuple(subs, name, 0, st, ctx);
      (r.0, Bracketed(TupleItems(r.1)))
    case Each(sub) =>
      var r := Visit(sub, Under(name, "item"), st, ctx);
      (r.0, Bracketed([Separated(Ref(r.1), CommaSpace(), s.minItems, s.maxItems)]))
  }

  function VisitProperties(ps: seq<Property>, name: string, kv: ObjectRule.KvNames, st: CState, ctx: Context)
    : (r: (CState, ObjectRule.KvNames))
    ensures r.0.being == st.being && Extends(r.0.rules, st.rules) && st.halts <= r.0.halts
    ensures kv.Keys + Keys(ps) <= r.1.Keys
    decreases Left(ctx, st), Unchased(ctx), ps, 0
  {
    if ps == [] then (st, kv)
    else
      var r := VisitProperty(ps[0], name, st, ctx);
      var kv' := kv[ps[0].key := r.1];
      assert kv'.Keys == kv.Keys + {ps[0].key};
      VisitProperties(ps[1..], name, kv', r.0, ctx)
  }

  function Keys(ps: seq<Property>): set<string> {
    if ps == [] then {} else {ps[0].key} + Keys(ps[1..])
  }

  function VisitProperty(p: Property, name: string, st: CState, ctx: Context): (r: (CState, string))
    ensures r.0.being == st.being && Extends(r.0.rules, st.rules) && st.halts <= r.0.halts
    decreases Left(ctx, st), Unchased(ctx), p, 0
  {
    var r := Visit(p.sub, Under(name, p.key), st, ctx);
    Add(r.0, Under(name, p.key) + "-kv", KvExpr(p.key, r.1))
  }

  function KeysWhere(ps: seq<Property>, required: set<string>, wanted: bool): (ks: seq<string>)
    ensures forall i :: 0 <= i < |ks| ==> ks[i] in Keys(ps)
  {
    if ps == [] then []
    else
      var rest := KeysWhere(ps[1..], required, wanted);
      if (ps[0].key in required) == wanted then [ps[0].key] + rest else rest
  }

  function PropertyNames(ps: seq<Property>): seq<string> { seq(|ps|, i requires 0 <= i < |ps| => ps[i].key) }

  // The key rule of the additional properties: any string, or any but the named ones.
  function ExtraKey(ps: seq<Property>, subName: string, st: CState): (r: (CState, string))
    ensures r.0.being == st.being && Extends(r.0.rules, st.rules) && r.0.halts == st.halts
  {
    if ps == [] then AddBuiltin(st, "string", StringRule())
    else
      var c := AddBuiltin(st, "char", CharRule());
      Add(c.0, subName + "-k", NotStrings.NotStringsExpr(PropertyNames(ps)))
  }

  function VisitExtra(s: Schema, additional: Additional, ps: seq<Property>, name: string, st: CState, ctx: Context): (r: (CState, string))
    requires additional == s.additional && !additional.Absent?
    ensures r.0.being == st.being && Extends(r.0.rules, st.rules) && st.halts <= r.0.halts
    decreases Left(ctx, st), Unchased(ctx), s, 0, 0
  {
    var subName := Under(name, "additional");
    var value :=
      match additional
      case Extra(sub) => Visit(sub, subName + "-value", st, ctx)
      case _ => AddBuiltin(st, "value", ValueRule());
    var key := ExtraKey(ps, subName, value.0);
    Add(key.0, subName + "-kv", ExtraKvExpr(key.1, value.1))
  }

  predicate AllowsExtra(s: Schema) { s.additional == Flag(true) || s.additional.Extra? }

  function VisitObject(s: Schema, ps: seq<Property>, name: string, st: CState, ctx: Context): (r: (CState, Expr))
    requires ps == PropertiesOf(s)
    ensures r.0.being == st.being && Extends(r.0.rules, st.rules) && st.halts <= r.0.halts
    decreases Left(ctx, st), Unchased(ctx), s, 0, 2
  {
    hide Keys;
    var r := VisitPairs(s, ps, name, st, ctx);
    Object(r.0, name, r.1, ps, s.required, if AllowsExtra(s) then [ObjectRule.STAR] else [])
  }

  function VisitPairs(s: Schema, ps: seq<Property>, name: string, st: CState, ctx: Context): (r: (CState, ObjectRule.KvNames))
    requires ps == PropertiesOf(s)
    ensures r.0.being == st.being && Extends(r.0.rules, st.rules) && st.halts <= r.0.halts
    ensures Keys(ps) <= r.1.Keys && (AllowsExtra(s) ==> ObjectRule.STAR in r.1)
    decreases Left(ctx, st), Unchased(ctx), s, 0, 1
  {
    hide Keys, PropertiesOf, VisitExtra, VisitProps;
    var r := VisitProps(s, ps, name, st, ctx);
    if AllowsExtra(s) then
      var x := VisitExtra(s, s.additional, ps, name, r.0, ctx);
      (x.0, r.1[ObjectRule.STAR := x.1])
    else r
  }

  function VisitProps(s: Schema, ps: seq<Property>, name: string, st: CState, ctx: Context): (r: (CState, ObjectRule.KvNames))
    requires ps == PropertiesOf(s)
    ensures r.0.being == st.being && Extends(r.0.rules, st.rules) && st.halts <= r.0.halts
    ensures Keys(ps) <= r.1.Keys
    decreases Left(ctx, st), Unchased(ctx), s, 0, 0
  {
    if s.properties.Listed? then VisitProperties(s.properties.list, name, map[], st, ctx) else (st, map[])
  }

  function Object(st: CState, name: string, kv: ObjectRule.KvNames, ps: seq<Property>, required: set<string>, extra: seq<string>)
    : (r: (CState, Expr))
    requires Keys(ps) <= kv.Keys && ObjectRule.Named(kv, extra)
    ensures r.0.being == st.being && Extends(r.0.rules, st.rules) && r.0.halts == st.halts
  {
    var r := ObjectRule.ObjectExpr(st.rules, name, kv, KeysWhere(ps, required, true), KeysWhere(ps, required, false) + extra);
    (st.(rules := r.0), r.1)
  }

  // ---------- "allOf" ----------

  predicate IsAllOf(s: Schema, ty: Option<string>) { (Untyped(ty, "object") || ty == Some("string")) && s.allOf.Together? }

  // What a member is after its references have been followed; `last` is the one that led there.
  datatype Member = Loops | Missing | Found(sub: Schema, last: Option<string>)

  function Chase(c: Schema, refs: Refs, seen: set<string>): (r: Member)
    ensures r.Found? ==> r.sub.ref.None?
    ensures r.Found? && r.last.None? ==> c.ref.None? && r.sub == c
    ensures r.Found? && r.last.Some? ==> c.ref.Some? && r.last.value in refs && r.sub == refs[r.last.value]
    decreases |refs.Keys - seen|
  {
    if c.ref.None? then Found(c, None)
    else if c.ref.value !in refs then Missing
    else if c.ref.value in seen then Loops
    else
      var seen1 := seen + {c.ref.value};
      FewerLeft(refs.Keys - seen1, refs.Keys - seen);
      var m := Chase(refs[c.ref.value], refs, seen1);
      if m.Found? && m.last.None? then Found(m.sub, Some(c.ref.value)) else m
  }

  function Follow(c: Schema, refs: Refs): Member { Chase(c, refs, {}) }

  function MemberProperties(c: Schema, refs: Refs): seq<Property> {
    var m := Follow(c, refs);
    if m.Found? then PropertiesOf(m.sub) else []
  }

  function MemberEnum(c: Schema, refs: Refs): seq<string> {
    var m := Follow(c, refs);
    if m.Found? && m.sub.properties.NoProperties? && m.sub.enumerated.Some? then m.sub.enumerated.value else []
  }

  function Members(p: Part): seq<Schema> { if p.Must? then [p.sub] else p.subs }

  predicate MembersLoop(cs: seq<Schema>, refs: Refs) { exists i :: 0 <= i < |cs| && Follow(cs[i], refs).Loops? }

  predicate PartsLoop(parts: seq<Part>, refs: Refs) { exists i :: 0 <= i < |parts| && MembersLoop(Members(parts[i]), refs) }

  // The member's properties are those being visited already.
  predicate Revisits(c: Schema, ctx: Context) {
    var m := Follow(c, ctx.refs);
    m.Found? && m.sub.properties.Listed? && m.last.Some? && m.last.value in ctx.chased
  }

  predicate MembersRevisit(cs: seq<Schema>, ctx: Context) { exists i :: 0 <= i < |cs| && Revisits(cs[i], ctx) }

  predicate PartsRevisit(parts: seq<Part>, ctx: Context) { exists i :: 0 <= i < |parts| && MembersRevisit(Members(parts[i]), ctx) }

  function MembersProperties(cs: seq<Schema>, refs: Refs): seq<Property> {
    if cs == [] then [] else MemberProperties(cs[0], refs) + MembersProperties(cs[1..], refs)
  }

  function PartProperties(p: Part, refs: Refs): seq<Property> {
    if p.Must? then MemberProperties(p.sub, refs) else MembersProperties(p.subs, refs)
  }

  function PartsProperties(parts: seq<Part>, refs: Refs): seq<Property> {
    if parts == [] then [] else PartProperties(parts[0], refs) + PartsProperties(parts[1..], refs)
  }

  // The keys that some member requires by listing them.
  function PartsRequired(parts: seq<Part>, refs: Refs): set<string> {
    if parts == [] then {}
    else (if parts[0].Must? then Keys(MemberProperties(parts[0].sub, refs)) else {}) + PartsRequired(parts[1..], refs)
  }

  function MembersEnum(cs: seq<Schema>, refs: Refs): seq<string> {
    if cs == [] then [] else MemberEnum(cs[0], refs) + MembersEnum(cs[1..], refs)
  }

  function PartsEnum(parts: seq<Part>, refs: Refs): seq<string> {
    if parts == [] then [] else MembersEnum(Members(parts[0]), refs) + PartsEnum(parts[1..], refs)
  }

  // The constants counted exactly `n` times, each once.
  function CountedTimes(all: seq<string>, rest: seq<string>, n: nat): (r: seq<string>)
  {
    if rest == [] then []
    else
      var later := CountedTimes(all, rest[1..], n);
      if multiset(all)[rest[0]] == n && rest[0] !in rest[1..] then [rest[0]] + later else later
  }

  function SharedEnum(parts: seq<Part>, refs: Refs): seq<string> {
    var all := PartsEnum(parts, refs);
    CountedTimes(all, all, |parts|)
  }

  function VisitAllOf(s: Schema, allOf: AllOf, name: string, st: CState, ctx: Context): (r: (CState, Expr))
    requires allOf == s.allOf && allOf.Together?
    ensures r.0.being == st.being && Extends(r.0.rules, st.rules) && st.halts <= r.0.halts
    decreases Left(ctx, st), Unchased(ctx), s, 0, 2
  {
    hide Keys;
    match allOf
    case Together(parts) =>
      if PartsLoop(parts, ctx.refs) then (st.(halts := st.halts + {AllOfLoop}), Lit(""))
      else if SharedEnum(parts, ctx.refs) != [] then (st, Cat(Union(Literals(SharedEnum(parts, ctx.refs))), Space()))
      else if PartsRevisit(parts, ctx) then (st.(halts := st.halts + {AllOfLoop}), Lit(""))
      else
        var r := VisitParts(parts, name, map[], st, ctx);
        Object(r.0, name, r.1, PartsProperties(parts, ctx.refs), PartsRequired(parts, ctx.refs), [])
  }

  lemma {:induction false} KeysConcat(a: seq<Property>, b: seq<Property>)
    ensures Keys(a + b) == Keys(a) + Keys(b)
  {
    if a == [] {
      assert a + b == b;
    } else {
      assert (a + b)[0] == a[0] && (a + b)[1..] == a[1..] + b;
      KeysConcat(a[1..], b);
    }
  }

  function VisitParts(parts: seq<Part>, name: string, kv: ObjectRule.KvNames, st: CState, ctx: Context)
    : (r: (CState, ObjectRule.KvNames))
    requires !PartsRevisit(parts, ctx)
    ensures r.0.being == st.being && Extends(r.0.rules, st.rules) && st.halts <= r.0.halts
    ensures kv.Keys + Keys(PartsProperties(parts, ctx.refs)) <= r.1.Keys
    decreases Left(ctx, st), Unchased(ctx), parts, 0
  {
    if parts == [] then (st, kv)
    else
      var r := VisitPart(parts[0], name, kv, st, ctx);
      KeysConcat(PartProperties(parts[0], ctx.refs), PartsProperties(parts[1..], ctx.refs));
      hide Keys, PartProperties;
      VisitParts(parts[1..], name, r.1, r.0, ctx)
  }

  function VisitPart(p: Part, name: string, kv: ObjectRule.KvNames, st: CState, ctx: Context): (r: (CState, ObjectRule.KvNames))
    requires !MembersRevisit(Members(p), ctx)
    ensures r.0.being == st.being && Extends(r.0.rules, st.rules) && st.halts <= r.0.halts
    ensures kv.Keys + Keys(PartProperties(p, ctx.refs)) <= r.1.Keys
    decreases Left(ctx, st), Unchased(ctx), p, 0
  {
    hide Keys;
    match p
    case Must(sub) => assert Members(p)[0] == sub; VisitMember(sub, name, kv, st, ctx)
    case May(subs) => VisitMembers(subs, name, kv, st, ctx)
  }

  function VisitMembers(cs: seq<Schema>, name: string, kv: ObjectRule.KvNames, st: CState, ctx: Context): (r: (CState, ObjectRule.KvNames))
    requires !MembersRevisit(cs, ctx)
    ensures r.0.being == st.being && Extends(r.0.rules, st.rules) && st.halts <= r.0.halts
    ensures kv.Keys + Keys(MembersProperties(cs, ctx.refs)) <= r.1.Keys
    decreases Left(ctx, st), Unchased(ctx), cs, 0
  {
    if cs == [] then (st, kv)
    else
      var r := VisitMember(cs[0], name, kv, st, ctx);
      KeysConcat(MemberProperties(cs[0], ctx.refs), MembersProperties(cs[1..], ctx.refs));
      hide Keys, MemberProperties;
      VisitMembers(cs[1..], name, r.1, r.0, ctx)
  }

  // The properties of a member, visited where its references lead.
  function VisitMember(c: Schema, name: string, kv: ObjectRule.KvNames, st: CState, ctx: Context): (r: (CState, ObjectRule.KvNames))
    requires !Revisits(c, ctx)
    ensures r.0.being == st.being && Extends(r.0.rules, st.rules) && st.halts <= r.0.halts
    ensures kv.Keys + Keys(MemberProperties(c, ctx.refs)) <= r.1.Keys
    decreases Left(ctx, st), Unchased(ctx), c, 4
  {
    match Follow(c, ctx.refs)
    case Found(sub, last) =>
      (match sub.properties
       case Listed(list) =>
         ViaFewer(ctx, last);
         VisitProperties(list, name, kv, st, Via(ctx, last))
       case NoProperties => (st, kv))
    case Loops => (st, kv)
    case Missing => (st, kv)
  }

  lemma {:induction false} ViaFewer(ctx: Context, last: Option<string>)
    requires last.Some? ==> last.value in ctx.refs && last.value !in ctx.chased
    ensures last.Some? ==> Unchased(Via(ctx, last)) < Unchased(ctx)
  {
    FewerLeft(ctx.refs.Keys - Via(ctx, last).chased, ctx.refs.Keys - ctx.chased);
  }

  function Via(ctx: Context, last: Option<string>): Context {
    if last.Some? then ctx.(chased := ctx.chased + {last.value}) else ctx
  }

  // A member's properties are visited where its references lead.
  lemma {:induction false} MemberStep(c: Schema, name: string, kv: ObjectRule.KvNames, st: CState, ctx: Context)
    requires !Revisits(c, ctx)
    ensures var m := Follow(c, ctx.refs);
            VisitMember(c, name, kv, st, ctx)
            == if m.Found? && m.sub.properties.Listed? then VisitProperties(m.sub.properties.list, name, kv, st, Via(ctx, m.last)) else (st, kv)
  {
    hide VisitProperties, Chase, Keys;
  }

  lemma {:induction false} MemberShrinks(c: Schema, st: CState, ctx: Context)
    requires !Revisits(c, ctx)
    ensures var m := Follow(c, ctx.refs);
            m.Found? && m.sub.properties.Listed? ==>
              && Left(Via(ctx, m.last), st) == Left(ctx, st)
              && (m.last.Some? ==> Unchased(Via(ctx, m.last)) < Unchased(ctx))
              && (m.last.None? ==> Via(ctx, m.last) == ctx && m.sub == c)
  {
    var m := Follow(c, ctx.refs);
    hide Chase;
    if m.Found? && m.sub.properties.Listed? { ViaFewer(ctx, m.last); }
  }

  // The whole conversion.
  function Convert(s: Schema, ctx: Context): (CState, string) { Visit(s, "", START, ctx) }
}
