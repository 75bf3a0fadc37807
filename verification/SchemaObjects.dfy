/** What the rules of object schemas accept: which keys, in which order, and for each key the values its own
    sub-schema's rule accepts. */
module SchemaObjects {
  import opened Basics
  import opened JsonText
  import opened Gbnf
  import opened RuleStore
  import opened Primitives
  import opened ObjectTexts
  import opened Schema
  import NotStrings
  import ObjectRule

  // ---------- the keys of an object ----------

  function KeysIn(keys: seq<string>, required: set<string>): seq<string> {
    if keys == [] then [] else (if keys[0] in required then [keys[0]] else []) + KeysIn(keys[1..], required)
  }

  function KeysOut(keys: seq<string>, required: set<string>): seq<string> {
    if keys == [] then [] else (if keys[0] in required then [] else [keys[0]]) + KeysOut(keys[1..], required)
  }

  // The required keys as they are listed, then an ordered choice of the others, "*" for additional ones.
  ghost predicate Ordered(keys: seq<string>, required: set<string>, extra: bool, ks: seq<string>) {
    exists js :: OrderedAt(keys, required, extra, ks, js)
  }

  ghost predicate OrderedAt(keys: seq<string>, required: set<string>, extra: bool, ks: seq<string>, js: seq<nat>) {
    var others := KeysOut(keys, required) + (if extra then [ObjectRule.STAR] else []);
    InOrder(others, js) && ks == KeysIn(keys, required) + KeysAt(others, js)
  }

  lemma {:induction false} KeysWhereAre(ps: seq<Property>, required: set<string>)
    ensures KeysWhere(ps, required, true) == KeysIn(PropertyNames(ps), required)
    ensures KeysWhere(ps, required, false) == KeysOut(PropertyNames(ps), required)
  {
    if ps != [] {
      KeysWhereAre(ps[1..], required);
      assert PropertyNames(ps)[0] == ps[0].key && PropertyNames(ps)[1..] == PropertyNames(ps[1..]);
    }
  }

  lemma {:induction false} ValidKeysOrdered(ps: seq<Property>, required: set<string>, extra: bool, ks: seq<string>)
    ensures ObjectRule.ValidKeys(KeysWhere(ps, required, true), KeysWhere(ps, required, false) + (if extra then [ObjectRule.STAR] else []), ks)
            <==> Ordered(PropertyNames(ps), required, extra, ks)
  {
    hide ObjectRule.Picks, KeysWhere, PropertyNames;
    KeysWhereAre(ps, required);
    var keys := PropertyNames(ps);
    var first, others := KeysIn(keys, required), KeysOut(keys, required) + (if extra then [ObjectRule.STAR] else []);
    hide KeysIn, KeysOut;
    if ObjectRule.ValidKeys(first, others, ks) {
      var chosen := ks[|first|..];
      assert ks == first + chosen;
      PicksArePositions(others, chosen);
      var js :| PicksAt(others, chosen, js);
      assert OrderedAt(keys, required, extra, ks, js);
    }
    if js :| OrderedAt(keys, required, extra, ks, js) {
      var chosen := KeysAt(others, js);
      assert PicksAt(others, chosen, js);
      PicksArePositions(others, chosen);
      assert ks[..|first|] == first && ks[|first|..] == chosen;
    }
  }

  // ---------- a pair of key and value ----------

  predicate PairParts(key: string, t: string, a: string, b: string, v: string) {
    t == key + (a + (":" + (b + v))) && SpaceText(a) && SpaceText(b)
  }

  // The key as a JSON string, a colon, and a value that the rule accepts.
  ghost predicate PairText(g: Rules, key: string, rule: string, t: string) {
    exists a, b, v :: PairParts(Dump(key), t, a, b, v) && Accepts(g, Ref(rule), v)
  }

  lemma {:induction false} CatAllCons(e: Expr, es: seq<Expr>)
    ensures CatAll([e] + es) == Cat(e, CatAll(es))
  {
    assert ([e] + es)[1..] == es;
  }

  // A colon, white space and a value.
  lemma {:induction false} ColonExact(g: Rules, rule: string, t: string)
    requires HasSpaceRule(g)
    ensures Accepts(g, CatAll([Lit(":"), Space(), Ref(rule)]), t) <==> exists b, v :: t == ":" + (b + v) && SpaceText(b) && Accepts(g, Ref(rule), v)
  {
    hide Accepts, SpaceText;
    assert [Lit(":"), Space(), Ref(rule)] == [Lit(":")] + ([Space()] + [Ref(rule)]);
    CatAllCons(Lit(":"), [Space()] + [Ref(rule)]);
    CatAllCons(Space(), [Ref(rule)]);
    var e := CatAll([Ref(rule)]);
    hide CatAll;
    AfterLit(g, ":", Cat(Space(), e), t);
    if x :| t == ":" + x && Accepts(g, Cat(Space(), e), x) {
      AfterSpace(g, e, x);
      var b, v :| x == b + v && SpaceText(b) && Accepts(g, e, v);
      AcceptsCatAllOne(g, Ref(rule), v);
    }
    if b, v :| t == ":" + (b + v) && SpaceText(b) && Accepts(g, Ref(rule), v) {
      AcceptsCatAllOne(g, Ref(rule), v);
      AfterSpace(g, e, b + v);
    }
  }

  lemma {:induction false} PairExact(g: Rules, key: string, rule: string, t: string)
    requires HasSpaceRule(g)
    ensures Accepts(g, KvExpr(key, rule), t) <==> PairText(g, key, rule, t)
  {
    hide Accepts, SpaceText, Dump;
    var colon := [Lit(":"), Space(), Ref(rule)];
    assert [Lit(Dump(key)), Space(), Lit(":"), Space(), Ref(rule)] == [Lit(Dump(key))] + ([Space()] + colon);
    CatAllCons(Lit(Dump(key)), [Space()] + colon);
    CatAllCons(Space(), colon);
    var e := CatAll(colon);
    hide CatAll;
    AfterLit(g, Dump(key), Cat(Space(), e), t);
    if x :| t == Dump(key) + x && Accepts(g, Cat(Space(), e), x) {
      AfterSpace(g, e, x);
      var a, y :| x == a + y && SpaceText(a) && Accepts(g, e, y);
      ColonExact(g, rule, y);
      var b, v :| y == ":" + (b + v) && SpaceText(b) && Accepts(g, Ref(rule), v);
      assert PairParts(Dump(key), t, a, b, v);
    }
    if a, b, v :| PairParts(Dump(key), t, a, b, v) && Accepts(g, Ref(rule), v) {
      ColonExact(g, rule, ":" + (b + v));
      AfterSpace(g, e, a + (":" + (b + v)));
    }
  }

  // ---------- additional pairs ----------

  // What an additional key may be between its quotes: any characters of a JSON string, or, when properties
  // are listed, what leaves their names.
  ghost predicate ExtraBody(names: seq<string>, body: string) {
    if names == [] then NotStrings.CharText(body)
    else if NotStrings.SomeNonempty(names) then (body == "" && "" !in names) || NotStrings.Leaves(names, body)
    else body == ""
  }

  predicate KeyParts(k: string, body: string, sp: string) { k == "\"" + (body + ("\"" + sp)) && SpaceText(sp) }

  ghost predicate ExtraKeyText(names: seq<string>, k: string) { exists body, sp :: KeyParts(k, body, sp) && ExtraBody(names, body) }

  predicate ExtraParts(t: string, k: string, b: string, v: string) { t == k + (":" + (b + v)) && SpaceText(b) }

  ghost predicate ExtraText(g: Rules, names: seq<string>, rule: string, t: string) {
    exists k, b, v :: ExtraParts(t, k, b, v) && ExtraKeyText(names, k) && Accepts(g, Ref(rule), v)
  }

  // A closing quote and white space.
  lemma {:induction false} QuoteEnd(g: Rules, close: Expr, z: string)
    requires HasSpaceRule(g) && forall x: string :: Accepts(g, close, x) <==> x == "\""
    ensures Accepts(g, Cat(close, Space()), z) <==> exists sp :: z == "\"" + sp && SpaceText(sp)
  {
    hide Accepts, SpaceText;
    AcceptsCat(g, close, Space(), z);
    if n :| 0 <= n <= |z| && Accepts(g, close, z[..n]) && Accepts(g, Space(), z[n..]) {
      SpaceExact(g, z[n..]);
      assert z == z[..n] + z[n..];
    }
    if sp :| z == "\"" + sp && SpaceText(sp) {
      SpaceExact(g, sp);
      CatJoin(g, close, Space(), "\"", sp);
    }
  }

  // Quotes around whatever the body accepts, white space behind them.
  lemma {:induction false} QuotesExact(g: Rules, open: Expr, body: Expr, close: Expr, k: string)
    requires HasSpaceRule(g)
    requires forall x: string :: Accepts(g, open, x) <==> x == "\""
    requires forall x: string :: Accepts(g, close, x) <==> x == "\""
    ensures Accepts(g, Cat(open, Cat(body, Cat(close, Space()))), k) <==> exists t, sp :: KeyParts(k, t, sp) && Accepts(g, body, t)
  {
    hide Accepts, SpaceText;
    var tail := Cat(close, Space());
    AcceptsCat(g, open, Cat(body, tail), k);
    if i :| 0 <= i <= |k| && Accepts(g, open, k[..i]) && Accepts(g, Cat(body, tail), k[i..]) {
      var x := k[i..];
      AcceptsCat(g, body, tail, x);
      var j :| 0 <= j <= |x| && Accepts(g, body, x[..j]) && Accepts(g, tail, x[j..]);
      QuoteEnd(g, close, x[j..]);
      var sp :| x[j..] == "\"" + sp && SpaceText(sp);
      assert k == k[..i] + x && x == x[..j] + x[j..];
      assert KeyParts(k, x[..j], sp);
    }
    if t, sp :| KeyParts(k, t, sp) && Accepts(g, body, t) {
      QuotesJoin(g, open, body, close, k, t, sp);
    }
  }

  lemma {:induction false} QuotesJoin(g: Rules, open: Expr, body: Expr, close: Expr, k: string, t: string, sp: string)
    requires HasSpaceRule(g) && Accepts(g, open, "\"") && (forall x: string :: Accepts(g, close, x) <==> x == "\"")
    requires KeyParts(k, t, sp) && Accepts(g, body, t)
    ensures Accepts(g, Cat(open, Cat(body, Cat(close, Space()))), k)
  {
    hide Accepts, SpaceText;
    QuoteEnd(g, close, "\"" + sp);
    CatJoin(g, body, Cat(close, Space()), t, "\"" + sp);
    CatJoin(g, open, Cat(body, Cat(close, Space())), "\"", t + ("\"" + sp));
  }

  lemma {:induction false} QuoteLit(g: Rules, x: string)
    ensures Accepts(g, Lit("\""), x) <==> x == "\""
    ensures Accepts(g, NotStrings.OneChar('"'), x) <==> x == "\""
  {
    AcceptsLit(g, "\"", x);
    AcceptsClass(g, [('"', '"')], false, x);
    assert [('"', '"')][0] == ('"', '"');
    hide Accepts;
  }

  lemma {:induction false} AnyKeyExact(g: Rules, k: string)
    requires HasSpaceRule(g) && NotStrings.HasCharRule(g)
    ensures Accepts(g, StringRule().content, k) <==> ExtraKeyText([], k)
  {
    hide Accepts, NotStrings.CharText, KeyParts;
    forall x: string ensures Accepts(g, Lit("\""), x) <==> x == "\"" { QuoteLit(g, x); }
    var body := Rep(Ref("char"), 0, None);
    QuotesExact(g, Lit("\""), body, Lit("\""), k);
    forall x: string ensures Accepts(g, body, x) <==> NotStrings.CharText(x) { NotStrings.CharsExact(g, 0, x); }
  }

  lemma {:induction false} OtherKeyExact(g: Rules, names: seq<string>, k: string)
    requires HasSpaceRule(g) && NotStrings.HasCharRule(g) && names != []
    ensures Accepts(g, NotStrings.NotStringsExpr(names), k) <==> ExtraKeyText(names, k)
  {
    var quote, body := NotStrings.OneChar('"'), NotStrings.Body(NotStrings.TrieOf(names));
    forall x: string ensures Accepts(g, quote, x) <==> x == "\"" { QuoteLit(g, x); }
    forall x: string ensures Accepts(g, body, x) <==> ExtraBody(names, x) { NotStrings.BodyExact(g, names, x); }
    hide Accepts, ExtraBody, KeyParts, NotStrings.OneChar, NotStrings.Body, NotStrings.TrieOf;
    FourInARow(g, quote, body, k);
    QuotesExact(g, quote, body, quote, k);
  }

  lemma {:induction false} FourInARow(g: Rules, quote: Expr, body: Expr, k: string)
    ensures Accepts(g, CatAll([quote, body, quote, Space()]), k) <==> Accepts(g, Cat(quote, Cat(body, Cat(quote, Space()))), k)
  {
    hide Accepts;
    var a, b, c := [body, quote, Space()], [quote, Space()], [Space()];
    assert [quote, body, quote, Space()] == [quote] + a && a == [body] + b && b == [quote] + c;
    CatAllCons(quote, a);
    CatAllCons(body, b);
    CatAllCons(quote, c);
    hide CatAll;
    forall x: string ensures Accepts(g, CatAll(c), x) <==> Accepts(g, Space(), x) { AcceptsCatAllOne(g, Space(), x); }
    forall x: string ensures Accepts(g, CatAll(b), x) <==> Accepts(g, Cat(quote, Space()), x) { SameTail(g, quote, CatAll(c), Space(), x); }
    forall x: string ensures Accepts(g, CatAll(a), x) <==> Accepts(g, Cat(body, Cat(quote, Space())), x) {
      SameTail(g, body, CatAll(b), Cat(quote, Space()), x);
    }
    SameTail(g, quote, CatAll(a), Cat(body, Cat(quote, Space())), k);
  }

  lemma {:induction false} SameTail(g: Rules, e: Expr, a: Expr, b: Expr, x: string)
    requires forall y: string :: Accepts(g, a, y) <==> Accepts(g, b, y)
    ensures Accepts(g, Cat(e, a), x) <==> Accepts(g, Cat(e, b), x)
  {
    hide Accepts;
    AcceptsCat(g, e, a, x);
    AcceptsCat(g, e, b, x);
  }

  lemma {:induction false} ExtraExact(g: Rules, keyRule: string, names: seq<string>, rule: string, t: string)
    requires HasSpaceRule(g) && forall k: string :: Accepts(g, Ref(keyRule), k) <==> ExtraKeyText(names, k)
    ensures Accepts(g, ExtraKvExpr(keyRule, rule), t) <==> ExtraText(g, names, rule, t)
  {
    hide Accepts, SpaceText, ExtraKeyText;
    var colon := [Lit(":"), Space(), Ref(rule)];
    assert [Ref(keyRule), Lit(":"), Space(), Ref(rule)] == [Ref(keyRule)] + colon;
    CatAllCons(Ref(keyRule), colon);
    hide CatAll;
    AcceptsCat(g, Ref(keyRule), CatAll(colon), t);
    if i :| 0 <= i <= |t| && Accepts(g, Ref(keyRule), t[..i]) && Accepts(g, CatAll(colon), t[i..]) {
      ColonExact(g, rule, t[i..]);
      var b, v :| t[i..] == ":" + (b + v) && SpaceText(b) && Accepts(g, Ref(rule), v);
      assert t == t[..i] + t[i..];
      assert ExtraParts(t, t[..i], b, v);
    }
    if k, b, v :| ExtraParts(t, k, b, v) && ExtraKeyText(names, k) && Accepts(g, Ref(rule), v) {
      ColonExact(g, rule, ":" + (b + v));
      assert t[..|k|] == k && t[|k|..] == ":" + (b + v);
    }
  }

  // ---------- objects ----------

  // What stands for a key: `values` names the rule of each listed key's value, `extra` that of the others.
  ghost predicate SlotText(g: Rules, keys: seq<string>, values: map<string, string>, extra: Option<string>, k: string, t: string) {
    if extra.Some? && k == ObjectRule.STAR then ExtraText(g, keys, extra.value, t)
    else k in values && PairText(g, k, values[k], t)
  }

  ghost predicate SlotTexts(g: Rules, keys: seq<string>, values: map<string, string>, extra: Option<string>, ks: seq<string>, texts: seq<string>) {
    |ks| == |texts| && forall i :: 0 <= i < |ks| ==> SlotText(g, keys, values, extra, ks[i], texts[i])
  }

  // The keys in order, each with a value that its own rule accepts.
  ghost predicate ObjectOf(g: Rules, keys: seq<string>, required: set<string>, values: map<string, string>, extra: Option<string>, t: string) {
    exists ks, texts :: Ordered(keys, required, extra.Some?, ks) && SlotTexts(g, keys, values, extra, ks, texts) && Braced(texts, t)
  }

  // The pair rule that a key is bound to.
  ghost predicate Bound(rules: Rules, kv: ObjectRule.KvNames, k: string, rule: string) {
    k in kv && kv[k] in rules && rules[kv[k]] == KvExpr(k, rule)
  }

  lemma {:induction false} KvExact(g: Rules, rules: Rules, kv: ObjectRule.KvNames, k: string, rule: string, t: string)
    requires Bound(rules, kv, k, rule) && Extends(g, rules) && HasSpaceRule(g)
    ensures Accepts(g, ObjectRule.Kv(kv, k), t) <==> PairText(g, k, rule, t)
  {
    AcceptsRef(g, kv[k], t);
    hide Accepts, KvExpr;
    PairExact(g, k, rule, t);
  }

  // Every key the pairs are named for stands for what it should.
  ghost predicate Faithful(g: Rules, keys: seq<string>, values: map<string, string>, extra: Option<string>, kv: ObjectRule.KvNames) {
    forall k, t: string :: k in kv ==> (Accepts(g, ObjectRule.Kv(kv, k), t) <==> SlotText(g, keys, values, extra, k, t))
  }

  function Extra(extra: Option<string>): seq<string> { if extra.Some? then [ObjectRule.STAR] else [] }

  lemma {:induction false} SlotsAre(g: Rules, keys: seq<string>, values: map<string, string>, extra: Option<string>, kv: ObjectRule.KvNames, ks: seq<string>,
                                    texts: seq<string>)
    requires Faithful(g, keys, values, extra, kv) && ObjectRule.Named(kv, ks)
    ensures TextsOf(g, KvExprs(kv, ks), texts) <==> SlotTexts(g, keys, values, extra, ks, texts)
  {
    hide Accepts, SlotText, ObjectRule.Kv;
  }

  lemma {:induction false} ValidNamed(kv: ObjectRule.KvNames, first: seq<string>, others: seq<string>, ks: seq<string>)
    requires ObjectRule.Named(kv, first) && ObjectRule.Named(kv, others) && ObjectRule.ValidKeys(first, others, ks)
    ensures ObjectRule.Named(kv, ks)
  {
    ObjectRule.PicksNamed(kv, others, ks[|first|..]);
    hide ObjectRule.Picks;
    forall i | 0 <= i < |ks| ensures ks[i] in kv {
      if i < |first| { assert ks[i] == ks[..|first|][i]; } else { assert ks[i] == ks[|first|..][i - |first|]; }
    }
  }

  // With faithful pairs the object rule accepts exactly the objects meant.
  lemma {:induction false} BuiltExact(g: Rules, ps: seq<Property>, required: set<string>, values: map<string, string>, extra: Option<string>,
                                      from: CState, name: string, kv: ObjectRule.KvNames, t: string)
    requires Faithful(g, PropertyNames(ps), values, extra, kv) && HasSpaceRule(g)
    requires Keys(ps) <= kv.Keys && ObjectRule.Named(kv, Extra(extra))
    requires Extends(g, Object(from, name, kv, ps, required, Extra(extra)).0.rules)
    ensures Accepts(g, Object(from, name, kv, ps, required, Extra(extra)).1, t) <==> ObjectOf(g, PropertyNames(ps), required, values, extra, t)
  {
    hide Accepts, Keys, KeysWhere, ObjectRule.ObjectExpr, ObjectRule.ValidKeys, Ordered, SlotText, Braced, PropertyNames;
    var keys := PropertyNames(ps);
    var first, others := KeysWhere(ps, required, true), KeysWhere(ps, required, false) + Extra(extra);
    ObjectRule.ObjectExact(from.rules, name, kv, first, others, g, t);
    forall ks ensures ObjectRule.ValidKeys(first, others, ks) <==> Ordered(keys, required, extra.Some?, ks) {
      ValidKeysOrdered(ps, required, extra.Some?, ks);
    }
    if ObjectRule.AcceptsSomeValid(g, kv, first, others, t) {
      var ks :| ObjectRule.ValidKeys(first, others, ks) && ObjectRule.Named(kv, ks) && Accepts(g, ObjectRule.ObjectWith(kv, ks), t);
      ObjectWithExact(g, kv, ks, t);
      var texts :| TextsOf(g, KvExprs(kv, ks), texts) && Braced(texts, t);
      SlotsAre(g, keys, values, extra, kv, ks, texts);
    }
    if ks, texts :| Ordered(keys, required, extra.Some?, ks) && SlotTexts(g, keys, values, extra, ks, texts) && Braced(texts, t) {
      ValidNamed(kv, first, others, ks);
      SlotsAre(g, keys, values, extra, kv, ks, texts);
      ObjectWithExact(g, kv, ks, t);
    }
  }

  // ---------- the rule of each key's value ----------

  // For each key the rule that the schema of the last property with it was visited to.
  function RulesOf(ps: seq<Property>, name: string, st: CState, ctx: Context): map<string, string>
    decreases |ps|
  {
    if ps == [] then map[]
    else
      map[ps[0].key := Visit(ps[0].sub, Under(name, ps[0].key), st, ctx).1]
      + RulesOf(ps[1..], name, VisitProperty(ps[0], name, st, ctx).0, ctx)
  }

  lemma {:induction false} PropertyBound(p: Property, name: string, st: CState, ctx: Context)
    ensures var r := VisitProperty(p, name, st, ctx);
            r.1 in r.0.rules && r.0.rules[r.1] == KvExpr(p.key, Visit(p.sub, Under(name, p.key), st, ctx).1)
  {
    hide Visit, Under, KvExpr;
  }

  // All named keys are bound to pairs with the given value rules.
  ghost predicate AllBound(rules: Rules, kv: ObjectRule.KvNames, values: map<string, string>) {
    kv.Keys == values.Keys && forall k :: k in kv ==> Bound(rules, kv, k, values[k])
  }

  lemma {:induction false} BoundMore(rules: Rules, kv: ObjectRule.KvNames, values: map<string, string>, more: Rules, k: string, pair: string, rule: string)
    requires AllBound(rules, kv, values) && Extends(more, rules) && pair in more && more[pair] == KvExpr(k, rule)
    ensures AllBound(more, kv[k := pair], values[k := rule])
  {
    hide KvExpr;
  }

  lemma {:induction false} PropertiesBound(ps: seq<Property>, name: string, kv: ObjectRule.KvNames, st: CState, ctx: Context, values: map<string, string>)
    requires AllBound(st.rules, kv, values)
    ensures var r := VisitProperties(ps, name, kv, st, ctx); AllBound(r.0.rules, r.1, values + RulesOf(ps, name, st, ctx))
    decreases |ps|
  {
    hide VisitProperty, KvExpr, Under, Visit, Keys, Bound;
    if ps == [] {
      Merged(values, map[], map[]);
    } else {
      var r := VisitProperty(ps[0], name, st, ctx);
      var k, rule := ps[0].key, Visit(ps[0].sub, Under(name, ps[0].key), st, ctx).1;
      PropertyBound(ps[0], name, st, ctx);
      BoundMore(st.rules, kv, values, r.0.rules, k, r.1, rule);
      var rest := RulesOf(ps[1..], name, r.0, ctx);
      hide AllBound;
      PropertiesBound(ps[1..], name, kv[k := r.1], r.0, ctx, values[k := rule]);
      OneMerged(values, k, rule, rest);
    }
  }

  lemma {:induction false} OneMerged(values: map<string, string>, k: string, rule: string, rest: map<string, string>)
    ensures values[k := rule] + rest == values + (map[k := rule] + rest)
  {
  }

  lemma {:induction false} Merged(a: map<string, string>, b: map<string, string>, c: map<string, string>)
    ensures a + b + c == a + (b + c) && a + map[] == a && map[] + a == a
  {
  }

  // The state after the properties, and the rule of the values of additional keys.
  function AfterProps(s: Schema, name: string, st: CState, ctx: Context): CState {
    if s.properties.Listed? then VisitProperties(s.properties.list, name, map[], st, ctx).0 else st
  }

  function ExtraRule(s: Schema, name: string, st: CState, ctx: Context): Option<string> {
    var st1 := AfterProps(s, name, st, ctx);
    match s.additional
    case Extra(sub) => Some(Visit(sub, Under(name, "additional") + "-value", st1, ctx).1)
    case Flag(allowed) => if allowed then Some(AddBuiltin(st1, "value", ValueRule()).1) else None
    case Absent => None
  }

  // ---------- the pairs of an object schema ----------

  // The key rule of the additional pairs.
  lemma {:induction false} ExtraKeyRule(g: Rules, ps: seq<Property>, subName: string, st: CState, k: string)
    requires Extends(g, ExtraKey(ps, subName, st).0.rules) && HasSpaceRule(g) && NotStrings.HasCharRule(g)
    ensures Accepts(g, Ref(ExtraKey(ps, subName, st).1), k) <==> ExtraKeyText(PropertyNames(ps), k)
  {
    hide Accepts, AddDeps, ExtraKeyText, NotStrings.NotStringsExpr;
    AcceptsRef(g, ExtraKey(ps, subName, st).1, k);
    if ps == [] {
      assert PropertyNames(ps) == [];
      AnyKeyExact(g, k);
    } else {
      OtherKeyExact(g, PropertyNames(ps), k);
    }
  }

  lemma {:induction false} ExtraBound(s: Schema, additional: Additional, ps: seq<Property>, name: string, st: CState, ctx: Context)
    requires additional == s.additional && AllowsExtra(s)
    ensures var r := VisitExtra(s, additional, ps, name, st, ctx);
            var value := if additional.Extra? then Visit(additional.sub, Under(name, "additional") + "-value", st, ctx) else AddBuiltin(st, "value", ValueRule());
            var key := ExtraKey(ps, Under(name, "additional"), value.0);
            r.1 in r.0.rules && r.0.rules[r.1] == ExtraKvExpr(key.1, value.1) && Extends(r.0.rules, key.0.rules)
  {
    hide Visit, ExtraKey, ExtraKvExpr, AddBuiltin, Under;
  }

  lemma {:induction false} ExtraFaithful(g: Rules, s: Schema, ps: seq<Property>, name: string, st: CState, ctx: Context, st1: CState, t: string)
    requires ps == PropertiesOf(s) && AllowsExtra(s) && st1 == AfterProps(s, name, st, ctx)
    requires Extends(g, VisitExtra(s, s.additional, ps, name, st1, ctx).0.rules) && HasSpaceRule(g) && NotStrings.HasCharRule(g)
    ensures ExtraRule(s, name, st, ctx).Some?
    ensures Accepts(g, Ref(VisitExtra(s, s.additional, ps, name, st1, ctx).1), t)
            <==> ExtraText(g, PropertyNames(ps), ExtraRule(s, name, st, ctx).value, t)
  {
    hide Accepts, Visit, ExtraKey, ExtraKvExpr, AddBuiltin, Under, VisitExtra, AfterProps;
    var r := VisitExtra(s, s.additional, ps, name, st1, ctx);
    ExtraBound(s, s.additional, ps, name, st1, ctx);
    var sub := Under(name, "additional");
    var value := if s.additional.Extra? then Visit(s.additional.sub, sub + "-value", st1, ctx) else AddBuiltin(st1, "value", ValueRule());
    var key := ExtraKey(ps, sub, value.0);
    AcceptsRef(g, r.1, t);
    forall k: string ensures Accepts(g, Ref(key.1), k) <==> ExtraKeyText(PropertyNames(ps), k) { ExtraKeyRule(g, ps, sub, value.0, k); }
    hide ExtraKeyText;
    ExtraExact(g, key.1, PropertyNames(ps), value.1, t);
    hide ExtraText;
  }

  lemma {:induction false} PropsBound(s: Schema, ps: seq<Property>, name: string, st: CState, ctx: Context)
    requires ps == PropertiesOf(s)
    ensures var r := VisitProps(s, ps, name, st, ctx); AllBound(r.0.rules, r.1, RulesOf(ps, name, st, ctx)) && r.0 == AfterProps(s, name, st, ctx)
  {
    hide VisitProperties, Keys, RulesOf;
    PropertiesBound(ps, name, map[], st, ctx, map[]);
    Merged(RulesOf(ps, name, st, ctx), map[], map[]);
    if !s.properties.Listed? { NoRules(name, st, ctx); }
  }

  lemma {:induction false} NoRules(name: string, st: CState, ctx: Context)
    ensures RulesOf([], name, st, ctx) == map[]
  {
  }

  lemma {:induction false} PairsFaithful(g: Rules, s: Schema, ps: seq<Property>, name: string, st: CState, ctx: Context)
    requires ps == PropertiesOf(s)
    requires Extends(g, VisitPairs(s, ps, name, st, ctx).0.rules) && HasSpaceRule(g) && (AllowsExtra(s) ==> NotStrings.HasCharRule(g))
    ensures Faithful(g, PropertyNames(ps), RulesOf(ps, name, st, ctx), ExtraRule(s, name, st, ctx), VisitPairs(s, ps, name, st, ctx).1)
    ensures ExtraRule(s, name, st, ctx).Some? <==> AllowsExtra(s)
  {
    hide Accepts, VisitProps, VisitExtra, Keys, RulesOf, PropertyNames, PropertiesOf, Visit, AddBuiltin, Under;
    PropsBound(s, ps, name, st, ctx);
    var r := VisitProps(s, ps, name, st, ctx);
    var values, extra, kv := RulesOf(ps, name, st, ctx), ExtraRule(s, name, st, ctx), VisitPairs(s, ps, name, st, ctx).1;
    forall k, t: string | k in kv ensures Accepts(g, ObjectRule.Kv(kv, k), t) <==> SlotText(g, PropertyNames(ps), values, extra, k, t) {
      if AllowsExtra(s) && k == ObjectRule.STAR {
        ExtraFaithful(g, s, ps, name, st, ctx, r.0, t);
      } else {
        KvExact(g, r.0.rules, r.1, k, values[k], t);
      }
      hide PairText, ExtraText;
    }
  }

  // ---------- object schemas ----------

  lemma {:induction false} ObjectMeans(g: Rules, s: Schema, ps: seq<Property>, name: string, st: CState, ctx: Context, t: string)
    requires ps == PropertiesOf(s)
    requires Extends(g, VisitObject(s, ps, name, st, ctx).0.rules) && HasSpaceRule(g) && (AllowsExtra(s) ==> NotStrings.HasCharRule(g))
    ensures Accepts(g, VisitObject(s, ps, name, st, ctx).1, t)
            <==> ObjectOf(g, PropertyNames(ps), s.required, RulesOf(ps, name, st, ctx), ExtraRule(s, name, st, ctx), t)
  {
    hide Accepts, VisitPairs, Keys, RulesOf, PropertyNames, PropertiesOf, ExtraRule, Object, ObjectOf, Faithful;
    var r := VisitPairs(s, ps, name, st, ctx);
    var extra := ExtraRule(s, name, st, ctx);
    ObjectExtends(r.0, name, r.1, ps, s.required, if AllowsExtra(s) then [ObjectRule.STAR] else []);
    PairsFaithful(g, s, ps, name, st, ctx);
    BuiltExact(g, ps, s.required, RulesOf(ps, name, st, ctx), extra, r.0, name, r.1, t);
  }

  lemma {:induction false} ObjectExtends(st: CState, name: string, kv: ObjectRule.KvNames, ps: seq<Property>, required: set<string>, extra: seq<string>)
    requires Keys(ps) <= kv.Keys && ObjectRule.Named(kv, extra)
    ensures Extends(Object(st, name, kv, ps, required, extra).0.rules, st.rules)
  {
    hide Keys;
  }

  lemma {:induction false} AddedAccepts(g: Rules, st: CState, name: string, e: Expr, t: string)
    requires Extends(g, Add(st, name, e).0.rules)
    ensures Extends(g, st.rules) && (Accepts(g, Ref(Add(st, name, e).1), t) <==> Accepts(g, e, t))
  {
    AcceptsRef(g, Add(st, name, e).1, t);
    hide Accepts;
  }

  // Main result: a schema that is visited as an object accepts exactly the objects with the required keys as
  // they are listed, then an ordered choice of the other listed keys, then additional ones if allowed, each
  // value accepted by the rule its own sub-schema was visited to.
  lemma {:induction false} ObjectSchemaMeans(g: Rules, s: Schema, ty: Option<string>, name: string, st: CState, ctx: Context, t: string)
    requires s.constant.None? && s.enumerated.None? && IsObject(s, ty)
    requires Extends(g, VisitAs(s, ty, name, st, ctx).0.rules) && HasSpaceRule(g) && (AllowsExtra(s) ==> NotStrings.HasCharRule(g))
    ensures Accepts(g, Ref(VisitAs(s, ty, name, st, ctx).1), t)
            <==> ObjectOf(g, PropertyNames(PropertiesOf(s)), s.required, RulesOf(PropertiesOf(s), name, st, ctx), ExtraRule(s, name, st, ctx), t)
  {
    hide Accepts, VisitObject, RulesOf, PropertyNames, PropertiesOf, ExtraRule, ObjectOf, Add, RuleName;
    var r := VisitObject(s, PropertiesOf(s), name, st, ctx);
    AddedAccepts(g, r.0, RuleName(name), r.1, t);
    ObjectMeans(g, s, PropertiesOf(s), name, st, ctx, t);
  }

  // ---------- the merged object of "allOf" ----------

  function MemberRules(c: Schema, name: string, kv: ObjectRule.KvNames, st: CState, ctx: Context): map<string, string> {
    var m := Follow(c, ctx.refs);
    if m.Found? && m.sub.properties.Listed? then RulesOf(m.sub.properties.list, name, st, Via(ctx, m.last)) else map[]
  }

  function MembersRules(cs: seq<Schema>, name: string, kv: ObjectRule.KvNames, st: CState, ctx: Context): map<string, string>
    requires !MembersRevisit(cs, ctx)
    decreases |cs|
  {
    if cs == [] then map[]
    else
      var r := VisitMember(cs[0], name, kv, st, ctx);
      MemberRules(cs[0], name, kv, st, ctx) + MembersRules(cs[1..], name, r.1, r.0, ctx)
  }

  function PartRules(p: Part, name: string, kv: ObjectRule.KvNames, st: CState, ctx: Context): map<string, string>
    requires !MembersRevisit(Members(p), ctx)
  {
    match p
    case Must(sub) => MemberRules(sub, name, kv, st, ctx)
    case May(subs) => MembersRules(subs, name, kv, st, ctx)
  }

  // For each key of the members the rule of the last property with it.
  function PartsRules(parts: seq<Part>, name: string, kv: ObjectRule.KvNames, st: CState, ctx: Context): map<string, string>
    requires !PartsRevisit(parts, ctx)
    decreases |parts|
  {
    if parts == [] then map[]
    else
      var r := VisitPart(parts[0], name, kv, st, ctx);
      PartRules(parts[0], name, kv, st, ctx) + PartsRules(parts[1..], name, r.1, r.0, ctx)
  }

  lemma {:induction false} MemberBound(c: Schema, name: string, kv: ObjectRule.KvNames, st: CState, ctx: Context, values: map<string, string>)
    requires !Revisits(c, ctx) && AllBound(st.rules, kv, values)
    ensures var r := VisitMember(c, name, kv, st, ctx); AllBound(r.0.rules, r.1, values + MemberRules(c, name, kv, st, ctx))
  {
    hide VisitProperties, VisitMember, Follow, Revisits, Via, Keys, RulesOf, AllBound;
    var m := Follow(c, ctx.refs);
    MemberStep(c, name, kv, st, ctx);
    if m.Found? && m.sub.properties.Listed? {
      PropertiesBound(m.sub.properties.list, name, kv, st, Via(ctx, m.last), values);
    } else {
      Merged(values, map[], map[]);
    }
  }

  lemma {:induction false} MembersBound(cs: seq<Schema>, name: string, kv: ObjectRule.KvNames, st: CState, ctx: Context, values: map<string, string>)
    requires !MembersRevisit(cs, ctx) && AllBound(st.rules, kv, values)
    ensures var r := VisitMembers(cs, name, kv, st, ctx); AllBound(r.0.rules, r.1, values + MembersRules(cs, name, kv, st, ctx))
    decreases |cs|
  {
    hide VisitMember, MemberRules, Revisits, Keys, AllBound;
    if cs == [] {
      Merged(values, map[], map[]);
    } else {
      var r := VisitMember(cs[0], name, kv, st, ctx);
      var first, rest := MemberRules(cs[0], name, kv, st, ctx), MembersRules(cs[1..], name, r.1, r.0, ctx);
      MemberBound(cs[0], name, kv, st, ctx, values);
      MembersBound(cs[1..], name, r.1, r.0, ctx, values + first);
      Merged(values, first, rest);
    }
  }

  lemma {:induction false} PartBound(p: Part, name: string, kv: ObjectRule.KvNames, st: CState, ctx: Context, values: map<string, string>)
    requires !MembersRevisit(Members(p), ctx) && AllBound(st.rules, kv, values)
    ensures var r := VisitPart(p, name, kv, st, ctx); AllBound(r.0.rules, r.1, values + PartRules(p, name, kv, st, ctx))
  {
    hide VisitMember, VisitMembers, MemberRules, MembersRules, Revisits, Keys, AllBound;
    match p
    case Must(sub) => assert Members(p)[0] == sub; MemberBound(sub, name, kv, st, ctx, values);
    case May(subs) => MembersBound(subs, name, kv, st, ctx, values);
  }

  lemma {:induction false} PartsBound(parts: seq<Part>, name: string, kv: ObjectRule.KvNames, st: CState, ctx: Context, values: map<string, string>)
    requires !PartsRevisit(parts, ctx) && AllBound(st.rules, kv, values)
    ensures var r := VisitParts(parts, name, kv, st, ctx); AllBound(r.0.rules, r.1, values + PartsRules(parts, name, kv, st, ctx))
    decreases |parts|
  {
    hide VisitPart, PartRules, MembersRevisit, Keys, AllBound;
    if parts == [] {
      Merged(values, map[], map[]);
    } else {
      var r := VisitPart(parts[0], name, kv, st, ctx);
      var first, rest := PartRules(parts[0], name, kv, st, ctx), PartsRules(parts[1..], name, r.1, r.0, ctx);
      PartBound(parts[0], name, kv, st, ctx, values);
      PartsBound(parts[1..], name, r.1, r.0, ctx, values + first);
      Merged(values, first, rest);
    }
  }

  // The members of all parts, and the keys listed by the schemas their references lead to.
  function AllMembers(parts: seq<Part>): seq<Schema> { if parts == [] then [] else Members(parts[0]) + AllMembers(parts[1..]) }

  function ListedBy(c: Schema, refs: Refs): seq<string> {
    var m := Follow(c, refs);
    if m.Found? && m.sub.properties.Listed? then PropertyNames(m.sub.properties.list) else []
  }

  function ListedByAll(cs: seq<Schema>, refs: Refs): seq<string> {
    if cs == [] then [] else ListedBy(cs[0], refs) + ListedByAll(cs[1..], refs)
  }

  // Some member that must hold lists the key.
  ghost predicate HeldBy(parts: seq<Part>, refs: Refs, k: string) {
    exists i :: 0 <= i < |parts| && parts[i].Must? && k in ListedBy(parts[i].sub, refs)
  }

  lemma {:induction false} NamesConcat(a: seq<Property>, b: seq<Property>)
    ensures PropertyNames(a + b) == PropertyNames(a) + PropertyNames(b)
  {
  }

  lemma {:induction false} ListedConcat(a: seq<Schema>, b: seq<Schema>, refs: Refs)
    ensures ListedByAll(a + b, refs) == ListedByAll(a, refs) + ListedByAll(b, refs)
  {
    hide ListedBy;
    if a == [] {
      assert a + b == b;
    } else {
      assert (a + b)[0] == a[0] && (a + b)[1..] == a[1..] + b;
      ListedConcat(a[1..], b, refs);
      Assoc(ListedBy(a[0], refs), ListedByAll(a[1..], refs), ListedByAll(b, refs));
    }
  }

  lemma {:induction false} MemberListed(c: Schema, refs: Refs)
    ensures PropertyNames(MemberProperties(c, refs)) == ListedBy(c, refs)
  {
    hide Follow;
  }

  lemma {:induction false} MembersListed(cs: seq<Schema>, refs: Refs)
    ensures PropertyNames(MembersProperties(cs, refs)) == ListedByAll(cs, refs)
  {
    hide ListedBy, MemberProperties, PropertyNames;
    if cs == [] {
      NoNames();
    } else {
      MemberListed(cs[0], refs);
      MembersListed(cs[1..], refs);
      NamesConcat(MemberProperties(cs[0], refs), MembersProperties(cs[1..], refs));
    }
  }

  lemma {:induction false} NoNames()
    ensures PropertyNames([]) == []
  {
  }

  lemma {:induction false} PartsListed(parts: seq<Part>, refs: Refs)
    ensures PropertyNames(PartsProperties(parts, refs)) == ListedByAll(AllMembers(parts), refs)
  {
    hide ListedBy, MemberProperties, PropertyNames;
    if parts == [] {
      NoNames();
    } else {
      var p := parts[0];
      if p.Must? {
        MemberListed(p.sub, refs);
        assert [p.sub][1..] == [] && ListedByAll([p.sub], refs) == ListedBy(p.sub, refs) + [];
      } else {
        MembersListed(p.subs, refs);
      }
      PartsListed(parts[1..], refs);
      NamesConcat(PartProperties(p, refs), PartsProperties(parts[1..], refs));
      ListedConcat(Members(p), AllMembers(parts[1..]), refs);
    }
  }

  lemma {:induction false} KeysAreNames(ps: seq<Property>, k: string)
    ensures k in Keys(ps) <==> k in PropertyNames(ps)
  {
    if ps != [] {
      KeysAreNames(ps[1..], k);
      assert PropertyNames(ps) == [ps[0].key] + PropertyNames(ps[1..]);
    }
  }

  lemma {:induction false} RequiredHeld(parts: seq<Part>, refs: Refs, k: string)
    ensures k in PartsRequired(parts, refs) <==> HeldBy(parts, refs, k)
  {
    hide MemberProperties, ListedBy, Keys, PropertyNames;
    if parts != [] {
      var rest := parts[1..];
      RequiredHeld(rest, refs, k);
      if parts[0].Must? {
        MemberListed(parts[0].sub, refs);
        KeysAreNames(MemberProperties(parts[0].sub, refs), k);
      }
      if HeldBy(rest, refs, k) {
        var i :| 0 <= i < |rest| && rest[i].Must? && k in ListedBy(rest[i].sub, refs);
        assert parts[i + 1] == rest[i];
      }
      if i :| 0 <= i < |parts| && parts[i].Must? && k in ListedBy(parts[i].sub, refs) {
        if i > 0 { assert rest[i - 1] == parts[i]; }
      }
    }
  }

  lemma {:induction false} PartsFaithful(g: Rules, keys: seq<string>, parts: seq<Part>, name: string, st: CState, ctx: Context)
    requires !PartsRevisit(parts, ctx) && Extends(g, VisitParts(parts, name, map[], st, ctx).0.rules) && HasSpaceRule(g)
    ensures Faithful(g, keys, PartsRules(parts, name, map[], st, ctx), None, VisitParts(parts, name, map[], st, ctx).1)
  {
    hide Accepts, VisitParts, PartsRules, PartsRevisit, PairText, Keys;
    PartsBound(parts, name, map[], st, ctx, map[]);
    var r, values := VisitParts(parts, name, map[], st, ctx), PartsRules(parts, name, map[], st, ctx);
    Merged(values, map[], map[]);
    forall k, t: string | k in r.1 ensures Accepts(g, ObjectRule.Kv(r.1, k), t) <==> SlotText(g, keys, values, None, k, t) {
      KvExact(g, r.0.rules, r.1, k, values[k], t);
    }
  }

  // An "allOf" without shared constants is one object: the keys all members list, those of members that
  // must hold required, each value as the last member that lists its key has it.
  lemma {:induction false} MergedMeans(g: Rules, s: Schema, parts: seq<Part>, required: set<string>, name: string, st: CState, ctx: Context, t: string)
    requires s.allOf == Together(parts) && !PartsLoop(parts, ctx.refs) && SharedEnum(parts, ctx.refs) == [] && !PartsRevisit(parts, ctx)
    requires forall k :: k in required <==> HeldBy(parts, ctx.refs, k)
    requires Extends(g, VisitAllOf(s, s.allOf, name, st, ctx).0.rules) && HasSpaceRule(g)
    ensures Accepts(g, VisitAllOf(s, s.allOf, name, st, ctx).1, t)
            <==> ObjectOf(g, ListedByAll(AllMembers(parts), ctx.refs), required, PartsRules(parts, name, map[], st, ctx), None, t)
  {
    hide Accepts, VisitParts, Keys, SharedEnum, PartsLoop, PartsRevisit, PartsProperties, PartsRequired, PartsRules, PropertyNames, Object, ObjectOf, Faithful,
      AllMembers, ListedByAll;
    var r, ps := VisitParts(parts, name, map[], st, ctx), PartsProperties(parts, ctx.refs);
    PartsListed(parts, ctx.refs);
    forall k ensures k in PartsRequired(parts, ctx.refs) <==> k in required { RequiredHeld(parts, ctx.refs, k); }
    assert PartsRequired(parts, ctx.refs) == required;
    ObjectExtends(r.0, name, r.1, ps, required, []);
    PartsFaithful(g, PropertyNames(ps), parts, name, st, ctx);
    BuiltExact(g, ps, required, PartsRules(parts, name, map[], st, ctx), None, r.0, name, r.1, t);
  }
}
