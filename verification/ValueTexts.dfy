/** The built-in rules "value", "object" and "array" accept exactly the JSON values. */
module ValueTexts {
  import opened Basics
  import opened Gbnf
  import opened RuleStore
  import opened Primitives
  import opened ObjectTexts
  import opened SchemaObjects
  import opened SchemaChoices
  import opened PrimitiveTexts
  import NotStrings

  // ---------- JSON values ----------

  ghost predicate NumberSpaced(t: string) { exists x, sp :: t == x + sp && NumberText(x) && SpaceText(sp) }

  ghost predicate ScalarText(t: string) { StringText(t) || NumberSpaced(t) || OneOf(["true", "false"], t) || OneOf(["null"], t) }

  // A scalar, a list of values or an object of members; white space may follow.
  ghost predicate ValueText(t: string)
    decreases |t|
  {
    ScalarText(t) || (exists texts :: ListOf(t, texts)) || (exists texts :: ObjectWith(t, texts))
  }

  ghost predicate ListOf(t: string, texts: seq<string>)
    decreases |t|, 0
  {
    ListText(texts, t) && forall i :: 0 <= i < |texts| ==> |texts[i]| < |t| && ValueText(texts[i])
  }

  ghost predicate ObjectWith(t: string, texts: seq<string>)
    decreases |t|, 0
  {
    Braced(texts, t) && forall i :: 0 <= i < |texts| ==> |texts[i]| < |t| && MemberText(texts[i])
  }

  // A string, a colon and a value.
  ghost predicate MemberText(t: string)
    decreases |t|
  {
    exists k, b, v :: ExtraParts(t, k, b, v) && StringText(k) && |v| < |t| && ValueText(v)
  }

  ghost predicate ObjectText(t: string) { exists texts :: ObjectWith(t, texts) }

  ghost predicate ArrayText(t: string) { exists texts :: ListOf(t, texts) }

  // ---------- texts inside brackets ----------

  lemma {:induction false} JoinedLonger(texts: seq<string>, s: string, i: nat)
    requires Joined(texts, s) && i < |texts|
    ensures |texts[i]| <= |s|
    decreases |texts|
  {
    if |texts| > 1 {
      var sp, rest :| JoinedAs(texts, s, sp, rest);
      if i > 0 { JoinedLonger(texts[1..], rest, i - 1); }
    }
  }

  lemma {:induction false} InsideShorter(texts: seq<string>, t: string)
    requires ListText(texts, t) || Braced(texts, t)
    ensures forall i :: 0 <= i < |texts| ==> |texts[i]| < |t|
  {
    hide SpaceText, Joined;
    forall i | 0 <= i < |texts| ensures |texts[i]| < |t| {
      if ListText(texts, t) {
        var a, body, b :| Spaced(t, "[", a, body, "]", b) && Joined(texts, body);
        JoinedLonger(texts, body, i);
      } else {
        var a, body, b :| Spaced(t, "{", a, body, "}", b) && Joined(texts, body);
        JoinedLonger(texts, body, i);
      }
    }
  }

  lemma {:induction false} BetweenBrackets(g: Rules, open: string, e: Expr, close: string, s: string)
    requires HasSpaceRule(g)
    ensures Accepts(g, Cat5(Lit(open), Space(), e, Lit(close), Space()), s)
            <==> exists a, t, b :: Spaced(s, open, a, t, close, b) && Accepts(g, e, t)
  {
    hide Accepts, SpaceText;
    var end := Cat(Lit(close), Space());
    AfterLit(g, open, Cat(Space(), Cat(e, end)), s);
    if x :| s == open + x && Accepts(g, Cat(Space(), Cat(e, end)), x) {
      AfterSpace(g, Cat(e, end), x);
      var a, y :| x == a + y && SpaceText(a) && Accepts(g, Cat(e, end), y);
      var i := CatSplit(g, e, end, y);
      AfterLit(g, close, Space(), y[i..]);
      var b :| y[i..] == close + b && Accepts(g, Space(), b);
      SpaceExact(g, b);
      assert y == y[..i] + (close + b);
      assert Spaced(s, open, a, y[..i], close, b);
    }
    if a, t, b :| Spaced(s, open, a, t, close, b) && Accepts(g, e, t) {
      SpaceExact(g, b);
      AfterLit(g, close, Space(), close + b);
      CatJoin(g, e, end, t, close + b);
      AfterSpace(g, Cat(e, end), a + (t + (close + b)));
    }
  }

  lemma {:induction false} WithCommas(g: Rules, item: Expr, s: string)
    requires HasSpaceRule(g)
    ensures Accepts(g, CommaSeparated(item), s) <==> exists texts :: AllBy(g, item, texts) && Joined(texts, s)
  {
    hide Accepts, SpaceText, Joined, Space;
    var pair := Cat3(Lit(","), Space(), item);
    forall x: string ensures Accepts(g, pair, x) <==> exists sp, y :: x == "," + (sp + y) && SpaceText(sp) && Accepts(g, item, y) {
      AfterLit(g, ",", Cat(Space(), item), x);
      if t :| x == "," + t && Accepts(g, Cat(Space(), item), t) { AfterSpace(g, item, t); }
      if sp, y :| x == "," + (sp + y) && SpaceText(sp) && Accepts(g, item, y) { AfterSpace(g, item, sp + y); }
    }
    ItemAndMore(g, item, pair, 0, None, s);
    AcceptsOptional(g, Cat(item, Rep(pair, 0, None)), s);
    var none: seq<string> := [];
    NoTexts(s);
    if s == "" { assert AllBy(g, item, none) && Joined(none, s); }
  }

  // ---------- the rules ----------

  ghost predicate JsonRules(g: Rules) {
    && HasSpaceRule(g) && NotStrings.HasCharRule(g) && NumberRules(g) && Holds(g, "object", AnyObjectRule()) && Holds(g, "array", AnyArrayRule())
    && Holds(g, "value", ValueRule()) && Holds(g, "string", StringRule()) && Holds(g, "number", NumberRule()) && Holds(g, "boolean", BooleanRule())
    && Holds(g, "null", NullRule())
  }

  lemma {:induction false} ListRule(g: Rules, t: string)
    requires JsonRules(g)
    ensures Accepts(g, AnyArrayRule().content, t) <==> exists texts :: ListText(texts, t) && AllBy(g, Ref("value"), texts)
  {
    hide Accepts, SpaceText, Joined, CommaSeparated, JsonRules, AllBy;
    SpaceKept(g);
    var e := CommaSeparated(Ref("value"));
    BetweenBrackets(g, "[", e, "]", t);
    if a, x, b :| Spaced(t, "[", a, x, "]", b) && Accepts(g, e, x) {
      WithCommas(g, Ref("value"), x);
      var texts :| AllBy(g, Ref("value"), texts) && Joined(texts, x);
      assert ListText(texts, t);
    }
    if texts :| ListText(texts, t) && AllBy(g, Ref("value"), texts) {
      var a, x, b :| Spaced(t, "[", a, x, "]", b) && Joined(texts, x);
      WithCommas(g, Ref("value"), x);
    }
  }

  lemma {:induction false} SpaceKept(g: Rules)
    requires JsonRules(g)
    ensures HasSpaceRule(g)
  {
  }

  function MemberExpr(): Expr { Cat(Ref("string"), Cat3(Lit(":"), Space(), Ref("value"))) }

  lemma {:induction false} ObjectRuleExact(g: Rules, t: string)
    requires JsonRules(g)
    ensures Accepts(g, AnyObjectRule().content, t) <==> exists texts :: Braced(texts, t) && AllBy(g, MemberExpr(), texts)
  {
    hide Accepts, SpaceText, Joined, CommaSeparated, JsonRules, AllBy;
    SpaceKept(g);
    var e := CommaSeparated(MemberExpr());
    BetweenBrackets(g, "{", e, "}", t);
    if a, x, b :| Spaced(t, "{", a, x, "}", b) && Accepts(g, e, x) {
      WithCommas(g, MemberExpr(), x);
      var texts :| AllBy(g, MemberExpr(), texts) && Joined(texts, x);
      assert Braced(texts, t);
    }
    if texts :| Braced(texts, t) && AllBy(g, MemberExpr(), texts) {
      var a, x, b :| Spaced(t, "{", a, x, "}", b) && Joined(texts, x);
      WithCommas(g, MemberExpr(), x);
    }
  }

  lemma {:induction false} StringKept(g: Rules, t: string)
    requires JsonRules(g)
    ensures Accepts(g, Ref("string"), t) <==> StringText(t)
  {
    AcceptsRef(g, "string", t);
    hide Accepts, StringRule;
    StringExact(g, t);
  }

  lemma {:induction false} MemberExact(g: Rules, t: string)
    requires JsonRules(g)
    ensures Accepts(g, MemberExpr(), t) <==> exists k, b, v :: ExtraParts(t, k, b, v) && StringText(k) && Accepts(g, Ref("value"), v)
  {
    hide Accepts, SpaceText, JsonRules, StringText;
    SpaceKept(g);
    var tail := Cat(Space(), Ref("value"));
    AcceptsCat(g, Ref("string"), Cat(Lit(":"), tail), t);
    if i :| 0 <= i <= |t| && Accepts(g, Ref("string"), t[..i]) && Accepts(g, Cat(Lit(":"), tail), t[i..]) {
      StringKept(g, t[..i]);
      AfterLit(g, ":", tail, t[i..]);
      var x :| t[i..] == ":" + x && Accepts(g, tail, x);
      AfterSpace(g, Ref("value"), x);
      var b, v :| x == b + v && SpaceText(b) && Accepts(g, Ref("value"), v);
      assert t == t[..i] + t[i..];
      assert ExtraParts(t, t[..i], b, v);
    }
    if k, b, v :| ExtraParts(t, k, b, v) && StringText(k) && Accepts(g, Ref("value"), v) {
      StringKept(g, k);
      AfterSpace(g, Ref("value"), b + v);
      AfterLit(g, ":", tail, ":" + (b + v));
      CatJoin(g, Ref("string"), Cat(Lit(":"), tail), k, ":" + (b + v));
    }
  }

  lemma {:induction false} ValueCases(g: Rules, t: string)
    requires JsonRules(g)
    ensures Accepts(g, Ref("value"), t)
            <==> ScalarText(t) || Accepts(g, AnyObjectRule().content, t) || Accepts(g, AnyArrayRule().content, t)
  {
    hide StringText, NumberText, SpaceText, OneOf;
    var e := ValueRule().content;
    RefIs(g, "value", ValueRule(), t);
    hide Accepts;
    AcceptsAlt(g, e.left, e.right, t);
    AcceptsAlt(g, e.right.left, e.right.right, t);
    AcceptsAlt(g, e.right.right.left, e.right.right.right, t);
    AcceptsAlt(g, e.right.right.right.left, e.right.right.right.right, t);
    AcceptsAlt(g, Ref("boolean"), Ref("null"), t);
    hide AnyObjectRule, AnyArrayRule, StringRule, NumberRule, BooleanRule, NullRule, ValueRule, IntegralPartRule, DecimalPartRule;
    RefIs(g, "object", AnyObjectRule(), t);
    RefIs(g, "array", AnyArrayRule(), t);
    StringKept(g, t);
    RefIs(g, "number", NumberRule(), t);
    NumberExact(g, t);
    RefIs(g, "boolean", BooleanRule(), t);
    BooleanExact(g, t);
    RefIs(g, "null", NullRule(), t);
    NullExact(g, t);
  }

  lemma {:induction false} RefIs(g: Rules, name: string, b: Builtin, t: string)
    requires Holds(g, name, b)
    ensures Accepts(g, Ref(name), t) <==> Accepts(g, b.content, t)
  {
    AcceptsRef(g, name, t);
  }

  // Main result: the rule "value" accepts exactly the JSON values.
  lemma {:induction false} ValueExact(g: Rules, t: string)
    requires JsonRules(g)
    ensures Accepts(g, Ref("value"), t) <==> ValueText(t)
    decreases |t|
  {
    hide Accepts, JsonRules, ScalarText, ListText, Braced, MemberExpr, AnyObjectRule, AnyArrayRule;
    ValueCases(g, t);
    ListRule(g, t);
    ObjectRuleExact(g, t);
    forall texts | ListText(texts, t) ensures AllBy(g, Ref("value"), texts) <==> ListOf(t, texts) { ListsAgree(g, t, texts); }
    forall texts | Braced(texts, t) ensures AllBy(g, MemberExpr(), texts) <==> ObjectWith(t, texts) { ObjectsAgree(g, t, texts); }
    hide AllBy;
    if texts :| ListText(texts, t) && AllBy(g, Ref("value"), texts) { assert ListOf(t, texts); }
    if texts :| ListOf(t, texts) { assert AllBy(g, Ref("value"), texts); }
    if texts :| Braced(texts, t) && AllBy(g, MemberExpr(), texts) { assert ObjectWith(t, texts); }
    if texts :| ObjectWith(t, texts) { assert AllBy(g, MemberExpr(), texts); }
  }

  lemma {:induction false} ListsAgree(g: Rules, t: string, texts: seq<string>)
    requires JsonRules(g) && ListText(texts, t)
    ensures AllBy(g, Ref("value"), texts) <==> ListOf(t, texts)
    decreases |t|, 0
  {
    hide Accepts, JsonRules, ListText, ValueText;
    InsideShorter(texts, t);
    forall i | 0 <= i < |texts| ensures Accepts(g, Ref("value"), texts[i]) <==> ValueText(texts[i]) { ValueExact(g, texts[i]); }
  }

  lemma {:induction false} ObjectsAgree(g: Rules, t: string, texts: seq<string>)
    requires JsonRules(g) && Braced(texts, t)
    ensures AllBy(g, MemberExpr(), texts) <==> ObjectWith(t, texts)
    decreases |t|, 0
  {
    hide Accepts, JsonRules, Braced, MemberText, MemberExpr;
    InsideShorter(texts, t);
    forall i | 0 <= i < |texts| ensures Accepts(g, MemberExpr(), texts[i]) <==> MemberText(texts[i]) { MembersAgree(g, texts[i]); }
  }

  lemma {:induction false} MembersAgree(g: Rules, t: string)
    requires JsonRules(g)
    ensures Accepts(g, MemberExpr(), t) <==> MemberText(t)
    decreases |t|, 1
  {
    hide Accepts, JsonRules, StringText, ValueText, MemberExpr, SpaceText;
    MemberExact(g, t);
    if k, b, v :| ExtraParts(t, k, b, v) && StringText(k) && Accepts(g, Ref("value"), v) {
      assert |v| < |t|;
      ValueExact(g, v);
      assert ExtraParts(t, k, b, v) && StringText(k) && |v| < |t| && ValueText(v);
    }
    if k, b, v :| ExtraParts(t, k, b, v) && StringText(k) && |v| < |t| && ValueText(v) { ValueExact(g, v); }
  }

  // "object" accepts exactly the JSON objects, "array" exactly the JSON lists.
  lemma {:induction false} ContainersExact(g: Rules, t: string)
    requires JsonRules(g)
    ensures Accepts(g, Ref("object"), t) <==> ObjectText(t)
    ensures Accepts(g, Ref("array"), t) <==> ArrayText(t)
  {
    hide Accepts, ListText, Braced, MemberExpr, AnyObjectRule, AnyArrayRule, AllBy, ValueText, MemberText;
    RefIs(g, "object", AnyObjectRule(), t);
    RefIs(g, "array", AnyArrayRule(), t);
    ListRule(g, t);
    ObjectRuleExact(g, t);
    if texts :| ListText(texts, t) && AllBy(g, Ref("value"), texts) { ListsAgree(g, t, texts); }
    if texts :| ListOf(t, texts) { ListsAgree(g, t, texts); }
    if texts :| Braced(texts, t) && AllBy(g, MemberExpr(), texts) { ObjectsAgree(g, t, texts); }
    if texts :| ObjectWith(t, texts) { ObjectsAgree(g, t, texts); }
  }
}
