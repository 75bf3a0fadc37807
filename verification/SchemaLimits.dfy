/** Integer limits and patterns as a schema gives them. */
module SchemaLimits {
  import opened Basics
  import opened Gbnf
  import opened RuleStore
  import opened Primitives
  import opened ObjectTexts
  import opened Schema
  import opened SchemaChoices
  import IntRange
  import Pattern
  import PatternMeaning

  predicate IsRange(s: Schema, ty: Option<string>) {
    s.constant.None? && s.enumerated.None? && ty == Some("integer") && (s.minimum.Some? || s.maximum.Some?)
  }

  lemma {:induction false} AsRange(s: Schema, ty: Option<string>, name: string, st: CState, ctx: Context)
    requires IsRange(s, ty)
    ensures VisitAs(s, ty, name, st, ctx) == VisitInteger(s, name, st)
  {
    hide VisitUntyped, VisitObject, VisitItems, VisitAllOf, VisitPattern, VisitLength, VisitInteger, IsUuid, Format;
  }

  // With both limits: the numerals of the integers between them, and "-0" if they lie on both sides of 0.
  lemma {:induction false} RangeAccepts(g: Rules, s: Schema, ty: Option<string>, name: string, st: CState, ctx: Context, min: int, max: int, t: string)
    requires IsRange(s, ty) && s.minimum == Some(min) && s.maximum == Some(max) && -IntRange.INT64_MAX < min <= max < IntRange.INT64_MAX
    requires HasSpaceRule(g) && Extends(g, VisitAs(s, ty, name, st, ctx).0.rules)
    ensures VisitAs(s, ty, name, st, ctx).0.halts == st.halts
    ensures Accepts(g, Ref(VisitAs(s, ty, name, st, ctx).1), t)
            <==> exists x, sp :: t == x + sp && (IntRange.IsIntegerIn(x, min, max) || (x == "-0" && min < 0 <= max)) && SpaceText(sp)
  {
    hide Accepts, VisitAs, IntRange.MinMax, IntRange.IsIntegerIn, SpaceText, Add, RuleName;
    AsRange(s, ty, name, st, ctx);
    IntRange.TwoSidedExact(g, min, max, 16, true, t);
    var e := IntRange.MinMax(min, max, 16, true).value;
    AddedMeans(g, st, RuleName(name), Cat(e, Space()), t);
    ThenSpace(g, e, t);
    forall x: string ensures Accepts(g, e, x) <==> IntRange.IsIntegerIn(x, min, max) || (x == "-0" && min < 0 <= max) {
      IntRange.TwoSidedExact(g, min, max, 16, true, x);
    }
  }

  predicate HasPattern(s: Schema, ty: Option<string>) {
    s.constant.None? && s.enumerated.None? && !IsObject(s, ty) && !IsAllOf(s, ty) && !(Untyped(ty, "array") && !s.items.NoItems?)
    && Untyped(ty, "string") && s.pattern.Some?
  }

  lemma {:induction false} AsPattern(s: Schema, ty: Option<string>, name: string, st: CState, ctx: Context)
    requires HasPattern(s, ty)
    ensures VisitAs(s, ty, name, st, ctx) == VisitPattern(s.pattern.value, RuleName(name), ctx.dotall, st)
  {
    hide VisitUntyped, VisitObject, VisitItems, VisitAllOf, VisitPattern, VisitLength, VisitInteger, IsUuid, Format, RuleName;
  }

  // The pattern of a regular expression: the quoted strings it matches.
  lemma {:induction false} PatternAccepts(g: Rules, s: Schema, ty: Option<string>, name: string, st: CState, ctx: Context, r: Pattern.Regex, t: string)
    requires HasPattern(s, ty) && Pattern.RegexOk(r) && s.pattern == Some("^" + Pattern.PrintRegex(r) + "$")
    requires Extends(g, VisitAs(s, ty, name, st, ctx).0.rules)
    ensures VisitAs(s, ty, name, st, ctx).0.halts == st.halts
    ensures Accepts(g, Ref(VisitAs(s, ty, name, st, ctx).1), t) <==> PatternMeaning.QuotedMatch(g, ctx.dotall, r, t)
  {
    hide Accepts, VisitAs, Pattern.Translate, Pattern.PrintRegex, Pattern.RegexOk, PatternMeaning.QuotedMatch, RuleName, HasPattern;
    AsPattern(s, ty, name, st, ctx);
    PatternMeaning.TranslationExact(r, st.rules, Pattern.Config(RuleName(name), ctx.dotall), g, t);
  }
}
