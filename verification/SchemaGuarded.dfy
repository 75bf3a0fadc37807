/** The converter's own names: whatever the keys, types and patterns of a schema, a built-in rule without '-'
    in its name is never bound to anything else, and only a schema without a name takes "root". */
module SchemaGuarded {
  import opened Basics
  import opened Decimals
  import opened Gbnf
  import opened RuleStore
  import opened Primitives
  import opened Schema
  import NotStrings
  import ObjectRule
  import IntRange
  import Pattern

  // ---------- what a new rule may be called ----------

  predicate Plain(k: string) { k in BUILTINS && '-' !in k }

  predicate Fine(k: string, e: Expr, top: bool) {
    (k == "root" ==> top) && (Plain(k) ==> Known(k).Some? && e == Known(k).value.content)
  }

  // Only fine rules have been added.
  ghost predicate Guarded(before: Rules, after: Rules, top: bool) {
    Extends(after, before) && forall k :: k in after && k !in before ==> Fine(k, after[k], top)
  }

  lemma {:induction false} GuardStays(rules: Rules, top: bool)
    ensures Guarded(rules, rules, top)
  {
  }

  lemma {:induction false} GuardThen(a: Rules, b: Rules, c: Rules, top: bool)
    requires Guarded(a, b, top) && Guarded(b, c, top)
    ensures Guarded(a, c, top)
  {
    hide Fine;
  }

  lemma {:induction false} DashedFine(k: string, e: Expr, top: bool)
    requires '-' in k
    ensures Fine(k, e, top)
  {
  }

  lemma {:induction false} PlainEnds(k: string)
    requires k == "root" || k in BUILTINS
    ensures k != "" && !IsDigit(k[|k| - 1])
  {
    if k != "root" { assert k in BUILTIN_NAMES; }
  }

  lemma {:induction false} NumberedFine(base: string, i: nat, e: Expr, top: bool)
    ensures Fine(Numbered(base, i), e, top)
  {
    hide Known;
    DecimalCanonical(i);
    var k := Numbered(base, i);
    assert k[|k| - 1] == Decimal(i)[|Decimal(i)| - 1];
    if k == "root" || k in BUILTINS { PlainEnds(k); }
  }

  lemma {:induction false} DashOrClean(name: string)
    ensures '-' in EscapeName(name) || EscapeName(name) == name
  {
    AllOrDash(name);
    if forall i :: 0 <= i < |name| ==> IsNameChar(name[i]) { CleanName(name); }
  }

  lemma {:induction false} AllOrDash(name: string)
    ensures '-' in EscapeName(name) || forall i :: 0 <= i < |name| ==> IsNameChar(name[i])
  {
    if name != [] {
      AllOrDash(name[1..]);
      assert forall i :: 0 < i < |name| ==> name[i] == name[1..][i - 1];
    }
  }

  lemma {:induction false} DashStays(name: string)
    requires '-' in name
    ensures '-' in EscapeName(name)
  {
    DashOrClean(name);
  }

  lemma {:induction false} AddGuarded(rules: Rules, name: string, e: Expr, top: bool)
    requires Fine(EscapeName(name), e, top)
    ensures Guarded(rules, AddRule(rules, name, e).0, top)
  {
    hide Fine, EscapeName;
    var base := EscapeName(name);
    if !Available(rules, base, e) { NumberedFine(base, FirstAvailable(rules, base, e, 0), e, top); }
  }

  lemma {:induction false} AddDashed(rules: Rules, name: string, e: Expr, top: bool)
    requires '-' in name
    ensures Guarded(rules, AddRule(rules, name, e).0, top)
  {
    hide Fine;
    DashStays(name);
    DashedFine(EscapeName(name), e, top);
    AddGuarded(rules, name, e, top);
  }

  lemma {:induction false} UnreservedFine(name: string, e: Expr, top: bool)
    requires !Reserved(name) || (name == "root" && top)
    ensures Fine(EscapeName(name), e, top)
  {
    hide Known, EscapeName;
    DashOrClean(name);
    if name == "root" { RootPlain(); }
  }

  lemma {:induction false} RootPlain()
    ensures "root" !in BUILTINS && EscapeName("root") == "root"
  {
    CleanName("root");
  }

  lemma {:induction false} RuleFine(name: string, e: Expr, top: bool)
    requires name != "" || top
    ensures Fine(EscapeName(RuleName(name)), e, top)
  {
    hide Fine, EscapeName;
    if Reserved(name) {
      DashStays(name + "-");
      DashedFine(EscapeName(name + "-"), e, top);
    } else {
      UnreservedFine(if name == "" then "root" else name, e, top);
    }
  }

  lemma {:induction false} AddNamed(rules: Rules, name: string, e: Expr, top: bool)
    requires name != "" || top
    ensures Guarded(rules, AddRule(rules, RuleName(name), e).0, top)
  {
    hide Fine, EscapeName, RuleName;
    RuleFine(name, e, top);
    AddGuarded(rules, RuleName(name), e, top);
  }

  // ---------- built-in rules ----------

  lemma {:induction false} KnownFine(name: string, b: Builtin, top: bool)
    requires name != "root" && (Plain(name) ==> Known(name) == Some(b))
    ensures Fine(EscapeName(name), b.content, top)
  {
    hide Known, EscapeName;
    DashOrClean(name);
  }

  lemma {:induction false} BuiltinGuarded(rules: Rules, name: string, b: Builtin, top: bool)
    requires Fine(EscapeName(name), b.content, top)
    ensures Guarded(rules, AddPrimitive(rules, name, b).0, top)
    decreases |BUILTINS - rules.Keys - {EscapeName(name)}|, 1, 0
  {
    hide Fine, Known;
    var r := AddRule(rules, name, b.content);
    FewerLeft(BUILTINS - r.0.Keys, BUILTINS - rules.Keys - {EscapeName(name)});
    AddGuarded(rules, name, b.content, top);
    DepsGuarded(r.0, b.deps, top);
    hide Guarded;
    GuardThen(rules, r.0, AddDeps(r.0, b.deps), top);
  }

  lemma {:induction false} DepsGuarded(rules: Rules, deps: seq<string>, top: bool)
    ensures Guarded(rules, AddDeps(rules, deps), top)
    decreases |BUILTINS - rules.Keys|, 0, |deps|
  {
    hide Fine, Known;
    if deps == [] {
      GuardStays(rules, top);
    } else {
      var rules1 := AddDep(rules, deps[0], |deps|);
      DepGuarded(rules, deps[0], |deps|, top);
      FewerLeft(BUILTINS - rules1.Keys, BUILTINS - rules.Keys);
      DepsGuarded(rules1, deps[1..], top);
      hide Guarded;
      GuardThen(rules, rules1, AddDeps(rules1, deps[1..]), top);
    }
  }

  lemma {:induction false} DepGuarded(rules: Rules, dep: string, left: nat, top: bool)
    requires left > 0
    ensures Guarded(rules, AddDep(rules, dep, left), top)
    decreases |BUILTINS - rules.Keys|, 0, left - 1
  {
    hide Fine, Known, Guarded;
    if dep in rules || Known(dep).None? {
      GuardStays(rules, top);
    } else {
      KnownNames(dep);
      RootPlain();
      BuiltinNameClean(dep);
      FewerLeft(BUILTINS - rules.Keys - {dep}, BUILTINS - rules.Keys);
      KnownFine(dep, Known(dep).value, top);
      BuiltinGuarded(rules, dep, Known(dep).value, top);
    }
  }

  lemma {:induction false} OwnGuarded(st: CState, name: string, b: Builtin, top: bool)
    requires name != "root" && Known(name) == Some(b)
    ensures Guarded(st.rules, AddBuiltin(st, name, b).0.rules, top)
  {
    hide Fine, Known, Guarded, AddDeps;
    KnownFine(name, b, top);
    BuiltinGuarded(st.rules, name, b, top);
  }

  // ---------- patterns ----------

  lemma {:induction false} SubRuleGuarded(st: Pattern.PState, name: string, e: Expr, top: bool)
    ensures Guarded(st.rules, Pattern.SubRule(st, name, e).0.rules, top)
  {
    hide Fine, Guarded, AddRule;
    if e in st.subIds {
      GuardStays(st.rules, top);
    } else {
      var part := name + "-" + Decimal(|st.subIds| + 1);
      assert part[|name|] == '-';
      AddDashed(st.rules, part, e, top);
    }
  }

  lemma {:induction false} RepeatedGuarded(st: Pattern.PState, name: string, it: Pattern.Item, top: bool)
    requires !it.Bar?
    ensures Guarded(st.rules, Pattern.Repeated(st, name, it).0.rules, top)
  {
    hide Guarded, Pattern.SubRule;
    if it.Literal? { GuardStays(st.rules, top); } else { SubRuleGuarded(st, name, it.e, top); }
  }

  ghost predicate LoopFine(before: Rules, o: Pattern.Outcome, top: bool) { o.Done? ==> Guarded(before, o.st.rules, top) }

  lemma {:induction false} LoopGuarded(p: string, i: nat, items: seq<Pattern.Item>, st: Pattern.PState, cfg: Pattern.Config, top: bool)
    requires i <= |p|
    ensures LoopFine(st.rules, Pattern.Loop(p, i, items, st, cfg), top)
    decreases |p| - i, 1
  {
    hide Guarded, Pattern.Repeated, Pattern.BuildRepetition, Pattern.ReadBounds, Pattern.JoinSeq, Pattern.LiteralEnd;
    GuardStays(st.rules, top);
    if i < |p| {
      var c := p[i];
      if c == '.' {
        DotGuarded(p, i, items, st, cfg, top);
      } else if c == '(' {
        GroupGuarded(p, i, items, st, cfg, top);
      } else if c == '{' {
        CurlyGuarded(p, i, items, st, cfg, top);
      } else {
        OtherGuarded(p, i, items, st, cfg, top);
      }
    }
  }

  lemma {:induction false} OtherGuarded(p: string, i: nat, items: seq<Pattern.Item>, st: Pattern.PState, cfg: Pattern.Config, top: bool)
    requires i < |p| && p[i] != '.' && p[i] != '(' && p[i] != '{'
    ensures LoopFine(st.rules, Pattern.Loop(p, i, items, st, cfg), top)
    decreases |p| - i, 0
  {
    hide Guarded, Pattern.Loop, Pattern.JoinSeq, Pattern.LiteralEnd, Pattern.Postfix, Pattern.CanRepeat;
    Pattern.AtOther(p, i, items, st, cfg);
    GuardStays(st.rules, top);
    var c := p[i];
    if c == ')' {
    } else if c == '|' {
      LoopGuarded(p, i + 1, items + [Pattern.Bar], st, cfg, top);
    } else if c == '*' || c == '+' || c == '?' {
      if Pattern.CanRepeat(items) { LoopGuarded(p, i + 1, Pattern.Postfix(items, c), st, cfg, top); }
    } else if c == '[' || c == '\\' || c == '"' || c == ']' || c == '}' {
    } else {
      var k := Pattern.LiteralEnd(p, i, i + 1);
      LoopGuarded(p, k, items + [Pattern.Literal(p[i..k])], st, cfg, top);
    }
  }

  lemma {:induction false} DotGuarded(p: string, i: nat, items: seq<Pattern.Item>, st: Pattern.PState, cfg: Pattern.Config, top: bool)
    requires i < |p| && p[i] == '.'
    ensures LoopFine(st.rules, Pattern.Loop(p, i, items, st, cfg), top)
    decreases |p| - i, 0
  {
    hide Guarded, Fine, Pattern.Loop, AddRule, Pattern.DotRule, Reserved;
    Pattern.AtOther(p, i, items, st, cfg);
    var r := AddRule(st.rules, "dot", Pattern.DotRule(cfg.dotall));
    DotFree();
    UnreservedFine("dot", Pattern.DotRule(cfg.dotall), top);
    AddGuarded(st.rules, "dot", Pattern.DotRule(cfg.dotall), top);
    LoopGuarded(p, i + 1, items + [Pattern.Rule(Ref(r.1))], st.(rules := r.0), cfg, top);
    GuardAfter(st.rules, r.0, Pattern.Loop(p, i, items, st, cfg), top);
  }

  lemma {:induction false} DotFree()
    ensures !Reserved("dot")
  {
  }

  lemma {:induction false} GuardAfter(a: Rules, b: Rules, o: Pattern.Outcome, top: bool)
    requires Guarded(a, b, top) && LoopFine(b, o, top)
    ensures LoopFine(a, o, top)
  {
    hide Guarded;
    if o.Done? { GuardThen(a, b, o.st.rules, top); }
  }

  lemma {:induction false} GroupGuarded(p: string, i: nat, items: seq<Pattern.Item>, st: Pattern.PState, cfg: Pattern.Config, top: bool)
    requires i < |p| && p[i] == '('
    ensures LoopFine(st.rules, Pattern.Loop(p, i, items, st, cfg), top)
    decreases |p| - i, 0
  {
    hide Guarded;
    var inner := Pattern.Loop(p, i + 1, [], st, cfg);
    LoopGuarded(p, i + 1, [], st, cfg, top);
    if inner.Done? {
      LoopGuarded(p, inner.i, items + [Pattern.Rule(inner.e)], inner.st, cfg, top);
      GuardAfter(st.rules, inner.st.rules, Pattern.Loop(p, i, items, st, cfg), top);
    }
  }

  lemma {:induction false} CurlyGuarded(p: string, i: nat, items: seq<Pattern.Item>, st: Pattern.PState, cfg: Pattern.Config, top: bool)
    requires i < |p| && p[i] == '{'
    ensures LoopFine(st.rules, Pattern.Loop(p, i, items, st, cfg), top)
    decreases |p| - i, 0
  {
    hide Guarded, Pattern.Loop, Pattern.ReadBounds, Pattern.Repeated, Pattern.BuildRepetition;
    Pattern.AtCurly(p, i, items, st, cfg);
    var k := Pattern.Find(p, '}', i + 1);
    if k < |p| && Pattern.CanRepeat(items) && Pattern.ReadBounds(p[i + 1..k]).Some? {
      var b := Pattern.ReadBounds(p[i + 1..k]).value;
      var r := Pattern.Repeated(st, cfg.name, Pattern.Last(items));
      RepeatedGuarded(st, cfg.name, Pattern.Last(items), top);
      LoopGuarded(p, k + 1, Pattern.SetLast(items, Pattern.BuildRepetition(r.1, b.0, b.1)), r.0, cfg, top);
      GuardAfter(st.rules, r.0.rules, Pattern.Loop(p, i, items, st, cfg), top);
    }
  }

  lemma {:induction false} PatternGuarded(p: string, name: string, dotall: bool, st: CState, top: bool)
    requires name != "" || top
    ensures Guarded(st.rules, VisitPattern(p, RuleName(name), dotall, st).0.rules, top)
  {
    hide Guarded, Pattern.Loop, RuleName, Pattern.Quoted, AddRule;
    GuardStays(st.rules, top);
    if p != "" && p[0] == '^' && p[|p| - 1] == '$' {
      var sub, cfg := p[1..|p| - 1], Pattern.Config(RuleName(name), dotall);
      LoopGuarded(sub, 0, [], Pattern.PState(st.rules, map[]), cfg, top);
      var o := Pattern.Loop(sub, 0, [], Pattern.PState(st.rules, map[]), cfg);
      if o.Done? {
        AddNamed(o.st.rules, name, Pattern.Quoted(o.e), top);
        GuardThen(st.rules, o.st.rules, AddRule(o.st.rules, RuleName(name), Pattern.Quoted(o.e)).0, top);
      }
    }
  }

  // ---------- the kinds of schema without sub-schemas ----------

  lemma {:induction false} ThenNamed(before: Rules, st: CState, name: string, e: Expr, top: bool)
    requires (name != "" || top) && Guarded(before, st.rules, top)
    ensures Guarded(before, Add(st, RuleName(name), e).0.rules, top)
  {
    hide Guarded, RuleName, AddRule;
    AddNamed(st.rules, name, e, top);
    GuardThen(before, st.rules, AddRule(st.rules, RuleName(name), e).0, top);
  }

  lemma {:induction false} NotRoot(name: string)
    ensures TopName(name, "") == "root" <==> name == ""
    ensures Reserved("root")
  {
    hide Reserved;
    NoBuiltinEmpty();
    if Reserved(name) { assert RuleName(name)[|name|] == '-' && "root"[3] == 't' && |RuleName(name)| == |name| + 1; }
  }

  lemma {:induction false} NoBuiltinEmpty()
    ensures !Reserved("") && Reserved("root")
  {
  }

  lemma {:induction false} TopGuarded(st: CState, name: string, otherwise: string, b: Builtin, top: bool)
    requires (name != "" || top) && otherwise != "root" && (Plain(otherwise) ==> Known(otherwise) == Some(b))
    ensures Guarded(st.rules, AddBuiltin(st, TopName(name, otherwise), b).0.rules, top)
  {
    hide Guarded, Fine, RuleName, AddDeps, AddRule, EscapeName, Plain, Known;
    NotRoot(name);
    if name == "" { UnreservedFine("root", b.content, top); } else { KnownFine(otherwise, b, top); }
    BuiltinGuarded(st.rules, TopName(name, otherwise), b, top);
  }

  lemma {:induction false} KnownOwn()
    ensures Known("char") == Some(CharRule()) && Known("object") == Some(AnyObjectRule()) && Known("value") == Some(ValueRule())
    ensures Known("string") == Some(StringRule())
    ensures Primitive("root").None? && Format("root").None?
  {
    hide CharRule, AnyObjectRule, ValueRule, StringRule;
  }

  lemma {:induction false} PrimitiveKnown(ty: string)
    requires Primitive(ty).Some?
    ensures ty != "root" && Known(ty) == Primitive(ty)
  {
  }

  lemma {:induction false} UuidKnown(format: string)
    requires IsUuid(format)
    ensures format != "root" && (Plain(format) ==> Known(format) == Some(UuidRule()))
  {
    if Plain(format) { assert format in BUILTIN_NAMES; }
    hide UuidRule;
  }

  lemma {:induction false} FormatKnown(format: string)
    requires Format(format + "-string").Some?
    ensures format + "-string" != "root" && Known(format + "-string") == Format(format + "-string")
  {
    var n := format + "-string";
    assert n[|format|] == '-' && n[|n| - 1] == 'g';
  }

  lemma {:induction false} UntypedGuarded(s: Schema, ty: Option<string>, name: string, st: CState, top: bool)
    requires name != "" || top
    ensures Guarded(st.rules, VisitUntyped(s, ty, name, st).0.rules, top)
  {
    hide Guarded, RuleName, AddBuiltin, Add, Primitive, AnyObjectRule, ValueRule, Known, Plain;
    KnownOwn();
    GuardStays(st.rules, top);
    if ty == Some("object") || Empty(s) {
      var r := AddBuiltin(st, "object", AnyObjectRule());
      OwnGuarded(st, "object", AnyObjectRule(), top);
      ThenNamed(st.rules, r.0, name, Ref(r.1), top);
    } else if ty.None? {
      var r := AddBuiltin(st, "value", ValueRule());
      OwnGuarded(st, "value", ValueRule(), top);
      ThenNamed(st.rules, r.0, name, Ref(r.1), top);
    } else if Primitive(ty.value).Some? {
      PrimitiveKnown(ty.value);
      TopGuarded(st, name, ty.value, Primitive(ty.value).value, top);
    }
  }

  lemma {:induction false} LengthGuarded(s: Schema, name: string, st: CState, top: bool)
    requires name != "" || top
    ensures Guarded(st.rules, VisitLength(s, name, st).0.rules, top)
  {
    hide Guarded, RuleName, AddBuiltin, Add, Known, CharRule, CatAll, Pattern.BuildRepetition;
    KnownOwn();
    var r := AddBuiltin(st, "char", CharRule());
    OwnGuarded(st, "char", CharRule(), top);
    var chars := Pattern.BuildRepetition(Ref(r.1), if s.minLength.Some? then s.minLength.value else 0, s.maxLength);
    ThenNamed(st.rules, r.0, name, CatAll([Lit("\""), chars, Lit("\""), Space()]), top);
  }

  lemma {:induction false} IntegerGuarded(s: Schema, name: string, st: CState, top: bool)
    requires name != "" || top
    ensures Guarded(st.rules, VisitInteger(s, name, st).0.rules, top)
  {
    hide Guarded, RuleName, Add, IntRange.MinMax;
    GuardStays(st.rules, top);
    var lo := if s.minimum.Some? then s.minimum.value else IntRange.INT64_MIN;
    var hi := if s.maximum.Some? then s.maximum.value else IntRange.INT64_MAX;
    if IntRange.ValidArgs(lo, hi) && IntRange.MinMax(lo, hi, 16, true).Ok? {
      ThenNamed(st.rules, st, name, Cat(IntRange.MinMax(lo, hi, 16, true).value, Space()), top);
    }
  }

  lemma {:induction false} LeafGuarded(s: Schema, ty: Option<string>, name: string, dotall: bool, st: CState, top: bool)
    requires name != "" || top
    ensures Guarded(st.rules, VisitLeaf(s, ty, name, dotall, st).0.rules, top)
  {
    hide Guarded, RuleName, AddBuiltin, Add, VisitPattern, VisitLength, VisitInteger, VisitUntyped, UuidRule, Known, Plain, Format, IsUuid, TopName;
    if Untyped(ty, "string") && s.pattern.Some? {
      PatternGuarded(s.pattern.value, name, dotall, st, top);
    } else if Untyped(ty, "string") && IsUuid(s.format) {
      UuidKnown(s.format);
      TopGuarded(st, name, s.format, UuidRule(), top);
    } else if Untyped(ty, "string") && Format(s.format + "-string").Some? {
      FormatKnown(s.format);
      var b := Format(s.format + "-string").value;
      var r := AddBuiltin(st, s.format + "-string", b);
      OwnGuarded(st, s.format + "-string", b, top);
      ThenNamed(st.rules, r.0, name, Ref(r.1), top);
    } else if ty == Some("string") && (s.minLength.Some? || s.maxLength.Some?) {
      LengthGuarded(s, name, st, top);
    } else if ty == Some("integer") && (s.minimum.Some? || s.maximum.Some?) {
      IntegerGuarded(s, name, st, top);
    } else {
      UntypedGuarded(s, ty, name, st, top);
    }
  }

  // ---------- names below a name ----------

  lemma {:induction false} BelowNames(name: string, part: string)
    ensures Under(name, part) == "" <==> name == "" && part == ""
    ensures '-' in Under(name, part) + "-kv" && '-' in Under(name, part) + "-rest" && '-' in Under(name, part) + "-k"
    ensures Under(name, part) + "-value" != ""
  {
    var n := Under(name, part);
    assert (n + "-kv")[|n|] == '-' && (n + "-rest")[|n|] == '-' && (n + "-k")[|n|] == '-';
  }

  lemma {:induction false} AlternativeNamed(name: string, i: nat)
    ensures AlternativeName(name, i) != ""
  {
    hide Decimal;
  }

  lemma {:induction false} RefNamed(ref: string)
    ensures RefName(ref) != ""
  {
    hide EscapeName, Fragment;
  }

  // No property is visited without a name, unless that is allowed.
  predicate Nameable(ps: seq<Property>, name: string, top: bool) { top || name != "" || "" !in Keys(ps) }

  // ---------- objects ----------

  lemma {:induction false} ThenDashed(before: Rules, rules: Rules, name: string, e: Expr, top: bool)
    requires '-' in name && Guarded(before, rules, top)
    ensures Guarded(before, AddRule(rules, name, e).0, top)
  {
    hide Guarded, AddRule;
    AddDashed(rules, name, e, top);
    GuardThen(before, rules, AddRule(rules, name, e).0, top);
  }

  lemma {:induction false} ChainGuarded(rules: Rules, name: string, kv: ObjectRule.KvNames, ks: seq<string>, first: bool, top: bool)
    requires ObjectRule.Named(kv, ks)
    ensures Guarded(rules, ObjectRule.RecursiveRefs(rules, name, kv, ks, first).0, top)
    decreases ks
  {
    hide Guarded, AddRule, ObjectRule.Kv, ObjectRule.CommaKv, CatAll;
    GuardStays(rules, top);
    if |ks| > 1 {
      ChainGuarded(rules, name, kv, ks[1..], true, top);
      var (rules1, rest) := ObjectRule.RecursiveRefs(rules, name, kv, ks[1..], true);
      BelowNames(name, ks[0]);
      ThenDashed(rules, rules1, ObjectRule.JoinName(name, ks[0]), rest, top);
    }
  }

  lemma {:induction false} AlternativesGuarded(rules: Rules, name: string, kv: ObjectRule.KvNames, optional: seq<string>, i: nat, top: bool)
    requires ObjectRule.Named(kv, optional) && i <= |optional|
    ensures Guarded(rules, ObjectRule.Alternatives(rules, name, kv, optional, i).0, top)
    decreases |optional| - i
  {
    hide Guarded, ObjectRule.RecursiveRefs;
    if i < |optional| {
      ChainGuarded(rules, name, kv, optional[i..], false, top);
      var (rules1, e) := ObjectRule.RecursiveRefs(rules, name, kv, optional[i..], false);
      AlternativesGuarded(rules1, name, kv, optional, i + 1, top);
      GuardThen(rules, rules1, ObjectRule.Alternatives(rules1, name, kv, optional, i + 1).0, top);
    } else {
      GuardStays(rules, top);
    }
  }

  lemma {:induction false} ObjectExprGuarded(rules: Rules, name: string, kv: ObjectRule.KvNames, required: seq<string>, optional: seq<string>, top: bool)
    requires ObjectRule.Named(kv, required) && ObjectRule.Named(kv, optional)
    ensures Guarded(rules, ObjectRule.ObjectExpr(rules, name, kv, required, optional).0, top)
  {
    hide Guarded, ObjectRule.Alternatives, CatAll, AltAll, ObjectRule.RequiredItems;
    if optional == [] { GuardStays(rules, top); } else { AlternativesGuarded(rules, name, kv, optional, 0, top); }
  }

  lemma {:induction false} BuiltGuarded(st: CState, name: string, kv: ObjectRule.KvNames, ps: seq<Property>, required: set<string>, extra: seq<string>, top: bool)
    requires Keys(ps) <= kv.Keys && ObjectRule.Named(kv, extra)
    ensures Guarded(st.rules, Object(st, name, kv, ps, required, extra).0.rules, top)
  {
    hide Guarded, ObjectRule.ObjectExpr, KeysWhere, Keys;
    ObjectExprGuarded(st.rules, name, kv, KeysWhere(ps, required, true), KeysWhere(ps, required, false) + extra, top);
  }

  // ---------- the visits ----------

  lemma {:induction false} VisitGuarded(s: Schema, name: string, st: CState, ctx: Context, top: bool)
    requires name != "" || top
    ensures Guarded(st.rules, Visit(s, name, st, ctx).0.rules, top)
    decreases Left(ctx, st), Unchased(ctx), s, 3
  {
    hide Guarded, VisitAs, VisitAlternatives, VisitEachType, ResolveRef, Union, RuleName, Add, Left, Unchased;
    if s.ref.Some? {
      ResolveGuarded(s.ref.value, st, ctx, s, top);
      var r := ResolveRef(s.ref.value, st, ctx, s);
      ThenNamed(st.rules, r.0, name, Ref(r.1), top);
    } else if s.alternatives.AnyOf? {
      UnionGuarded(s.alternatives.subs, name, 0, st, ctx, top);
      var r := VisitAlternatives(s.alternatives.subs, name, 0, st, ctx);
      ThenNamed(st.rules, r.0, name, Union(RefsTo(r.1)), top);
    } else {
      match s.types
      case Several(ts) =>
        EachTypeGuarded(s, ts, name, 0, st, ctx, top);
        var r := VisitEachType(s, ts, name, 0, st, ctx);
        ThenNamed(st.rules, r.0, name, Union(RefsTo(r.1)), top);
      case NoType => VisitAsGuarded(s, None, name, st, ctx, top);
      case One(t) => VisitAsGuarded(s, Some(t), name, st, ctx, top);
    }
  }

  lemma {:induction false} ResolveGuarded(ref: string, st: CState, ctx: Context, at: Schema, top: bool)
    ensures Guarded(st.rules, ResolveRef(ref, st, ctx, at).0.rules, top)
    decreases Left(ctx, st), Unchased(ctx), at, 2
  {
    hide Guarded, Visit, VisitLeaf, RefName;
    var name := RefName(ref);
    RefNamed(ref);
    if name in st.rules || ref in st.being {
      GuardStays(st.rules, top);
    } else if ref !in ctx.refs {
      LeafGuarded(EMPTY, None, name, ctx.dotall, st, top);
    } else {
      var st1 := st.(being := st.being + {ref});
      FewerLeft(ctx.refs.Keys - st1.being, ctx.refs.Keys - st.being);
      VisitGuarded(ctx.refs[ref], name, st1, ctx.(chased := {}), top);
    }
  }

  lemma {:induction false} UnionGuarded(subs: seq<Schema>, name: string, i: nat, st: CState, ctx: Context, top: bool)
    ensures Guarded(st.rules, VisitAlternatives(subs, name, i, st, ctx).0.rules, top)
    decreases Left(ctx, st), Unchased(ctx), subs, 0
  {
    hide Guarded, Visit, AlternativeName;
    if subs == [] {
      GuardStays(st.rules, top);
    } else {
      AlternativeNamed(name, i);
      var r := Visit(subs[0], AlternativeName(name, i), st, ctx);
      VisitGuarded(subs[0], AlternativeName(name, i), st, ctx, top);
      UnionGuarded(subs[1..], name, i + 1, r.0, ctx, top);
      GuardThen(st.rules, r.0.rules, VisitAlternatives(subs[1..], name, i + 1, r.0, ctx).0.rules, top);
    }
  }

  lemma {:induction false} EachTypeGuarded(s: Schema, ts: seq<string>, name: string, i: nat, st: CState, ctx: Context, top: bool)
    ensures Guarded(st.rules, VisitEachType(s, ts, name, i, st, ctx).0.rules, top)
    decreases Left(ctx, st), Unchased(ctx), s, 2, |ts|
  {
    hide Guarded, VisitAs, AlternativeName;
    if ts == [] {
      GuardStays(st.rules, top);
    } else {
      AlternativeNamed(name, i);
      var r := VisitAs(s, Some(ts[0]), AlternativeName(name, i), st, ctx);
      VisitAsGuarded(s, Some(ts[0]), AlternativeName(name, i), st, ctx, top);
      EachTypeGuarded(s, ts[1..], name, i + 1, r.0, ctx, top);
      GuardThen(st.rules, r.0.rules, VisitEachType(s, ts[1..], name, i + 1, r.0, ctx).0.rules, top);
    }
  }

  lemma {:induction false} VisitAsGuarded(s: Schema, ty: Option<string>, name: string, st: CState, ctx: Context, top: bool)
    requires name != "" || top
    ensures Guarded(st.rules, VisitAs(s, ty, name, st, ctx).0.rules, top)
    decreases Left(ctx, st), Unchased(ctx), s, 1
  {
    hide Guarded, VisitLeaf, VisitObject, VisitAllOf, VisitItems, Union, RuleName, Add, Left, Unchased, Keys;
    GuardStays(st.rules, top);
    if s.constant.Some? {
      ThenNamed(st.rules, st, name, Cat(Lit(s.constant.value), Space()), top);
    } else if s.enumerated.Some? {
      ThenNamed(st.rules, st, name, Cat(Union(Literals(s.enumerated.value)), Space()), top);
    } else if IsObject(s, ty) {
      ObjectGuarded(s, PropertiesOf(s), name, st, ctx, top);
      var r := VisitObject(s, PropertiesOf(s), name, st, ctx);
      ThenNamed(st.rules, r.0, name, r.1, top);
    } else if IsAllOf(s, ty) {
      AllOfGuarded(s, s.allOf, name, st, ctx, top);
      var r := VisitAllOf(s, s.allOf, name, st, ctx);
      ThenNamed(st.rules, r.0, name, r.1, top);
    } else if Untyped(ty, "array") && !s.items.NoItems? {
      ItemsGuarded(s, s.items, name, st, ctx, top);
      var r := VisitItems(s, s.items, name, st, ctx);
      ThenNamed(st.rules, r.0, name, r.1, top);
    } else {
      LeafGuarded(s, ty, name, ctx.dotall, st, top);
    }
  }

  lemma {:induction false} TupleGuarded(subs: seq<Schema>, name: string, i: nat, st: CState, ctx: Context, top: bool)
    ensures Guarded(st.rules, VisitTuple(subs, name, i, st, ctx).0.rules, top)
    decreases Left(ctx, st), Unchased(ctx), subs, 0
  {
    hide Guarded, Visit, Under;
    if subs == [] {
      GuardStays(st.rules, top);
    } else {
      var sub := Under(name, "tuple-" + Decimal(i));
      BelowNames(name, "tuple-" + Decimal(i));
      var r := Visit(subs[0], sub, st, ctx);
      VisitGuarded(subs[0], sub, st, ctx, top);
      TupleGuarded(subs[1..], name, i + 1, r.0, ctx, top);
      GuardThen(st.rules, r.0.rules, VisitTuple(subs[1..], name, i + 1, r.0, ctx).0.rules, top);
    }
  }

  lemma {:induction false} ItemsGuarded(s: Schema, items: Items, name: string, st: CState, ctx: Context, top: bool)
    requires items == s.items && !items.NoItems?
    ensures Guarded(st.rules, VisitItems(s, items, name, st, ctx).0.rules, top)
    decreases Left(ctx, st), Unchased(ctx), s, 0
  {
    hide Guarded, Visit, VisitTuple, Bracketed, Separated, Under;
    match items
    case Tuple(subs) => TupleGuarded(subs, name, 0, st, ctx, top);
    case Each(sub) => BelowNames(name, "item"); VisitGuarded(sub, Under(name, "item"), st, ctx, top);
  }

  lemma {:induction false} PropertyGuarded(p: Property, name: string, st: CState, ctx: Context, top: bool)
    requires top || name != "" || p.key != ""
    ensures Guarded(st.rules, VisitProperty(p, name, st, ctx).0.rules, top)
    decreases Left(ctx, st), Unchased(ctx), p, 0
  {
    hide Guarded, Visit, Under, KvExpr, AddRule;
    BelowNames(name, p.key);
    VisitGuarded(p.sub, Under(name, p.key), st, ctx, top);
    var r := Visit(p.sub, Under(name, p.key), st, ctx);
    ThenDashed(st.rules, r.0.rules, Under(name, p.key) + "-kv", KvExpr(p.key, r.1), top);
  }

  lemma {:induction false} PropertiesGuarded(ps: seq<Property>, name: string, kv: ObjectRule.KvNames, st: CState, ctx: Context, top: bool)
    requires Nameable(ps, name, top)
    ensures Guarded(st.rules, VisitProperties(ps, name, kv, st, ctx).0.rules, top)
    decreases Left(ctx, st), Unchased(ctx), ps, 0
  {
    hide Guarded, VisitProperty;
    if ps == [] {
      GuardStays(st.rules, top);
    } else {
      var r := VisitProperty(ps[0], name, st, ctx);
      PropertyGuarded(ps[0], name, st, ctx, top);
      PropertiesGuarded(ps[1..], name, kv[ps[0].key := r.1], r.0, ctx, top);
      GuardThen(st.rules, r.0.rules, VisitProperties(ps[1..], name, kv[ps[0].key := r.1], r.0, ctx).0.rules, top);
    }
  }

  lemma {:induction false} ExtraKeyGuarded(ps: seq<Property>, subName: string, st: CState, top: bool)
    requires '-' in subName + "-k"
    ensures Guarded(st.rules, ExtraKey(ps, subName, st).0.rules, top)
  {
    hide Guarded, AddBuiltin, AddRule, CharRule, StringRule, Known, NotStrings.NotStringsExpr, PropertyNames;
    KnownOwn();
    if ps == [] {
      OwnGuarded(st, "string", StringRule(), top);
    } else {
      var c := AddBuiltin(st, "char", CharRule());
      OwnGuarded(st, "char", CharRule(), top);
      ThenDashed(st.rules, c.0.rules, subName + "-k", NotStrings.NotStringsExpr(PropertyNames(ps)), top);
    }
  }

  lemma {:induction false} ExtraGuarded(s: Schema, additional: Additional, ps: seq<Property>, name: string, st: CState, ctx: Context, top: bool)
    requires additional == s.additional && !additional.Absent?
    ensures Guarded(st.rules, VisitExtra(s, additional, ps, name, st, ctx).0.rules, top)
    decreases Left(ctx, st), Unchased(ctx), s, 0, 0
  {
    hide Guarded, Visit, ExtraKey, ValueRule, ExtraKvExpr, Under, AddBuiltin, Known, AddRule;
    KnownOwn();
    BelowNames(name, "additional");
    var sub := Under(name, "additional");
    match additional
    case Extra(x) =>
      VisitGuarded(x, sub + "-value", st, ctx, top);
      var value := Visit(x, sub + "-value", st, ctx);
      ExtraPairGuarded(ps, sub, st.rules, value, top);
    case Flag(_) =>
      OwnGuarded(st, "value", ValueRule(), top);
      ExtraPairGuarded(ps, sub, st.rules, AddBuiltin(st, "value", ValueRule()), top);
  }

  lemma {:induction false} ExtraPairGuarded(ps: seq<Property>, sub: string, before: Rules, value: (CState, string), top: bool)
    requires '-' in sub + "-k" && '-' in sub + "-kv" && Guarded(before, value.0.rules, top)
    ensures var key := ExtraKey(ps, sub, value.0); Guarded(before, Add(key.0, sub + "-kv", ExtraKvExpr(key.1, value.1)).0.rules, top)
  {
    hide Guarded, ExtraKey, ExtraKvExpr, AddRule;
    ExtraKeyGuarded(ps, sub, value.0, top);
    var key := ExtraKey(ps, sub, value.0);
    GuardThen(before, value.0.rules, key.0.rules, top);
    ThenDashed(before, key.0.rules, sub + "-kv", ExtraKvExpr(key.1, value.1), top);
  }

  lemma {:induction false} ObjectGuarded(s: Schema, ps: seq<Property>, name: string, st: CState, ctx: Context, top: bool)
    requires ps == PropertiesOf(s) && Nameable(ps, name, top)
    ensures Guarded(st.rules, VisitObject(s, ps, name, st, ctx).0.rules, top)
    decreases Left(ctx, st), Unchased(ctx), s, 0, 2
  {
    hide Guarded, VisitPairs, Keys, Object, PropertiesOf;
    PairsGuarded(s, ps, name, st, ctx, top);
    var r := VisitPairs(s, ps, name, st, ctx);
    var extra := if AllowsExtra(s) then [ObjectRule.STAR] else [];
    BuiltGuarded(r.0, name, r.1, ps, s.required, extra, top);
    GuardThen(st.rules, r.0.rules, Object(r.0, name, r.1, ps, s.required, extra).0.rules, top);
  }

  lemma {:induction false} PairsGuarded(s: Schema, ps: seq<Property>, name: string, st: CState, ctx: Context, top: bool)
    requires ps == PropertiesOf(s) && Nameable(ps, name, top)
    ensures Guarded(st.rules, VisitPairs(s, ps, name, st, ctx).0.rules, top)
    decreases Left(ctx, st), Unchased(ctx), s, 0, 1
  {
    hide Guarded, VisitProps, VisitExtra, Keys, PropertiesOf;
    PropsGuarded(s, ps, name, st, ctx, top);
    var r := VisitProps(s, ps, name, st, ctx);
    if AllowsExtra(s) {
      ExtraGuarded(s, s.additional, ps, name, r.0, ctx, top);
      GuardThen(st.rules, r.0.rules, VisitExtra(s, s.additional, ps, name, r.0, ctx).0.rules, top);
    }
  }

  lemma {:induction false} PropsGuarded(s: Schema, ps: seq<Property>, name: string, st: CState, ctx: Context, top: bool)
    requires ps == PropertiesOf(s) && Nameable(ps, name, top)
    ensures Guarded(st.rules, VisitProps(s, ps, name, st, ctx).0.rules, top)
    decreases Left(ctx, st), Unchased(ctx), s, 0, 0
  {
    hide Guarded, VisitProperties, Keys;
    match s.properties
    case Listed(list) => PropertiesGuarded(list, name, map[], st, ctx, top);
    case NoProperties => GuardStays(st.rules, top);
  }

  // ---------- "allOf" ----------

  lemma {:induction false} MemberGuarded(c: Schema, name: string, kv: ObjectRule.KvNames, st: CState, ctx: Context, top: bool)
    requires !Revisits(c, ctx) && Nameable(MemberProperties(c, ctx.refs), name, top)
    ensures Guarded(st.rules, VisitMember(c, name, kv, st, ctx).0.rules, top)
    decreases Left(ctx, st), Unchased(ctx), c, 4
  {
    hide Guarded, VisitProperties, VisitMember, Follow, Revisits, Left, Unchased, Via, Keys;
    var m := Follow(c, ctx.refs);
    MemberStep(c, name, kv, st, ctx);
    MemberShrinks(c, st, ctx);
    if m.Found? && m.sub.properties.Listed? {
      PropertiesGuarded(m.sub.properties.list, name, kv, st, Via(ctx, m.last), top);
    } else {
      GuardStays(st.rules, top);
    }
  }

  lemma {:induction false} Both(a: seq<Property>, b: seq<Property>, name: string, top: bool)
    ensures Nameable(a + b, name, top) <==> Nameable(a, name, top) && Nameable(b, name, top)
  {
    KeysConcat(a, b);
  }

  lemma {:induction false} MembersGuarded(cs: seq<Schema>, name: string, kv: ObjectRule.KvNames, st: CState, ctx: Context, top: bool)
    requires !MembersRevisit(cs, ctx) && Nameable(MembersProperties(cs, ctx.refs), name, top)
    ensures Guarded(st.rules, VisitMembers(cs, name, kv, st, ctx).0.rules, top)
    decreases Left(ctx, st), Unchased(ctx), cs, 0
  {
    hide Guarded, VisitMember, Revisits, Keys, MemberProperties, Nameable;
    if cs == [] {
      GuardStays(st.rules, top);
    } else {
      Both(MemberProperties(cs[0], ctx.refs), MembersProperties(cs[1..], ctx.refs), name, top);
      var r := VisitMember(cs[0], name, kv, st, ctx);
      MemberGuarded(cs[0], name, kv, st, ctx, top);
      MembersGuarded(cs[1..], name, r.1, r.0, ctx, top);
      GuardThen(st.rules, r.0.rules, VisitMembers(cs[1..], name, r.1, r.0, ctx).0.rules, top);
    }
  }

  lemma {:induction false} PartGuarded(p: Part, name: string, kv: ObjectRule.KvNames, st: CState, ctx: Context, top: bool)
    requires !MembersRevisit(Members(p), ctx) && Nameable(PartProperties(p, ctx.refs), name, top)
    ensures Guarded(st.rules, VisitPart(p, name, kv, st, ctx).0.rules, top)
    decreases Left(ctx, st), Unchased(ctx), p, 0
  {
    hide Guarded, VisitMember, VisitMembers, Revisits, Keys, MemberProperties, MembersProperties, Nameable;
    match p
    case Must(sub) => assert Members(p)[0] == sub; MemberGuarded(sub, name, kv, st, ctx, top);
    case May(subs) => MembersGuarded(subs, name, kv, st, ctx, top);
  }

  lemma {:induction false} PartsGuarded(parts: seq<Part>, name: string, kv: ObjectRule.KvNames, st: CState, ctx: Context, top: bool)
    requires !PartsRevisit(parts, ctx) && Nameable(PartsProperties(parts, ctx.refs), name, top)
    ensures Guarded(st.rules, VisitParts(parts, name, kv, st, ctx).0.rules, top)
    decreases Left(ctx, st), Unchased(ctx), parts, 0
  {
    hide Guarded, VisitPart, MembersRevisit, Keys, PartProperties, Nameable;
    if parts == [] {
      GuardStays(st.rules, top);
    } else {
      Both(PartProperties(parts[0], ctx.refs), PartsProperties(parts[1..], ctx.refs), name, top);
      var r := VisitPart(parts[0], name, kv, st, ctx);
      PartGuarded(parts[0], name, kv, st, ctx, top);
      PartsGuarded(parts[1..], name, r.1, r.0, ctx, top);
      GuardThen(st.rules, r.0.rules, VisitParts(parts[1..], name, r.1, r.0, ctx).0.rules, top);
    }
  }

  lemma {:induction false} AllOfGuarded(s: Schema, allOf: AllOf, name: string, st: CState, ctx: Context, top: bool)
    requires allOf == s.allOf && allOf.Together? && Nameable(PartsProperties(allOf.parts, ctx.refs), name, top)
    ensures Guarded(st.rules, VisitAllOf(s, allOf, name, st, ctx).0.rules, top)
    decreases Left(ctx, st), Unchased(ctx), s, 0, 2
  {
    hide Guarded, VisitParts, Keys, SharedEnum, PartsLoop, PartsRevisit, PartsProperties, PartsRequired, Union, Literals, Object, Nameable;
    GuardStays(st.rules, top);
    match allOf
    case Together(parts) =>
      if !PartsLoop(parts, ctx.refs) && SharedEnum(parts, ctx.refs) == [] && !PartsRevisit(parts, ctx) {
        PartsGuarded(parts, name, map[], st, ctx, top);
        var r := VisitParts(parts, name, map[], st, ctx);
        var ps, required := PartsProperties(parts, ctx.refs), PartsRequired(parts, ctx.refs);
        BuiltGuarded(r.0, name, r.1, ps, required, [], top);
        GuardThen(st.rules, r.0.rules, Object(r.0, name, r.1, ps, required, []).0.rules, top);
      }
  }

  // ---------- the whole conversion ----------

  // A finished grammar means by the built-in names what the converter means by them.
  ghost predicate OwnNamesKept(g: Rules) {
    "space" in g && g["space"] == SPACE_RULE && forall k :: k in g && Plain(k) ==> Known(k).Some? && g[k] == Known(k).value.content
  }

  lemma {:induction false} ConversionGuarded(s: Schema, ctx: Context)
    ensures OwnNamesKept(Convert(s, ctx).0.rules)
  {
    hide Visit, Plain, Known;
    VisitGuarded(s, "", START, ctx, true);
    SpaceFree();
  }

  lemma {:induction false} SpaceFree()
    ensures !Plain("space")
  {
    hide Known;
  }
}
