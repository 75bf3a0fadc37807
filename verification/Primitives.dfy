/** The converter's built-in rules and how they are added together with the rules they use. */
module Primitives {
  import opened Basics
  import opened Gbnf
  import opened RuleStore
  import NotStrings

  // ---------- the names an expression uses ----------

  function Names(e: Expr): set<string> {
    match e
    case Lit(_) => {}
    case Class(_, _) => {}
    case Cat(l, r) => Names(l) + Names(r)
    case Alt(l, r) => Names(l) + Names(r)
    case Rep(b, _, _) => Names(b)
    case Ref(n) => {n}
  }

  // Every name in use is defined, or among the promised ones.
  ghost predicate ClosedBut(rules: Rules, promised: set<string>) {
    forall k :: k in rules ==> Names(rules[k]) <= rules.Keys + promised
  }

  lemma {:induction false} CatAllNames(es: seq<Expr>, allowed: set<string>)
    requires forall i :: 0 <= i < |es| ==> Names(es[i]) <= allowed
    ensures Names(CatAll(es)) <= allowed
  {
    if es != [] {
      assert forall i :: 0 <= i < |es[1..]| ==> es[1..][i] == es[i + 1];
      CatAllNames(es[1..], allowed);
    }
  }

  lemma {:induction false} AltAllNames(es: seq<Expr>, allowed: set<string>)
    requires es != [] && forall i :: 0 <= i < |es| ==> Names(es[i]) <= allowed
    ensures Names(AltAll(es)) <= allowed
  {
    if |es| > 1 {
      assert forall i :: 0 <= i < |es[1..]| ==> es[1..][i] == es[i + 1];
      AltAllNames(es[1..], allowed);
    }
  }

  // A rule over defined or promised names keeps the table closed.
  lemma {:induction false} AddKeepsClosed(rules: Rules, name: string, e: Expr, promised: set<string>)
    requires ClosedBut(rules, promised) && Names(e) <= rules.Keys + promised
    ensures ClosedBut(AddRule(rules, name, e).0, promised)
    ensures EscapeName(name) in AddRule(rules, name, e).0
  {
    hide Names;
    var r := AddRule(rules, name, e);
    forall k | k in r.0 ensures Names(r.0[k]) <= r.0.Keys + promised {
      if k in rules { assert r.0[k] == rules[k]; }
    }
  }

  // ---------- the table ----------

  function Digit(): Expr { Class([('0', '9')], false) }
  function Digits(n: nat): Expr { Rep(Digit(), n, Some(n)) }
  function Between(lo: char, hi: char): Expr { Class([(lo, hi)], false) }
  function Hex(n: nat): Expr { Rep(Class([('0', '9'), ('a', 'f'), ('A', 'F')], false), n, Some(n)) }
  function Optional(e: Expr): Expr { Rep(e, 0, Some(1)) }
  function Quoted(e: Expr): Expr { Cat(Lit("\""), Cat(e, Cat(Lit("\""), Space()))) }
  function Cat3(a: Expr, b: Expr, c: Expr): Expr { Cat(a, Cat(b, c)) }
  function Cat5(a: Expr, b: Expr, c: Expr, d: Expr, e: Expr): Expr { Cat(a, Cat(b, Cat3(c, d, e))) }

  const SPACE_RULE := Alt(Lit(""), Alt(Lit(" "), Cat(Rep(Lit("\n"), 1, Some(2)), Rep(Class([(' ', ' '), ('\t', '\t')], false), 0, Some(20)))))

  function CommaSeparated(item: Expr): Expr {
    Optional(Cat(item, Rep(Cat3(Lit(","), Space(), item), 0, None)))
  }

  // A rule and the rules it depends on.
  datatype Builtin = Builtin(content: Expr, deps: seq<string>)

  function BooleanRule(): Builtin { Builtin(Cat(Alt(Lit("true"), Lit("false")), Space()), []) }
  function DecimalPartRule(): Builtin { Builtin(Rep(Digit(), 1, Some(16)), []) }
  function IntegralPartRule(): Builtin { Builtin(Alt(Between('0', '0'), Cat(Between('1', '9'), Rep(Digit(), 0, Some(15)))), []) }
  function NumberRule(): Builtin {
    Builtin(Cat5(Optional(Lit("-")), Ref("integral-part"), Optional(Cat(Lit("."), Ref("decimal-part"))),
                 Optional(Cat3(Class([('e', 'e'), ('E', 'E')], false), Optional(Class([('-', '-'), ('+', '+')], false)), Ref("integral-part"))),
                 Space()), ["integral-part", "decimal-part"])
  }
  function IntegerRule(): Builtin { Builtin(Cat3(Optional(Lit("-")), Ref("integral-part"), Space()), ["integral-part"]) }
  function ValueRule(): Builtin {
    Builtin(Alt(Ref("object"), Alt(Ref("array"), Alt(Ref("string"), Alt(Ref("number"), Alt(Ref("boolean"), Ref("null")))))),
            ["object", "array", "string", "number", "boolean", "null"])
  }
  function AnyObjectRule(): Builtin {
    Builtin(Cat5(Lit("{"), Space(), CommaSeparated(Cat(Ref("string"), Cat3(Lit(":"), Space(), Ref("value")))), Lit("}"), Space()),
            ["string", "value"])
  }
  function AnyArrayRule(): Builtin { Builtin(Cat5(Lit("["), Space(), CommaSeparated(Ref("value")), Lit("]"), Space()), ["value"]) }
  function UuidRule(): Builtin {
    Builtin(Quoted(Cat(Cat(Hex(8), Lit("-")), Cat5(Cat(Hex(4), Lit("-")), Cat(Hex(4), Lit("-")), Hex(4), Lit("-"), Hex(12)))), [])
  }
  function CharRule(): Builtin { Builtin(NotStrings.CHAR_CONTENT, []) }
  function StringRule(): Builtin { Builtin(Quoted(Rep(Ref("char"), 0, None)), ["char"]) }
  function NullRule(): Builtin { Builtin(Cat(Lit("null"), Space()), []) }

  function Hours(): Expr { Alt(Cat(Between('0', '1'), Digit()), Cat(Lit("2"), Between('0', '3'))) }
  function Sixty(): Expr { Cat(Between('0', '5'), Digit()) }
  function Zone(): Expr { Alt(Lit("Z"), Cat(Cat(Alt(Lit("+"), Lit("-")), Hours()), Cat(Lit(":"), Sixty()))) }
  function Months(): Expr { Alt(Cat(Lit("0"), Between('1', '9')), Cat(Lit("1"), Between('0', '2'))) }
  function Days(): Expr { Alt(Cat(Lit("0"), Between('1', '9')), Alt(Cat(Between('1', '2'), Digit()), Cat(Lit("3"), Between('0', '1')))) }

  function DateRule(): Builtin { Builtin(Cat5(Digits(4), Lit("-"), Months(), Lit("-"), Days()), []) }
  function TimeRule(): Builtin {
    Builtin(Cat5(Cat(Hours(), Lit(":")), Cat(Sixty(), Lit(":")), Sixty(), Optional(Cat(Lit("."), Digits(3))), Zone()), [])
  }
  function DateTimeRule(): Builtin { Builtin(Cat3(Ref("date"), Lit("T"), Ref("time")), ["date", "time"]) }
  function QuotedRule(name: string): Builtin { Builtin(Quoted(Ref(name)), [name]) }

  function Primitive(name: string): Option<Builtin> {
    if name == "boolean" then Some(BooleanRule())
    else if name == "decimal-part" then Some(DecimalPartRule())
    else if name == "integral-part" then Some(IntegralPartRule())
    else if name == "number" then Some(NumberRule())
    else if name == "integer" then Some(IntegerRule())
    else if name == "value" then Some(ValueRule())
    else if name == "object" then Some(AnyObjectRule())
    else if name == "array" then Some(AnyArrayRule())
    else if name == "uuid" then Some(UuidRule())
    else if name == "char" then Some(CharRule())
    else if name == "string" then Some(StringRule())
    else if name == "null" then Some(NullRule())
    else None
  }

  function Format(name: string): Option<Builtin> {
    if name == "date" then Some(DateRule())
    else if name == "time" then Some(TimeRule())
    else if name == "date-time" then Some(DateTimeRule())
    else if name == "date-string" then Some(QuotedRule("date"))
    else if name == "time-string" then Some(QuotedRule("time"))
    else if name == "date-time-string" then Some(QuotedRule("date-time"))
    else None
  }

  function Known(name: string): Option<Builtin> { if Primitive(name).Some? then Primitive(name) else Format(name) }

  const BUILTIN_NAMES: seq<string> :=
    ["boolean", "decimal-part", "integral-part", "number", "integer", "value", "object", "array", "uuid", "char", "string", "null",
     "date", "time", "date-time", "date-string", "time-string", "date-time-string"]

  const BUILTINS: set<string> := set n | n in BUILTIN_NAMES

  predicate Reserved(name: string) { name == "root" || name in BUILTINS }

  lemma {:induction false} KnownNames(name: string)
    ensures Known(name).Some? <==> name in BUILTINS
  {
    hide CatAll, AltAll;
    assert name in BUILTINS <==> name in BUILTIN_NAMES;
  }

  lemma {:induction false} CleanName(s: string)
    requires forall i :: 0 <= i < |s| ==> IsNameChar(s[i])
    ensures EscapeName(s) == s
  {
    if s != [] {
      CleanName(s[1..]);
      assert s == [s[0]] + s[1..];
    }
  }

  lemma {:induction false} BuiltinNameClean(name: string)
    requires name in BUILTINS
    ensures EscapeName(name) == name
  {
    hide EscapeName;
    assert name in BUILTIN_NAMES;
    CleanName(name);
  }

  // ---------- adding ----------

  lemma {:induction false} FewerLeft(a: set<string>, b: set<string>)
    requires a <= b
    ensures |a| <= |b| && (a != b ==> |a| < |b|)
  {
    assert b == a + (b - a);
    assert |b| == |a| + |b - a|;
  }

  function AddPrimitive(rules: Rules, name: string, b: Builtin): (r: (Rules, string))
    ensures Extends(r.0, rules) && r.1 in r.0
    decreases |BUILTINS - rules.Keys - {EscapeName(name)}|, 1, 0
  {
    var r := AddRule(rules, name, b.content);
    FewerLeft(BUILTINS - r.0.Keys, BUILTINS - rules.Keys - {EscapeName(name)});
    (AddDeps(r.0, b.deps), r.1)
  }

  function AddDeps(rules: Rules, deps: seq<string>): (r: Rules)
    ensures Extends(r, rules)
    decreases |BUILTINS - rules.Keys|, 0, |deps|
  {
    if deps == [] then rules
    else
      var rules1 := AddDep(rules, deps[0], |deps|);
      FewerLeft(BUILTINS - rules1.Keys, BUILTINS - rules.Keys);
      AddDeps(rules1, deps[1..])
  }

  function AddDep(rules: Rules, dep: string, ghost left: nat): (r: Rules)
    requires left > 0
    ensures Extends(r, rules)
    decreases |BUILTINS - rules.Keys|, 0, left - 1
  {
    if dep in rules || Known(dep).None? then rules
    else
      KnownNames(dep);
      BuiltinNameClean(dep);
      FewerLeft(BUILTINS - rules.Keys - {dep}, BUILTINS - rules.Keys);
      AddPrimitive(rules, dep, Known(dep).value).0
  }

  // ---------- what is added is complete ----------

  function SetOf(deps: seq<string>): set<string> { set d | d in deps }

  predicate Complete(b: Builtin) {
    Names(b.content) <= SetOf(b.deps) + {"space"} && forall i :: 0 <= i < |b.deps| ==> b.deps[i] in BUILTINS
  }

  lemma {:induction false} AllBuiltins(deps: seq<string>)
    requires forall i :: 0 <= i < |deps| ==> deps[i] in BUILTIN_NAMES
    ensures forall i :: 0 <= i < |deps| ==> deps[i] in BUILTINS
  {
  }

  lemma {:induction false} NumberComplete()
    ensures Complete(NumberRule())
  {
    assert Names(NumberRule().content) <= {"integral-part", "decimal-part", "space"};
    AllBuiltins(NumberRule().deps);
  }

  lemma {:induction false} ValueComplete()
    ensures Complete(ValueRule())
  {
    assert Names(ValueRule().content) <= {"object", "array", "string", "number", "boolean", "null"};
    AllBuiltins(ValueRule().deps);
  }

  lemma {:induction false} AnyObjectComplete()
    ensures Complete(AnyObjectRule())
  {
    assert Names(AnyObjectRule().content) <= {"string", "value", "space"};
    AllBuiltins(AnyObjectRule().deps);
  }

  lemma {:induction false} AnyArrayComplete()
    ensures Complete(AnyArrayRule())
  {
    assert Names(AnyArrayRule().content) <= {"value", "space"};
    AllBuiltins(AnyArrayRule().deps);
  }

  lemma {:induction false} IntegerComplete()
    ensures Complete(IntegerRule())
  {
    assert Names(IntegerRule().content) <= {"integral-part", "space"};
    AllBuiltins(IntegerRule().deps);
  }

  lemma {:induction false} StringComplete()
    ensures Complete(StringRule())
  {
    assert Names(StringRule().content) <= {"char", "space"};
    AllBuiltins(StringRule().deps);
  }

  lemma {:induction false} DateTimeComplete()
    ensures Complete(DateTimeRule())
  {
    assert Names(DateTimeRule().content) <= {"date", "time"};
    AllBuiltins(DateTimeRule().deps);
  }

  lemma {:induction false} SmallComplete()
    ensures Complete(BooleanRule()) && Complete(NullRule()) && Complete(DecimalPartRule()) && Complete(IntegralPartRule())
  {
  }

  lemma {:induction false} UuidComplete()
    ensures Complete(UuidRule())
  {
    assert Names(UuidRule().content) <= {"space"};
  }

  lemma {:induction false} CharComplete()
    ensures Complete(CharRule())
  {
    assert Names(NotStrings.CHAR_CONTENT) <= {};
  }

  lemma {:induction false} DateComplete()
    ensures Complete(DateRule())
  {
    assert Names(DateRule().content) <= {};
  }

  lemma {:induction false} TimeComplete()
    ensures Complete(TimeRule())
  {
    assert Names(Hours()) == Names(Sixty()) == Names(Zone()) == {};
    hide Hours, Sixty, Zone;
    assert Names(TimeRule().content) <= {};
  }

  lemma {:induction false} QuotedComplete(name: string)
    requires name in BUILTINS
    ensures Complete(QuotedRule(name))
  {
    assert Names(Cat(Lit("\""), Space())) == {"space"};
  }

  lemma {:induction false} PrimitivesComplete(name: string)
    requires Primitive(name).Some?
    ensures Complete(Primitive(name).value)
  {
    NumberComplete(); ValueComplete(); AnyObjectComplete(); AnyArrayComplete(); IntegerComplete(); StringComplete();
    SmallComplete(); UuidComplete(); CharComplete();
    hide Complete, NumberRule, ValueRule, AnyObjectRule, AnyArrayRule, IntegerRule, StringRule, BooleanRule, NullRule,
      DecimalPartRule, IntegralPartRule, UuidRule, CharRule;
  }

  lemma {:induction false} FormatsComplete(name: string)
    requires Format(name).Some?
    ensures Complete(Format(name).value)
  {
    DateComplete(); TimeComplete(); DateTimeComplete();
    QuotedFormats();
    hide Complete, DateRule, TimeRule, DateTimeRule, QuotedRule;
  }

  lemma {:induction false} QuotedFormats()
    ensures Complete(QuotedRule("date")) && Complete(QuotedRule("time")) && Complete(QuotedRule("date-time"))
  {
    hide Complete;
    var three := ["date", "time", "date-time"];
    AllBuiltins(three);
    QuotedComplete(three[0]);
    QuotedComplete(three[1]);
    QuotedComplete(three[2]);
  }

  lemma {:induction false} TableComplete(name: string)
    requires Known(name).Some?
    ensures Complete(Known(name).value)
  {
    hide Complete, Primitive, Format;
    if Primitive(name).Some? { PrimitivesComplete(name); } else { FormatsComplete(name); }
  }

  // Adding a built-in adds everything it needs: the table is as closed as before.
  lemma {:induction false} PrimitiveClosed(rules: Rules, name: string, b: Builtin, promised: set<string>)
    requires ClosedBut(rules, promised) && "space" in rules && Complete(b)
    ensures var r := AddPrimitive(rules, name, b);
            ClosedBut(r.0, promised) && EscapeName(name) in r.0
    decreases |BUILTINS - rules.Keys - {EscapeName(name)}|, 1, 0
  {
    hide Known;
    var r := AddRule(rules, name, b.content);
    FewerLeft(BUILTINS - r.0.Keys, BUILTINS - rules.Keys - {EscapeName(name)});
    AddKeepsClosed(rules, name, b.content, promised + SetOf(b.deps));
    DepsClosed(r.0, b.deps, promised);
  }

  lemma {:induction false} DepsClosed(rules: Rules, deps: seq<string>, promised: set<string>)
    requires ClosedBut(rules, promised + SetOf(deps)) && "space" in rules
    requires forall i :: 0 <= i < |deps| ==> deps[i] in BUILTINS
    ensures ClosedBut(AddDeps(rules, deps), promised)
    decreases |BUILTINS - rules.Keys|, 0, |deps|
  {
    hide Known;
    if deps == [] {
      assert promised + SetOf(deps) == promised;
    } else {
      var rules1 := AddDep(rules, deps[0], |deps|);
      DepClosed(rules, deps[0], |deps|, promised + SetOf(deps));
      FewerLeft(BUILTINS - rules1.Keys, BUILTINS - rules.Keys);
      assert SetOf(deps) == SetOf(deps[1..]) + {deps[0]};
      assert ClosedBut(rules1, promised + SetOf(deps[1..]));
      DepsClosed(rules1, deps[1..], promised);
    }
  }

  lemma {:induction false} DepClosed(rules: Rules, dep: string, left: nat, promised: set<string>)
    requires left > 0 && ClosedBut(rules, promised) && "space" in rules && dep in BUILTINS
    ensures ClosedBut(AddDep(rules, dep, left), promised) && dep in AddDep(rules, dep, left)
    decreases |BUILTINS - rules.Keys|, 0, left - 1
  {
    hide Complete;
    KnownNames(dep);
    if dep !in rules {
      BuiltinNameClean(dep);
      FewerLeft(BUILTINS - rules.Keys - {dep}, BUILTINS - rules.Keys);
      TableComplete(dep);
      hide Known;
      PrimitiveClosed(rules, dep, Known(dep).value, promised);
    }
  }
}
