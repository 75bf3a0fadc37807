/** The pattern compiler: regular expressions in their written form, what they match, and the
    translation into grammar rules that walks over the characters with one index. */
module Pattern {
  import opened Basics
  import opened Decimals
  import opened Gbnf
  import opened RuleStore

  // ---------- regular expressions ----------

  datatype Regex = Regex(branches: seq<Branch>)
  datatype Branch = Branch(pieces: seq<Piece>)
  datatype Piece = Piece(atom: Atom, quant: Quant)
  datatype Atom = Ch(c: char) | Dot | Group(body: Regex)
  datatype Quant = Once | Star | Plus | Opt | Exactly(n: nat) | AtLeast(m: nat) | AtMost(n: nat) | Between(m: nat, n: nat)

  const INT_MAX := 2147483647

  predicate NonLiteral(c: char) { c in {'|', '.', '(', ')', '[', ']', '{', '}', '*', '+', '?'} }

  // Characters that stand for themselves in the regular expression, the grammar and the JSON text.
  predicate Plain(c: char) { !NonLiteral(c) && c !in {'\\', '"', '^', '$'} && c >= ' ' }

  predicate QuantOk(q: Quant) {
    match q
    case Exactly(n) => n < INT_MAX
    case AtLeast(m) => m < INT_MAX
    case AtMost(n) => n < INT_MAX
    case Between(m, n) => m <= n < INT_MAX
    case _ => true
  }

  predicate RegexOk(r: Regex)
    decreases r
  {
    r.branches != [] && forall k :: 0 <= k < |r.branches| ==> BranchOk(r.branches[k])
  }

  predicate BranchOk(b: Branch)
    decreases b
  {
    forall k :: 0 <= k < |b.pieces| ==> PieceOk(b.pieces[k])
  }

  predicate PieceOk(p: Piece)
    decreases p
  {
    QuantOk(p.quant) && (p.atom.Ch? ==> Plain(p.atom.c)) && (p.atom.Group? ==> RegexOk(p.atom.body))
  }

  // ---------- what they match ----------

  function Low(q: Quant): nat {
    match q
    case Once => 1
    case Plus => 1
    case Exactly(n) => n
    case AtLeast(m) => m
    case Between(m, _) => m
    case _ => 0
  }

  function High(q: Quant): Option<nat> {
    match q
    case Once => Some(1)
    case Opt => Some(1)
    case Exactly(n) => Some(n)
    case AtMost(n) => Some(n)
    case Between(_, n) => Some(n)
    case _ => None
  }

  predicate DotMatches(dotall: bool, c: char) { dotall || (c != '\n' && c != '\r') }

  ghost predicate RegexMatches(dotall: bool, r: Regex, s: string)
    decreases r
  {
    exists k :: 0 <= k < |r.branches| && PiecesMatch(dotall, r.branches[k].pieces, s)
  }

  ghost predicate PiecesMatch(dotall: bool, ps: seq<Piece>, s: string)
    decreases ps
  {
    if ps == [] then s == ""
    else exists i :: 0 <= i <= |s| && PieceMatches(dotall, ps[0], s[..i]) && PiecesMatch(dotall, ps[1..], s[i..])
  }

  ghost predicate PieceMatches(dotall: bool, p: Piece, s: string)
    decreases p
  {
    exists parts :: Flat(parts) == s && CountOk(|parts|, Low(p.quant), High(p.quant))
                    && forall i :: 0 <= i < |parts| ==> AtomMatches(dotall, p.atom, parts[i])
  }

  ghost predicate AtomMatches(dotall: bool, a: Atom, s: string)
    decreases a
  {
    match a
    case Ch(c) => s == [c]
    case Dot => |s| == 1 && DotMatches(dotall, s[0])
    case Group(r) => RegexMatches(dotall, r, s)
  }

  // ---------- how they are written ----------

  // The text between curly brackets.
  function BoundsText(q: Quant): string {
    match q
    case Exactly(n) => Decimal(n)
    case AtLeast(m) => Decimal(m) + "," + ""
    case AtMost(n) => "" + "," + Decimal(n)
    case Between(m, n) => Decimal(m) + "," + Decimal(n)
    case _ => ""
  }

  function PrintQuant(q: Quant): string {
    match q
    case Once => ""
    case Star => "*"
    case Plus => "+"
    case Opt => "?"
    case _ => "{" + BoundsText(q) + "}"
  }

  function PrintRegex(r: Regex): string
    decreases r
  {
    PrintBranches(r.branches)
  }

  function PrintBranches(bs: seq<Branch>): string
    decreases bs
  {
    if bs == [] then ""
    else if |bs| == 1 then PrintPieces(bs[0].pieces)
    else PrintPieces(bs[0].pieces) + ("|" + PrintBranches(bs[1..]))
  }

  function PrintPieces(ps: seq<Piece>): string
    decreases ps
  {
    if ps == [] then "" else PrintPiece(ps[0]) + PrintPieces(ps[1..])
  }

  function PrintPiece(p: Piece): string
    decreases p
  {
    PrintAtom(p.atom) + PrintQuant(p.quant)
  }

  function PrintAtom(a: Atom): string
    decreases a
  {
    match a
    case Ch(c) => [c]
    case Dot => "."
    case Group(r) => "(" + PrintRegex(r) + ")"
  }

  // ---------- the translation ----------

  // An entry of the sequence being collected.
  datatype Item = Bar | Literal(text: string) | Rule(e: Expr)

  datatype PState = PState(rules: Rules, subIds: map<Expr, string>)

  // Outside: a construct the model does not cover.  Stuck: the source would loop for ever.
  datatype Outcome = Done(i: nat, e: Expr, st: PState) | Outside | Stuck

  datatype Config = Config(name: string, dotall: bool)

  function ToRule(it: Item): Expr
    requires !it.Bar?
  {
    match it
    case Literal(t) => Lit(t)
    case Rule(e) => e
  }

  function FlushLiteral(acc: string): seq<Item> { if acc == "" then [] else [Literal(acc)] }

  // Consecutive literals become one.
  function Merged(acc: string, items: seq<Item>): seq<Item>
    decreases |items|
  {
    if items == [] then FlushLiteral(acc)
    else if items[0].Literal? then Merged(acc + items[0].text, items[1..])
    else FlushLiteral(acc) + [items[0]] + Merged("", items[1..])
  }

  // How a grammar reader takes the items written one after another: bars bind loosest.
  function ReadRule(es: seq<Expr>, items: seq<Item>): Expr
    decreases |items|
  {
    if items == [] then CatAll(es)
    else if items[0].Bar? then Alt(CatAll(es), ReadRule([], items[1..]))
    else ReadRule(es + [ToRule(items[0])], items[1..])
  }

  function JoinSeq(items: seq<Item>): Expr { ReadRule([], Merged("", items)) }

  function DotRule(dotall: bool): Expr {
    if dotall then Class([('\0', '\U{10FFFF}')], false) else Class([('\n', '\n'), ('\r', '\r')], true)
  }

  function BuildRepetition(e: Expr, lo: nat, hi: Option<nat>): Expr {
    if hi == Some(0) then Lit("") else Rep(e, lo, hi)
  }

  // A count of the int type, or nothing when the conversion throws.
  function ReadCount(s: string): (r: Option<nat>)
    ensures r.Some? ==> r.value <= INT_MAX
  {
    if s != "" && IsDigits(s) && Value(s) <= INT_MAX then Some(Value(s)) else None
  }

  function Find(s: string, c: char, i: nat): (r: nat)
    requires i <= |s|
    ensures i <= r <= |s| && (r < |s| ==> s[r] == c) && forall k :: i <= k < r ==> s[k] != c
    decreases |s| - i
  {
    if i == |s| || s[i] == c then i else Find(s, c, i + 1)
  }

  function NoMax(n: nat): Option<nat> { if n == INT_MAX then None else Some(n) }

  // What stands between the curly brackets: one count, or two of which either may be empty.
  function ReadBounds(s: string): Option<(nat, Option<nat>)> {
    var k := Find(s, ',', 0);
    if k == |s| then
      match ReadCount(s)
      case None => None
      case Some(n) => Some((n, NoMax(n)))
    else
      var lo := if s[..k] == "" then Some(0) else ReadCount(s[..k]);
      var hi := if s[k + 1..] == "" then Some(INT_MAX) else ReadCount(s[k + 1..]);
      if lo.Some? && hi.Some? then Some((lo.value, NoMax(hi.value))) else None
  }

  // A literal runs on while the next character does not bind to the one before it.
  function LiteralEnd(p: string, start: nat, k: nat): (r: nat)
    requires start <= k <= |p|
    ensures k <= r <= |p|
    decreases |p| - k
  {
    if k < |p| && p[k] !in {'\\', '"'} && !NonLiteral(p[k])
       && (k == |p| - 1 || k == start || p[k + 1] == '.' || !NonLiteral(p[k + 1]))
    then LiteralEnd(p, start, k + 1)
    else k
  }

  // A repeated rule gets a name of its own, the same one for the same rule.
  function SubRule(st: PState, name: string, e: Expr): (PState, string) {
    if e in st.subIds then (st, st.subIds[e])
    else
      var r := AddRule(st.rules, name + "-" + Decimal(|st.subIds| + 1), e);
      (PState(r.0, st.subIds[e := r.1]), r.1)
  }

  function Last(items: seq<Item>): Item
    requires items != []
  {
    items[|items| - 1]
  }

  predicate CanRepeat(items: seq<Item>) { items != [] && !Last(items).Bar? }

  function SetLast(items: seq<Item>, e: Expr): seq<Item>
    requires items != []
  {
    items[|items| - 1 := Rule(e)]
  }

  function Postfix(items: seq<Item>, c: char): seq<Item>
    requires CanRepeat(items)
  {
    SetLast(items, Rep(ToRule(Last(items)), if c == '+' then 1 else 0, if c == '?' then Some(1) else None))
  }

  // The repeated expression: a literal as it stands, anything else under a name.
  function Repeated(st: PState, name: string, it: Item): (PState, Expr)
    requires !it.Bar?
  {
    if it.Literal? then (st, Lit(it.text))
    else var r := SubRule(st, name, it.e); (r.0, Ref(r.1))
  }

  // One call of the inner function from index `i` with the items it has collected.
  function Loop(p: string, i: nat, items: seq<Item>, st: PState, cfg: Config): (o: Outcome)
    requires i <= |p|
    ensures o.Done? ==> i <= o.i <= |p| && Extends(o.st.rules, st.rules)
    decreases |p| - i
  {
    if i == |p| then Done(i, JoinSeq(items), st)
    else
      var c := p[i];
      if c == '.' then
        var r := AddRule(st.rules, "dot", DotRule(cfg.dotall));
        Loop(p, i + 1, items + [Rule(Ref(r.1))], st.(rules := r.0), cfg)
      else if c == '(' then
        var inner := Loop(p, i + 1, [], st, cfg);
        if inner.Done? then Loop(p, inner.i, items + [Rule(inner.e)], inner.st, cfg) else inner
      else if c == ')' then Done(i + 1, JoinSeq(items), st)
      else if c == '|' then Loop(p, i + 1, items + [Bar], st, cfg)
      else if c == '*' || c == '+' || c == '?' then
        if CanRepeat(items) then Loop(p, i + 1, Postfix(items, c), st, cfg) else Outside
      else if c == '{' then
        var k := Find(p, '}', i + 1);
        if k == |p| || !CanRepeat(items) || ReadBounds(p[i + 1..k]).None? then Outside
        else
          var b := ReadBounds(p[i + 1..k]).value;
          var r := Repeated(st, cfg.name, Last(items));
          Loop(p, k + 1, SetLast(items, BuildRepetition(r.1, b.0, b.1)), r.0, cfg)
      else if c == '[' || c == '\\' || c == '"' then Outside
      else if c == ']' || c == '}' then Stuck
      else
        var k := LiteralEnd(p, i, i + 1);
        Loop(p, k, items + [Literal(p[i..k])], st, cfg)
  }

  // What the loop does at an opening curly bracket.
  lemma {:induction false} AtCurly(p: string, i: nat, items: seq<Item>, st: PState, cfg: Config)
    requires i < |p| && p[i] == '{'
    ensures var k := Find(p, '}', i + 1);
            Loop(p, i, items, st, cfg) ==
            if k == |p| || !CanRepeat(items) || ReadBounds(p[i + 1..k]).None? then Outside
            else
              var b := ReadBounds(p[i + 1..k]).value;
              var r := Repeated(st, cfg.name, Last(items));
              Loop(p, k + 1, SetLast(items, BuildRepetition(r.1, b.0, b.1)), r.0, cfg)
  {
    hide Find, ReadBounds, Repeated, BuildRepetition, SetLast, Last, CanRepeat;
  }

  // What the loop does anywhere else.
  lemma {:induction false} AtOther(p: string, i: nat, items: seq<Item>, st: PState, cfg: Config)
    requires i < |p| && p[i] != '{'
    ensures var c := p[i];
            Loop(p, i, items, st, cfg) ==
            if c == '.' then
              var r := AddRule(st.rules, "dot", DotRule(cfg.dotall));
              Loop(p, i + 1, items + [Rule(Ref(r.1))], st.(rules := r.0), cfg)
            else if c == '(' then
              var inner := Loop(p, i + 1, [], st, cfg);
              if inner.Done? then Loop(p, inner.i, items + [Rule(inner.e)], inner.st, cfg) else inner
            else if c == ')' then Done(i + 1, JoinSeq(items), st)
            else if c == '|' then Loop(p, i + 1, items + [Bar], st, cfg)
            else if c == '*' || c == '+' || c == '?' then
              if CanRepeat(items) then Loop(p, i + 1, Postfix(items, c), st, cfg) else Outside
            else if c == '[' || c == '\\' || c == '"' then Outside
            else if c == ']' || c == '}' then Stuck
            else var k := LiteralEnd(p, i, i + 1); Loop(p, k, items + [Literal(p[i..k])], st, cfg)
  {
    hide AddRule, DotRule, Postfix, CanRepeat, LiteralEnd, JoinSeq;
  }

  datatype Translated = Translated(rules: Rules, key: string) | NoPattern | NotCovered | Diverges

  // `pattern` must be anchored; the rule added accepts the quoted text.
  function Translate(pattern: string, rules: Rules, cfg: Config): (o: Translated)
    ensures o.Translated? ==> Extends(o.rules, rules)
  {
    if pattern == "" || !(pattern[0] == '^' && pattern[|pattern| - 1] == '$') then NoPattern
    else
      match Loop(pattern[1..|pattern| - 1], 0, [], PState(rules, map[]), cfg)
      case Outside => NotCovered
      case Stuck => Diverges
      case Done(_, e, st) =>
        var r := AddRule(st.rules, cfg.name, Quoted(e));
        Translated(r.0, r.1)
  }

  function Quoted(e: Expr): Expr { CatAll([Lit("\""), e, Lit("\""), Ref("space")]) }

  // ---------- the translation in place ----------

  // Merges consecutive literals, as the source does before it writes a sequence out.
  method JoinItems(items: seq<Item>) returns (ret: seq<Item>)
    ensures ret == Merged("", items)
  {
    ret := [];
    var literal := "";
    var k := 0;
    assert items[0..] == items;
    while k < |items|
      invariant 0 <= k <= |items|
      invariant Merged("", items) == ret + Merged(literal, items[k..])
    {
      assert items[k..][0] == items[k] && items[k..][1..] == items[k + 1..];
      ghost var tail := Merged("", items[k + 1..]);
      if items[k].Literal? {
        literal := literal + items[k].text;
      } else {
        ghost var before, acc := ret, literal;
        if literal != "" {
          ret := ret + [Literal(literal)];
          literal := "";
        }
        ret := ret + [items[k]];
        assert ret == before + (FlushLiteral(acc) + [items[k]]);
        assert before + ((FlushLiteral(acc) + [items[k]]) + tail) == ret + tail;
      }
      k := k + 1;
    }
    ghost var before, acc := ret, literal;
    if literal != "" {
      ret := ret + [Literal(literal)];
    }
    assert Merged(acc, items[k..]) == FlushLiteral(acc);
    assert ret == before + FlushLiteral(acc);
  }

  class PatternVisitor {
    const p: string
    const cfg: Config
    var i: nat
    var rules: Rules
    var subIds: map<Expr, string>

    constructor (subPattern: string, config: Config, table: Rules)
      ensures p == subPattern && cfg == config && i == 0 && State() == PState(table, map[])
    {
      p, cfg, i, rules, subIds := subPattern, config, 0, table, map[];
    }

    function State(): PState
      reads this
    {
      PState(rules, subIds)
    }

    // The rule that stands for the repeated item.
    method Repeat(it: Item) returns (e: Expr)
      requires !it.Bar?
      modifies this`rules, this`subIds
      ensures (State(), e) == Repeated(old(State()), cfg.name, it)
    {
      match it
      case Literal(t) => e := Lit(t);
      case Rule(sub) =>
        if sub !in subIds {
          var r := AddRule(rules, cfg.name + "-" + Decimal(|subIds| + 1), sub);
          rules := r.0;
          subIds := subIds[sub := r.1];
        }
        e := Ref(subIds[sub]);
    }

    // "{m,n}" at the index: the last item becomes its repetition.  False when it is not covered.
    method Curly(items: seq<Item>) returns (ok: bool, result: seq<Item>)
      requires i < |p| && p[i] == '{'
      modifies this
      ensures old(i) < i <= |p|
      ensures ok ==> Loop(p, old(i), items, old(State()), cfg) == Loop(p, i, result, State(), cfg)
      ensures !ok ==> Loop(p, old(i), items, old(State()), cfg) == Outside
    {
      hide Loop, ReadBounds, Repeated, BuildRepetition;
      AtCurly(p, i, items, State(), cfg);
      i := i + 1;
      var first := i;
      while i < |p| && p[i] != '}'
        invariant first <= i <= |p| && State() == old(State()) && forall k :: first <= k < i ==> p[k] != '}'
      {
        i := i + 1;
      }
      assert Find(p, '}', first) == i;
      if i == |p| { return false, items; }
      var bounds := ReadBounds(p[first..i]);
      i := i + 1;
      if items == [] || items[|items| - 1].Bar? || bounds.None? { return false, items; }
      assert CanRepeat(items);
      var last := items[|items| - 1];
      var e := Repeat(last);
      ok, result := true, items[|items| - 1 := Rule(BuildRepetition(e, bounds.value.0, bounds.value.1))];
    }

    // The longest literal at the index that nothing behind it binds to.
    method ScanLiteral() returns (literal: string)
      requires i < |p| && !NonLiteral(p[i]) && p[i] !in {'\\', '"'}
      modifies this`i
      ensures i == LiteralEnd(p, old(i), old(i) + 1) && literal == p[old(i)..i]
    {
      var start := i;
      literal := "";
      while i < |p| && p[i] !in {'\\', '"'} && !NonLiteral(p[i])
            && (i == |p| - 1 || literal == "" || p[i + 1] == '.' || !NonLiteral(p[i + 1]))
        invariant start <= i <= |p| && literal == p[start..i]
        invariant LiteralEnd(p, start, i) == LiteralEnd(p, start, start)
        decreases |p| - i
      {
        literal := literal + [p[i]];
        i := i + 1;
      }
    }

    // The inner recursive function: all items up to the closing parenthesis or the end.
    method Transform() returns (o: Outcome)
      requires i <= |p|
      modifies this
      ensures o == Loop(p, old(i), [], old(State()), cfg)
      ensures o.Done? ==> i == o.i && State() == o.st
      decreases |p| - i
    {
      hide AddRule, DotRule, ToRule, ReadRule;
      var items: seq<Item> := [];
      while i < |p|
        invariant old(i) <= i <= |p|
        invariant Loop(p, i, items, State(), cfg) == Loop(p, old(i), [], old(State()), cfg)
        decreases |p| - i
      {
        hide Loop;
        var c := p[i];
        if c != '{' { AtOther(p, i, items, State(), cfg); }
        if c == '.' {
          var r := AddRule(rules, "dot", DotRule(cfg.dotall));
          ghost var st := State();
          rules := r.0;
          assert State() == st.(rules := r.0);
          items := items + [Rule(Ref(r.1))];
          i := i + 1;
        } else if c == '(' {
          i := i + 1;
          var inner := Transform();
          if !inner.Done? { return inner; }
          items := items + [Rule(inner.e)];
        } else if c == ')' {
          i := i + 1;
          var merged := JoinItems(items);
          return Done(i, ReadRule([], merged), State());
        } else if c == '|' {
          items := items + [Bar];
          i := i + 1;
        } else if c == '*' || c == '+' || c == '?' {
          if items == [] || items[|items| - 1].Bar? { return Outside; }
          var last := ToRule(items[|items| - 1]);
          ghost var before := items;
          items := items[|items| - 1 := Rule(Rep(last, if c == '+' then 1 else 0, if c == '?' then Some(1) else None))];
          assert CanRepeat(before) && items == Postfix(before, c);
          hide Postfix, CanRepeat;
          i := i + 1;
        } else if c == '{' {
          var ok, result := Curly(items);
          if !ok { return Outside; }
          items := result;
        } else if c == '[' || c == '\\' || c == '"' {
          return Outside;
        } else if c == ']' || c == '}' {
          return Stuck;
        } else {
          hide LiteralEnd, NonLiteral;
          var literal := ScanLiteral();
          items := items + [Literal(literal)];
        }
      }
      var merged := JoinItems(items);
      return Done(i, ReadRule([], merged), State());
    }
  }

  method VisitPattern(pattern: string, rules: Rules, cfg: Config) returns (o: Translated)
    ensures o == Translate(pattern, rules, cfg)
  {
    if pattern == "" || !(pattern[0] == '^' && pattern[|pattern| - 1] == '$') { return NoPattern; }
    var v := new PatternVisitor(pattern[1..|pattern| - 1], cfg, rules);
    var done := v.Transform();
    match done
    case Outside => o := NotCovered;
    case Stuck => o := Diverges;
    case Done(_, e, _) =>
      var r := AddRule(v.rules, cfg.name, Quoted(e));
      o := Translated(r.0, r.1);
  }
}
