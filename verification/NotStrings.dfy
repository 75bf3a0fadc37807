/** The rule for a JSON string that is none of the given strings (`_not_strings`): a trie of the
    excluded strings, walked into nested alternatives. */
module NotStrings {
  import opened Basics
  import opened Gbnf

  // Children in increasing order of their character, as std::map keeps them.
  datatype Trie = Node(children: seq<Edge>, end: bool)
  datatype Edge = Edge(c: char, sub: Trie)

  const EMPTY := Node([], false)

  predicate Sorted(es: seq<Edge>) { forall i, j :: 0 <= i < j < |es| ==> es[i].c < es[j].c }

  function Find(es: seq<Edge>, c: char): (r: Option<Trie>)
  {
    if es == [] then None else if es[0].c == c then Some(es[0].sub) else Find(es[1..], c)
  }

  function Insert(t: Trie, s: string): (r: Trie)
    ensures r.children == [] ==> r.end
    decreases |s|, 0, 0
  {
    if s == [] then Node(t.children, true) else Node(InsertEdge(t.children, s), t.end)
  }

  function InsertEdge(es: seq<Edge>, s: string): (r: seq<Edge>)
    requires s != []
    ensures r != []
    decreases |s| - 1, 1, |es|
  {
    if es == [] || s[0] < es[0].c then [Edge(s[0], Insert(EMPTY, s[1..]))] + es
    else if es[0].c == s[0] then [Edge(s[0], Insert(es[0].sub, s[1..]))] + es[1..]
    else [es[0]] + InsertEdge(es[1..], s)
  }

  function TrieOf(strings: seq<string>): Trie {
    if strings == [] then EMPTY else Insert(TrieOf(strings[..|strings| - 1]), strings[|strings| - 1])
  }

  ghost predicate WellFormed(t: Trie) {
    Sorted(t.children)
    && forall i :: 0 <= i < |t.children| ==>
         WellFormed(t.children[i].sub) && (t.children[i].sub.children == [] ==> t.children[i].sub.end)
  }

  lemma {:induction false} InsertWellFormed(t: Trie, s: string)
    requires WellFormed(t)
    ensures WellFormed(Insert(t, s))
    decreases |s|, 0, 0
  {
    if s != [] {
      assert WellFormed(Node(t.children, false));
      InsertEdgeWellFormed(t.children, s);
      assert WellFormed(Node(InsertEdge(t.children, s), false));
    }
  }

  lemma {:induction false} WellFormedCons(e: Edge, rest: seq<Edge>)
    requires WellFormed(e.sub) && (e.sub.children == [] ==> e.sub.end)
    requires WellFormed(Node(rest, false)) && (rest != [] ==> e.c < rest[0].c)
    ensures WellFormed(Node([e] + rest, false))
  {
    var es := [e] + rest;
    assert forall i :: 0 < i < |es| ==> es[i] == rest[i - 1];
  }

  lemma {:induction false} WellFormedTail(es: seq<Edge>)
    requires es != [] && WellFormed(Node(es, false))
    ensures WellFormed(es[0].sub) && WellFormed(Node(es[1..], false)) && (|es| > 1 ==> es[0].c < es[1].c)
  {
    assert forall i :: 0 <= i < |es[1..]| ==> es[1..][i] == es[i + 1];
  }

  lemma {:induction false} InsertEdgeWellFormed(es: seq<Edge>, s: string)
    requires WellFormed(Node(es, false)) && s != []
    ensures WellFormed(Node(InsertEdge(es, s), false))
    ensures InsertEdge(es, s)[0].c == if es == [] || s[0] < es[0].c then s[0] else es[0].c
    decreases |s| - 1, 1, |es|
  {
    if es != [] { WellFormedTail(es); }
    if es == [] || s[0] < es[0].c {
      InsertWellFormed(EMPTY, s[1..]);
      WellFormedCons(Edge(s[0], Insert(EMPTY, s[1..])), es);
    } else if es[0].c == s[0] {
      InsertWellFormed(es[0].sub, s[1..]);
      WellFormedCons(Edge(s[0], Insert(es[0].sub, s[1..])), es[1..]);
    } else {
      InsertEdgeWellFormed(es[1..], s);
      WellFormedCons(es[0], InsertEdge(es[1..], s));
    }
  }

  lemma {:induction false} TrieWellFormed(strings: seq<string>)
    ensures WellFormed(TrieOf(strings))
  {
    if strings != [] {
      TrieWellFormed(strings[..|strings| - 1]);
      InsertWellFormed(TrieOf(strings[..|strings| - 1]), strings[|strings| - 1]);
    }
  }

  // ---------- what a trie says about a string ----------

  predicate Spells(t: Trie, s: string)
    decreases |s|
  {
    s == [] || (Find(t.children, s[0]).Some? && Spells(Find(t.children, s[0]).value, s[1..]))
  }

  function GetOr(o: Option<Trie>, default: Trie): Trie { if o.Some? then o.value else default }

  lemma {:induction false} InsertFind(es: seq<Edge>, w: string, c: char)
    requires w != [] && Sorted(es)
    ensures Find(InsertEdge(es, w), c)
            == if c == w[0] then Some(Insert(GetOr(Find(es, c), EMPTY), w[1..])) else Find(es, c)
  {
    if es == [] || w[0] < es[0].c {
      assert InsertEdge(es, w)[1..] == es;
      NotBelow(es, w[0]);
    } else if es[0].c == w[0] {
      assert InsertEdge(es, w)[1..] == es[1..];
    } else {
      assert InsertEdge(es, w)[1..] == InsertEdge(es[1..], w);
      InsertFind(es[1..], w, c);
    }
  }

  lemma {:induction false} NotBelow(es: seq<Edge>, c: char)
    requires Sorted(es) && (es != [] ==> c < es[0].c)
    ensures Find(es, c).None?
  {
    if es != [] { NotBelow(es[1..], c); }
  }

  lemma {:induction false} FindAt(es: seq<Edge>, c: char) returns (i: nat)
    requires Find(es, c).Some?
    ensures i < |es| && es[i].c == c && Find(es, c) == Some(es[i].sub)
  {
    if es[0].c == c { i := 0; } else { i := FindAt(es[1..], c); i := i + 1; }
  }

  lemma {:induction false} FindUnique(es: seq<Edge>, i: nat)
    requires Sorted(es) && i < |es|
    ensures Find(es, es[i].c) == Some(es[i].sub)
  {
    if i > 0 {
      assert es[0].c < es[i].c;
      FindUnique(es[1..], i - 1);
    }
  }

  lemma {:induction false} InsertSpells(t: Trie, w: string, s: string)
    requires WellFormed(t)
    ensures Spells(Insert(t, w), s) <==> Spells(t, s) || s <= w
    decreases |s|
  {
    if s != [] && w != [] {
      InsertFind(t.children, w, s[0]);
      if s[0] == w[0] {
        assert s == [s[0]] + s[1..] && w == [w[0]] + w[1..];
        var found := Find(t.children, s[0]);
        if found.Some? {
          var i := FindAt(t.children, s[0]);
          InsertSpells(found.value, w[1..], s[1..]);
        } else {
          InsertSpells(EMPTY, w[1..], s[1..]);
        }
      }
    }
  }

  // A trie spells exactly the prefixes of the strings put in (and the empty string).
  lemma {:induction false} TrieSpells(strings: seq<string>, s: string)
    ensures Spells(TrieOf(strings), s) <==> s == [] || exists i :: 0 <= i < |strings| && s <= strings[i]
  {
    if strings != [] {
      var n := |strings| - 1;
      TrieSpells(strings[..n], s);
      TrieWellFormed(strings[..n]);
      InsertSpells(TrieOf(strings[..n]), strings[n], s);
      assert forall i :: 0 <= i < n ==> strings[..n][i] == strings[i];
    }
  }

  lemma {:induction false} TrieEnd(strings: seq<string>)
    ensures TrieOf(strings).end <==> "" in strings
  {
    if strings != [] {
      var n := |strings| - 1;
      TrieEnd(strings[..n]);
      assert strings == strings[..n] + [strings[n]];
      assert strings[n] == [] || strings[n] != "";
    }
  }

  // ---------- the rule ----------

  function CharRule(): Expr { Ref("char") }

  function OneChar(c: char): Expr { Class([(c, c)], false) }

  // What follows the character of an edge.
  function EdgeExpr(e: Edge): Expr {
    if e.sub.children != [] then Cat(OneChar(e.c), Visit(e.sub))
    else if e.sub.end then Cat(OneChar(e.c), Rep(CharRule(), 1, None))
    else OneChar(e.c)
  }

  function Rejects(es: seq<Edge>): seq<(char, char)> {
    [('"', '"')] + seq(|es|, i requires 0 <= i < |es| => (es[i].c, es[i].c))
  }

  function Visit(t: Trie): Expr
    requires t.children != []
  {
    AltAll(EdgeAlts(t.children) + [Cat(Class(Rejects(t.children), true), Rep(CharRule(), 0, None))])
  }

  function EdgeAlts(es: seq<Edge>): seq<Expr> {
    seq(|es|, i requires 0 <= i < |es| => EdgeExpr(es[i]))
  }

  function Body(t: Trie): Expr {
    var inner := if t.children == [] then Lit("") else Visit(t);
    if t.end then inner else Rep(inner, 0, Some(1))
  }

  function NotStringsExpr(strings: seq<string>): Expr {
    CatAll([OneChar('"'), Body(TrieOf(strings)), OneChar('"'), Ref("space")])
  }

  // ---------- the characters of a JSON string, as they are written ----------

  // Not a quote, a backslash or a control character: what the first alternative of "char" allows.
  predicate Plain(c: char) {
    c != '"' && c != '\\' && c as int != 0x7f && c as int > 0x1f
  }

  predicate AllPlain(s: string) { forall i :: 0 <= i < |s| ==> Plain(s[i]) }

  predicate ShortEscape(c: char) { c in {'"', '\\', 'b', 'f', 'n', 'r', 't'} }

  predicate IsHex(c: char) { '0' <= c <= '9' || 'a' <= c <= 'f' || 'A' <= c <= 'F' }

  predicate AllHex(s: string) { forall i :: 0 <= i < |s| ==> IsHex(s[i]) }

  // How much of the text its first written character takes; none when it begins with no such character.
  function CharWidth(s: string): (n: nat)
    ensures n <= |s|
  {
    if s == [] then 0
    else if Plain(s[0]) then 1
    else if s[0] != '\\' || |s| == 1 then 0
    else if ShortEscape(s[1]) then 2
    else if s[1] == 'u' && |s| >= 6 && AllHex(s[2..6]) then 6
    else 0
  }

  // The text is a sequence of written characters.
  predicate CharText(s: string)
    decreases |s|
  {
    s == [] || (CharWidth(s) > 0 && CharText(s[CharWidth(s)..]))
  }

  // PRIMITIVE_RULES["char"]: a plain character, or a backslash and what JSON allows behind it.
  const CHAR_CONTENT: Expr :=
    Alt(Class([('"', '"'), ('\\', '\\'), (0x7f as char, 0x7f as char), (0 as char, 0x1f as char)], true),
        Cat(Class([('\\', '\\')], false),
            Alt(Class([('"', '"'), ('\\', '\\'), ('b', 'b'), ('f', 'f'), ('n', 'n'), ('r', 'r'), ('t', 't')], false),
                Cat(Lit("u"), Rep(Class([('0', '9'), ('a', 'f'), ('A', 'F')], false), 4, Some(4))))))

  ghost predicate HasCharRule(g: Rules) { "char" in g && g["char"] == CHAR_CONTENT }

  lemma {:induction false} InPlainClass(c: char)
    ensures InClass(c, CHAR_CONTENT.left.ranges) <==> !Plain(c)
  {
    var rs := CHAR_CONTENT.left.ranges;
    assert rs[0] == ('"', '"') && rs[1] == ('\\', '\\') && rs[2].0 == rs[2].1 == 0x7f as char && rs[3].1 == 0x1f as char;
  }

  lemma {:induction false} InBackslashClass(c: char)
    ensures InClass(c, [('\\', '\\')]) <==> c == '\\'
  {
    assert [('\\', '\\')][0] == ('\\', '\\');
  }

  lemma {:induction false} InShortClass(c: char)
    ensures InClass(c, CHAR_CONTENT.right.right.left.ranges) <==> ShortEscape(c)
  {
    var rs := CHAR_CONTENT.right.right.left.ranges;
    assert rs[0].0 == '"' && rs[1].0 == '\\' && rs[2].0 == 'b' && rs[3].0 == 'f' && rs[4].0 == 'n' && rs[5].0 == 'r' && rs[6].0 == 't';
  }

  const HEX_RANGES := [('0', '9'), ('a', 'f'), ('A', 'F')]

  lemma {:induction false} InHexClass(c: char)
    ensures InClass(c, HEX_RANGES) <==> IsHex(c)
  {
    var rs := HEX_RANGES;
    assert rs[0] == ('0', '9') && rs[1] == ('a', 'f') && rs[2] == ('A', 'F');
  }

  lemma {:induction false} FourHex(g: Rules, s: string)
    ensures Accepts(g, Rep(Class(HEX_RANGES, false), 4, Some(4)), s) <==> |s| == 4 && AllHex(s)
  {
    hide Accepts;
    AcceptsRepClass(g, HEX_RANGES, false, 4, Some(4), s);
    forall i | 0 <= i < |s| ensures InClass(s[i], HEX_RANGES) <==> IsHex(s[i]) { InHexClass(s[i]); }
  }

  // What may stand behind the backslash.
  lemma {:induction false} BehindEscape(g: Rules, s: string)
    ensures Accepts(g, CHAR_CONTENT.right.right, s)
            <==> (|s| == 1 && ShortEscape(s[0])) || (|s| == 5 && s[0] == 'u' && AllHex(s[1..]))
  {
    hide Accepts;
    var short := CHAR_CONTENT.right.right.left;
    var long := CHAR_CONTENT.right.right.right;
    AcceptsAlt(g, short, long, s);
    AcceptsClass(g, short.ranges, false, s);
    if |s| == 1 { InShortClass(s[0]); }
    CatLit(g, "u", long.right, s);
    if "u" <= s { FourHex(g, s[1..]); }
  }

  // The rule "char" accepts exactly one written character.
  lemma {:induction false} CharExact(g: Rules, s: string)
    requires HasCharRule(g)
    ensures Accepts(g, CharRule(), s) <==> s != [] && CharWidth(s) == |s|
  {
    AcceptsRef(g, "char", s);
    hide Accepts;
    var plain, escape := CHAR_CONTENT.left, CHAR_CONTENT.right;
    AcceptsAlt(g, plain, escape, s);
    AcceptsClass(g, plain.ranges, true, s);
    CatClass(g, escape.left.ranges, false, escape.right, s);
    if s != [] {
      InPlainClass(s[0]);
      InBackslashClass(s[0]);
      BehindEscape(g, s[1..]);
      assert |s| == 6 ==> s[1..][1..] == s[2..6];
    }
  }

  // A written character keeps its width whatever follows.
  lemma {:induction false} WidthStays(c: string, rest: string)
    requires c != [] && CharWidth(c) == |c|
    ensures CharWidth(c + rest) == |c| && (c + rest)[|c|..] == rest
  {
    var s := c + rest;
    assert s[0] == c[0] && (|c| > 1 ==> s[1] == c[1]);
    assert |c| == 6 ==> s[2..6] == c[2..6];
  }

  lemma {:induction false} PartsAreText(g: Rules, parts: seq<string>)
    requires HasCharRule(g) && AllAccepted(g, CharRule(), parts)
    ensures CharText(Flat(parts)) && (parts != [] ==> Flat(parts) != [])
  {
    hide Accepts, CharWidth;
    if parts != [] {
      CharExact(g, parts[0]);
      PartsAreText(g, parts[1..]);
      WidthStays(parts[0], Flat(parts[1..]));
    }
  }

  function CharParts(s: string): (parts: seq<string>)
    requires CharText(s)
    decreases |s|
  {
    if s == [] then [] else [s[..CharWidth(s)]] + CharParts(s[CharWidth(s)..])
  }

  lemma {:induction false} WidthOfFront(s: string)
    requires CharWidth(s) > 0
    ensures CharWidth(s[..CharWidth(s)]) == CharWidth(s)
  {
    var n := CharWidth(s);
    assert n == 6 ==> s[..n][2..6] == s[2..6];
  }

  lemma {:induction false} CharPartsAre(g: Rules, s: string)
    requires HasCharRule(g) && CharText(s)
    ensures Flat(CharParts(s)) == s && AllAccepted(g, CharRule(), CharParts(s)) && (s != [] ==> CharParts(s) != [])
    decreases |s|
  {
    hide Accepts, CharWidth;
    if s != [] {
      var n := CharWidth(s);
      WidthOfFront(s);
      CharExact(g, s[..n]);
      CharPartsAre(g, s[n..]);
      assert s == s[..n] + s[n..];
    }
  }

  // Repeating "char" accepts exactly the written texts.
  lemma {:induction false} CharsExact(g: Rules, lo: nat, s: string)
    requires HasCharRule(g) && lo <= 1
    ensures Accepts(g, Rep(CharRule(), lo, None), s) <==> CharText(s) && lo <= |s|
  {
    hide Accepts, CharText;
    if Accepts(g, Rep(CharRule(), lo, None), s) {
      var parts := RepSplit(g, CharRule(), lo, None, s);
      PartsAreText(g, parts);
    }
    if CharText(s) && lo <= |s| {
      CharPartsAre(g, s);
      RepJoin(g, CharRule(), lo, None, CharParts(s));
    }
  }

  // ---------- the language of the rule, on all texts ----------

  lemma {:induction false} InRejects(es: seq<Edge>, c: char)
    requires Sorted(es)
    ensures InClass(c, Rejects(es)) <==> c == '"' || Find(es, c).Some?
  {
    var rs := Rejects(es);
    assert rs[0] == ('"', '"');
    if Find(es, c).Some? {
      var i := FindAt(es, c);
      assert rs[i + 1] == (c, c);
    }
    if i :| 0 <= i < |rs| && rs[i].0 <= c <= rs[i].1 { if i > 0 { FindUnique(es, i - 1); } }
  }

  // Along the trie, then off it.
  predicate Passes(t: Trie, s: string)
    decreases |s|
  {
    s != [] &&
    match Find(t.children, s[0])
    case Some(sub) => if sub.children != [] then Passes(sub, s[1..]) else s[1..] != [] && CharText(s[1..])
    case None => s[0] != '"' && CharText(s[1..])
  }

  lemma {:induction false} VisitExact(g: Rules, t: Trie, s: string)
    requires HasCharRule(g) && WellFormed(t) && t.children != []
    ensures Accepts(g, Visit(t), s) <==> Passes(t, s)
    decreases |s|, 1
  {
    hide Accepts, CharText;
    var es := t.children;
    var alts := EdgeAlts(es);
    var other := Cat(Class(Rejects(es), true), Rep(CharRule(), 0, None));
    AcceptsAltAll(g, alts + [other], s);
    assert forall i :: 0 <= i < |es| ==> (alts + [other])[i] == EdgeExpr(es[i]);
    assert (alts + [other])[|es|] == other;
    CatClass(g, Rejects(es), true, Rep(CharRule(), 0, None), s);
    if s == [] {
      forall i | 0 <= i < |es| ensures !Accepts(g, EdgeExpr(es[i]), s) {
        EdgeNeedsChar(g, es[i]);
      }
    } else {
      InRejects(es, s[0]);
      CharsExact(g, 0, s[1..]);
      forall i | 0 <= i < |es| ensures Accepts(g, EdgeExpr(es[i]), s) <==> es[i].c == s[0] && PassesBelow(es[i].sub, s[1..]) {
        EdgeExact(g, es[i], s);
      }
      forall i | 0 <= i < |es| && es[i].c == s[0] ensures Find(es, s[0]) == Some(es[i].sub) { FindUnique(es, i); }
      if Find(es, s[0]).Some? {
        var k := FindAt(es, s[0]);
        assert (alts + [other])[k] == EdgeExpr(es[k]);
      }
    }
  }

  predicate PassesBelow(sub: Trie, s: string)
  {
    if sub.children != [] then Passes(sub, s) else s != [] && CharText(s)
  }

  lemma {:induction false} EdgeNeedsChar(g: Rules, e: Edge)
    ensures !Accepts(g, EdgeExpr(e), [])
  {
    AcceptsClass(g, [(e.c, e.c)], false, []);
    if e.sub.children != [] {
      CatClass(g, [(e.c, e.c)], false, Visit(e.sub), []);
    } else {
      CatClass(g, [(e.c, e.c)], false, Rep(CharRule(), 1, None), []);
    }
  }

  lemma {:induction false} EdgeExact(g: Rules, e: Edge, s: string)
    requires HasCharRule(g) && s != [] && WellFormed(e.sub) && (e.sub.children == [] ==> e.sub.end)
    ensures Accepts(g, EdgeExpr(e), s) <==> e.c == s[0] && PassesBelow(e.sub, s[1..])
    decreases |s|, 0
  {
    hide Accepts, CharText;
    var rs := [(e.c, e.c)];
    assert InClass(s[0], rs) <==> s[0] == e.c by { assert rs[0] == (e.c, e.c); }
    if e.sub.children != [] {
      CatClass(g, rs, false, Visit(e.sub), s);
      VisitExact(g, e.sub, s[1..]);
    } else {
      CatClass(g, rs, false, Rep(CharRule(), 1, None), s);
      CharsExact(g, 1, s[1..]);
    }
  }

  // ---------- the same in terms of the excluded strings ----------

  predicate PrefixOfSome(s: string, strings: seq<string>) {
    exists i :: 0 <= i < |strings| && s <= strings[i]
  }

  // Some excluded string goes on behind `s`.
  predicate GoesOn(s: string, strings: seq<string>) {
    exists i :: 0 <= i < |strings| && s <= strings[i] && |s| < |strings[i]|
  }

  predicate SomeNonempty(strings: seq<string>) { exists i :: 0 <= i < |strings| && strings[i] != "" }

  // The text leaves the excluded strings at `k`: by a character none of them has there, which may be
  // anything but a quote, or behind the end of one that no other continues.  Written characters follow.
  predicate LeavesAt(strings: seq<string>, s: string, k: int) {
    && 0 <= k < |s| && (k > 0 ==> PrefixOfSome(s[..k], strings))
    && if GoesOn(s[..k], strings) then !PrefixOfSome(s[..k + 1], strings) && s[k] != '"' && CharText(s[k + 1..])
       else CharText(s[k..])
  }

  ghost predicate Leaves(strings: seq<string>, s: string) { exists k :: LeavesAt(strings, s, k) }

  predicate TrieLeavesAt(t: Trie, s: string, k: int) {
    && 0 <= k < |s| && Spells(t, s[..k])
    && if Deeper(t, s[..k]) then !Spells(t, s[..k + 1]) && s[k] != '"' && CharText(s[k + 1..]) else CharText(s[k..])
  }

  predicate Deeper(t: Trie, p: string)
    decreases |p|
  {
    if p == [] then t.children != [] else Find(t.children, p[0]).Some? && Deeper(Find(t.children, p[0]).value, p[1..])
  }

  lemma {:induction false} LeavesBelow(t: Trie, s: string, k: int)
    requires s != [] && k > 0
    ensures TrieLeavesAt(t, s, k) <==> Find(t.children, s[0]).Some? && TrieLeavesAt(Find(t.children, s[0]).value, s[1..], k - 1)
  {
    hide CharText;
    if k < |s| {
      assert s[..k][0] == s[0] && s[..k][1..] == s[1..][..k - 1];
      assert s[..k + 1][0] == s[0] && s[..k + 1][1..] == s[1..][..k];
      assert s[1..][k - 1..] == s[k..] && s[1..][k..] == s[k + 1..];
    }
  }

  lemma {:induction false} ChildlessLeaves(t: Trie, s: string, k: int)
    requires t.children == []
    ensures TrieLeavesAt(t, s, k) <==> k == 0 && s != [] && CharText(s)
  {
    if 0 < k < |s| { assert s[..k][0] == s[0]; }
    assert s[0..] == s;
  }

  lemma {:induction false} LeavesAtOnce(t: Trie, s: string)
    requires t.children != [] && s != []
    ensures TrieLeavesAt(t, s, 0) <==> Find(t.children, s[0]).None? && s[0] != '"' && CharText(s[1..])
  {
    hide CharText, Find;
    var k := 0;
    assert s[..k] == [] && s[..k + 1] == [s[0]];
    assert Spells(t, [s[0]]) <==> Find(t.children, s[0]).Some? by { assert [s[0]][1..] == []; }
    assert Deeper(t, []) && Spells(t, []);
  }

  lemma {:induction false} PassesLeaves(t: Trie, s: string)
    requires t.children != []
    ensures Passes(t, s) <==> exists k :: TrieLeavesAt(t, s, k)
    decreases |s|
  {
    hide CharText;
    if s != [] {
      LeavesAtOnce(t, s);
      var found := Find(t.children, s[0]);
      if found.Some? {
        var sub := found.value;
        if sub.children != [] {
          PassesLeaves(sub, s[1..]);
          if k :| TrieLeavesAt(sub, s[1..], k) { LeavesBelow(t, s, k + 1); }
          if k :| TrieLeavesAt(t, s, k) { if k > 0 { LeavesBelow(t, s, k); } }
        } else {
          ChildlessLeaves(sub, s[1..], 0);
          LeavesBelow(t, s, 1);
          if k :| TrieLeavesAt(t, s, k) { if k > 0 { LeavesBelow(t, s, k); ChildlessLeaves(sub, s[1..], k - 1); } }
        }
      } else {
        if k :| TrieLeavesAt(t, s, k) { if k > 0 { LeavesBelow(t, s, k); } }
      }
    }
  }

  lemma {:induction false} DeeperSpells(t: Trie, p: string, c: char)
    requires WellFormed(t) && Spells(t, p + [c])
    ensures Deeper(t, p)
    decreases |p|
  {
    if p == [] {
      assert (p + [c])[0] == c;
    } else {
      assert (p + [c])[0] == p[0] && (p + [c])[1..] == p[1..] + [c];
      var i := FindAt(t.children, p[0]);
      DeeperSpells(Find(t.children, p[0]).value, p[1..], c);
    }
  }

  lemma {:induction false} SpellsDeeper(t: Trie, p: string) returns (c: char)
    requires WellFormed(t) && Deeper(t, p)
    ensures Spells(t, p + [c])
    decreases |p|
  {
    if p == [] {
      c := t.children[0].c;
      assert ([] + [c])[0] == c && ([] + [c])[1..] == [];
    } else {
      var i := FindAt(t.children, p[0]);
      c := SpellsDeeper(Find(t.children, p[0]).value, p[1..]);
      assert (p + [c])[0] == p[0] && (p + [c])[1..] == p[1..] + [c];
    }
  }

  lemma {:induction false} DeeperIsGoesOn(strings: seq<string>, p: string)
    ensures Deeper(TrieOf(strings), p) <==> GoesOn(p, strings)
  {
    var t := TrieOf(strings);
    TrieWellFormed(strings);
    hide TrieOf;
    if Deeper(t, p) {
      var c := SpellsDeeper(t, p);
      TrieSpells(strings, p + [c]);
    }
    if i :| 0 <= i < |strings| && p <= strings[i] && |p| < |strings[i]| {
      var c := strings[i][|p|];
      assert p + [c] <= strings[i];
      TrieSpells(strings, p + [c]);
      DeeperSpells(t, p, c);
    }
  }

  lemma {:induction false} LeavesSame(strings: seq<string>, s: string, k: int)
    ensures TrieLeavesAt(TrieOf(strings), s, k) <==> LeavesAt(strings, s, k)
  {
    hide TrieOf, CharText, Spells, Deeper, GoesOn;
    if 0 <= k < |s| {
      TrieSpells(strings, s[..k]);
      TrieSpells(strings, s[..k + 1]);
      DeeperIsGoesOn(strings, s[..k]);
    }
  }

  // Main result: the texts the rule accepts between its quotes, for every list of excluded strings.
  lemma {:induction false} BodyExact(g: Rules, strings: seq<string>, s: string)
    requires HasCharRule(g)
    ensures Accepts(g, Body(TrieOf(strings)), s)
            <==> if SomeNonempty(strings) then (s == "" && "" !in strings) || Leaves(strings, s) else s == ""
  {
    hide Accepts, TrieOf, Spells, Passes, Visit, LeavesAt, TrieLeavesAt;
    var t := TrieOf(strings);
    TrieWellFormed(strings);
    DeeperIsGoesOn(strings, "");
    TrieEnd(strings);
    if t.children == [] {
      AcceptsLit(g, "", s);
      AcceptsOptional(g, Lit(""), s);
    } else {
      VisitExact(g, t, s);
      AcceptsOptional(g, Visit(t), s);
      NothingPasses(t);
      PassesLeaves(t, s);
      forall k: int ensures TrieLeavesAt(t, s, k) <==> LeavesAt(strings, s, k) { LeavesSame(strings, s, k); }
    }
  }

  lemma {:induction false} NothingPasses(t: Trie)
    ensures !Passes(t, "")
  {
  }

  // ---------- keys written plainly ----------

  lemma {:induction false} PlainIsText(s: string)
    requires AllPlain(s)
    ensures CharText(s)
    decreases |s|
  {
    if s != [] {
      assert Plain(s[0]);
      PlainIsText(s[1..]);
    }
  }

  // The last position up to which the text is in the excluded strings.
  lemma {:induction false} LastInside(strings: seq<string>, s: string, j: nat) returns (k: nat)
    requires j <= |s| && !PrefixOfSome(s, strings) && (j > 0 ==> PrefixOfSome(s[..j], strings))
    ensures k < |s| || s == ""
    ensures k <= |s| && (k > 0 ==> PrefixOfSome(s[..k], strings)) && (k < |s| ==> !PrefixOfSome(s[..k + 1], strings))
    decreases |s| - j
  {
    assert s[..|s|] == s;
    if j == |s| || !PrefixOfSome(s[..j + 1], strings) { k := j; } else { k := LastInside(strings, s, j + 1); }
  }

  // As long as the text is in an excluded string it does not leave.
  lemma {:induction false} NoLeaving(strings: seq<string>, s: string, i: nat, p: nat)
    requires i < |strings| && p <= |s| && s[..p] <= strings[i]
    ensures forall k :: 0 <= k < p ==> !LeavesAt(strings, s, k)
  {
    hide CharText;
    forall k | 0 <= k < p ensures !LeavesAt(strings, s, k) {
      assert s[..k] <= strings[i] && |s[..k]| < |strings[i]| && s[..k + 1] <= strings[i];
    }
  }

  lemma {:induction false} PrefixOfPrefix(a: string, b: string, t: string)
    requires a <= b
    ensures b <= t ==> a <= t
  {
  }

  // Once it has left it is not in an excluded string again.
  lemma {:induction false} NoLaterLeaving(strings: seq<string>, s: string, p: nat)
    requires p < |s| && !PrefixOfSome(s[..p + 1], strings)
    ensures forall k :: k > p ==> !LeavesAt(strings, s, k)
  {
    hide CharText;
    forall k | p < k < |s| ensures !PrefixOfSome(s[..k], strings) {
      forall i | 0 <= i < |strings| ensures !(s[..k] <= strings[i]) {
        PrefixOfPrefix(s[..p + 1], s[..k], strings[i]);
      }
    }
  }

  // A non-empty plain string leaves the excluded strings iff it is no prefix of one.
  lemma {:induction false} PlainLeaves(strings: seq<string>, s: string)
    requires AllPlain(s) && s != ""
    ensures Leaves(strings, s) <==> !PrefixOfSome(s, strings)
  {
    hide CharText;
    if i :| 0 <= i < |strings| && s <= strings[i] {
      assert s[..|s|] == s;
      NoLeaving(strings, s, i, |s|);
    }
    if !PrefixOfSome(s, strings) {
      var k := LastInside(strings, s, 0);
      PlainIsText(s[k..]);
      PlainIsText(s[k + 1..]);
      assert Plain(s[k]);
      assert LeavesAt(strings, s, k);
    }
  }

  // Between the quotes, a non-empty plain string is accepted iff it is no prefix (proper or whole) of an
  // excluded string, and the empty string iff it is not excluded; with nothing but empty strings
  // excluded, the empty string alone is accepted.
  lemma {:induction false} PlainExact(g: Rules, strings: seq<string>, s: string)
    requires HasCharRule(g) && AllPlain(s)
    ensures Accepts(g, Body(TrieOf(strings)), s)
            <==> if !SomeNonempty(strings) then s == ""
                 else if s == "" then "" !in strings
                 else !PrefixOfSome(s, strings)
  {
    BodyExact(g, strings, s);
    hide Accepts, Body, TrieOf, LeavesAt;
    if s != "" { PlainLeaves(strings, s); } else { NothingLeaves(strings); }
  }

  lemma {:induction false} NothingLeaves(strings: seq<string>)
    ensures !Leaves(strings, "")
  {
  }

  ghost predicate RejectsExcluded(g: Rules, strings: seq<string>) {
    forall k :: 0 <= k < |strings| && AllPlain(strings[k]) ==> !Accepts(g, Body(TrieOf(strings)), strings[k])
  }

  // No excluded key written plainly is accepted iff none is excluded or some excluded key is not empty.
  lemma {:induction false} ExcludedExact(g: Rules, strings: seq<string>)
    requires HasCharRule(g)
    ensures RejectsExcluded(g, strings) <==> strings == [] || SomeNonempty(strings)
  {
    hide Accepts, Body, TrieOf;
    forall k | 0 <= k < |strings| && AllPlain(strings[k])
      ensures Accepts(g, Body(TrieOf(strings)), strings[k]) <==> !SomeNonempty(strings)
    {
      PlainExact(g, strings, strings[k]);
      assert strings[k] in strings && strings[k] <= strings[k];
    }
    if strings != [] && !SomeNonempty(strings) { assert strings[0] == "" && AllPlain(strings[0]); }
  }

  // With the empty key alone excluded, it is the one key accepted.
  lemma {:induction false} EmptyKeyAccepted(g: Rules, s: string)
    requires HasCharRule(g)
    ensures Accepts(g, Body(TrieOf([""])), s) <==> s == ""
  {
    BodyExact(g, [""], s);
    hide Accepts, Body, TrieOf;
    assert !SomeNonempty([""]);
  }

  // ---------- keys written with escapes ----------

  // Where the first backslash stands.
  function FirstEscape(s: string): (p: nat)
    ensures p <= |s| && '\\' !in s[..p] && (p < |s| ==> s[p] == '\\')
  {
    if s == [] || s[0] == '\\' then 0
    else
      var p := FirstEscape(s[1..]) + 1;
      assert s[..p] == [s[0]] + s[1..][..p - 1];
      p
  }

  function HexValue(c: char): nat
    requires IsHex(c)
  {
    if c <= '9' then c as int - '0' as int
    else if c <= 'F' then c as int - 'A' as int + 10
    else c as int - 'a' as int + 10
  }

  function EscapeMeans(c: char): char
    requires ShortEscape(c)
  {
    match c
    case 'b' => '\U{8}'
    case 'f' => '\U{C}'
    case 'n' => '\n'
    case 'r' => '\r'
    case 't' => '\t'
    case _ => c
  }

  // The code units a written text stands for.
  function Meant(s: string): seq<int>
    requires CharText(s)
    decreases |s|
  {
    if s == [] then []
    else
      var n := CharWidth(s);
      var unit := if n == 1 then s[0] as int
                  else if n == 2 then EscapeMeans(s[1]) as int
                  else HexValue(s[2]) * 0x1000 + HexValue(s[3]) * 0x100 + HexValue(s[4]) * 0x10 + HexValue(s[5]);
      [unit] + Meant(s[n..])
  }

  function Codes(key: string): seq<int> { seq(|key|, i requires 0 <= i < |key| => key[i] as int) }

  lemma {:induction false} FirstUnit(s: string, key: string)
    requires CharText(s) && s != [] && Meant(s) == Codes(key)
    ensures key != []
    ensures s[0] != '\\' ==> s[0] == key[0] && CharText(s[1..]) && Meant(s[1..]) == Codes(key[1..])
  {
    assert |Meant(s)| == |key| && Meant(s)[0] == Codes(key)[0] == key[0] as int;
    if s[0] != '\\' { assert Meant(s)[1..] == Meant(s[1..]) && Codes(key)[1..] == Codes(key[1..]); }
  }

  // Up to the first backslash a written key is the key itself.
  lemma {:induction false} FrontIsKey(s: string, key: string)
    requires CharText(s) && Meant(s) == Codes(key)
    ensures FirstEscape(s) <= |key| && s[..FirstEscape(s)] == key[..FirstEscape(s)]
    ensures FirstEscape(s) < |s| ==> FirstEscape(s) < |key| && CharText(s[FirstEscape(s)..])
    ensures FirstEscape(s) == |s| ==> s == key
    decreases |s|
  {
    if s != [] {
      FirstUnit(s, key);
      hide CharText, Meant, Codes, CharWidth;
      if s[0] != '\\' {
        FrontIsKey(s[1..], key[1..]);
        var p := FirstEscape(s[1..]);
        assert FirstEscape(s) == p + 1;
        hide FirstEscape;
        ShiftFront(s, key, p);
      } else {
        assert s[0..] == s;
      }
    } else {
      assert |Codes(key)| == |key|;
    }
  }

  lemma {:induction false} ShiftFront(s: string, key: string, p: nat)
    requires p < |s| && p < |key| && s[0] == key[0] && s[1..][..p] == key[1..][..p]
    ensures s[..p + 1] == key[..p + 1] && s[1..][p..] == s[p + 1..]
    ensures s[1..] == key[1..] ==> s == key
  {
    assert s[..p + 1] == [s[0]] + s[1..][..p] && key[..p + 1] == [key[0]] + key[1..][..p];
    assert s == [s[0]] + s[1..] && key == [key[0]] + key[1..];
  }

  // The backslash is taken for a character of its own: what follows must be written characters again.
  predicate TextBehind(x: string) { x != "" && x[0] != '"' && (x[0] == '\\' ==> CharText(x)) }

  lemma {:induction false} BehindBackslash(s: string)
    requires s != "" && s[0] == '\\' && CharText(s)
    ensures CharText(s[1..]) <==> TextBehind(s[1..])
  {
    var x := s[1..];
    var n := CharWidth(s);
    assert x[0] == s[1];
    if n == 2 {
      assert s[2..] == x[1..];
    } else {
      assert forall i :: 1 <= i < 5 ==> IsHex(s[2..6][i - 1]) && x[i] == s[2..6][i - 1];
      PlainFront(x[..5], s[6..]);
      assert x == x[..5] + s[6..];
    }
  }

  lemma {:induction false} PlainFront(a: string, b: string)
    requires AllPlain(a)
    ensures CharText(a + b) <==> CharText(b)
  {
    if a == [] {
      assert a + b == b;
    } else {
      assert Plain(a[0]) && (a + b)[0] == a[0] && (a + b)[1..] == a[1..] + b;
      PlainFront(a[1..], b);
    }
  }

  // An excluded key, however it is written, is accepted iff it is written with an escape and the first
  // backslash leaves the excluded strings with written characters behind it (or a later one does).
  lemma {:induction false} SpellingExact(g: Rules, strings: seq<string>, key: string, s: string)
    requires HasCharRule(g) && key in strings && key != "" && CharText(s) && Meant(s) == Codes(key)
    ensures var p := FirstEscape(s);
            Accepts(g, Body(TrieOf(strings)), s)
            <==> p < |s| && if PrefixOfSome(s[..p + 1], strings) then exists k :: k > p && LeavesAt(strings, s, k)
                            else TextBehind(s[p + 1..])
  {
    BodyExact(g, strings, s);
    hide Accepts, Body, TrieOf, CharText, Meant;
    var i :| 0 <= i < |strings| && strings[i] == key;
    assert SomeNonempty(strings);
    FrontIsKey(s, key);
    var p := FirstEscape(s);
    assert s != "" by { if s == "" { NoCodes(key); } }
    if p == |s| {
      assert s == strings[i];
      NoLeaving(strings, s, i, |s|);
    } else {
      assert s[p..][1..] == s[p + 1..];
      BehindBackslash(s[p..]);
      assert GoesOn(s[..p], strings) by { assert s[..p] <= strings[i]; }
      assert p > 0 ==> PrefixOfSome(s[..p], strings);
      assert s[p] == '\\';
      NoLeaving(strings, s, i, p);
      assert LeavesAt(strings, s, p) <==> !PrefixOfSome(s[..p + 1], strings) && CharText(s[p + 1..]);
      if !PrefixOfSome(s[..p + 1], strings) { NoLaterLeaving(strings, s, p); }
    }
  }

  lemma {:induction false} NoCodes(key: string)
    requires Meant("") == Codes(key)
    ensures key == ""
  {
    assert |Codes(key)| == |key|;
  }

  // Both happen: "a" excluded is accepted as "\\u0061", a quote excluded is rejected as "\\\"".
  lemma {:induction false} EscapedKeys(g: Rules)
    requires HasCharRule(g)
    ensures Accepts(g, Body(TrieOf(["a"])), "\\u0061") && !Accepts(g, Body(TrieOf(["\""])), "\\\"")
  {
    UnicodeA();
    EscapedQuote();
    hide Accepts, Body, TrieOf, CharText, Meant, FirstEscape, TextBehind, Codes;
    SpellingExact(g, ["a"], "a", "\\u0061");
    SpellingExact(g, ["\""], "\"", "\\\"");
    assert !PrefixOfSome("\\u0061"[..1], ["a"]) && !PrefixOfSome("\\\""[..1], ["\""]);
  }

  lemma {:induction false} UnicodeA()
    ensures var s := "\\u0061";
            CharText(s) && Meant(s) == Codes("a") && FirstEscape(s) == 0 && TextBehind(s[1..])
  {
    var s := "\\u0061";
    assert s[2..6] == "0061" && CharWidth(s) == 6 && s[6..] == "" && CharText("");
    assert Meant(s) == [97];
  }

  lemma {:induction false} EscapedQuote()
    ensures var s := "\\\"";
            CharText(s) && Meant(s) == Codes("\"") && FirstEscape(s) == 0 && !TextBehind(s[1..])
  {
    var s := "\\\"";
    assert CharWidth(s) == 2 && s[2..] == "" && CharText("");
    assert Meant(s) == [34];
  }

  // The rule lets through text that no JSON string holds: a lone backslash, unless an excluded key
  // begins with one.
  lemma {:induction false} LoneBackslash(g: Rules, strings: seq<string>)
    requires HasCharRule(g)
    ensures !CharText("\\")
    ensures Accepts(g, Body(TrieOf(strings)), "\\") <==> SomeNonempty(strings) && !PrefixOfSome("\\", strings)
  {
    var s := "\\";
    BodyExact(g, strings, s);
    hide Accepts, Body, TrieOf;
    assert s[..0] == "" && s[..1] == s && s[1..] == "" && s[0..] == s;
    if SomeNonempty(strings) { assert GoesOn("", strings); }
    assert SomeNonempty(strings) && !PrefixOfSome(s, strings) ==> LeavesAt(strings, s, 0);
  }

  // ---------- the loops ----------

  method VisitNode(t: Trie) returns (e: Expr)
    requires t.children != []
    ensures e == Visit(t)
  {
    var es := t.children;
    var alts: seq<Expr> := [];
    var rejects: seq<(char, char)> := [('"', '"')];
    var i := 0;
    while i < |es|
      invariant 0 <= i == |alts| <= |es| && |rejects| == i + 1
      invariant forall j :: 0 <= j < i ==> alts[j] == EdgeExpr(es[j])
      invariant rejects[0] == ('"', '"') && forall j :: 0 <= j < i ==> rejects[j + 1] == (es[j].c, es[j].c)
    {
      rejects := rejects + [(es[i].c, es[i].c)];
      var alt := OneChar(es[i].c);
      if es[i].sub.children != [] {
        var inner := VisitNode(es[i].sub);
        alt := Cat(alt, inner);
      } else if es[i].sub.end {
        alt := Cat(alt, Rep(CharRule(), 1, None));
      }
      alts := alts + [alt];
      i := i + 1;
    }
    assert rejects == Rejects(es);
    assert alts == EdgeAlts(es);
    e := AltAll(alts + [Cat(Class(rejects, true), Rep(CharRule(), 0, None))]);
  }

  method BuildNotStrings(strings: seq<string>) returns (e: Expr)
    ensures e == NotStringsExpr(strings)
  {
    var trie := EMPTY;
    var i := 0;
    while i < |strings|
      invariant 0 <= i <= |strings|
      invariant trie == TrieOf(strings[..i])
    {
      assert strings[..i + 1][..i] == strings[..i];
      trie := Insert(trie, strings[i]);
      i := i + 1;
    }
    assert strings[..i] == strings;
    var inner := Lit("");
    if trie.children != [] { inner := VisitNode(trie); }
    if !trie.end { inner := Rep(inner, 0, Some(1)); }
    e := CatAll([OneChar('"'), inner, OneChar('"'), Ref("space")]);
  }
}
