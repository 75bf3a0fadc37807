/** What a reply means, read off its characters: which name, id, keys and values a tool call carries, and
    that the mapper delivers exactly those. */
module ReplyMeaning {
  import opened Basics
  import opened JsonText
  import opened MsgDiff
  import opened ToolStream
  import opened StreamGrowth
  import opened CallScripts
  import QuoteNorm

  // ---------- reading texts by their characters ----------

  // The white space of the C locale: blank, and the five control characters from tab on.
  predicate White(c: char) { c as int == 32 || 9 <= c as int <= 13 }

  predicate AllWhite(s: string) { forall i :: 0 <= i < |s| ==> White(s[i]) }

  // One white character, or none where the text does not begin (end) in one.
  predicate EdgeBefore(a: string, v: string) { if a == "" then v == "" || !White(v[0]) else |a| == 1 && White(a[0]) }

  predicate EdgeAfter(v: string, b: string) { if b == "" then v == "" || !White(v[|v| - 1]) else |b| == 1 && White(b[0]) }

  predicate RestWhite(v: string, b: string) { AllWhite(b) && (v == "" || !White(v[|v| - 1])) }

  predicate ValueBetween(text: string, a: string, v: string, b: string) { text == a + v + b && EdgeBefore(a, v) && EdgeAfter(v, b) }

  // A value stands between at most one white character on either side.
  ghost predicate ValueIn(text: string, v: string) { exists a, b :: ValueBetween(text, a, v, b) }

  predicate KeyBetween(text: string, a: string, k: string, b: string) { text == a + k + b && EdgeBefore(a, k) && RestWhite(k, b) }

  // A key stands behind at most one white character and before any number of them.
  ghost predicate KeyIn(text: string, k: string) { exists a, b :: KeyBetween(text, a, k, b) }

  predicate NameBefore(text: string, n: string, b: string) { text == n + b && RestWhite(n, b) }

  ghost predicate NameIn(text: string, n: string) { exists b :: NameBefore(text, n, b) }

  // An id may be quoted.
  ghost predicate IdIn(text: string, id: string) {
    exists n :: NameIn(text, n) && (if |n| >= 2 && n[0] == '"' && n[|n| - 1] == '"' then n == "\"" + id + "\"" else id == n)
  }

  lemma {:induction false} WhiteIsSpace(c: char)
    ensures White(c) <==> IsSpace(c)
  {
  }

  lemma {:induction false} OneEnd(v: string, b: string)
    requires EdgeAfter(v, b)
    ensures TrimEnd(v + b, 1) == v
  {
    var t := v + b;
    if b == "" {
      assert t == v;
      if v != "" { WhiteIsSpace(v[|v| - 1]); }
    } else {
      WhiteIsSpace(b[0]);
      assert t[..|t| - 1] == v && t[|t| - 1] == b[0];
    }
  }

  lemma {:induction false} OneStart(a: string, v: string)
    requires EdgeBefore(a, v)
    ensures TrimStart(a + v, 1) == v
  {
    var t := a + v;
    if a == "" {
      assert t == v;
      if v != "" { WhiteIsSpace(v[0]); }
    } else {
      WhiteIsSpace(a[0]);
      assert t[1..] == v && t[0] == a[0];
    }
  }

  lemma {:induction false} AllEnd(v: string, b: string)
    requires RestWhite(v, b)
    ensures forall max: int :: max < 0 ==> TrimEnd(v + b, max) == v
    decreases |b|
  {
    var t := v + b;
    if b == "" {
      assert t == v;
      if v != "" { WhiteIsSpace(v[|v| - 1]); }
    } else {
      var c := b[..|b| - 1];
      WhiteIsSpace(b[|b| - 1]);
      assert t[..|t| - 1] == v + c && t[|t| - 1] == b[|b| - 1];
      AllEnd(v, c);
    }
  }

  // What was taken off at the end was white, all of it if there was no limit.
  lemma {:induction false} EndTaken(t: string, max: int) returns (b: string)
    requires max < 0
    ensures t == TrimEnd(t, max) + b && RestWhite(TrimEnd(t, max), b)
  {
    if t != "" && White(t[|t| - 1]) {
      WhiteIsSpace(t[|t| - 1]);
      var c := EndTaken(t[..|t| - 1], max - 1);
      b := c + [t[|t| - 1]];
      assert t == t[..|t| - 1] + [t[|t| - 1]];
      assert AllWhite(b);
    } else {
      if t != "" { WhiteIsSpace(t[|t| - 1]); }
      b := "";
    }
  }

  lemma {:induction false} OneTaken(t: string) returns (a: string, b: string)
    ensures t == a + TrimStart(t, 1) && EdgeBefore(a, TrimStart(t, 1))
    ensures t == TrimEnd(t, 1) + b && EdgeAfter(TrimEnd(t, 1), b)
  {
    if t == "" {
      a, b := "", "";
    } else {
      WhiteIsSpace(t[0]);
      WhiteIsSpace(t[|t| - 1]);
      a := if White(t[0]) then [t[0]] else "";
      b := if White(t[|t| - 1]) then [t[|t| - 1]] else "";
      assert TrimStart(t[1..], 0) == t[1..] && TrimEnd(t[..|t| - 1], 0) == t[..|t| - 1];
      assert t == [t[0]] + t[1..] && t == t[..|t| - 1] + [t[|t| - 1]];
    }
  }

  lemma {:induction false} EdgeWider(a: string, v: string, b: string)
    requires EdgeBefore(a, v) && (v == "" && a == "" ==> b == "")
    ensures EdgeBefore(a, v + b)
  {
    if a == "" && v != "" { assert (v + b)[0] == v[0]; }
  }

  // A text that is white from end to end holds the empty value or key.
  lemma {:induction false} NoValue(b: string)
    requires |b| <= 1 && AllWhite(b)
    ensures ValueContent(b) == ""
  {
    if b != "" {
      WhiteIsSpace(b[0]);
      assert b[1..] == "" && TrimStart(b, 1) == TrimStart("", 0);
    }
  }

  lemma {:induction false} ValueTaken(text: string, a: string, v: string, b: string)
    requires ValueBetween(text, a, v, b)
    ensures ValueContent(text) == v
  {
    if v == "" && a == "" {
      assert text == b;
      NoValue(b);
    } else {
      EdgeWider(a, v, b);
      Assoc(a, v, b);
      hide TrimStart, TrimEnd, White;
      OneStart(a, v + b);
      OneEnd(v, b);
    }
  }

  lemma {:induction false} ValueFound(text: string)
    ensures ValueIn(text, ValueContent(text))
  {
    var v := ValueContent(text);
    var a, unused := OneTaken(text);
    var lead := TrimStart(text, 1);
    var unused2, b := OneTaken(lead);
    hide TrimStart, TrimEnd, White;
    Assoc(a, v, b);
    if v != "" && a == "" { assert lead[0] == v[0]; }
    assert ValueBetween(text, a, v, b);
  }

  // The mapper's value is the one that stands in the text.
  lemma {:induction false} ValueExact(text: string, v: string)
    ensures ValueIn(text, v) <==> ValueContent(text) == v
  {
    hide ValueContent, ValueBetween;
    if a, b :| ValueBetween(text, a, v, b) { ValueTaken(text, a, v, b); }
    if ValueContent(text) == v { ValueFound(text); }
  }

  lemma {:induction false} NoKey(b: string)
    requires AllWhite(b)
    ensures TrimEnd(TrimStart(b, 1), -1) == ""
  {
    var a, unused := OneTaken(b);
    var lead := TrimStart(b, 1);
    hide TrimStart, White;
    assert AllWhite(lead) by { assert forall i :: 0 <= i < |lead| ==> lead[i] == b[|a| + i]; }
    assert "" + lead == lead;
    AllEnd("", lead);
  }

  lemma {:induction false} KeyTaken(text: string, a: string, k: string, b: string)
    requires KeyBetween(text, a, k, b)
    ensures TrimEnd(TrimStart(text, 1), -1) == k
  {
    if k == "" && a == "" {
      assert text == b;
      NoKey(b);
    } else {
      EdgeWider(a, k, b);
      Assoc(a, k, b);
      hide TrimStart, TrimEnd, White;
      OneStart(a, k + b);
      AllEnd(k, b);
    }
  }

  lemma {:induction false} KeyFound(text: string)
    ensures KeyIn(text, TrimEnd(TrimStart(text, 1), -1))
  {
    var lead := TrimStart(text, 1);
    var k := TrimEnd(lead, -1);
    var a, unused := OneTaken(text);
    var b := EndTaken(lead, -1);
    hide TrimStart, TrimEnd, White;
    Assoc(a, k, b);
    if k != "" && a == "" { assert lead[0] == k[0]; }
    assert KeyBetween(text, a, k, b);
  }

  lemma {:induction false} KeyExact(text: string, k: string)
    ensures KeyIn(text, k) <==> TrimEnd(TrimStart(text, 1), -1) == k
  {
    hide TrimStart, TrimEnd, KeyBetween;
    if a, b :| KeyBetween(text, a, k, b) { KeyTaken(text, a, k, b); }
    if TrimEnd(TrimStart(text, 1), -1) == k { KeyFound(text); }
  }

  lemma {:induction false} NameExact(text: string, n: string)
    ensures NameIn(text, n) <==> TrimEnd(text, -1) == n
  {
    if b :| NameBefore(text, n, b) { AllEnd(n, b); }
    if TrimEnd(text, -1) == n {
      var b := EndTaken(text, -1);
      assert NameBefore(text, n, b);
    }
  }

  lemma {:induction false} IdExact(text: string, id: string)
    ensures IdIn(text, id) <==> IdText(text) == id
  {
    var t := TrimEnd(text, -1);
    NameExact(text, t);
    if n :| NameIn(text, n) && (if |n| >= 2 && n[0] == '"' && n[|n| - 1] == '"' then n == "\"" + id + "\"" else id == n) {
      NameExact(text, n);
      assert |n| >= 2 && n == "\"" + id + "\"" ==> n[1..|n| - 1] == id;
    }
    if IdText(text) == id && |t| >= 2 && t[0] == '"' && t[|t| - 1] == '"' {
      QuotedParts(t);
    }
  }

  lemma {:induction false} QuotedParts(t: string)
    requires |t| >= 2 && t[0] == '"' && t[|t| - 1] == '"'
    ensures t == "\"" + t[1..|t| - 1] + "\""
  {
  }

  // ---------- whole replies ----------

  datatype Meaning = Told(text: string) | Thought(text: string) | Called(name: string, id: string, pairs: seq<(string, string)>)

  ghost predicate PairsIn(args: seq<Arg>, pairs: seq<(string, string)>) {
    |args| == |pairs| && forall i :: 0 <= i < |args| ==> KeyIn(args[i].key, pairs[i].0) && ValueIn(args[i].value, pairs[i].1)
  }

  ghost predicate Means(it: Item, m: Meaning) {
    match it
    case Say(t) => m == Told(t)
    case Think(t) => m == Thought(t)
    case Invoke(c) =>
      && m.Called? && m.name != "" && NameIn(c.name, m.name) && PairsIn(c.args, m.pairs)
      && (if c.id.Some? then IdIn(c.id.value, m.id) else m.id == "")
  }

  ghost predicate AllMean(items: seq<Item>, ms: seq<Meaning>) {
    |items| == |ms| && forall i :: 0 <= i < |items| ==> Means(items[i], ms[i])
  }

  function ToldText(ms: seq<Meaning>): string {
    if ms == [] then "" else (if ms[0].Told? then ms[0].text else "") + ToldText(ms[1..])
  }

  function ThoughtText(ms: seq<Meaning>): string {
    if ms == [] then "" else (if ms[0].Thought? then ms[0].text else "") + ThoughtText(ms[1..])
  }

  function Calls(ms: seq<Meaning>): seq<Meaning> {
    if ms == [] then [] else (if ms[0].Called? then [ms[0]] else []) + Calls(ms[1..])
  }

  ghost predicate CallIs(c: ToolCall, m: Meaning) {
    m.Called? && c.name == m.name && c.id == m.id && ReadObject(c.arguments) == Some(m.pairs)
  }

  // The message tells, thinks and calls what is meant, in order, behind what was there before.
  ghost predicate Delivers(before: Msg, ms: seq<Meaning>, after: Msg) {
    && after.content == before.content + ToldText(ms) && after.reasoning == before.reasoning + ThoughtText(ms)
    && var n := |before.calls|;
    |after.calls| == n + |Calls(ms)| && after.calls[..n] == before.calls
    && forall i :: 0 <= i < |Calls(ms)| ==> CallIs(after.calls[n + i], Calls(ms)[i])
  }

  lemma {:induction false} PairRead(a: Arg, pair: (string, string))
    requires KeyIn(a.key, pair.0) && ValueIn(a.value, pair.1)
    ensures (KeyOf(a), ValueOf(a)) == pair
  {
    hide KeyIn, ValueIn, TrimEnd, TrimStart, ValueContent;
    KeyExact(a.key, pair.0);
    ValueExact(a.value, pair.1);
  }

  lemma {:induction false} LaterPairs(args: seq<Arg>, pairs: seq<(string, string)>)
    requires PairsIn(args, pairs) && args != []
    ensures PairsIn(args[1..], pairs[1..]) && KeyIn(args[0].key, pairs[0].0) && ValueIn(args[0].value, pairs[0].1)
  {
    hide KeyIn, ValueIn;
    assert forall i :: 0 <= i < |args[1..]| ==> args[1..][i] == args[i + 1] && pairs[1..][i] == pairs[i + 1];
  }

  lemma {:induction false} PairsRead(args: seq<Arg>, pairs: seq<(string, string)>)
    requires PairsIn(args, pairs)
    ensures Pairs(args) == pairs
  {
    hide KeyIn, ValueIn, KeyOf, ValueOf;
    if args != [] {
      LaterPairs(args, pairs);
      PairRead(args[0], pairs[0]);
      hide PairsIn;
      PairsRead(args[1..], pairs[1..]);
      assert pairs == [pairs[0]] + pairs[1..];
    }
  }

  lemma {:induction false} CallMeans(c: Script, m: Meaning)
    requires Means(Invoke(c), m)
    ensures CallIs(CallOf(c), m) && TrimEnd(c.name, -1) == m.name
  {
    NameExact(c.name, m.name);
    if c.id.Some? { IdExact(c.id.value, m.id); }
    PairsRead(c.args, m.pairs);
    ArgumentsReadBack(c.args);
    hide NameIn, IdIn, PairsIn, ReadObject, ObjectText, IdText, TrimEnd;
  }

  lemma {:induction false} ItemDelivers(before: Msg, it: Item, m: Meaning)
    requires Means(it, m)
    ensures Delivers(before, [m], AddItem(before, it))
  {
    hide CallIs, CallOf;
    assert [m][1..] == [];
    assert ToldText([]) == "" && ThoughtText([]) == "" && Calls([]) == [];
    if it.Invoke? {
      CallMeans(it.script, m);
      assert Calls([m]) == [m];
    }
  }

  lemma {:induction false} MeantOne(m: Meaning)
    ensures ToldText([m]) == (if m.Told? then m.text else "") && ThoughtText([m]) == (if m.Thought? then m.text else "")
    ensures Calls([m]) == if m.Called? then [m] else []
  {
    assert [m][1..] == [] && ToldText([]) == "" && ThoughtText([]) == "" && Calls([]) == [];
  }

  lemma {:induction false} MeantAfter(m: Meaning, ms: seq<Meaning>)
    ensures ToldText([m] + ms) == ToldText([m]) + ToldText(ms) && ThoughtText([m] + ms) == ThoughtText([m]) + ThoughtText(ms)
    ensures Calls([m] + ms) == Calls([m]) + Calls(ms)
  {
    MeantOne(m);
    var all := [m] + ms;
    assert all[0] == m && all[1..] == ms;
    assert ToldText(all) == (if m.Told? then m.text else "") + ToldText(ms);
    assert ThoughtText(all) == (if m.Thought? then m.text else "") + ThoughtText(ms);
    assert Calls(all) == (if m.Called? then [m] else []) + Calls(ms);
    hide ToldText, ThoughtText, Calls;
  }

  lemma {:induction false} DeliversOn(a: Msg, m: Meaning, b: Msg, ms: seq<Meaning>, c: Msg)
    requires Delivers(a, [m], b) && Delivers(b, ms, c)
    ensures Delivers(a, [m] + ms, c)
  {
    hide CallIs;
    MeantAfter(m, ms);
    hide ToldText, ThoughtText, Calls;
    Assoc(a.content, ToldText([m]), ToldText(ms));
    Assoc(a.reasoning, ThoughtText([m]), ThoughtText(ms));
    assert c.calls[..|a.calls|] == c.calls[..|b.calls|][..|a.calls|];
    forall i | 0 <= i < |Calls([m] + ms)| ensures CallIs(c.calls[|a.calls| + i], Calls([m] + ms)[i]) {
      if i < |Calls([m])| {
        assert c.calls[|a.calls| + i] == c.calls[..|b.calls|][|a.calls| + i];
      } else {
        var j := i - |Calls([m])|;
        assert Calls([m] + ms)[i] == Calls(ms)[j] && |a.calls| + i == |b.calls| + j;
      }
    }
  }

  lemma {:induction false} ItemsDeliver(before: Msg, items: seq<Item>, ms: seq<Meaning>)
    requires AllMean(items, ms)
    ensures Delivers(before, ms, AddItems(before, items)) && AllNamed(items)
    decreases |items|
  {
    hide Means, Delivers, AddItem, TrimEnd;
    if items == [] {
      NothingDelivered(before);
    } else {
      assert forall i :: 0 <= i < |items[1..]| ==> items[1..][i] == items[i + 1] && ms[1..][i] == ms[i + 1];
      ItemDelivers(before, items[0], ms[0]);
      var next := AddItem(before, items[0]);
      ItemsDeliver(next, items[1..], ms[1..]);
      assert ms == [ms[0]] + ms[1..];
      DeliversOn(before, ms[0], next, ms[1..], AddItems(next, items[1..]));
      if items[0].Invoke? { CallNamed(items[0].script, ms[0]); }
      assert forall i :: 0 < i < |items| ==> items[i] == items[1..][i - 1];
    }
  }

  lemma {:induction false} CallNamed(c: Script, m: Meaning)
    requires Means(Invoke(c), m)
    ensures TrimEnd(c.name, -1) != ""
  {
    CallMeans(c, m);
  }

  lemma {:induction false} NothingDelivered(m: Msg)
    ensures Delivers(m, [], m)
  {
  }

  // Main result: from any state the events of a reply deliver exactly what it means.
  lemma {:induction false} ReplyMeans(s: State, items: seq<Item>, ms: seq<Meaning>, read: string -> Reading)
    requires AllMean(items, ms)
    ensures RunDefined(s, Events(items), read)
    ensures Delivers(s.msg, ms, Run(s, Events(items), read).msg)
  {
    hide AllMean, Delivers, RunDefined, Run;
    ItemsDeliver(s.msg, items, ms);
    ReplyRuns(s, items, read);
  }

  // And so does the last message of the stream, however the reply was cut.
  lemma {:induction false} StreamMeans(items: seq<Item>, ms: seq<Meaning>, views: seq<seq<Node>>, read: string -> Reading)
    requires AllMean(items, ms) && views != [] && views[|views| - 1] == Events(items)
    requires forall j :: 0 < j < |views| ==> Extends(views[j - 1], views[j])
    ensures forall i :: 0 <= i < |views| ==> RunDefined(START, views[i], read)
    ensures Rebuilds(MsgDiff.Msg("", "", []), MsgDiff.Msg("", "", []), Views(views, read))
    ensures Delivers(Msg("", "", []), ms, View(views[|views| - 1], read))
  {
    hide AllMean, Delivers, RunDefined, Rebuilds, View, Extends;
    ItemsDeliver(EMPTY, items, ms);
    ReplyStreams(items, views, read);
  }

  // ---------- arguments given as one JSON object ----------

  // A named call with its arguments as one text, before or behind the name.
  function ObjectCall(name: string, nameFirst: bool, args: string): seq<Node> {
    if nameFirst then [Event(ToolOpen, ""), Event(ToolName, name), Event(ToolArgs, args), Event(ToolClose, "")]
    else [Event(ToolOpen, ""), Event(ToolArgs, args), Event(ToolName, name), Event(ToolClose, "")]
  }

  lemma {:induction false} FourSteps(s: State, a: Node, b: Node, c: Node, d: Node, read: string -> Reading)
    requires Defined(s, a) && Defined(Step(s, a, read), b) && Defined(Step(Step(s, a, read), b, read), c)
    requires Defined(Step(Step(Step(s, a, read), b, read), c, read), d)
    ensures RunDefined(s, [a, b, c, d], read)
    ensures Run(s, [a, b, c, d], read) == Step(Step(Step(Step(s, a, read), b, read), c, read), d, read)
  {
    hide Step, Defined;
    assert [a, b, c, d][1..] == [b, c, d] && [b, c, d][1..] == [c, d] && [c, d][1..] == [d] && [d][1..] == [];
    var s1 := Step(s, a, read);
    var s2 := Step(s1, b, read);
    var s3 := Step(s2, c, read);
    assert Run(s3, [d], read) == Run(Step(s3, d, read), [], read);
    assert RunDefined(s3, [d], read) && RunDefined(s2, [c, d], read) && RunDefined(s1, [b, c, d], read);
    assert Run(s2, [c, d], read) == Run(s3, [d], read);
    assert Run(s1, [b, c, d], read) == Run(s2, [c, d], read);
  }

  lemma {:induction false} ObjectPut(m: Msg, name: string, text: string, args: string, read: string -> Reading)
    requires name != "" && args != "" && args[0] == '{' && TrimEnd(text, -1) == args
    ensures var v := Visible(m, name, "", "{", 0); Live(v) && Step(v, Event(ToolArgs, text), read) == Visible(m, name, "", args, 0)
    ensures var p := Nameless(m, "", "", 0); Live(p) && Step(p, Event(ToolArgs, text), read) == Nameless(m, "", args, 0)
  {
    hide TrimEnd;
    var v := Visible(m, name, "", "{", 0);
    assert v.msg.calls[|v.msg.calls| - 1 := ToolCall(name, args, "")] == m.calls + [ToolCall(name, args, "")];
  }

  lemma {:induction false} ObjectNamed(m: Msg, text: string, name: string, args: string, read: string -> Reading)
    requires name != "" && TrimEnd(text, -1) == name
    ensures var p := Nameless(m, "", args, 0);
            Live(p) && Step(p, Event(ToolName, text), read) == Visible(m, name, "", OpenedArgs(args), 0)
  {
    hide TrimEnd;
  }

  lemma {:induction false} ObjectClosed(m: Msg, name: string, args: string, read: string -> Reading)
    requires name != "" && QuoteNorm.Depth(args, false, false) <= 0
    ensures var v := Visible(m, name, "", args, 0); Live(v) && Step(v, Event(ToolClose, ""), read) == v
  {
    hide QuoteNorm.Depth;
    var v := Visible(m, name, "", args, 0);
    assert args + "" == args;
    assert v.msg.calls[|v.msg.calls| - 1 := ToolCall(name, args, "")] == v.msg.calls;
  }

  // An object whose braces are closed is delivered as it stands, white space behind it taken off.
  lemma {:induction false} ObjectCallRuns(s: State, nameText: string, name: string, nameFirst: bool, text: string, args: string,
                                          read: string -> Reading)
    requires NameIn(nameText, name) && name != ""
    requires NameIn(text, args) && args != "" && args[0] == '{' && QuoteNorm.Depth(args, false, false) <= 0
    ensures RunDefined(s, ObjectCall(nameText, nameFirst, text), read)
    ensures Run(s, ObjectCall(nameText, nameFirst, text), read).msg == s.msg.(calls := s.msg.calls + [ToolCall(name, args, "")])
  {
    NameExact(nameText, name);
    NameExact(text, args);
    var m := s.msg;
    assert Step(s, Event(ToolOpen, ""), read) == Nameless(m, "", "", 0);
    ObjectPut(m, name, text, args, read);
    ObjectNamed(m, nameText, name, "", read);
    ObjectNamed(m, nameText, name, args, read);
    ObjectClosed(m, name, args, read);
    hide Step, TrimEnd, NameIn, QuoteNorm.Depth;
    if nameFirst {
      FourSteps(s, Event(ToolOpen, ""), Event(ToolName, nameText), Event(ToolArgs, text), Event(ToolClose, ""), read);
    } else {
      FourSteps(s, Event(ToolOpen, ""), Event(ToolArgs, text), Event(ToolName, nameText), Event(ToolClose, ""), read);
    }
  }

  // ---------- bare values ----------

  // A value without a string type is written as it is when it reads as anything but a string, and as a
  // JSON string otherwise; lists and objects are read with their quotes normalised.
  function BareText(v: string, read: string -> Reading): string {
    if v == "" then ""
    else
      var w := if v[0] == '[' || v[0] == '{' then QuoteNorm.Normalized(v, false, false) else v;
      match read(w)
      case JsonOther => w
      case JsonString(d) => Dump(d)
      case NotJson => Dump(w)
  }

  lemma {:induction false} BareWrites(s: State, text: string, v: string, read: string -> Reading)
    requires Live(s) && !s.current.NoTool? && !s.closing && ValueIn(text, v)
    ensures Leads(s, [Event(ArgValue, text), Event(ArgClose, "")], Wrote(s, Args(s) + BareText(v, read), s.argCount), read)
  {
    ValueExact(text, v);
    hide Leads, ValueContent, ValueIn, Escape, QuoteNorm.Normalized;
    var e := Event(ArgValue, text);
    var p := PlainValue(v, false, false, read);
    var t := PutArgs(s, Args(s) + p.0).(closing := p.1);
    LeadsOne(s, e, read);
    assert Live(t) && Args(t) == Args(s) + p.0;
    BareParts(v, Args(s), read);
    assert Step(t, Event(ArgClose, ""), read) == Wrote(s, Args(s) + BareText(v, read), s.argCount);
    assert [e] + [Event(ArgClose, "")] == [e, Event(ArgClose, "")];
    LeadsOne(t, Event(ArgClose, ""), read);
    LeadsOn(s, [e], t, [Event(ArgClose, "")], Wrote(s, Args(s) + BareText(v, read), s.argCount), read);
  }

  lemma {:induction false} BareParts(v: string, before: string, read: string -> Reading)
    ensures var p := PlainValue(v, false, false, read);
            before + BareText(v, read) == if p.1 then (before + p.0) + "\"" else before + p.0
  {
    hide Escape, QuoteNorm.Normalized;
  }
}
