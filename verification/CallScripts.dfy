/** Whole replies: text, reasoning and tagged tool calls with string-valued arguments. The closed
    arguments are the JSON object of the arguments, and every way of cutting the reply into
    growing pieces streams without loss. */
module CallScripts {
  import opened Basics
  import opened JsonText
  import opened MsgDiff
  import opened ToolStream
  import opened StreamGrowth
  import QuoteNorm

  // ---------- replies and their events ----------

  datatype Arg = Arg(key: string, value: string)

  // A tagged call; its name may come before or after the arguments.
  datatype Script = Script(id: Option<string>, nameFirst: bool, name: string, args: seq<Arg>)

  datatype Item = Say(text: string) | Think(text: string) | Invoke(script: Script)

  function Event(tag: Tag, text: string): Node { Node(tag, text, false) }

  function ArgEvents(a: Arg): seq<Node> {
    [Event(ArgOpen, ""), Event(ArgName, a.key), Event(ArgStringValue, a.value), Event(ArgClose, "")]
  }

  function AllArgEvents(args: seq<Arg>): seq<Node> {
    if args == [] then [] else ArgEvents(args[0]) + AllArgEvents(args[1..])
  }

  function IdEvents(id: Option<string>): seq<Node> { if id.Some? then [Event(ToolId, id.value)] else [] }

  function Body(c: Script): seq<Node> {
    if c.nameFirst then [Event(ToolName, c.name)] + AllArgEvents(c.args)
    else AllArgEvents(c.args) + [Event(ToolName, c.name)]
  }

  function CallEvents(c: Script): seq<Node> {
    [Event(ToolOpen, "")] + (IdEvents(c.id) + (Body(c) + [Event(ToolClose, "")]))
  }

  function ItemEvents(it: Item): seq<Node> {
    match it
    case Say(t) => [Event(Content, t)]
    case Think(t) => [Event(Reasoning, t)]
    case Invoke(c) => CallEvents(c)
  }

  function Events(items: seq<Item>): seq<Node> {
    if items == [] then [] else ItemEvents(items[0]) + Events(items[1..])
  }

  // Every call has a name with text in it.
  predicate AllNamed(items: seq<Item>) {
    forall i :: 0 <= i < |items| && items[i].Invoke? ==> TrimEnd(items[i].script.name, -1) != ""
  }

  // ---------- the message they should give ----------

  function KeyOf(a: Arg): string { TrimEnd(TrimStart(a.key, 1), -1) }

  function ValueOf(a: Arg): string { ValueContent(a.value) }

  function PairText(a: Arg): string { Dump(KeyOf(a)) + ":" + Dump(ValueOf(a)) }

  function PairsText(args: seq<Arg>, sep: string): string {
    if args == [] then "" else sep + PairText(args[0]) + PairsText(args[1..], ",")
  }

  function ObjectText(args: seq<Arg>): string { "{" + PairsText(args, "") + "}" }

  function CallOf(c: Script): ToolCall {
    ToolCall(TrimEnd(c.name, -1), ObjectText(c.args), if c.id.Some? then IdText(c.id.value) else "")
  }

  function AddItem(m: Msg, it: Item): Msg {
    match it
    case Say(t) => m.(content := m.content + t)
    case Think(t) => m.(reasoning := m.reasoning + t)
    case Invoke(c) => m.(calls := m.calls + [CallOf(c)])
  }

  function AddItems(m: Msg, items: seq<Item>): Msg
    decreases |items|
  {
    if items == [] then m else AddItems(AddItem(m, items[0]), items[1..])
  }

  // ---------- arguments leave one brace open ----------

  lemma {:induction false} SkipsInside(c: char, rest: string)
    requires c !in {'"', '\\'}
    ensures QuoteNorm.Depth([c] + rest, true, false) == QuoteNorm.Depth(rest, true, false)
  {
    assert ([c] + rest)[1..] == rest;
  }

  lemma {:induction false} SkipsEscape(c: char, rest: string)
    ensures QuoteNorm.Depth(['\\', c] + rest, true, false) == QuoteNorm.Depth(rest, true, false)
  {
    var x := ['\\', c] + rest;
    assert x[1..] == [c] + rest && x[1..][1..] == rest;
    assert QuoteNorm.Depth(x[1..], true, true) == QuoteNorm.Depth(rest, true, false);
  }

  lemma {:induction false} EscapedCharNeutral(c: char, rest: string)
    ensures QuoteNorm.Depth(EscapeChar(c) + rest, true, false) == QuoteNorm.Depth(rest, true, false)
  {
    hide QuoteNorm.Depth;
    var e := EscapeChar(c);
    if |e| == 1 {
      SkipsInside(c, rest);
    } else if |e| == 2 {
      SkipsEscape(e[1], rest);
    } else {
      assert e[4] in HEX && e[5] in HEX;
      assert e + rest == ['\\', 'u'] + (['0'] + (['0'] + ([e[4]] + ([e[5]] + rest))));
      SkipsEscape('u', ['0'] + (['0'] + ([e[4]] + ([e[5]] + rest))));
      SkipsInside('0', ['0'] + ([e[4]] + ([e[5]] + rest)));
      SkipsInside('0', [e[4]] + ([e[5]] + rest));
      SkipsInside(e[4], [e[5]] + rest);
      SkipsInside(e[5], rest);
    }
  }

  lemma {:induction false} EscapedNeutral(s: string, rest: string)
    ensures QuoteNorm.Depth(Escape(s) + ("\"" + rest), true, false) == QuoteNorm.Depth(rest, false, false)
  {
    hide EscapeChar;
    var end := "\"" + rest;
    if s == [] {
      assert [] + end == end && end[1..] == rest;
    } else {
      EscapedNeutral(s[1..], rest);
      EscapedCharNeutral(s[0], Escape(s[1..]) + end);
      assert Escape(s) + end == EscapeChar(s[0]) + (Escape(s[1..]) + end);
    }
  }

  lemma {:induction false} DumpNeutral(s: string, rest: string)
    ensures QuoteNorm.Depth(Dump(s) + rest, false, false) == QuoteNorm.Depth(rest, false, false)
  {
    var inner := Escape(s) + ("\"" + rest);
    assert Dump(s) + rest == "\"" + inner && ("\"" + inner)[1..] == inner;
    EscapedNeutral(s, rest);
  }

  lemma {:induction false} SkipsChar(c: char, rest: string)
    requires c !in {'"', '{', '}'}
    ensures QuoteNorm.Depth([c] + rest, false, false) == QuoteNorm.Depth(rest, false, false)
  {
    assert ([c] + rest)[1..] == rest;
  }

  lemma {:induction false} PairNeutral(a: Arg, rest: string)
    ensures QuoteNorm.Depth(PairText(a) + rest, false, false) == QuoteNorm.Depth(rest, false, false)
  {
    hide QuoteNorm.Depth, Dump, KeyOf, ValueOf;
    var k, v := Dump(KeyOf(a)), Dump(ValueOf(a));
    assert PairText(a) + rest == k + (":" + (v + rest));
    DumpNeutral(KeyOf(a), ":" + (v + rest));
    SkipsChar(':', v + rest);
    DumpNeutral(ValueOf(a), rest);
  }

  lemma {:induction false} PairsNeutral(args: seq<Arg>, sep: string, rest: string)
    requires sep == "" || sep == ","
    ensures QuoteNorm.Depth(PairsText(args, sep) + rest, false, false) == QuoteNorm.Depth(rest, false, false)
  {
    hide QuoteNorm.Depth, PairText;
    if args == [] {
      assert "" + rest == rest;
    } else {
      var tail := PairsText(args[1..], ",") + rest;
      assert PairsText(args, sep) + rest == sep + (PairText(args[0]) + tail);
      if sep == "" { assert "" + (PairText(args[0]) + tail) == PairText(args[0]) + tail; }
      else { SkipsChar(',', PairText(args[0]) + tail); }
      PairNeutral(args[0], tail);
      PairsNeutral(args[1..], ",", rest);
    }
  }

  lemma {:induction false} OneOpen(args: seq<Arg>)
    ensures QuoteNorm.Depth("{" + PairsText(args, ""), false, false) == 1
  {
    hide PairsText;
    var p := PairsText(args, "");
    assert ("{" + p)[1..] == p && p + "" == p;
    PairsNeutral(args, "", "");
  }

  // ---------- running the events of a call ----------

  // The events are well-formed from `s` and lead to `t`.
  ghost predicate Leads(s: State, ns: seq<Node>, t: State, read: string -> Reading) {
    RunOrderly(s, ns, read) && RunOnce(s, ns, read) && RunDefined(s, ns, read) && Run(s, ns, read) == t
  }

  // No call is named a second time.
  ghost predicate RunOnce(s: State, ns: seq<Node>, read: string -> Reading)
    decreases |ns|
  {
    ns == [] || (Defined(s, ns[0]) && (ns[0].tag.ToolName? ==> !s.current.LastCall?) && RunOnce(Step(s, ns[0], read), ns[1..], read))
  }

  lemma {:induction false} OnceConcat(s: State, a: seq<Node>, b: seq<Node>, read: string -> Reading)
    requires RunDefined(s, a, read)
    ensures RunOnce(s, a + b, read) <==> RunOnce(s, a, read) && RunOnce(Run(s, a, read), b, read)
    decreases |a|
  {
    hide Step;
    if a == [] {
      assert a + b == b;
    } else {
      assert (a + b)[0] == a[0] && (a + b)[1..] == a[1..] + b;
      OnceConcat(Step(s, a[0], read), a[1..], b, read);
    }
  }

  lemma {:induction false} LeadsOn(s: State, a: seq<Node>, t: State, b: seq<Node>, u: State, read: string -> Reading)
    requires Leads(s, a, t, read) && Leads(t, b, u, read)
    ensures Leads(s, a + b, u, read)
  {
    hide RunOrderly, RunOnce, RunDefined, Run;
    RunConcat(s, a, b, read);
    OnceConcat(s, a, b, read);
  }

  lemma {:induction false} LeadsOne(s: State, n: Node, read: string -> Reading)
    requires Orderly(s, n) && (n.tag.ToolName? ==> !s.current.LastCall?)
    ensures Leads(s, [n], Step(s, n, read), read)
  {
    hide Step, Growing;
    var t := Step(s, n, read);
    assert [n][1..] == [];
    assert RunOrderly(t, [], read) && RunDefined(t, [], read) && Run(t, [], read) == t;
    assert RunOrderly(s, [n], read);
    assert RunOnce(t, [], read) && RunOnce(s, [n], read);
    OrderlyDefined(s, [n], read);
    assert Run(s, [n], read) == Run(t, [n][1..], read);
  }

  // The state after argument text `text` and `count` arguments; nothing else moves.
  function Wrote(s: State, text: string, count: nat): State
    requires Live(s) && !s.current.NoTool?
  {
    PutArgs(s, text).(argCount := count, closing := false)
  }

  lemma {:induction false} WroteWrote(s: State, a: string, m: nat, b: string, n: nat)
    requires Live(s) && !s.current.NoTool?
    ensures var t := Wrote(s, a, m);
            Live(t) && !t.current.NoTool? && Args(t) == a && t.argCount == m && Wrote(t, b, n) == Wrote(s, b, n)
  {
  }

  function Sep(s: State): string { if s.argCount == 0 then "" else "," }

  lemma {:induction false} KeyEvents(s: State, a: Arg, read: string -> Reading)
    requires Live(s) && !s.current.NoTool?
    ensures Leads(s, [Event(ArgOpen, ""), Event(ArgName, a.key)],
                  Wrote(s, OpenedArgs(Args(s)) + ArgEntry(a.key, s.argCount == 0), s.argCount + 1), read)
  {
    hide Leads, ArgEntry, OpenedArgs;
    assert [Event(ArgOpen, "")] + [Event(ArgName, a.key)] == [Event(ArgOpen, ""), Event(ArgName, a.key)];
    var s0 := s.(closing := false);
    assert Args(s0) == Args(s) && Live(s0);
    LeadsOne(s, Event(ArgOpen, ""), read);
    LeadsOne(s0, Event(ArgName, a.key), read);
    LeadsOn(s, [Event(ArgOpen, "")], s0, [Event(ArgName, a.key)],
            Wrote(s, OpenedArgs(Args(s)) + ArgEntry(a.key, s.argCount == 0), s.argCount + 1), read);
  }

  lemma {:induction false} ValueEvents(s: State, value: string, read: string -> Reading)
    requires Live(s) && !s.current.NoTool? && !s.closing
    ensures Leads(s, [Event(ArgStringValue, value), Event(ArgClose, "")],
                  Wrote(s, Args(s) + StringValue(ValueContent(value), false).0 + "\"", s.argCount), read)
  {
    hide Leads, ValueContent, Escape;
    var v := Event(ArgStringValue, value);
    var text := Args(s) + StringValue(ValueContent(value), false).0;
    var t := PutArgs(s, text).(closing := true);
    LeadsOne(s, v, read);
    assert Live(t) && Args(t) == text;
    assert Step(t, Event(ArgClose, ""), read) == Wrote(s, text + "\"", s.argCount);
    assert [v] + [Event(ArgClose, "")] == [v, Event(ArgClose, "")];
    LeadsOne(t, Event(ArgClose, ""), read);
    LeadsOn(s, [v], t, [Event(ArgClose, "")], Wrote(s, text + "\"", s.argCount), read);
  }

  lemma {:induction false} OneArg(s: State, a: Arg, read: string -> Reading)
    requires Live(s) && !s.current.NoTool?
    ensures Leads(s, ArgEvents(a), Wrote(s, OpenedArgs(Args(s)) + (Sep(s) + PairText(a)), s.argCount + 1), read)
  {
    hide Leads, TrimEnd, TrimStart, Escape, PutArgs, Args, Dump, OpenedArgs;
    var n := s.argCount + 1;
    var key := OpenedArgs(Args(s)) + ArgEntry(a.key, s.argCount == 0);
    var value := key + StringValue(ValueOf(a), false).0 + "\"";
    var t := Wrote(s, key, n);
    KeyEvents(s, a, read);
    WroteWrote(s, key, n, value, n);
    ValueEvents(t, a.value, read);
    LeadsOn(s, [Event(ArgOpen, ""), Event(ArgName, a.key)], t, [Event(ArgStringValue, a.value), Event(ArgClose, "")], Wrote(s, value, n), read);
    assert [Event(ArgOpen, ""), Event(ArgName, a.key)] + [Event(ArgStringValue, a.value), Event(ArgClose, "")] == ArgEvents(a);
    PairTextSplit(a, OpenedArgs(Args(s)), Sep(s));
  }

  lemma {:induction false} PairTextSplit(a: Arg, text: string, sep: string)
    ensures (text + (sep + Dump(KeyOf(a)) + ":")) + StringValue(ValueOf(a), false).0 + "\"" == text + (sep + PairText(a))
  {
    hide TrimEnd, TrimStart, ValueContent;
    assert StringValue(ValueOf(a), false).0 == "\"" + Escape(ValueOf(a));
  }

  lemma {:induction false} LeadsNowhere(s: State, read: string -> Reading)
    ensures Leads(s, [], s, read)
  {
  }

  lemma {:induction false} ManyArgs(s: State, args: seq<Arg>, read: string -> Reading)
    requires Live(s) && !s.current.NoTool? && args != []
    ensures Leads(s, AllArgEvents(args), Wrote(s, OpenedArgs(Args(s)) + PairsText(args, Sep(s)), s.argCount + |args|), read)
    decreases |args|
  {
    hide *;
    var text, n := OpenedArgs(Args(s)) + (Sep(s) + PairText(args[0])), s.argCount + 1;
    var t := Wrote(s, text, n);
    OneArg(s, args[0], read);
    WroteWrote(s, text, n, text, n);
    ArgsUnfold(args, Sep(s));
    if |args| == 1 {
      ArgsEnd(args, Sep(s));
    } else {
      ManyArgs(t, args[1..], read);
      LaterArg(s, Sep(s) + PairText(args[0]), n);
      var all := text + PairsText(args[1..], ",");
      WroteWrote(s, text, n, all, s.argCount + |args|);
      LeadsOn(s, ArgEvents(args[0]), t, AllArgEvents(args[1..]), Wrote(s, all, s.argCount + |args|), read);
      Assoc(OpenedArgs(Args(s)), Sep(s) + PairText(args[0]), PairsText(args[1..], ","));
    }
  }

  lemma {:induction false} ArgsUnfold(args: seq<Arg>, sep: string)
    requires args != []
    ensures AllArgEvents(args) == ArgEvents(args[0]) + AllArgEvents(args[1..])
    ensures PairsText(args, sep) == (sep + PairText(args[0])) + PairsText(args[1..], ",")
  {
    hide ArgEvents, PairText;
  }

  lemma {:induction false} ArgsEnd(args: seq<Arg>, sep: string)
    requires |args| == 1
    ensures AllArgEvents(args) == ArgEvents(args[0]) && PairsText(args, sep) == sep + PairText(args[0])
  {
    hide ArgEvents, PairText;
    assert args[1..] == [] && ArgEvents(args[0]) + [] == ArgEvents(args[0]);
    assert (sep + PairText(args[0])) + "" == sep + PairText(args[0]);
  }

  // After the first argument the text is not empty and a comma separates.
  lemma {:induction false} LaterArg(s: State, entry: string, n: nat)
    requires Live(s) && !s.current.NoTool? && n > 0
    ensures var text := OpenedArgs(Args(s)) + entry;
            var t := Wrote(s, text, n);
            Live(t) && !t.current.NoTool? && OpenedArgs(Args(t)) == text && Sep(t) == "," && t.argCount == n
  {
    var text := OpenedArgs(Args(s)) + entry;
    assert text != "";
    WroteWrote(s, text, n, text, n);
    hide Wrote, Args;
  }

  // ---------- a whole call ----------

  // A named call, last in the message, not yet closed.
  function Visible(m: Msg, name: string, id: string, text: string, count: nat): State {
    State(None, LastCall, count, false, "", m.(calls := m.calls + [ToolCall(name, text, id)]))
  }

  // A call without its name.
  function Nameless(m: Msg, id: string, text: string, count: nat): State {
    State(Some(ToolCall("", "", id)), PendingCall, count, false, text, m)
  }

  lemma {:induction false} NamesIt(m: Msg, id: string, text: string, count: nat, name: string, read: string -> Reading)
    requires TrimEnd(name, -1) != ""
    ensures Leads(Nameless(m, id, text, count), [Event(ToolName, name)],
                  Visible(m, TrimEnd(name, -1), id, OpenedArgs(text), count), read)
  {
    hide TrimEnd;
    LeadsOne(Nameless(m, id, text, count), Event(ToolName, name), read);
  }

  lemma {:induction false} VisibleWrites(m: Msg, name: string, id: string, a: string, b: string, count: nat)
    requires name != ""
    ensures var v := Visible(m, name, id, a, 0);
            Live(v) && Args(v) == a && Wrote(v, b, count) == Visible(m, name, id, b, count)
  {
    var v := Visible(m, name, id, a, 0);
    assert Call(v) == ToolCall(name, a, id);
    assert v.msg.calls[|v.msg.calls| - 1 := ToolCall(name, b, id)] == m.calls + [ToolCall(name, b, id)];
  }

  lemma {:induction false} ClosesIt(m: Msg, name: string, id: string, args: seq<Arg>, count: nat, read: string -> Reading)
    requires name != ""
    ensures Leads(Visible(m, name, id, "{" + PairsText(args, ""), count), [Event(ToolClose, "")],
                  Visible(m, name, id, ObjectText(args), count), read)
  {
    hide PairsText, QuoteNorm.Depth;
    var text := "{" + PairsText(args, "");
    OneOpen(args);
    assert Braces(1) == "}" + Braces(0) && Braces(1) == "}";
    var v := Visible(m, name, id, text, count);
    VisibleWrites(m, name, id, text, text, count);
    assert v.msg.calls[|v.msg.calls| - 1 := ToolCall(name, ObjectText(args), id)] == m.calls + [ToolCall(name, ObjectText(args), id)];
    assert Closed(v) == Visible(m, name, id, ObjectText(args), count);
    LeadsOne(v, Event(ToolClose, ""), read);
  }

  // From the opened call to the call with all its arguments, the name first or last.
  lemma {:induction false} BodyRuns(m: Msg, id: string, c: Script, read: string -> Reading)
    requires TrimEnd(c.name, -1) != ""
    ensures Leads(Nameless(m, id, "", 0), Body(c),
                  Visible(m, TrimEnd(c.name, -1), id, "{" + PairsText(c.args, ""), |c.args|), read)
  {
    hide TrimEnd, Leads, PairsText, AllArgEvents, PutArgs;
    var s, name := Nameless(m, id, "", 0), TrimEnd(c.name, -1);
    var text := "{" + PairsText(c.args, "");
    var done := Visible(m, name, id, text, |c.args|);
    if c.args == [] {
      NoPairs(c);
      assert Body(c) == [Event(ToolName, c.name)] && text == "{";
      NamesIt(m, id, "", 0, c.name, read);
    } else if c.nameFirst {
      var v := Visible(m, name, id, "{", 0);
      NamesIt(m, id, "", 0, c.name, read);
      VisibleWrites(m, name, id, "{", text, |c.args|);
      ManyArgs(v, c.args, read);
      LeadsOn(s, [Event(ToolName, c.name)], v, AllArgEvents(c.args), done, read);
    } else {
      ManyArgs(s, c.args, read);
      NamelessWrites(m, id, text, |c.args|);
      NamesIt(m, id, text, |c.args|, c.name, read);
      LeadsOn(s, AllArgEvents(c.args), Nameless(m, id, text, |c.args|), [Event(ToolName, c.name)], done, read);
    }
  }

  lemma {:induction false} NoPairs(c: Script)
    requires c.args == []
    ensures Body(c) == [Event(ToolName, c.name)] && PairsText(c.args, "") == ""
  {
    assert [Event(ToolName, c.name)] + [] == [Event(ToolName, c.name)];
    assert [] + [Event(ToolName, c.name)] == [Event(ToolName, c.name)];
  }

  lemma {:induction false} NamelessWrites(m: Msg, id: string, text: string, count: nat)
    ensures var s := Nameless(m, id, "", 0);
            Live(s) && Args(s) == "" && Wrote(s, text, count) == Nameless(m, id, text, count)
  {
  }

  lemma {:induction false} OpensIt(s: State, c: Script, read: string -> Reading)
    ensures Leads(s, [Event(ToolOpen, "")] + IdEvents(c.id), Nameless(s.msg, CallOf(c).id, "", 0), read)
  {
    hide Leads, IdText, TrimEnd;
    var t := Nameless(s.msg, "", "", 0);
    LeadsOne(s, Event(ToolOpen, ""), read);
    if c.id.Some? {
      LeadsOne(t, Event(ToolId, c.id.value), read);
      LeadsOn(s, [Event(ToolOpen, "")], t, [Event(ToolId, c.id.value)], Nameless(s.msg, CallOf(c).id, "", 0), read);
    } else {
      assert [Event(ToolOpen, "")] + [] == [Event(ToolOpen, "")];
    }
  }

  // One call adds exactly itself to the message, whatever was being done before.
  lemma {:induction false} CallRuns(s: State, c: Script, read: string -> Reading)
    requires TrimEnd(c.name, -1) != ""
    ensures Leads(s, CallEvents(c), Visible(s.msg, CallOf(c).name, CallOf(c).id, ObjectText(c.args), |c.args|), read)
  {
    hide Leads, IdText, TrimEnd, PairsText, Body, IdEvents;
    var id, name := CallOf(c).id, CallOf(c).name;
    var text := "{" + PairsText(c.args, "");
    OpensIt(s, c, read);
    BodyRuns(s.msg, id, c, read);
    ClosesIt(s.msg, name, id, c.args, |c.args|, read);
    var open, close := [Event(ToolOpen, "")] + IdEvents(c.id), [Event(ToolClose, "")];
    var v, done := Visible(s.msg, name, id, text, |c.args|), Visible(s.msg, name, id, ObjectText(c.args), |c.args|);
    LeadsOn(s, open, Nameless(s.msg, id, "", 0), Body(c), v, read);
    LeadsOn(s, open + Body(c), v, close, done, read);
    assert open + Body(c) + close == CallEvents(c);
  }

  lemma {:induction false} ItemRuns(s: State, it: Item, read: string -> Reading)
    requires it.Invoke? ==> TrimEnd(it.script.name, -1) != ""
    ensures RunOrderly(s, ItemEvents(it), read) && RunOnce(s, ItemEvents(it), read) && RunDefined(s, ItemEvents(it), read)
    ensures Run(s, ItemEvents(it), read).msg == AddItem(s.msg, it)
  {
    hide RunOrderly, RunOnce, RunDefined, Run, CallOf, TrimEnd;
    match it
    case Say(t) => LeadsOne(s, Event(Content, t), read);
    case Think(t) => LeadsOne(s, Event(Reasoning, t), read);
    case Invoke(c) => CallRuns(s, c, read); CallOfFields(c);
  }

  lemma {:induction false} CallOfFields(c: Script)
    ensures CallOf(c) == ToolCall(CallOf(c).name, ObjectText(c.args), CallOf(c).id)
  {
  }

  // Main result: the events of a reply are well-formed and map to exactly its message.
  lemma {:induction false} ReplyRuns(s: State, items: seq<Item>, read: string -> Reading)
    requires AllNamed(items)
    ensures RunOrderly(s, Events(items), read) && RunOnce(s, Events(items), read) && RunDefined(s, Events(items), read)
    ensures Run(s, Events(items), read).msg == AddItems(s.msg, items)
    decreases |items|
  {
    hide TrimEnd, ItemEvents, AddItem;
    if items != [] {
      var ns, rest := ItemEvents(items[0]), Events(items[1..]);
      ItemRuns(s, items[0], read);
      ReplyRuns(Run(s, ns, read), items[1..], read);
      RunConcat(s, ns, rest, read);
      OnceConcat(s, ns, rest, read);
    }
  }

  // ---------- cutting a reply into growing pieces ----------

  predicate NoObjectArgs(ns: seq<Node>) {
    forall i :: 0 <= i < |ns| ==> !ns[i].tag.ToolArgs?
  }

  lemma {:induction false} TaggedArgs(args: seq<Arg>)
    ensures NoObjectArgs(AllArgEvents(args))
  {
    if args != [] { TaggedArgs(args[1..]); }
  }

  lemma {:induction false} TaggedCall(c: Script)
    ensures NoObjectArgs(CallEvents(c))
  {
    TaggedArgs(c.args);
  }

  lemma {:induction false} TaggedReply(items: seq<Item>)
    ensures NoObjectArgs(Events(items))
  {
    hide CallEvents;
    if items != [] {
      TaggedReply(items[1..]);
      if items[0].Invoke? { TaggedCall(items[0].script); }
    }
  }

  // A shorter view of a well-formed run is well-formed too.
  lemma {:induction false} CutOrderly(a: seq<Node>, b: seq<Node>, read: string -> Reading)
    requires RunOrderly(START, b, read) && RunOnce(START, b, read) && Extends(a, b) && NoObjectArgs(b)
    ensures RunOrderly(START, a, read) && RunOnce(START, a, read) && NoObjectArgs(a)
  {
    hide RunOrderly, RunOnce, Run, RunDefined, Step, TrimEnd;
    if a <= b {
      assert a + b[|a|..] == b;
      RunConcat(START, a, b[|a|..], read);
      OnceConcat(START, a, b[|a|..], read);
      assert forall i :: 0 <= i < |a| ==> a[i] == b[i];
    } else {
      var k := |a| - 1;
      var pre, n, n' := a[..k], a[k], b[k];
      assert a == pre + [n] && b == (pre + [n']) + b[k + 1..];
      RunConcat(START, pre + [n'], b[k + 1..], read);
      RunConcat(START, pre, [n'], read);
      RunLast(pre, n', read);
      OnceConcat(START, pre + [n'], b[k + 1..], read);
      OnceConcat(START, pre, [n'], read);
      OnceHead(Run(START, pre, read), n', read);
      LeadsOne(Run(START, pre, read), n, read);
      RunConcat(START, pre, [n], read);
      OnceConcat(START, pre, [n], read);
      assert forall i :: 0 <= i < k ==> a[i] == a[..k][i] == b[..k][i] == b[i];
    }
  }

  lemma {:induction false} OnceHead(s: State, n: Node, read: string -> Reading)
    requires RunOnce(s, [n], read)
    ensures n.tag.ToolName? ==> !s.current.LastCall?
  {
  }

  lemma {:induction false} AllViewsOrderly(views: seq<seq<Node>>, i: nat, read: string -> Reading)
    requires i < |views| && RunOrderly(START, views[|views| - 1], read) && RunOnce(START, views[|views| - 1], read)
    requires NoObjectArgs(views[|views| - 1])
    requires forall j :: 0 < j < |views| ==> Extends(views[j - 1], views[j])
    ensures RunOrderly(START, views[i], read) && RunOnce(START, views[i], read) && NoObjectArgs(views[i])
    decreases |views| - i
  {
    hide RunOrderly, RunOnce, Extends;
    if i < |views| - 1 {
      AllViewsOrderly(views, i + 1, read);
      assert Extends(views[(i + 1) - 1], views[i + 1]);
      CutOrderly(views[i], views[i + 1], read);
    }
  }

  // Main result: however a reply is cut into growing views, the differ never throws, every message
  // is rebuilt from its deltas, and the last is the message of the reply.
  lemma {:induction false} ReplyStreams(items: seq<Item>, views: seq<seq<Node>>, read: string -> Reading)
    requires AllNamed(items) && views != [] && views[|views| - 1] == Events(items)
    requires forall j :: 0 < j < |views| ==> Extends(views[j - 1], views[j])
    ensures forall i :: 0 <= i < |views| ==> RunDefined(START, views[i], read)
    ensures Rebuilds(EMPTY, EMPTY, Views(views, read))
    ensures View(views[|views| - 1], read) == AddItems(EMPTY, items)
  {
    hide RunOrderly, RunOnce, Run, Rebuilds, RunDefined, Extends, View, NoObjectArgs;
    ReplyRuns(START, items, read);
    TaggedReply(items);
    OrderlyView(Events(items), read);
    forall i | 0 <= i < |views| ensures RunOrderly(START, views[i], read) { AllViewsOrderly(views, i, read); }
    StreamingLosesNothing(views, read);
  }

  // ---------- reading the arguments back ----------

  function HexValue(c: char): Option<nat> {
    if '0' <= c <= '9' then Some(c as int - '0' as int)
    else if 'a' <= c <= 'f' then Some(c as int - 'a' as int + 10)
    else None
  }

  // One escape after its backslash: the character, and how much text it takes.
  function ReadEscape(s: string): Option<(char, nat)> {
    if s == "" then None
    else if s[0] == '"' || s[0] == '\\' || s[0] == '/' then Some((s[0], 1))
    else if s[0] == 'b' then Some(('\U{8}', 1)) else if s[0] == 't' then Some(('\t', 1))
    else if s[0] == 'n' then Some(('\n', 1)) else if s[0] == 'f' then Some(('\U{C}', 1))
    else if s[0] == 'r' then Some(('\r', 1))
    else if s[0] == 'u' && |s| >= 5 && s[1] == '0' && s[2] == '0' && HexValue(s[3]).Some? && HexValue(s[4]).Some? then
      Some(((HexValue(s[3]).value * 16 + HexValue(s[4]).value) as char, 5))
    else None
  }

  // What stands before the closing quote, decoded, and what follows it.
  function ReadString(s: string): (r: Option<(string, string)>)
    ensures r.Some? ==> |r.value.1| < |s|
  {
    if s == "" then None
    else if s[0] == '"' then Some(("", s[1..]))
    else if s[0] == '\\' then
      match ReadEscape(s[1..])
      case None => None
      case Some(e) =>
        if |s| < 1 + e.1 then None
        else
          match ReadString(s[1 + e.1..])
          case None => None
          case Some(t) => Some(([e.0] + t.0, t.1))
    else
      match ReadString(s[1..])
      case None => None
      case Some(t) => Some(([s[0]] + t.0, t.1))
  }

  // A member `"key":"value"` and what follows it.
  function ReadMember(s: string): (r: Option<((string, string), string)>)
    ensures r.Some? ==> |r.value.1| < |s|
  {
    if s == "" || s[0] != '"' then None
    else
      match ReadString(s[1..])
      case None => None
      case Some(k) =>
        if |k.1| < 2 || k.1[0] != ':' || k.1[1] != '"' then None
        else
          match ReadString(k.1[2..])
          case None => None
          case Some(v) => Some(((k.0, v.0), v.1))
  }

  function ReadMembers(s: string): Option<seq<(string, string)>>
    decreases |s|
  {
    match ReadMember(s)
    case None => None
    case Some(m) =>
      if m.1 == "}" then Some([m.0])
      else if m.1 != "" && m.1[0] == ',' then
        match ReadMembers(m.1[1..])
        case None => None
        case Some(rest) => Some([m.0] + rest)
      else None
  }

  function ReadObject(s: string): Option<seq<(string, string)>> {
    if s == "{}" then Some([])
    else if s != "" && s[0] == '{' then ReadMembers(s[1..])
    else None
  }

  lemma {:induction false} EscapeReadsBack(c: char, rest: string)
    requires EscapeChar(c) != [c]
    ensures EscapeChar(c)[0] == '\\' && ReadEscape(EscapeChar(c)[1..] + rest) == Some((c, |EscapeChar(c)| - 1))
  {
    var e := EscapeChar(c);
    var x := e[1..] + rest;
    if |e| == 6 {
      var h, l := c as int / 16, c as int % 16;
      assert h <= 1 && x[3] == HEX[h] && x[4] == HEX[l];
      assert HexValue(HEX[l]) == Some(l);
    }
  }

  lemma {:induction false} CharReadsBack(c: char, tail: string, t: string, rest: string)
    requires ReadString(tail) == Some((t, rest))
    ensures ReadString(EscapeChar(c) + tail) == Some(([c] + t, rest))
  {
    hide ReadEscape;
    var e := EscapeChar(c);
    var x := e + tail;
    if e == [c] {
      assert x[1..] == tail && c != '"' && c != '\\';
    } else {
      EscapeReadsBack(c, tail);
      assert x[0] == '\\' && x[1..] == e[1..] + tail && x[|e|..] == tail;
    }
  }

  lemma {:induction false} StringReadsBack(s: string, rest: string)
    ensures ReadString(Escape(s) + ("\"" + rest)) == Some((s, rest))
  {
    hide ReadEscape, EscapeChar;
    var end := "\"" + rest;
    if s == [] {
      assert [] + end == end && end[1..] == rest;
    } else {
      hide ReadString;
      StringReadsBack(s[1..], rest);
      CharReadsBack(s[0], Escape(s[1..]) + end, s[1..], rest);
      Assoc(EscapeChar(s[0]), Escape(s[1..]), end);
      assert Escape(s) == EscapeChar(s[0]) + Escape(s[1..]);
      hide Escape;
      assert s == [s[0]] + s[1..];
    }
  }

  lemma {:induction false} MemberReadsBack(a: Arg, rest: string)
    ensures ReadMember(PairText(a) + rest) == Some(((KeyOf(a), ValueOf(a)), rest))
  {
    hide ReadString, Escape, KeyOf, ValueOf;
    var k, v := Escape(KeyOf(a)), Escape(ValueOf(a));
    var after := ":" + ("\"" + (v + ("\"" + rest)));
    var x := PairText(a) + rest;
    assert x == "\"" + (k + ("\"" + after)) && x[1..] == k + ("\"" + after);
    StringReadsBack(KeyOf(a), after);
    assert after[2..] == v + ("\"" + rest);
    StringReadsBack(ValueOf(a), rest);
  }

  function Pairs(args: seq<Arg>): seq<(string, string)> {
    if args == [] then [] else [(KeyOf(args[0]), ValueOf(args[0]))] + Pairs(args[1..])
  }

  lemma {:induction false} LastMember(a: Arg)
    ensures ReadMembers(PairText(a) + "}") == Some([(KeyOf(a), ValueOf(a))])
  {
    hide ReadMember, PairText, KeyOf, ValueOf;
    MemberReadsBack(a, "}");
  }

  lemma {:induction false} MoreMembers(a: Arg, text: string, ps: seq<(string, string)>)
    requires ReadMembers(text) == Some(ps)
    ensures ReadMembers(PairText(a) + ("," + text)) == Some([(KeyOf(a), ValueOf(a))] + ps)
  {
    hide ReadMember, PairText, KeyOf, ValueOf;
    MemberReadsBack(a, "," + text);
    assert ("," + text)[1..] == text && ("," + text)[0] != '}';
  }

  lemma {:induction false} MembersReadBack(args: seq<Arg>)
    requires args != []
    ensures ReadMembers(PairsText(args, "") + "}") == Some(Pairs(args))
  {
    hide ReadMembers, ReadMember, PairText, KeyOf, ValueOf;
    var p := PairText(args[0]);
    assert PairsText(args, "") == p + PairsText(args[1..], ",") by { assert "" + p == p; }
    if |args| == 1 {
      assert args[1..] == [] && PairsText(args[1..], ",") == "" && p + "" == p;
      LastMember(args[0]);
      var pair := (KeyOf(args[0]), ValueOf(args[0]));
      assert Pairs(args) == [pair] + Pairs([]) && Pairs([]) == [] && [pair] + [] == [pair];
    } else {
      var rest := PairsText(args[1..], "");
      MembersReadBack(args[1..]);
      SepMoves(args[1..]);
      MoreMembers(args[0], rest + "}", Pairs(args[1..]));
      assert p + ("," + rest) + "}" == p + ("," + (rest + "}"));
    }
  }

  lemma {:induction false} SepMoves(args: seq<Arg>)
    requires args != []
    ensures PairsText(args, ",") == "," + PairsText(args, "")
  {
    hide PairText;
    var p, r := PairText(args[0]), PairsText(args[1..], ",");
    assert PairsText(args, ",") == "," + p + r && PairsText(args, "") == "" + p + r;
    hide PairsText;
    assert "" + p == p;
    Assoc(",", p, r);
  }

  // The closed arguments are a JSON object with exactly the given keys and values, in order.
  lemma {:induction false} ArgumentsReadBack(args: seq<Arg>)
    ensures ReadObject(ObjectText(args)) == Some(Pairs(args))
  {
    hide ReadMembers, PairText;
    if args == [] {
      assert "{" + "" + "}" == "{}";
    } else {
      MembersReadBack(args);
      var x := ObjectText(args);
      assert x[1..] == PairsText(args, "") + "}";
      StartsWithQuote(args);
      assert x[1] == '"' && x != "{}";
    }
  }

  lemma {:induction false} StartsWithQuote(args: seq<Arg>)
    requires args != []
    ensures PairsText(args, "") != "" && PairsText(args, "")[0] == '"'
  {
  }
}
