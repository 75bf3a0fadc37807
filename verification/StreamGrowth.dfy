/** Streaming loses nothing: while events arrive and the last text gets longer, the mapped messages
    grow in the sense of the differ, so its deltas rebuild the final message. */
module StreamGrowth {
  import opened Basics
  import opened JsonText
  import opened MsgDiff
  import opened ToolStream
  import QuoteNorm

  // ---------- one event ----------

  // A call being written has no text of its own until it is named; afterwards nothing is buffered.
  ghost predicate Inv(s: State) {
    && (s.pending.Some? ==> s.current.PendingCall? && s.pending.value.name == "" && s.pending.value.arguments == "")
    && (s.current.LastCall? ==> s.msg.calls != [] && Call(s).name != "" && s.buffer == "")
  }

  // What a further event must respect once the current call is visible.
  predicate Growing(s: State, n: Node)
    requires Defined(s, n)
  {
    (s.current.LastCall? && UsesTool(n.tag)) ==>
      match n.tag
      case ToolName => Call(s).name <= TrimEnd(n.text, -1)
      case ToolId => IdText(n.text) != "" || Call(s).id == ""
      case ToolArgs => var t := TrimEnd(n.text, -1); (t != "" && t[0] == '{') ==> Call(s).arguments <= t
      case _ => true
  }

  // Names have text in them, and a string value starts with no quote owed.
  predicate Orderly(s: State, n: Node) {
    && Defined(s, n)
    && Growing(s, n)
    && (n.tag.ToolName? && !s.current.NoTool? ==> TrimEnd(n.text, -1) != "")
    && (n.tag.ArgStringValue? && !s.current.NoTool? ==> !s.closing)
  }

  lemma {:induction false} GrowsItself(m: Msg)
    ensures Grows(m, m)
  {
  }

  lemma {:induction false} GrowsInLastCall(m: Msg, c: ToolCall)
    requires m.calls != []
    ensures Grows(m, m.(calls := m.calls[|m.calls| - 1 := c])) <==> CallGrows(m.calls[|m.calls| - 1], c)
  {
    hide CallGrows;
  }

  lemma {:induction false} GrowsByACall(m: Msg, c: ToolCall)
    ensures Grows(m, m.(calls := m.calls + [c]))
  {
  }

  // Writing through the pointer shows in the message only when it points into the message.
  lemma {:induction false} SetCallGrows(s: State, c: ToolCall)
    requires Inv(s) && Live(s) && !s.current.NoTool?
    ensures Grows(s.msg, SetCall(s, c).msg) <==> (s.current.LastCall? ==> CallGrows(Call(s), c))
    ensures s.current.LastCall? && c.name != "" ==> Inv(SetCall(s, c))
    ensures s.current.PendingCall? && c.name == "" && c.arguments == "" ==> Inv(SetCall(s, c))
  {
    hide CallGrows;
    if s.current.LastCall? {
      GrowsInLastCall(s.msg, c);
    } else {
      GrowsItself(s.msg);
    }
  }

  lemma {:induction false} PutArgsGrows(s: State, text: string)
    requires Inv(s) && Live(s) && !s.current.NoTool?
    ensures Grows(s.msg, PutArgs(s, text).msg) <==> (s.current.LastCall? ==> Args(s) <= text)
    ensures Inv(PutArgs(s, text))
  {
    hide Grows;
    SetCallGrows(s, Call(s).(arguments := text));
    GrowsItself(s.msg);
  }

  lemma {:induction false} NamedGrows(s: State, text: string)
    requires Inv(s) && Live(s) && !s.current.NoTool?
    ensures Grows(s.msg, Named(s, text).msg) <==> (s.current.LastCall? ==> Call(s).name <= TrimEnd(text, -1))
    ensures TrimEnd(text, -1) != "" ==> Inv(Named(s, text))
  {
    hide Grows, TrimEnd;
    var c := Call(s).(name := TrimEnd(text, -1));
    if s.current.PendingCall? {
      var c' := c.(arguments := if s.buffer != "" then s.buffer else "{");
      GrowsByACall(s.msg, c');
      assert Named(s, text).msg == s.msg.(calls := s.msg.calls + [c']);
    } else {
      var c' := if c.arguments == "" then c.(arguments := "{") else c;
      SetCallGrows(s, c');
      assert Named(s, text).msg == SetCall(s, c').msg;
    }
  }

  lemma {:induction false} ClosedGrows(s: State)
    requires Inv(s) && Live(s) && !s.current.NoTool?
    ensures Grows(s.msg, Closed(s).msg) && Inv(Closed(s))
  {
    hide Grows, CallGrows, EndQuote, Braces;
    GrowsItself(s.msg);
    if s.current.LastCall? {
      var c := Call(s);
      var text := EndQuote(c.arguments, s.closing);
      var all := text + Braces(QuoteNorm.Depth(text, false, false));
      ClosedText(c, s.closing);
      SetCallGrows(s, c.(arguments := all));
      assert Closed(s).msg == SetCall(s, c.(arguments := all)).msg;
    }
  }

  lemma {:induction false} ClosedText(c: ToolCall, closing: bool)
    ensures var text := EndQuote(c.arguments, closing);
            CallGrows(c, c.(arguments := text + Braces(QuoteNorm.Depth(text, false, false))))
  {
  }

  // Every event keeps the invariant, and grows the message exactly when it is a growing one.
  lemma {:induction false} StepGrowsIff(s: State, n: Node, read: string -> Reading)
    requires Inv(s) && Defined(s, n)
    ensures Grows(s.msg, Step(s, n, read).msg) <==> Growing(s, n)
    ensures (n.tag.ToolName? && !s.current.NoTool? ==> TrimEnd(n.text, -1) != "") ==> Inv(Step(s, n, read))
  {
    hide Grows, CallGrows, TrimEnd, TrimStart, IdText, PutArgs, SetCall, Named, Closed, ArgEntry, PlainValue, StringValue;
    GrowsItself(s.msg);
    if !UsesTool(n.tag) {
      TextGrowsMessage(s.msg, n.text);
    } else if !s.current.NoTool? {
      var t := TrimEnd(n.text, -1);
      match n.tag
      case ToolId => IdGrows(s, IdText(n.text));
      case ToolName => NamedGrows(s, n.text);
      case ToolArgs => PutArgsGrows(s, t); ArgsOfLast(s);
      case ArgName =>
        PutArgsGrows(s, OpenedArgs(Args(s)) + ArgEntry(n.text, s.argCount == 0));
        if Args(s) == "" { assert Args(s) <= OpenedArgs(Args(s)) + ArgEntry(n.text, s.argCount == 0); }
      case ArgValue => PutArgsGrows(s, Args(s) + PlainValue(ValueContent(n.text), n.partial, s.closing, read).0);
      case ArgStringValue => PutArgsGrows(s, Args(s) + StringValue(ValueContent(n.text), s.closing).0);
      case ArgClose => PutArgsGrows(s, Args(s) + "\"");
      case ToolClose => ClosedGrows(s);
    }
  }

  lemma {:induction false} ArgsOfLast(s: State)
    requires Inv(s) && Live(s)
    ensures s.current.LastCall? ==> Args(s) == Call(s).arguments
  {
  }

  lemma {:induction false} TextGrowsMessage(m: Msg, text: string)
    ensures Grows(m, m.(reasoning := m.reasoning + text)) && Grows(m, m.(content := m.content + text))
  {
  }

  lemma {:induction false} IdGrows(s: State, id: string)
    requires Inv(s) && Live(s) && !s.current.NoTool?
    ensures Grows(s.msg, SetCall(s, Call(s).(id := id)).msg) <==> (s.current.LastCall? ==> id != "" || Call(s).id == "")
    ensures Inv(SetCall(s, Call(s).(id := id)))
  {
    hide Grows;
    SetCallGrows(s, Call(s).(id := id));
  }

  // ---------- runs ----------

  ghost predicate RunOrderly(s: State, ns: seq<Node>, read: string -> Reading)
    decreases |ns|
  {
    ns == [] || (Orderly(s, ns[0]) && RunOrderly(Step(s, ns[0], read), ns[1..], read))
  }

  lemma {:induction false} OrderlyRuns(s: State, ns: seq<Node>, read: string -> Reading)
    requires Inv(s) && RunOrderly(s, ns, read)
    ensures RunDefined(s, ns, read) && Inv(Run(s, ns, read)) && Grows(s.msg, Run(s, ns, read).msg)
    decreases |ns|
  {
    hide Grows, Inv, Step, Growing;
    if ns == [] {
      GrowsItself(s.msg);
    } else {
      StepGrowsIff(s, ns[0], read);
      var s' := Step(s, ns[0], read);
      OrderlyRuns(s', ns[1..], read);
      GrowsTransitive(s.msg, s'.msg, Run(s, ns, read).msg);
    }
  }

  lemma {:induction false} RunConcat(s: State, a: seq<Node>, b: seq<Node>, read: string -> Reading)
    ensures RunOrderly(s, a + b, read) <==>
            RunOrderly(s, a, read) && RunDefined(s, a, read) && RunOrderly(Run(s, a, read), b, read)
    ensures RunOrderly(s, a + b, read) ==>
            RunDefined(s, a + b, read) && RunDefined(s, a, read) && RunDefined(Run(s, a, read), b, read)
            && Run(s, a + b, read) == Run(Run(s, a, read), b, read)
    decreases |a|
  {
    hide Step, Growing;
    if a == [] {
      assert a + b == b;
      if RunOrderly(s, b, read) { OrderlyDefined(s, b, read); }
    } else {
      assert (a + b)[0] == a[0] && (a + b)[1..] == a[1..] + b;
      if Orderly(s, a[0]) {
        RunConcat(Step(s, a[0], read), a[1..], b, read);
      }
    }
  }

  lemma {:induction false} OrderlyDefined(s: State, ns: seq<Node>, read: string -> Reading)
    requires RunOrderly(s, ns, read)
    ensures RunDefined(s, ns, read)
    decreases |ns|
  {
    if ns != [] { OrderlyDefined(Step(s, ns[0], read), ns[1..], read); }
  }

  // The flush has nothing to do: a pending call never has a name.
  lemma {:induction false} FlushIsIdle(s: State)
    requires Inv(s)
    ensures Flush(s) == s
  {
  }

  // The message one parse delivers.
  ghost function View(ns: seq<Node>, read: string -> Reading): Msg
    requires RunDefined(START, ns, read)
  {
    Flush(Run(START, ns, read)).msg
  }

  // ---------- a text that gets longer ----------

  // A name grows from the moment it has text.
  predicate MayGrow(n: Node, n': Node) {
    && n.tag == n'.tag && n.text <= n'.text
    && n.tag in {Reasoning, Content, ToolArgs, ToolName, ArgStringValue, OtherTag}
    && (n.tag.ToolName? ==> TrimEnd(n.text, -1) != "")
  }

  lemma {:induction false} TrimEndPrefix(s: string, max: int)
    ensures TrimEnd(s, max) <= s
    ensures forall k :: |TrimEnd(s, max)| <= k < |s| ==> IsSpace(s[k])
    ensures max < 0 && TrimEnd(s, max) != "" ==> !IsSpace(TrimEnd(s, max)[|TrimEnd(s, max)| - 1])
    decreases |s|
  {
    if s != "" && IsSpace(s[|s| - 1]) && max != 0 { TrimEndPrefix(s[..|s| - 1], max - 1); }
  }

  // A longer text trims to a longer text.
  lemma {:induction false} TrimAllGrows(a: string, b: string)
    requires a <= b
    ensures TrimEnd(a, -1) <= TrimEnd(b, -1)
  {
    hide TrimEnd;
    TrimEndPrefix(a, -1);
    TrimEndPrefix(b, -1);
    var t, u := TrimEnd(a, -1), TrimEnd(b, -1);
    if t != "" {
      assert !IsSpace(b[|t| - 1]);
    }
  }

  lemma {:induction false} TrimEndOne(s: string)
    ensures TrimEnd(s, 1) == if s != "" && IsSpace(s[|s| - 1]) then s[..|s| - 1] else s
  {
    if s != "" && IsSpace(s[|s| - 1]) { assert TrimEnd(s[..|s| - 1], 0) == s[..|s| - 1]; }
  }

  lemma {:induction false} TrimStartOne(s: string)
    ensures TrimStart(s, 1) == if s != "" && IsSpace(s[0]) then s[1..] else s
  {
    if s != "" && IsSpace(s[0]) { assert TrimStart(s[1..], 0) == s[1..]; }
  }

  lemma {:induction false} ValueContentGrows(a: string, b: string)
    requires a <= b
    ensures ValueContent(a) <= ValueContent(b)
  {
    hide TrimEnd, TrimStart;
    TrimStartOne(a);
    TrimStartOne(b);
    var c, d := TrimStart(a, 1), TrimStart(b, 1);
    assert c <= d;
    TrimEndOne(c);
    TrimEndOne(d);
  }

  lemma {:induction false} EscapeConcat(a: string, b: string)
    ensures Escape(a + b) == Escape(a) + Escape(b)
  {
    hide EscapeChar;
    if a == [] {
      assert a + b == b;
    } else {
      assert (a + b)[0] == a[0] && (a + b)[1..] == a[1..] + b;
      EscapeConcat(a[1..], b);
    }
  }

  lemma {:induction false} StringValueGrows(a: string, b: string)
    requires a <= b
    ensures StringValue(a, false).0 <= StringValue(b, false).0
  {
    hide EscapeChar;
    assert a + b[|a|..] == b;
    EscapeConcat(a, b[|a|..]);
    if a == "" { assert StringValue(b, false).0[0] == '"'; }
  }

  // The same call under two names: the message grows exactly when the trimmed name does.
  lemma {:induction false} NameGrowsExact(s: State, n: Node, n': Node, read: string -> Reading)
    requires Inv(s) && Live(s) && n.tag.ToolName? && n'.tag.ToolName?
    ensures Grows(Step(s, n, read).msg, Step(s, n', read).msg)
            <==> s.current.NoTool? || TrimEnd(n.text, -1) <= TrimEnd(n'.text, -1)
  {
    hide TrimEnd, Grows;
    if s.current.NoTool? {
      GrowsItself(s.msg);
    } else {
      NamedLast(s, n.text);
      NamedLast(s, n'.text);
      var p := Named(s, n.text).msg;
      var k := |p.calls| - 1;
      GrowsInLastCall(p, Named(s, n'.text).msg.calls[k]);
      assert Named(s, n'.text).msg == p.(calls := p.calls[k := Named(s, n'.text).msg.calls[k]]);
    }
  }

  // Naming touches the last call of the new message only, and writes nothing but the name into it that
  // depends on the text.
  lemma {:induction false} NamedLast(s: State, text: string)
    requires Inv(s) && Live(s) && !s.current.NoTool?
    ensures var before := if s.current.LastCall? then s.msg.calls[..|s.msg.calls| - 1] else s.msg.calls;
            var args := if s.buffer != "" then s.buffer else if Call(s).arguments == "" then "{" else Call(s).arguments;
            Named(s, text).msg == s.msg.(calls := before + [ToolCall(TrimEnd(text, -1), args, Call(s).id)])
  {
    hide TrimEnd;
    if s.current.LastCall? {
      var c := Named(s, text).msg.calls[|s.msg.calls| - 1];
      assert s.msg.calls[|s.msg.calls| - 1 := c] == s.msg.calls[..|s.msg.calls| - 1] + [c];
    }
  }

  // The same event with more text gives a message that grows the one with less.
  lemma {:induction false} TextGrows(s: State, n: Node, n': Node, read: string -> Reading)
    requires Inv(s) && MayGrow(n, n') && Orderly(s, n) && Orderly(s, n')
    ensures Grows(Step(s, n, read).msg, Step(s, n', read).msg)
  {
    hide Grows, TrimEnd, ValueContent, StringValue, PutArgs;
    GrowsItself(s.msg);
    match n.tag
    case Reasoning => LongerText(s.msg, n.text, n'.text);
    case Content => LongerText(s.msg, n.text, n'.text);
    case OtherTag =>
    case ToolArgs =>
      TrimAllGrows(n.text, n'.text);
      StepGrowsIff(s, n', read);
      var t, t' := TrimEnd(n.text, -1), TrimEnd(n'.text, -1);
      if !s.current.NoTool? && t != "" && t[0] == '{' {
        PutTwice(s, t, t');
      }
    case ToolName =>
      TrimAllGrows(n.text, n'.text);
      NameGrowsExact(s, n, n', read);
    case ArgStringValue =>
      ValueContentGrows(n.text, n'.text);
      StringValueGrows(ValueContent(n.text), ValueContent(n'.text));
      if !s.current.NoTool? {
        PutTwice(s, Args(s) + StringValue(ValueContent(n.text), false).0, Args(s) + StringValue(ValueContent(n'.text), false).0);
      }
  }

  lemma {:induction false} LongerText(m: Msg, a: string, b: string)
    requires a <= b
    ensures Grows(m.(reasoning := m.reasoning + a), m.(reasoning := m.reasoning + b))
    ensures Grows(m.(content := m.content + a), m.(content := m.content + b))
  {
  }

  lemma {:induction false} PutTwice(s: State, a: string, b: string)
    requires Inv(s) && Live(s) && !s.current.NoTool? && a <= b
    ensures Grows(PutArgs(s, a).msg, PutArgs(s, b).msg)
  {
    hide Grows;
    var s' := PutArgs(s, a);
    PutArgsGrows(s, a);
    assert Live(s') && Call(s').name == Call(s).name;
    PutArgsGrows(s', b);
    assert Args(s') == a;
    assert PutArgs(s', b).msg == PutArgs(s, b).msg;
  }

  // ---------- views of a growing text ----------

  // All events again, the last perhaps with more text, then new ones.
  predicate Extends(a: seq<Node>, b: seq<Node>) {
    a <= b ||
    (a != [] && |a| <= |b| && a[..|a| - 1] == b[..|a| - 1] && MayGrow(a[|a| - 1], b[|a| - 1]))
  }

  lemma {:induction false} OrderlyView(ns: seq<Node>, read: string -> Reading)
    requires RunOrderly(START, ns, read)
    ensures RunDefined(START, ns, read) && View(ns, read) == Run(START, ns, read).msg
  {
    hide Run, Flush, RunOrderly;
    OrderlyRuns(START, ns, read);
    FlushIsIdle(Run(START, ns, read));
  }

  lemma {:induction false} RunGrows(a: seq<Node>, more: seq<Node>, read: string -> Reading)
    requires RunOrderly(START, a + more, read)
    ensures RunDefined(START, a, read) && RunDefined(START, a + more, read)
    ensures Grows(Run(START, a, read).msg, Run(START, a + more, read).msg)
  {
    hide Grows, Run, RunOrderly, RunDefined;
    RunConcat(START, a, more, read);
    OrderlyRuns(START, a, read);
    OrderlyRuns(Run(START, a, read), more, read);
  }

  lemma {:induction false} RunLast(pre: seq<Node>, n: Node, read: string -> Reading)
    requires RunOrderly(START, pre + [n], read)
    ensures RunDefined(START, pre, read) && RunDefined(START, pre + [n], read)
    ensures Inv(Run(START, pre, read)) && Orderly(Run(START, pre, read), n)
    ensures Run(START, pre + [n], read) == Step(Run(START, pre, read), n, read)
  {
    assert Inv(START);
    hide Step, Inv, Growing;
    RunConcat(START, pre, [n], read);
    OrderlyRuns(START, pre, read);
    var s := Run(START, pre, read);
    assert Run(s, [n], read) == Run(Step(s, n, read), [], read);
  }

  lemma {:induction false} ViewGrows(a: seq<Node>, b: seq<Node>, read: string -> Reading)
    requires RunOrderly(START, a, read) && RunOrderly(START, b, read) && Extends(a, b)
    ensures RunDefined(START, a, read) && RunDefined(START, b, read)
    ensures Grows(View(a, read), View(b, read))
  {
    hide Grows, Run, RunOrderly, RunDefined, Step, View;
    OrderlyView(a, read);
    OrderlyView(b, read);
    if a <= b {
      assert a + b[|a|..] == b;
      RunGrows(a, b[|a|..], read);
    } else {
      var k := |a| - 1;
      var pre, n, n' := a[..k], a[k], b[k];
      var mid := pre + [n'];
      assert a == pre + [n] && b == mid + b[k + 1..];
      RunGrows(mid, b[k + 1..], read);
      RunLast(pre, n, read);
      RunConcat(START, mid, b[k + 1..], read);
      RunLast(pre, n', read);
      TextGrows(Run(START, pre, read), n, n', read);
      GrowsTransitive(View(a, read), Run(START, mid, read).msg, View(b, read));
    }
  }

  ghost predicate Growth(views: seq<seq<Node>>, read: string -> Reading) {
    && (forall i :: 0 <= i < |views| ==> RunOrderly(START, views[i], read))
    && (forall i :: 0 < i < |views| ==> Extends(views[i - 1], views[i]))
  }

  ghost function Views(views: seq<seq<Node>>, read: string -> Reading): (r: seq<Msg>)
    requires forall i :: 0 <= i < |views| ==> RunDefined(START, views[i], read)
    ensures |r| == |views| && forall i :: 0 <= i < |r| ==> r[i] == View(views[i], read)
  {
    seq(|views|, i requires 0 <= i < |views| => View(views[i], read))
  }

  lemma {:induction false} MessagesGrowAlong(m: Msg, msgs: seq<Msg>)
    requires msgs != [] ==> Grows(m, msgs[0])
    requires forall i :: 0 < i < |msgs| ==> Grows(msgs[i - 1], msgs[i])
    ensures GrowsAlong(m, msgs)
    decreases |msgs|
  {
    hide Grows;
    if msgs != [] {
      forall i | 0 < i < |msgs[1..]| ensures Grows(msgs[1..][i - 1], msgs[1..][i]) {
        assert Grows(msgs[(i + 1) - 1], msgs[i + 1]);
      }
      if |msgs| > 1 { assert Grows(msgs[1 - 1], msgs[1]); }
      MessagesGrowAlong(msgs[0], msgs[1..]);
    }
  }

  // Main result: the differ never throws along a growing run, and its deltas rebuild every message.
  lemma {:induction false} StreamingLosesNothing(views: seq<seq<Node>>, read: string -> Reading)
    requires Growth(views, read)
    ensures forall i :: 0 <= i < |views| ==> RunDefined(START, views[i], read)
    ensures Rebuilds(EMPTY, EMPTY, Views(views, read))
  {
    hide Grows, Run, RunOrderly, RunDefined, View, Rebuilds, Extends;
    forall i | 0 <= i < |views| ensures RunDefined(START, views[i], read) && Grows(EMPTY, View(views[i], read)) {
      assert RunOrderly(START, views[i], read);
      OrderlyView(views[i], read);
      OrderlyRuns(START, views[i], read);
    }
    var msgs := Views(views, read);
    forall i | 0 < i < |msgs| ensures Grows(msgs[i - 1], msgs[i]) {
      ViewGrows(views[i - 1], views[i], read);
    }
    MessagesGrowAlong(EMPTY, msgs);
    StreamRebuilds(EMPTY, msgs);
  }
}
