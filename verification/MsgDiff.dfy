/** The message differ: what a server sends to a client between two parses of a growing reply,
    and when a client that adds up the pieces ends with the new message. */
module MsgDiff {
  import opened Basics

  datatype ToolCall = ToolCall(name: string, arguments: string, id: string)
  datatype Msg = Msg(reasoning: string, content: string, calls: seq<ToolCall>)

  const NO_CALL := ToolCall("", "", "")

  // One delta; `index` is absent when the delta is about text only.
  datatype Diff = Diff(reasoning: string, content: string, index: Option<nat>, call: ToolCall)

  datatype DiffError = NotAPrefix | FewerCalls | NameMismatch

  // ---------- computing the deltas ----------

  function StringDiff(last: string, current: string): Result<string, DiffError> {
    if last == "" then Ok(current)
    else if !(last <= current) then
      if current <= last then Ok("") else Err(NotAPrefix)
    else Ok(current[|last|..])
  }

  predicate NamesClash(o: string, n: string) {
    o != n && o != "" && n != "" && !(o <= n)
  }

  // The delta of the last call both messages have; nothing when the old message has no call.
  function CallDiff(idx: nat, o: ToolCall, n: ToolCall): Result<seq<Diff>, DiffError> {
    if NamesClash(o.name, n.name) then Err(NameMismatch)
    else
      match StringDiff(o.arguments, n.arguments)
      case Err(e) => Err(e)
      case Ok(added) =>
        var changed := o.id != n.id || o.name != n.name;
        if added == "" && !changed then Ok([])
        else Ok([Diff("", "", Some(idx), ToolCall(if changed then n.name else "", added, if changed then n.id else ""))])
  }

  function LastCallDiff(p: Msg, n: Msg): Result<seq<Diff>, DiffError>
    requires |p.calls| <= |n.calls|
  {
    if p.calls == [] then Ok([])
    else
      var idx := |p.calls| - 1;
      CallDiff(idx, p.calls[idx], n.calls[idx])
  }

  function NewCalls(n: Msg, from: nat): seq<Diff>
    requires from <= |n.calls|
  {
    seq(|n.calls| - from, i requires 0 <= i < |n.calls| - from => Diff("", "", Some(from + i), n.calls[from + i]))
  }

  function ReasoningPart(p: Msg, n: Msg, added: string): seq<Diff> {
    if p.reasoning == n.reasoning then [] else [Diff(added, "", None, NO_CALL)]
  }

  function ContentPart(p: Msg, n: Msg, added: string): seq<Diff> {
    if p.content == n.content then [] else [Diff("", added, None, NO_CALL)]
  }

  function Diffs(p: Msg, n: Msg): Result<seq<Diff>, DiffError> {
    var r := StringDiff(p.reasoning, n.reasoning);
    var c := StringDiff(p.content, n.content);
    if r.Err? then Err(r.error)
    else if c.Err? then Err(c.error)
    else if |n.calls| < |p.calls| then Err(FewerCalls)
    else
      match LastCallDiff(p, n)
      case Err(e) => Err(e)
      case Ok(last) =>
        Ok(ReasoningPart(p, n, r.value) + ContentPart(p, n, c.value) + last + NewCalls(n, |p.calls|))
  }

  method ComputeDiffs(p: Msg, n: Msg) returns (res: Result<seq<Diff>, DiffError>)
    ensures res == Diffs(p, n)
  {
    hide StringDiff, NamesClash, NewCalls;
    ghost var r, c := StringDiff(p.reasoning, n.reasoning), StringDiff(p.content, n.content);
    EqualTexts(p, n);
    var diffs: seq<Diff> := [];
    if p.reasoning != n.reasoning {
      var added := StringDiff(p.reasoning, n.reasoning);
      if added.Err? { return Err(added.error); }
      diffs := diffs + [Diff(added.value, "", None, NO_CALL)];
    }
    assert r.Ok? && diffs == ReasoningPart(p, n, r.value);
    if p.content != n.content {
      var added := StringDiff(p.content, n.content);
      if added.Err? { return Err(added.error); }
      diffs := diffs + [Diff("", added.value, None, NO_CALL)];
    }
    ghost var text := diffs;
    assert c.Ok? && text == ReasoningPart(p, n, r.value) + ContentPart(p, n, c.value);
    if |n.calls| < |p.calls| { return Err(FewerCalls); }
    if p.calls != [] {
      var idx := |p.calls| - 1;
      var last := UpdateLastCall(idx, p.calls[idx], n.calls[idx]);
      if last.Err? { return Err(last.error); }
      diffs := diffs + last.value;
    }
    assert LastCallDiff(p, n).Ok? && diffs == text + LastCallDiff(p, n).value;
    var added := AppendNewCalls(n, |p.calls|);
    return Ok(diffs + added);
  }

  method UpdateLastCall(idx: nat, o: ToolCall, n: ToolCall) returns (res: Result<seq<Diff>, DiffError>)
    ensures res == CallDiff(idx, o, n)
  {
    if o.name != n.name && o.name != "" && n.name != "" && !(o.name <= n.name) { return Err(NameMismatch); }
    var added := StringDiff(o.arguments, n.arguments);
    if added.Err? { return Err(added.error); }
    if added.value != "" || o.id != n.id || o.name != n.name {
      var delta := NO_CALL;
      if o.id != n.id || o.name != n.name {
        delta := delta.(id := n.id, name := n.name);
      }
      return Ok([Diff("", "", Some(idx), delta.(arguments := added.value))]);
    }
    return Ok([]);
  }

  method AppendNewCalls(n: Msg, from: nat) returns (diffs: seq<Diff>)
    requires from <= |n.calls|
    ensures diffs == NewCalls(n, from)
  {
    diffs := [];
    var i := from;
    while i < |n.calls|
      invariant from <= i <= |n.calls| && |diffs| == i - from
      invariant forall k :: 0 <= k < |diffs| ==> diffs[k] == Diff("", "", Some(from + k), n.calls[from + k])
    {
      diffs := diffs + [Diff("", "", Some(i), n.calls[i])];
      i := i + 1;
    }
  }

  // An unchanged text has an empty delta.
  lemma {:induction false} EqualTexts(p: Msg, n: Msg)
    ensures p.reasoning == n.reasoning ==> StringDiff(p.reasoning, n.reasoning) == Ok("")
    ensures p.content == n.content ==> StringDiff(p.content, n.content) == Ok("")
  {
    assert p.reasoning[|p.reasoning|..] == "" && p.content[|p.content|..] == "";
  }

  // ---------- the client ----------

  function Merge(c: ToolCall, d: ToolCall): ToolCall {
    ToolCall(if d.name != "" then d.name else c.name, c.arguments + d.arguments, if d.id != "" then d.id else c.id)
  }

  function Padded(calls: seq<ToolCall>, size: nat): (r: seq<ToolCall>)
    ensures |r| == if |calls| < size then size else |calls|
  {
    if |calls| < size then calls + seq(size - |calls|, _ => NO_CALL) else calls
  }

  function Apply(m: Msg, d: Diff): Msg {
    var calls :=
      if d.index.None? then m.calls
      else
        var padded := Padded(m.calls, d.index.value + 1);
        padded[d.index.value := Merge(padded[d.index.value], d.call)];
    Msg(m.reasoning + d.reasoning, m.content + d.content, calls)
  }

  function ApplyAll(m: Msg, ds: seq<Diff>): Msg
    decreases |ds|
  {
    if ds == [] then m else ApplyAll(Apply(m, ds[0]), ds[1..])
  }

  lemma {:induction false} ApplyConcat(m: Msg, a: seq<Diff>, b: seq<Diff>)
    ensures ApplyAll(m, a + b) == ApplyAll(ApplyAll(m, a), b)
    decreases |a|
  {
    if a == [] {
      assert a + b == b;
    } else {
      assert (a + b)[0] == a[0] && (a + b)[1..] == a[1..] + b;
      ApplyConcat(Apply(m, a[0]), a[1..], b);
    }
  }

  lemma {:induction false} ApplyOne(m: Msg, d: Diff)
    ensures ApplyAll(m, [d]) == Apply(m, d)
  {
    assert [d][1..] == [];
    assert ApplyAll(Apply(m, d), []) == Apply(m, d);
  }

  // ---------- when it works ----------

  predicate CallGrows(o: ToolCall, n: ToolCall) {
    o.name <= n.name && o.arguments <= n.arguments && (n.id == "" ==> o.id == "")
  }

  // Only the last call both messages have may change, and it may only grow.
  ghost predicate Grows(p: Msg, n: Msg) {
    && p.reasoning <= n.reasoning
    && p.content <= n.content
    && |p.calls| <= |n.calls|
    && (forall i :: 0 <= i < |p.calls| - 1 ==> p.calls[i] == n.calls[i])
    && (p.calls != [] ==> CallGrows(p.calls[|p.calls| - 1], n.calls[|p.calls| - 1]))
  }

  lemma {:induction false} StringDiffExact(last: string, current: string)
    ensures (StringDiff(last, current).Ok? && last + StringDiff(last, current).value == current) <==> last <= current
    ensures StringDiff(last, current).Ok? <==> last <= current || current <= last
  {
    if last <= current {
      assert last + current[|last|..] == current;
    }
    if StringDiff(last, current).Ok? && !(last <= current) {
      assert last + "" == last;
    }
  }

  // The last common call after its delta.
  function Patched(o: ToolCall, ds: seq<Diff>): ToolCall
    requires |ds| <= 1
  {
    if ds == [] then o else Merge(o, ds[0].call)
  }

  lemma {:induction false} CallDiffExact(idx: nat, o: ToolCall, n: ToolCall)
    ensures var r := CallDiff(idx, o, n);
            && (r.Ok? ==> |r.value| <= 1 && (r.value != [] ==> r.value[0] == Diff("", "", Some(idx), r.value[0].call)))
            && ((r.Ok? && Patched(o, r.value) == n) <==> CallGrows(o, n))
  {
    StringDiffExact(o.arguments, n.arguments);
    if o.arguments == n.arguments {
      assert o.arguments + "" == o.arguments;
    }
  }

  lemma {:induction false} AddsNewCalls(m: Msg, n: Msg, k: nat)
    requires |m.calls| == k <= |n.calls|
    ensures ApplyAll(m, NewCalls(n, k)) == Msg(m.reasoning, m.content, m.calls + n.calls[k..])
    decreases |n.calls| - k
  {
    var ds := NewCalls(n, k);
    if k == |n.calls| {
      assert ds == [] && m.calls + n.calls[k..] == m.calls;
    } else {
      var m' := Apply(m, ds[0]);
      assert m'.reasoning == m.reasoning && m'.content == m.content;
      assert m'.calls == m.calls + [n.calls[k]] by {
        assert "" + n.calls[k].arguments == n.calls[k].arguments;
      }
      assert ds[1..] == NewCalls(n, k + 1);
      AddsNewCalls(m', n, k + 1);
      assert m'.calls + n.calls[k + 1..] == m.calls + n.calls[k..];
    }
  }

  // What the client has after the text parts.
  lemma {:induction false} AppliesText(p: Msg, n: Msg, r: string, c: string)
    requires p.reasoning == n.reasoning ==> r == ""
    requires p.content == n.content ==> c == ""
    ensures ApplyAll(p, ReasoningPart(p, n, r) + ContentPart(p, n, c)) == Msg(p.reasoning + r, p.content + c, p.calls)
  {
    ApplyConcat(p, ReasoningPart(p, n, r), ContentPart(p, n, c));
    var d := Diff(r, "", None, NO_CALL);
    ApplyOne(p, d);
    var m := Msg(p.reasoning + r, p.content, p.calls);
    assert ApplyAll(p, ReasoningPart(p, n, r)) == m by {
      assert p.content + "" == p.content;
      if r == "" { assert p.reasoning + r == p.reasoning; }
    }
    var e := Diff("", c, None, NO_CALL);
    ApplyOne(m, e);
    assert m.reasoning + "" == m.reasoning;
    if c == "" { assert m.content + c == m.content; }
  }

  function LastPatched(p: Msg, ds: seq<Diff>): seq<ToolCall>
    requires |ds| <= 1
  {
    if p.calls == [] then [] else p.calls[|p.calls| - 1 := Patched(p.calls[|p.calls| - 1], ds)]
  }

  lemma {:induction false} AppliesLast(m: Msg, p: Msg, n: Msg, ds: seq<Diff>)
    requires |p.calls| <= |n.calls| && LastCallDiff(p, n) == Ok(ds) && m.calls == p.calls
    ensures |ds| <= 1 && ApplyAll(m, ds) == Msg(m.reasoning, m.content, LastPatched(p, ds))
  {
    if p.calls != [] {
      var idx := |p.calls| - 1;
      CallDiffExact(idx, p.calls[idx], n.calls[idx]);
      if ds != [] {
        assert ds == [ds[0]];
        ApplyOne(m, ds[0]);
        assert m.reasoning + "" == m.reasoning && m.content + "" == m.content;
      }
    }
  }

  // What the client ends with, whatever the two messages are.
  lemma {:induction false} ClientResult(p: Msg, n: Msg)
    requires Diffs(p, n).Ok?
    ensures |p.calls| <= |n.calls| && StringDiff(p.reasoning, n.reasoning).Ok? && StringDiff(p.content, n.content).Ok?
    ensures LastCallDiff(p, n).Ok? && |LastCallDiff(p, n).value| <= 1
    ensures ApplyAll(p, Diffs(p, n).value)
            == Msg(p.reasoning + StringDiff(p.reasoning, n.reasoning).value, p.content + StringDiff(p.content, n.content).value,
                   LastPatched(p, LastCallDiff(p, n).value) + n.calls[|p.calls|..])
  {
    hide ApplyAll, Apply;
    var r, c := StringDiff(p.reasoning, n.reasoning).value, StringDiff(p.content, n.content).value;
    var last, added := LastCallDiff(p, n).value, NewCalls(n, |p.calls|);
    var text := ReasoningPart(p, n, r) + ContentPart(p, n, c);
    ApplyConcat(p, text + last, added);
    ApplyConcat(p, text, last);
    AppliesText(p, n, r, c);
    var m := ApplyAll(p, text);
    AppliesLast(m, p, n, last);
    AddsNewCalls(ApplyAll(m, last), n, |p.calls|);
  }

  // The deltas are computed and add up to the new message exactly when the new message grows the old.
  lemma {:induction false} DiffsExact(p: Msg, n: Msg)
    ensures (Diffs(p, n).Ok? && ApplyAll(p, Diffs(p, n).value) == n) <==> Grows(p, n)
  {
    hide ApplyAll, CallDiff, StringDiff, NewCalls, CallGrows;
    StringDiffExact(p.reasoning, n.reasoning);
    StringDiffExact(p.content, n.content);
    if Diffs(p, n).Ok? {
      ClientResult(p, n);
      if p.calls != [] {
        var idx := |p.calls| - 1;
        CallDiffExact(idx, p.calls[idx], n.calls[idx]);
        CallsMatch(p, n, LastCallDiff(p, n).value);
      } else {
        assert [] + n.calls[0..] == n.calls;
      }
    } else if Grows(p, n) && p.calls != [] {
      var idx := |p.calls| - 1;
      CallDiffExact(idx, p.calls[idx], n.calls[idx]);
    }
  }

  lemma {:induction false} CallsMatch(p: Msg, n: Msg, ds: seq<Diff>)
    requires |ds| <= 1 && 0 < |p.calls| <= |n.calls|
    ensures LastPatched(p, ds) + n.calls[|p.calls|..] == n.calls <==>
            && (forall i :: 0 <= i < |p.calls| - 1 ==> p.calls[i] == n.calls[i])
            && Patched(p.calls[|p.calls| - 1], ds) == n.calls[|p.calls| - 1]
  {
    hide Patched;
    var k := |p.calls|;
    var both := LastPatched(p, ds) + n.calls[k..];
    if both == n.calls {
      assert forall i :: 0 <= i < k - 1 ==> both[i] == p.calls[i];
      assert both[k - 1] == Patched(p.calls[k - 1], ds);
    }
  }

  // No delta is computed exactly when two texts are not comparable, a call was lost or a name changed.
  lemma {:induction false} ThrowsExactly(p: Msg, n: Msg)
    ensures Diffs(p, n).Ok? <==>
            && (p.reasoning <= n.reasoning || n.reasoning <= p.reasoning)
            && (p.content <= n.content || n.content <= p.content)
            && |p.calls| <= |n.calls|
            && (p.calls != [] ==>
                  var o, c := p.calls[|p.calls| - 1], n.calls[|p.calls| - 1];
                  && (o.arguments <= c.arguments || c.arguments <= o.arguments)
                  && (c.name == "" || o.name <= c.name))
  {
    StringDiffExact(p.reasoning, n.reasoning);
    StringDiffExact(p.content, n.content);
    if p.calls != [] && |p.calls| <= |n.calls| {
      StringDiffExact(p.calls[|p.calls| - 1].arguments, n.calls[|p.calls| - 1].arguments);
    }
  }

  lemma {:induction false} GrowsTransitive(a: Msg, b: Msg, c: Msg)
    requires Grows(a, b) && Grows(b, c)
    ensures Grows(a, c)
  {
    if a.calls != [] {
      var k := |a.calls| - 1;
      assert CallGrows(a.calls[k], b.calls[k]);
      assert CallGrows(b.calls[k], c.calls[k]) by {
        if k < |b.calls| - 1 { assert b.calls[k] == c.calls[k]; }
      }
    }
  }

  // ---------- a whole stream ----------

  // The client checks itself against every message, as it accumulates the deltas between them.
  ghost predicate Rebuilds(client: Msg, last: Msg, msgs: seq<Msg>)
    decreases |msgs|
  {
    msgs == [] ||
    (Diffs(last, msgs[0]).Ok? &&
     var next := ApplyAll(client, Diffs(last, msgs[0]).value);
     next == msgs[0] && Rebuilds(next, msgs[0], msgs[1..]))
  }

  ghost predicate GrowsAlong(m: Msg, msgs: seq<Msg>)
    decreases |msgs|
  {
    msgs == [] || (Grows(m, msgs[0]) && GrowsAlong(msgs[0], msgs[1..]))
  }

  lemma {:induction false} StreamRebuilds(m: Msg, msgs: seq<Msg>)
    ensures Rebuilds(m, m, msgs) <==> GrowsAlong(m, msgs)
    decreases |msgs|
  {
    if msgs != [] {
      DiffsExact(m, msgs[0]);
      StreamRebuilds(msgs[0], msgs[1..]);
    }
  }
}
