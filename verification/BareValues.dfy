/** Arguments without a declared string type: their text is read as JSON when it can be, so it may first
    be written as a string and later as a constant.  When does a growing text still stream? */
module BareValues {
  import opened Basics
  import opened JsonText
  import opened MsgDiff
  import opened ToolStream
  import opened StreamGrowth
  import QuoteNorm

  // JSON (section 2 of RFC 8259): what begins with a quote is a string or nothing, and what begins with a
  // bracket is no string.
  ghost predicate JsonReader(read: string -> Reading) {
    forall t: string :: t != "" ==> (read(t).JsonOther? ==> t[0] != '"') && (read(t).JsonString? ==> !Bracket(t[0]))
  }

  predicate Bracket(c: char) { c == '[' || c == '{' }

  predicate Container(v: string) { v != "" && Bracket(v[0]) }

  function Norm(v: string): string { QuoteNorm.Normalized(v, false, false) }

  // A list or object is written as it is once it reads as JSON, and while it is marked as partial.
  predicate Raw(v: string, partial: bool, read: string -> Reading) { partial || read(Norm(v)).JsonOther? }

  // The text ends behind a backslash inside a single-quoted string.
  predicate EndsInEscape(s: string, single: bool, double: bool) {
    if s == [] then false
    else if |s| == 1 then s[0] == '\\' && single
    else
      var m := QuoteNorm.Step(s[0], QuoteNorm.Second(s), single, double);
      EndsInEscape(s[m.taken..], m.single, m.double)
  }

  // What is quoted for a value that is no list or object: nothing for a constant or a number.
  function QuotedText(v: string, read: string -> Reading): Option<string> {
    match read(v)
    case NotJson => Some(v)
    case JsonString(d) => Some(d)
    case JsonOther => None
  }

  // When the longer text keeps what the shorter one made the client see: both are quoted or both are not;
  // in lists and objects no escaped single quote is cut; otherwise one quoted text begins the other.
  predicate Streams(v: string, partial: bool, v': string, partial': bool, read: string -> Reading)
    requires v <= v'
  {
    v == "" ||
    if Container(v) then
      Raw(v, partial, read) == Raw(v', partial', read) && !(EndsInEscape(v, false, false) && |v| < |v'| && v'[|v|] == '\'')
    else
      var a, b := QuotedText(v, read), QuotedText(v', read);
      a.Some? == b.Some? && (a.Some? && b.Some? ==> a.value <= b.value)
  }

  // ---------- escaping keeps and reflects prefixes ----------

  lemma {:induction false} HexDigitsDiffer(a: nat, b: nat)
    requires a < 16 && b < 16 && a != b
    ensures HEX[a] != HEX[b]
  {
  }

  // The escapes of two characters part at some position.
  lemma {:induction false} EscapesPart(c: char, d: char) returns (i: nat)
    requires c != d
    ensures i < |EscapeChar(c)| && i < |EscapeChar(d)| && EscapeChar(c)[i] != EscapeChar(d)[i]
  {
    var a, b := EscapeChar(c), EscapeChar(d);
    if a[0] != b[0] { return 0; }
    if a[1] != b[1] { return 1; }
    assert |a| == 6 && |b| == 6;
    if c as int / 16 != d as int / 16 {
      HexDigitsDiffer(c as int / 16, d as int / 16);
      return 4;
    }
    HexDigitsDiffer(c as int % 16, d as int % 16);
    return 5;
  }

  lemma {:induction false} EscapePrefix(a: string, b: string)
    ensures Escape(a) <= Escape(b) <==> a <= b
  {
    hide EscapeChar;
    if a != [] {
      EscapeStarts(a[0]);
      if b != [] {
        var x, y := EscapeChar(a[0]), EscapeChar(b[0]);
        if a[0] == b[0] {
          EscapePrefix(a[1..], b[1..]);
          CommonFront(x, Escape(a[1..]), Escape(b[1..]));
          CommonFront([a[0]], a[1..], b[1..]);
          assert a == [a[0]] + a[1..] && b == [b[0]] + b[1..];
        } else {
          var i := EscapesPart(a[0], b[0]);
          assert (x + Escape(a[1..]))[i] != (y + Escape(b[1..]))[i];
        }
      }
    }
  }

  lemma {:induction false} EscapeStarts(c: char)
    ensures EscapeChar(c) != [] && EscapeChar(c)[0] != '"'
  {
  }

  lemma {:induction false} CommonFront(x: string, a: string, b: string)
    ensures x + a <= x + b <==> a <= b
  {
    if x + a <= x + b {
      assert (x + a)[|x|..] == a && (x + b)[|x|..] == b && (x + b)[..|x + a|] == x + a;
      assert b[..|a|] == (x + b)[|x|..|x| + |a|];
    }
    if a <= b { assert (x + b)[..|x| + |a|] == x + b[..|a|]; }
  }

  lemma {:induction false} NoQuoteFirst(v: string)
    requires v != ""
    ensures Escape(v) != "" && Escape(v)[0] != '"'
  {
    EscapeStarts(v[0]);
  }

  // ---------- normalising keeps prefixes but for a cut escape ----------

  lemma {:induction false} NormalizedGrows(a: string, b: string, single: bool, double: bool)
    requires a <= b
    ensures QuoteNorm.Normalized(a, single, double) <= QuoteNorm.Normalized(b, single, double)
            <==> !(EndsInEscape(a, single, double) && |a| < |b| && b[|a|] == '\'')
    decreases |a|
  {
    hide QuoteNorm.Step;
    if a == [] {
    } else if |a| == 1 {
      OneLeft(a, b, single, double);
    } else {
      assert b[0] == a[0] && b[1] == a[1];
      var m := QuoteNorm.Step(a[0], Some(a[1]), single, double);
      NormalizedGrows(a[m.taken..], b[m.taken..], m.single, m.double);
      CommonFront(m.out, QuoteNorm.Normalized(a[m.taken..], m.single, m.double), QuoteNorm.Normalized(b[m.taken..], m.single, m.double));
    }
  }

  // Seeing a further character changes a move only behind a backslash.
  lemma {:induction false} SameMove(c: char, next: char, single: bool, double: bool)
    ensures var m, n := QuoteNorm.Step(c, None, single, double), QuoteNorm.Step(c, Some(next), single, double);
            |m.out| <= |n.out| && (m.out <= n.out <==> !(c == '\\' && single && next == '\''))
  {
    var m, n := QuoteNorm.Step(c, None, single, double), QuoteNorm.Step(c, Some(next), single, double);
    if c == '\\' {
      assert m.out == [c];
      if single && next == '\'' { assert n.out == "'" && n.out[0] != m.out[0]; } else { assert n.out[0] == c; }
    } else {
      assert m == n;
    }
  }

  lemma {:induction false} OneLeft(a: string, b: string, single: bool, double: bool)
    requires |a| == 1 && a <= b
    ensures QuoteNorm.Normalized(a, single, double) <= QuoteNorm.Normalized(b, single, double)
            <==> !(a[0] == '\\' && single && |b| > 1 && b[1] == '\'')
  {
    var m := QuoteNorm.Step(a[0], None, single, double);
    assert a[m.taken..] == [] && QuoteNorm.Normalized(a, single, double) == m.out + [] == m.out;
    if |b| == 1 {
      assert a == b;
    } else {
      var n := QuoteNorm.Step(b[0], Some(b[1]), single, double);
      var rest := QuoteNorm.Normalized(b[n.taken..], n.single, n.double);
      assert QuoteNorm.Normalized(b, single, double) == n.out + rest;
      SameMove(a[0], b[1], single, double);
      hide QuoteNorm.Normalized, QuoteNorm.Step;
      assert (n.out + rest)[..|m.out|] == n.out[..|m.out|];
    }
  }

  lemma {:induction false} NormKeepsBracket(v: string)
    requires Container(v)
    ensures Norm(v) != "" && Norm(v)[0] == v[0]
  {
  }

  // ---------- the value's text ----------

  lemma {:induction false} QuotedPrefix(x: string, y: string)
    ensures "\"" + x <= "\"" + y <==> x <= y
  {
    CommonFront("\"", x, y);
  }

  lemma {:induction false} QuoteAgainst(x: string, y: string)
    requires y != "" && y[0] != '"'
    ensures !("\"" + x <= y) && !(y <= "\"" + x)
  {
    assert ("\"" + x)[0] == '"';
  }

  // What a value's text adds to the arguments grows exactly under `Streams`.
  lemma {:induction false} PlainGrows(v: string, partial: bool, v': string, partial': bool, read: string -> Reading)
    requires JsonReader(read) && v <= v'
    ensures PlainValue(v, partial, false, read).0 <= PlainValue(v', partial', false, read).0 <==> Streams(v, partial, v', partial', read)
  {
    hide Escape, QuoteNorm.Normalized, EndsInEscape;
    if v != "" {
      assert v'[0] == v[0];
      if Container(v) {
        ContainerGrows(v, partial, v', partial', read);
      } else {
        PlainWord(v, partial, read);
        PlainWord(v', partial', read);
        var a, b := QuotedText(v, read), QuotedText(v', read);
        if a.Some? && b.Some? {
          EscapePrefix(a.value, b.value);
          QuotedPrefix(Escape(a.value), Escape(b.value));
        } else if a.Some? {
          QuoteAgainst(Escape(a.value), v');
        } else if b.Some? {
          QuoteAgainst(Escape(b.value), v);
        }
      }
    }
  }

  lemma {:induction false} PlainWord(v: string, partial: bool, read: string -> Reading)
    requires JsonReader(read) && v != "" && !Container(v)
    ensures var a := QuotedText(v, read);
            PlainValue(v, partial, false, read).0 == (if a.Some? then "\"" + Escape(a.value) else v) && (a.None? ==> v[0] != '"')
  {
    hide Escape;
  }

  lemma {:induction false} ContainerGrows(v: string, partial: bool, v': string, partial': bool, read: string -> Reading)
    requires JsonReader(read) && v <= v' && Container(v)
    ensures PlainValue(v, partial, false, read).0 <= PlainValue(v', partial', false, read).0 <==> Streams(v, partial, v', partial', read)
  {
    hide Escape, QuoteNorm.Normalized, EndsInEscape;
    assert Container(v');
    NormKeepsBracket(v);
    NormKeepsBracket(v');
    NormalizedGrows(v, v', false, false);
    var w, w' := Norm(v), Norm(v');
    EscapePrefix(w, w');
    QuotedPrefix(Escape(w), Escape(w'));
    QuoteAgainst(Escape(w), w');
    QuoteAgainst(Escape(w'), w);
    hide Norm;
    PlainContainer(v, partial, read);
    PlainContainer(v', partial', read);
  }

  lemma {:induction false} PlainContainer(v: string, partial: bool, read: string -> Reading)
    requires JsonReader(read) && Container(v)
    ensures PlainValue(v, partial, false, read).0 == if Raw(v, partial, read) then Norm(v) else "\"" + Escape(Norm(v))
  {
    NormKeepsBracket(v);
    hide Escape, QuoteNorm.Normalized;
    assert !read(Norm(v)).JsonString?;
  }

  // ---------- the message ----------

  // Main result: the same value with more text gives a message that grows the one with less exactly
  // under `Streams`, once the call is visible.
  lemma {:induction false} BareGrowsExact(s: State, n: Node, n': Node, read: string -> Reading)
    requires JsonReader(read) && Inv(s) && Live(s) && !s.closing
    requires n.tag.ArgValue? && n'.tag.ArgValue? && n.text <= n'.text
    ensures ValueContent(n.text) <= ValueContent(n'.text)
    ensures Grows(Step(s, n, read).msg, Step(s, n', read).msg)
            <==> !s.current.LastCall? || Streams(ValueContent(n.text), n.partial, ValueContent(n'.text), n'.partial, read)
  {
    hide ValueContent, PlainValue, Streams, Grows;
    ValueContentGrows(n.text, n'.text);
    var v, v' := ValueContent(n.text), ValueContent(n'.text);
    PlainGrows(v, n.partial, v', n'.partial, read);
    if s.current.NoTool? {
      GrowsItself(s.msg);
    } else {
      var a, b := PlainValue(v, n.partial, false, read).0, PlainValue(v', n'.partial, false, read).0;
      PutBoth(s, Args(s) + a, Args(s) + b);
      CommonFront(Args(s), a, b);
    }
  }

  lemma {:induction false} PutBoth(s: State, a: string, b: string)
    requires Inv(s) && Live(s) && !s.current.NoTool?
    ensures Grows(PutArgs(s, a).msg, PutArgs(s, b).msg) <==> (s.current.LastCall? ==> a <= b)
  {
    hide Grows;
    var s' := PutArgs(s, a);
    PutArgsGrows(s, a);
    assert Live(s') && Call(s').name == Call(s).name && s'.current == s.current;
    PutArgsGrows(s', b);
    assert s.current.LastCall? ==> Args(s') == a;
    assert PutArgs(s', b).msg == PutArgs(s, b).msg;
  }

  // Over whole parses: two parses that differ in the text of the last value are told to the client
  // correctly exactly then.
  lemma {:induction false} BareViewsExact(pre: seq<Node>, n: Node, n': Node, read: string -> Reading)
    requires JsonReader(read) && RunOrderly(START, pre + [n], read) && RunOrderly(START, pre + [n'], read)
    requires n.tag.ArgValue? && n'.tag.ArgValue? && n.text <= n'.text
    ensures RunDefined(START, pre, read) && RunDefined(START, pre + [n], read) && RunDefined(START, pre + [n'], read)
    ensures ValueContent(n.text) <= ValueContent(n'.text)
    ensures var s := Run(START, pre, read); var p, q := View(pre + [n], read), View(pre + [n'], read);
            !s.closing ==>
              (Diffs(p, q).Ok? && ApplyAll(p, Diffs(p, q).value) == q
               <==> !s.current.LastCall? || Streams(ValueContent(n.text), n.partial, ValueContent(n'.text), n'.partial, read))
  {
    hide Grows, Run, RunOrderly, RunDefined, Step, View, Streams, Diffs, ApplyAll, ValueContent;
    RunLast(pre, n, read);
    RunLast(pre, n', read);
    OrderlyView(pre + [n], read);
    OrderlyView(pre + [n'], read);
    var s := Run(START, pre, read);
    ValueContentGrows(n.text, n'.text);
    if !s.closing {
      assert Live(s) by { OrderlyIsLive(s, n); }
      BareGrowsExact(s, n, n', read);
      DiffsExact(View(pre + [n], read), View(pre + [n'], read));
    }
  }

  lemma {:induction false} OrderlyIsLive(s: State, n: Node)
    requires Orderly(s, n) && n.tag.ArgValue?
    ensures Live(s)
  {
  }

  // ---------- inputs on which it fails ----------

  const OPENED: State := State(None, LastCall, 1, false, "", Msg("", "", [ToolCall("f", "{\"x\":", "")]))

  function Value(text: string): Node { Node(ArgValue, text, true) }

  // The events up to the name of the argument.
  lemma {:induction false} OpenedByEvents(read: string -> Reading)
    ensures Step(Step(Step(Step(START, Node(ToolOpen, "", false), read), Node(ToolName, "f", false), read),
                           Node(ArgOpen, "", false), read), Node(ArgName, "x", false), read) == OPENED
  {
    var s1 := Step(START, Node(ToolOpen, "", false), read);
    assert s1 == State(Some(NO_CALL), PendingCall, 0, false, "", EMPTY);
    assert TrimEnd("f", -1) == "f" && TrimEnd("x", -1) == "x" && TrimStart("x", 1) == "x";
    var s2 := Step(s1, Node(ToolName, "f", false), read);
    assert s2 == State(None, LastCall, 0, false, "", Msg("", "", [ToolCall("f", "{", "")]));
    DumpX();
    var s3 := Step(s2, Node(ArgOpen, "", false), read);
    assert s3 == s2;
    assert ArgEntry("x", true) == "\"x\":";
    assert "{" + "\"x\":" == "{\"x\":";
  }

  lemma {:induction false} DumpX()
    ensures Dump("x") == "\"x\""
  {
    assert Escape("x") == EscapeChar('x') + Escape("x"[1..]) && "x"[1..] == "";
  }

  lemma {:induction false} ThrowsAt(v: string, v': string, read: string -> Reading)
    requires ValueContent(v) != "" && ValueContent(v') != "" && !Container(ValueContent(v)) && !Container(ValueContent(v'))
    requires var a, b := PlainValue(ValueContent(v), true, false, read).0, PlainValue(ValueContent(v'), true, false, read).0;
             !(a <= b) && !(b <= a)
    ensures Diffs(Step(OPENED, Value(v), read).msg, Step(OPENED, Value(v'), read).msg) == Err(NotAPrefix)
  {
    hide ValueContent, PlainValue;
    var args := "{\"x\":";
    var a, b := PlainValue(ValueContent(v), true, false, read).0, PlainValue(ValueContent(v'), true, false, read).0;
    CommonFront(args, a, b);
    CommonFront(args, b, a);
    assert Step(OPENED, Value(v), read).msg.calls == [ToolCall("f", args + a, "")];
    assert Step(OPENED, Value(v'), read).msg.calls == [ToolCall("f", args + b, "")];
  }

  lemma {:induction false} NothingToTrim(v: string)
    requires v != "" && !IsSpace(v[0]) && !IsSpace(v[|v| - 1])
    ensures ValueContent(v) == v
  {
    TrimStartOne(v);
    TrimEndOne(v);
  }

  // "tru" is text and "true" a constant; "1" is a number and "1x" text; a string's opening quote is text
  // until the closing one comes: each time the differ throws.
  lemma {:induction false} BareValuesThrow(read: string -> Reading)
    requires read("tru") == NotJson && read("true") == JsonOther && read("1") == JsonOther && read("1x") == NotJson
    requires read("\"a") == NotJson && read("\"a\"") == JsonString("a")
    ensures Diffs(Step(OPENED, Value("tru"), read).msg, Step(OPENED, Value("true"), read).msg) == Err(NotAPrefix)
    ensures Diffs(Step(OPENED, Value("1"), read).msg, Step(OPENED, Value("1x"), read).msg) == Err(NotAPrefix)
    ensures Diffs(Step(OPENED, Value("\"a"), read).msg, Step(OPENED, Value("\"a\""), read).msg) == Err(NotAPrefix)
  {
    hide Step, Diffs, Escape;
    NothingToTrim("tru");
    NothingToTrim("true");
    NothingToTrim("1");
    NothingToTrim("1x");
    NothingToTrim("\"a");
    NothingToTrim("\"a\"");
    hide ValueContent;
    QuoteAgainst(Escape("tru"), "true");
    ThrowsAt("tru", "true", read);
    QuoteAgainst(Escape("1x"), "1");
    ThrowsAt("1", "1x", read);
    EscapePrefix("\"a", "a");
    EscapePrefix("a", "\"a");
    QuotedPrefix(Escape("\"a"), Escape("a"));
    QuotedPrefix(Escape("a"), Escape("\"a"));
    ThrowsAt("\"a", "\"a\"", read);
  }
}
