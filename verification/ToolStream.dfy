/** The mapper that turns parser events into a message: a tool call's arguments are built up as
    JSON text while the model is still writing them. */
module ToolStream {
  import opened Basics
  import opened JsonText
  import opened MsgDiff
  import QuoteNorm

  // ---------- text helpers ----------

  predicate IsSpace(c: char) { c in {' ', '\t', '\n', '\U{B}', '\U{C}', '\r'} }

  // At most `max` spaces are removed; a negative `max` removes them all.
  function TrimEnd(s: string, max: int): string {
    if s != "" && IsSpace(s[|s| - 1]) && max != 0 then TrimEnd(s[..|s| - 1], max - 1) else s
  }

  function TrimStart(s: string, max: int): string {
    if s != "" && IsSpace(s[0]) && max != 0 then TrimStart(s[1..], max - 1) else s
  }

  method TrimTrailingSpace(sv: string, max: int) returns (r: string)
    requires max >= -1
    ensures r == TrimEnd(sv, max)
  {
    r := sv;
    var count := 0;
    while r != "" && IsSpace(r[|r| - 1])
      invariant 0 <= count && (max != -1 ==> count <= max)
      invariant TrimEnd(sv, max) == TrimEnd(r, max - count)
      decreases |r|
    {
      if max != -1 && count >= max { break; }
      r := r[..|r| - 1];
      count := count + 1;
    }
  }

  method TrimLeadingSpace(sv: string, max: int) returns (r: string)
    requires max >= -1
    ensures r == TrimStart(sv, max)
  {
    r := sv;
    var count := 0;
    while r != "" && IsSpace(r[0])
      invariant 0 <= count && (max != -1 ==> count <= max)
      invariant TrimStart(sv, max) == TrimStart(r, max - count)
      decreases |r|
    {
      if max != -1 && count >= max { break; }
      r := r[1..];
      count := count + 1;
    }
  }

  // ---------- events and state ----------

  datatype Tag =
    | Reasoning | Content
    | ToolOpen | ToolClose | ToolId | ToolName | ToolArgs
    | ArgOpen | ArgClose | ArgName | ArgValue | ArgStringValue
    | OtherTag

  datatype Node = Node(tag: Tag, text: string, partial: bool)

  // What the JSON library makes of a value's text.
  datatype Reading = JsonString(decoded: string) | JsonOther | NotJson

  // What `current_tool` points to.
  datatype Target = NoTool | PendingCall | LastCall

  datatype State = State(
    pending: Option<ToolCall>,
    current: Target,
    argCount: nat,
    closing: bool,
    buffer: string,
    msg: Msg
  )

  const EMPTY := Msg("", "", [])
  const START := State(None, NoTool, 0, false, "", EMPTY)

  // The pointer is not dangling.
  predicate Live(s: State) {
    (s.current.PendingCall? ==> s.pending.Some?) && (s.current.LastCall? ==> s.msg.calls != [])
  }

  function Call(s: State): ToolCall
    requires Live(s) && !s.current.NoTool?
  {
    if s.current.PendingCall? then s.pending.value else s.msg.calls[|s.msg.calls| - 1]
  }

  function SetCall(s: State, c: ToolCall): State
    requires Live(s) && !s.current.NoTool?
  {
    if s.current.PendingCall? then s.(pending := Some(c))
    else s.(msg := s.msg.(calls := s.msg.calls[|s.msg.calls| - 1 := c]))
  }

  // Where argument text goes: the call once it has a name, the buffer before.
  function Args(s: State): string
    requires Live(s) && !s.current.NoTool?
  {
    if Call(s).name != "" then Call(s).arguments else s.buffer
  }

  function PutArgs(s: State, text: string): State
    requires Live(s) && !s.current.NoTool?
  {
    if Call(s).name != "" then SetCall(s, Call(s).(arguments := text)) else s.(buffer := text)
  }

  // ---------- one event ----------

  function IdText(text: string): string {
    var t := TrimEnd(text, -1);
    if |t| >= 2 && t[0] == '"' && t[|t| - 1] == '"' then t[1..|t| - 1] else t
  }

  function Named(s: State, text: string): State
    requires Live(s) && !s.current.NoTool?
  {
    var c := Call(s).(name := TrimEnd(text, -1));
    var c' := if s.buffer != "" then c.(arguments := s.buffer) else if c.arguments == "" then c.(arguments := "{") else c;
    var s' := SetCall(s, c').(buffer := "");
    if s'.pending.Some? then
      s'.(msg := s'.msg.(calls := s'.msg.calls + [s'.pending.value]), pending := None, current := LastCall)
    else s'
  }

  function ArgEntry(text: string, first: bool): string {
    (if first then "" else ",") + Dump(TrimEnd(TrimStart(text, 1), -1)) + ":"
  }

  function OpenedArgs(text: string): string { if text == "" then "{" else text }

  function ValueContent(text: string): string { TrimEnd(TrimStart(text, 1), 1) }

  // The text added for a value, and whether a closing quote is owed afterwards.
  function AsString(v: string, closing: bool): (string, bool) {
    ((if closing then "" else "\"") + Escape(v), true)
  }

  function StringValue(v: string, closing: bool): (string, bool) {
    if v == "" then ("\"", true) else AsString(v, closing)
  }

  function PlainValue(v: string, partial: bool, closing: bool, read: string -> Reading): (string, bool) {
    if v == "" then ("", closing)
    else
      var container := v[0] == '[' || v[0] == '{';
      var w := if container then QuoteNorm.Normalized(v, false, false) else v;
      match read(w)
      case JsonString(d) => ("\"" + Escape(d), true)
      case JsonOther => (w, closing)
      case NotJson => if partial && container then (w, closing) else AsString(w, closing)
  }

  function EndQuote(text: string, closing: bool): string { if closing then text + "\"" else text }

  function Braces(n: int): string {
    if n <= 0 then "" else "}" + Braces(n - 1)
  }

  function Closed(s: State): State
    requires Live(s) && !s.current.NoTool?
  {
    var flush := Call(s).name == "" && s.buffer != "";
    var text := EndQuote(if flush then s.buffer else Call(s).arguments, s.closing);
    var c := Call(s).(arguments := text + Braces(QuoteNorm.Depth(text, false, false)));
    var s' := SetCall(s, c).(buffer := if flush then "" else s.buffer, closing := false);
    if s'.pending.Some? then
      s'.(msg := if c.name != "" then s'.msg.(calls := s'.msg.calls + [s'.pending.value]) else s'.msg, pending := None)
    else s'
  }

  // Events that look at the current tool.
  predicate UsesTool(tag: Tag) { !(tag.Reasoning? || tag.Content? || tag.ToolOpen? || tag.ArgOpen? || tag.OtherTag?) }

  // Nothing is done through a dangling pointer.
  predicate Defined(s: State, n: Node) { UsesTool(n.tag) ==> Live(s) }

  function Step(s: State, n: Node, read: string -> Reading): State
    requires Defined(s, n)
  {
    match n.tag
    case Reasoning => s.(msg := s.msg.(reasoning := s.msg.reasoning + n.text))
    case Content => s.(msg := s.msg.(content := s.msg.content + n.text))
    case ToolOpen => s.(pending := Some(NO_CALL), current := PendingCall, argCount := 0, buffer := "", closing := false)
    case ArgOpen => s.(closing := false)
    case OtherTag => s
    case _ => if s.current.NoTool? then s else ToolStep(s, n, read)
  }

  function ToolStep(s: State, n: Node, read: string -> Reading): State
    requires Live(s) && !s.current.NoTool?
  {
    match n.tag
    case ToolId => SetCall(s, Call(s).(id := IdText(n.text)))
    case ToolName => Named(s, n.text)
    case ToolArgs =>
      var t := TrimEnd(n.text, -1);
      if t != "" && t[0] == '{' then PutArgs(s, t) else s
    case ArgName => PutArgs(s, OpenedArgs(Args(s)) + ArgEntry(n.text, s.argCount == 0)).(argCount := s.argCount + 1)
    case ArgValue =>
      var v := PlainValue(ValueContent(n.text), n.partial, s.closing, read);
      PutArgs(s, Args(s) + v.0).(closing := v.1)
    case ArgStringValue =>
      var v := StringValue(ValueContent(n.text), s.closing);
      PutArgs(s, Args(s) + v.0).(closing := v.1)
    case ArgClose => if s.closing then PutArgs(s, Args(s) + "\"").(closing := false) else s
    case ToolClose => Closed(s)
    case _ => s
  }

  // After the last event: a named call that is still pending is delivered.
  function Flush(s: State): State {
    if s.pending.Some? && s.pending.value.name != "" then
      var c := s.pending.value;
      var args := if s.buffer != "" then s.buffer else c.arguments;
      s.(msg := s.msg.(calls := s.msg.calls + [c.(arguments := EndQuote(args, s.closing && args != ""))]), pending := None)
    else s
  }

  ghost predicate RunDefined(s: State, ns: seq<Node>, read: string -> Reading)
    decreases |ns|
  {
    ns == [] || (Defined(s, ns[0]) && RunDefined(Step(s, ns[0], read), ns[1..], read))
  }

  ghost function Run(s: State, ns: seq<Node>, read: string -> Reading): State
    requires RunDefined(s, ns, read)
    decreases |ns|
  {
    if ns == [] then s else Run(Step(s, ns[0], read), ns[1..], read)
  }

  // ---------- the class ----------

  class Mapper {
    const read: string -> Reading
    var pending: Option<ToolCall>
    var current: Target
    var argCount: nat
    var closing: bool
    var buffer: string
    var msg: Msg

    function Abs(): State
      reads this
    {
      State(pending, current, argCount, closing, buffer, msg)
    }

    constructor (r: string -> Reading)
      ensures Abs() == START && read == r
    {
      read := r;
      pending, current, argCount, closing, buffer, msg := None, NoTool, 0, false, "", EMPTY;
    }

    // Writes through the pointer to the current call.
    method SetCurrent(c: ToolCall)
      requires Live(Abs()) && !current.NoTool?
      modifies this`pending, this`msg
      ensures Abs() == SetCall(old(Abs()), c)
    {
      if current.PendingCall? {
        pending := Some(c);
      } else {
        msg := msg.(calls := msg.calls[|msg.calls| - 1 := c]);
      }
    }

    method AppendArgs(text: string)
      requires Live(Abs()) && !current.NoTool?
      modifies this`pending, this`msg, this`buffer
      ensures Abs() == PutArgs(old(Abs()), Args(old(Abs())) + text)
    {
      var c := Call(Abs());
      if c.name != "" {
        SetCurrent(c.(arguments := c.arguments + text));
      } else {
        buffer := buffer + text;
      }
    }

    method MapName(text: string)
      requires Live(Abs()) && !current.NoTool?
      modifies this
      ensures Abs() == Named(old(Abs()), text)
    {
      var name := TrimTrailingSpace(text, -1);
      var c := Call(Abs()).(name := name);
      if buffer != "" {
        c := c.(arguments := buffer);
        buffer := "";
      } else if c.arguments == "" {
        c := c.(arguments := "{");
      }
      SetCurrent(c);
      if pending.Some? {
        msg := msg.(calls := msg.calls + [pending.value]);
        pending := None;
        current := LastCall;
      }
    }

    method MapArgName(text: string)
      requires Live(Abs()) && !current.NoTool?
      modifies this
      ensures Abs() == ToolStep(old(Abs()), Node(ArgName, text, false), read)
    {
      ghost var s := Abs();
      var lead := TrimLeadingSpace(text, 1);
      var key := TrimTrailingSpace(lead, -1);
      var entry := "";
      if argCount > 0 {
        entry := ",";
      }
      entry := entry + Dump(key) + ":";
      argCount := argCount + 1;
      if Args(Abs()) == "" {
        AppendArgs("{" + entry);
        assert "" + ("{" + entry) == "{" + entry;
      } else {
        AppendArgs(entry);
      }
    }

    method MapValue(text: string, partial: bool, isString: bool)
      requires Live(Abs()) && !current.NoTool?
      modifies this
      ensures Abs() == ToolStep(old(Abs()), Node(if isString then ArgStringValue else ArgValue, text, partial), read)
    {
      var lead := TrimLeadingSpace(text, 1);
      var value := TrimTrailingSpace(lead, 1);
      var added := "";
      if value == "" && isString {
        added := "\"";
        closing := true;
      } else if value != "" && isString {
        added := QuotedText(value);
      } else if value != "" {
        added := MapPlainValue(value, partial);
      }
      AppendArgs(added);
    }

    method QuotedText(value: string) returns (added: string)
      modifies this`closing
      ensures (added, closing) == AsString(value, old(closing))
    {
      added := "";
      if !closing {
        added := "\"";
        closing := true;
      }
      added := added + Escape(value);
    }

    method MapPlainValue(v: string, partial: bool) returns (added: string)
      requires v != ""
      modifies this`closing
      ensures (added, closing) == PlainValue(v, partial, old(closing), read)
    {
      var value := v;
      var container := value[0] == '[' || value[0] == '{';
      if container {
        value := QuoteNorm.NormalizeQuotesToJson(value);
      }
      match read(value) {
        case JsonString(d) =>
          added := "\"" + Escape(d);
          closing := true;
        case JsonOther =>
          added := value;
        case NotJson =>
          if partial && container {
            added := value;
          } else {
            added := QuotedText(value);
          }
      }
    }

    method MapClose()
      requires Live(Abs()) && !current.NoTool?
      modifies this
      ensures Abs() == Closed(old(Abs()))
    {
      var c := Call(Abs());
      if c.name == "" && buffer != "" {
        c := c.(arguments := buffer);
        buffer := "";
      }
      if closing {
        c := c.(arguments := c.arguments + "\"");
        closing := false;
      }
      ghost var text := c.arguments;
      var d := QuoteNorm.JsonBraceDepth(c.arguments);
      while d > 0
        invariant c.arguments + Braces(d) == text + Braces(QuoteNorm.Depth(text, false, false))
        invariant c == Call(old(Abs())).(arguments := c.arguments)
      {
        assert c.arguments + Braces(d) == (c.arguments + "}") + Braces(d - 1);
        c := c.(arguments := c.arguments + "}");
        d := d - 1;
      }
      assert c.arguments + "" == c.arguments;
      SetCurrent(c);
      if pending.Some? {
        if c.name != "" {
          msg := msg.(calls := msg.calls + [pending.value]);
        }
        pending := None;
      }
    }

    method Map(n: Node)
      requires Defined(Abs(), n)
      modifies this
      ensures Abs() == Step(old(Abs()), n, read)
    {
      match n.tag
      case Reasoning => msg := msg.(reasoning := msg.reasoning + n.text);
      case Content => msg := msg.(content := msg.content + n.text);
      case ToolOpen =>
        pending, current, argCount, buffer, closing := Some(NO_CALL), PendingCall, 0, "", false;
      case ArgOpen => closing := false;
      case OtherTag =>
      case _ =>
        if !current.NoTool? {
          MapToolEvent(n);
        }
    }

    method MapToolEvent(n: Node)
      requires Live(Abs()) && !current.NoTool?
      modifies this
      ensures Abs() == ToolStep(old(Abs()), n, read)
    {
      match n.tag
      case ToolId =>
        var text := TrimTrailingSpace(n.text, -1);
        if |text| >= 2 && text[0] == '"' && text[|text| - 1] == '"' {
          text := text[1..|text| - 1];
        }
        SetCurrent(Call(Abs()).(id := text));
      case ToolName => MapName(n.text);
      case ToolArgs =>
        var text := TrimTrailingSpace(n.text, -1);
        if text != "" && text[0] == '{' {
          if Call(Abs()).name != "" {
            SetCurrent(Call(Abs()).(arguments := text));
          } else {
            buffer := text;
          }
        }
      case ArgName => MapArgName(n.text);
      case ArgValue => MapValue(n.text, n.partial, false);
      case ArgStringValue => MapValue(n.text, n.partial, true);
      case ArgClose =>
        if closing {
          AppendArgs("\"");
          closing := false;
        }
      case ToolClose => MapClose();
      case _ =>
    }

    // All events of one parse, then the flush.
    method FromAst(ns: seq<Node>)
      requires RunDefined(Abs(), ns, read)
      modifies this
      ensures Abs() == Flush(Run(old(Abs()), ns, read))
    {
      var i := 0;
      assert ns[0..] == ns;
      while i < |ns|
        invariant 0 <= i <= |ns|
        invariant RunDefined(Abs(), ns[i..], read)
        invariant Run(old(Abs()), ns, read) == Run(Abs(), ns[i..], read)
      {
        assert ns[i..][1..] == ns[i + 1..];
        Map(ns[i]);
        i := i + 1;
      }
      if pending.Some? && pending.value.name != "" {
        var c := pending.value;
        if buffer != "" {
          c := c.(arguments := buffer);
        }
        if closing && c.arguments != "" {
          c := c.(arguments := c.arguments + "\"");
        }
        msg := msg.(calls := msg.calls + [c]);
        pending := None;
      }
    }
  }
}
