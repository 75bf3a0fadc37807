/** Healing truncated JSON, token by token: the event handler's stack, the text that closes it, and
    the case split that decides where the marker goes. */
module JsonHeal {
  import opened Basics

  // ---------- tokens and the parser's events ----------

  // Words are numbers and the three constants; strings are kept as written, without their quotes.
  datatype Token = LBrace | RBrace | LBracket | RBracket | Colon | Comma | Str(raw: string) | Word(text: string)

  datatype Element = Object | Key(name: string) | Array

  // What the parser waits for.
  datatype Expect = Value | ValueOrClose | KeyOrClose | KeyOnly | ColonNext | CommaOrClose | End

  datatype PState = PState(stack: seq<Element>, awaits: Expect)

  const START := PState([], Value)

  function Top(stack: seq<Element>): Element
    requires stack != []
  {
    stack[|stack| - 1]
  }

  function Pop(stack: seq<Element>): seq<Element>
    requires stack != []
  {
    stack[..|stack| - 1]
  }

  // close_value: a finished value finishes its key.
  function CloseValue(stack: seq<Element>): seq<Element> {
    if stack != [] && Top(stack).Key? then Pop(stack) else stack
  }

  function AfterValue(stack: seq<Element>): PState {
    var s := CloseValue(stack);
    PState(s, if s == [] then End else CommaOrClose)
  }

  function Step(s: PState, t: Token): Option<PState> {
    var inObject, inArray := s.stack != [] && Top(s.stack).Object?, s.stack != [] && Top(s.stack).Array?;
    match t
    case LBrace => if s.awaits.Value? || s.awaits.ValueOrClose? then Some(PState(s.stack + [Object], KeyOrClose)) else None
    case LBracket => if s.awaits.Value? || s.awaits.ValueOrClose? then Some(PState(s.stack + [Array], ValueOrClose)) else None
    case Word(_) => if s.awaits.Value? || s.awaits.ValueOrClose? then Some(AfterValue(s.stack)) else None
    case Str(r) =>
      if s.awaits.Value? || s.awaits.ValueOrClose? then Some(AfterValue(s.stack))
      else if s.awaits.KeyOrClose? || s.awaits.KeyOnly? then Some(PState(s.stack + [Key(r)], ColonNext))
      else None
    case Colon => if s.awaits.ColonNext? then Some(PState(s.stack, Value)) else None
    case Comma =>
      if s.awaits.CommaOrClose? && inArray then Some(PState(s.stack, Value))
      else if s.awaits.CommaOrClose? && inObject then Some(PState(s.stack, KeyOnly))
      else None
    case RBrace =>
      if (s.awaits.KeyOrClose? || s.awaits.CommaOrClose?) && inObject then Some(AfterValue(Pop(s.stack))) else None
    case RBracket =>
      if (s.awaits.ValueOrClose? || s.awaits.CommaOrClose?) && inArray then Some(AfterValue(Pop(s.stack))) else None
  }

  function Run(s: PState, ts: seq<Token>): Option<PState>
    decreases |ts|
  {
    if ts == [] then Some(s)
    else
      match Step(s, ts[0])
      case None => None
      case Some(s') => Run(s', ts[1..])
  }

  predicate Valid(ts: seq<Token>) { Run(START, ts) == Some(PState([], End)) }

  // The handler object: its callbacks push and pop the stack in place.
  class Locator {
    var stack: seq<Element>

    constructor ()
      ensures stack == []
    {
      stack := [];
    }

    method FinishValue()
      modifies this
      ensures stack == CloseValue(old(stack))
    {
      if stack != [] && stack[|stack| - 1].Key? {
        stack := stack[..|stack| - 1];
      }
    }

    method StartObject()
      modifies this
      ensures stack == old(stack) + [Object]
    {
      stack := stack + [Object];
    }

    method StartArray()
      modifies this
      ensures stack == old(stack) + [Array]
    {
      stack := stack + [Array];
    }

    method OnKey(name: string)
      modifies this
      ensures stack == old(stack) + [Key(name)]
    {
      stack := stack + [Key(name)];
    }

    method EndContainer()
      requires stack != []
      modifies this
      ensures stack == CloseValue(Pop(old(stack)))
    {
      stack := stack[..|stack| - 1];
      FinishValue();
    }

    // The parser's run over the tokens it could read, with the handler called as it goes.
    method Parse(ts: seq<Token>) returns (awaits: Expect)
      requires stack == [] && Run(START, ts).Some?
      modifies this
      ensures Some(PState(stack, awaits)) == Run(START, ts)
    {
      awaits := Value;
      var i := 0;
      assert ts[0..] == ts;
      while i < |ts|
        invariant 0 <= i <= |ts|
        invariant Run(PState(stack, awaits), ts[i..]) == Run(START, ts)
      {
        assert ts[i..][0] == ts[i] && ts[i..][1..] == ts[i + 1..];
        ghost var next := Step(PState(stack, awaits), ts[i]);
        match ts[i] {
          case LBrace => StartObject(); awaits := KeyOrClose;
          case LBracket => StartArray(); awaits := ValueOrClose;
          case Word(_) => FinishValue(); awaits := if stack == [] then End else CommaOrClose;
          case Str(r) =>
            if awaits == Value || awaits == ValueOrClose {
              FinishValue();
              awaits := if stack == [] then End else CommaOrClose;
            } else {
              OnKey(r);
              awaits := ColonNext;
            }
          case Colon => awaits := Value;
          case Comma => awaits := if stack[|stack| - 1].Array? then Value else KeyOnly;
          case _ => EndContainer(); awaits := if stack == [] then End else CommaOrClose;
        }
        assert next == Some(PState(stack, awaits));
        i := i + 1;
      }
    }
  }

  // ---------- the text that closes what is open ----------

  function CloserOf(e: Element): seq<Token> {
    match e
    case Object => [RBrace]
    case Array => [RBracket]
    case Key(_) => []
  }

  function Closing(stack: seq<Element>): seq<Token>
    decreases |stack|
  {
    if stack == [] then [] else CloserOf(Top(stack)) + Closing(Pop(stack))
  }

  lemma {:induction false} ClosingStep(stack: seq<Element>, i: nat, done: seq<Token>)
    requires 0 < i <= |stack|
    ensures done + Closing(stack[..i]) == (done + CloserOf(stack[i - 1])) + Closing(stack[..i - 1])
  {
    assert Top(stack[..i]) == stack[i - 1] && Pop(stack[..i]) == stack[..i - 1];
  }

  method BuildClosing(stack: seq<Element>) returns (closing: seq<Token>)
    ensures closing == Closing(stack)
  {
    closing := [];
    var i := |stack|;
    assert stack[..i] == stack && [] + Closing(stack) == Closing(stack);
    while i > 0
      invariant 0 <= i <= |stack|
      invariant closing + Closing(stack[..i]) == Closing(stack)
    {
      hide Closing;
      ClosingStep(stack, i, closing);
      if stack[i - 1].Object? {
        closing := closing + [RBrace];
      } else if stack[i - 1].Array? {
        closing := closing + [RBracket];
      } else {
        assert closing + [] == closing;
      }
      i := i - 1;
    }
    assert closing + [] == closing;
  }

  // A key stands on an object; nothing else does.
  ghost predicate StackOk(stack: seq<Element>)
    decreases |stack|
  {
    stack == [] || (StackOk(Pop(stack)) && (Top(stack).Key? <==> Pop(stack) != [] && Top(Pop(stack)).Object?))
  }

  // What is expected agrees with the innermost open element.
  ghost predicate Inv(s: PState) {
    && StackOk(s.stack)
    && match s.awaits
       case Value => s.stack == [] || !Top(s.stack).Object?
       case ValueOrClose => s.stack != [] && Top(s.stack).Array?
       case KeyOrClose => s.stack != [] && Top(s.stack).Object?
       case KeyOnly => s.stack != [] && Top(s.stack).Object?
       case ColonNext => s.stack != [] && Top(s.stack).Key?
       case CommaOrClose => s.stack != [] && !Top(s.stack).Key?
       case End => s.stack == []
  }

  lemma {:induction false} PopOk(stack: seq<Element>)
    requires StackOk(stack) && stack != []
    ensures StackOk(Pop(stack))
    ensures Top(stack).Key? ==> Pop(stack) != [] && Top(Pop(stack)).Object?
    ensures !Top(stack).Key? ==> Pop(stack) == [] || !Top(Pop(stack)).Object?
  {
  }

  lemma {:induction false} PushOk(stack: seq<Element>, e: Element)
    requires StackOk(stack) && (e.Key? <==> stack != [] && Top(stack).Object?)
    ensures StackOk(stack + [e]) && Top(stack + [e]) == e
  {
    assert Pop(stack + [e]) == stack;
  }

  lemma {:induction false} AfterValueOk(stack: seq<Element>)
    requires StackOk(stack) && (stack == [] || !Top(stack).Object?)
    ensures Inv(AfterValue(stack))
  {
    if stack != [] && Top(stack).Key? { PopOk(stack); }
  }

  lemma {:induction false} StepKeepsInv(s: PState, t: Token)
    requires Inv(s) && Step(s, t).Some?
    ensures Inv(Step(s, t).value)
  {
    hide StackOk;
    match t
    case LBrace => PushOk(s.stack, Object);
    case LBracket => PushOk(s.stack, Array);
    case Word(_) => AfterValueOk(s.stack);
    case Str(r) => if s.awaits.Value? || s.awaits.ValueOrClose? { AfterValueOk(s.stack); } else { PushOk(s.stack, Key(r)); }
    case Colon =>
    case Comma =>
    case _ => PopOk(s.stack); AfterValueOk(Pop(s.stack));
  }

  lemma {:induction false} RunKeepsInv(s: PState, ts: seq<Token>)
    requires Inv(s) && Run(s, ts).Some?
    ensures Inv(Run(s, ts).value)
    decreases |ts|
  {
    hide Inv;
    if ts != [] {
      StepKeepsInv(s, ts[0]);
      RunKeepsInv(Step(s, ts[0]).value, ts[1..]);
    }
  }

  lemma {:induction false} RunConcat(s: PState, a: seq<Token>, b: seq<Token>)
    ensures Run(s, a + b) == match Run(s, a) { case None => None case Some(s') => Run(s', b) }
    decreases |a|
  {
    if a == [] {
      assert a + b == b;
    } else {
      assert (a + b)[0] == a[0] && (a + b)[1..] == a[1..] + b;
      if Step(s, a[0]).Some? { RunConcat(Step(s, a[0]).value, a[1..], b); }
    }
  }

  lemma {:induction false} RunOne(s: PState, t: Token)
    ensures Run(s, [t]) == Step(s, t)
  {
    assert [t][1..] == [];
    if Step(s, t).Some? { assert Run(Step(s, t).value, []) == Step(s, t); }
  }

  // With a value just finished, the closing text completes the document.
  lemma {:induction false} ClosingCloses(stack: seq<Element>)
    requires StackOk(stack) && stack != [] && !Top(stack).Key?
    ensures Run(PState(stack, CommaOrClose), Closing(stack)) == Some(PState([], End))
    decreases |stack|, 0
  {
    hide StackOk;
    PopOk(stack);
    var rest := Pop(stack);
    var closer := CloserOf(Top(stack))[0];
    assert Closing(stack)[0] == closer && Closing(stack)[1..] == Closing(rest);
    assert Step(PState(stack, CommaOrClose), closer) == Some(AfterValue(rest));
    ClosingAfter(rest);
  }

  lemma {:induction false} ClosingAfter(stack: seq<Element>)
    requires StackOk(stack) && (stack == [] || !Top(stack).Object?)
    ensures Run(AfterValue(stack), Closing(stack)) == Some(PState([], End))
    decreases |stack|, 1
  {
    hide StackOk;
    if stack != [] {
      if Top(stack).Key? {
        PopOk(stack);
        var s := Pop(stack);
        assert Closing(stack) == [] + Closing(s);
        assert Closing(stack) == Closing(s);
        ClosingCloses(s);
      } else {
        ClosingCloses(stack);
      }
    }
  }

  // ---------- truncated input ----------

  // How the text ends: after whole tokens, perhaps with white space; inside a string; behind a
  // string's backslash; or inside a number or constant that is no token yet.
  datatype Tail = Whole(space: bool) | InString(raw: string) | InEscape(raw: string) | InWord(part: string)

  datatype Input = Input(tokens: seq<Token>, tail: Tail)

  // Pieces of text that are tried, or added, behind the input.
  datatype Symbol = Quote | Backslash | Mark(text: string) | T(token: Token)

  function TokenText(t: Token): string {
    match t
    case LBrace => "{"
    case RBrace => "}"
    case LBracket => "["
    case RBracket => "]"
    case Colon => ":"
    case Comma => ","
    case Str(r) => "\"" + r + "\""
    case Word(w) => w
  }

  // Reads symbols outside a string (no string open) or inside one, and gives all the tokens.
  function Lex(ts: seq<Token>, tail: Tail, symbols: seq<Symbol>): Option<seq<Token>>
    decreases |symbols|
  {
    if symbols == [] then if tail.Whole? then Some(ts) else None
    else
      var x, rest := symbols[0], symbols[1..];
      match tail
      case InWord(_) => None
      case Whole(_) =>
        (match x
         case Quote => Lex(ts, InString(""), rest)
         case T(t) => Lex(ts + [t], Whole(false), rest)
         case _ => None)
      case InString(r) =>
        (match x
         case Quote => Lex(ts + [Str(r)], Whole(false), rest)
         case Backslash => Lex(ts, InEscape(r), rest)
         case Mark(m) => Lex(ts, InString(r + m), rest)
         case T(t) => Lex(ts, InString(r + TokenText(t)), rest))
      case InEscape(r) =>
        (match x
         case Quote => Lex(ts, InString(r + "\\\""), rest)
         case Backslash => Lex(ts, InString(r + "\\\\"), rest)
         case _ => None)
  }

  predicate CanParse(x: Input, symbols: seq<Symbol>) {
    var all := Lex(x.tokens, x.tail, symbols);
    all.Some? && Valid(all.value)
  }

  function Tokens(ts: seq<Token>): seq<Symbol> { seq(|ts|, i requires 0 <= i < |ts| => T(ts[i])) }

  predicate IsSpace(c: char) { c in {' ', '\n', '\r', '\t'} }

  function LastNonSpace(s: string): char {
    if s == "" then ' ' else if IsSpace(s[|s| - 1]) then LastNonSpace(s[..|s| - 1]) else s[|s| - 1]
  }

  // The last character of the text that is not white space.
  function LastChar(x: Input): char {
    match x.tail
    case Whole(_) => if x.tokens == [] then ' ' else LastNonSpace(TokenText(x.tokens[|x.tokens| - 1]))
    case InString(r) => LastNonSpace("\"" + r)
    case InEscape(_) => '\\'
    case InWord(p) => LastNonSpace(p)
  }

  // The text ends with a backslash.
  predicate EndsWithBackslash(x: Input) {
    x.tail.InEscape? || (x.tail.InString? && x.tail.raw != "" && x.tail.raw[|x.tail.raw| - 1] == '\\')
  }

  predicate EndsWithSpace(x: Input) {
    match x.tail
    case Whole(space) => space
    case InString(r) => r != "" && IsSpace(r[|r| - 1])
    case _ => false
  }

  // A stop on what may be an unfinished number.
  predicate MaybeNumber(x: Input) {
    !EndsWithSpace(x) && var c := LastChar(x); '0' <= c <= '9' || c in {'.', 'e', 'E', '-'}
  }

  // ---------- healing ----------

  // The tokens kept of the input, how they end, the marker with what belongs to it, and the rest.
  datatype Healed = Healed(kept: Input, dump: seq<Symbol>, rest: seq<Symbol>)

  // Outside: the source would cut at a character inside an earlier token.
  datatype Outcome = Heals(h: Healed) | Throws | NotHealed | Outside

  const ONE := Word("1")

  // Back to the last delimiter in front of the value the text stops at.
  function CutBack(x: Input, isDelimiter: Token -> bool, marker: string, closing: seq<Symbol>): Outcome {
    var ts := x.tokens;
    var n := |ts|;
    if x.tail.InWord? && n >= 1 && isDelimiter(ts[n - 1]) then
      Heals(Healed(Input(ts, Whole(false)), [Quote, Mark(marker)], [Quote] + closing))
    else if x.tail.Whole? && n >= 2 && ts[n - 1].Word? && isDelimiter(ts[n - 2]) then
      Heals(Healed(Input(ts[..n - 1], Whole(false)), [Quote, Mark(marker)], [Quote] + closing))
    else Outside
  }

  function IsColon(t: Token): bool { t.Colon? }
  function OpensElement(t: Token): bool { t.LBracket? || t.Comma? }

  // Behind a key.
  function HealKey(x: Input, marker: string, closing: seq<Symbol>): Outcome {
    if LastChar(x) == ':' && CanParse(x, [T(ONE)] + closing) then Heals(Healed(x, [Quote, Mark(marker)], [Quote] + closing))
    else if CanParse(x, [T(Colon), T(ONE)] + closing) then Heals(Healed(x, [T(Colon), Quote, Mark(marker)], [Quote] + closing))
    else if LastChar(x) == '{' && CanParse(x, closing) then Heals(Healed(x, [Quote, Mark(marker)], [Quote, T(Colon), T(ONE)] + closing))
    else if CanParse(x, [Quote] + closing) then Heals(Healed(x, [Mark(marker)], [Quote] + closing))
    else if EndsWithBackslash(x) && CanParse(x, [Backslash, Quote] + closing) then Heals(Healed(x, [Backslash, Mark(marker)], [Quote] + closing))
    else CutBack(x, IsColon, marker, closing)
  }

  // In an array.
  function HealArray(x: Input, marker: string, closing: seq<Symbol>): Outcome {
    if (LastChar(x) == ',' || LastChar(x) == '[') && CanParse(x, [T(ONE)] + closing) then
      Heals(Healed(x, [Quote, Mark(marker)], [Quote] + closing))
    else if CanParse(x, [Quote] + closing) then Heals(Healed(x, [Mark(marker)], [Quote] + closing))
    else if EndsWithBackslash(x) && CanParse(x, [Backslash, Quote] + closing) then Heals(Healed(x, [Backslash, Mark(marker)], [Quote] + closing))
    else if !MaybeNumber(x) && CanParse(x, [T(Comma), T(ONE)] + closing) then Heals(Healed(x, [T(Comma), Quote, Mark(marker)], [Quote] + closing))
    else CutBack(x, OpensElement, marker, closing)
  }

  // In an object, not behind a key.
  function HealObject(x: Input, marker: string, closing: seq<Symbol>): Outcome {
    var pair := [Quote, T(Colon), T(ONE)] + closing;
    if (LastChar(x) == '{' && CanParse(x, closing)) || (LastChar(x) == ',' && CanParse(x, [Quote] + pair)) then
      Heals(Healed(x, [Quote, Mark(marker)], pair))
    else if !MaybeNumber(x) && CanParse(x, [T(Comma), Quote] + pair) then Heals(Healed(x, [T(Comma), Quote, Mark(marker)], pair))
    else if CanParse(x, pair) then Heals(Healed(x, [Mark(marker)], pair))
    else if EndsWithBackslash(x) && CanParse(x, [Backslash] + pair) then Heals(Healed(x, [Backslash, Mark(marker)], pair))
    else CutBack(x, IsColon, marker, closing)
  }

  // A string without a container around it.
  function HealTop(x: Input, marker: string): Outcome {
    if CanParse(x, [Quote]) then Heals(Healed(x, [Mark(marker)], [Quote]))
    else if EndsWithBackslash(x) && CanParse(x, [Backslash, Quote]) then Heals(Healed(x, [Backslash, Mark(marker)], [Quote]))
    else NotHealed
  }

  function Heal(x: Input, stack: seq<Element>, marker: string): Outcome {
    if stack == [] then HealTop(x, marker)
    else if x.tokens == [] then Throws
    else
      var closing := Tokens(Closing(stack));
      match Top(stack)
      case Key(_) => HealKey(x, marker, closing)
      case Array => HealArray(x, marker, closing)
      case Object => HealObject(x, marker, closing)
  }

  // ---------- what an input cut from a document looks like ----------

  // Whole tokens the parser accepts so far, and a tail that can continue them.
  ghost predicate Viable(x: Input) {
    var s := Run(START, x.tokens);
    && s.Some?
    && var e := s.value.awaits;
       match x.tail
       case Whole(_) => true
       case InString(_) => e.Value? || e.ValueOrClose? || e.KeyOrClose? || e.KeyOnly?
       case InEscape(_) => e.Value? || e.ValueOrClose? || e.KeyOrClose? || e.KeyOnly?
       case InWord(_) => e.Value? || e.ValueOrClose?
  }

  // Number and constant texts: no white space, none of the punctuation.
  predicate PlainWord(w: string) {
    w != "" && forall i :: 0 <= i < |w| ==> !IsSpace(w[i]) && w[i] !in {'{', '}', '[', ']', ':', ',', '"', '\\'}
  }

  predicate WordsPlain(x: Input) {
    (forall i :: 0 <= i < |x.tokens| && x.tokens[i].Word? ==> PlainWord(x.tokens[i].text)) && (x.tail.InWord? ==> PlainWord(x.tail.part))
  }

  // The whole operation on an input the parser stopped in.
  method CommonJsonParse(x: Input, marker: string) returns (o: Outcome)
    requires Viable(x)
    ensures o == Heal(x, Run(START, x.tokens).value.stack, marker)
  {
    hide HealKey, HealArray, HealObject, HealTop, Run;
    var locator := new Locator();
    var _ := locator.Parse(x.tokens);
    var stack := locator.stack;
    if stack == [] {
      o := HealTop(x, marker);
    } else if x.tokens == [] {
      o := Throws;
    } else {
      var closing := BuildClosing(stack);
      match stack[|stack| - 1] {
        case Key(_) => o := HealKey(x, marker, Tokens(closing));
        case Array => o := HealArray(x, marker, Tokens(closing));
        case Object => o := HealObject(x, marker, Tokens(closing));
      }
    }
  }

  // The tokens of the healed text.
  function HealedTokens(h: Healed): Option<seq<Token>> { Lex(h.kept.tokens, h.kept.tail, h.dump + h.rest) }
}
