/** Healing works: whatever a document was cut to inside a container, the healed text is a document,
    holds the marker in exactly one string, and gives back the input up to its last scalar. */
module JsonHealing {
  import opened Basics
  import opened JsonHeal

  // ---------- reading symbols ----------

  lemma {:induction false} LexTokens(ts: seq<Token>, space: bool, us: seq<Token>)
    ensures Lex(ts, Whole(space), Tokens(us)) == Some(ts + us)
    decreases |us|
  {
    if us == [] {
      assert ts + us == ts;
    } else {
      assert Tokens(us)[1..] == Tokens(us[1..]);
      LexTokens(ts + [us[0]], false, us[1..]);
      assert ts + [us[0]] + us[1..] == ts + us;
    }
  }

  lemma {:induction false} LexInside(ts: seq<Token>, r: string, us: seq<Token>)
    ensures Lex(ts, InString(r), Tokens(us)) == None
    decreases |us|
  {
    if us != [] {
      assert Tokens(us)[1..] == Tokens(us[1..]);
      LexInside(ts, r + TokenText(us[0]), us[1..]);
    }
  }

  lemma {:induction false} LexFirst(ts: seq<Token>, tail: Tail, x: Symbol, rest: seq<Symbol>)
    ensures var all := Lex(ts, tail, [x] + rest);
            match tail
            case InWord(_) => all == None
            case Whole(_) => (x.Quote? ==> all == Lex(ts, InString(""), rest)) && (x.T? ==> all == Lex(ts + [x.token], Whole(false), rest))
            case InString(r) =>
              && (x.Quote? ==> all == Lex(ts + [Str(r)], Whole(false), rest))
              && (x.Backslash? ==> all == Lex(ts, InEscape(r), rest))
              && (x.Mark? ==> all == Lex(ts, InString(r + x.text), rest))
              && (x.T? ==> all == Lex(ts, InString(r + TokenText(x.token)), rest))
            case InEscape(r) =>
              && (x.Quote? ==> all == Lex(ts, InString(r + "\\\""), rest))
              && (x.Backslash? ==> all == Lex(ts, InString(r + "\\\\"), rest))
              && (x.T? ==> all == None)
  {
    assert ([x] + rest)[0] == x && ([x] + rest)[1..] == rest;
  }

  lemma {:induction false} NothingInWord(ts: seq<Token>, p: string, symbols: seq<Symbol>)
    ensures Lex(ts, InWord(p), symbols) == None
  {
  }

  lemma {:induction false} TokensCons(us: seq<Token>)
    ensures us != [] ==> Tokens(us) == [T(us[0])] + Tokens(us[1..])
  {
  }

  // Outside a string, what is tried can only be whole tokens, or begin with an empty string.
  lemma {:induction false} TryOutside(ts: seq<Token>, space: bool, us: seq<Token>)
    ensures Lex(ts, Whole(space), [Quote] + Tokens(us)) == None
    ensures Lex(ts, Whole(space), [Backslash] + Tokens(us)) == None
    ensures Lex(ts, Whole(space), [Quote, Quote] + Tokens(us)) == Some(ts + [Str("")] + us)
  {
    hide Lex;
    LexFirst(ts, Whole(space), Quote, Tokens(us));
    LexInside(ts, "", us);
    BackslashOutside(ts, space, Tokens(us));
    assert [Quote, Quote] + Tokens(us) == [Quote] + ([Quote] + Tokens(us));
    LexFirst(ts, Whole(space), Quote, [Quote] + Tokens(us));
    LexFirst(ts, InString(""), Quote, Tokens(us));
    LexTokens(ts + [Str("")], false, us);
  }

  lemma {:induction false} BackslashOutside(ts: seq<Token>, space: bool, rest: seq<Symbol>)
    ensures Lex(ts, Whole(space), [Backslash] + rest) == None
  {
  }

  // Inside a string, only one quote can end it.
  lemma {:induction false} TryInside(ts: seq<Token>, r: string, us: seq<Token>, vs: seq<Token>)
    ensures Lex(ts, InString(r), [Quote] + Tokens(us)) == Some(ts + [Str(r)] + us)
    ensures Lex(ts, InString(r), [Quote, Quote] + Tokens(us)) == None
    ensures |vs| == 1 ==> Lex(ts, InString(r), Tokens(vs) + ([Quote, Quote] + Tokens(us))) == None
  {
    hide Lex;
    LexFirst(ts, InString(r), Quote, Tokens(us));
    LexTokens(ts + [Str(r)], false, us);
    TwoQuotesInside(ts, r, us);
    if |vs| == 1 {
      var r' := r + TokenText(vs[0]);
      assert Tokens(vs) == [T(vs[0])];
      LexFirst(ts, InString(r), T(vs[0]), [Quote, Quote] + Tokens(us));
      TwoQuotesInside(ts, r', us);
    }
  }

  lemma {:induction false} TwoQuotesInside(ts: seq<Token>, r: string, us: seq<Token>)
    ensures Lex(ts, InString(r), [Quote, Quote] + Tokens(us)) == None
  {
    hide Lex;
    assert [Quote, Quote] + Tokens(us) == [Quote] + ([Quote] + Tokens(us));
    LexFirst(ts, InString(r), Quote, [Quote] + Tokens(us));
    LexFirst(ts + [Str(r)], Whole(false), Quote, Tokens(us));
    LexInside(ts + [Str(r)], "", us);
  }

  // Behind a backslash, a quote is part of the string.
  lemma {:induction false} TryEscape(ts: seq<Token>, r: string, us: seq<Token>, rest: seq<Symbol>)
    ensures Lex(ts, InEscape(r), [Quote] + Tokens(us)) == None
    ensures us != [] ==> Lex(ts, InEscape(r), Tokens(us) + rest) == None
    ensures Lex(ts, InEscape(r), Tokens(us)) == None
    ensures Lex(ts, InEscape(r), [Backslash, Quote] + Tokens(us)) == Some(ts + [Str(r + "\\\\")] + us)
  {
    hide Lex;
    LexFirst(ts, InEscape(r), Quote, Tokens(us));
    LexInside(ts, r + "\\\"", us);
    TokensCons(us);
    if us == [] {
      EscapeOpen(ts, r);
    } else {
      LexFirst(ts, InEscape(r), T(us[0]), Tokens(us[1..]));
      LexFirst(ts, InEscape(r), T(us[0]), Tokens(us[1..]) + rest);
      assert Tokens(us) + rest == [T(us[0])] + (Tokens(us[1..]) + rest);
    }
    assert [Backslash, Quote] + Tokens(us) == [Backslash] + ([Quote] + Tokens(us));
    LexFirst(ts, InEscape(r), Backslash, [Quote] + Tokens(us));
    LexFirst(ts, InString(r + "\\\\"), Quote, Tokens(us));
    LexTokens(ts + [Str(r + "\\\\")], false, us);
  }

  lemma {:induction false} EscapeOpen(ts: seq<Token>, r: string)
    ensures Lex(ts, InEscape(r), []) == None
  {
  }

  lemma {:induction false} EscapeTwice(ts: seq<Token>, r: string, us: seq<Token>)
    ensures Lex(ts, InEscape(r), [Quote, Quote] + Tokens(us)) == Some(ts + [Str(r + "\\\"")] + us)
  {
    hide Lex;
    assert [Quote, Quote] + Tokens(us) == [Quote] + ([Quote] + Tokens(us));
    LexFirst(ts, InEscape(r), Quote, [Quote] + Tokens(us));
    LexFirst(ts, InString(r + "\\\""), Quote, Tokens(us));
    LexTokens(ts + [Str(r + "\\\"")], false, us);
  }

  // ---------- documents completed by the closing text ----------

  predicate Scalar(t: Token) { t.Str? || t.Word? }

  lemma {:induction false} RunTokens(ts: seq<Token>, us: seq<Token>, s: PState)
    requires Run(START, ts) == Some(s)
    ensures Run(START, ts + us) == Run(s, us)
  {
    hide Run;
    RunConcat(START, ts, us);
  }

  lemma {:induction false} StartOk()
    ensures Inv(START)
  {
  }

  lemma {:induction false} RunCons(s: PState, t: Token, us: seq<Token>, s': PState)
    requires Step(s, t) == Some(s')
    ensures Run(s, [t] + us) == Run(s', us)
  {
    assert ([t] + us)[0] == t && ([t] + us)[1..] == us;
  }

  lemma {:induction false} ScalarCloses(s: PState, t: Token)
    requires Inv(s) && (s.awaits.Value? || s.awaits.ValueOrClose?) && Scalar(t)
    ensures Run(s, [t] + Closing(s.stack)) == Some(PState([], End))
  {
    hide Run;
    RunCons(s, t, Closing(s.stack), AfterValue(s.stack));
    ClosingAfter(s.stack);
  }

  lemma {:induction false} ColonCloses(s: PState, t: Token)
    requires Inv(s) && s.awaits.ColonNext? && Scalar(t)
    ensures Run(s, [Colon, t] + Closing(s.stack)) == Some(PState([], End))
  {
    hide Run;
    var s' := PState(s.stack, Value);
    assert [Colon, t] + Closing(s.stack) == [Colon] + ([t] + Closing(s.stack));
    RunCons(s, Colon, [t] + Closing(s.stack), s');
    ScalarCloses(s', t);
  }

  lemma {:induction false} PairCloses(s: PState, k: string, t: Token)
    requires Inv(s) && (s.awaits.KeyOrClose? || s.awaits.KeyOnly?) && Scalar(t)
    ensures Run(s, [Str(k), Colon, t] + Closing(s.stack)) == Some(PState([], End))
  {
    hide Run;
    var s' := PState(s.stack + [Key(k)], ColonNext);
    PushOk(s.stack, Key(k));
    assert Closing(s'.stack) == Closing(s.stack) by {
      assert Pop(s'.stack) == s.stack;
      assert [] + Closing(s.stack) == Closing(s.stack);
    }
    assert [Str(k), Colon, t] + Closing(s.stack) == [Str(k)] + ([Colon, t] + Closing(s.stack));
    RunCons(s, Str(k), [Colon, t] + Closing(s.stack), s');
    ColonCloses(s', t);
  }

  lemma {:induction false} CommaCloses(s: PState, k: string, t: Token)
    requires Inv(s) && s.awaits.CommaOrClose? && Scalar(t)
    ensures Top(s.stack).Array? ==> Run(s, [Comma, t] + Closing(s.stack)) == Some(PState([], End))
    ensures Top(s.stack).Object? ==> Run(s, [Comma, Str(k), Colon, t] + Closing(s.stack)) == Some(PState([], End))
  {
    hide Run;
    var c := Closing(s.stack);
    if Top(s.stack).Array? {
      var s' := PState(s.stack, Value);
      assert [Comma, t] + c == [Comma] + ([t] + c);
      RunCons(s, Comma, [t] + c, s');
      ScalarCloses(s', t);
    }
    if Top(s.stack).Object? {
      var s' := PState(s.stack, KeyOnly);
      assert [Comma, Str(k), Colon, t] + c == [Comma] + ([Str(k), Colon, t] + c);
      RunCons(s, Comma, [Str(k), Colon, t] + c, s');
      PairCloses(s', k, t);
    }
  }

  lemma {:induction false} EmptyObjectCloses(s: PState)
    requires Inv(s) && s.awaits.KeyOrClose?
    ensures Run(s, Closing(s.stack)) == Some(PState([], End))
  {
    hide Run, StackOk;
    var rest := Pop(s.stack);
    assert Closing(s.stack) == [RBrace] + Closing(rest);
    PopOk(s.stack);
    RunCons(s, RBrace, Closing(rest), AfterValue(rest));
    ClosingAfter(rest);
  }

  // ---------- the last token ----------

  lemma {:induction false} RunLast(ts: seq<Token>)
    requires ts != [] && Run(START, ts).Some?
    ensures var pre := Run(START, ts[..|ts| - 1]);
            pre.Some? && Inv(pre.value) && Step(pre.value, ts[|ts| - 1]) == Run(START, ts)
  {
    hide Run, Step;
    var n := |ts| - 1;
    assert ts == ts[..n] + [ts[n]];
    RunConcat(START, ts[..n], [ts[n]]);
    var pre := Run(START, ts[..n]);
    StartOk();
    RunKeepsInv(START, ts[..n]);
    RunOne(pre.value, ts[n]);
  }

  // What is awaited shows in the last token.
  lemma {:induction false} LastToken(ts: seq<Token>, s: PState)
    requires ts != [] && Run(START, ts) == Some(s)
    ensures var t := ts[|ts| - 1];
            && (s.awaits.Value? ==> s.stack != [] && ((t.Colon? && Top(s.stack).Key?) || (t.Comma? && Top(s.stack).Array?)))
            && (s.awaits.ValueOrClose? ==> t.LBracket?)
            && (s.awaits.KeyOrClose? ==> t.LBrace?)
            && (s.awaits.KeyOnly? ==> t.Comma?)
            && (s.awaits.ColonNext? ==> t.Str?)
            && (s.awaits.CommaOrClose? ==> Scalar(t) || t.RBrace? || t.RBracket?)
  {
    hide Run, StackOk;
    RunLast(ts);
  }

  // In front of a number or constant inside a container stands the delimiter it was cut back to.
  lemma {:induction false} BeforeWord(ts: seq<Token>, s: PState)
    requires ts != [] && Run(START, ts) == Some(s) && ts[|ts| - 1].Word? && s.awaits.CommaOrClose?
    ensures |ts| >= 2 && Run(START, ts[..|ts| - 1]).Some? && s.stack != []
    ensures var p, t := Run(START, ts[..|ts| - 1]).value, ts[|ts| - 2];
            && Inv(p) && (p.awaits.Value? || p.awaits.ValueOrClose?) && CloseValue(p.stack) == s.stack && Closing(p.stack) == Closing(s.stack)
            && (Top(s.stack).Object? ==> t.Colon?) && (Top(s.stack).Array? ==> t.LBracket? || t.Comma?)
  {
    hide StackOk;
    RunLast(ts);
    var n := |ts| - 1;
    var p := Run(START, ts[..n]).value;
    hide Run;
    assert ts[..n] != [] by { if ts[..n] == [] { EmptyRun(); } }
    LastToken(ts[..n], p);
    if p.stack != s.stack {
      assert Top(p.stack).Key? && Pop(p.stack) == s.stack;
      PopOk(p.stack);
      assert [] + Closing(s.stack) == Closing(s.stack);
    }
  }

  lemma {:induction false} EmptyRun()
    ensures Run(START, []) == Some(START)
  {
  }

  // ---------- the last character ----------

  lemma {:induction false} LastIs(s: string)
    ensures s != "" && !IsSpace(s[|s| - 1]) ==> LastNonSpace(s) == s[|s| - 1]
  {
  }

  lemma {:induction false} LastCharWhole(x: Input)
    requires x.tail.Whole? && x.tokens != [] && WordsPlain(x)
    ensures var t, c := x.tokens[|x.tokens| - 1], LastChar(x);
            && (t.LBrace? <==> c == '{') && (t.LBracket? <==> c == '[') && (t.Colon? <==> c == ':') && (t.Comma? <==> c == ',')
            && c != '\\' && (MaybeNumber(x) ==> t.Word? && x.tail == Whole(false))
  {
    var t := x.tokens[|x.tokens| - 1];
    LastIs(TokenText(t));
    if t.Word? { assert PlainWord(t.text); }
    hide LastNonSpace;
  }

  // ---------- what the healed text is ----------

  predicate NoStrings(ts: seq<Token>) { forall i :: 0 <= i < |ts| ==> !ts[i].Str? }

  function Held(tail: Tail): string {
    match tail
    case InString(r) => r
    case InEscape(r) => r + "\\\\"
    case _ => ""
  }

  // The kept tokens, a delimiter perhaps, the string with the marker at its end, and no other string.
  ghost predicate MarkedOnce(h: Healed, marker: string, all: seq<Token>) {
    exists glue, after :: MarkedAs(h, marker, all, glue, after)
  }

  ghost predicate MarkedAs(h: Healed, marker: string, all: seq<Token>, glue: seq<Token>, after: seq<Token>) {
    NoStrings(glue) && NoStrings(after) && all == h.kept.tokens + glue + [Str(Held(h.kept.tail) + marker)] + after
  }

  // Nothing of the input is lost but its last number or constant.
  predicate GivesBack(x: Input, kept: Input) {
    || kept == x
    || (x.tail.InWord? && kept == Input(x.tokens, Whole(false)))
    || (x.tail == Whole(false) && kept.tail == Whole(false) && x.tokens != [] && x.tokens[|x.tokens| - 1].Word?
        && kept.tokens == x.tokens[..|x.tokens| - 1])
  }

  // The input without its last number or constant.
  function Dropped(x: Input): Input
    requires x.tail.InWord? || x.tokens != []
  {
    if x.tail.InWord? then Input(x.tokens, Whole(false)) else Input(x.tokens[..|x.tokens| - 1], Whole(false))
  }

  predicate Keeps(x: Input, o: Outcome, all: bool)
    requires x.tail.InWord? || x.tokens != []
  {
    o.Heals? && o.h.kept == if all then x else Dropped(x)
  }

  ghost predicate Works(x: Input, o: Outcome, marker: string) {
    && o.Heals?
    && GivesBack(x, o.h.kept)
    && var all := HealedTokens(o.h);
       all.Some? && Valid(all.value) && MarkedOnce(o.h, marker, all.value)
  }

  lemma {:induction false} ClosingPlain(stack: seq<Element>)
    ensures NoStrings(Closing(stack))
    decreases |stack|
  {
    if stack != [] { ClosingPlain(Pop(stack)); }
  }

  // A new string behind whole tokens.
  lemma {:induction false} MarkNew(kept: Input, glue: seq<Token>, marker: string, after: seq<Token>)
    requires kept.tail.Whole? && NoStrings(glue) && NoStrings(after)
    ensures var h := Healed(kept, Tokens(glue) + [Quote, Mark(marker)], [Quote] + Tokens(after));
            var all := kept.tokens + glue + [Str(marker)] + after;
            HealedTokens(h) == Some(all) && MarkedOnce(h, marker, all)
  {
    var h := Healed(kept, Tokens(glue) + [Quote, Mark(marker)], [Quote] + Tokens(after));
    var all := kept.tokens + glue + [Str(marker)] + after;
    var ts := kept.tokens + glue;
    LexGlue(kept.tokens, kept.tail.space, glue, [Quote, Mark(marker)] + ([Quote] + Tokens(after)));
    assert h.dump + h.rest == Tokens(glue) + ([Quote, Mark(marker)] + ([Quote] + Tokens(after)));
    hide Lex;
    assert [Quote, Mark(marker)] + ([Quote] + Tokens(after)) == [Quote] + ([Mark(marker)] + ([Quote] + Tokens(after)));
    LexFirst(ts, Whole(false), Quote, [Mark(marker)] + ([Quote] + Tokens(after)));
    LexFirst(ts, Whole(true), Quote, [Mark(marker)] + ([Quote] + Tokens(after)));
    LexFirst(ts, InString(""), Mark(marker), [Quote] + Tokens(after));
    LexFirst(ts, InString("" + marker), Quote, Tokens(after));
    assert "" + marker == marker;
    LexTokens(ts + [Str(marker)], false, after);
    assert MarkedAs(h, marker, all, glue, after);
  }

  lemma {:induction false} LexGlue(ts: seq<Token>, space: bool, glue: seq<Token>, rest: seq<Symbol>)
    ensures Lex(ts, Whole(space), Tokens(glue) + rest) == Lex(ts + glue, Whole(if glue == [] then space else false), rest)
    decreases |glue|
  {
    if glue == [] {
      assert Tokens(glue) + rest == rest && ts + glue == ts;
    } else {
      TokensCons(glue);
      assert Tokens(glue) + rest == [T(glue[0])] + (Tokens(glue[1..]) + rest);
      LexFirst(ts, Whole(space), T(glue[0]), Tokens(glue[1..]) + rest);
      LexGlue(ts + [glue[0]], false, glue[1..], rest);
      assert ts + [glue[0]] + glue[1..] == ts + glue;
    }
  }

  // The open string goes on with the marker.
  lemma {:induction false} MarkOpen(kept: Input, marker: string, after: seq<Token>)
    requires kept.tail.InString? || kept.tail.InEscape?
    requires NoStrings(after)
    ensures var h := Healed(kept, if kept.tail.InString? then [Mark(marker)] else [Backslash, Mark(marker)], [Quote] + Tokens(after));
            var all := kept.tokens + [Str(Held(kept.tail) + marker)] + after;
            HealedTokens(h) == Some(all) && MarkedOnce(h, marker, all)
  {
    hide Lex;
    var h := Healed(kept, if kept.tail.InString? then [Mark(marker)] else [Backslash, Mark(marker)], [Quote] + Tokens(after));
    var all := kept.tokens + [Str(Held(kept.tail) + marker)] + after;
    var end := [Quote] + Tokens(after);
    if kept.tail.InEscape? {
      assert h.dump + h.rest == [Backslash] + ([Mark(marker)] + end);
      LexFirst(kept.tokens, kept.tail, Backslash, [Mark(marker)] + end);
    }
    LexFirst(kept.tokens, InString(Held(kept.tail)), Mark(marker), end);
    LexFirst(kept.tokens, InString(Held(kept.tail) + marker), Quote, Tokens(after));
    LexTokens(kept.tokens + [Str(Held(kept.tail) + marker)], false, after);
    assert kept.tokens + [] + [Str(Held(kept.tail) + marker)] + after == all;
    assert MarkedAs(h, marker, all, [], after);
  }

  // ---------- the three cases ----------

  lemma {:induction false} Symbols(c: seq<Token>)
    ensures [T(ONE)] + Tokens(c) == Tokens([ONE] + c)
    ensures [T(Colon), T(ONE)] + Tokens(c) == Tokens([Colon, ONE] + c)
    ensures [T(Comma), T(ONE)] + Tokens(c) == Tokens([Comma, ONE] + c)
    ensures [Quote, T(Colon), T(ONE)] + Tokens(c) == [Quote] + Tokens([Colon, ONE] + c)
    ensures [Quote] + ([Quote] + Tokens([Colon, ONE] + c)) == [Quote, Quote] + Tokens([Colon, ONE] + c)
    ensures [T(Comma), Quote] + ([Quote] + Tokens([Colon, ONE] + c)) == Tokens([Comma]) + ([Quote, Quote] + Tokens([Colon, ONE] + c))
    ensures [Backslash] + ([Quote] + Tokens([Colon, ONE] + c)) == [Backslash, Quote] + Tokens([Colon, ONE] + c)
    ensures Tokens([]) == [] && Tokens([Colon]) == [T(Colon)] && Tokens([Comma]) == [T(Comma)]
    ensures NoStrings(c) ==> NoStrings([Colon, ONE] + c)
  {
  }

  // The input's state, and what a completion of its tokens by `us` amounts to.
  lemma {:induction false} Completed(ts: seq<Token>, s: PState, us: seq<Token>)
    requires Run(START, ts) == Some(s) && Run(s, us) == Some(PState([], End))
    ensures Valid(ts + us)
  {
    RunTokens(ts, us, s);
  }

  // A healed text that puts the marked scalar where one is awaited, behind perhaps a delimiter.
  lemma {:induction false} NewWorks(x: Input, kept: Input, s: PState, glue: seq<Token>, after: seq<Token>, marker: string)
    requires kept.tail.Whole? && Run(START, kept.tokens) == Some(s) && GivesBack(x, kept)
    requires NoStrings(glue) && NoStrings(after)
    requires Run(s, glue + [Str(marker)] + after) == Some(PState([], End))
    ensures Works(x, Heals(Healed(kept, Tokens(glue) + [Quote, Mark(marker)], [Quote] + Tokens(after))), marker)
  {
    hide Lex, Run, MarkedOnce, GivesBack;
    MarkNew(kept, glue, marker, after);
    Completed(kept.tokens, s, glue + [Str(marker)] + after);
    Assoc(kept.tokens, glue, [Str(marker)]);
    Assoc(kept.tokens, glue + [Str(marker)], after);
  }

  lemma {:induction false} OpenWorks(x: Input, s: PState, after: seq<Token>, marker: string)
    requires (x.tail.InString? || x.tail.InEscape?) && Run(START, x.tokens) == Some(s) && NoStrings(after)
    requires Run(s, [Str(Held(x.tail) + marker)] + after) == Some(PState([], End))
    ensures Works(x, Heals(Healed(x, if x.tail.InString? then [Mark(marker)] else [Backslash, Mark(marker)], [Quote] + Tokens(after))), marker)
  {
    hide Lex, Run, MarkedOnce;
    MarkOpen(x, marker, after);
    Completed(x.tokens, s, [Str(Held(x.tail) + marker)] + after);
    Assoc(x.tokens, [Str(Held(x.tail) + marker)], after);
  }

  lemma {:induction false} KeyWorks(x: Input, s: PState, marker: string)
    requires Viable(x) && WordsPlain(x) && Run(START, x.tokens) == Some(s) && Inv(s) && s.stack != [] && Top(s.stack).Key? && x.tokens != []
    ensures Works(x, HealKey(x, marker, Tokens(Closing(s.stack))), marker)
    ensures Keeps(x, HealKey(x, marker, Tokens(Closing(s.stack))), !x.tail.InWord?)
    ensures x.tail.Whole? ==> !MaybeNumber(x)
  {
    var c := Closing(s.stack);
    ClosingPlain(s.stack);
    Symbols(c);
    LastToken(x.tokens, s);
    assert s.awaits.Value? || s.awaits.ColonNext?;
    match x.tail
    case Whole(space) => KeyWhole(x, s, marker);
    case InString(r) => KeyOpen(x, s, marker);
    case InEscape(r) => KeyOpen(x, s, marker);
    case InWord(p) => KeyWord(x, s, marker);
  }

  lemma {:induction false} TokensParse(x: Input, s: PState, us: seq<Token>)
    requires x.tail.Whole? && Run(START, x.tokens) == Some(s) && Run(s, us) == Some(PState([], End))
    ensures CanParse(x, Tokens(us))
  {
    hide Run, Lex;
    Completed(x.tokens, s, us);
    LexTokens(x.tokens, x.tail.space, us);
  }

  lemma {:induction false} QuoteFails(x: Input, us: seq<Token>)
    requires x.tail.Whole?
    ensures !CanParse(x, [Quote] + Tokens(us)) && !CanParse(x, [Backslash, Quote] + Tokens(us))
  {
    hide Lex, Valid;
    TryOutside(x.tokens, x.tail.space, us);
    BackslashOutside(x.tokens, x.tail.space, [Quote] + Tokens(us));
    assert [Backslash, Quote] + Tokens(us) == [Backslash] + ([Quote] + Tokens(us));
  }

  lemma {:induction false} KeyWhole(x: Input, s: PState, marker: string)
    requires WordsPlain(x) && Run(START, x.tokens) == Some(s) && Inv(s) && s.stack != [] && Top(s.stack).Key? && x.tokens != [] && x.tail.Whole?
    ensures Works(x, HealKey(x, marker, Tokens(Closing(s.stack))), marker)
    ensures Keeps(x, HealKey(x, marker, Tokens(Closing(s.stack))), true)
    ensures !MaybeNumber(x)
  {
    assert s.awaits.Value? || s.awaits.ColonNext?;
    if s.awaits.Value? { KeyThenValue(x, s, marker); } else { KeyThenColon(x, s, marker); }
  }

  lemma {:induction false} KeyThenValue(x: Input, s: PState, marker: string)
    requires WordsPlain(x) && Run(START, x.tokens) == Some(s) && Inv(s) && s.stack != [] && Top(s.stack).Key? && x.tokens != [] && x.tail.Whole?
    requires s.awaits.Value?
    ensures Works(x, HealKey(x, marker, Tokens(Closing(s.stack))), marker)
    ensures Keeps(x, HealKey(x, marker, Tokens(Closing(s.stack))), true)
    ensures !MaybeNumber(x)
  {
    hide Inv, Run, Lex, LastChar, WordsPlain, Works, MaybeNumber, Valid, CanParse, Tokens, Closing;
    var c := Closing(s.stack);
    ClosingPlain(s.stack);
    Symbols(c);
    LastToken(x.tokens, s);
    LastCharWhole(x);
    ScalarCloses(s, ONE);
    TokensParse(x, s, [ONE] + c);
    ScalarCloses(s, Str(marker));
    assert [] + [Str(marker)] + c == [Str(marker)] + c;
    NewWorks(x, x, s, [], c, marker);
    assert [] + [Quote, Mark(marker)] == [Quote, Mark(marker)];
  }

  lemma {:induction false} KeyThenColon(x: Input, s: PState, marker: string)
    requires WordsPlain(x) && Run(START, x.tokens) == Some(s) && Inv(s) && s.stack != [] && Top(s.stack).Key? && x.tokens != [] && x.tail.Whole?
    requires s.awaits.ColonNext?
    ensures Works(x, HealKey(x, marker, Tokens(Closing(s.stack))), marker)
    ensures Keeps(x, HealKey(x, marker, Tokens(Closing(s.stack))), true)
    ensures !MaybeNumber(x)
  {
    hide Inv, Run, Lex, LastChar, WordsPlain, Works, MaybeNumber, Valid, CanParse, Tokens, Closing;
    var c := Closing(s.stack);
    ClosingPlain(s.stack);
    Symbols(c);
    LastToken(x.tokens, s);
    LastCharWhole(x);
    ColonCloses(s, ONE);
    TokensParse(x, s, [Colon, ONE] + c);
    ColonCloses(s, Str(marker));
    assert [Colon] + [Str(marker)] + c == [Colon, Str(marker)] + c;
    NewWorks(x, x, s, [Colon], c, marker);
    assert [T(Colon)] + [Quote, Mark(marker)] == [T(Colon), Quote, Mark(marker)];
  }

  // What a value tried inside a string amounts to: only closing the string can succeed.
  lemma {:induction false} OnlyQuote(x: Input, c: seq<Token>)
    requires x.tail.InString? || x.tail.InEscape?
    ensures !CanParse(x, Tokens(c)) && !CanParse(x, Tokens([ONE] + c)) && !CanParse(x, Tokens([Colon, ONE] + c)) && !CanParse(x, Tokens([Comma, ONE] + c))
    ensures x.tail.InString? ==> (CanParse(x, [Quote] + Tokens(c)) <==> Valid(x.tokens + [Str(x.tail.raw)] + c))
    ensures x.tail.InEscape? ==> !CanParse(x, [Quote] + Tokens(c)) && EndsWithBackslash(x)
    ensures x.tail.InEscape? ==> (CanParse(x, [Backslash, Quote] + Tokens(c)) <==> Valid(x.tokens + [Str(Held(x.tail))] + c))
    ensures !CanParse(x, Tokens([Comma]) + ([Quote, Quote] + Tokens(c)))
  {
    hide Lex, Valid;
    if x.tail.InString? {
      var r := x.tail.raw;
      LexInside(x.tokens, r, c);
      LexInside(x.tokens, r, [ONE] + c);
      LexInside(x.tokens, r, [Colon, ONE] + c);
      LexInside(x.tokens, r, [Comma, ONE] + c);
      TryInside(x.tokens, r, c, [Comma]);
    } else {
      var r := x.tail.raw;
      TryEscape(x.tokens, r, c, []);
      TryEscape(x.tokens, r, [ONE] + c, []);
      TryEscape(x.tokens, r, [Colon, ONE] + c, []);
      TryEscape(x.tokens, r, [Comma, ONE] + c, []);
      TryEscape(x.tokens, r, [Comma], [Quote, Quote] + Tokens(c));
    }
  }

  lemma {:induction false} KeyOpen(x: Input, s: PState, marker: string)
    requires Run(START, x.tokens) == Some(s) && Inv(s) && s.awaits.Value? && (x.tail.InString? || x.tail.InEscape?) && x.tokens != []
    ensures Works(x, HealKey(x, marker, Tokens(Closing(s.stack))), marker)
    ensures Keeps(x, HealKey(x, marker, Tokens(Closing(s.stack))), true)
  {
    hide Inv, Run, Lex, LastChar, Works, Valid, CanParse, EndsWithBackslash;
    var c := Closing(s.stack);
    ClosingPlain(s.stack);
    Symbols(c);
    OnlyQuote(x, c);
    ScalarCloses(s, Str(Held(x.tail)));
    Completed(x.tokens, s, [Str(Held(x.tail))] + c);
    Assoc(x.tokens, [Str(Held(x.tail))], c);
    ScalarCloses(s, Str(Held(x.tail) + marker));
    OpenWorks(x, s, c, marker);
  }

  lemma {:induction false} CutWorks(x: Input, s: PState, isDelimiter: Token -> bool, marker: string)
    requires Run(START, x.tokens) == Some(s) && Inv(s) && s.stack != [] && x.tokens != []
    requires x.tail.InWord? ==> (s.awaits.Value? || s.awaits.ValueOrClose?) && isDelimiter(x.tokens[|x.tokens| - 1])
    requires !x.tail.InWord? ==> x.tail == Whole(false) && s.awaits.CommaOrClose? && x.tokens[|x.tokens| - 1].Word?
                                 && |x.tokens| >= 2 && isDelimiter(x.tokens[|x.tokens| - 2])
    ensures Works(x, CutBack(x, isDelimiter, marker, Tokens(Closing(s.stack))), marker)
    ensures Keeps(x, CutBack(x, isDelimiter, marker, Tokens(Closing(s.stack))), false)
  {
    hide Inv, Run, Lex, Works, StackOk;
    var c := Closing(s.stack);
    ClosingPlain(s.stack);
    Symbols(c);
    assert [] + [Quote, Mark(marker)] == [Quote, Mark(marker)] && [] + [Str(marker)] + c == [Str(marker)] + c;
    var n := |x.tokens| - 1;
    if x.tail.InWord? {
      ScalarCloses(s, Str(marker));
      NewWorks(x, Input(x.tokens, Whole(false)), s, [], c, marker);
    } else {
      BeforeWord(x.tokens, s);
      var p := Run(START, x.tokens[..n]).value;
      ScalarCloses(p, Str(marker));
      NewWorks(x, Input(x.tokens[..n], Whole(false)), p, [], c, marker);
    }
  }

  lemma {:induction false} NothingParses(x: Input)
    requires x.tail.InWord?
    ensures forall symbols :: !CanParse(x, symbols)
    ensures !EndsWithBackslash(x)
  {
  }

  lemma {:induction false} KeyWord(x: Input, s: PState, marker: string)
    requires Run(START, x.tokens) == Some(s) && Inv(s) && s.stack != [] && Top(s.stack).Key? && s.awaits.Value? && x.tail.InWord? && x.tokens != []
    ensures Works(x, HealKey(x, marker, Tokens(Closing(s.stack))), marker)
    ensures Keeps(x, HealKey(x, marker, Tokens(Closing(s.stack))), false)
  {
    hide Inv, Run, Lex, LastChar, Works, CanParse, CutBack;
    NothingParses(x);
    LastToken(x.tokens, s);
    CutWorks(x, s, IsColon, marker);
  }

  lemma {:induction false} ArrayOpen(x: Input, s: PState, marker: string)
    requires Run(START, x.tokens) == Some(s) && Inv(s) && (s.awaits.Value? || s.awaits.ValueOrClose?) && (x.tail.InString? || x.tail.InEscape?) && x.tokens != []
    ensures Works(x, HealArray(x, marker, Tokens(Closing(s.stack))), marker)
    ensures Keeps(x, HealArray(x, marker, Tokens(Closing(s.stack))), true)
  {
    hide Inv, Run, Lex, LastChar, Works, Valid, CanParse, EndsWithBackslash, Tokens, Closing, MaybeNumber;
    var c := Closing(s.stack);
    ClosingPlain(s.stack);
    Symbols(c);
    OnlyQuote(x, c);
    ScalarCloses(s, Str(Held(x.tail)));
    Completed(x.tokens, s, [Str(Held(x.tail))] + c);
    Assoc(x.tokens, [Str(Held(x.tail))], c);
    ScalarCloses(s, Str(Held(x.tail) + marker));
    OpenWorks(x, s, c, marker);
  }

  lemma {:induction false} ArrayValue(x: Input, s: PState, marker: string)
    requires WordsPlain(x) && Run(START, x.tokens) == Some(s) && Inv(s) && s.stack != [] && Top(s.stack).Array? && x.tokens != [] && x.tail.Whole?
    requires s.awaits.Value? || s.awaits.ValueOrClose?
    ensures Works(x, HealArray(x, marker, Tokens(Closing(s.stack))), marker)
    ensures Keeps(x, HealArray(x, marker, Tokens(Closing(s.stack))), true)
  {
    hide Inv, Run, Lex, LastChar, WordsPlain, Works, MaybeNumber, Valid, CanParse, Tokens, Closing;
    var c := Closing(s.stack);
    ClosingPlain(s.stack);
    Symbols(c);
    LastToken(x.tokens, s);
    LastCharWhole(x);
    ScalarCloses(s, ONE);
    TokensParse(x, s, [ONE] + c);
    ScalarCloses(s, Str(marker));
    assert [] + [Str(marker)] + c == [Str(marker)] + c;
    NewWorks(x, x, s, [], c, marker);
    assert [] + [Quote, Mark(marker)] == [Quote, Mark(marker)];
  }

  // A finished element: a comma and the marker follow, unless it may be an unfinished number.
  lemma {:induction false} ArrayElement(x: Input, s: PState, marker: string)
    requires WordsPlain(x) && Run(START, x.tokens) == Some(s) && Inv(s) && s.stack != [] && Top(s.stack).Array? && x.tokens != [] && x.tail.Whole?
    requires s.awaits.CommaOrClose?
    ensures Works(x, HealArray(x, marker, Tokens(Closing(s.stack))), marker)
    ensures Keeps(x, HealArray(x, marker, Tokens(Closing(s.stack))), !MaybeNumber(x))
  {
    hide Inv, Run, Lex, LastChar, WordsPlain, Works, MaybeNumber, Valid, CanParse, Tokens, Closing, CutBack, StackOk;
    var c := Closing(s.stack);
    ClosingPlain(s.stack);
    Symbols(c);
    LastToken(x.tokens, s);
    LastCharWhole(x);
    QuoteFails(x, c);
    if MaybeNumber(x) {
      BeforeWord(x.tokens, s);
      CutWorks(x, s, OpensElement, marker);
    } else {
      CommaCloses(s, "", ONE);
      TokensParse(x, s, [Comma, ONE] + c);
      CommaCloses(s, "", Str(marker));
      assert [Comma] + [Str(marker)] + c == [Comma, Str(marker)] + c;
      NewWorks(x, x, s, [Comma], c, marker);
      assert [T(Comma)] + [Quote, Mark(marker)] == [T(Comma), Quote, Mark(marker)];
    }
  }

  lemma {:induction false} ArrayWord(x: Input, s: PState, marker: string)
    requires Run(START, x.tokens) == Some(s) && Inv(s) && s.stack != [] && Top(s.stack).Array? && x.tail.InWord? && x.tokens != []
    requires s.awaits.Value? || s.awaits.ValueOrClose?
    ensures Works(x, HealArray(x, marker, Tokens(Closing(s.stack))), marker)
    ensures Keeps(x, HealArray(x, marker, Tokens(Closing(s.stack))), false)
  {
    hide Inv, Run, Lex, LastChar, Works, CanParse, CutBack, MaybeNumber;
    NothingParses(x);
    LastToken(x.tokens, s);
    CutWorks(x, s, OpensElement, marker);
  }

  lemma {:induction false} ArrayWorks(x: Input, s: PState, marker: string)
    requires Viable(x) && WordsPlain(x) && Run(START, x.tokens) == Some(s) && Inv(s) && s.stack != [] && Top(s.stack).Array? && x.tokens != []
    ensures Works(x, HealArray(x, marker, Tokens(Closing(s.stack))), marker)
    ensures Keeps(x, HealArray(x, marker, Tokens(Closing(s.stack))), !x.tail.InWord? && !(x.tail.Whole? && MaybeNumber(x)))
  {
    assert s.awaits.Value? || s.awaits.ValueOrClose? || s.awaits.CommaOrClose?;
    hide Inv, Run, WordsPlain, Works, HealArray;
    match x.tail
    case Whole(space) => if s.awaits.CommaOrClose? { ArrayElement(x, s, marker); } else { ArrayValue(x, s, marker); }
    case InWord(p) => ArrayWord(x, s, marker);
    case _ => ArrayOpen(x, s, marker);
  }

  lemma {:induction false} ObjectOpen(x: Input, s: PState, marker: string)
    requires Run(START, x.tokens) == Some(s) && Inv(s) && (s.awaits.KeyOrClose? || s.awaits.KeyOnly?) && (x.tail.InString? || x.tail.InEscape?) && x.tokens != []
    ensures Works(x, HealObject(x, marker, Tokens(Closing(s.stack))), marker)
    ensures Keeps(x, HealObject(x, marker, Tokens(Closing(s.stack))), true)
  {
    hide Inv, Run, Lex, LastChar, Works, Valid, CanParse, EndsWithBackslash, Tokens, Closing, MaybeNumber;
    var c := Closing(s.stack);
    ClosingPlain(s.stack);
    Symbols(c);
    var pair := [Colon, ONE] + c;
    OnlyQuote(x, c);
    OnlyQuote(x, pair);
    PairNeverOpens(x, pair);
    PairCloses(s, Held(x.tail), ONE);
    assert [Str(Held(x.tail))] + pair == [Str(Held(x.tail)), Colon, ONE] + c;
    Completed(x.tokens, s, [Str(Held(x.tail))] + pair);
    Assoc(x.tokens, [Str(Held(x.tail))], pair);
    PairCloses(s, Held(x.tail) + marker, ONE);
    assert [Str(Held(x.tail) + marker)] + pair == [Str(Held(x.tail) + marker), Colon, ONE] + c;
    NotComma(x);
    OpenWorks(x, s, pair, marker);
  }

  // Inside a string, two quotes in a row cannot help, and behind a backslash the last character is that.
  lemma {:induction false} PairNeverOpens(x: Input, us: seq<Token>)
    requires x.tail.InString? || x.tail.InEscape?
    ensures x.tail.InString? ==> !CanParse(x, [Quote, Quote] + Tokens(us))
  {
    hide Lex, Valid;
    if x.tail.InString? { TwoQuotesInside(x.tokens, x.tail.raw, us); }
  }

  lemma {:induction false} NotComma(x: Input)
    ensures x.tail.InEscape? ==> LastChar(x) == '\\'
  {
  }

  lemma {:induction false} ObjectKey(x: Input, s: PState, marker: string)
    requires WordsPlain(x) && Run(START, x.tokens) == Some(s) && Inv(s) && s.stack != [] && Top(s.stack).Object? && x.tokens != [] && x.tail.Whole?
    requires s.awaits.KeyOrClose? || s.awaits.KeyOnly?
    ensures Works(x, HealObject(x, marker, Tokens(Closing(s.stack))), marker)
    ensures Keeps(x, HealObject(x, marker, Tokens(Closing(s.stack))), true)
  {
    hide Inv, Run, Lex, LastChar, WordsPlain, Works, MaybeNumber, Valid, CanParse, Tokens, Closing;
    var c := Closing(s.stack);
    ClosingPlain(s.stack);
    Symbols(c);
    var pair := [Colon, ONE] + c;
    LastToken(x.tokens, s);
    LastCharWhole(x);
    if s.awaits.KeyOrClose? {
      EmptyObjectCloses(s);
      TokensParse(x, s, c);
    } else {
      PairCloses(s, "", ONE);
      EmptyKeyParses(x, s, pair, c);
    }
    PairCloses(s, marker, ONE);
    assert [] + [Str(marker)] + pair == [Str(marker), Colon, ONE] + c;
    NewWorks(x, x, s, [], pair, marker);
    assert [] + [Quote, Mark(marker)] == [Quote, Mark(marker)];
  }

  lemma {:induction false} EmptyKeyParses(x: Input, s: PState, pair: seq<Token>, c: seq<Token>)
    requires x.tail.Whole? && Run(START, x.tokens) == Some(s) && pair == [Colon, ONE] + c
    requires Run(s, [Str(""), Colon, ONE] + c) == Some(PState([], End))
    ensures CanParse(x, [Quote, Quote] + Tokens(pair))
  {
    hide Run, Lex;
    TryOutside(x.tokens, x.tail.space, pair);
    assert [Str("")] + pair == [Str(""), Colon, ONE] + c;
    Completed(x.tokens, s, [Str("")] + pair);
    Assoc(x.tokens, [Str("")], pair);
  }

  lemma {:induction false} CommaKeyParses(x: Input, s: PState, pair: seq<Token>, c: seq<Token>)
    requires x.tail.Whole? && Run(START, x.tokens) == Some(s) && pair == [Colon, ONE] + c
    requires Run(s, [Comma, Str(""), Colon, ONE] + c) == Some(PState([], End))
    ensures CanParse(x, Tokens([Comma]) + ([Quote, Quote] + Tokens(pair)))
  {
    hide Run, Lex, Tokens;
    var ts := x.tokens + [Comma];
    LexGlue(x.tokens, x.tail.space, [Comma], [Quote, Quote] + Tokens(pair));
    TryOutside(ts, false, pair);
    assert [Comma, Str("")] + pair == [Comma, Str(""), Colon, ONE] + c;
    Completed(x.tokens, s, [Comma, Str("")] + pair);
    assert x.tokens + ([Comma, Str("")] + pair) == ts + [Str("")] + pair;
  }

  // A finished member: a comma and a marked key follow, unless it may be an unfinished number.
  lemma {:induction false} ObjectMember(x: Input, s: PState, marker: string)
    requires WordsPlain(x) && Run(START, x.tokens) == Some(s) && Inv(s) && s.stack != [] && Top(s.stack).Object? && x.tokens != [] && x.tail.Whole?
    requires s.awaits.CommaOrClose?
    ensures Works(x, HealObject(x, marker, Tokens(Closing(s.stack))), marker)
    ensures Keeps(x, HealObject(x, marker, Tokens(Closing(s.stack))), !MaybeNumber(x))
  {
    hide Inv, Run, Lex, LastChar, WordsPlain, Works, MaybeNumber, Valid, CanParse, Tokens, Closing, CutBack, StackOk;
    var c := Closing(s.stack);
    ClosingPlain(s.stack);
    Symbols(c);
    var pair := [Colon, ONE] + c;
    LastToken(x.tokens, s);
    LastCharWhole(x);
    QuoteFails(x, pair);
    if MaybeNumber(x) {
      BeforeWord(x.tokens, s);
      CutWorks(x, s, IsColon, marker);
    } else {
      CommaCloses(s, "", ONE);
      CommaKeyParses(x, s, pair, c);
      CommaCloses(s, marker, ONE);
      assert [Comma] + [Str(marker)] + pair == [Comma, Str(marker), Colon, ONE] + c;
      NewWorks(x, x, s, [Comma], pair, marker);
      assert [T(Comma)] + [Quote, Mark(marker)] == [T(Comma), Quote, Mark(marker)];
    }
  }

  lemma {:induction false} ObjectWorks(x: Input, s: PState, marker: string)
    requires Viable(x) && WordsPlain(x) && Run(START, x.tokens) == Some(s) && Inv(s) && s.stack != [] && Top(s.stack).Object? && x.tokens != []
    ensures Works(x, HealObject(x, marker, Tokens(Closing(s.stack))), marker)
    ensures Keeps(x, HealObject(x, marker, Tokens(Closing(s.stack))), !x.tail.InWord? && !(x.tail.Whole? && MaybeNumber(x)))
  {
    assert s.awaits.KeyOrClose? || s.awaits.KeyOnly? || s.awaits.CommaOrClose?;
    hide Inv, Run, WordsPlain, Works, HealObject;
    match x.tail
    case Whole(space) => if s.awaits.CommaOrClose? { ObjectMember(x, s, marker); } else { ObjectKey(x, s, marker); }
    case InWord(p) => assert false;
    case _ => ObjectOpen(x, s, marker);
  }

  // Main result: inside a container healing always succeeds.
  lemma {:induction false} HealingWorks(x: Input, marker: string)
    requires Viable(x) && WordsPlain(x) && Run(START, x.tokens).value.stack != []
    ensures Works(x, Heal(x, Run(START, x.tokens).value.stack, marker), marker)
    ensures x.tokens != [] && Keeps(x, Heal(x, Run(START, x.tokens).value.stack, marker), !x.tail.InWord? && !(x.tail.Whole? && MaybeNumber(x)))
  {
    var s := Run(START, x.tokens).value;
    StartOk();
    RunKeepsInv(START, x.tokens);
    if x.tokens == [] { EmptyRun(); }
    hide Run, Inv, Works, HealKey, HealArray, HealObject, WordsPlain;
    match Top(s.stack)
    case Key(_) => KeyWorks(x, s, marker);
    case Array => ArrayWorks(x, s, marker);
    case Object => ObjectWorks(x, s, marker);
  }

  // Outside every container only an open string can be healed.
  lemma {:induction false} TopLevelExact(x: Input, marker: string)
    requires Viable(x) && Run(START, x.tokens).value.stack == [] && !Valid(x.tokens)
    ensures Heal(x, [], marker).Heals? <==> x.tail.InString? || x.tail.InEscape?
    ensures Heal(x, [], marker).Heals? ==> Works(x, Heal(x, [], marker), marker)
  {
    var s := Run(START, x.tokens).value;
    StartOk();
    RunKeepsInv(START, x.tokens);
    hide Run, Works, CanParse, Lex, Valid;
    assert Tokens([]) == [] && [Quote] + [] == [Quote] && [Backslash, Quote] + [] == [Backslash, Quote] && Closing([]) == [];
    match x.tail
    case Whole(space) => QuoteFails(x, []);
    case InWord(p) => NothingParses(x);
    case _ =>
      OnlyQuote(x, []);
      ScalarCloses(s, Str(Held(x.tail)));
      assert [Str(Held(x.tail))] + [] == [Str(Held(x.tail))] && [Str(Held(x.tail) + marker)] + [] == [Str(Held(x.tail) + marker)];
      Completed(x.tokens, s, [Str(Held(x.tail))] + []);
      Assoc(x.tokens, [Str(Held(x.tail))], []);
      ScalarCloses(s, Str(Held(x.tail) + marker));
      OpenWorks(x, s, [], marker);
  }
}
