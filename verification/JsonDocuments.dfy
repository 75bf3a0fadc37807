/** JSON documents as trees.  The parser accepts exactly their token lists, so healing turns every
    document cut inside a container into a document. */
module JsonDocuments {
  import opened Basics
  import opened JsonHeal
  import opened JsonHealing

  datatype Json = Leaf(scalar: Token) | Obj(members: seq<Member>) | Arr(items: seq<Json>)
  datatype Member = Member(key: string, value: Json)

  predicate WellFormed(j: Json)
    decreases j
  {
    match j
    case Leaf(t) => Scalar(t)
    case Obj(ms) => forall i :: 0 <= i < |ms| ==> WellFormed(ms[i].value)
    case Arr(js) => forall i :: 0 <= i < |js| ==> WellFormed(js[i])
  }

  function Text(j: Json): seq<Token>
    decreases j
  {
    match j
    case Leaf(t) => [t]
    case Obj(ms) => [LBrace] + MembersText(ms, []) + [RBrace]
    case Arr(js) => [LBracket] + ItemsText(js, []) + [RBracket]
  }

  // The members with `sep` in front of the first and commas between.
  function MembersText(ms: seq<Member>, sep: seq<Token>): seq<Token>
    decreases ms
  {
    if ms == [] then [] else sep + MemberText(ms[0]) + MembersText(ms[1..], [Comma])
  }

  function MemberText(m: Member): seq<Token>
    decreases m
  {
    [Str(m.key), Colon] + Text(m.value)
  }

  function ItemsText(js: seq<Json>, sep: seq<Token>): seq<Token>
    decreases js
  {
    if js == [] then [] else sep + Text(js[0]) + ItemsText(js[1..], [Comma])
  }

  // ---------- every document is accepted ----------

  lemma {:induction false} TreeRuns(j: Json, s: PState, rest: seq<Token>)
    requires WellFormed(j) && (s.awaits.Value? || s.awaits.ValueOrClose?)
    ensures Run(s, Text(j) + rest) == Run(AfterValue(s.stack), rest)
    decreases j, 1
  {
    match j
    case Leaf(t) => RunCons(s, t, rest, AfterValue(s.stack));
    case Obj(ms) => ObjectRuns(ms, s, rest);
    case Arr(js) => ArrayRuns(js, s, rest);
  }

  lemma {:induction false} PushPop(stack: seq<Element>, e: Element)
    ensures Pop(stack + [e]) == stack && Top(stack + [e]) == e
    ensures !e.Key? ==> AfterValue(stack + [e]) == PState(stack + [e], CommaOrClose)
    ensures e.Key? ==> AfterValue(stack + [e]) == PState(stack, if stack == [] then End else CommaOrClose)
  {
  }

  lemma {:induction false} ObjectRuns(ms: seq<Member>, s: PState, rest: seq<Token>)
    requires (forall i :: 0 <= i < |ms| ==> WellFormed(ms[i].value)) && (s.awaits.Value? || s.awaits.ValueOrClose?)
    ensures Run(s, [LBrace] + MembersText(ms, []) + [RBrace] + rest) == Run(AfterValue(s.stack), rest)
    decreases ms, 1
  {
    hide Run, MembersText, WellFormed;
    var s1 := PState(s.stack + [Object], KeyOrClose);
    PushPop(s.stack, Object);
    var body := MembersText(ms, []);
    assert [LBrace] + body + [RBrace] + rest == [LBrace] + (body + ([RBrace] + rest));
    RunCons(s, LBrace, body + ([RBrace] + rest), s1);
    MembersRun(ms, s1, [], rest);
  }

  lemma {:induction false} MembersRun(ms: seq<Member>, s: PState, sep: seq<Token>, rest: seq<Token>)
    requires forall i :: 0 <= i < |ms| ==> WellFormed(ms[i].value)
    requires s.stack != [] && Top(s.stack).Object?
    requires (sep == [] && s.awaits.KeyOrClose?) || (sep == [Comma] && s.awaits.CommaOrClose?)
    ensures Run(s, MembersText(ms, sep) + ([RBrace] + rest)) == Run(AfterValue(Pop(s.stack)), rest)
    decreases ms, 0
  {
    hide Run, WellFormed, Text;
    var end := [RBrace] + rest;
    if ms == [] {
      assert [] + end == end;
      RunCons(s, RBrace, rest, AfterValue(Pop(s.stack)));
    } else {
      var m, tail := ms[0], MembersText(ms[1..], [Comma]) + end;
      var s1 := if sep == [] then s else PState(s.stack, KeyOnly);
      var s2, s3 := PState(s.stack + [Key(m.key)], ColonNext), PState(s.stack + [Key(m.key)], Value);
      var s4 := PState(s.stack, CommaOrClose);
      var all := [Str(m.key)] + ([Colon] + (Text(m.value) + tail));
      assert MembersText(ms, sep) + end == sep + all;
      if sep == [] { assert [] + all == all; } else { RunCons(s, Comma, all, s1); }
      RunCons(s1, Str(m.key), [Colon] + (Text(m.value) + tail), s2);
      RunCons(s2, Colon, Text(m.value) + tail, s3);
      TreeRuns(m.value, s3, tail);
      PushPop(s.stack, Key(m.key));
      MembersRun(ms[1..], s4, [Comma], rest);
    }
  }

  lemma {:induction false} ArrayRuns(js: seq<Json>, s: PState, rest: seq<Token>)
    requires (forall i :: 0 <= i < |js| ==> WellFormed(js[i])) && (s.awaits.Value? || s.awaits.ValueOrClose?)
    ensures Run(s, [LBracket] + ItemsText(js, []) + [RBracket] + rest) == Run(AfterValue(s.stack), rest)
    decreases js, 1
  {
    hide Run, ItemsText, WellFormed;
    var s1 := PState(s.stack + [Array], ValueOrClose);
    PushPop(s.stack, Array);
    var body := ItemsText(js, []);
    assert [LBracket] + body + [RBracket] + rest == [LBracket] + (body + ([RBracket] + rest));
    RunCons(s, LBracket, body + ([RBracket] + rest), s1);
    ItemsRun(js, s1, [], rest);
  }

  lemma {:induction false} ItemsRun(js: seq<Json>, s: PState, sep: seq<Token>, rest: seq<Token>)
    requires forall i :: 0 <= i < |js| ==> WellFormed(js[i])
    requires s.stack != [] && Top(s.stack).Array?
    requires (sep == [] && s.awaits.ValueOrClose?) || (sep == [Comma] && s.awaits.CommaOrClose?)
    ensures Run(s, ItemsText(js, sep) + ([RBracket] + rest)) == Run(AfterValue(Pop(s.stack)), rest)
    decreases js, 0
  {
    hide Run, WellFormed, Text;
    var end := [RBracket] + rest;
    if js == [] {
      assert [] + end == end;
      RunCons(s, RBracket, rest, AfterValue(Pop(s.stack)));
    } else {
      var tail := ItemsText(js[1..], [Comma]) + end;
      var s1 := if sep == [] then s else PState(s.stack, Value);
      var s2 := PState(s.stack, CommaOrClose);
      assert ItemsText(js, sep) + end == sep + (Text(js[0]) + tail);
      if sep == [] { assert [] + (Text(js[0]) + tail) == Text(js[0]) + tail; } else { RunCons(s, Comma, Text(js[0]) + tail, s1); }
      TreeRuns(js[0], s1, tail);
      assert AfterValue(s.stack) == s2;
      ItemsRun(js[1..], s2, [Comma], rest);
    }
  }

  // ---------- everything accepted is a document ----------

  const DONE := PState([], End)

  lemma {:induction false} RunHead(s: PState, ts: seq<Token>)
    requires Run(s, ts) == Some(DONE) && s != DONE
    ensures ts != [] && Step(s, ts[0]).Some? && Run(Step(s, ts[0]).value, ts[1..]) == Some(DONE) && ts == [ts[0]] + ts[1..]
  {
  }

  // Reads one value off the front.
  lemma {:induction false} ParseValue(s: PState, ts: seq<Token>) returns (j: Json, rest: seq<Token>)
    requires Run(s, ts) == Some(DONE) && (s.awaits.Value? || (s.awaits.ValueOrClose? && (ts == [] || !ts[0].RBracket?)))
    ensures WellFormed(j) && ts == Text(j) + rest && Run(AfterValue(s.stack), rest) == Some(DONE)
    decreases |ts|, 1
  {
    hide Run, AfterValue;
    RunHead(s, ts);
    if ts[0].LBrace? {
      var ms: seq<Member>;
      ms, rest := ParseObject(s, ts);
      j := Obj(ms);
    } else if ts[0].LBracket? {
      var js: seq<Json>;
      js, rest := ParseArray(s, ts);
      j := Arr(js);
    } else {
      j, rest := Leaf(ts[0]), ts[1..];
    }
  }

  lemma {:induction false} ParseObject(s: PState, ts: seq<Token>) returns (ms: seq<Member>, rest: seq<Token>)
    requires Run(s, ts) == Some(DONE) && (s.awaits.Value? || s.awaits.ValueOrClose?) && ts != [] && ts[0].LBrace?
    ensures forall i :: 0 <= i < |ms| ==> WellFormed(ms[i].value)
    ensures ts == [LBrace] + MembersText(ms, []) + [RBrace] + rest && Run(AfterValue(s.stack), rest) == Some(DONE)
    decreases |ts|, 0
  {
    hide Run, AfterValue, WellFormed, MembersText;
    RunHead(s, ts);
    var s1 := PState(s.stack + [Object], KeyOrClose);
    PushPop(s.stack, Object);
    ms, rest := ParseMembers(s1, ts[1..], []);
    assert [LBrace] + (MembersText(ms, []) + ([RBrace] + rest)) == [LBrace] + MembersText(ms, []) + [RBrace] + rest;
  }

  // Members up to the closing brace.
  lemma {:induction false} ParseMembers(s: PState, ts: seq<Token>, sep: seq<Token>) returns (ms: seq<Member>, rest: seq<Token>)
    requires Run(s, ts) == Some(DONE) && s.stack != [] && Top(s.stack).Object?
    requires (sep == [] && s.awaits.KeyOrClose?) || (sep == [Comma] && s.awaits.CommaOrClose?)
    ensures forall i :: 0 <= i < |ms| ==> WellFormed(ms[i].value)
    ensures ts == MembersText(ms, sep) + ([RBrace] + rest) && Run(AfterValue(Pop(s.stack)), rest) == Some(DONE)
    decreases |ts|, 1
  {
    hide Run, WellFormed, Text;
    RunHead(s, ts);
    if ts[0].RBrace? {
      ms, rest := [], ts[1..];
      assert [] + ([RBrace] + rest) == [RBrace] + rest;
    } else {
      var s1, us := s, ts;
      if sep == [Comma] {
        s1, us := PState(s.stack, KeyOnly), ts[1..];
      }
      var m, r1 := ParseMember(s1, us);
      var more: seq<Member>;
      more, rest := ParseMembers(PState(s.stack, CommaOrClose), r1, [Comma]);
      ms := [m] + more;
      assert ms[1..] == more;
      assert us == MemberText(m) + (MembersText(more, [Comma]) + ([RBrace] + rest));
      assert ts == sep + us;
      MembersJoin(m, more, sep, [RBrace] + rest);
    }
  }

  lemma {:induction false} MembersJoin(m: Member, more: seq<Member>, sep: seq<Token>, end: seq<Token>)
    ensures MembersText([m] + more, sep) + end == sep + (MemberText(m) + (MembersText(more, [Comma]) + end))
  {
    assert ([m] + more)[1..] == more;
    hide MemberText;
  }

  lemma {:induction false} ParseMember(s: PState, ts: seq<Token>) returns (m: Member, rest: seq<Token>)
    requires Run(s, ts) == Some(DONE) && s.stack != [] && Top(s.stack).Object? && (s.awaits.KeyOrClose? || s.awaits.KeyOnly?)
    requires s.awaits.KeyOrClose? ==> ts != [] && !ts[0].RBrace?
    ensures WellFormed(m.value) && ts == MemberText(m) + rest && |rest| < |ts| && Run(PState(s.stack, CommaOrClose), rest) == Some(DONE)
    decreases |ts|, 0
  {
    hide Run, WellFormed;
    RunHead(s, ts);
    var k := ts[0].raw;
    var s1, s2 := PState(s.stack + [Key(k)], ColonNext), PState(s.stack + [Key(k)], Value);
    PushPop(s.stack, Key(k));
    RunHead(s1, ts[1..]);
    assert ts[1..][1..] == ts[2..] && ts == [Str(k), Colon] + ts[2..];
    var v: Json;
    v, rest := ParseValue(s2, ts[2..]);
    m := Member(k, v);
    assert ts == [Str(k), Colon] + Text(v) + rest;
  }

  lemma {:induction false} ParseArray(s: PState, ts: seq<Token>) returns (js: seq<Json>, rest: seq<Token>)
    requires Run(s, ts) == Some(DONE) && (s.awaits.Value? || s.awaits.ValueOrClose?) && ts != [] && ts[0].LBracket?
    ensures forall i :: 0 <= i < |js| ==> WellFormed(js[i])
    ensures ts == [LBracket] + ItemsText(js, []) + [RBracket] + rest && Run(AfterValue(s.stack), rest) == Some(DONE)
    decreases |ts|, 0
  {
    hide Run, AfterValue, WellFormed, ItemsText;
    RunHead(s, ts);
    PushPop(s.stack, Array);
    js, rest := ParseItems(PState(s.stack + [Array], ValueOrClose), ts[1..], []);
    assert [LBracket] + (ItemsText(js, []) + ([RBracket] + rest)) == [LBracket] + ItemsText(js, []) + [RBracket] + rest;
  }

  lemma {:induction false} ParseItems(s: PState, ts: seq<Token>, sep: seq<Token>) returns (js: seq<Json>, rest: seq<Token>)
    requires Run(s, ts) == Some(DONE) && s.stack != [] && Top(s.stack).Array?
    requires (sep == [] && s.awaits.ValueOrClose?) || (sep == [Comma] && s.awaits.CommaOrClose?)
    ensures forall i :: 0 <= i < |js| ==> WellFormed(js[i])
    ensures ts == ItemsText(js, sep) + ([RBracket] + rest) && Run(AfterValue(Pop(s.stack)), rest) == Some(DONE)
    decreases |ts|, 2
  {
    hide Run, WellFormed, Text;
    RunHead(s, ts);
    if ts[0].RBracket? {
      js, rest := [], ts[1..];
      assert [] + ([RBracket] + rest) == [RBracket] + rest;
    } else {
      var s1, us := s, ts;
      if sep == [Comma] {
        s1, us := PState(s.stack, Value), ts[1..];
      }
      var j, r1 := ParseValue(s1, us);
      TextLonger(j);
      assert AfterValue(s1.stack) == PState(s.stack, CommaOrClose);
      var more: seq<Json>;
      more, rest := ParseItems(PState(s.stack, CommaOrClose), r1, [Comma]);
      js := [j] + more;
      assert ts == sep + us;
      ItemsJoin(j, more, sep, [RBracket] + rest);
    }
  }

  lemma {:induction false} TextLonger(j: Json)
    ensures |Text(j)| > 0
  {
  }

  lemma {:induction false} ItemsJoin(j: Json, more: seq<Json>, sep: seq<Token>, end: seq<Token>)
    ensures ItemsText([j] + more, sep) + end == sep + (Text(j) + (ItemsText(more, [Comma]) + end))
  {
    assert ([j] + more)[1..] == more;
    hide Text;
  }

  // The parser accepts exactly the documents.
  ghost predicate IsDocument(ts: seq<Token>) { exists j :: WellFormed(j) && Text(j) == ts }

  lemma {:induction false} ValidIsDocument(ts: seq<Token>)
    ensures Valid(ts) <==> IsDocument(ts)
  {
    hide Run;
    if Valid(ts) {
      var j, rest := ParseValue(START, ts);
      assert AfterValue([]) == DONE;
      NothingAfter(rest);
      assert Text(j) + [] == Text(j);
    }
    if j :| WellFormed(j) && Text(j) == ts {
      TreeRuns(j, START, []);
      assert Text(j) + [] == ts;
      RunsNowhere(AfterValue([]));
    }
  }

  lemma {:induction false} NothingAfter(ts: seq<Token>)
    requires Run(DONE, ts) == Some(DONE)
    ensures ts == []
  {
  }

  lemma {:induction false} RunsNowhere(s: PState)
    ensures Run(s, []) == Some(s)
  {
  }

  // ---------- cutting a document ----------

  // The document cut behind `k` tokens, inside the next token, or in the middle of a number that
  // reads as a shorter one.
  ghost predicate CutOf(ts: seq<Token>, x: Input) {
    exists k :: CutAt(ts, x, k)
  }

  ghost predicate CutAt(ts: seq<Token>, x: Input, k: int) {
    && 0 <= k < |ts|
    && match x.tail
       case Whole(space) => x.tokens == ts[..k] || (!space && ts[k].Word? && exists w :: x.tokens == ts[..k] + [Word(w)])
       case InWord(_) => x.tokens == ts[..k] && ts[k].Word?
       case _ => x.tokens == ts[..k] && ts[k].Str?
  }

  lemma {:induction false} CutIsViable(ts: seq<Token>, x: Input)
    requires Valid(ts) && CutOf(ts, x)
    ensures Viable(x)
  {
    var k :| CutAt(ts, x, k);
    assert ts == ts[..k] + ts[k..] && ts[k..] == [ts[k]] + ts[k + 1..];
    RunConcat(START, ts[..k], ts[k..]);
    var s := Run(START, ts[..k]).value;
    RunHeadAny(s, ts[k..]);
    if x.tokens != ts[..k] {
      var w :| x.tokens == ts[..k] + [Word(w)];
      RunConcat(START, ts[..k], [Word(w)]);
      RunOne(s, Word(w));
    }
  }

  lemma {:induction false} RunHeadAny(s: PState, ts: seq<Token>)
    requires Run(s, ts).Some? && ts != []
    ensures Step(s, ts[0]).Some?
  {
  }

  // Main result: a document cut anywhere inside a container heals to a document with one marker.
  lemma {:induction false} DocumentHeals(j: Json, x: Input, marker: string)
    requires WellFormed(j) && CutOf(Text(j), x) && WordsPlain(x)
    ensures Run(START, x.tokens).Some?
    ensures var stack := Run(START, x.tokens).value.stack;
            stack != [] ==>
              var o := Heal(x, stack, marker);
              && o.Heals? && GivesBack(x, o.h.kept) && HealedTokens(o.h).Some?
              && IsDocument(HealedTokens(o.h).value) && MarkedOnce(o.h, marker, HealedTokens(o.h).value)
  {
    hide Run, HealedTokens, Heal, MarkedOnce, GivesBack, CutOf, WordsPlain;
    ValidIsDocument(Text(j));
    CutIsViable(Text(j), x);
    ViableRuns(x);
    if Run(START, x.tokens).value.stack != [] {
      HealingWorks(x, marker);
      var o := Heal(x, Run(START, x.tokens).value.stack, marker);
      ValidIsDocument(HealedTokens(o.h).value);
    }
  }

  lemma {:induction false} ViableRuns(x: Input)
    requires Viable(x)
    ensures Run(START, x.tokens).Some?
  {
  }
}
