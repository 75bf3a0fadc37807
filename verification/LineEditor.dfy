/** The line editor on values: what each key does to a list of characters with a cursor and to the
    history, and what a finished line becomes. EditorObject keeps bytes, widths, two positions and the
    terminal column in step with it. */
module LineEditor {
  import opened Basics
  import opened Utf8

  // ---------- the editor as a list of characters ----------

  datatype View = View(chars: seq<Char>, pos: nat)

  // `viewing` is the entry shown; the entry after the last stands for the line set aside.
  datatype History = History(entries: seq<seq<Byte>>, viewing: Option<nat>, backup: seq<Byte>)

  // `special` remembers that the line was seen to end in a continuation or submit mark.
  datatype State = State(view: View, hist: History, special: bool)

  // `Complete` is a tab whose first candidate replaces the line; a tab without candidates is typed.
  datatype Key =
    | Left | Right | WordLeft | WordRight | Home | EndKey
    | Delete | Backspace | Insert(code: nat)
    | Up | Down | Ignored
    | Complete(line: seq<Byte>, cursor: Option<nat>)

  const NEWLINE: Byte := 10
  const SPACE: Byte := 32
  const SLASH: Byte := 47
  const BACKSLASH: Byte := 92

  predicate EndsMarked(line: seq<Byte>) {
    line != [] && (line[|line| - 1] == BACKSLASH || line[|line| - 1] == SLASH)
  }

  // The characters of a line from byte `i` on, as decoding cuts them.
  function CharsFrom(line: seq<Byte>, i: nat): seq<Char>
    requires i <= |line|
    decreases |line| - i
  {
    if i == |line| then [] else
      var n := Decode(line, i).1;
      [line[i..i + n]] + CharsFrom(line, i + n)
  }

  function CharsOf(line: seq<Byte>): seq<Char> { CharsFrom(line, 0) }

  // How many of the first `i` characters end at or before byte `limit`.
  function CountBefore(cs: seq<Char>, i: nat, limit: nat): (r: nat)
    requires i <= |cs|
    ensures r <= i
  {
    if i == 0 then 0 else CountBefore(cs, i - 1, limit) + if Offset(cs, i) <= limit then 1 else 0
  }

  // Where the cursor is put among the first `i` characters: at the given byte, or behind them.
  function Position(cs: seq<Char>, i: nat, cursor: Option<nat>): (r: nat)
    requires i <= |cs|
    ensures r <= i
  {
    if cursor.None? then i else CountBefore(cs, i, cursor.value)
  }

  function Shown(line: seq<Byte>, cursor: Option<nat>): View {
    var cs := CharsOf(line);
    View(cs, Position(cs, |cs|, cursor))
  }

  function CodeOf(c: Char): int { if c == [] then 0 else Decode(c, 0).0 }

  function SkipBack(cs: seq<Char>, k: nat, space: int -> bool, wanted: bool): (r: nat)
    requires k <= |cs|
    ensures r <= k
  {
    if k > 0 && space(CodeOf(cs[k - 1])) == wanted then SkipBack(cs, k - 1, space, wanted) else k
  }

  function SkipForward(cs: seq<Char>, k: nat, space: int -> bool, wanted: bool): (r: nat)
    requires k <= |cs|
    ensures k <= r <= |cs|
    decreases |cs| - k
  {
    if k < |cs| && space(CodeOf(cs[k])) == wanted then SkipForward(cs, k + 1, space, wanted) else k
  }

  function RemoveAt(cs: seq<Char>, k: nat): seq<Char>
    requires k < |cs|
  {
    cs[..k] + cs[k + 1..]
  }

  function InsertAt(cs: seq<Char>, k: nat, c: Char): seq<Char>
    requires k <= |cs|
  {
    cs[..k] + [c] + cs[k..]
  }

  // The history's two moves: the line to show, if any, and the history afterwards.
  function Older(h: History, line: seq<Byte>): (History, Option<seq<Byte>>) {
    var h1 := if h.viewing.None? then History(h.entries, Some(|h.entries|), line) else h;
    if h1.entries == [] then (h1, None)
    else
      var i := if h1.viewing.value > 0 then h1.viewing.value - 1 else 0;
      var h2 := h1.(viewing := Some(i));
      (h2, if i < |h.entries| then Some(h.entries[i]) else None)
  }

  function Newer(h: History): (History, Option<seq<Byte>>) {
    if h.viewing.None? || h.entries == [] then (h, None)
    else
      var i := h.viewing.value + 1;
      if i >= |h.entries| then (History(h.entries, None, []), Some(h.backup))
      else (h.(viewing := Some(i)), Some(h.entries[i]))
  }

  function AddLine(h: History, line: seq<Byte>): History {
    if line == [] then h
    else History(if h.entries == [] || h.entries[|h.entries| - 1] != line then h.entries + [line] else h.entries, None, [])
  }

  function Show(s: State, r: (History, Option<seq<Byte>>)): State {
    s.(view := if r.1.Some? then Shown(r.1.value, None) else s.view, hist := r.0)
  }

  predicate StateOk(s: State) { s.view.pos <= |s.view.chars| && (s.hist.viewing.Some? ==> s.hist.viewing.value <= |s.hist.entries|) }

  // What a key does to the view and the history.
  function Act(s: State, k: Key, space: int -> bool): (r: State)
    requires StateOk(s)
  {
    var cs, p := s.view.chars, s.view.pos;
    match k
    case Left => s.(view := View(cs, if p > 0 then p - 1 else p))
    case Right => s.(view := View(cs, if p < |cs| then p + 1 else p))
    case WordLeft => s.(view := View(cs, SkipBack(cs, SkipBack(cs, p, space, true), space, false)))
    case WordRight => s.(view := View(cs, SkipForward(cs, SkipForward(cs, SkipForward(cs, p, space, true), space, false), space, true)))
    case Home => s.(view := View(cs, 0))
    case EndKey => s.(view := View(cs, |cs|))
    case Delete => s.(view := if p < |cs| then View(RemoveAt(cs, p), p) else s.view)
    case Backspace => s.(view := if p > 0 then View(RemoveAt(cs, p - 1), p - 1) else s.view)
    case Insert(code) => s.(view := View(InsertAt(cs, p, Append(code)), p + 1))
    case Up => Show(s, Older(s.hist, Flat(cs)))
    case Down => Show(s, Newer(s.hist))
    case Ignored => s
    case Complete(line, cursor) => s.(view := Shown(line, cursor))
  }

  // A completion leaves the mark flag as it was; every other key looks at the line's end again.
  function Step(s: State, k: Key, space: int -> bool): (r: State)
    requires StateOk(s)
  {
    var t := Act(s, k, space);
    if k.Complete? then t else t.(special := EndsMarked(Flat(t.view.chars)))
  }

  // The text a line ends as, and whether more is wanted.
  function Ended(line: seq<Byte>, special: bool, multiline: bool, endOfStream: bool): (seq<Byte>, bool)
    requires special ==> line != []
  {
    if special then
      var shorter := line[..|line| - 1];
      if line[|line| - 1] == BACKSLASH then (shorter + [NEWLINE], !multiline)
      else (if shorter == [SPACE] then [] else shorter, false)
    else if endOfStream then (line, false)
    else (line + [NEWLINE], multiline)
  }

  // The end of a line: its text, whether more is wanted, and the history.
  function Finish(s: State, multiline: bool, endOfStream: bool): (seq<Byte>, bool, History)
    requires s.special ==> Flat(s.view.chars) != []
  {
    var out := Ended(Flat(s.view.chars), s.special, multiline, endOfStream);
    (out.0, out.1, if endOfStream || out.0 == [] then s.hist else AddLine(s.hist, WithoutNewline(out.0)))
  }

  function WithoutNewline(line: seq<Byte>): seq<Byte> {
    if line != [] && line[|line| - 1] == NEWLINE then line[..|line| - 1] else line
  }

  // Keys and lines from outside: code points up to the last, completions made of characters.
  ghost predicate KeyOk(k: Key) {
    (k.Insert? ==> k.code <= MAX_CODE) && (k.Complete? ==> WellFormed(k.line))
  }

  ghost predicate HistoryOk(h: History) {
    && (forall i :: 0 <= i < |h.entries| ==> WellFormed(h.entries[i]))
    && WellFormed(h.backup)
    && (h.viewing.Some? ==> h.viewing.value <= |h.entries|)
  }

  ghost predicate Good(s: State) { AllEncoded(s.view.chars) && s.view.pos <= |s.view.chars| && HistoryOk(s.hist) }

  // ---------- facts about lines ----------

  lemma {:induction false} CharsFromStep(line: seq<Byte>, i: nat)
    requires i < |line|
    ensures var n := Decode(line, i).1; CharsFrom(line, i) == [line[i..i + n]] + CharsFrom(line, i + n)
  {
    hide Decode;
  }

  lemma {:induction false} CharsFromEnd(line: seq<Byte>)
    ensures CharsFrom(line, |line|) == []
  {
  }

  lemma {:induction false} SplitFirst(cs: seq<Char>, k: nat)
    requires k <= |cs|
    ensures if k < |cs| then cs[k..] == [cs[k]] + cs[k + 1..] else cs[k..] == []
  {
  }

  lemma {:induction false} CharsFromFlat(cs: seq<Char>, k: nat)
    requires AllEncoded(cs) && k <= |cs|
    ensures Offset(cs, k) <= |Flat(cs)| && CharsFrom(Flat(cs), Offset(cs, k)) == cs[k..]
    decreases |cs| - k
  {
    hide *;
    FlatWhole(cs, k);
    SplitFirst(cs, k);
    var line, i := Flat(cs), Offset(cs, k);
    if k == |cs| {
      CharsFromEnd(line);
    } else {
      DecodeAt(cs, k);
      FlatSplit(cs, k);
      CharsFromFlat(cs, k + 1);
      CharsFromStep(line, i);
      CharAt(cs, k);
    }
  }

  lemma {:induction false} CharAt(cs: seq<Char>, k: nat)
    requires k < |cs|
    ensures Offset(cs, k + 1) <= |Flat(cs)| && Offset(cs, k) <= Offset(cs, k + 1) && Flat(cs)[Offset(cs, k)..Offset(cs, k + 1)] == cs[k]
  {
    FlatSplit(cs, k);
    hide Flat;
    Middle(Flat(cs[..k]), cs[k], Flat(cs[k + 1..]));
  }

  lemma {:induction false} Middle(a: seq<Byte>, b: seq<Byte>, c: seq<Byte>)
    ensures (a + (b + c))[|a|..|a| + |b|] == b
  {
  }

  // A line of encoded characters is cut into exactly those characters.
  lemma {:induction false} CharsOfFlat(cs: seq<Char>)
    requires AllEncoded(cs)
    ensures CharsOf(Flat(cs)) == cs
  {
    CharsFromFlat(cs, 0);
    FlatWhole(cs, 0);
    assert cs[0..] == cs;
  }

  lemma {:induction false} CodeAt(cs: seq<Char>, k: nat)
    requires AllEncoded(cs) && k < |cs|
    ensures Offset(cs, k) < |Flat(cs)| && Decode(Flat(cs), Offset(cs, k)).0 == CodeOf(cs[k])
  {
    DecodeAt(cs, k);
    var code: nat :| code <= MAX_CODE && cs[k] == Append(code);
    DecodeAppended([], code, []);
    assert [] + (cs[k] + []) == cs[k];
  }

  // Every key keeps the line and the history well-formed.
  lemma {:induction false} StepKeepsGood(s: State, k: Key, space: int -> bool)
    requires Good(s) && KeyOk(k)
    ensures Good(Step(s, k, space))
  {
    hide Append, SkipBack, SkipForward, RemoveAt, InsertAt, Shown, Older, Newer, Flat, Show, EndsMarked, CountBefore;
    match k
    case Delete => if s.view.pos < |s.view.chars| { RemoveEncoded(s.view.chars, s.view.pos); }
    case Backspace => if s.view.pos > 0 { RemoveEncoded(s.view.chars, s.view.pos - 1); }
    case Insert(code) => InsertEncoded(s.view.chars, s.view.pos, Append(code));
    case Up =>
      assert WellFormed(Flat(s.view.chars));
      OlderOk(s.hist, Flat(s.view.chars));
      ShowKeeps(s, Older(s.hist, Flat(s.view.chars)));
    case Down => NewerOk(s.hist); ShowKeeps(s, Newer(s.hist));
    case Complete(line, cursor) => ShownEncoded(line, cursor);
    case Left =>
    case Right =>
    case WordLeft =>
    case WordRight =>
    case Home =>
    case EndKey =>
    case Ignored =>
  }

  lemma {:induction false} OlderOk(h: History, line: seq<Byte>)
    requires HistoryOk(h) && WellFormed(line)
    ensures var r := Older(h, line); HistoryOk(r.0) && (r.1.Some? ==> WellFormed(r.1.value))
  {
    hide WellFormed;
  }

  lemma {:induction false} NewerOk(h: History)
    requires HistoryOk(h)
    ensures var r := Newer(h); HistoryOk(r.0) && (r.1.Some? ==> WellFormed(r.1.value))
  {
    EmptyWellFormed();
    hide WellFormed;
  }

  // A number that is no code point is the one thing that must not be typed.
  lemma {:induction false} InsertExact(s: State, code: nat, space: int -> bool)
    requires Good(s)
    ensures Good(Step(s, Insert(code), space)) <==> code <= MAX_CODE
  {
    if code <= MAX_CODE {
      StepKeepsGood(s, Insert(code), space);
    } else {
      var t := InsertAt(s.view.chars, s.view.pos, Append(code));
      assert t[s.view.pos] == [];
      if Encoded([]) { EncodedShape([]); assert false; }
      hide Encoded, Flat, EndsMarked;
    }
  }

  lemma {:induction false} EmptyWellFormed()
    ensures WellFormed([])
  {
    assert AllEncoded([]) && Flat([]) == [];
  }

  lemma {:induction false} RemoveEncoded(cs: seq<Char>, k: nat)
    requires AllEncoded(cs) && k < |cs|
    ensures AllEncoded(RemoveAt(cs, k)) && |RemoveAt(cs, k)| == |cs| - 1
  {
    hide Encoded;
  }

  lemma {:induction false} InsertEncoded(cs: seq<Char>, k: nat, c: Char)
    requires AllEncoded(cs) && k <= |cs| && Encoded(c)
    ensures AllEncoded(InsertAt(cs, k, c)) && |InsertAt(cs, k, c)| == |cs| + 1
  {
    hide Encoded;
  }

  lemma {:induction false} ShownEncoded(line: seq<Byte>, cursor: Option<nat>)
    requires WellFormed(line)
    ensures AllEncoded(Shown(line, cursor).chars) && Flat(Shown(line, cursor).chars) == line && Shown(line, cursor).pos <= |Shown(line, cursor).chars|
  {
    var cs :| AllEncoded(cs) && line == Flat(cs);
    CharsOfFlat(cs);
  }

  lemma {:induction false} ShowKeeps(s: State, r: (History, Option<seq<Byte>>))
    requires Good(s) && HistoryOk(r.0) && (r.1.Some? ==> WellFormed(r.1.value))
    ensures Good(Show(s, r))
  {
    if r.1.Some? { ShownEncoded(r.1.value, None); }
  }

  function Run(s: State, ks: seq<Key>, space: int -> bool): (r: State)
    requires StateOk(s)
    decreases |ks|
  {
    if ks == [] then s
    else
      var t := Step(s, ks[0], space);
      if StateOk(t) then Run(t, ks[1..], space) else t
  }

  function Fresh(h: History): State { State(View([], 0), h, false) }

  // Whatever is typed into a new line, the line stays a list of characters, the cursor between them.
  lemma {:induction false} RunKeepsGood(s: State, ks: seq<Key>, space: int -> bool)
    requires Good(s) && forall i :: 0 <= i < |ks| ==> KeyOk(ks[i])
    ensures Good(Run(s, ks, space))
    decreases |ks|
  {
    if ks != [] {
      StepKeepsGood(s, ks[0], space);
      hide Step, KeyOk, HistoryOk, AllEncoded;
      RunKeepsGood(Step(s, ks[0], space), ks[1..], space);
    }
  }

  lemma {:induction false} FreshGood(h: History)
    requires HistoryOk(h)
    ensures Good(Fresh(h))
  {
  }

  // ---------- what the keys mean together ----------

  // Typing a character and deleting it backwards restores the view.
  lemma {:induction false} BackspaceUndoesInsert(s: State, code: nat, space: int -> bool)
    requires Good(s) && code <= MAX_CODE
    ensures StateOk(Step(s, Insert(code), space))
    ensures var t := Step(Step(s, Insert(code), space), Backspace, space); t.view == s.view && t.hist == s.hist
  {
    hide Flat, Append, EndsMarked, Encoded;
    InsertRemove(s.view.chars, s.view.pos, Append(code));
    hide InsertAt, RemoveAt;
  }

  lemma {:induction false} InsertRemove(cs: seq<Char>, k: nat, c: Char)
    requires k <= |cs|
    ensures |InsertAt(cs, k, c)| == |cs| + 1 && RemoveAt(InsertAt(cs, k, c), k) == cs
  {
  }

  // Deleting backwards is moving left and deleting forwards.
  lemma {:induction false} BackspaceIsLeftDelete(s: State, space: int -> bool)
    requires Good(s) && s.view.pos > 0
    ensures StateOk(Step(s, Left, space)) && Step(s, Backspace, space) == Step(Step(s, Left, space), Delete, space)
  {
    hide Flat, EndsMarked, RemoveAt;
  }

  lemma {:induction false} UpFromLine(s: State, space: int -> bool)
    requires Good(s) && s.hist.viewing.None? && s.hist.entries != []
    ensures Step(s, Up, space).hist == History(s.hist.entries, Some(|s.hist.entries| - 1), Flat(s.view.chars))
  {
    hide Flat, EndsMarked, Shown;
  }

  lemma {:induction false} UpAgain(s: State, space: int -> bool)
    requires Good(s) && s.hist.viewing.Some? && s.hist.viewing.value > 0
    ensures Step(s, Up, space).hist == s.hist.(viewing := Some(s.hist.viewing.value - 1))
  {
    hide Flat, EndsMarked, Shown;
  }

  lemma {:induction false} DownAgain(s: State, space: int -> bool)
    requires Good(s) && s.hist.viewing.Some? && s.hist.viewing.value + 1 < |s.hist.entries|
    ensures Step(s, Down, space).hist == s.hist.(viewing := Some(s.hist.viewing.value + 1))
  {
    hide Flat, EndsMarked, Shown;
  }

  lemma {:induction false} DownToLine(s: State, space: int -> bool)
    requires Good(s) && s.hist.viewing.Some? && s.hist.viewing.value + 1 == |s.hist.entries|
    ensures Step(s, Down, space).hist == History(s.hist.entries, None, [])
    ensures Step(s, Down, space).view.chars == CharsOf(s.hist.backup)
  {
    hide Flat, EndsMarked, CharsOf, Position;
  }

  // A finished line is the entry that looking back shows first.
  lemma {:induction false} LastLineFirst(h: History, line: seq<Byte>, current: seq<Byte>)
    requires line != []
    ensures Older(AddLine(h, line), current).1 == Some(line)
  {
  }

  function Presses(s: State, k: Key, n: nat, space: int -> bool): (r: State)
    requires StateOk(s)
    decreases n
  {
    if n == 0 then s
    else
      var t := Step(s, k, space);
      if StateOk(t) then Presses(t, k, n - 1, space) else t
  }

  lemma {:induction false} PressesStep(s: State, k: Key, n: nat, space: int -> bool)
    requires Good(s) && KeyOk(k)
    ensures var t := Step(s, k, space); Good(t) && Presses(s, k, 0, space) == s && Presses(s, k, n + 1, space) == Presses(t, k, n, space)
  {
    StepKeepsGood(s, k, space);
    hide Step, HistoryOk, AllEncoded;
  }

  lemma {:induction false} ManyUps(s: State, n: nat, space: int -> bool)
    requires Good(s) && s.hist.viewing.Some? && n <= s.hist.viewing.value
    ensures var t := Presses(s, Up, n, space); Good(t) && t.hist == s.hist.(viewing := Some(s.hist.viewing.value - n))
    decreases n
  {
    hide *;
    UpOk();
    GoodIsOk(s);
    if n == 0 {
      PressesStep(s, Up, 0, space);
    } else {
      PressesStep(s, Up, n - 1, space);
      UpAgain(s, space);
      ManyUps(Step(s, Up, space), n - 1, space);
    }
  }

  lemma {:induction false} UpOk()
    ensures KeyOk(Up) && KeyOk(Down)
  {
  }

  lemma {:induction false} ManyDowns(s: State, n: nat, space: int -> bool)
    requires Good(s) && s.hist.viewing.Some? && n > 0 && s.hist.viewing.value + n == |s.hist.entries|
    ensures var t := Presses(s, Down, n, space);
            t.hist == History(s.hist.entries, None, []) && t.view.chars == CharsOf(s.hist.backup)
    decreases n
  {
    hide *;
    UpOk();
    GoodIsOk(s);
    PressesStep(s, Down, n - 1, space);
    var t := Step(s, Down, space);
    if n > 1 {
      DownAgain(s, space);
      ManyDowns(t, n - 1, space);
    } else {
      DownToLine(s, space);
      PressesStep(t, Down, 0, space);
    }
  }

  // However far one goes back in the history, as many steps forward restore the edited line.
  lemma {:induction false} HistoryRestores(s: State, n: nat, space: int -> bool)
    requires Good(s) && s.hist.viewing.None? && 1 <= n <= |s.hist.entries|
    ensures var t := Presses(s, Up, n, space);
            StateOk(t) && Presses(t, Down, n, space).view.chars == s.view.chars
            && Presses(t, Down, n, space).hist == History(s.hist.entries, None, [])
  {
    hide *;
    UpOk();
    GoodIsOk(s);
    var u := Step(s, Up, space);
    PressesStep(s, Up, n - 1, space);
    GoodIsOk(u);
    UpFromLine(s, space);
    CharsOfFlat(s.view.chars);
    ManyUps(u, n - 1, space);
    var t := Presses(u, Up, n - 1, space);
    GoodIsOk(t);
    ManyDowns(t, n, space);
  }

  lemma {:induction false} GoodIsOk(s: State)
    requires Good(s)
    ensures StateOk(s) && AllEncoded(s.view.chars)
  {
  }

  // ---------- finishing a line ----------

  ghost predicate Settled(s: State) { s.special == EndsMarked(Flat(s.view.chars)) }

  lemma {:induction false} StepSettles(s: State, k: Key, space: int -> bool)
    requires StateOk(s) && !k.Complete?
    ensures Settled(Step(s, k, space))
  {
    hide Act, EndsMarked, Flat;
  }

  // The line has a last byte to look at, and ends as its own last byte says.
  ghost predicate FinishesRight(s: State, multiline: bool, endOfStream: bool) {
    var line := Flat(s.view.chars);
    && (s.special ==> line != [])
    && Finish(s, multiline, endOfStream).0 == Ended(line, EndsMarked(line), multiline, endOfStream).0
  }

  lemma {:induction false} RightIfSettled(s: State, multiline: bool, endOfStream: bool)
    ensures FinishesRight(s, multiline, endOfStream) <==> Settled(s)
  {
    hide Flat, AddLine;
  }

  // Cutting a line into characters loses nothing.
  lemma {:induction false} FlatCharsFrom(line: seq<Byte>, i: nat)
    requires i <= |line|
    ensures Flat(CharsFrom(line, i)) == line[i..]
    decreases |line| - i
  {
    if i == |line| {
      CharsFromEnd(line);
      assert Flat([]) == [];
    } else {
      var n := Decode(line, i).1;
      CharsFromStep(line, i);
      FlatCharsFrom(line, i + n);
      var c, rest := line[i..i + n], CharsFrom(line, i + n);
      assert ([c] + rest)[1..] == rest;
      assert c + line[i + n..] == line[i..];
    }
  }

  lemma {:induction false} ShownFlat(line: seq<Byte>, cursor: Option<nat>)
    ensures Flat(Shown(line, cursor).chars) == line
  {
    FlatCharsFrom(line, 0);
    assert line[0..] == line;
    hide Flat, CharsFrom, CountBefore;
  }

  // A completion finishes right exactly when the flag from before fits the completed line.
  lemma {:induction false} CompletionExact(s: State, line: seq<Byte>, cursor: Option<nat>, space: int -> bool, multiline: bool, endOfStream: bool)
    requires StateOk(s)
    ensures FinishesRight(Step(s, Complete(line, cursor), space), multiline, endOfStream) <==> s.special == EndsMarked(line)
  {
    ShownFlat(line, cursor);
    RightIfSettled(Step(s, Complete(line, cursor), space), multiline, endOfStream);
    hide Flat, Shown, EndsMarked, FinishesRight;
  }

  // The keys up to the last that is no completion.
  function Typed(ks: seq<Key>): (n: nat)
    ensures n <= |ks|
  {
    if ks == [] || !ks[|ks| - 1].Complete? then |ks| else Typed(ks[..|ks| - 1])
  }

  lemma {:induction false} RunSnoc(s: State, ks: seq<Key>, k: Key, space: int -> bool)
    requires Good(s) && (forall i :: 0 <= i < |ks| ==> KeyOk(ks[i])) && KeyOk(k)
    ensures Good(Run(s, ks, space)) && Run(s, ks + [k], space) == Step(Run(s, ks, space), k, space)
    decreases |ks|
  {
    RunKeepsGood(s, ks, space);
    StepKeepsGood(Run(s, ks, space), k, space);
    if ks == [] {
      assert ks + [k] == [k];
      hide Step, AllEncoded, HistoryOk;
      assert [k][1..] == [];
    } else {
      StepKeepsGood(s, ks[0], space);
      assert (ks + [k])[0] == ks[0] && (ks + [k])[1..] == ks[1..] + [k];
      hide Step, AllEncoded, HistoryOk, KeyOk;
      RunSnoc(Step(s, ks[0], space), ks[1..], k, space);
    }
  }

  // The flag describes the line as it was before the completions at the end.
  lemma {:induction false} FlagIs(s: State, ks: seq<Key>, space: int -> bool)
    requires Good(s) && Settled(s) && forall i :: 0 <= i < |ks| ==> KeyOk(ks[i])
    ensures Run(s, ks, space).special == EndsMarked(Flat(Run(s, ks[..Typed(ks)], space).view.chars))
    decreases |ks|
  {
    if ks == [] || !ks[|ks| - 1].Complete? {
      RunSettles(s, ks, space);
      assert ks[..Typed(ks)] == ks;
    } else {
      var less, k := ks[..|ks| - 1], ks[|ks| - 1];
      assert ks == less + [k];
      FlagIs(s, less, space);
      RunSnoc(s, less, k, space);
      assert ks[..Typed(ks)] == less[..Typed(less)];
      hide Run, EndsMarked, Flat, AllEncoded, HistoryOk;
    }
  }

  // Main result: whatever keys are pressed on a new line, it finishes right exactly when the last one is
  // no completion, or the completed line ends in a mark just as the line before the completions did.
  lemma {:induction false} FinishExact(h: History, ks: seq<Key>, space: int -> bool, multiline: bool, endOfStream: bool)
    requires HistoryOk(h) && forall i :: 0 <= i < |ks| ==> KeyOk(ks[i])
    ensures FinishesRight(Run(Fresh(h), ks, space), multiline, endOfStream)
            <==> (Typed(ks) == |ks|
                  || EndsMarked(ks[|ks| - 1].line) == EndsMarked(Flat(Run(Fresh(h), ks[..Typed(ks)], space).view.chars)))
  {
    FreshGood(h);
    FreshSettled(h);
    if Typed(ks) == |ks| {
      RunSettles(Fresh(h), ks, space);
      RightIfSettled(Run(Fresh(h), ks, space), multiline, endOfStream);
    } else {
      var less, k := ks[..|ks| - 1], ks[|ks| - 1];
      assert ks == less + [k];
      RunSnoc(Fresh(h), less, k, space);
      FlagIs(Fresh(h), less, space);
      assert ks[..Typed(ks)] == less[..Typed(less)];
      hide Run, EndsMarked, Flat, AllEncoded, HistoryOk, FinishesRight, Step;
      CompletionExact(Run(Fresh(h), less, space), k.line, k.cursor, space, multiline, endOfStream);
    }
  }

  lemma {:induction false} TypeSlash(h: History, space: int -> bool)
    requires h.viewing.None?
    ensures StateOk(Fresh(h)) && Step(Fresh(h), Insert(47), space) == State(View([[SLASH]], 1), h, true)
  {
    FlatOne([SLASH]);
    assert InsertAt([], 0, Append(47)) == [[SLASH]];
    hide Flat, InsertAt;
  }

  // Finishing right after a completion that the flag does not describe drops the completion's last byte.
  lemma {:induction false} CompletionLosesByte(h: History, space: int -> bool)
    requires h.viewing.None?
    ensures StateOk(Step(Fresh(h), Insert(47), space))
    ensures var s := Step(Step(Fresh(h), Insert(47), space), Complete([47, 97], None), space);
            && Flat(s.view.chars) == [47, 97] && s.special
            && Finish(s, false, false).0 == [47]
  {
    TypeSlash(h, space);
    TwoPlainChars();
    hide Flat, CharsOf, Append;
  }

  lemma {:induction false} TwoPlainChars()
    ensures CharsOf([47, 97]) == [[47], [97]] && Flat([[47], [97]]) == [47, 97]
  {
    var cs: seq<Char> := [[47], [97]];
    assert Append(47) == [47] && Append(97) == [97];
    assert Encoded(cs[0]) && Encoded(cs[1]);
    FlatConcat([[47]], [[97]]);
    FlatOne([47]);
    FlatOne([97]);
    assert cs == [[47]] + [[97]] && Flat(cs) == [47, 97];
    CharsOfFlat(cs);
  }

  // A settled line leaves a well-formed history: what is cut off is one whole character.
  lemma {:induction false} FinishKeepsHistory(s: State, multiline: bool, endOfStream: bool)
    requires Good(s) && Settled(s)
    ensures s.special ==> Flat(s.view.chars) != []
    ensures HistoryOk(Finish(s, multiline, endOfStream).2)
  {
    var cs := s.view.chars;
    hide AllEncoded, HistoryOk, AddLine, EndsMarked, Flat, Ended, WithoutNewline;
    EndedOk(cs, s.special, multiline, endOfStream);
    if !endOfStream { AddKeeps(s.hist, WithoutNewline(Ended(Flat(cs), s.special, multiline, endOfStream).0)); }
  }

  lemma {:induction false} EndedOk(cs: seq<Char>, special: bool, multiline: bool, endOfStream: bool)
    requires AllEncoded(cs) && special == EndsMarked(Flat(cs))
    ensures special ==> Flat(cs) != []
    ensures endOfStream || WellFormed(WithoutNewline(Ended(Flat(cs), special, multiline, endOfStream).0))
  {
    EmptyWellFormed();
    if special {
      MarkIsChar(cs);
    } else {
      assert WellFormed(Flat(cs));
      AppendedNewline(Flat(cs));
    }
    hide AllEncoded, WellFormed, Flat;
  }

  lemma {:induction false} AddKeeps(h: History, line: seq<Byte>)
    requires HistoryOk(h) && WellFormed(line)
    ensures HistoryOk(AddLine(h, line))
  {
    EmptyWellFormed();
    hide WellFormed;
  }

  lemma {:induction false} AppendedNewline(line: seq<Byte>)
    ensures WithoutNewline(line + [NEWLINE]) == line
  {
  }

  lemma {:induction false} WithoutNewlineOk(line: seq<Byte>)
    requires WellFormed(line)
    ensures WellFormed(WithoutNewline(line))
  {
    var cs :| AllEncoded(cs) && line == Flat(cs);
    if line != [] && line[|line| - 1] == NEWLINE { ShorterOk(cs, NEWLINE, NEWLINE); }
  }

  lemma {:induction false} ShorterOk(cs: seq<Char>, b: Byte, c: Byte)
    requires AllEncoded(cs) && b < 0x80 && c < 0x80
    requires Flat(cs) != [] && (Flat(cs)[|Flat(cs)| - 1] == b || Flat(cs)[|Flat(cs)| - 1] == c)
    ensures cs != [] && WellFormed(Flat(cs)[..|Flat(cs)| - 1])
  {
    assert cs != [];
    hide Flat, Encoded;
    DropLastByte(cs, b, c);
    assert AllEncoded(cs[..|cs| - 1]);
  }

  lemma {:induction false} MarkIsChar(cs: seq<Char>)
    requires AllEncoded(cs) && EndsMarked(Flat(cs))
    ensures var shorter := Flat(cs)[..|Flat(cs)| - 1];
            && cs != [] && WellFormed(shorter) && WellFormed(WithoutNewline(shorter))
            && WithoutNewline(shorter + [NEWLINE]) == shorter
  {
    ShorterOk(cs, BACKSLASH, SLASH);
    hide *;
    WithoutNewlineOk(Flat(cs)[..|Flat(cs)| - 1]);
    AppendedNewline(Flat(cs)[..|Flat(cs)| - 1]);
  }

  // When a line ends in an ASCII byte, that byte is its last character.
  lemma {:induction false} DropLastByte(cs: seq<Char>, b: Byte, c: Byte)
    requires AllEncoded(cs) && cs != [] && b < 0x80 && c < 0x80
    requires Flat(cs) != [] && (Flat(cs)[|Flat(cs)| - 1] == b || Flat(cs)[|Flat(cs)| - 1] == c)
    ensures Flat(cs)[..|Flat(cs)| - 1] == Flat(cs[..|cs| - 1])
  {
    var n := |cs| - 1;
    FlatSplit(cs, n);
    assert cs[..n + 1] == cs;
    assert Encoded(cs[n]);
    EncodedShape(cs[n]);
    var last := cs[n];
    hide Encoded, AllEncoded;
    assert Flat(cs) == Flat(cs[..n]) + last;
    assert last[|last| - 1] == Flat(cs)[|Flat(cs)| - 1];
    assert |last| == 1;
  }

  // ---------- line after line ----------

  datatype Entered = Entered(keys: seq<Key>, multiline: bool, endOfStream: bool)

  // Keys from outside, not ended right after a completion.
  ghost predicate EnteredOk(e: Entered) {
    && (forall i :: 0 <= i < |e.keys| ==> KeyOk(e.keys[i]))
    && (e.keys != [] ==> !e.keys[|e.keys| - 1].Complete?)
  }

  ghost function Session(h: History, lines: seq<Entered>, space: int -> bool): History
    decreases |lines|
  {
    if lines == [] then h
    else
      var s := Fresh(h);
      if !StateOk(s) then h
      else
        var t := Run(s, lines[0].keys, space);
        if t.special && Flat(t.view.chars) == [] then h
        else Session(Finish(t, lines[0].multiline, lines[0].endOfStream).2, lines[1..], space)
  }

  lemma {:induction false} RunSettles(s: State, ks: seq<Key>, space: int -> bool)
    requires Good(s) && Settled(s) && (forall i :: 0 <= i < |ks| ==> KeyOk(ks[i]))
    requires ks != [] ==> !ks[|ks| - 1].Complete?
    ensures Settled(Run(s, ks, space))
    decreases |ks|
  {
    if ks != [] { RunSettlesAtLast(s, ks, space); }
  }

  lemma {:induction false} RunSettlesAtLast(s: State, ks: seq<Key>, space: int -> bool)
    requires Good(s) && (forall i :: 0 <= i < |ks| ==> KeyOk(ks[i]))
    requires ks != [] && !ks[|ks| - 1].Complete?
    ensures Settled(Run(s, ks, space))
    decreases |ks|
  {
    StepKeepsGood(s, ks[0], space);
    if |ks| > 1 { RunSettlesAtLast(Step(s, ks[0], space), ks[1..], space); } else { StepSettles(s, ks[0], space); }
    hide Step, KeyOk, HistoryOk, AllEncoded, Settled;
  }

  // Over any number of lines the history holds only whole lines of characters.
  lemma {:induction false} SessionKeepsHistory(h: History, lines: seq<Entered>, space: int -> bool)
    requires HistoryOk(h) && forall i :: 0 <= i < |lines| ==> EnteredOk(lines[i])
    ensures HistoryOk(Session(h, lines, space))
    decreases |lines|
  {
    if lines != [] {
      var e := lines[0];
      var s := Fresh(h);
      FreshGood(h);
      FreshSettled(h);
      RunKeepsGood(s, e.keys, space);
      RunSettles(s, e.keys, space);
      var t := Run(s, e.keys, space);
      FinishKeepsHistory(t, e.multiline, e.endOfStream);
      hide HistoryOk, EnteredOk, Run, Finish, Flat, Settled, AllEncoded;
      SessionKeepsHistory(Finish(t, e.multiline, e.endOfStream).2, lines[1..], space);
    }
  }

  lemma {:induction false} FreshSettled(h: History)
    ensures Settled(Fresh(h))
  {
  }
}
