/** Laws of the line editor's keys: where the cursor goes, what becomes of the text, and how a line ends. */
module EditorLaws {
  import opened Basics
  import opened Utf8
  import opened LineEditor

  // ---------- moving ----------

  // Moving left and right again, or right and left again, comes back; at either end nothing moves.
  lemma {:induction false} LeftRightUndo(s: State, space: int -> bool)
    requires StateOk(s)
    ensures StateOk(Step(s, Left, space)) && StateOk(Step(s, Right, space))
    ensures s.view.pos > 0 ==> Step(Step(s, Left, space), Right, space).view == s.view && Step(s, Left, space).view != s.view
    ensures s.view.pos < |s.view.chars| ==> Step(Step(s, Right, space), Left, space).view == s.view && Step(s, Right, space).view != s.view
    ensures s.view.pos == 0 ==> Step(s, Left, space).view == s.view
    ensures s.view.pos == |s.view.chars| ==> Step(s, Right, space).view == s.view
  {
    hide EndsMarked, Flat;
  }

  lemma {:induction false} ManyLefts(s: State, n: nat, space: int -> bool)
    requires StateOk(s)
    ensures Presses(s, Left, n, space).view == View(s.view.chars, if s.view.pos > n then s.view.pos - n else 0)
    decreases n
  {
    hide EndsMarked, Flat;
    if n > 0 { ManyLefts(Step(s, Left, space), n - 1, space); }
  }

  lemma {:induction false} ManyRights(s: State, n: nat, space: int -> bool)
    requires StateOk(s)
    ensures Presses(s, Right, n, space).view
            == View(s.view.chars, if s.view.pos + n < |s.view.chars| then s.view.pos + n else |s.view.chars|)
    decreases n
  {
    hide EndsMarked, Flat;
    if n > 0 { ManyRights(Step(s, Right, space), n - 1, space); }
  }

  // Home is moving left, End moving right, as often as there are characters or more.
  lemma {:induction false} HomeAndEnd(s: State, n: nat, space: int -> bool)
    requires StateOk(s) && n >= |s.view.chars|
    ensures Step(s, Home, space).view == Presses(s, Left, n, space).view
    ensures Step(s, EndKey, space).view == Presses(s, Right, n, space).view
  {
    ManyLefts(s, n, space);
    ManyRights(s, n, space);
    hide EndsMarked, Flat, Presses;
  }

  // The characters from `a` up to `b` are all white space, or none is.
  predicate Spaces(cs: seq<Char>, space: int -> bool, a: nat, b: nat, wanted: bool) {
    a <= b <= |cs| && forall k :: a <= k < b ==> space(CodeOf(cs[k])) == wanted
  }

  // Nothing more of the kind stands at `k`, or before it.
  predicate StopsAt(cs: seq<Char>, space: int -> bool, k: nat, wanted: bool) { k >= |cs| || space(CodeOf(cs[k])) != wanted }

  predicate StopsBefore(cs: seq<Char>, space: int -> bool, k: nat, wanted: bool) { k == 0 || k > |cs| || space(CodeOf(cs[k - 1])) != wanted }

  lemma {:induction false} SkipsBack(cs: seq<Char>, k: nat, space: int -> bool, wanted: bool)
    requires k <= |cs|
    ensures var r := SkipBack(cs, k, space, wanted); Spaces(cs, space, r, k, wanted) && StopsBefore(cs, space, r, wanted)
  {
    hide CodeOf;
    if k > 0 && space(CodeOf(cs[k - 1])) == wanted { SkipsBack(cs, k - 1, space, wanted); }
  }

  lemma {:induction false} SkipsForward(cs: seq<Char>, k: nat, space: int -> bool, wanted: bool)
    requires k <= |cs|
    ensures var r := SkipForward(cs, k, space, wanted); Spaces(cs, space, k, r, wanted) && StopsAt(cs, space, r, wanted)
    decreases |cs| - k
  {
    hide CodeOf;
    if k < |cs| && space(CodeOf(cs[k])) == wanted { SkipsForward(cs, k + 1, space, wanted); }
  }

  // To the left of the cursor first all white space is skipped, then the word.
  predicate WordBack(cs: seq<Char>, space: int -> bool, from: nat, middle: nat, to: nat) {
    && Spaces(cs, space, middle, from, true) && StopsBefore(cs, space, middle, true)
    && Spaces(cs, space, to, middle, false) && StopsBefore(cs, space, to, false)
  }

  // To the right of it white space, the word, and the white space behind the word.
  predicate WordOn(cs: seq<Char>, space: int -> bool, from: nat, start: nat, end: nat, to: nat) {
    && Spaces(cs, space, from, start, true) && StopsAt(cs, space, start, true)
    && Spaces(cs, space, start, end, false) && StopsAt(cs, space, end, false)
    && Spaces(cs, space, end, to, true) && StopsAt(cs, space, to, true)
  }

  // Where the cursor goes word by word: the one position with the right characters passed.
  lemma {:induction false} WordsExact(s: State, to: nat, space: int -> bool)
    requires StateOk(s)
    ensures Step(s, WordLeft, space).view == View(s.view.chars, to) <==> exists middle :: WordBack(s.view.chars, space, s.view.pos, middle, to)
    ensures Step(s, WordRight, space).view == View(s.view.chars, to)
            <==> exists start, end :: WordOn(s.view.chars, space, s.view.pos, start, end, to)
  {
    hide CodeOf, Spaces, StopsAt, StopsBefore, SkipBack, SkipForward, EndsMarked, Flat;
    var cs, p := s.view.chars, s.view.pos;
    var m := SkipBack(cs, p, space, true);
    SkipsBack(cs, p, space, true);
    SkipsBack(cs, m, space, false);
    assert WordBack(cs, space, p, m, SkipBack(cs, m, space, false));
    if middle: nat :| WordBack(cs, space, p, middle, to) {
      OneStopBack(cs, space, p, middle, m, true);
      OneStopBack(cs, space, m, to, SkipBack(cs, m, space, false), false);
    }
    var a := SkipForward(cs, p, space, true);
    var b := SkipForward(cs, a, space, false);
    SkipsForward(cs, p, space, true);
    SkipsForward(cs, a, space, false);
    SkipsForward(cs, b, space, true);
    assert WordOn(cs, space, p, a, b, SkipForward(cs, b, space, true));
    if start: nat, end: nat :| WordOn(cs, space, p, start, end, to) {
      OneStop(cs, space, p, start, a, true);
      OneStop(cs, space, a, end, b, false);
      OneStop(cs, space, b, to, SkipForward(cs, b, space, true), true);
    }
  }

  lemma {:induction false} OneStop(cs: seq<Char>, space: int -> bool, from: nat, a: nat, b: nat, wanted: bool)
    requires Spaces(cs, space, from, a, wanted) && StopsAt(cs, space, a, wanted)
    requires Spaces(cs, space, from, b, wanted) && StopsAt(cs, space, b, wanted)
    ensures a == b
  {
    hide CodeOf;
  }

  lemma {:induction false} OneStopBack(cs: seq<Char>, space: int -> bool, from: nat, a: nat, b: nat, wanted: bool)
    requires Spaces(cs, space, a, from, wanted) && StopsBefore(cs, space, a, wanted)
    requires Spaces(cs, space, b, from, wanted) && StopsBefore(cs, space, b, wanted)
    ensures a == b
  {
    hide CodeOf;
  }

  // ---------- the text ----------

  // The bytes before the cursor and from it on.
  function Before(v: View): seq<Byte>
    requires v.pos <= |v.chars|
  {
    Flat(v.chars[..v.pos])
  }

  function Behind(v: View): seq<Byte>
    requires v.pos <= |v.chars|
  {
    Flat(v.chars[v.pos..])
  }

  // A typed character stands before the cursor, with the text on both sides as it was.
  lemma {:induction false} TypedWhere(s: State, code: nat, space: int -> bool)
    requires StateOk(s)
    ensures var t := Step(s, Insert(code), space);
            StateOk(t) && Before(t.view) == Before(s.view) + Append(code) && Behind(t.view) == Behind(s.view)
  {
    hide EndsMarked, Append, Flat;
    var cs, p := s.view.chars, s.view.pos;
    var t := InsertAt(cs, p, Append(code));
    assert t[..p + 1] == cs[..p] + [Append(code)] && t[p + 1..] == cs[p..];
    FlatConcat(cs[..p], [Append(code)]);
    FlatOne(Append(code));
  }

  // Deleting takes the character at the cursor away, deleting backwards the one before it.
  lemma {:induction false} DeletedWhere(s: State, space: int -> bool)
    requires StateOk(s)
    ensures s.view.pos < |s.view.chars| ==>
              var t := Step(s, Delete, space);
              StateOk(t) && Before(t.view) == Before(s.view) && s.view.chars[s.view.pos] + Behind(t.view) == Behind(s.view)
    ensures s.view.pos > 0 ==>
              var t := Step(s, Backspace, space);
              StateOk(t) && Before(t.view) + s.view.chars[s.view.pos - 1] == Before(s.view) && Behind(t.view) == Behind(s.view)
  {
    hide EndsMarked, Flat;
    var cs, p := s.view.chars, s.view.pos;
    if p < |cs| {
      var t := RemoveAt(cs, p);
      assert t[..p] == cs[..p] && t[p..] == cs[p + 1..] && cs[p..] == [cs[p]] + cs[p + 1..];
      FlatConcat([cs[p]], cs[p + 1..]);
      FlatOne(cs[p]);
    }
    if p > 0 {
      var t := RemoveAt(cs, p - 1);
      assert t[..p - 1] == cs[..p - 1] && t[p - 1..] == cs[p..] && cs[..p] == cs[..p - 1] + [cs[p - 1]];
      FlatConcat(cs[..p - 1], [cs[p - 1]]);
      FlatOne(cs[p - 1]);
    }
  }

  // ---------- ending a line ----------

  // A line seen to its end is given with a newline; a backslash at its end becomes the newline and asks for
  // the opposite of what is set; a slash is taken off and ends the input.
  lemma {:induction false} LineEnds(s: State, line: seq<Byte>, multiline: bool, endOfStream: bool)
    requires Settled(s)
    ensures s.special ==> Flat(s.view.chars) != []
    ensures Flat(s.view.chars) == line + ['\\' as nat] ==>
              Finish(s, multiline, endOfStream).0 == line + ['\n' as nat] && (Finish(s, multiline, endOfStream).1 <==> !multiline)
    ensures Flat(s.view.chars) == line + ['/' as nat] ==>
              Finish(s, multiline, endOfStream).0 == (if line == [' ' as nat] then [] else line) && !Finish(s, multiline, endOfStream).1
    ensures Flat(s.view.chars) == line && !EndsMarked(line) ==>
              if endOfStream then Finish(s, multiline, endOfStream).0 == line && !Finish(s, multiline, endOfStream).1
              else Finish(s, multiline, endOfStream).0 == line + ['\n' as nat] && (Finish(s, multiline, endOfStream).1 <==> multiline)
  {
    var text := Flat(s.view.chars);
    hide Flat, AddLine;
    if text == line + [92] || text == line + [47] { assert text[..|text| - 1] == line; }
  }

  // What is remembered of a line: its text without the newline, once, unless the input has ended or
  // nothing is left of it.
  lemma {:induction false} LineRemembered(s: State, multiline: bool, endOfStream: bool)
    requires Settled(s)
    ensures s.special ==> Flat(s.view.chars) != []
    ensures var r := Finish(s, multiline, endOfStream);
            var text := if r.0 != [] && r.0[|r.0| - 1] == '\n' as nat then r.0[..|r.0| - 1] else r.0;
            if endOfStream || text == [] then r.2 == s.hist
            else r.2.entries != [] && r.2.entries[|r.2.entries| - 1] == text && r.2.viewing.None? && s.hist.entries <= r.2.entries
                 && |r.2.entries| == |s.hist.entries| + if s.hist.entries != [] && s.hist.entries[|s.hist.entries| - 1] == text then 0 else 1
  {
    hide Flat, Ended;
  }

  // ---------- the history ----------

  ghost predicate Shows(s: State, line: seq<Byte>) { Flat(s.view.chars) == line }

  lemma {:induction false} UpShows(s: State, space: int -> bool)
    requires Good(s) && s.hist.entries != []
    ensures var n := |s.hist.entries|;
            var i := if s.hist.viewing.None? then n - 1 else if s.hist.viewing.value > 0 then s.hist.viewing.value - 1 else 0;
            Shows(Step(s, Up, space), s.hist.entries[i]) && Step(s, Up, space).hist.viewing == Some(i) && Step(s, Up, space).hist.entries == s.hist.entries
  {
    var n := |s.hist.entries|;
    var i := if s.hist.viewing.None? then n - 1 else if s.hist.viewing.value > 0 then s.hist.viewing.value - 1 else 0;
    ShownFlat(s.hist.entries[i], None);
    hide Flat, EndsMarked, Shown;
  }

  lemma {:induction false} DownShows(s: State, space: int -> bool)
    requires Good(s) && s.hist.viewing.Some? && s.hist.viewing.value + 1 < |s.hist.entries|
    ensures Shows(Step(s, Down, space), s.hist.entries[s.hist.viewing.value + 1])
  {
    ShownFlat(s.hist.entries[s.hist.viewing.value + 1], None);
    hide Flat, EndsMarked, Shown;
  }

  lemma {:induction false} UpsFrom(s: State, n: nat, space: int -> bool)
    requires Good(s) && s.hist.viewing.Some? && 1 <= n <= s.hist.viewing.value
    ensures StateOk(s) && Shows(Presses(s, Up, n, space), s.hist.entries[s.hist.viewing.value - n])
    decreases n
  {
    hide *;
    UpOk();
    GoodIsOk(s);
    ViewingIn(s);
    PressesStep(s, Up, n - 1, space);
    UpShows(s, space);
    UpAgain(s, space);
    var t := Step(s, Up, space);
    if n == 1 { PressesStep(t, Up, 0, space); } else { UpsFrom(t, n - 1, space); }
  }

  lemma {:induction false} ViewingIn(s: State)
    requires Good(s) && s.hist.viewing.Some? && s.hist.viewing.value > 0
    ensures s.hist.entries != [] && s.hist.viewing.value <= |s.hist.entries|
  {
  }

  // Going back in the history shows its lines from the last one on.
  lemma {:induction false} UpsShow(s: State, n: nat, space: int -> bool)
    requires Good(s) && s.hist.viewing.None? && 1 <= n <= |s.hist.entries|
    ensures StateOk(s) && Shows(Presses(s, Up, n, space), s.hist.entries[|s.hist.entries| - n])
  {
    hide *;
    UpOk();
    GoodIsOk(s);
    PressesStep(s, Up, n - 1, space);
    UpShows(s, space);
    var t := Step(s, Up, space);
    if n == 1 { PressesStep(t, Up, 0, space); } else { UpsFrom(t, n - 1, space); }
  }

  lemma {:induction false} DownsFrom(s: State, n: nat, space: int -> bool)
    requires Good(s) && s.hist.viewing.Some? && 1 <= n && s.hist.viewing.value + n < |s.hist.entries|
    ensures StateOk(s) && Shows(Presses(s, Down, n, space), s.hist.entries[s.hist.viewing.value + n])
    decreases n
  {
    hide *;
    UpOk();
    GoodIsOk(s);
    PressesStep(s, Down, n - 1, space);
    DownShows(s, space);
    DownAgain(s, space);
    var t := Step(s, Down, space);
    if n == 1 { PressesStep(t, Down, 0, space); } else { DownsFrom(t, n - 1, space); }
  }

  // Coming forward again shows them in the other order.
  lemma {:induction false} DownsShow(s: State, n: nat, m: nat, space: int -> bool)
    requires Good(s) && s.hist.viewing.None? && 1 <= m < n <= |s.hist.entries|
    ensures var t := Presses(s, Up, n, space);
            StateOk(t) && Shows(Presses(t, Down, m, space), s.hist.entries[|s.hist.entries| - n + m])
  {
    hide *;
    UpOk();
    GoodIsOk(s);
    PressesStep(s, Up, n - 1, space);
    UpFromLine(s, space);
    var u := Step(s, Up, space);
    GoodIsOk(u);
    ManyUps(u, n - 1, space);
    var t := Presses(u, Up, n - 1, space);
    DownsFrom(t, m, space);
  }
}
