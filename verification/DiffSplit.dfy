/** The template differ: cutting a text into markers and the text between them, and splitting two
    texts into a common prefix, a common suffix and what differs. */
module DiffSplit {
  import opened Basics

  datatype SegmentType = TEXT | MARKER
  datatype Segment = Segment(kind: SegmentType, value: string)

  // ---------- segments ----------

  predicate IsOpener(c: char) { c == '<' || c == '[' }
  predicate Closes(opener: char, c: char) { (opener == '<' && c == '>') || (opener == '[' && c == ']') }

  // The segments of what follows `border`, when `cur` is the next character to look at and
  // `opener` is the marker's first character inside a marker.
  function Scan(text: string, border: nat, cur: nat, opener: Option<char>): seq<Segment>
    requires border <= cur <= |text|
    decreases |text| - cur
  {
    if cur == |text| then if border < cur then [Segment(TEXT, text[border..])] else []
    else if opener.None? && IsOpener(text[cur]) then
      (if border < cur then [Segment(TEXT, text[border..cur])] else []) + Scan(text, cur, cur + 1, Some(text[cur]))
    else if opener.Some? && Closes(opener.value, text[cur]) then
      [Segment(MARKER, text[border..cur + 1])] + Scan(text, cur + 1, cur + 1, None)
    else Scan(text, border, cur + 1, opener)
  }

  function Segments(text: string): seq<Segment> { Scan(text, 0, 0, None) }

  method SegmentizeMarkers(text: string) returns (retval: seq<Segment>)
    ensures retval == Segments(text)
  {
    retval := [];
    var opener: Option<char> := None;
    var lastBorder, curPos := 0, 0;
    assert [] + Segments(text) == Segments(text);
    while curPos < |text|
      invariant 0 <= lastBorder <= curPos <= |text|
      invariant retval + Scan(text, lastBorder, curPos, opener) == Segments(text)
    {
      ghost var before, rest := retval, Scan(text, lastBorder, curPos, opener);
      if opener.None? && IsOpener(text[curPos]) {
        ghost var tail := Scan(text, curPos, curPos + 1, Some(text[curPos]));
        if lastBorder < curPos {
          retval := retval + [Segment(TEXT, text[lastBorder..curPos])];
          Assoc(before, [Segment(TEXT, text[lastBorder..curPos])], tail);
        } else {
          assert [] + tail == tail;
        }
        lastBorder := curPos;
        opener := Some(text[curPos]);
      } else if opener.Some? && Closes(opener.value, text[curPos]) {
        retval := retval + [Segment(MARKER, text[lastBorder..curPos + 1])];
        Assoc(before, [Segment(MARKER, text[lastBorder..curPos + 1])], Scan(text, curPos + 1, curPos + 1, None));
        lastBorder := curPos + 1;
        opener := None;
      }
      curPos := curPos + 1;
    }
    if lastBorder < |text| {
      retval := retval + [Segment(TEXT, text[lastBorder..])];
    } else {
      assert retval + [] == retval;
    }
  }

  function Concat(segs: seq<Segment>): string {
    if segs == [] then [] else segs[0].value + Concat(segs[1..])
  }

  lemma {:induction false} ConcatCons(s: Segment, segs: seq<Segment>)
    ensures Concat([s] + segs) == s.value + Concat(segs)
  {
    assert ([s] + segs)[1..] == segs;
  }

  lemma {:induction false} ConcatJoin(a: seq<Segment>, b: seq<Segment>)
    ensures Concat(a + b) == Concat(a) + Concat(b)
  {
    if a == [] {
      assert a + b == b;
    } else {
      assert a + b == [a[0]] + (a[1..] + b);
      ConcatCons(a[0], a[1..] + b);
      ConcatJoin(a[1..], b);
      Assoc(a[0].value, Concat(a[1..]), Concat(b));
    }
  }

  lemma {:induction false} SliceJoin(text: string, i: nat, j: nat)
    requires i <= j <= |text|
    ensures text[i..j] + text[j..] == text[i..]
  {
  }

  // The segments are the text, in order.
  lemma {:induction false} ScanConcats(text: string, border: nat, cur: nat, opener: Option<char>)
    requires border <= cur <= |text|
    ensures Concat(Scan(text, border, cur, opener)) == text[border..]
    decreases |text| - cur
  {
    if cur == |text| {
      ConcatCons(Segment(TEXT, text[border..]), []);
      assert [Segment(TEXT, text[border..])] + [] == [Segment(TEXT, text[border..])];
      assert text[border..] + [] == text[border..];
    } else if opener.None? && IsOpener(text[cur]) {
      ScanConcats(text, cur, cur + 1, Some(text[cur]));
      var tail := Scan(text, cur, cur + 1, Some(text[cur]));
      ConcatCons(Segment(TEXT, text[border..cur]), tail);
      SliceJoin(text, border, cur);
      assert [] + tail == tail;
    } else if opener.Some? && Closes(opener.value, text[cur]) {
      ScanConcats(text, cur + 1, cur + 1, None);
      ConcatCons(Segment(MARKER, text[border..cur + 1]), Scan(text, cur + 1, cur + 1, None));
      SliceJoin(text, border, cur + 1);
    } else {
      ScanConcats(text, border, cur + 1, opener);
    }
  }

  lemma {:induction false} SegmentsConcatBack(text: string)
    ensures Concat(Segments(text)) == text
  {
    ScanConcats(text, 0, 0, None);
    assert text[0..] == text;
  }

  // A marker runs from an opener to the first closer of its kind.
  predicate MarkerShape(v: string) {
    |v| >= 2 && IsOpener(v[0]) && Closes(v[0], v[|v| - 1]) && forall i :: 0 < i < |v| - 1 ==> !Closes(v[0], v[i])
  }

  // Text has no opener, unless it is a marker that never closes.
  predicate TextShape(v: string) {
    v != "" && ((forall i :: 0 <= i < |v| ==> !IsOpener(v[i])) || (IsOpener(v[0]) && forall i :: 0 < i < |v| ==> !Closes(v[0], v[i])))
  }

  predicate Shaped(s: Segment) { if s.kind == MARKER then MarkerShape(s.value) else TextShape(s.value) }

  predicate AllShaped(segs: seq<Segment>) { forall i :: 0 <= i < |segs| ==> Shaped(segs[i]) }

  predicate ScanInv(text: string, border: nat, cur: nat, opener: Option<char>) {
    border <= cur <= |text| &&
    match opener
    case None => forall i :: border <= i < cur ==> !IsOpener(text[i])
    case Some(c) => border < cur && text[border] == c && IsOpener(c) && forall i :: border < i < cur ==> !Closes(c, text[i])
  }

  lemma {:induction false} ScanShaped(text: string, border: nat, cur: nat, opener: Option<char>)
    requires ScanInv(text, border, cur, opener)
    ensures AllShaped(Scan(text, border, cur, opener))
    decreases |text| - cur
  {
    if cur == |text| {
      if border < cur {
        var v := text[border..];
        assert forall i :: 0 <= i < |v| ==> v[i] == text[border + i];
        assert TextShape(v);
      }
    } else if opener.None? && IsOpener(text[cur]) {
      ScanShaped(text, cur, cur + 1, Some(text[cur]));
      if border < cur {
        var v := text[border..cur];
        assert forall i :: 0 <= i < |v| ==> v[i] == text[border + i];
        assert Shaped(Segment(TEXT, v));
      }
    } else if opener.Some? && Closes(opener.value, text[cur]) {
      ScanShaped(text, cur + 1, cur + 1, None);
      var v := text[border..cur + 1];
      assert forall i :: 0 <= i < |v| ==> v[i] == text[border + i];
      assert Shaped(Segment(MARKER, v));
    } else {
      ScanShaped(text, border, cur + 1, opener);
    }
  }

  lemma {:induction false} SegmentsShaped(text: string)
    ensures AllShaped(Segments(text))
    ensures Segments(text) == [] <==> text == ""
  {
    ScanShaped(text, 0, 0, None);
    SegmentsConcatBack(text);
    if text == "" {
      assert Segments(text) == [];
    } else {
      assert Concat([]) == "";
    }
  }

  // ---------- the split ----------

  datatype Diff = Diff(prefix: string, suffix: string, left: string, right: string)

  // Four iterators, the text taken so far, and whether a side's last segment has been taken.
  datatype DState = DState(ls: int, le: int, rs: int, re: int, prefix: string, suffix: string, leftDone: bool, rightDone: bool)

  predicate InRange(L: seq<Segment>, R: seq<Segment>, s: DState) {
    0 <= s.ls <= s.le < |L| && 0 <= s.rs <= s.re < |R|
  }

  predicate More(s: DState) { s.ls != s.le && s.rs != s.re }

  function TakeFirst(L: seq<Segment>, R: seq<Segment>, s: DState): DState
    requires InRange(L, R, s)
  {
    if L[s.ls] == R[s.rs] then s.(prefix := s.prefix + L[s.ls].value, ls := s.ls + 1, rs := s.rs + 1) else s
  }

  function TakeLast(L: seq<Segment>, R: seq<Segment>, s: DState): DState
    requires InRange(L, R, s)
  {
    if L[s.le] == R[s.re] then
      DState(s.ls, if s.ls != s.le then s.le - 1 else s.le, s.rs, if s.rs != s.re then s.re - 1 else s.re,
             s.prefix, L[s.le].value + s.suffix, s.leftDone || s.ls == s.le, s.rightDone || s.rs == s.re)
    else s
  }

  function Loop(L: seq<Segment>, R: seq<Segment>, s: DState): (r: DState)
    requires InRange(L, R, s)
    ensures InRange(L, R, r)
    decreases s.le - s.ls
  {
    if !More(s) then s
    else
      var s1 := TakeFirst(L, R, s);
      var s2 := TakeLast(L, R, s1);
      if L[s.ls] != R[s.rs] && L[s1.le] != R[s1.re] then s2 else Loop(L, R, s2)
  }

  // One side is down to a single segment: it may still match either end of the other.
  function Finish(L: seq<Segment>, R: seq<Segment>, s: DState): (r: DState)
    requires InRange(L, R, s)
    ensures InRange(L, R, r)
  {
    if s.ls == s.le && s.rs != s.re then
      if L[s.ls] == R[s.re] then s.(suffix := R[s.re].value + s.suffix, re := s.re - 1, leftDone := true)
      else if L[s.ls] == R[s.rs] then s.(prefix := s.prefix + R[s.rs].value, rs := s.rs + 1, leftDone := true)
      else s
    else if s.rs == s.re && s.ls != s.le then
      if L[s.le] == R[s.rs] then s.(suffix := L[s.le].value + s.suffix, le := s.le - 1, rightDone := true)
      else if L[s.ls] == R[s.rs] then s.(prefix := s.prefix + L[s.ls].value, ls := s.ls + 1, rightDone := true)
      else s
    else if s.ls == s.le && s.rs == s.re && L[s.ls] == R[s.rs] && L[s.ls].kind == MARKER then
      s.(prefix := s.prefix + R[s.rs].value, leftDone := true, rightDone := true)
    else s
  }

  function LeftRest(L: seq<Segment>, s: DState): string
    requires 0 <= s.ls <= s.le < |L|
  {
    Concat(L[s.ls..if s.leftDone then s.le else s.le + 1])
  }

  function RightRest(R: seq<Segment>, s: DState): string
    requires 0 <= s.rs <= s.re < |R|
  {
    Concat(R[s.rs..if s.rightDone then s.re else s.re + 1])
  }

  function CommonPrefixLen(a: string, b: string): (n: nat)
    ensures n <= |a| && n <= |b|
  {
    PrefixFrom(a, b, 0)
  }

  function PrefixFrom(a: string, b: string, n: nat): (r: nat)
    requires n <= |a| && n <= |b|
    ensures n <= r <= |a| && r <= |b|
    ensures forall k :: n <= k < r ==> a[k] == b[k]
    ensures r < |a| && r < |b| ==> a[r] != b[r]
    decreases |a| - n
  {
    if n < |a| && n < |b| && a[n] == b[n] then PrefixFrom(a, b, n + 1) else n
  }

  // The k-th character from the end.
  function FromEnd(a: string, k: nat): char
    requires k < |a|
  {
    a[|a| - 1 - k]
  }

  function CommonSuffixLen(a: string, b: string): (n: nat)
    ensures n <= |a| && n <= |b|
  {
    SuffixFrom(a, b, 0)
  }

  function SuffixFrom(a: string, b: string, n: nat): (r: nat)
    requires n <= |a| && n <= |b|
    ensures n <= r <= |a| && r <= |b|
    ensures forall k :: n <= k < r ==> FromEnd(a, k) == FromEnd(b, k)
    ensures r < |a| && r < |b| ==> FromEnd(a, r) != FromEnd(b, r)
    decreases |a| - n
  {
    if n < |a| && n < |b| && FromEnd(a, n) == FromEnd(b, n) then SuffixFrom(a, b, n + 1) else n
  }

  // What remains on both sides is split once more by characters, at ends that are text.
  function Cut(a: string, b: string, prefix: string, suffix: string, textEnd: bool, textStart: bool): Diff {
    var n := if textEnd then CommonSuffixLen(a, b) else 0;
    var m := if textStart then CommonPrefixLen(a[..|a| - n], b[..|b| - n]) else 0;
    Diff(prefix + a[..m], a[|a| - n..] + suffix, a[m..|a| - n], b[m..|b| - n])
  }

  function Start(L: seq<Segment>, R: seq<Segment>): DState { DState(0, |L| - 1, 0, |R| - 1, "", "", false, false) }

  function CutState(L: seq<Segment>, R: seq<Segment>, s: DState): Diff
    requires InRange(L, R, s)
  {
    Cut(LeftRest(L, s), RightRest(R, s), s.prefix, s.suffix,
        L[s.le].kind == TEXT && R[s.re].kind == TEXT, R[s.rs].kind == TEXT && L[s.ls].kind == TEXT)
  }

  function Split(left: string, right: string): Diff {
    var L, R := Segments(left), Segments(right);
    if L == [] then Diff("", "", "", right)
    else if R == [] then Diff("", "", left, "")
    else
      var d := CutState(L, R, Finish(L, R, Loop(L, R, Start(L, R))));
      if d.left == "" && d.right == "" then Diff(left, "", "", "") else d
  }

  // ---------- the loops ----------

  method PrefixLength(left: string, right: string) returns (n: nat)
    ensures n == CommonPrefixLen(left, right)
  {
    n := 0;
    while n < |left| && n < |right| && left[n] == right[n]
      invariant n <= |left| && n <= |right|
      invariant PrefixFrom(left, right, n) == CommonPrefixLen(left, right)
    {
      n := n + 1;
    }
  }

  method SuffixLength(left: string, right: string) returns (n: nat)
    ensures n == CommonSuffixLen(left, right)
  {
    n := 0;
    while n < |left| && n < |right| && left[|left| - 1 - n] == right[|right| - 1 - n]
      invariant n <= |left| && n <= |right|
      invariant SuffixFrom(left, right, n) == CommonSuffixLen(left, right)
    {
      n := n + 1;
    }
  }

  // The two-ended loop over four iterators.
  method MatchEnds(L: seq<Segment>, R: seq<Segment>) returns (s: DState)
    requires L != [] && R != []
    ensures s == Loop(L, R, Start(L, R))
  {
    var ls, le, rs, re := 0, |L| - 1, 0, |R| - 1;
    var prefix, suffix := "", "";
    var leftDone, rightDone := false, false;
    while ls != le && rs != re
      invariant 0 <= ls <= le < |L| && 0 <= rs <= re < |R|
      invariant Loop(L, R, DState(ls, le, rs, re, prefix, suffix, leftDone, rightDone)) == Loop(L, R, Start(L, R))
      decreases le - ls
    {
      ghost var at := DState(ls, le, rs, re, prefix, suffix, leftDone, rightDone);
      var advanced := false;
      if L[ls] == R[rs] {
        prefix := prefix + L[ls].value;
        ls, rs := ls + 1, rs + 1;
        advanced := true;
      }
      assert DState(ls, le, rs, re, prefix, suffix, leftDone, rightDone) == TakeFirst(L, R, at);
      if L[le] == R[re] {
        suffix := L[le].value + suffix;
        if ls != le { le := le - 1; } else { leftDone := true; }
        if rs != re { re := re - 1; } else { rightDone := true; }
        advanced := true;
      }
      assert DState(ls, le, rs, re, prefix, suffix, leftDone, rightDone) == TakeLast(L, R, TakeFirst(L, R, at));
      if !advanced {
        return DState(ls, le, rs, re, prefix, suffix, leftDone, rightDone);
      }
    }
    return DState(ls, le, rs, re, prefix, suffix, leftDone, rightDone);
  }

  method CalculateDiffSplit(left: string, right: string) returns (d: Diff)
    ensures d == Split(left, right)
  {
    hide Segments, Loop, Concat, CommonPrefixLen, CommonSuffixLen, Finish;
    var L := SegmentizeMarkers(left);
    var R := SegmentizeMarkers(right);
    if L == [] { return Diff("", "", "", right); }
    if R == [] { return Diff("", "", left, ""); }
    var matched := MatchEnds(L, R);
    var s := Finish(L, R, matched);
    var a, b := LeftRest(L, s), RightRest(R, s);
    var n := 0;
    if L[s.le].kind == TEXT && R[s.re].kind == TEXT { n := SuffixLength(a, b); }
    var m := 0;
    if R[s.rs].kind == TEXT && L[s.ls].kind == TEXT { m := PrefixLength(a[..|a| - n], b[..|b| - n]); }
    d := Diff(s.prefix + a[..m], a[|a| - n..] + s.suffix, a[m..|a| - n], b[m..|b| - n]);
    assert d == CutState(L, R, s);
    if d.left == "" && d.right == "" {
      d := Diff(left, "", "", "");
    }
  }

  // ---------- nothing is lost ----------

  predicate Lossless(d: Diff, left: string, right: string) {
    d.prefix + d.left + d.suffix == left && d.prefix + d.right + d.suffix == right
  }

  // Where each side's taken end begins.
  function LeftEnd(s: DState): int { if s.leftDone then s.le else s.le + 1 }
  function RightEnd(s: DState): int { if s.rightDone then s.re else s.re + 1 }

  ghost predicate Covered(L: seq<Segment>, R: seq<Segment>, s: DState) {
    && InRange(L, R, s)
    && s.prefix == Concat(L[..s.ls]) == Concat(R[..s.rs])
    && s.suffix == Concat(L[LeftEnd(s)..]) == Concat(R[RightEnd(s)..])
    && (s.leftDone ==> s.ls == s.le && RightEnd(s) < |R| && L[s.ls] == R[RightEnd(s)])
    && (s.rightDone ==> s.rs == s.re && LeftEnd(s) < |L| && R[s.rs] == L[LeftEnd(s)])
  }

  lemma {:induction false} ConcatSnoc(segs: seq<Segment>, i: nat)
    requires i < |segs|
    ensures Concat(segs[..i + 1]) == Concat(segs[..i]) + segs[i].value
    ensures Concat(segs[i..]) == segs[i].value + Concat(segs[i + 1..])
  {
    assert segs[..i + 1] == segs[..i] + [segs[i]];
    ConcatJoin(segs[..i], [segs[i]]);
    ConcatCons(segs[i], []);
    assert [segs[i]] + [] == [segs[i]] && segs[i].value + [] == segs[i].value;
    assert segs[i..] == [segs[i]] + segs[i + 1..];
    ConcatCons(segs[i], segs[i + 1..]);
  }

  lemma {:induction false} TakeFirstCovered(L: seq<Segment>, R: seq<Segment>, s: DState)
    requires Covered(L, R, s) && More(s)
    ensures Covered(L, R, TakeFirst(L, R, s)) && !TakeFirst(L, R, s).leftDone && !TakeFirst(L, R, s).rightDone
  {
    hide Concat;
    if L[s.ls] == R[s.rs] {
      ConcatSnoc(L, s.ls);
      ConcatSnoc(R, s.rs);
    }
  }

  lemma {:induction false} TakeLastCovered(L: seq<Segment>, R: seq<Segment>, s: DState)
    requires Covered(L, R, s) && !s.leftDone && !s.rightDone
    ensures Covered(L, R, TakeLast(L, R, s))
  {
    hide Concat;
    if L[s.le] == R[s.re] {
      ConcatSnoc(L, s.le);
      ConcatSnoc(R, s.re);
    }
  }

  // The loop itself never loses or repeats anything.
  lemma {:induction false} LoopCovered(L: seq<Segment>, R: seq<Segment>, s: DState)
    requires Covered(L, R, s)
    ensures Covered(L, R, Loop(L, R, s))
    decreases s.le - s.ls
  {
    if More(s) {
      var s1 := TakeFirst(L, R, s);
      var s2 := TakeLast(L, R, s1);
      TakeFirstCovered(L, R, s);
      TakeLastCovered(L, R, s1);
      if L[s.ls] == R[s.rs] || L[s1.le] == R[s1.re] { LoopCovered(L, R, s2); }
    }
  }

  lemma {:induction false} StartCovered(L: seq<Segment>, R: seq<Segment>)
    requires L != [] && R != []
    ensures Covered(L, R, Start(L, R))
  {
    assert L[..0] == [] && R[..0] == [] && L[|L|..] == [] && R[|R|..] == [];
  }

  // A segment that the loop has already taken compares equal to one of the other side's again.
  predicate Recompared(L: seq<Segment>, R: seq<Segment>, s: DState)
    requires InRange(L, R, s)
  {
    || (s.ls == s.le && s.rs != s.re && s.leftDone && (L[s.ls] == R[s.re] || L[s.ls] == R[s.rs]))
    || (s.rs == s.re && s.ls != s.le && s.rightDone && (L[s.le] == R[s.rs] || L[s.ls] == R[s.rs]))
    || (s.ls == s.le && s.rs == s.re && s.leftDone != s.rightDone && L[s.ls] == R[s.rs] && L[s.ls].kind == MARKER)
  }

  // What the state holds, put together, for each side.
  function LeftTotal(L: seq<Segment>, s: DState): string
    requires 0 <= s.ls <= s.le < |L|
  {
    s.prefix + LeftRest(L, s) + s.suffix
  }

  function RightTotal(R: seq<Segment>, s: DState): string
    requires 0 <= s.rs <= s.re < |R|
  {
    s.prefix + RightRest(R, s) + s.suffix
  }

  lemma {:induction false} ThreeParts(segs: seq<Segment>, i: nat, j: nat)
    requires i <= j <= |segs|
    ensures Concat(segs) == Concat(segs[..i]) + Concat(segs[i..j]) + Concat(segs[j..])
  {
    assert segs == segs[..i] + segs[i..j] + segs[j..];
    ConcatJoin(segs[..i] + segs[i..j], segs[j..]);
    ConcatJoin(segs[..i], segs[i..j]);
  }

  lemma {:induction false} CoveredTotals(L: seq<Segment>, R: seq<Segment>, s: DState)
    requires Covered(L, R, s)
    ensures LeftTotal(L, s) == Concat(L) && RightTotal(R, s) == Concat(R)
  {
    hide Concat;
    ThreeParts(L, s.ls, LeftEnd(s));
    ThreeParts(R, s.rs, RightEnd(s));
  }

  // The one segment left is taken as prefix.
  lemma {:induction false} LastByPrefix(segs: seq<Segment>, i: nat, prefix: string, suffix: string)
    requires i < |segs| && prefix == Concat(segs[..i]) + segs[i].value && suffix == Concat(segs[i + 1..])
    ensures prefix + Concat(segs[i..i]) + suffix == Concat(segs)
  {
    ConcatSnoc(segs, i);
    ThreeParts(segs, i + 1, i + 1);
    assert segs[i..i] == [] == segs[i + 1..i + 1];
  }

  // A segment at the end is taken as suffix.
  lemma {:induction false} LastBySuffix(segs: seq<Segment>, i: nat, j: nat, prefix: string, suffix: string)
    requires i <= j < |segs| && prefix == Concat(segs[..i]) && suffix == segs[j].value + Concat(segs[j + 1..])
    ensures prefix + Concat(segs[i..j]) + suffix == Concat(segs)
  {
    ConcatSnoc(segs, j);
    ThreeParts(segs, i, j);
  }

  // The first segment is taken as prefix.
  lemma {:induction false} FirstByPrefix(segs: seq<Segment>, i: nat, j: nat, prefix: string, suffix: string)
    requires i < j <= |segs| && prefix == Concat(segs[..i]) + segs[i].value && suffix == Concat(segs[j..])
    ensures prefix + Concat(segs[i + 1..j]) + suffix == Concat(segs)
  {
    ConcatSnoc(segs, i);
    ThreeParts(segs, i + 1, j);
  }

  // The last comparisons keep both totals, except where they take a segment a second time.
  lemma {:induction false} FinishKeeps(L: seq<Segment>, R: seq<Segment>, s: DState)
    requires Covered(L, R, s) && !Recompared(L, R, s) && !(s.leftDone && s.rightDone)
    ensures var f := Finish(L, R, s); LeftTotal(L, f) == Concat(L) && RightTotal(R, f) == Concat(R)
  {
    hide Concat;
    var f := Finish(L, R, s);
    if f == s {
      CoveredTotals(L, R, s);
    } else if s.ls == s.le && s.rs != s.re {
      if L[s.ls] == R[s.re] {
        LastBySuffix(L, s.ls, s.le, f.prefix, f.suffix);
        LastBySuffix(R, s.rs, s.re, f.prefix, f.suffix);
      } else {
        LastByPrefix(L, s.ls, f.prefix, f.suffix);
        FirstByPrefix(R, s.rs, s.re + 1, f.prefix, f.suffix);
      }
    } else if s.rs == s.re && s.ls != s.le {
      if L[s.le] == R[s.rs] {
        LastBySuffix(L, s.ls, s.le, f.prefix, f.suffix);
        LastBySuffix(R, s.rs, s.re, f.prefix, f.suffix);
      } else {
        FirstByPrefix(L, s.ls, s.le + 1, f.prefix, f.suffix);
        LastByPrefix(R, s.rs, f.prefix, f.suffix);
      }
    } else {
      LastByPrefix(L, s.ls, f.prefix, f.suffix);
      LastByPrefix(R, s.rs, f.prefix, f.suffix);
    }
  }

  // ---------- the cut by characters ----------

  lemma {:induction false} Parts(a: string, m: nat, n: nat)
    requires m + n <= |a|
    ensures a == a[..m] + (a[m..|a| - n] + a[|a| - n..])
  {
  }

  lemma {:induction false} Around(prefix: string, x: string, y: string, z: string, suffix: string)
    ensures (prefix + x) + y + (z + suffix) == prefix + (x + (y + z)) + suffix
  {
  }

  // One side of the cut.
  lemma {:induction false} CutSide(a: string, m: nat, n: nat, x: string, z: string, prefix: string, suffix: string)
    requires m + n <= |a| && x == a[..m] && z == a[|a| - n..]
    ensures (prefix + x) + a[m..|a| - n] + (z + suffix) == prefix + a + suffix
  {
    Parts(a, m, n);
    Around(prefix, x, a[m..|a| - n], z, suffix);
  }

  lemma {:induction false} EmptyMiddle(a: string, b: string, m: nat, n: nat)
    requires m + n <= |a| && m + n <= |b| && a[..m] == b[..m] && a[|a| - n..] == b[|b| - n..]
    ensures a[m..|a| - n] == "" && b[m..|b| - n] == "" ==> a == b
    ensures a == "" ==> m == n == 0
  {
    Parts(a, m, n);
    Parts(b, m, n);
  }

  lemma {:induction false} SameEnd(a: string, b: string, n: nat)
    requires n <= |a| && n <= |b| && forall k :: 0 <= k < n ==> FromEnd(a, k) == FromEnd(b, k)
    ensures a[|a| - n..] == b[|b| - n..]
  {
    var x, y := a[|a| - n..], b[|b| - n..];
    forall i | 0 <= i < n ensures x[i] == y[i] {
      assert FromEnd(a, n - 1 - i) == FromEnd(b, n - 1 - i);
    }
  }

  lemma {:induction false} SameFirst(a: string, b: string, i: nat, j: nat, m: nat)
    requires m <= i <= |a| && m <= j <= |b| && forall k :: 0 <= k < m ==> a[..i][k] == b[..j][k]
    ensures a[..m] == b[..m]
  {
    forall k | 0 <= k < m ensures a[..m][k] == b[..m][k] { assert a[..i][k] == b[..j][k]; }
  }

  lemma {:induction false} CutShape(a: string, b: string, m: nat, n: nat, prefix: string, suffix: string)
    requires m + n <= |a| && m + n <= |b| && a[..m] == b[..m] && a[|a| - n..] == b[|b| - n..]
    ensures var d := Diff(prefix + a[..m], a[|a| - n..] + suffix, a[m..|a| - n], b[m..|b| - n]);
            && Lossless(d, prefix + a + suffix, prefix + b + suffix)
            && (d.left == "" && d.right == "" ==> a == b)
            && (a == "" ==> d.right == b) && (b == "" ==> d.left == a)
  {
    CutSide(a, m, n, a[..m], a[|a| - n..], prefix, suffix);
    CutSide(b, m, n, a[..m], a[|a| - n..], prefix, suffix);
    EmptyMiddle(a, b, m, n);
    EmptyMiddle(b, a, m, n);
  }

  lemma {:induction false} CutLossless(a: string, b: string, prefix: string, suffix: string, textEnd: bool, textStart: bool)
    ensures var d := Cut(a, b, prefix, suffix, textEnd, textStart);
            && Lossless(d, prefix + a + suffix, prefix + b + suffix)
            && (d.left == "" && d.right == "" ==> a == b)
            && (a == "" ==> d.right == b) && (b == "" ==> d.left == a)
  {
    hide PrefixFrom, SuffixFrom, FromEnd, Lossless;
    var n := if textEnd then CommonSuffixLen(a, b) else 0;
    var m := if textStart then CommonPrefixLen(a[..|a| - n], b[..|b| - n]) else 0;
    SameEnd(a, b, n);
    SameFirst(a, b, |a| - n, |b| - n, m);
    hide CommonPrefixLen, CommonSuffixLen;
    CutShape(a, b, m, n, prefix, suffix);
  }

  // ---------- exactly when the split is lossless ----------

  lemma {:induction false} SameRest(prefix: string, a: string, b: string, suffix: string)
    requires a == b
    ensures prefix + a + suffix == prefix + b + suffix
  {
  }

  // Both last segments were taken together: nothing is left, and the two texts are the same.
  lemma {:induction false} BothDone(L: seq<Segment>, R: seq<Segment>, s: DState)
    requires Covered(L, R, s) && s.leftDone && s.rightDone
    ensures var f := Finish(L, R, s); LeftRest(L, f) == "" == RightRest(R, f) && Concat(L) == Concat(R)
  {
    CoveredTotals(L, R, s);
    assert L[s.ls..s.le] == [] && R[s.rs..s.re] == [];
    assert Concat([]) == "";
  }

  lemma {:induction false} DegenerateLossless(left: string)
    ensures Lossless(Diff(left, "", "", ""), left, left)
  {
    assert left + "" + "" == left;
  }

  // The cut of a state that holds both texts.
  lemma {:induction false} HeldLossless(L: seq<Segment>, R: seq<Segment>, f: DState, left: string, right: string)
    requires InRange(L, R, f) && LeftTotal(L, f) == left && RightTotal(R, f) == right
    ensures var d := CutState(L, R, f); Lossless(d, left, right) && (d.left == "" && d.right == "" ==> left == right)
  {
    hide Concat, CommonSuffixLen, CommonPrefixLen;
    var a, b := LeftRest(L, f), RightRest(R, f);
    CutLossless(a, b, f.prefix, f.suffix, L[f.le].kind == TEXT && R[f.re].kind == TEXT, R[f.rs].kind == TEXT && L[f.ls].kind == TEXT);
    if a == b { SameRest(f.prefix, a, b, f.suffix); }
  }

  lemma {:induction false} LosslessUnless(left: string, right: string)
    requires var L, R := Segments(left), Segments(right);
             L != [] && R != [] && !Recompared(L, R, Loop(L, R, Start(L, R)))
    ensures Lossless(Split(left, right), left, right)
  {
    var L, R := Segments(left), Segments(right);
    var s := Loop(L, R, Start(L, R));
    SegmentsConcatBack(left);
    SegmentsConcatBack(right);
    StartCovered(L, R);
    LoopCovered(L, R, Start(L, R));
    var f := Finish(L, R, s);
    DegenerateLossless(left);
    hide Segments, Loop, Concat, Lossless;
    if s.leftDone && s.rightDone {
      BothDone(L, R, s);
      CutLossless("", "", f.prefix, f.suffix, L[f.le].kind == TEXT && R[f.re].kind == TEXT, R[f.rs].kind == TEXT && L[f.ls].kind == TEXT);
    } else {
      FinishKeeps(L, R, s);
      HeldLossless(L, R, f, left, right);
    }
  }

  lemma {:induction false} NonemptyConcat(segs: seq<Segment>)
    requires segs != [] && AllShaped(segs)
    ensures Concat(segs) != ""
  {
    assert Shaped(segs[0]);
  }

  lemma {:induction false} SubShaped(segs: seq<Segment>, i: nat, j: nat)
    requires i <= j <= |segs| && AllShaped(segs)
    ensures AllShaped(segs[i..j])
  {
    hide Shaped;
    assert forall k :: 0 <= k < |segs[i..j]| ==> segs[i..j][k] == segs[i + k];
  }

  // The parts of a split are together longer than the text that had a segment taken twice.
  lemma {:induction false} TooLong(d: Diff, left: string, right: string)
    requires |d.prefix| + |d.left| + |d.suffix| != |left| || |d.prefix| + |d.right| + |d.suffix| != |right|
    ensures !Lossless(d, left, right)
  {
  }

  lemma {:induction false} ValueNonempty(segs: seq<Segment>, i: nat)
    requires i < |segs| && AllShaped(segs)
    ensures segs[i].value != ""
  {
    assert Shaped(segs[i]);
  }

  // The left text is all taken and a segment of it is added once more.
  lemma {:induction false} LeftTwice(L: seq<Segment>, R: seq<Segment>, s: DState, left: string, right: string)
    requires Covered(L, R, s) && AllShaped(L) && AllShaped(R) && Concat(L) == left
    requires s.ls == s.le && s.rs != s.re && s.leftDone && (L[s.ls] == R[s.re] || L[s.ls] == R[s.rs])
    ensures var d := CutState(L, R, Finish(L, R, s)); !(d.left == "" && d.right == "") && !Lossless(d, left, right)
  {
    hide Concat, CommonSuffixLen, CommonPrefixLen;
    CoveredTotals(L, R, s);
    var f := Finish(L, R, s);
    assert L[s.ls..s.le] == [];
    EmptyConcat();
    SubShaped(R, f.rs, f.re + 1);
    NonemptyConcat(R[f.rs..f.re + 1]);
    var a, b := LeftRest(L, f), RightRest(R, f);
    CutLossless(a, b, f.prefix, f.suffix, L[f.le].kind == TEXT && R[f.re].kind == TEXT, R[f.rs].kind == TEXT && L[f.ls].kind == TEXT);
    ValueNonempty(L, s.ls);
    assert |f.prefix| + |f.suffix| == |left| + |L[s.ls].value|;
  }

  lemma {:induction false} EmptyConcat()
    ensures Concat([]) == ""
  {
  }

  lemma {:induction false} RightTwice(L: seq<Segment>, R: seq<Segment>, s: DState, left: string, right: string)
    requires Covered(L, R, s) && AllShaped(L) && AllShaped(R) && Concat(R) == right
    requires s.rs == s.re && s.ls != s.le && s.rightDone && (L[s.le] == R[s.rs] || L[s.ls] == R[s.rs])
    ensures var d := CutState(L, R, Finish(L, R, s)); !(d.left == "" && d.right == "") && !Lossless(d, left, right)
  {
    hide Concat, CommonSuffixLen, CommonPrefixLen;
    CoveredTotals(L, R, s);
    var f := Finish(L, R, s);
    assert R[s.rs..s.re] == [];
    EmptyConcat();
    SubShaped(L, f.ls, f.le + 1);
    NonemptyConcat(L[f.ls..f.le + 1]);
    var a, b := LeftRest(L, f), RightRest(R, f);
    CutLossless(a, b, f.prefix, f.suffix, L[f.le].kind == TEXT && R[f.re].kind == TEXT, R[f.rs].kind == TEXT && L[f.ls].kind == TEXT);
    ValueNonempty(R, s.rs);
    assert |f.prefix| + |f.suffix| == |right| + |R[s.rs].value|;
  }

  lemma {:induction false} RestOf(segs: seq<Segment>, i: nat)
    requires i < |segs|
    ensures Concat(segs[i..i]) == "" && Concat(segs[i..i + 1]) == segs[i].value
  {
    assert segs[i..i] == [] && segs[i..i + 1] == [segs[i]];
    OneConcat(segs[i]);
  }

  lemma {:induction false} OneLonger(L: seq<Segment>, R: seq<Segment>, s: DState)
    requires Covered(L, R, s) && AllShaped(L) && AllShaped(R)
    requires s.ls == s.le && s.rs == s.re && s.leftDone != s.rightDone
    ensures |Concat(L)| != |Concat(R)|
  {
    hide Concat, AllShaped;
    CoveredTotals(L, R, s);
    RestOf(L, s.ls);
    RestOf(R, s.rs);
    ValueNonempty(L, s.ls);
    ValueNonempty(R, s.rs);
    var i, j := |LeftRest(L, s)|, |RightRest(R, s)|;
    assert |Concat(L)| == |s.prefix| + i + |s.suffix| && |Concat(R)| == |s.prefix| + j + |s.suffix|;
  }

  // One side's last segment was taken and is taken for the other's again: the texts differ by it,
  // yet the split says they are the same.
  lemma {:induction false} OneTwice(L: seq<Segment>, R: seq<Segment>, s: DState, left: string, right: string)
    requires Covered(L, R, s) && AllShaped(L) && AllShaped(R) && Concat(L) == left && Concat(R) == right
    requires s.ls == s.le && s.rs == s.re && s.leftDone != s.rightDone && L[s.ls] == R[s.rs] && L[s.ls].kind == MARKER
    ensures var d := CutState(L, R, Finish(L, R, s)); d.left == "" && d.right == "" && !Lossless(Diff(left, "", "", ""), left, right)
  {
    OneLonger(L, R, s);
    hide Concat, CommonSuffixLen, CommonPrefixLen, AllShaped;
    var f := s.(prefix := s.prefix + R[s.rs].value, leftDone := true, rightDone := true);
    assert Finish(L, R, s) == f;
    RestOf(L, s.ls);
    RestOf(R, s.rs);
    hide Covered;
    assert LeftRest(L, f) == "" && RightRest(R, f) == "";
    CutLossless("", "", f.prefix, f.suffix, false, false);
    assert left + "" + "" == left;
  }

  lemma {:induction false} OneConcat(x: Segment)
    ensures Concat([x]) == x.value
  {
    assert [x][1..] == [] && x.value + [] == x.value;
  }

  // Main result: prefix + left + suffix and prefix + right + suffix are the two texts, except when the
  // loop leaves a side whose last segment it has taken and a segment of the other side equals it.
  lemma {:induction false} SplitExact(left: string, right: string)
    ensures var L, R := Segments(left), Segments(right);
            Lossless(Split(left, right), left, right) <==> (L == [] || R == [] || !Recompared(L, R, Loop(L, R, Start(L, R))))
  {
    var L, R := Segments(left), Segments(right);
    SegmentsShaped(left);
    SegmentsShaped(right);
    SegmentsConcatBack(left);
    SegmentsConcatBack(right);
    hide Segments, Concat, AllShaped;
    if L == [] {
      assert "" + "" + "" == "" && "" + right + "" == right;
    } else if R == [] {
      assert "" + "" + "" == "" && "" + left + "" == left;
    } else {
      hide Finish, Loop, CutState, Lossless;
      var s := Loop(L, R, Start(L, R));
      if Recompared(L, R, s) {
        StartCovered(L, R);
        LoopCovered(L, R, Start(L, R));
        RecomparedLoses(L, R, s, left, right);
      } else {
        LosslessUnless(left, right);
      }
    }
  }

  lemma {:induction false} RecomparedLoses(L: seq<Segment>, R: seq<Segment>, s: DState, left: string, right: string)
    requires Covered(L, R, s) && AllShaped(L) && AllShaped(R) && Concat(L) == left && Concat(R) == right && Recompared(L, R, s)
    ensures var d := CutState(L, R, Finish(L, R, s));
            !Lossless(if d.left == "" && d.right == "" then Diff(left, "", "", "") else d, left, right)
  {
    hide Concat, Lossless, CutState, Finish, AllShaped;
    if s.ls == s.le && s.rs != s.re {
      LeftTwice(L, R, s, left, right);
    } else if s.rs == s.re && s.ls != s.le {
      RightTwice(L, R, s, left, right);
    } else {
      OneTwice(L, R, s, left, right);
    }
  }

  // ---------- texts without repeated segments ----------

  predicate NoRepeats(segs: seq<Segment>) { forall i, j :: 0 <= i < j < |segs| ==> segs[i] != segs[j] }

  lemma {:induction false} NotRecompared(L: seq<Segment>, R: seq<Segment>, s: DState)
    requires Covered(L, R, s) && NoRepeats(L) && NoRepeats(R)
    ensures !Recompared(L, R, s)
  {
    hide Concat;
  }

  lemma {:induction false} LosslessWithoutRepeats(left: string, right: string)
    requires NoRepeats(Segments(left)) && NoRepeats(Segments(right))
    ensures Lossless(Split(left, right), left, right)
  {
    var L, R := Segments(left), Segments(right);
    SplitExact(left, right);
    hide Split, Segments, Loop;
    if L != [] && R != [] {
      StartCovered(L, R);
      LoopCovered(L, R, Start(L, R));
      NotRecompared(L, R, Loop(L, R, Start(L, R)));
    }
  }

  // ---------- a text with a repeated segment ----------

  lemma {:induction false} ScanInside(text: string, cur: nat, close: nat)
    requires 0 < cur <= close < |text| && IsOpener(text[0]) && Closes(text[0], text[close])
    requires forall i :: 0 < i < close ==> !Closes(text[0], text[i])
    ensures Scan(text, 0, cur, Some(text[0])) == [Segment(MARKER, text[..close + 1])] + Scan(text, close + 1, close + 1, None)
    decreases close - cur
  {
    if cur < close { ScanInside(text, cur + 1, close); } else { assert text[0..close + 1] == text[..close + 1]; }
  }

  // Where the scan stands in the text does not matter.
  lemma {:induction false} ScanShifts(front: string, text: string, border: nat, cur: nat, opener: Option<char>)
    requires border <= cur <= |text|
    ensures Scan(front + text, |front| + border, |front| + cur, opener) == Scan(text, border, cur, opener)
    decreases |text| - cur
  {
    hide IsOpener, Closes;
    var all, k := front + text, |front|;
    if cur == |text| {
      Shifted(front, text, border, cur);
    } else {
      assert all[k + cur] == text[cur];
      Shifted(front, text, border, cur);
      Shifted(front, text, border, cur + 1);
      if opener.None? && IsOpener(text[cur]) {
        ScanShifts(front, text, cur, cur + 1, Some(text[cur]));
      } else if opener.Some? && Closes(opener.value, text[cur]) {
        ScanShifts(front, text, cur + 1, cur + 1, None);
      } else {
        ScanShifts(front, text, border, cur + 1, opener);
      }
    }
  }

  lemma {:induction false} Shifted(front: string, text: string, i: nat, j: nat)
    requires i <= j <= |text|
    ensures (front + text)[|front| + i..|front| + j] == text[i..j] && (front + text)[|front| + i..] == text[i..]
  {
  }

  // A marker in front is a segment of its own.
  lemma {:induction false} MarkerFirst(v: string, rest: string)
    requires MarkerShape(v)
    ensures Segments(v + rest) == [Segment(MARKER, v)] + Segments(rest)
  {
    var text := v + rest;
    ScanInside(text, 1, |v| - 1);
    assert text[..|v|] == v;
    ScanShifts(v, rest, 0, 0, None);
    assert Segments(text) == [] + Scan(text, 0, 1, Some(text[0]));
    assert [] + Scan(text, 0, 1, Some(text[0])) == Scan(text, 0, 1, Some(text[0]));
  }

  lemma {:induction false} MarkerAlone(v: string)
    requires MarkerShape(v)
    ensures Segments(v) == [Segment(MARKER, v)]
  {
    MarkerFirst(v, "");
    assert v + "" == v && Segments("") == [] && [Segment(MARKER, v)] + [] == [Segment(MARKER, v)];
  }

  lemma {:induction false} LoopOfExample(L: seq<Segment>, R: seq<Segment>, a: Segment, b: Segment, c: Segment)
    requires L == [a, b] && R == [a, c, b, b] && a != b && b != c
    ensures Finish(L, R, Loop(L, R, Start(L, R))) == DState(1, 1, 1, 1, a.value, b.value + b.value, true, false)
  {
    var s := DState(1, 1, 1, 2, a.value, b.value, true, false);
    assert "" + a.value == a.value && b.value + "" == b.value;
    assert TakeFirst(L, R, Start(L, R)) == DState(1, 1, 1, 3, a.value, "", false, false);
    assert TakeLast(L, R, TakeFirst(L, R, Start(L, R))) == s;
    assert Loop(L, R, s) == s;
  }

  // With a marker repeated at the end the split is wrong, whatever the markers are: for "<a><b>" and
  // "<a><c><b><b>" it says that the first text ends with "<b><b>".
  lemma {:induction false} RepeatedMarkerLost(a: string, b: string, c: string)
    requires MarkerShape(a) && MarkerShape(b) && MarkerShape(c) && a != b && b != c
    ensures var left, right := a + b, a + (c + (b + b));
            Split(left, right) == Diff(a, b + b, "", c) && !Lossless(Split(left, right), left, right)
  {
    var A, B, C := Segment(MARKER, a), Segment(MARKER, b), Segment(MARKER, c);
    MarkerAlone(b);
    MarkerFirst(b, b);
    MarkerFirst(c, b + b);
    MarkerFirst(a, b);
    MarkerFirst(a, c + (b + b));
    var L, R := Segments(a + b), Segments(a + (c + (b + b)));
    hide Segments;
    assert L == [A, B] && R == [A, C, B, B];
    LoopOfExample(L, R, A, B, C);
    hide Loop, Finish;
    var f := DState(1, 1, 1, 1, a, b + b, true, false);
    assert L[1..1] == [] && R[1..2] == [C];
    EmptyConcat();
    OneConcat(C);
    hide Concat;
    assert a + "" == a && "" + (b + b) == b + b && c != "";
    assert CutState(L, R, f) == Diff(a, b + b, "", c);
    assert |a + "" + (b + b)| != |a + b|;
  }
}
