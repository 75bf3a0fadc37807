/** How tight the two-ended diff split is: no segment and no text that both remainders share at an end is
    left in the two differences. */
module DiffTight {
  import opened Basics
  import opened DiffSplit

  // ---------- a tight split ----------

  predicate LongestPrefix(x: string, a: string, b: string) {
    x <= a && x <= b && (|x| < |a| && |x| < |b| ==> a[|x|] != b[|x|])
  }

  predicate EndsWith(a: string, z: string) { |z| <= |a| && a[|a| - |z|..] == z }

  predicate LongestSuffix(z: string, a: string, b: string) {
    EndsWith(a, z) && EndsWith(b, z) && (|z| < |a| && |z| < |b| ==> a[|a| - 1 - |z|] != b[|b| - 1 - |z|])
  }

  // The first `i` and the last `j` segments agree.
  predicate Agree(L: seq<Segment>, R: seq<Segment>, i: nat, j: nat) {
    i + j <= |L| && i + j <= |R| && L[..i] == R[..i] && L[|L| - j..] == R[|R| - j..]
  }

  // What remains agrees at neither end, unless it is one text on both sides.
  predicate EndsDiffer(A: seq<Segment>, B: seq<Segment>) {
    A != [] && B != [] ==> (A[0] != B[0] && A[|A| - 1] != B[|B| - 1]) || (A == B && |A| == 1 && A[0].kind == TEXT)
  }

  predicate TextStarts(A: seq<Segment>, B: seq<Segment>) { A != [] && B != [] && A[0].kind == TEXT && B[0].kind == TEXT }

  predicate TextEnds(A: seq<Segment>, B: seq<Segment>) {
    A != [] && B != [] && A[|A| - 1].kind == TEXT && B[|B| - 1].kind == TEXT
  }

  // Of what remains, `x` and `z` are taken off: where both ends are text the longest common suffix, then
  // where both starts are text the longest common prefix of the rest, and nothing elsewhere.
  predicate CutTight(a: string, b: string, x: string, z: string, left: string, right: string, textStart: bool, textEnd: bool) {
    && a == x + left + z && b == x + right + z
    && (if textEnd then LongestSuffix(z, a, b) else z == "")
    && (if textStart then LongestPrefix(x, x + left, x + right) else x == "")
  }

  ghost predicate TightAt(L: seq<Segment>, R: seq<Segment>, i: nat, j: nat, x: string, z: string, d: Diff) {
    && Agree(L, R, i, j)
    && var A, B := L[i..|L| - j], R[i..|R| - j];
    && EndsDiffer(A, B)
    && CutTight(Concat(A), Concat(B), x, z, d.left, d.right, TextStarts(A, B), TextEnds(A, B))
    && d.prefix == Concat(L[..i]) + x && d.suffix == z + Concat(L[|L| - j..])
  }

  ghost predicate Tight(L: seq<Segment>, R: seq<Segment>, d: Diff) { exists i: nat, j: nat, x, z :: TightAt(L, R, i, j, x, z, d) }

  // ---------- the loop ----------

  // Both sides have taken the same segments.
  predicate InStep(L: seq<Segment>, R: seq<Segment>, s: DState) {
    && InRange(L, R, s) && s.ls == s.rs && |L| - LeftEnd(s) == |R| - RightEnd(s)
    && Agree(L, R, s.ls, |L| - LeftEnd(s))
    && (s.leftDone ==> s.ls == s.le) && (s.rightDone ==> s.rs == s.re)
  }

  lemma {:induction false} OneMoreAgrees(L: seq<Segment>, R: seq<Segment>, i: nat, j: nat)
    requires Agree(L, R, i, j) && i + j < |L| && i + j < |R|
    ensures L[i] == R[i] ==> Agree(L, R, i + 1, j)
    ensures L[|L| - 1 - j] == R[|R| - 1 - j] ==> Agree(L, R, i, j + 1)
  {
    assert L[..i + 1] == L[..i] + [L[i]] && R[..i + 1] == R[..i] + [R[i]];
    assert L[|L| - 1 - j..] == [L[|L| - 1 - j]] + L[|L| - j..] && R[|R| - 1 - j..] == [R[|R| - 1 - j]] + R[|R| - j..];
  }

  lemma {:induction false} TakesInStep(L: seq<Segment>, R: seq<Segment>, s: DState)
    requires InStep(L, R, s) && More(s) && !s.leftDone && !s.rightDone
    ensures var s1 := TakeFirst(L, R, s);
            InStep(L, R, s1) && !s1.leftDone && !s1.rightDone && InStep(L, R, TakeLast(L, R, s1))
  {
    var s1 := TakeFirst(L, R, s);
    OneMoreAgrees(L, R, s.ls, |L| - LeftEnd(s));
    OneMoreAgrees(L, R, s1.ls, |L| - LeftEnd(s1));
    hide Agree;
  }

  // Where the loop stops: a side is down to one segment, or neither end agrees.
  lemma {:induction false} LoopInStep(L: seq<Segment>, R: seq<Segment>, s: DState)
    requires InStep(L, R, s)
    ensures var r := Loop(L, R, s);
            InStep(L, R, r) && (More(r) ==> L[r.ls] != R[r.rs] && L[r.le] != R[r.re])
    decreases s.le - s.ls
  {
    hide Agree;
    if More(s) {
      TakesInStep(L, R, s);
      var s1 := TakeFirst(L, R, s);
      var s2 := TakeLast(L, R, s1);
      if L[s.ls] == R[s.rs] || L[s1.le] == R[s1.re] { LoopInStep(L, R, s2); }
    }
  }

  lemma {:induction false} StartInStep(L: seq<Segment>, R: seq<Segment>)
    requires L != [] && R != []
    ensures InStep(L, R, Start(L, R))
  {
  }

  function LeftPart(L: seq<Segment>, s: DState): seq<Segment>
    requires 0 <= s.ls <= s.le < |L|
  {
    L[s.ls..LeftEnd(s)]
  }

  function RightPart(R: seq<Segment>, s: DState): seq<Segment>
    requires 0 <= s.rs <= s.re < |R|
  {
    R[s.rs..RightEnd(s)]
  }

  // The segments between the first `i` and the last `j` are what the state leaves; it has taken the others.
  ghost predicate Leaves(L: seq<Segment>, R: seq<Segment>, f: DState, i: nat, j: nat) {
    && InRange(L, R, f) && Agree(L, R, i, j) && L[i..|L| - j] == LeftPart(L, f) && R[i..|R| - j] == RightPart(R, f)
    && f.prefix == Concat(L[..i]) && f.suffix == Concat(L[|L| - j..])
    && (f.leftDone ==> f.ls == f.le) && (f.rightDone ==> f.rs == f.re)
  }

  lemma {:induction false} FinishLeaves(L: seq<Segment>, R: seq<Segment>, s: DState) returns (i: nat, j: nat)
    requires InStep(L, R, s) && Covered(L, R, s) && !Recompared(L, R, s) && !(s.leftDone && s.rightDone)
    requires More(s) ==> L[s.ls] != R[s.rs] && L[s.le] != R[s.re]
    ensures var f := Finish(L, R, s); Leaves(L, R, f, i, j) && EndsDiffer(LeftPart(L, f), RightPart(R, f))
  {
    hide Concat;
    i, j := s.ls, |L| - LeftEnd(s);
    if s.leftDone {
      assert Finish(L, R, s) == s && LeftPart(L, s) == [];
    } else if s.rightDone {
      assert Finish(L, R, s) == s && RightPart(R, s) == [];
    } else {
      i, j := OpenLeaves(L, R, s);
    }
  }

  lemma {:induction false} OpenLeaves(L: seq<Segment>, R: seq<Segment>, s: DState) returns (i: nat, j: nat)
    requires InStep(L, R, s) && Covered(L, R, s) && !s.leftDone && !s.rightDone
    requires More(s) ==> L[s.ls] != R[s.rs] && L[s.le] != R[s.re]
    ensures var f := Finish(L, R, s); Leaves(L, R, f, i, j) && EndsDiffer(LeftPart(L, f), RightPart(R, f))
  {
    hide Concat;
    i, j := s.ls, |L| - s.le - 1;
    OneMoreAgrees(L, R, i, j);
    ConcatSnoc(L, i);
    ConcatSnoc(L, s.le);
    hide Agree;
    if More(s) {
      MoreDiffers(L, R, s);
    } else if s.ls == s.le && s.rs != s.re {
      i, j := LeftSingle(L, R, s, i, j);
    } else if s.rs == s.re && s.ls != s.le {
      i, j := RightSingle(L, R, s, i, j);
    } else if L[s.ls] == R[s.rs] && L[s.ls].kind == MARKER {
      i := i + 1;
      assert L[s.ls..s.le] == [] == L[i..s.le + 1] && R[s.rs..s.re] == [] == R[i..s.re + 1];
    } else {
      assert L[s.ls..s.le + 1] == [L[s.ls]] && R[s.rs..s.re + 1] == [R[s.rs]];
      KindsAre(L[s.ls]);
    }
  }

  // What is known of a state with both ends open, before its last comparisons.
  ghost predicate Open(L: seq<Segment>, R: seq<Segment>, s: DState, i: nat, j: nat) {
    && InRange(L, R, s) && s.ls == s.rs == i && j == |L| - s.le - 1 == |R| - s.re - 1 && !s.leftDone && !s.rightDone && Agree(L, R, i, j)
    && (L[s.ls] == R[s.rs] ==> Agree(L, R, i + 1, j)) && (L[s.le] == R[s.re] ==> Agree(L, R, i, j + 1))
    && s.prefix == Concat(L[..i]) && Concat(L[..i + 1]) == s.prefix + L[i].value
    && s.suffix == Concat(L[s.le + 1..]) && Concat(L[s.le..]) == L[s.le].value + s.suffix
  }

  lemma {:induction false} LeftSingle(L: seq<Segment>, R: seq<Segment>, s: DState, i0: nat, j0: nat) returns (i: nat, j: nat)
    requires Open(L, R, s, i0, j0) && s.ls == s.le && s.rs != s.re
    ensures var f := Finish(L, R, s); Leaves(L, R, f, i, j) && EndsDiffer(LeftPart(L, f), RightPart(R, f))
  {
    hide Concat, Agree;
    i, j := i0, j0;
    assert L[s.ls..s.le] == [];
    if L[s.ls] == R[s.re] {
      j := j + 1;
    } else if L[s.ls] == R[s.rs] {
      i := i + 1;
      assert L[i..s.le + 1] == [];
    } else {
      MoreDiffers(L, R, s);
    }
  }

  lemma {:induction false} RightSingle(L: seq<Segment>, R: seq<Segment>, s: DState, i0: nat, j0: nat) returns (i: nat, j: nat)
    requires Open(L, R, s, i0, j0) && s.rs == s.re && s.ls != s.le
    ensures var f := Finish(L, R, s); Leaves(L, R, f, i, j) && EndsDiffer(LeftPart(L, f), RightPart(R, f))
  {
    hide Concat, Agree;
    i, j := i0, j0;
    assert R[s.rs..s.re] == [];
    if L[s.le] == R[s.rs] {
      j := j + 1;
    } else if L[s.ls] == R[s.rs] {
      i := i + 1;
      assert R[i..s.re + 1] == [];
    } else {
      MoreDiffers(L, R, s);
    }
  }

  lemma {:induction false} MoreDiffers(L: seq<Segment>, R: seq<Segment>, s: DState)
    requires InRange(L, R, s) && !s.leftDone && !s.rightDone && L[s.ls] != R[s.rs] && L[s.le] != R[s.re]
    ensures EndsDiffer(LeftPart(L, s), RightPart(R, s))
  {
    var A, B := LeftPart(L, s), RightPart(R, s);
    assert A[0] == L[s.ls] && B[0] == R[s.rs] && A[|A| - 1] == L[s.le] && B[|B| - 1] == R[s.re];
  }

  lemma {:induction false} KindsAre(x: Segment)
    ensures x.kind == MARKER || x.kind == TEXT
  {
  }

  // ---------- the cut ----------

  lemma {:induction false} Thirds(a: string, m: nat, n: nat)
    requires m + n <= |a|
    ensures a == a[..m] + a[m..|a| - n] + a[|a| - n..] && a[..|a| - n] == a[..m] + a[m..|a| - n]
  {
  }

  lemma {:induction false} SuffixLongest(a: string, b: string)
    ensures var n := CommonSuffixLen(a, b);
            a[|a| - n..] == b[|b| - n..] && LongestSuffix(a[|a| - n..], a, b)
  {
    var n := CommonSuffixLen(a, b);
    SameEnd(a, b, n);
    assert n < |a| && n < |b| ==> FromEnd(a, n) != FromEnd(b, n);
  }

  lemma {:induction false} PrefixLongest(a: string, b: string)
    ensures var m := CommonPrefixLen(a, b); a[..m] == b[..m] && LongestPrefix(a[..m], a, b)
  {
    var m := CommonPrefixLen(a, b);
    assert forall k :: 0 <= k < m ==> a[k] == b[k];
  }

  lemma {:induction false} SuffixTaken(a: string, b: string, wanted: bool) returns (n: nat, z: string)
    ensures n == (if wanted then CommonSuffixLen(a, b) else 0) && n <= |a| && n <= |b|
    ensures z == a[|a| - n..] == b[|b| - n..] && (if wanted then LongestSuffix(z, a, b) else z == "")
  {
    SuffixLongest(a, b);
    hide CommonSuffixLen, LongestSuffix;
    n := if wanted then CommonSuffixLen(a, b) else 0;
    z := a[|a| - n..];
  }

  lemma {:induction false} PrefixTaken(a: string, b: string, wanted: bool) returns (m: nat, x: string)
    ensures m == (if wanted then CommonPrefixLen(a, b) else 0) && m <= |a| && m <= |b|
    ensures x == a[..m] == b[..m] && (if wanted then LongestPrefix(x, a, b) else x == "")
  {
    PrefixLongest(a, b);
    hide CommonPrefixLen, LongestPrefix;
    m := if wanted then CommonPrefixLen(a, b) else 0;
    x := a[..m];
  }

  lemma {:induction false} CutIsTight(a: string, b: string, prefix: string, suffix: string, textEnd: bool, textStart: bool)
    returns (x: string, z: string)
    ensures var d := Cut(a, b, prefix, suffix, textEnd, textStart);
            CutTight(a, b, x, z, d.left, d.right, textStart, textEnd) && d.prefix == prefix + x && d.suffix == z + suffix
  {
    hide CommonSuffixLen, CommonPrefixLen, LongestPrefix, LongestSuffix;
    var n, m;
    n, z := SuffixTaken(a, b, textEnd);
    m, x := PrefixTaken(a[..|a| - n], b[..|b| - n], textStart);
    Thirds(a, m, n);
    Thirds(b, m, n);
    assert a[..|a| - n][..m] == a[..m] && b[..|b| - n][..m] == b[..m];
  }

  lemma {:induction false} NothingToCut(a: string, b: string, prefix: string, suffix: string, textEnd: bool, textStart: bool)
    requires a == "" || b == ""
    ensures Cut(a, b, prefix, suffix, textEnd, textStart) == Cut(a, b, prefix, suffix, false, false)
  {
    assert CommonSuffixLen(a, b) == 0 && CommonPrefixLen(a[..|a| - 0], b[..|b| - 0]) == 0;
  }

  // ---------- the main result ----------

  lemma {:induction false} StateTight(L: seq<Segment>, R: seq<Segment>, f: DState, i: nat, j: nat)
    requires Leaves(L, R, f, i, j) && EndsDiffer(LeftPart(L, f), RightPart(R, f))
    ensures Tight(L, R, CutState(L, R, f))
  {
    hide Concat, Agree, EndsDiffer, Cut, CutTight;
    var A, B := LeftPart(L, f), RightPart(R, f);
    var a, b := Concat(A), Concat(B);
    var textEnd, textStart := L[f.le].kind == TEXT && R[f.re].kind == TEXT, R[f.rs].kind == TEXT && L[f.ls].kind == TEXT;
    if A == [] || B == [] {
      EmptyConcat();
      NothingToCut(a, b, f.prefix, f.suffix, textEnd, textStart);
      textEnd, textStart := false, false;
    } else {
      PartEnds(L, R, f);
    }
    var x, z := CutIsTight(a, b, f.prefix, f.suffix, textEnd, textStart);
    assert TightAt(L, R, i, j, x, z, CutState(L, R, f));
  }

  lemma {:induction false} PartEnds(L: seq<Segment>, R: seq<Segment>, f: DState)
    requires InRange(L, R, f) && LeftPart(L, f) != [] && RightPart(R, f) != [] && (f.leftDone ==> f.ls == f.le) && (f.rightDone ==> f.rs == f.re)
    ensures TextEnds(LeftPart(L, f), RightPart(R, f)) <==> L[f.le].kind == TEXT && R[f.re].kind == TEXT
    ensures TextStarts(LeftPart(L, f), RightPart(R, f)) <==> R[f.rs].kind == TEXT && L[f.ls].kind == TEXT
  {
  }

  lemma {:induction false} NothingTight(L: seq<Segment>, R: seq<Segment>)
    requires L == [] || R == []
    ensures Tight(L, R, Diff("", "", Concat(L), Concat(R)))
  {
    EmptyConcat();
    var d := Diff("", "", Concat(L), Concat(R));
    assert L[0..|L| - 0] == L && R[0..|R| - 0] == R && L[..0] == R[..0] == [] && L[|L|..] == R[|R|..] == [];
    assert "" + d.left + "" == d.left && "" + d.right + "" == d.right;
    hide Concat;
    assert TightAt(L, R, 0, 0, "", "", d);
  }

  // Main result: a split of two different texts that loses nothing takes off everything they share at
  // their ends, segment by segment and then, at ends that are text, character by character.
  lemma {:induction false} SplitTight(left: string, right: string)
    requires Lossless(Split(left, right), left, right) && left != right
    ensures Tight(Segments(left), Segments(right), Split(left, right))
  {
    var L, R := Segments(left), Segments(right);
    SplitExact(left, right);
    SegmentsConcatBack(left);
    SegmentsConcatBack(right);
    SegmentsShaped(left);
    SegmentsShaped(right);
    hide Segments, Concat, AllShaped;
    if L == [] || R == [] {
      NothingTight(L, R);
    } else {
      var s := Loop(L, R, Start(L, R));
      StartCovered(L, R);
      LoopCovered(L, R, Start(L, R));
      StartInStep(L, R);
      LoopInStep(L, R, Start(L, R));
      if s.leftDone && s.rightDone { BothDone(L, R, s); }
      hide Finish, Loop, CutState, Tight, Covered, InStep, Recompared;
      var i, j := FinishLeaves(L, R, s);
      StateTight(L, R, Finish(L, R, s), i, j);
      EmptyDifference(left, right);
    }
  }

  lemma {:induction false} EmptyDifference(left: string, right: string)
    requires Lossless(Split(left, right), left, right)
    ensures Split(left, right).left == "" == Split(left, right).right ==> left == right
  {
    hide Split;
  }

  // The same text twice is all prefix.
  lemma {:induction false} SameText(text: string)
    ensures Split(text, text) == Diff(text, "", "", "")
  {
    var L := Segments(text);
    SegmentsShaped(text);
    hide Segments;
    if L != [] {
      LoopSame(L, Start(L, L));
      hide Loop, Finish, CutState;
      SameRests(L, Loop(L, L, Start(L, L)));
    }
  }

  predicate Same(L: seq<Segment>, s: DState) { InRange(L, L, s) && s.ls == s.rs && s.le == s.re && s.leftDone == s.rightDone }

  lemma {:induction false} LoopSame(L: seq<Segment>, s: DState)
    requires Same(L, s)
    ensures var r := Loop(L, L, s); Same(L, r) && r.ls == r.le
    decreases s.le - s.ls
  {
    if More(s) { LoopSame(L, TakeLast(L, L, TakeFirst(L, L, s))); }
  }

  lemma {:induction false} SameRests(L: seq<Segment>, s: DState)
    requires Same(L, s) && s.ls == s.le
    ensures var d := CutState(L, L, Finish(L, L, s)); d.left == "" == d.right
  {
    hide Concat, PrefixFrom, SuffixFrom;
    EmptyConcat();
    assert L[s.ls..s.le] == [];
    KindsAre(L[s.ls]);
    AllSuffix(LeftRest(L, Finish(L, L, s)), 0);
    AllSuffix("", 0);
  }

  lemma {:induction false} AllSuffix(a: string, n: nat)
    requires n <= |a|
    ensures SuffixFrom(a, a, n) == |a|
    decreases |a| - n
  {
    if n < |a| { AllSuffix(a, n + 1); }
  }

  // ---------- where a segment that fits both ends goes ----------

  // A lone marker that the other text both begins and ends with is taken for its end.
  lemma {:induction false} LoneMarkerLast(a: string, b: string)
    requires MarkerShape(a) && MarkerShape(b) && a != b
    ensures Split(a, a + (b + a)) == Diff("", a, "", a + b)
    ensures Split(a + (b + a), a) == Diff("", a, a + b, "")
  {
    MarkerAlone(a);
    MarkerFirst(b, a);
    MarkerFirst(a, b + a);
    hide Segments;
    var A, B := Segment(MARKER, a), Segment(MARKER, b);
    var one, three := [A], [A, B, A];
    assert [A] + ([B] + [A]) == three;
    assert Loop(one, three, Start(one, three)) == Start(one, three) && Loop(three, one, Start(three, one)) == Start(three, one);
    assert three[0..2] == [A, B] && one[0..0] == [];
    PairConcat(A, B);
    assert a + "" == a;
  }

  lemma {:induction false} PairConcat(x: Segment, y: Segment)
    ensures Concat([x, y]) == x.value + y.value && Concat([]) == ""
  {
    assert [x, y][1..] == [y];
    OneConcat(y);
  }
}
