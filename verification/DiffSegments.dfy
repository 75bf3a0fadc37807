/** Which segmentation of a text the template differ works on: the only one of its kind. */
module DiffSegments {
  import opened Basics
  import opened DiffSplit

  // A marker that never closes, kept as text.
  predicate Unclosed(s: Segment) { s.kind == TEXT && s.value != "" && IsOpener(s.value[0]) }

  // Texts are as long as they can be: behind one stands a marker or an unclosed one, behind that nothing.
  predicate Tidy(segs: seq<Segment>) {
    forall i :: 0 <= i < |segs| - 1 ==> !Unclosed(segs[i]) && (segs[i].kind == TEXT ==> segs[i + 1].kind == MARKER || Unclosed(segs[i + 1]))
  }

  lemma {:induction false} TidyCons(s: Segment, segs: seq<Segment>)
    requires Tidy(segs) && (segs != [] ==> !Unclosed(s) && (s.kind == TEXT ==> segs[0].kind == MARKER || Unclosed(segs[0])))
    ensures Tidy([s] + segs)
  {
    hide Unclosed;
    var all := [s] + segs;
    forall i | 0 <= i < |all| - 1 ensures !Unclosed(all[i]) && (all[i].kind == TEXT ==> all[i + 1].kind == MARKER || Unclosed(all[i + 1])) {
      if i > 0 { assert all[i] == segs[i - 1] && all[i + 1] == segs[i]; }
    }
  }

  // Inside a marker the next segment is that marker, closed or not.
  lemma {:induction false} ScanFirst(text: string, border: nat, cur: nat, opener: Option<char>)
    requires ScanInv(text, border, cur, opener) && opener.Some?
    ensures var segs := Scan(text, border, cur, opener); segs != [] && (segs[0].kind == MARKER || Unclosed(segs[0]))
    decreases |text| - cur
  {
    if cur < |text| && !Closes(opener.value, text[cur]) { ScanFirst(text, border, cur + 1, opener); }
  }

  lemma {:induction false} PlainText(text: string, border: nat, cur: nat)
    requires border < cur <= |text| && forall i :: border <= i < cur ==> !IsOpener(text[i])
    ensures !Unclosed(Segment(TEXT, text[border..cur]))
  {
  }

  lemma {:induction false} ScanTidy(text: string, border: nat, cur: nat, opener: Option<char>)
    requires ScanInv(text, border, cur, opener)
    ensures Tidy(Scan(text, border, cur, opener))
    decreases |text| - cur
  {
    hide Unclosed;
    if cur == |text| {
    } else if opener.None? && IsOpener(text[cur]) {
      var tail := Scan(text, cur, cur + 1, Some(text[cur]));
      ScanTidy(text, cur, cur + 1, Some(text[cur]));
      ScanFirst(text, cur, cur + 1, Some(text[cur]));
      if border < cur {
        PlainText(text, border, cur);
        TidyCons(Segment(TEXT, text[border..cur]), tail);
      } else {
        assert [] + tail == tail;
      }
    } else if opener.Some? && Closes(opener.value, text[cur]) {
      ScanTidy(text, cur + 1, cur + 1, None);
      MarkerClosed(text[border..cur + 1]);
      TidyCons(Segment(MARKER, text[border..cur + 1]), Scan(text, cur + 1, cur + 1, None));
    } else {
      ScanTidy(text, border, cur + 1, opener);
    }
  }

  lemma {:induction false} MarkerClosed(v: string)
    ensures !Unclosed(Segment(MARKER, v))
  {
  }

  // ---------- reading a text in a given way ----------

  lemma {:induction false} AlongText(text: string, border: nat, cur: nat, end: nat)
    requires border <= cur <= end <= |text| && forall i :: cur <= i < end ==> !IsOpener(text[i])
    ensures Scan(text, border, cur, None) == Scan(text, border, end, None)
    decreases end - cur
  {
    if cur < end { AlongText(text, border, cur + 1, end); }
  }

  lemma {:induction false} AlongMarker(text: string, border: nat, cur: nat, end: nat, c: char)
    requires border < cur <= end <= |text| && forall i :: cur <= i < end ==> !Closes(c, text[i])
    ensures Scan(text, border, cur, Some(c)) == Scan(text, border, end, Some(c))
    decreases end - cur
  {
    if cur < end { AlongMarker(text, border, cur + 1, end, c); }
  }

  lemma {:induction false} ReadMarker(text: string, border: nat, v: string)
    requires MarkerShape(v) && border + |v| <= |text| && text[border..border + |v|] == v
    ensures Scan(text, border, border, None) == [Segment(MARKER, v)] + Scan(text, border + |v|, border + |v|, None)
  {
    assert forall i :: 0 <= i < |v| ==> text[border + i] == v[i];
    var last := border + |v| - 1;
    forall i | border + 1 <= i < last ensures !Closes(v[0], text[i]) { assert text[border + (i - border)] == v[i - border]; }
    var tail := Scan(text, border, border + 1, Some(v[0]));
    assert [] + tail == tail;
    AlongMarker(text, border, border + 1, last, v[0]);
    assert text[border + (|v| - 1)] == v[|v| - 1];
  }

  lemma {:induction false} ReadText(text: string, border: nat, v: string)
    requires v != "" && border + |v| <= |text| && text[border..border + |v|] == v && forall i :: 0 <= i < |v| ==> !IsOpener(v[i])
    requires border + |v| < |text| ==> IsOpener(text[border + |v|])
    ensures Scan(text, border, border, None) == [Segment(TEXT, v)] + Scan(text, border + |v|, border + |v|, None)
  {
    var end := border + |v|;
    forall i | border <= i < end ensures !IsOpener(text[i]) { assert text[border..end][i - border] == v[i - border]; }
    AlongText(text, border, border, end);
    if end < |text| {
      var tail := Scan(text, end, end + 1, Some(text[end]));
      assert [] + tail == tail;
    } else {
      assert text[border..] == v && Scan(text, end, end, None) == [];
    }
  }

  lemma {:induction false} ReadUnclosed(text: string, border: nat)
    requires border < |text| && IsOpener(text[border]) && forall i :: border < i < |text| ==> !Closes(text[border], text[i])
    ensures Scan(text, border, border, None) == [Segment(TEXT, text[border..])]
  {
    var tail := Scan(text, border, border + 1, Some(text[border]));
    assert [] + tail == tail;
    AlongMarker(text, border, border + 1, |text|, text[border]);
  }

  lemma {:induction false} FirstValue(segs: seq<Segment>, text: string, border: nat)
    requires border <= |text| && segs != [] && Concat(segs) == text[border..]
    ensures var n := |segs[0].value|;
            border + n <= |text| && text[border..border + n] == segs[0].value && Concat(segs[1..]) == text[border + n..]
  {
    var v, rest := segs[0].value, Concat(segs[1..]);
    assert text[border..] == v + rest;
    assert text[border..][..|v|] == v && text[border..][|v|..] == rest;
    assert text[border..][..|v|] == text[border..border + |v|] && text[border..][|v|..] == text[border + |v|..];
  }

  // The first character of what follows a text.
  lemma {:induction false} NextOpens(segs: seq<Segment>, text: string, border: nat)
    requires border <= |text| && segs != [] && Concat(segs) == text[border..] && AllShaped(segs) && (segs[0].kind == MARKER || Unclosed(segs[0]))
    ensures border < |text| && IsOpener(text[border])
  {
    FirstValue(segs, text, border);
    hide Concat;
    assert Shaped(segs[0]);
    assert text[border..border + |segs[0].value|][0] == text[border];
  }

  lemma {:induction false} ScanReads(segs: seq<Segment>, text: string, border: nat)
    requires border <= |text| && Concat(segs) == text[border..] && AllShaped(segs) && Tidy(segs)
    ensures Scan(text, border, border, None) == segs
    decreases |segs|
  {
    hide Scan;
    if segs == [] {
      NothingLeft(text, border);
    } else {
      FirstValue(segs, text, border);
      var v, rest := segs[0].value, segs[1..];
      RestTidy(segs);
      assert Shaped(segs[0]) && segs == [segs[0]] + rest;
      hide Concat, Tidy, AllShaped;
      if segs[0].kind == MARKER {
        ReadMarker(text, border, v);
        ScanReads(rest, text, border + |v|);
      } else if Unclosed(segs[0]) {
        UnclosedRead(text, border, v, rest);
      } else {
        if rest != [] { NextOpens(rest, text, border + |v|); } else { NothingBehind(text, border + |v|); }
        ReadText(text, border, v);
        ScanReads(rest, text, border + |v|);
      }
    }
  }

  lemma {:induction false} NothingLeft(text: string, border: nat)
    requires border <= |text| && Concat([]) == text[border..]
    ensures Scan(text, border, border, None) == []
  {
    assert border == |text|;
  }

  lemma {:induction false} NothingBehind(text: string, border: nat)
    requires border <= |text| && Concat([]) == text[border..]
    ensures border == |text|
  {
  }

  lemma {:induction false} UnclosedRead(text: string, border: nat, v: string, rest: seq<Segment>)
    requires border + |v| <= |text| && text[border..border + |v|] == v && Concat(rest) == text[border + |v|..] && rest == []
    requires TextShape(v) && IsOpener(v[0])
    ensures Scan(text, border, border, None) == [Segment(TEXT, v)]
  {
    NothingBehind(text, border + |v|);
    assert forall i :: 0 <= i < |v| ==> text[border + i] == v[i];
    forall i | border < i < |text| ensures !Closes(text[border], text[i]) { assert text[border + (i - border)] == v[i - border]; }
    assert text[border + 0] == v[0];
    ReadUnclosed(text, border);
    assert text[border..] == v;
  }

  lemma {:induction false} RestTidy(segs: seq<Segment>)
    requires segs != [] && AllShaped(segs) && Tidy(segs)
    ensures AllShaped(segs[1..]) && Tidy(segs[1..])
    ensures segs[1..] != [] ==> !Unclosed(segs[0]) && (segs[0].kind == TEXT ==> segs[1..][0].kind == MARKER || Unclosed(segs[1..][0]))
  {
    hide Unclosed, Shaped;
    var rest := segs[1..];
    assert forall i :: 0 <= i < |rest| ==> rest[i] == segs[i + 1];
    forall i | 0 <= i < |rest| - 1 ensures !Unclosed(rest[i]) && (rest[i].kind == TEXT ==> rest[i + 1].kind == MARKER || Unclosed(rest[i + 1])) {
      assert rest[i] == segs[i + 1] && rest[i + 1] == segs[i + 1 + 1];
    }
  }

  // Main result: the segments of a text are the only ones that concatenate back to it, are markers up to the
  // first closer and texts without openers, and leave no text beside another.
  lemma {:induction false} SegmentsExact(segs: seq<Segment>, text: string)
    ensures segs == Segments(text) <==> Concat(segs) == text && AllShaped(segs) && Tidy(segs)
  {
    hide Scan, Concat, Tidy, AllShaped;
    SegmentsConcatBack(text);
    SegmentsShaped(text);
    assert ScanInv(text, 0, 0, None);
    ScanTidy(text, 0, 0, None);
    assert text[0..] == text;
    if Concat(segs) == text && AllShaped(segs) && Tidy(segs) { ScanReads(segs, text, 0); }
  }
}
