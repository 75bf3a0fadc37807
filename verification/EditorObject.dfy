/** The line editor as the program runs it: the line as bytes, a width for each character, the cursor as
    a character count and a byte position, and the terminal column. Every method is tied to the editor
    on values in LineEditor. */
module EditorObject {
  import opened Basics
  import opened Utf8
  import opened LineEditor

  // ---------- widths ----------

  function Total(ws: seq<nat>): nat {
    if ws == [] then 0 else ws[0] + Total(ws[1..])
  }

  lemma {:induction false} TotalConcat(a: seq<nat>, b: seq<nat>)
    ensures Total(a + b) == Total(a) + Total(b)
  {
    if a == [] {
      assert a + b == b;
    } else {
      assert (a + b)[0] == a[0] && (a + b)[1..] == a[1..] + b;
      TotalConcat(a[1..], b);
    }
  }

  lemma {:induction false} TotalStep(ws: seq<nat>, k: nat)
    requires k < |ws|
    ensures Total(ws[..k + 1]) == Total(ws[..k]) + ws[k] && Total(ws[k..]) == ws[k] + Total(ws[k + 1..])
  {
    assert ws[..k + 1] == ws[..k] + [ws[k]] && ws[k..] == [ws[k]] + ws[k + 1..];
    TotalConcat(ws[..k], [ws[k]]);
    assert [ws[k]][1..] == [];
  }

  lemma {:induction false} TotalSplit(ws: seq<nat>, k: nat)
    requires k <= |ws|
    ensures Total(ws) == Total(ws[..k]) + Total(ws[k..]) && ws[..|ws|] == ws && Total(ws[..0]) == 0
  {
    assert ws == ws[..k] + ws[k..];
    TotalConcat(ws[..k], ws[k..]);
  }

  function Widths(width: Char -> nat, cs: seq<Char>): seq<nat> { seq(|cs|, i requires 0 <= i < |cs| => width(cs[i])) }

  lemma {:induction false} EraseFlat(cs: seq<Char>, k: nat)
    requires k < |cs|
    ensures Offset(cs, k) <= |Flat(cs)| && Offset(cs, k + 1) <= |Flat(cs)|
    ensures Flat(cs)[..Offset(cs, k)] + Flat(cs)[Offset(cs, k + 1)..] == Flat(RemoveAt(cs, k))
  {
    FlatSplit(cs, k);
    FlatConcat(cs[..k], cs[k + 1..]);
  }

  lemma {:induction false} InsertFlat(cs: seq<Char>, k: nat, c: Char)
    requires k <= |cs|
    ensures Offset(cs, k) <= |Flat(cs)|
    ensures Flat(InsertAt(cs, k, c)) == Flat(cs)[..Offset(cs, k)] + c + Flat(cs)[Offset(cs, k)..]
    ensures Offset(InsertAt(cs, k, c), k) == Offset(cs, k) && Offset(InsertAt(cs, k, c), k + 1) == Offset(cs, k) + |c|
  {
    var t := InsertAt(cs, k, c);
    FlatWhole(cs, k);
    assert t[..k] == cs[..k] && t[k] == c && t[k + 1..] == cs[k..];
    FlatSplit(t, k);
  }

  lemma {:induction false} InsertWidths(width: Char -> nat, cs: seq<Char>, k: nat, c: Char)
    requires k <= |cs|
    ensures Widths(width, InsertAt(cs, k, c)) == Widths(width, cs)[..k] + [width(c)] + Widths(width, cs)[k..]
  {
  }

  lemma {:induction false} OffsetsGrow(cs: seq<Char>, i: nat, j: nat)
    requires i <= j <= |cs|
    ensures Offset(cs, i) <= Offset(cs, j)
    decreases j - i
  {
    if i < j {
      FlatSplit(cs, j - 1);
      OffsetsGrow(cs, i, j - 1);
    }
  }

  lemma {:induction false} CountAll(cs: seq<Char>, i: nat, limit: nat)
    requires i <= |cs| && Offset(cs, i) <= limit
    ensures CountBefore(cs, i, limit) == i
  {
    if i > 0 {
      OffsetsGrow(cs, i - 1, i);
      CountAll(cs, i - 1, limit);
    }
  }

  lemma {:induction false} InsideLine(cs: seq<Char>, i: nat)
    requires i <= |cs| && Offset(cs, i) < |Flat(cs)|
    ensures i < |cs|
  {
    FlatWhole(cs, i);
  }

  lemma {:induction false} AtLineEnd(cs: seq<Char>, i: nat)
    requires AllEncoded(cs) && i <= |cs| && Offset(cs, i) >= |Flat(cs)|
    ensures i == |cs|
  {
    if i < |cs| { DecodeAt(cs, i); }
  }

  // One more character: the cursor follows, or the character is behind it.
  lemma {:induction false} FillStep(width: Char -> nat, cs: seq<Char>, i: nat, cursor: Option<nat>, ws: seq<nat>, back: int, w: nat)
    requires i < |cs| && ws == Widths(width, cs[..i]) && |ws| == i && w == width(cs[i])
    requires back == Total(ws[Position(cs, i, cursor)..])
    ensures ws + [w] == Widths(width, cs[..i + 1]) && Total(ws + [w]) == Total(ws) + w
    ensures if cursor.Some? && cursor.value < Offset(cs, i + 1)
            then Position(cs, i + 1, cursor) == Position(cs, i, cursor) && back + w == Total((ws + [w])[Position(cs, i, cursor)..])
            else Position(cs, i, cursor) == i && Position(cs, i + 1, cursor) == i + 1 && back == Total((ws + [w])[i + 1..])
  {
    var p := Position(cs, i, cursor);
    WidthsSnoc(width, cs, i);
    TotalConcat(ws, [w]);
    OneTotal(w);
    if cursor.Some? && cursor.value < Offset(cs, i + 1) {
      assert (ws + [w])[p..] == ws[p..] + [w];
      TotalConcat(ws[p..], [w]);
    } else {
      if cursor.Some? {
        OffsetsGrow(cs, i, i + 1);
        CountAll(cs, i, cursor.value);
        CountAll(cs, i + 1, cursor.value);
      }
      assert ws[i..] == [] && (ws + [w])[i + 1..] == [];
    }
  }

  lemma {:induction false} OneTotal(w: nat)
    ensures Total([w]) == w
  {
    assert [w][1..] == [];
  }

  lemma {:induction false} WidthsSnoc(width: Char -> nat, cs: seq<Char>, i: nat)
    requires i < |cs|
    ensures Widths(width, cs[..i + 1]) == Widths(width, cs[..i]) + [width(cs[i])]
  {
    assert cs[..i + 1] == cs[..i] + [cs[i]];
  }

  lemma {:induction false} InsertTotals(ws: seq<nat>, k: nat, w: nat)
    requires k <= |ws|
    ensures var t := ws[..k] + [w] + ws[k..];
            Total(t[..k + 1]) == Total(ws[..k]) + w && (k == |ws| ==> t == ws + [w])
  {
    var t := ws[..k] + [w] + ws[k..];
    assert t[..k + 1] == ws[..k] + [w];
    TotalConcat(ws[..k], [w]);
    OneTotal(w);
  }

  lemma {:induction false} InsertAtEnd(line: seq<Byte>, c: Char)
    ensures line[..|line|] + c + line[|line|..] == line + c
  {
  }

  lemma {:induction false} WidthCount(width: Char -> nat, cs: seq<Char>)
    ensures |Widths(width, cs)| == |cs|
  {
  }

  lemma {:induction false} EraseWidths(width: Char -> nat, cs: seq<Char>, k: nat)
    requires k < |cs|
    ensures Widths(width, RemoveAt(cs, k)) == Widths(width, cs)[..k] + Widths(width, cs)[k + 1..]
    ensures Widths(width, RemoveAt(cs, k))[..k] == Widths(width, cs)[..k]
    ensures RemoveAt(cs, k)[..k] == cs[..k]
  {
  }

  // ---------- facts the methods use ----------

  // The character at `k`: where it starts and ends, and what decoding there says.
  lemma {:induction false} CharFacts(cs: seq<Char>, k: nat)
    requires AllEncoded(cs) && k < |cs|
    ensures Offset(cs, k) < |Flat(cs)| && Offset(cs, k + 1) <= |Flat(cs)| && Offset(cs, k) <= Offset(cs, k + 1)
    ensures NextPos(Flat(cs), Offset(cs, k)) == Offset(cs, k + 1) && PrevPos(Flat(cs), Offset(cs, k + 1)) == Offset(cs, k)
    ensures Offset(cs, k + 1) == Offset(cs, k) + Decode(Flat(cs), Offset(cs, k)).1
    ensures Decode(Flat(cs), Offset(cs, k)).0 == CodeOf(cs[k])
    ensures Flat(cs)[Offset(cs, k)..Offset(cs, k + 1)] == cs[k]
  {
    ScannersAgree(cs, k);
    CodeAt(cs, k);
    CharAt(cs, k);
  }

  lemma {:induction false} WidthAt(width: Char -> nat, cs: seq<Char>, i: nat)
    requires i < |cs|
    ensures |Widths(width, cs)| == |cs| && Widths(width, cs)[i] == width(cs[i])
  {
  }

  lemma {:induction false} TotalEnds(ws: seq<nat>)
    ensures Total(ws[..0]) == 0 && Total(ws[|ws|..]) == 0 && ws[..|ws|] == ws
  {
  }

  lemma {:induction false} NothingLaid(width: Char -> nat)
    ensures AllEncoded([]) && Flat([]) == [] && Widths(width, []) == [] && Offset([], 0) == 0
    ensures var none: seq<nat> := []; Total(none[..0]) == 0
  {
  }

  lemma {:induction false} FillStart(width: Char -> nat, cs: seq<Char>)
    ensures Offset(cs, 0) == 0 && Widths(width, cs[..0]) == [] && Total([]) == 0
  {
    assert cs[..0] == [];
  }

  // ---------- the editor object ----------

  class Editor {
    // What the terminal moves by when it prints a character, and which codes are white space.
    const width: Char -> nat
    const space: int -> bool

    var line: seq<Byte>
    var widths: seq<nat>
    var charPos: nat
    var bytePos: nat
    var column: int
    var special: bool
    var entries: seq<seq<Byte>>
    var viewing: Option<nat>
    var backup: seq<Byte>

    // The characters of the line.
    ghost var chars: seq<Char>

    ghost function Hist(): History
      reads `entries, `viewing, `backup
    {
      History(entries, viewing, backup)
    }

    ghost function Abs(): State
      reads this
    {
      State(View(chars, charPos), Hist(), special)
    }

    // The line is its characters, one width each.
    ghost predicate Laid()
      reads `line, `widths, `chars
    {
      AllEncoded(chars) && line == Flat(chars) && widths == Widths(width, chars)
    }

    // The cursor is between two characters, at the right byte and at the right column.
    ghost predicate Placed()
      reads `widths, `chars, `charPos, `bytePos, `column
    {
      charPos <= |chars| == |widths| && bytePos == Offset(chars, charPos) && column == Total(widths[..charPos])
    }

    ghost predicate Valid()
      reads this
    {
      HistoryOk(Hist()) && Laid() && Placed()
    }

    constructor (w: Char -> nat, sp: int -> bool)
      ensures Valid() && width == w && space == sp
      ensures Abs() == Fresh(History([], None, []))
    {
      width, space := w, sp;
      line, widths, charPos, bytePos, column, special, chars := [], [], 0, 0, 0, false, [];
      entries, viewing, backup := [], None, [];
      new;
      EmptyWellFormed();
    }

    method EmptyLine()
      modifies this`line, this`widths, this`charPos, this`bytePos, this`column, this`chars
      ensures Laid() && Placed() && chars == [] && charPos == 0
    {
      NothingLaid(width);
      hide Widths, Offset, Flat, Total, AllEncoded;
      line, widths, charPos, bytePos, column, chars := [], [], 0, 0, 0, [];
    }

    // A new line: everything but the history starts again.
    method Start()
      requires Valid()
      modifies this`line, this`widths, this`charPos, this`bytePos, this`column, this`special, this`chars
      ensures Valid() && Abs() == Fresh(old(Hist()))
    {
      hide Laid, Placed, HistoryOk;
      EmptyLine();
      special := false;
    }

    // Prints a character; the terminal reports its width honestly.
    method Put(c: Char) returns (w: nat)
      modifies this`column
      ensures w == width(c) && column == old(column) + w
    {
      w := width(c);
      column := column + w;
    }

    method MoveCursor(delta: int)
      modifies this`column
      ensures column == old(column) + delta
    {
      column := column + delta;
    }

    // Prints the characters from `k` on, found byte by byte.
    method PrintTail(k: nat, start: nat) returns (tailWidth: nat)
      requires Laid() && k <= |chars| && start == Offset(chars, k)
      modifies this`column
      ensures k <= |widths| && tailWidth == Total(widths[k..]) && column == old(column) + tailWidth
    {
      hide AllEncoded, Flat, Total, Widths, NextPos, PrevPos, Decode, Offset, CodeOf;
      WidthCount(width, chars);
      tailWidth := 0;
      var p, i := start, k;
      while i < |widths|
        invariant k <= i <= |chars| == |widths| && p == Offset(chars, i)
        invariant column == old(column) + tailWidth && tailWidth + Total(widths[i..]) == Total(widths[k..])
      {
        CharFacts(chars, i);
        TotalStep(widths, i);
        WidthAt(width, chars, i);
        var following := NextUtf8CharPos(line, p);
        var w := Put(line[p..following]);
        tailWidth := tailWidth + widths[i];
        p := following;
        i := i + 1;
      }
      TotalEnds(widths);
    }

    method MoveToLineStart()
      requires Valid()
      modifies this`column, this`charPos, this`bytePos
      ensures Valid() && charPos == 0 && column == 0
    {
      hide Flat, HistoryOk, Laid, Total;
      TotalEnds(widths);
      var back: int := 0;
      var i := 0;
      while i < charPos
        invariant 0 <= i <= charPos <= |widths| && back == Total(widths[..i])
        invariant column == old(column) && Placed()
      {
        TotalStep(widths, i);
        back := back + widths[i];
        i := i + 1;
      }
      MoveCursor(-back);
      charPos, bytePos := 0, 0;
      FlatWhole(chars, 0);
    }

    method MoveToLineEnd()
      requires Valid()
      modifies this`column, this`charPos, this`bytePos
      ensures Valid() && charPos == |chars|
    {
      hide Flat, HistoryOk, Total, Widths, AllEncoded;
      var forward := 0;
      var i := charPos;
      while i < |widths|
        invariant charPos <= i <= |widths| && forward + Total(widths[i..]) == Total(widths[charPos..])
        invariant charPos == old(charPos) && column == old(column) && Placed()
      {
        TotalStep(widths, i);
        forward := forward + widths[i];
        i := i + 1;
      }
      TotalEnds(widths);
      TotalSplit(widths, charPos);
      FlatWhole(chars, 0);
      MoveCursor(forward);
      charPos, bytePos := |widths|, |line|;
    }

    method MoveLeft()
      requires Valid()
      modifies this`column, this`charPos, this`bytePos
      ensures Valid() && charPos == if old(charPos) > 0 then old(charPos) - 1 else 0
    {
      hide Flat, HistoryOk, Total, Widths, AllEncoded, Offset, PrevPos, NextPos, Decode, CodeOf;
      if charPos > 0 {
        TotalStep(widths, charPos - 1);
        CharFacts(chars, charPos - 1);
        var w: int := widths[charPos - 1];
        MoveCursor(-w);
        charPos := charPos - 1;
        bytePos := PrevUtf8CharPos(line, bytePos);
      }
    }

    method MoveRight()
      requires Valid()
      modifies this`column, this`charPos, this`bytePos
      ensures Valid() && charPos == if old(charPos) < |chars| then old(charPos) + 1 else old(charPos)
    {
      hide Flat, HistoryOk, Total, Widths, AllEncoded, Offset, PrevPos, NextPos, Decode, CodeOf;
      if charPos < |widths| {
        TotalStep(widths, charPos);
        CharFacts(chars, charPos);
        MoveCursor(widths[charPos]);
        charPos := charPos + 1;
        bytePos := NextUtf8CharPos(line, bytePos);
      }
    }

    // Takes the bytes from `start` to `end`, one character, out of the line.
    method EraseChar(k: nat, start: nat, end: nat)
      requires Laid() && k < |chars| && start == Offset(chars, k) && end == Offset(chars, k + 1)
      modifies this`line, this`widths, this`chars
      ensures Laid() && chars == RemoveAt(old(chars), k) && |chars| == |widths| == |old(chars)| - 1
      ensures k < |old(widths)| && widths[..k] == old(widths)[..k] && Offset(chars, k) == start
    {
      hide Flat, AllEncoded, Widths;
      FlatSplit(chars, k);
      RemoveEncoded(chars, k);
      EraseFlat(chars, k);
      EraseWidths(width, chars, k);
      WidthCount(width, chars);
      line := line[..start] + line[end..];
      widths := widths[..k] + widths[k + 1..];
      chars := RemoveAt(chars, k);
    }

    // Prints the shortened tail and blanks, and steps back over both.
    method RedrawAfterErase(k: nat, start: nat, w: int)
      requires Laid() && k <= |chars| && start == Offset(chars, k)
      modifies this`column
      ensures column == old(column)
    {
      hide *;
      var tailWidth: int := PrintTail(k, start);
      column := column + w;
      MoveCursor(-(tailWidth + w));
    }

    method DeleteAtCursor()
      requires Valid()
      modifies this`column, this`line, this`widths, this`chars
      ensures Valid() && chars == if charPos < |old(chars)| then RemoveAt(old(chars), charPos) else old(chars)
    {
      hide Flat, HistoryOk, Total, Widths, AllEncoded, Offset, PrevPos, NextPos, Decode, CodeOf, RemoveAt;
      if charPos >= |widths| { return; }
      CharFacts(chars, charPos);
      var nextPos := NextUtf8CharPos(line, bytePos);
      var w: int := widths[charPos];
      EraseChar(charPos, bytePos, nextPos);
      RedrawAfterErase(charPos, bytePos, w);
    }

    method DeleteBackwards()
      requires Valid()
      modifies this`column, this`charPos, this`bytePos, this`line, this`widths, this`chars
      ensures Valid() && (old(charPos) == 0 ==> charPos == 0 && chars == old(chars))
      ensures old(charPos) > 0 ==> old(charPos) <= |old(chars)| && charPos == old(charPos) - 1 && chars == RemoveAt(old(chars), charPos)
    {
      hide Flat, HistoryOk, Total, Widths, AllEncoded, Offset, PrevPos, NextPos, Decode, CodeOf, RemoveAt;
      if charPos > 0 {
        var w: int := widths[charPos - 1];
        TotalStep(widths, charPos - 1);
        CharFacts(chars, charPos - 1);
        MoveCursor(-w);
        charPos := charPos - 1;
        var end := bytePos;
        bytePos := PrevUtf8CharPos(line, bytePos);
        EraseChar(charPos, bytePos, end);
        RedrawAfterErase(charPos, bytePos, w);
      }
    }

    // The line and its widths with one more character.
    lemma InsertLaid(c: Char, w: nat)
      requires Laid() && charPos <= |chars| && bytePos == Offset(chars, charPos) && Encoded(c) && w == width(c)
      ensures |widths| == |chars| && bytePos <= |line|
      ensures var t := InsertAt(chars, charPos, c);
              && AllEncoded(t) && |t| == |chars| + 1
              && line[..bytePos] + c + line[bytePos..] == Flat(t)
              && widths[..charPos] + [w] + widths[charPos..] == Widths(width, t)
              && Offset(t, charPos + 1) == bytePos + |c|
              && Total(Widths(width, t)[..charPos + 1]) == Total(widths[..charPos]) + w
              && (charPos == |chars| ==> line + c == Flat(t) && widths + [w] == Widths(width, t))
    {
      hide Flat, AllEncoded, Widths, Total, Encoded;
      WidthCount(width, chars);
      InsertEncoded(chars, charPos, c);
      InsertFlat(chars, charPos, c);
      InsertWidths(width, chars, charPos, c);
      InsertTotals(widths, charPos, w);
      InsertAtEnd(line, c);
      if charPos == |chars| { FlatWhole(chars, charPos); }
    }

    lemma AppendEncoded(code: nat)
      requires code <= MAX_CODE
      ensures Encoded(Append(code))
    {
    }

    // The character is put in front of the cursor; the tail is printed again and stepped back over.
    method InsertCode(code: nat)
      requires Valid() && code <= MAX_CODE
      modifies this`column, this`charPos, this`bytePos, this`line, this`widths, this`chars
      ensures Valid() && old(charPos) <= |old(chars)| && charPos == old(charPos) + 1
      ensures chars == InsertAt(old(chars), old(charPos), Append(code))
    {
      hide Append, Encoded, Flat, AllEncoded, Widths, HistoryOk, Total, Offset, InsertAt;
      var c := Append(code);
      AppendEncoded(code);
      InsertLaid(c, width(c));
      if charPos == |widths| {
        line := line + c;
        var realWidth := Put(c);
        widths := widths + [realWidth];
        chars := InsertAt(chars, charPos, c);
        bytePos := bytePos + |c|;
        charPos := charPos + 1;
      } else {
        line := line[..bytePos] + c + line[bytePos..];
        var realWidth := Put(c);
        widths := widths[..charPos] + [realWidth] + widths[charPos..];
        chars := InsertAt(chars, charPos, c);
        var tailWidth: int := PrintTail(charPos + 1, bytePos + |c|);
        MoveCursor(-tailWidth);
        bytePos := bytePos + |c|;
        charPos := charPos + 1;
      }
    }

    method IsSpaceAt(pos: nat) returns (b: bool, advance: nat)
      requires pos < |line|
      ensures b == space(Decode(line, pos).0) && advance == Decode(line, pos).1
    {
      var r := Decode(line, pos);
      b, advance := space(r.0), r.1;
    }

    // Over the characters to the left that are (or are not) white space.
    method RunLeft(k: nat, start: nat, wanted: bool) returns (i: nat, p: nat, moved: nat)
      requires Laid() && k <= |chars| && start == Offset(chars, k)
      ensures i == SkipBack(chars, k, space, wanted) && p == Offset(chars, i) && i <= k <= |widths| == |chars|
      ensures moved + Total(widths[..i]) == Total(widths[..k])
    {
      hide Flat, Total, Widths, AllEncoded, Offset, PrevPos, NextPos, Decode, CodeOf;
      WidthCount(width, chars);
      i, p, moved := k, start, 0;
      while i > 0
        invariant i <= k && p == Offset(chars, i) && moved + Total(widths[..i]) == Total(widths[..k])
        invariant SkipBack(chars, i, space, wanted) == SkipBack(chars, k, space, wanted)
      {
        CharFacts(chars, i - 1);
        TotalStep(widths, i - 1);
        var prev := PrevUtf8CharPos(line, p);
        var b, _ := IsSpaceAt(prev);
        if b != wanted { return; }
        moved := moved + widths[i - 1];
        i := i - 1;
        p := prev;
      }
    }

    // Over the characters to the right that are (or are not) white space.
    method RunRight(k: nat, start: nat, wanted: bool) returns (i: nat, p: nat, moved: nat)
      requires Laid() && k <= |chars| && start == Offset(chars, k)
      ensures k <= i <= |chars| == |widths| && i == SkipForward(chars, k, space, wanted) && p == Offset(chars, i)
      ensures Total(widths[..i]) == Total(widths[..k]) + moved
    {
      hide Flat, Total, Widths, AllEncoded, Offset, PrevPos, NextPos, Decode, CodeOf;
      WidthCount(width, chars);
      i, p, moved := k, start, 0;
      while i < |widths|
        invariant k <= i <= |chars| && p == Offset(chars, i) && Total(widths[..i]) == Total(widths[..k]) + moved
        invariant SkipForward(chars, i, space, wanted) == SkipForward(chars, k, space, wanted)
      {
        CharFacts(chars, i);
        TotalStep(widths, i);
        var b, advance := IsSpaceAt(p);
        if b != wanted { return; }
        moved := moved + widths[i];
        i := i + 1;
        p := p + advance;
      }
    }

    method MoveWordLeft()
      requires Valid()
      modifies this`column, this`charPos, this`bytePos
      ensures Valid() && old(charPos) <= |chars|
      ensures charPos == SkipBack(chars, SkipBack(chars, old(charPos), space, true), space, false)
    {
      hide Flat, Total, Offset, HistoryOk, Laid;
      if charPos == 0 { return; }
      var i, p, a := RunLeft(charPos, bytePos, true);
      hide SkipBack;
      var j, q, b := RunLeft(i, p, false);
      var moved: int := a + b;
      MoveCursor(-moved);
      charPos, bytePos := j, q;
    }

    method MoveWordRight()
      requires Valid()
      modifies this`column, this`charPos, this`bytePos
      ensures Valid() && old(charPos) <= |chars|
      ensures charPos == SkipForward(chars, SkipForward(chars, SkipForward(chars, old(charPos), space, true), space, false), space, true)
    {
      hide Flat, Total, Offset, HistoryOk, Laid;
      if charPos >= |widths| { return; }
      var i, p, a := RunRight(charPos, bytePos, true);
      hide SkipForward;
      var j, q, b := RunRight(i, p, false);
      var k, r, c := RunRight(j, q, true);
      MoveCursor(a + b + c);
      charPos, bytePos := k, r;
    }

    // Prints and measures the characters of the new line; the cursor stays behind those before `cursor`.
    method Fill(cursor: Option<nat>, ghost cs: seq<Char>) returns (backWidth: int)
      requires AllEncoded(cs) && line == Flat(cs) && widths == [] && charPos == 0 && bytePos == 0 && column == 0
      modifies this`column, this`charPos, this`bytePos, this`widths
      ensures widths == Widths(width, cs) && |widths| == |cs| && charPos == Position(cs, |cs|, cursor) && bytePos == Offset(cs, charPos)
      ensures column == Total(widths) && backWidth == Total(widths[charPos..]) && (cursor.None? ==> charPos == |cs|)
    {
      hide Flat, AllEncoded, Widths, Total, Decode, CountBefore, Offset, NextPos, PrevPos, CodeOf;
      backWidth := 0;
      var idx := 0;
      ghost var i := 0;
      FillStart(width, cs);
      assert widths[0..] == [];
      while idx < |line|
        invariant 0 <= i <= |cs| && idx == Offset(cs, i)
        invariant widths == Widths(width, cs[..i]) && |widths| == i
        invariant charPos == Position(cs, i, cursor) && bytePos == Offset(cs, charPos)
        invariant column == Total(widths) && backWidth == Total(widths[charPos..])
        decreases |cs| - i
      {
        hide Position;
        InsideLine(cs, i);
        CharFacts(cs, i);
        var advance := Decode(line, idx).1;
        var realWidth := Put(line[idx..idx + advance]);
        FillStep(width, cs, i, cursor, widths, backWidth, realWidth);
        widths := widths + [realWidth];
        i := i + 1;
        idx := idx + advance;
        if cursor.Some? && cursor.value < idx {
          backWidth := backWidth + realWidth;
        } else {
          charPos := charPos + 1;
          bytePos := idx;
        }
      }
      AtLineEnd(cs, i);
      assert cs[..|cs|] == cs;
    }

    // Replaces the line: back to its start, over it with spaces, then the new one is printed.
    method SetLineContents(newLine: seq<Byte>, cursor: Option<nat>)
      requires Valid() && WellFormed(newLine)
      modifies this`column, this`charPos, this`bytePos, this`line, this`widths, this`chars
      ensures Valid() && View(chars, charPos) == Shown(newLine, cursor)
    {
      hide Flat, AllEncoded, Widths, Total, Offset, HistoryOk, CharsOf, Position;
      MoveToLineStart();
      ghost var cs :| AllEncoded(cs) && newLine == Flat(cs);
      CharsOfFlat(cs);
      line, widths, chars := newLine, [], cs;
      bytePos, charPos := 0, 0;
      var backWidth := Fill(cursor, cs);
      TotalSplit(widths, charPos);
      TotalEnds(widths);
      if cursor.Some? { MoveCursor(-backWidth); }
    }

    method HistoryPrev()
      requires Valid()
      modifies this`column, this`charPos, this`bytePos, this`line, this`widths, this`chars, this`viewing, this`backup
      ensures Valid() && Abs() == Show(old(Abs()), Older(old(Hist()), Flat(old(chars))))
    {
      hide Flat, AllEncoded, Widths, Placed, Shown, WellFormed;
      if viewing.None? {
        HoldLine();
        viewing, backup := Some(|entries|), line;
      }
      if entries == [] { return; }
      if viewing.value > 0 { viewing := Some(viewing.value - 1); }
      SetLineContents(entries[viewing.value], None);
    }

    lemma HoldLine()
      requires Laid()
      ensures WellFormed(line)
    {
    }

    method HistoryNext()
      requires Valid()
      modifies this`column, this`charPos, this`bytePos, this`line, this`widths, this`chars, this`viewing, this`backup
      ensures Valid() && Abs() == Show(old(Abs()), Newer(old(Hist())))
    {
      hide Laid, Placed, Shown, WellFormed;
      if viewing.None? || entries == [] { return; }
      EmptyWellFormed();
      viewing := Some(viewing.value + 1);
      if viewing.value >= |entries| {
        var newLine := backup;
        viewing, backup := None, [];
        SetLineContents(newLine, None);
      } else {
        SetLineContents(entries[viewing.value], None);
      }
    }

    // One key that is no completion.
    method Edit(k: Key)
      requires Valid() && KeyOk(k) && !k.Complete?
      modifies this`column, this`charPos, this`bytePos, this`line, this`widths, this`chars, this`viewing, this`backup
      ensures Valid() && StateOk(old(Abs())) && Abs() == Act(old(Abs()), k, space)
    {
      hide Flat, Laid, Total, Offset, SkipBack, SkipForward, RemoveAt, InsertAt, Append, Shown, Older, Newer, Show, WellFormed;
      match k {
        case Left => MoveLeft();
        case Right => MoveRight();
        case WordLeft => MoveWordLeft();
        case WordRight => MoveWordRight();
        case Home => MoveToLineStart();
        case EndKey => MoveToLineEnd();
        case Delete => DeleteAtCursor();
        case Backspace => DeleteBackwards();
        case Insert(code) => InsertCode(code);
        case Up => HistoryPrev();
        case Down => HistoryNext();
        case Ignored =>
      }
    }

    // A whole turn of the edit loop: exactly the step on values.
    method Handle(k: Key)
      requires Valid() && KeyOk(k)
      modifies this
      ensures Valid() && StateOk(old(Abs())) && Abs() == Step(old(Abs()), k, space)
    {
      hide HistoryOk, Placed, Shown, AllEncoded, Widths, Flat;
      ghost var before := Abs();
      ValidOk();
      if k.Complete? {
        SetLineContents(k.line, k.cursor);
      } else {
        Edit(k);
        hide Act;
        special := line != [] && (line[|line| - 1] == BACKSLASH || line[|line| - 1] == SLASH);
      }
    }

    lemma ValidOk()
      requires Valid()
      ensures StateOk(Abs()) && Good(Abs()) && line == Flat(chars)
    {
    }

    // A finished line goes into the history, unless it repeats the newest entry.
    method Remember(text: seq<Byte>)
      modifies this`entries, this`viewing, this`backup
      ensures Hist() == AddLine(old(Hist()), text)
    {
      if text == [] { return; }
      if entries == [] || entries[|entries| - 1] != text { entries := entries + [text]; }
      viewing, backup := None, [];
    }

    // The text the line ends as, and whether more is wanted.
    method EndText(multiline: bool, endOfStream: bool) returns (text: seq<Byte>, more: bool)
      requires special ==> line != []
      ensures (text, more) == Ended(line, special, multiline, endOfStream)
    {
      text, more := line, multiline;
      if special {
        var last := text[|text| - 1];
        text := text[..|text| - 1];
        if last == BACKSLASH {
          text := text + [NEWLINE];
          more := !more;
        } else {
          if |text| == 1 && text[0] == SPACE { text := []; }
          more := false;
        }
      } else if endOfStream {
        more := false;
      } else {
        text := text + [NEWLINE];
      }
    }

    // The end of a line.
    method FinishLine(multiline: bool, endOfStream: bool) returns (text: seq<Byte>, more: bool)
      requires Valid() && (special ==> line != [])
      modifies this`entries, this`viewing, this`backup
      ensures line == Flat(chars) && (text, more, Hist()) == Finish(old(Abs()), multiline, endOfStream)
    {
      ValidOk();
      hide Laid, Placed, HistoryOk, Flat, AddLine, Hist, Valid, Ended;
      text, more := EndText(multiline, endOfStream);
      if !endOfStream && text != [] {
        Remember(if text[|text| - 1] == NEWLINE then text[..|text| - 1] else text);
      }
    }
  }
}
