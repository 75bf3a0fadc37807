/** UTF-8 as the line editor reads and writes it (section 3 of RFC 3629): decoding one code point,
    appending one, and stepping over continuation bytes in both directions. */
module Utf8 {
  import opened Basics

  type Char = seq<Byte>

  const MAX_CODE := 0x10FFFF
  const REPLACEMENT := 0xFFFD

  predicate Continuation(b: Byte) { 0x80 <= b < 0xC0 }

  // The low bits of a byte, below the power of two `m`.
  function Bits(b: Byte, m: nat): nat
    requires m > 0
  {
    b % m
  }

  // The code point at `pos` and how many bytes it takes; one byte of anything invalid.
  function Decode(s: seq<Byte>, pos: nat): (r: (int, nat))
    requires pos < |s|
    ensures 1 <= r.1 && pos + r.1 <= |s|
  {
    var c := s[pos];
    if c < 0x80 then (c, 1)
    else if 0xC0 <= c < 0xE0 && pos + 1 < |s| then
      if !Continuation(s[pos + 1]) then (REPLACEMENT, 1)
      else (Bits(c, 0x20) * 0x40 + Bits(s[pos + 1], 0x40), 2)
    else if 0xE0 <= c < 0xF0 && pos + 2 < |s| then
      if !Continuation(s[pos + 1]) || !Continuation(s[pos + 2]) then (REPLACEMENT, 1)
      else (Bits(c, 0x10) * 0x1000 + Bits(s[pos + 1], 0x40) * 0x40 + Bits(s[pos + 2], 0x40), 3)
    else if 0xF0 <= c < 0xF8 && pos + 3 < |s| then
      if !Continuation(s[pos + 1]) || !Continuation(s[pos + 2]) || !Continuation(s[pos + 3]) then (REPLACEMENT, 1)
      else (Bits(c, 8) * 0x40000 + Bits(s[pos + 1], 0x40) * 0x1000 + Bits(s[pos + 2], 0x40) * 0x40 + Bits(s[pos + 3], 0x40), 4)
    else (REPLACEMENT, 1)
  }

  // The bytes appended for a code point; none for a number that is no code point.
  function Append(code: nat): Char {
    if code <= 0x7F then [code]
    else if code <= 0x7FF then [0xC0 + code / 0x40 % 0x20, 0x80 + code % 0x40]
    else if code <= 0xFFFF then [0xE0 + code / 0x1000 % 0x10, 0x80 + code / 0x40 % 0x40, 0x80 + code % 0x40]
    else if code <= MAX_CODE then
      [0xF0 + code / 0x40000 % 8, 0x80 + code / 0x1000 % 0x40, 0x80 + code / 0x40 % 0x40, 0x80 + code % 0x40]
    else []
  }

  function PrevPos(s: seq<Byte>, pos: nat): (r: nat)
    requires pos <= |s|
    ensures r <= pos && (pos > 0 ==> r < pos)
  {
    if pos == 0 then 0 else BackOver(s, pos - 1)
  }

  function BackOver(s: seq<Byte>, pos: nat): (r: nat)
    requires pos < |s|
    ensures r <= pos
  {
    if pos > 0 && Continuation(s[pos]) then BackOver(s, pos - 1) else pos
  }

  function NextPos(s: seq<Byte>, pos: nat): (r: nat)
    ensures pos < |s| ==> pos < r <= |s|
  {
    if pos >= |s| then |s| else ForwardOver(s, pos + 1)
  }

  function ForwardOver(s: seq<Byte>, pos: nat): (r: nat)
    requires pos <= |s|
    ensures pos <= r <= |s|
    decreases |s| - pos
  {
    if pos < |s| && Continuation(s[pos]) then ForwardOver(s, pos + 1) else pos
  }

  method PrevUtf8CharPos(line: seq<Byte>, start: nat) returns (pos: nat)
    requires start <= |line|
    ensures pos == PrevPos(line, start)
  {
    if start == 0 { return 0; }
    pos := start - 1;
    while pos > 0 && Continuation(line[pos])
      invariant pos < |line| && BackOver(line, pos) == BackOver(line, start - 1)
    {
      pos := pos - 1;
    }
  }

  method NextUtf8CharPos(line: seq<Byte>, start: nat) returns (pos: nat)
    ensures pos == NextPos(line, start)
  {
    if start >= |line| { return |line|; }
    pos := start + 1;
    while pos < |line| && Continuation(line[pos])
      invariant pos <= |line| && ForwardOver(line, pos) == ForwardOver(line, start + 1)
    {
      pos := pos + 1;
    }
  }

  // ---------- one character ----------

  // A character as the editor holds it: the bytes of some code point.
  ghost predicate Encoded(c: Char) {
    exists code: nat :: code <= MAX_CODE && c == Append(code)
  }

  lemma {:induction false} TwoByteCode(code: nat)
    requires 0x80 <= code <= 0x7FF
    ensures (0xC0 + code / 0x40 % 0x20) % 0x20 * 0x40 + (0x80 + code % 0x40) % 0x40 == code
  {
  }

  lemma {:induction false} ThreeByteCode(code: nat)
    requires 0x800 <= code <= 0xFFFF
    ensures (0xE0 + code / 0x1000 % 0x10) % 0x10 * 0x1000 + (0x80 + code / 0x40 % 0x40) % 0x40 * 0x40 + (0x80 + code % 0x40) % 0x40 == code
  {
    var a, b, c := code / 0x1000, code / 0x40 % 0x40, code % 0x40;
    assert code / 0x40 == a * 0x40 + b;
    assert (0xE0 + a) % 0x10 == a && (0x80 + b) % 0x40 == b && (0x80 + c) % 0x40 == c;
  }

  lemma {:induction false} FourByteCode(code: nat)
    requires 0x10000 <= code <= MAX_CODE
    ensures (0xF0 + code / 0x40000 % 8) % 8 * 0x40000 + (0x80 + code / 0x1000 % 0x40) % 0x40 * 0x1000
            + (0x80 + code / 0x40 % 0x40) % 0x40 * 0x40 + (0x80 + code % 0x40) % 0x40 == code
  {
    var a, b, c, d := code / 0x40000, code / 0x1000 % 0x40, code / 0x40 % 0x40, code % 0x40;
    assert code / 0x1000 == a * 0x40 + b;
    assert code / 0x40 == (a * 0x40 + b) * 0x40 + c;
    assert (0xF0 + a) % 8 == a && (0x80 + b) % 0x40 == b && (0x80 + c) % 0x40 == c && (0x80 + d) % 0x40 == d;
  }

  // The code point whose bits stand in the bytes, six in each but the first (section 3 of RFC 3629).
  function Placed(c: Char): int
    requires 1 <= |c| <= 4
  {
    if |c| == 1 then c[0]
    else if |c| == 2 then Joined(c[0] as int - 0xC0, c[1])
    else if |c| == 3 then Joined(Joined(c[0] as int - 0xE0, c[1]), c[2])
    else Joined(Joined(Joined(c[0] as int - 0xF0, c[1]), c[2]), c[3])
  }

  function Joined(high: int, b: Byte): int { high * 0x40 + (b as int - 0x80) }

  // A leading byte for as many bytes as there are, and continuation bytes.
  predicate Shaped(c: Char) {
    && 1 <= |c| <= 4
    && (if |c| == 1 then c[0] < 0x80
        else if |c| == 2 then 0xC0 <= c[0] < 0xE0
        else if |c| == 3 then 0xE0 <= c[0] < 0xF0
        else 0xF0 <= c[0] < 0xF8)
    && forall i :: 1 <= i < |c| ==> 0x80 <= c[i] < 0xC0
  }

  // Each code point is written with its bits in the fewest bytes that hold them.
  lemma {:induction false} BitsPlaced(code: nat)
    requires code <= MAX_CODE
    ensures var c := Append(code);
            Shaped(c) && Placed(c) == code && |c| == if code < 0x80 then 1 else if code < 0x800 then 2 else if code < 0x10000 then 3 else 4
  {
    if code < 0x800 {
    } else if code < 0x10000 {
      ThreePlaced(code);
    } else {
      FourPlaced(code);
    }
  }

  lemma {:induction false} ThreePlaced(code: nat)
    requires 0x800 <= code < 0x10000
    ensures Shaped(Append(code)) && |Append(code)| == 3 && Placed(Append(code)) == code
  {
    var a, b, c := code / 0x1000, code / 0x40 % 0x40, code % 0x40;
    assert code / 0x40 == a * 0x40 + b && a < 0x10;
    assert Append(code) == [0xE0 + a, 0x80 + b, 0x80 + c];
  }

  lemma {:induction false} FourPlaced(code: nat)
    requires 0x10000 <= code <= MAX_CODE
    ensures Shaped(Append(code)) && |Append(code)| == 4 && Placed(Append(code)) == code
  {
    var a, b, c, d := code / 0x40000, code / 0x1000 % 0x40, code / 0x40 % 0x40, code % 0x40;
    assert code / 0x1000 == a * 0x40 + b && a < 8;
    assert code / 0x40 == (a * 0x40 + b) * 0x40 + c;
    assert Append(code) == [0xF0 + a, 0x80 + b, 0x80 + c, 0x80 + d];
  }

  // The examples of section 7 of RFC 3629.
  lemma {:induction false} Examples()
    ensures Append(0x41) == [0x41] && Append(0x391) == [0xCE, 0x91] && Append(0x2262) == [0xE2, 0x89, 0xA2]
    ensures Append(0x233B4) == [0xF0, 0xA3, 0x8E, 0xB4]
  {
  }

  // The next `n` bytes have the shape of a character.
  predicate ShapedAt(s: seq<Byte>, pos: nat, n: nat) { pos + n <= |s| && Shaped(s[pos..pos + n]) }

  // Decoding gives the bits of what has the shape of a character, and one replacement for any other byte.
  lemma {:induction false} DecodeExact(s: seq<Byte>, pos: nat)
    requires pos < |s|
    ensures forall n: nat :: ShapedAt(s, pos, n) ==> Decode(s, pos) == (Placed(s[pos..pos + n]), n)
    ensures (forall n: nat :: !ShapedAt(s, pos, n)) ==> Decode(s, pos) == (0xFFFD, 1)
  {
    forall n: nat | ShapedAt(s, pos, n) ensures Decode(s, pos) == (Placed(s[pos..pos + n]), n) { ShapedDecodes(s, pos, n); }
    if forall n: nat :: !ShapedAt(s, pos, n) { NoneShaped(s, pos); }
  }

  lemma {:induction false} ShapedDecodes(s: seq<Byte>, pos: nat, n: nat)
    requires pos + n <= |s| && Shaped(s[pos..pos + n])
    ensures Decode(s, pos) == (Placed(s[pos..pos + n]), n)
  {
    var c := s[pos..pos + n];
    assert c[0] == s[pos];
    if n >= 2 { assert c[1] == s[pos + 1] && Bits(c[1], 0x40) == c[1] - 0x80; }
    if n >= 3 { assert c[2] == s[pos + 2] && Bits(c[2], 0x40) == c[2] - 0x80; }
    if n >= 4 { assert c[3] == s[pos + 3] && Bits(c[3], 0x40) == c[3] - 0x80; }
  }

  lemma {:induction false} NoneShaped(s: seq<Byte>, pos: nat)
    requires pos < |s| && forall n: nat :: !ShapedAt(s, pos, n)
    ensures Decode(s, pos) == (0xFFFD, 1)
  {
    hide Bits;
    var c := s[pos];
    assert !ShapedAt(s, pos, 1) && s[pos..pos + 1] == [c] && c >= 0x80;
    assert !ShapedAt(s, pos, 2) && !ShapedAt(s, pos, 3) && !ShapedAt(s, pos, 4);
    if pos + 1 < |s| && 0xC0 <= c < 0xE0 { assert s[pos..pos + 2] == [c, s[pos + 1]]; }
    if pos + 2 < |s| && 0xE0 <= c < 0xF0 { assert s[pos..pos + 3] == [c, s[pos + 1], s[pos + 2]]; }
    if pos + 3 < |s| && 0xF0 <= c < 0xF8 { assert s[pos..pos + 4] == [c, s[pos + 1], s[pos + 2], s[pos + 3]]; }
  }

  // Decoding an appended code point gives it back and takes exactly its bytes, wherever it stands.
  lemma {:induction false} DecodeAppended(front: seq<Byte>, code: nat, rest: seq<Byte>)
    requires code <= MAX_CODE
    ensures Append(code) != [] && Decode(front + (Append(code) + rest), |front|) == (code, |Append(code)|)
  {
    var c := Append(code);
    var s := front + (c + rest);
    assert forall i :: 0 <= i < |c| ==> s[|front| + i] == c[i];
    if code <= 0x7F {
    } else if code <= 0x7FF {
      TwoByteCode(code);
    } else if code <= 0xFFFF {
      ThreeByteCode(code);
    } else {
      FourByteCode(code);
    }
  }

  // The first byte starts a character, the others continue it.
  lemma {:induction false} EncodedShape(c: Char)
    requires Encoded(c)
    ensures 1 <= |c| <= 4 && !Continuation(c[0]) && forall i :: 0 < i < |c| ==> Continuation(c[i])
  {
  }

  // ---------- lines of characters ----------

  function Flat(cs: seq<Char>): seq<Byte> {
    if cs == [] then [] else cs[0] + Flat(cs[1..])
  }

  ghost predicate AllEncoded(cs: seq<Char>) { forall i :: 0 <= i < |cs| ==> Encoded(cs[i]) }

  ghost predicate WellFormed(line: seq<Byte>) { exists cs :: AllEncoded(cs) && line == Flat(cs) }

  lemma {:induction false} FlatConcat(a: seq<Char>, b: seq<Char>)
    ensures Flat(a + b) == Flat(a) + Flat(b)
  {
    if a == [] {
      assert a + b == b;
    } else {
      assert (a + b)[0] == a[0] && (a + b)[1..] == a[1..] + b;
      FlatConcat(a[1..], b);
    }
  }

  lemma {:induction false} FlatOne(c: Char)
    ensures Flat([c]) == c
  {
    assert [c][1..] == [] && c + [] == c;
  }

  // Where character `k` starts.
  function Offset(cs: seq<Char>, k: nat): nat
    requires k <= |cs|
  {
    |Flat(cs[..k])|
  }

  lemma {:induction false} FlatSplit(cs: seq<Char>, k: nat)
    requires k < |cs|
    ensures Flat(cs) == Flat(cs[..k]) + (cs[k] + Flat(cs[k + 1..]))
    ensures Offset(cs, k + 1) == Offset(cs, k) + |cs[k]|
    ensures Flat(cs[..k + 1]) == Flat(cs[..k]) + cs[k]
  {
    assert cs == cs[..k] + ([cs[k]] + cs[k + 1..]);
    FlatConcat(cs[..k], [cs[k]] + cs[k + 1..]);
    FlatConcat([cs[k]], cs[k + 1..]);
    FlatOne(cs[k]);
    assert cs[..k + 1] == cs[..k] + [cs[k]];
    FlatConcat(cs[..k], [cs[k]]);
  }

  lemma {:induction false} FlatWhole(cs: seq<Char>, k: nat)
    requires k <= |cs|
    ensures Flat(cs) == Flat(cs[..k]) + Flat(cs[k..])
    ensures Offset(cs, |cs|) == |Flat(cs)| && Offset(cs, 0) == 0 && Offset(cs, k) <= |Flat(cs)|
  {
    assert cs == cs[..k] + cs[k..] && cs[..|cs|] == cs && cs[..0] == [];
    FlatConcat(cs[..k], cs[k..]);
  }

  // Decoding steps from each character to the next.
  lemma {:induction false} DecodeAt(cs: seq<Char>, k: nat)
    requires AllEncoded(cs) && k < |cs|
    ensures Offset(cs, k) < |Flat(cs)| && Decode(Flat(cs), Offset(cs, k)).1 == |cs[k]|
    ensures Encoded(cs[k]) && forall code: nat :: code <= MAX_CODE && cs[k] == Append(code) ==> Decode(Flat(cs), Offset(cs, k)).0 == code
  {
    FlatSplit(cs, k);
    forall code: nat | code <= MAX_CODE && cs[k] == Append(code)
      ensures Decode(Flat(cs), Offset(cs, k)) == (code, |cs[k]|)
    {
      DecodeAppended(Flat(cs[..k]), code, Flat(cs[k + 1..]));
    }
    assert Encoded(cs[k]);
    EncodedShape(cs[k]);
  }

  lemma {:induction false} ForwardStops(s: seq<Byte>, pos: nat, end: nat)
    requires pos <= end <= |s| && (forall i :: pos <= i < end ==> Continuation(s[i])) && (end < |s| ==> !Continuation(s[end]))
    ensures ForwardOver(s, pos) == end
    decreases end - pos
  {
    if pos < end { ForwardStops(s, pos + 1, end); }
  }

  lemma {:induction false} BackStops(s: seq<Byte>, pos: nat, start: nat)
    requires start <= pos < |s| && (forall i :: start < i <= pos ==> Continuation(s[i])) && !Continuation(s[start])
    ensures BackOver(s, pos) == start
    decreases pos - start
  {
    if start < pos { BackStops(s, pos - 1, start); }
  }

  lemma {:induction false} BytesOf(cs: seq<Char>, k: nat)
    requires AllEncoded(cs) && k < |cs|
    ensures var i := Offset(cs, k);
            && i + |cs[k]| <= |Flat(cs)| && |cs[k]| >= 1
            && !Continuation(Flat(cs)[i])
            && forall j :: i < j < i + |cs[k]| ==> Continuation(Flat(cs)[j])
  {
    FlatSplit(cs, k);
    assert Encoded(cs[k]);
    EncodedShape(cs[k]);
    var s, i := Flat(cs), Offset(cs, k);
    assert forall j :: 0 <= j < |cs[k]| ==> s[i + j] == cs[k][j];
    forall j | i < j < i + |cs[k]| ensures Continuation(s[j]) { assert s[i + (j - i)] == cs[k][j - i]; }
    assert s[i + 0] == cs[k][0];
  }

  // The two scanners step from each character to its neighbours, as decoding does.
  lemma {:induction false} ScannersAgree(cs: seq<Char>, k: nat)
    requires AllEncoded(cs) && k < |cs|
    ensures Offset(cs, k) < |Flat(cs)|
    ensures NextPos(Flat(cs), Offset(cs, k)) == Offset(cs, k + 1) == Offset(cs, k) + Decode(Flat(cs), Offset(cs, k)).1
    ensures Offset(cs, k + 1) <= |Flat(cs)| && PrevPos(Flat(cs), Offset(cs, k + 1)) == Offset(cs, k)
  {
    hide Decode, Append;
    FlatSplit(cs, k);
    BytesOf(cs, k);
    DecodeAt(cs, k);
    var s, i, j := Flat(cs), Offset(cs, k), Offset(cs, k + 1);
    BackStops(s, j - 1, i);
    if k + 1 < |cs| { BytesOf(cs, k + 1); } else { FlatWhole(cs, |cs|); assert j == |s|; }
    ForwardStops(s, i + 1, j);
  }
}
