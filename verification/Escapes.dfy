/** Backslash escapes processed over the text itself, with one index reading and one writing. */
module Escapes {
  import opened Basics

  const BACKSLASH: Byte := 92
  const LETTER_X: Byte := 120

  // The byte for the letter of a one-letter escape.
  function Named(c: Byte): Option<Byte> {
    if c == 110 then Some(10)
    else if c == 114 then Some(13)
    else if c == 116 then Some(9)
    else if c == 39 || c == 34 || c == BACKSLASH then Some(c)
    else None
  }

  function Digit(c: Byte): Option<nat> {
    if 48 <= c <= 57 then Some(c - 48)
    else if 97 <= c <= 102 then Some(c - 97 + 10)
    else if 65 <= c <= 70 then Some(c - 65 + 10)
    else None
  }

  predicate Blank(c: Byte) { c == 32 || 9 <= c <= 13 }

  // Two bytes that strtol reads to the end in base 16: two digits, or one behind a blank or a sign.
  function HexPair(a: Byte, b: Byte): Option<Byte> {
    var d := Digit(b);
    if d.None? then None
    else if Digit(a).Some? then Some(Digit(a).value * 16 + d.value)
    else if Blank(a) || a == 43 then Some(d.value)
    else if a == 45 then Some((256 - d.value) % 256)
    else None
  }

  // The first piece of the text: the bytes it stands for and how many it takes.
  function Piece(s: seq<Byte>): (r: (seq<Byte>, nat))
    requires s != []
    ensures 1 <= r.1 <= |s| && 1 <= |r.0| <= 2 && |r.0| <= r.1
  {
    if s[0] != BACKSLASH || |s| == 1 then ([s[0]], 1)
    else if Named(s[1]).Some? then ([Named(s[1]).value], 2)
    else if s[1] == LETTER_X && |s| > 3 && HexPair(s[2], s[3]).Some? then ([HexPair(s[2], s[3]).value], 4)
    else ([BACKSLASH, s[1]], 2)
  }

  function Unescaped(s: seq<Byte>): seq<Byte>
    decreases |s|
  {
    if s == [] then [] else var p := Piece(s); p.0 + Unescaped(s[p.1..])
  }

  // Writes one byte below what is still to be read.
  method Put(input: array<Byte>, output: nat, b: Byte) returns (next: nat)
    requires output < input.Length
    modifies input
    ensures next == output + 1 && input[..next] == old(input[..output]) + [b]
    ensures forall k :: next <= k < input.Length ==> input[k] == old(input[k])
  {
    input[output] := b;
    next := output + 1;
  }

  /** One turn of the loop: a piece is read from `start` on and what it stands for written at `from`.
      Nothing behind the piece changes. */
  method TakePiece(input: array<Byte>, size: nat, start: nat, from: nat) returns (i: nat, output: nat)
    requires from <= start < size <= input.Length
    modifies input
    ensures var p := Piece(old(input[start..size]));
            && i == start + p.1 && output == from + |p.0| <= i
            && input[..output] == old(input[..from]) + p.0
    ensures forall k :: i <= k < input.Length ==> input[k] == old(input[k])
  {
    hide Piece, HexPair, Named, Digit;
    PieceCases(input[start..size]);
    ghost var rest := input[start..size];
    i := start;
    if input[i] == BACKSLASH && i + 1 < size {
      i := i + 1;
      assert rest[1] == input[i];
      var named := Named(input[i]);
      if named.Some? {
        output := Put(input, from, named.value);
      } else {
        assert i + 2 < size ==> rest[2] == input[i + 1] && rest[3] == input[i + 2];
        var hex := if input[i] == LETTER_X && i + 2 < size then HexPair(input[i + 1], input[i + 2]) else None;
        if hex.Some? {
          i := i + 2;
          output := Put(input, from, hex.value);
        } else {
          // The backslash goes below the letter, which is read again only after it.
          output := Put(input, from, BACKSLASH);
          output := Put(input, output, input[i]);
        }
      }
    } else {
      output := Put(input, from, input[i]);
    }
    i := i + 1;
  }

  /** The text in the first `size` bytes is unescaped over itself; the bytes from the last one read on are
      the old ones. */
  method ProcessEscapes(input: array<Byte>, size: nat) returns (output: nat)
    requires size <= input.Length
    modifies input
    ensures output <= size && input[..output] == Unescaped(old(input[..size]))
    ensures input[size..] == old(input[size..])
  {
    hide Unescaped, Piece;
    ghost var text := input[..size];
    var i := 0;
    output := 0;
    StartOf(text);
    assert input[..0] == [];
    while i < size
      invariant output <= i <= size
      invariant Unescaped(text) == input[..output] + Unescaped(text[i..])
      invariant forall k :: i <= k < input.Length ==> input[k] == old(input[k])
      decreases size - i
    {
      assert input[i..size] == text[i..];
      PieceStep(text, input[..output], i);
      i, output := TakePiece(input, size, i, output);
    }
    EndOf(text, input[..output]);
  }

  lemma {:induction false} StartOf(text: seq<Byte>)
    ensures text[0..] == text && Unescaped(text) == [] + Unescaped(text[0..])
  {
    hide Unescaped;
  }

  lemma {:induction false} EndOf(text: seq<Byte>, done: seq<Byte>)
    requires Unescaped(text) == done + Unescaped(text[|text|..])
    ensures Unescaped(text) == done
  {
    assert text[|text|..] == [];
  }

  lemma {:induction false} PieceStep(text: seq<Byte>, done: seq<Byte>, i: nat)
    requires i < |text| && Unescaped(text) == done + Unescaped(text[i..])
    ensures var p := Piece(text[i..]);
            i + p.1 <= |text| && Unescaped(text) == done + p.0 + Unescaped(text[i + p.1..])
  {
    hide Piece;
    var p := Piece(text[i..]);
    assert text[i..][p.1..] == text[i + p.1..];
  }

  lemma {:induction false} PieceCases(s: seq<Byte>)
    requires s != []
    ensures var p := Piece(s);
            if s[0] == BACKSLASH && |s| > 1 then
              if Named(s[1]).Some? then p.0 == [Named(s[1]).value] && p.1 == 2
              else
                var hex := if s[1] == LETTER_X && |s| > 3 then HexPair(s[2], s[3]) else None;
                if hex.Some? then p.0 == [hex.value] && p.1 == 4 else p.0 == [BACKSLASH, s[1]] && p.1 == 2
            else p.0 == [s[0]] && p.1 == 1
  {
    hide Named, HexPair;
  }

  // ---------- what unescaping means ----------

  // Every way a byte can be written: as itself, by a letter, or by two hexadecimal characters.
  datatype Spelling = Plain(b: Byte) | Letter(c: Byte) | Hex(high: Byte, low: Byte)

  predicate SpellingOk(w: Spelling) {
    match w
    case Plain(b) => b != BACKSLASH
    case Letter(c) => Named(c).Some?
    case Hex(high, low) => HexPair(high, low).Some?
  }

  function Meant(w: Spelling): Byte
    requires SpellingOk(w)
  {
    match w
    case Plain(b) => b
    case Letter(c) => Named(c).value
    case Hex(high, low) => HexPair(high, low).value
  }

  function Spelled(w: Spelling): (r: seq<Byte>)
    ensures r != []
  {
    match w
    case Plain(b) => [b]
    case Letter(c) => [BACKSLASH, c]
    case Hex(high, low) => [BACKSLASH, LETTER_X, high, low]
  }

  function Written(ws: seq<Spelling>): seq<Byte> {
    if ws == [] then [] else Spelled(ws[0]) + Written(ws[1..])
  }

  predicate AllOk(ws: seq<Spelling>) { forall i :: 0 <= i < |ws| ==> SpellingOk(ws[i]) }

  function Meaning(ws: seq<Spelling>): seq<Byte>
    requires AllOk(ws)
  {
    if ws == [] then [] else [Meant(ws[0])] + Meaning(ws[1..])
  }

  lemma {:induction false} SpellingRead(w: Spelling, rest: seq<Byte>)
    requires SpellingOk(w)
    ensures var p := Piece(Spelled(w) + rest); p.0 == [Meant(w)] && p.1 == |Spelled(w)|
  {
    var s := Spelled(w) + rest;
    assert forall k :: 0 <= k < |Spelled(w)| ==> s[k] == Spelled(w)[k];
    hide HexPair;
  }

  // However each byte is spelled, unescaping gives the bytes meant.
  lemma {:induction false} SpellingsRead(ws: seq<Spelling>)
    requires AllOk(ws)
    ensures Unescaped(Written(ws)) == Meaning(ws)
    decreases |ws|
  {
    if ws != [] {
      var rest := Written(ws[1..]);
      SpellingRead(ws[0], rest);
      SpellingsRead(ws[1..]);
      assert (Spelled(ws[0]) + rest)[|Spelled(ws[0])|..] == rest;
      hide Piece, SpellingOk, Meant;
    }
  }

  // The escaper that only doubles backslashes.
  function Doubled(s: seq<Byte>): seq<Byte> {
    if s == [] then [] else (if s[0] == BACKSLASH then [BACKSLASH, BACKSLASH] else [s[0]]) + Doubled(s[1..])
  }

  lemma {:induction false} UndoesDoubling(s: seq<Byte>)
    ensures Unescaped(Doubled(s)) == s
    decreases |s|
  {
    if s != [] {
      var w := if s[0] == BACKSLASH then Letter(BACKSLASH) else Plain(s[0]);
      SpellingRead(w, Doubled(s[1..]));
      UndoesDoubling(s[1..]);
      assert (Spelled(w) + Doubled(s[1..]))[|Spelled(w)|..] == Doubled(s[1..]);
      hide Piece;
    }
  }

  // Text never gets longer, and it keeps its length exactly when nothing in it is an escape.
  lemma {:induction false} SameLengthExact(s: seq<Byte>)
    ensures |Unescaped(s)| <= |s|
    ensures |Unescaped(s)| == |s| <==> Unescaped(s) == s
    decreases |s|
  {
    if s != [] {
      var p := Piece(s);
      SameLengthExact(s[p.1..]);
      assert |p.0| == p.1 ==> p.0 == s[..p.1];
      assert s == s[..p.1] + s[p.1..];
      hide Piece;
    }
  }

  // ---------- the escapes by their characters ----------

  // One letter: a newline, a return, a tab, or the character itself; any other letter keeps its backslash.
  lemma {:induction false} LettersExact(c: Byte)
    requires c != 'x' as nat
    ensures Unescaped(['\\' as nat, c])
            == if c == 'n' as nat then ['\n' as nat]
               else if c == 'r' as nat then ['\r' as nat]
               else if c == 't' as nat then ['\t' as nat]
               else if c == '\\' as nat || c == '\"' as nat || c == '\'' as nat then [c]
               else ['\\' as nat, c]
  {
    var s: seq<Byte> := [92, c];
    assert s[2..] == [] && Unescaped([]) == [];
    assert Piece(s).1 == 2 && Unescaped(s) == Piece(s).0 + [];
  }

  // The digit for a value, in small or capital letters.
  function HexDigit(v: nat, capital: bool): Byte
    requires v < 16
  {
    if v < 10 then '0' as nat + v else (if capital then 'A' else 'a') as nat + (v - 10)
  }

  // Two hexadecimal digits stand for the byte with that number.
  lemma {:induction false} HexExact(high: nat, low: nat, capitals: (bool, bool))
    requires high < 16 && low < 16
    ensures Unescaped(['\\' as nat, 'x' as nat, HexDigit(high, capitals.0), HexDigit(low, capitals.1)]) == [16 * high + low]
  {
    var s: seq<Byte> := [92, 120, HexDigit(high, capitals.0), HexDigit(low, capitals.1)];
    assert s[4..] == [] && Unescaped([]) == [];
    assert Digit(s[2]) == Some(high) && Digit(s[3]) == Some(low);
    assert Piece(s) == ([16 * high + low], 4);
  }
}
