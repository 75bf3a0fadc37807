/** The quote normaliser and the brace counter of the tool-call mapper: a transducer from
    Python-style to JSON text, and the depth of unclosed braces outside strings. */
module QuoteNorm {
  import opened Basics

  // ---------- the transducer, on what is left of the input ----------

  // What one pass of the loop emits, how much input it takes, and the new flags.
  datatype Move = Move(out: string, taken: nat, single: bool, double: bool)

  function Step(c: char, next: Option<char>, single: bool, double: bool): (m: Move)
    ensures 1 <= m.taken <= if next.Some? then 2 else 1
  {
    if c == '\\' && next.Some? then
      if single then
        Move(if next.value == '\'' then "'" else if next.value == '"' then "\\\"" else [c, next.value], 2, single, double)
      else if double then Move([c, next.value], 2, single, double)
      else Move([c], 1, single, double)
    else if c == '"' then
      if single then Move("\\\"", 1, single, double) else Move([c], 1, single, !double)
    else if c == '\'' then
      if double then Move([c], 1, single, double) else Move("\"", 1, !single, double)
    else Move([c], 1, single, double)
  }

  function Second(s: string): Option<char> { if |s| > 1 then Some(s[1]) else None }

  function Normalized(s: string, single: bool, double: bool): string {
    if s == [] then []
    else
      var m := Step(s[0], Second(s), single, double);
      m.out + Normalized(s[m.taken..], m.single, m.double)
  }

  function NextIn(s: string, i: nat): Option<char> { if i + 1 < |s| then Some(s[i + 1]) else None }

  lemma {:induction false} OneMove(s: string, i: nat, single: bool, double: bool, done: string)
    requires i < |s|
    ensures var m := Step(s[i], NextIn(s, i), single, double);
            && i + m.taken <= |s|
            && done + Normalized(s[i..], single, double) == (done + m.out) + Normalized(s[i + m.taken..], m.single, m.double)
  {
    var rest := s[i..];
    assert Second(rest) == NextIn(s, i);
    var m := Step(rest[0], Second(rest), single, double);
    assert rest[m.taken..] == s[i + m.taken..];
    Assoc(done, m.out, Normalized(s[i + m.taken..], m.single, m.double));
  }

  lemma {:induction false} NothingLeft(s: string, single: bool, double: bool)
    requires s == []
    ensures Normalized(s, single, double) == []
  {
  }

  method NormalizeQuotesToJson(input: string) returns (result: string)
    ensures result == Normalized(input, false, false)
  {
    hide Normalized;
    result := "";
    var inSingle, inDouble := false, false;
    var i := 0;
    assert input[0..] == input;
    while i < |input|
      invariant 0 <= i <= |input|
      invariant Normalized(input, false, false) == result + Normalized(input[i..], inSingle, inDouble)
    {
      ghost var m := Step(input[i], NextIn(input, i), inSingle, inDouble);
      OneMove(input, i, inSingle, inDouble, result);
      ghost var out, after := result + m.out, i + m.taken;
      var c := input[i];
      if c == '\\' && i + 1 < |input| {
        var next := input[i + 1];
        if inSingle {
          if next == '\'' {
            result := result + "'";
          } else if next == '"' {
            result := result + "\\\"";
          } else {
            result := result + [c, next];
          }
          i := i + 1;
        } else if inDouble {
          result := result + [c, next];
          i := i + 1;
        } else {
          result := result + [c];
        }
      } else if c == '"' {
        if inSingle {
          result := result + "\\\"";
        } else {
          inDouble := !inDouble;
          result := result + [c];
        }
      } else if c == '\'' {
        if inDouble {
          result := result + [c];
        } else if inSingle {
          inSingle := false;
          result := result + "\"";
        } else {
          inSingle := true;
          result := result + "\"";
        }
      } else {
        result := result + [c];
      }
      i := i + 1;
      assert result == out && i == after && inSingle == m.single && inDouble == m.double;
    }
    NothingLeft(input[i..], inSingle, inDouble);
  }

  // ---------- the brace counter ----------

  function Depth(s: string, inString: bool, escaped: bool): int {
    if s == [] then 0
    else if escaped then Depth(s[1..], inString, false)
    else if s[0] == '\\' && inString then Depth(s[1..], inString, true)
    else if s[0] == '"' then Depth(s[1..], !inString, false)
    else (if inString then 0 else if s[0] == '{' then 1 else if s[0] == '}' then -1 else 0) + Depth(s[1..], inString, false)
  }

  method JsonBraceDepth(s: string) returns (depth: int)
    ensures depth == Depth(s, false, false)
  {
    depth := 0;
    var inString, escaped := false, false;
    var i := 0;
    while i < |s|
      invariant 0 <= i <= |s|
      invariant Depth(s, false, false) == depth + Depth(s[i..], inString, escaped)
    {
      assert s[i..][1..] == s[i + 1..];
      var c := s[i];
      i := i + 1;
      if escaped {
        escaped := false;
      } else if c == '\\' && inString {
        escaped := true;
      } else if c == '"' {
        inString := !inString;
      } else if !inString {
        if c == '{' {
          depth := depth + 1;
        } else if c == '}' {
          depth := depth - 1;
        }
      }
    }
  }

  // ---------- trees and their two printings ----------

  // `single` is the quote the Python printing uses for this string.
  datatype Text = Text(chars: string, single: bool)

  datatype Tree =
    | Atom(word: string)
    | Str(text: Text)
    | List(items: seq<Tree>)
    | Dict(entries: seq<Entry>)
  datatype Entry = Entry(key: Text, value: Tree)

  // Numbers and constants: nothing the two scanners react to.
  predicate PlainWord(s: string) {
    forall i :: 0 <= i < |s| ==> s[i] !in {'"', '\'', '\\', '{', '}'}
  }

  ghost predicate WellFormed(t: Tree) {
    match t
    case Atom(w) => PlainWord(w)
    case Str(_) => true
    case List(items) => forall i :: 0 <= i < |items| ==> WellFormed(items[i])
    case Dict(entries) => forall i :: 0 <= i < |entries| ==> WellFormed(entries[i].value)
  }

  // Backslashes and the enclosing quote are escaped.
  function Escaped(s: string, quote: char): string {
    if s == [] then []
    else EscapedChar(s[0], quote) + Escaped(s[1..], quote)
  }

  function EscapedChar(c: char, quote: char): string { if c == '\\' || c == quote then ['\\', c] else [c] }

  function QuoteOf(t: Text, python: bool): char { if python && t.single then '\'' else '"' }

  function PrintText(t: Text, python: bool): string {
    var q := QuoteOf(t, python);
    [q] + Escaped(t.chars, q) + [q]
  }

  // A printing is a sequence of pieces; only the quoted ones differ between the two styles.
  datatype Piece = Word(word: string) | Brace(c: char) | Quoted(text: Text)

  function Pieces(t: Tree): seq<Piece>
    decreases t
  {
    match t
    case Atom(w) => [Word(w)]
    case Str(s) => [Quoted(s)]
    case List(items) => [Word("[")] + ItemPieces(items, "") + [Word("]")]
    case Dict(entries) => [Brace('{')] + EntryPieces(entries, "") + [Brace('}')]
  }

  function ItemPieces(items: seq<Tree>, sep: string): seq<Piece>
    decreases items
  {
    if items == [] then [] else [Word(sep)] + Pieces(items[0]) + ItemPieces(items[1..], ", ")
  }

  function EntryPieces(entries: seq<Entry>, sep: string): seq<Piece>
    decreases entries
  {
    if entries == [] then [] else [Word(sep)] + OneEntry(entries[0]) + EntryPieces(entries[1..], ", ")
  }

  function OneEntry(e: Entry): seq<Piece>
    decreases e
  {
    [Quoted(e.key), Word(": ")] + Pieces(e.value)
  }

  function PrintPiece(p: Piece, python: bool): string {
    match p
    case Word(w) => w
    case Brace(c) => [c]
    case Quoted(t) => PrintText(t, python)
  }

  function PrintPieces(ps: seq<Piece>, python: bool): string {
    if ps == [] then [] else PrintPiece(ps[0], python) + PrintPieces(ps[1..], python)
  }

  // The Python-style printing, or the JSON printing of the same tree.
  function Print(t: Tree, python: bool): string { PrintPieces(Pieces(t), python) }

  predicate PlainPieces(ps: seq<Piece>) {
    forall i :: 0 <= i < |ps| ==> (ps[i].Word? ==> PlainWord(ps[i].word)) && (ps[i].Brace? ==> ps[i].c in {'{', '}'})
  }

  // ---------- the normaliser turns one printing into the other ----------

  lemma {:induction false} CopiesChar(c: char, rest: string)
    requires c !in {'"', '\'', '\\'}
    ensures Normalized([c] + rest, false, false) == [c] + Normalized(rest, false, false)
  {
    assert ([c] + rest)[1..] == rest;
  }

  lemma {:induction false} CopiesWord(w: string, rest: string)
    requires PlainWord(w)
    ensures Normalized(w + rest, false, false) == w + Normalized(rest, false, false)
  {
    if w == [] {
      assert w + rest == rest;
    } else {
      CopiesWord(w[1..], rest);
      assert w[0] !in {'"', '\'', '\\', '{', '}'};
      CopiesChar(w[0], w[1..] + rest);
      assert w + rest == [w[0]] + (w[1..] + rest);
      assert w + Normalized(rest, false, false) == [w[0]] + (w[1..] + Normalized(rest, false, false));
    }
  }

  // Inside a string, one escaped character of either style becomes its JSON escape.
  lemma {:induction false} InString(c: char, single: bool, rest: string)
    requires rest != []
    ensures Normalized(EscapedChar(c, if single then '\'' else '"') + rest, single, !single)
            == EscapedChar(c, '"') + Normalized(rest, single, !single)
  {
    var e := EscapedChar(c, if single then '\'' else '"');
    var x := e + rest;
    assert x[|e|..] == rest && x[0] == e[0] && Second(x) == Some(if |e| == 2 then c else rest[0]);
  }

  lemma {:induction false} QuoteToggles(single: bool, inside: bool, rest: string)
    ensures var q := if single then '\'' else '"';
            Normalized([q] + rest, inside && single, inside && !single)
            == "\"" + Normalized(rest, !inside && single, !inside && !single)
  {
    var q := if single then '\'' else '"';
    assert ([q] + rest)[1..] == rest;
  }

  lemma {:induction false} StringBody(s: string, single: bool, rest: string)
    ensures var q := if single then '\'' else '"';
            Normalized(Escaped(s, q) + ([q] + rest), single, !single)
            == Escaped(s, '"') + ("\"" + Normalized(rest, false, false))
  {
    hide Normalized, EscapedChar;
    var q := if single then '\'' else '"';
    var end, out := [q] + rest, "\"" + Normalized(rest, false, false);
    if s == [] {
      QuoteToggles(single, true, rest);
      assert [] + end == end && [] + out == out;
    } else {
      StringBody(s[1..], single, rest);
      var tail := Escaped(s[1..], q) + end;
      InString(s[0], single, tail);
      Assoc(EscapedChar(s[0], q), Escaped(s[1..], q), end);
      Assoc(EscapedChar(s[0], '"'), Escaped(s[1..], '"'), out);
    }
  }

  lemma {:induction false} NormText(t: Text, python: bool, rest: string)
    ensures Normalized(PrintText(t, python) + rest, false, false) == PrintText(t, false) + Normalized(rest, false, false)
  {
    hide Normalized, Escaped;
    var q := QuoteOf(t, python);
    var body, out := Escaped(t.chars, q), Normalized(rest, false, false);
    Assoc([q] + body, [q], rest);
    Assoc([q], body, [q] + rest);
    QuoteToggles(q == '\'', false, body + ([q] + rest));
    StringBody(t.chars, q == '\'', rest);
    var json := Escaped(t.chars, '"');
    Assoc("\"" + json, "\"", out);
    Assoc("\"", json, "\"" + out);
  }

  lemma {:induction false} NormPieces(ps: seq<Piece>, python: bool)
    requires PlainPieces(ps)
    ensures Normalized(PrintPieces(ps, python), false, false) == PrintPieces(ps, false)
  {
    if ps != [] {
      var rest := PrintPieces(ps[1..], python);
      assert ps[0].Word? ==> PlainWord(ps[0].word);
      NormPieces(ps[1..], python);
      match ps[0]
      case Word(w) => CopiesWord(w, rest);
      case Brace(c) => CopiesChar(c, rest);
      case Quoted(t) => NormText(t, python, rest);
    }
  }

  lemma {:induction false} TreePlain(t: Tree)
    requires WellFormed(t)
    ensures PlainPieces(Pieces(t))
    decreases t
  {
    match t
    case Atom(w) =>
    case Str(s) =>
    case List(items) => ItemsPlain(items, "");
    case Dict(entries) => EntriesPlain(entries, "");
  }

  lemma {:induction false} ItemsPlain(items: seq<Tree>, sep: string)
    requires (forall k :: 0 <= k < |items| ==> WellFormed(items[k])) && PlainWord(sep)
    ensures PlainPieces(ItemPieces(items, sep))
    decreases items
  {
    if items != [] {
      TreePlain(items[0]);
      ItemsPlain(items[1..], ", ");
    }
  }

  lemma {:induction false} EntriesPlain(entries: seq<Entry>, sep: string)
    requires (forall k :: 0 <= k < |entries| ==> WellFormed(entries[k].value)) && PlainWord(sep)
    ensures PlainPieces(EntryPieces(entries, sep))
    decreases entries
  {
    if entries != [] {
      EntryPlain(entries[0]);
      EntriesPlain(entries[1..], ", ");
    }
  }

  lemma {:induction false} EntryPlain(e: Entry)
    requires WellFormed(e.value)
    ensures PlainPieces(OneEntry(e))
    decreases e
  {
    TreePlain(e.value);
  }

  // Main result: whatever quotes the Python-style text uses, the JSON text comes out; on JSON text
  // the normaliser is the identity.
  lemma {:induction false} NormalizesToJson(t: Tree)
    requires WellFormed(t)
    ensures Normalized(Print(t, true), false, false) == Print(t, false)
    ensures Normalized(Print(t, false), false, false) == Print(t, false)
  {
    TreePlain(t);
    NormPieces(Pieces(t), true);
    NormPieces(Pieces(t), false);
  }

  // ---------- JSON text leaves no brace open ----------

  function Opens(p: Piece): int { if p == Brace('{') then 1 else if p == Brace('}') then -1 else 0 }

  function OpenBraces(ps: seq<Piece>): int {
    if ps == [] then 0 else Opens(ps[0]) + OpenBraces(ps[1..])
  }

  lemma {:induction false} SkipsWord(w: string, rest: string)
    requires PlainWord(w)
    ensures Depth(w + rest, false, false) == Depth(rest, false, false)
  {
    if w == [] {
      assert w + rest == rest;
    } else {
      assert (w + rest)[1..] == w[1..] + rest && (w + rest)[0] == w[0];
      assert w[0] !in {'"', '\'', '\\', '{', '}'};
      SkipsWord(w[1..], rest);
    }
  }

  lemma {:induction false} SkipsEscaped(c: char, rest: string)
    ensures Depth(EscapedChar(c, '"') + rest, true, false) == Depth(rest, true, false)
  {
    var x := EscapedChar(c, '"') + rest;
    if |EscapedChar(c, '"')| == 2 {
      assert x[1..] == [c] + rest && ([c] + rest)[1..] == rest;
      assert Depth([c] + rest, true, true) == Depth(rest, true, false);
    } else {
      assert x[1..] == rest;
    }
  }

  lemma {:induction false} SkipsString(s: string, rest: string)
    ensures Depth(Escaped(s, '"') + ("\"" + rest), true, false) == Depth(rest, false, false)
  {
    var end := "\"" + rest;
    if s == [] {
      assert [] + end == end && end[1..] == rest;
    } else {
      SkipsString(s[1..], rest);
      SkipsEscaped(s[0], Escaped(s[1..], '"') + end);
      assert Escaped(s, '"') + end == EscapedChar(s[0], '"') + (Escaped(s[1..], '"') + end);
    }
  }

  lemma {:induction false} SkipsText(t: Text, rest: string)
    ensures Depth(PrintText(t, false) + rest, false, false) == Depth(rest, false, false)
  {
    var inner := Escaped(t.chars, '"') + ("\"" + rest);
    var x := PrintText(t, false) + rest;
    assert x == "\"" + inner && x[1..] == inner;
    SkipsString(t.chars, rest);
  }

  lemma {:induction false} DepthPieces(ps: seq<Piece>)
    requires PlainPieces(ps)
    ensures Depth(PrintPieces(ps, false), false, false) == OpenBraces(ps)
  {
    if ps != [] {
      var rest := PrintPieces(ps[1..], false);
      assert ps[0].Word? ==> PlainWord(ps[0].word);
      DepthPieces(ps[1..]);
      match ps[0]
      case Word(w) => SkipsWord(w, rest);
      case Brace(c) => assert ([c] + rest)[1..] == rest;
      case Quoted(t) => SkipsText(t, rest);
    }
  }

  lemma {:induction false} OpenBracesConcat(a: seq<Piece>, b: seq<Piece>)
    ensures OpenBraces(a + b) == OpenBraces(a) + OpenBraces(b)
  {
    if a == [] { assert a + b == b; } else {
      assert (a + b)[1..] == a[1..] + b;
      OpenBracesConcat(a[1..], b);
    }
  }

  lemma {:induction false} TreeBalanced(t: Tree)
    ensures OpenBraces(Pieces(t)) == 0
    decreases t
  {
    match t
    case Atom(w) =>
    case Str(s) =>
    case List(items) =>
      var inner := ItemPieces(items, "");
      ItemsBalanced(items, "");
      OpenBracesConcat([Word("[")] + inner, [Word("]")]);
      OpenBracesConcat([Word("[")], inner);
    case Dict(entries) =>
      var inner := EntryPieces(entries, "");
      EntriesBalanced(entries, "");
      OpenBracesConcat([Brace('{')] + inner, [Brace('}')]);
      OpenBracesConcat([Brace('{')], inner);
  }

  lemma {:induction false} ItemsBalanced(items: seq<Tree>, sep: string)
    ensures OpenBraces(ItemPieces(items, sep)) == 0
    decreases items
  {
    if items != [] {
      TreeBalanced(items[0]);
      ItemsBalanced(items[1..], ", ");
      OpenBracesConcat([Word(sep)] + Pieces(items[0]), ItemPieces(items[1..], ", "));
      OpenBracesConcat([Word(sep)], Pieces(items[0]));
    }
  }

  lemma {:induction false} EntriesBalanced(entries: seq<Entry>, sep: string)
    ensures OpenBraces(EntryPieces(entries, sep)) == 0
    decreases entries
  {
    if entries != [] {
      EntryBalanced(entries[0]);
      EntriesBalanced(entries[1..], ", ");
      OpenBracesConcat([Word(sep)] + OneEntry(entries[0]), EntryPieces(entries[1..], ", "));
      OpenBracesConcat([Word(sep)], OneEntry(entries[0]));
    }
  }

  lemma {:induction false} EntryBalanced(e: Entry)
    ensures OpenBraces(OneEntry(e)) == 0
    decreases e
  {
    TreeBalanced(e.value);
    OpenBracesConcat([Quoted(e.key), Word(": ")], Pieces(e.value));
    assert [Quoted(e.key), Word(": ")][1..] == [Word(": ")];
  }

  lemma {:induction false} JsonTextBalanced(t: Tree)
    requires WellFormed(t)
    ensures Depth(Print(t, false), false, false) == 0
  {
    TreePlain(t);
    DepthPieces(Pieces(t));
    TreeBalanced(t);
  }
}
