/** One row of comma-separated values (section 2 of RFC 4180), and what writing a row may do so that it is
    read back. */
module Csv {
  import opened Basics

  const QUOTE: Byte := 34
  const COMMA: Byte := 44

  // The fields from here on, given what the current field holds and whether a quote is open.
  function Row(s: seq<Byte>, field: seq<Byte>, inQuotes: bool): (r: seq<seq<Byte>>)
    ensures |r| >= 1
    decreases |s|
  {
    if s == [] then [field]
    else if s[0] == QUOTE then
      if !inQuotes then (if field != [] then Row(s[1..], field + [QUOTE], false) else Row(s[1..], field, true))
      else if |s| > 1 && s[1] == QUOTE then Row(s[2..], field + [QUOTE], true)
      else Row(s[1..], field, false)
    else if s[0] == COMMA && !inQuotes then [field] + Row(s[1..], [], false)
    else Row(s[1..], field + [s[0]], inQuotes)
  }

  method ParseCsvRow(input: seq<Byte>) returns (fields: seq<seq<Byte>>)
    ensures fields == Row(input, [], false)
  {
    fields := [];
    var field, inQuotes, i := [], false, 0;
    assert input[0..] == input;
    Front([], Row(input, [], false), []);
    while i < |input|
      invariant i <= |input| && fields + Row(input[i..], field, inQuotes) == Row(input, [], false)
      decreases |input| - i
    {
      RowStep(input[i..], field, inQuotes);
      Tails(input, i);
      hide Row;
      var ch := input[i];
      if ch == QUOTE {
        if !inQuotes {
          if field != [] { field := field + [QUOTE]; } else { inQuotes := true; }
        } else {
          if i + 1 < |input| && input[i + 1] == QUOTE {
            field := field + [QUOTE];
            i := i + 1;
          } else {
            inQuotes := false;
          }
        }
      } else if ch == COMMA {
        if inQuotes {
          field := field + [COMMA];
        } else {
          Front(fields, Row(input[i + 1..], [], false), field);
          fields := fields + [field];
          field := [];
        }
      } else {
        field := field + [ch];
      }
      i := i + 1;
    }
    fields := fields + [field];
  }

  lemma {:induction false} Tails(s: seq<Byte>, i: nat)
    requires i < |s|
    ensures s[i..][1..] == s[i + 1..] && (i + 1 < |s| ==> s[i..][2..] == s[i + 2..])
  {
  }

  lemma {:induction false} Front(a: seq<seq<Byte>>, b: seq<seq<Byte>>, f: seq<Byte>)
    ensures a + ([f] + b) == (a + [f]) + b && [] + b == b
  {
  }

  lemma {:induction false} RowStep(s: seq<Byte>, field: seq<Byte>, inQuotes: bool)
    requires s != []
    ensures Row(s, field, inQuotes) ==
            if s[0] == QUOTE then
              if !inQuotes then (if field != [] then Row(s[1..], field + [QUOTE], false) else Row(s[1..], field, true))
              else if |s| > 1 && s[1] == QUOTE then Row(s[2..], field + [QUOTE], true)
              else Row(s[1..], field, false)
            else if s[0] == COMMA && !inQuotes then [field] + Row(s[1..], [], false)
            else Row(s[1..], field + [s[0]], inQuotes)
  {
  }

  // ---------- writing a row ----------

  datatype Cell = Quoted(text: seq<Byte>) | Bare(text: seq<Byte>)

  // A bare field must not start with a quote nor hold a comma; a quote later on is taken as it is.
  predicate CellOk(c: Cell) { c.Bare? ==> BareOk(c.text) }

  predicate BareOk(f: seq<Byte>) { COMMA !in f && (f != [] ==> f[0] != QUOTE) }

  function Doubled(f: seq<Byte>): seq<Byte> {
    if f == [] then [] else (if f[0] == QUOTE then [QUOTE, QUOTE] else [f[0]]) + Doubled(f[1..])
  }

  function WrittenCell(c: Cell): seq<Byte> {
    if c.Quoted? then [QUOTE] + (Doubled(c.text) + [QUOTE]) else c.text
  }

  function WrittenRow(cells: seq<Cell>): seq<Byte>
    requires cells != []
  {
    if |cells| == 1 then WrittenCell(cells[0]) else WrittenCell(cells[0]) + ([COMMA] + WrittenRow(cells[1..]))
  }

  function Texts(cells: seq<Cell>): seq<seq<Byte>> { seq(|cells|, i requires 0 <= i < |cells| => cells[i].text) }

  predicate AllOk(cells: seq<Cell>) { forall i :: 0 <= i < |cells| ==> CellOk(cells[i]) }

  lemma {:induction false} Join3(a: seq<Byte>, b: seq<Byte>, c: seq<Byte>)
    ensures a + b + c == a + (b + c)
  {
  }

  // Inside quotes everything up to the closing quote is the field.
  lemma {:induction false} InsideQuotes(f: seq<Byte>, rest: seq<Byte>, field: seq<Byte>)
    requires rest != [] ==> rest[0] != QUOTE
    ensures Row(Doubled(f) + ([QUOTE] + rest), field, true) == Row(rest, field + f, false)
    decreases |f|
  {
    var tail := [QUOTE] + rest;
    if f == [] {
      assert Doubled(f) + tail == tail && tail[1..] == rest && field + f == field;
      RowStep(tail, field, true);
    } else {
      var head := if f[0] == QUOTE then [QUOTE, QUOTE] else [f[0]];
      var s := head + (Doubled(f[1..]) + tail);
      assert Doubled(f) + tail == s by { Join3(head, Doubled(f[1..]), tail); }
      assert s[|head|..] == Doubled(f[1..]) + tail;
      RowStep(s, field, true);
      InsideQuotes(f[1..], rest, field + [f[0]]);
      Join3(field, [f[0]], f[1..]);
      assert f == [f[0]] + f[1..];
    }
  }

  // Bare text is taken as it is, once the field has begun or when it does not begin with a quote.
  lemma {:induction false} BareText(f: seq<Byte>, rest: seq<Byte>, field: seq<Byte>)
    requires COMMA !in f && (f != [] && field == [] ==> f[0] != QUOTE)
    ensures Row(f + rest, field, false) == Row(rest, field + f, false)
    decreases |f|
  {
    if f == [] {
      assert f + rest == rest && field + f == field;
    } else {
      var s := f + rest;
      assert s[0] == f[0] && s[1..] == f[1..] + rest;
      RowStep(s, field, false);
      hide Row;
      assert f[0] != COMMA;
      BareText(f[1..], rest, field + [f[0]]);
      Join3(field, [f[0]], f[1..]);
      assert f == [f[0]] + f[1..];
    }
  }

  lemma {:induction false} CellRead(c: Cell, rest: seq<Byte>)
    requires CellOk(c) && (rest != [] ==> rest[0] == COMMA)
    ensures Row(WrittenCell(c) + rest, [], false) == Row(rest, c.text, false)
  {
    assert [] + c.text == c.text;
    if c.Quoted? {
      var s := [QUOTE] + (Doubled(c.text) + ([QUOTE] + rest));
      assert WrittenCell(c) + rest == s by {
        Join3([QUOTE], Doubled(c.text) + [QUOTE], rest);
        Join3(Doubled(c.text), [QUOTE], rest);
      }
      assert s[1..] == Doubled(c.text) + ([QUOTE] + rest);
      RowStep(s, [], false);
      InsideQuotes(c.text, rest, []);
    } else {
      BareText(c.text, rest, []);
    }
  }

  // A row written with any mix of quoted and bare fields is read back as those fields.
  lemma {:induction false} RowReadBack(cells: seq<Cell>)
    requires cells != [] && AllOk(cells)
    ensures Row(WrittenRow(cells), [], false) == Texts(cells)
    decreases |cells|
  {
    var c := cells[0];
    if |cells| == 1 {
      CellRead(c, []);
      assert WrittenCell(c) + [] == WrittenCell(c);
    } else {
      var tail := WrittenRow(cells[1..]);
      CellRead(c, [COMMA] + tail);
      RowStep([COMMA] + tail, c.text, false);
      assert ([COMMA] + tail)[1..] == tail;
      RowReadBack(cells[1..]);
      hide Row, WrittenCell, CellOk;
      assert Texts(cells) == [c.text] + Texts(cells[1..]);
    }
  }

  // ---------- when bare text is safe ----------

  function Size(fields: seq<seq<Byte>>): nat {
    if fields == [] then 0 else |fields[0]| + Size(fields[1..])
  }

  // Reading a row never makes up bytes.
  lemma {:induction false} RowSize(s: seq<Byte>, field: seq<Byte>, inQuotes: bool)
    ensures Size(Row(s, field, inQuotes)) <= |field| + |s|
    decreases |s|
  {
    if s == [] {
      assert [field][1..] == [];
    } else {
      var next := Row(s[1..], [], false);
      assert ([field] + next)[1..] == next;
      RowStep(s, field, inQuotes);
      hide Row;
      RowSize(s[1..], [], false);
      RowSize(s[1..], field, true);
      RowSize(s[1..], field, false);
      RowSize(s[1..], field + [s[0]], inQuotes);
      if |s| > 1 { RowSize(s[2..], field + [QUOTE], true); }
    }
  }

  // The first comma outside quotes ends the field.
  lemma {:induction false} CommaSplits(f: seq<Byte>, field: seq<Byte>)
    requires COMMA in f && (field == [] ==> f[0] != QUOTE)
    ensures |Row(f, field, false)| > 1
    decreases |f|
  {
    RowStep(f, field, false);
    if f[0] != COMMA {
      hide Row;
      assert f == [f[0]] + f[1..];
      CommaSplits(f[1..], field + [f[0]]);
    }
  }

  // A field can be written bare exactly when it holds no comma and does not begin with a quote.
  lemma {:induction false} BareExact(f: seq<Byte>)
    ensures Row(f, [], false) == [f] <==> BareOk(f)
  {
    if BareOk(f) {
      RowReadBack([Bare(f)]);
      assert Texts([Bare(f)]) == [f];
    } else if f != [] && f[0] == QUOTE {
      RowStep(f, [], false);
      RowSize(f[1..], [], true);
      assert Size([f]) == |f| by { assert [f][1..] == []; }
    } else {
      CommaSplits(f, []);
    }
  }

  // Every row read, written again with all fields quoted, is read as the same fields.
  lemma {:induction false} RewriteStable(s: seq<Byte>)
    ensures var fields := Row(s, [], false);
            var cells := seq(|fields|, i requires 0 <= i < |fields| => Quoted(fields[i]));
            Row(WrittenRow(cells), [], false) == fields
  {
    var fields := Row(s, [], false);
    var cells := seq(|fields|, i requires 0 <= i < |fields| => Quoted(fields[i]));
    RowReadBack(cells);
    assert Texts(cells) == fields;
  }
}
