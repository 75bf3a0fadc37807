/** Base64 (sections 4 and 5 of RFC 4648): encoding, and decoding with a given or detected alphabet,
    into a new string or over the text itself. */
module Base64 {
  import opened Basics

  datatype Alphabet = Auto | Standard | UrlSafe
  datatype Behavior = Moderate | Loose

  const PAD: Byte := 61

  function Symbol(a: Alphabet, v: nat): Byte
    requires v < 64
  {
    if v < 26 then 65 + v
    else if v < 52 then 97 + (v - 26)
    else if v < 62 then 48 + (v - 52)
    else if a == UrlSafe then (if v == 62 then 45 else 95)
    else (if v == 62 then 43 else 47)
  }

  // The value of a character, and the alphabet from then on.
  function ValueOf(a: Alphabet, c: Byte): (r: Option<(nat, Alphabet)>)
    ensures r.Some? ==> r.value.0 < 64
  {
    if 65 <= c <= 90 then Some((c - 65, a))
    else if 97 <= c <= 122 then Some((c - 97 + 26, a))
    else if 48 <= c <= 57 then Some((c - 48 + 52, a))
    else if a == Standard then (if c == 43 then Some((62, a)) else if c == 47 then Some((63, a)) else None)
    else if a == UrlSafe then (if c == 45 then Some((62, a)) else if c == 95 then Some((63, a)) else None)
    else if c == 43 then Some((62, Standard))
    else if c == 47 then Some((63, Standard))
    else if c == 45 then Some((62, UrlSafe))
    else if c == 95 then Some((63, UrlSafe))
    else None
  }

  // ---------- encoding ----------

  function Encoded(s: seq<Byte>, a: Alphabet): seq<Byte> {
    if s == [] then []
    else if |s| == 1 then [Symbol(a, s[0] / 4), Symbol(a, s[0] % 4 * 16), PAD, PAD]
    else if |s| == 2 then [Symbol(a, s[0] / 4), Symbol(a, s[0] % 4 * 16 + s[1] / 16), Symbol(a, s[1] % 16 * 4), PAD]
    else Quad(s[0], s[1], s[2], a) + Encoded(s[3..], a)
  }

  function Quad(x: Byte, y: Byte, z: Byte, a: Alphabet): (r: seq<Byte>)
    ensures |r| == 4
  {
    [Symbol(a, x / 4), Symbol(a, x % 4 * 16 + y / 16), Symbol(a, y % 16 * 4 + z / 64), Symbol(a, z % 64)]
  }

  lemma {:induction false} EncodedCases(s: seq<Byte>, a: Alphabet)
    ensures |s| == 1 ==> Encoded(s, a) == [Symbol(a, s[0] / 4)] + [Symbol(a, s[0] % 4 * 16), PAD, PAD]
    ensures |s| == 2 ==> Encoded(s, a) == [Symbol(a, s[0] / 4)] + [Symbol(a, s[0] % 4 * 16 + s[1] / 16)] + [Symbol(a, s[1] % 16 * 4), PAD]
    ensures |s| > 2 ==> Quad(s[0], s[1], s[2], a) == [Symbol(a, s[0] / 4)] + [Symbol(a, s[0] % 4 * 16 + s[1] / 16)]
                                                     + [Symbol(a, s[1] % 16 * 4 + s[2] / 64), Symbol(a, s[2] % 64)]
                        && Encoded(s, a) == Quad(s[0], s[1], s[2], a) + Encoded(s[3..], a)
  {
    hide Symbol;
  }

  lemma {:induction false} Appended(a: seq<Byte>, b: seq<Byte>, c: seq<Byte>, d: seq<Byte>)
    ensures a + b + c == a + (b + c) && a + b + c + d == a + (b + c + d)
  {
  }

  method Encode(str: seq<Byte>, a: Alphabet) returns (out: seq<Byte>)
    ensures out == Encoded(str, a)
  {
    out := [];
    var i := 0;
    while i < |str|
      invariant i <= |str| && out + Encoded(str[i..], a) == Encoded(str, a)
      decreases |str| - i
    {
      hide Symbol, Encoded, Quad;
      ghost var before, rest := out, str[i..];
      EncodedCases(rest, a);
      var i0 := str[i];
      i := i + 1;
      var first := [Symbol(a, i0 / 4)];
      out := out + first;
      if i == |str| {
        var end := [Symbol(a, i0 % 4 * 16), PAD, PAD];
        out := out + end;
        Appended(before, first, end, []);
        break;
      }
      var i1 := str[i];
      i := i + 1;
      var second := [Symbol(a, i0 % 4 * 16 + i1 / 16)];
      out := out + second;
      if i == |str| {
        var end := [Symbol(a, i1 % 16 * 4), PAD];
        out := out + end;
        Appended(before, first, second, end);
        break;
      }
      var i2 := str[i];
      i := i + 1;
      var end := [Symbol(a, i1 % 16 * 4 + i2 / 64), Symbol(a, i2 % 64)];
      out := out + end;
      assert rest[3..] == str[i..];
      Appended(before, first, second, end);
      Regroup(before, out, Quad(i0, i1, i2, a), Encoded(str[i..], a));
    }
  }

  lemma {:induction false} Regroup(a: seq<Byte>, b: seq<Byte>, c: seq<Byte>, d: seq<Byte>)
    requires b == a + c
    ensures b + d == a + (c + d)
  {
  }

  function RequiredEncodeSize(size: nat): nat { (size / 3 + if size % 3 != 0 then 1 else 0) * 4 }

  function MaxDecodeSize(size: nat): nat { (size / 4 + if size % 4 != 0 then 1 else 0) * 3 }

  lemma {:induction false} EncodedSize(s: seq<Byte>, a: Alphabet)
    ensures |Encoded(s, a)| == RequiredEncodeSize(|s|)
    ensures |s| <= MaxDecodeSize(|Encoded(s, a)|) < |s| + 3
    decreases |s|
  {
    SizesMeet(|s|);
    hide Symbol, MaxDecodeSize;
    if |s| > 2 {
      EncodedSize(s[3..], a);
      assert RequiredEncodeSize(|s|) == 4 + RequiredEncodeSize(|s| - 3);
    }
  }

  lemma {:induction false} SizesMeet(n: nat)
    ensures n <= MaxDecodeSize(RequiredEncodeSize(n)) < n + 3
  {
  }

  // ---------- decoding ----------

  // The bytes written and whether decoding succeeds, with `bits` bits of the character before kept.
  function Decoded(s: seq<Byte>, a: Alphabet, behavior: Behavior, bits: nat, last: nat): (seq<Byte>, bool)
    requires bits in {0, 2, 4, 6} && last < 64
    decreases |s|
  {
    if s == [] then ([], true)
    else if s[0] == PAD then ([], behavior == Loose || AllPad(s[1..]))
    else
      var v := ValueOf(a, s[0]);
      if v.None? then ([], false)
      else if bits >= 2 then
        var rest := Decoded(s[1..], v.value.1, behavior, bits - 2, v.value.0);
        ([Joined(last, v.value.0, bits)] + rest.0, rest.1)
      else Decoded(s[1..], v.value.1, behavior, bits + 6, v.value.0)
  }

  predicate AllPad(s: seq<Byte>) { forall i :: 0 <= i < |s| ==> s[i] == PAD }

  // The kept bits of one character above the first bits of the next, in one byte.
  function Joined(last: nat, part: nat, bits: nat): Byte
    requires bits in {2, 4, 6} && last < 64 && part < 64
  {
    if bits == 6 then last * 4 % 256 + part / 16
    else if bits == 4 then last * 16 % 256 + part / 4
    else last * 64 % 256 + part
  }

  // Everything after the first padding character must be padding.
  method PaddingHolds(buffer: array<Byte>, start: nat, size: nat) returns (ok: bool)
    requires start <= size <= buffer.Length
    ensures ok == AllPad(buffer[start..size])
  {
    var i := start;
    while i < size
      invariant start <= i <= size && forall k :: start <= k < i ==> buffer[k] == PAD
    {
      if buffer[i] != PAD { assert buffer[start..size][i - start] != PAD; return false; }
      i := i + 1;
    }
    ok := true;
  }

  /** Decodes the first `size` characters over themselves. What has been written is what decoding a copy
      gives, also when it stops at a bad character; the rest of the buffer stays. */
  method DecodeInPlace(buffer: array<Byte>, size: nat, given: Alphabet, behavior: Behavior) returns (end: nat, ok: bool)
    requires size <= buffer.Length
    modifies buffer
    ensures var r := Decoded(old(buffer[..size]), given, behavior, 0, 0); end <= size && buffer[..end] == r.0 && ok == r.1
    ensures buffer[end..] == old(buffer[end..])
  {
    hide ValueOf, Joined, Decoded, Resumes, AllPad;
    var a, last, bits := given, 0, 0;
    ghost var text := buffer[..size];
    var i := 0;
    end := 0;
    ResumeStart(text, given, behavior);
    assert buffer[..0] == [];
    while i < size && buffer[i] != PAD
      invariant end <= i <= size && 6 * i == 8 * end + bits && bits in {0, 2, 4, 6} && last < 64
      invariant buffer[end..] == old(buffer[end..])
      invariant Resumes(text, given, behavior, buffer[..end], text[i..], a, bits, last)
    {
      ghost var written := buffer[..end];
      assert buffer[end..][i - end] == text[i];
      ResumeStep(text, given, behavior, written, text[i..], a, bits, last);
      assert text[i..][1..] == text[i + 1..];
      var v := ValueOf(a, buffer[i]);
      i := i + 1;
      if v.None? { ok := false; return; }
      if bits + 6 >= 8 {
        // The write stays behind what is still to be read.
        assert end < i;
        buffer[end] := Joined(last, v.value.0, bits);
        end := end + 1;
        assert buffer[..end] == written + [Joined(last, v.value.0, bits)];
        bits := bits - 2;
      } else {
        bits := bits + 6;
      }
      last, a := v.value.0, v.value.1;
    }
    assert i < size ==> buffer[end..][i - end] == text[i];
    ResumeEnd(text, given, behavior, buffer[..end], text[i..], a, bits, last);
    ok := true;
    if i < size {
      if behavior != Loose {
        ok := PaddingHolds(buffer, i + 1, size);
        assert buffer[i + 1..size] == text[i..][1..] by { SameTail(buffer[..], old(buffer[..]), end, i + 1, size); }
      }
    }
  }

  // What is written so far and what the rest gives make up the whole result.
  ghost predicate Resumes(text: seq<Byte>, given: Alphabet, behavior: Behavior, written: seq<Byte>, rest: seq<Byte>,
                          a: Alphabet, bits: nat, last: nat)
  {
    && bits in {0, 2, 4, 6} && last < 64
    && var r := Decoded(rest, a, behavior, bits, last);
       var whole := Decoded(text, given, behavior, 0, 0);
       whole.0 == written + r.0 && whole.1 == r.1
  }

  lemma {:induction false} ResumeStart(text: seq<Byte>, given: Alphabet, behavior: Behavior)
    ensures text[0..] == text && Resumes(text, given, behavior, [], text, given, 0, 0)
  {
    var r := Decoded(text, given, behavior, 0, 0);
    hide Decoded;
    assert [] + r.0 == r.0;
  }

  lemma {:induction false} ResumeEnd(text: seq<Byte>, given: Alphabet, behavior: Behavior, written: seq<Byte>, rest: seq<Byte>,
                                     a: Alphabet, bits: nat, last: nat)
    requires Resumes(text, given, behavior, written, rest, a, bits, last) && (rest == [] || rest[0] == PAD)
    ensures var r := Decoded(text, given, behavior, 0, 0);
            r.0 == written && r.1 == (rest == [] || behavior == Loose || AllPad(rest[1..]))
  {
    DecodeStops(rest, a, behavior, bits, last);
    hide Decoded, AllPad;
  }

  lemma {:induction false} ResumeStep(text: seq<Byte>, given: Alphabet, behavior: Behavior, written: seq<Byte>, rest: seq<Byte>,
                                      a: Alphabet, bits: nat, last: nat)
    requires Resumes(text, given, behavior, written, rest, a, bits, last) && rest != [] && rest[0] != PAD
    ensures var v := ValueOf(a, rest[0]);
            if v.None? then Decoded(text, given, behavior, 0, 0).0 == written && !Decoded(text, given, behavior, 0, 0).1
            else if bits >= 2 then
              Resumes(text, given, behavior, written + [Joined(last, v.value.0, bits)], rest[1..], v.value.1, bits - 2, v.value.0)
            else Resumes(text, given, behavior, written, rest[1..], v.value.1, bits + 6, v.value.0)
  {
    hide ValueOf, Joined;
  }

  lemma {:induction false} DecodeStops(s: seq<Byte>, a: Alphabet, behavior: Behavior, bits: nat, last: nat)
    requires bits in {0, 2, 4, 6} && last < 64 && (s == [] || s[0] == PAD)
    ensures var r := Decoded(s, a, behavior, bits, last); r.0 == [] && r.1 == (s == [] || behavior == Loose || AllPad(s[1..]))
  {
  }

  lemma {:induction false} SameTail(now: seq<Byte>, before: seq<Byte>, end: nat, i: nat, size: nat)
    requires |now| == |before| && end <= i <= size <= |now| && now[end..] == before[end..]
    ensures now[i..size] == before[..size][i..]
  {
    forall k | 0 <= k < size - i ensures now[i..size][k] == before[..size][i..][k] {
      assert now[end..][i + k - end] == before[end..][i + k - end];
    }
  }

  // The same decoding into a new string.
  method Decode(str: seq<Byte>, given: Alphabet, behavior: Behavior) returns (out: seq<Byte>, ok: bool)
    ensures var r := Decoded(str, given, behavior, 0, 0); out == r.0 && ok == r.1
  {
    hide ValueOf, Joined, Decoded, Resumes, AllPad;
    var a, last, bits := given, 0, 0;
    var i := 0;
    out := [];
    ResumeStart(str, given, behavior);
    while i < |str| && str[i] != PAD
      invariant i <= |str| && bits in {0, 2, 4, 6} && last < 64
      invariant Resumes(str, given, behavior, out, str[i..], a, bits, last)
    {
      ResumeStep(str, given, behavior, out, str[i..], a, bits, last);
      assert str[i..][1..] == str[i + 1..];
      var v := ValueOf(a, str[i]);
      i := i + 1;
      if v.None? { ok := false; return; }
      if bits + 6 >= 8 {
        out := out + [Joined(last, v.value.0, bits)];
        bits := bits - 2;
      } else {
        bits := bits + 6;
      }
      last, a := v.value.0, v.value.1;
    }
    ResumeEnd(str, given, behavior, out, str[i..], a, bits, last);
    ok := true;
    if i < |str| && behavior != Loose {
      assert str[i..][1..] == str[i + 1..];
      ok := OnlyPadding(str[i + 1..]);
    }
  }

  method OnlyPadding(s: seq<Byte>) returns (ok: bool)
    ensures ok == AllPad(s)
  {
    var i := 0;
    while i < |s|
      invariant i <= |s| && forall k :: 0 <= k < i ==> s[k] == PAD
    {
      if s[i] != PAD { return false; }
      i := i + 1;
    }
    ok := true;
  }

  // ---------- what decoding accepts ----------

  // The characters before the first padding character.
  function Body(s: seq<Byte>): (r: seq<Byte>)
    ensures |r| <= |s|
  {
    if s == [] || s[0] == PAD then [] else [s[0]] + Body(s[1..])
  }

  predicate Spelled(s: seq<Byte>, a: Alphabet) { forall i :: 0 <= i < |s| ==> ValueOf(a, s[i]).Some? }

  predicate EndOk(s: seq<Byte>, behavior: Behavior) {
    behavior == Loose || |Body(s)| == |s| || AllPad(s[|Body(s)| + 1..])
  }

  // With a given alphabet, decoding succeeds exactly on characters of that alphabet followed by padding,
  // and then every eight bits of six-bit characters give a byte.
  lemma {:induction false} AcceptsExact(s: seq<Byte>, a: Alphabet, behavior: Behavior, bits: nat, last: nat)
    requires a != Auto && bits in {0, 2, 4, 6} && last < 64
    ensures var r := Decoded(s, a, behavior, bits, last);
            && (r.1 <==> Spelled(Body(s), a) && EndOk(s, behavior))
            && (r.1 ==> |r.0| == (6 * |Body(s)| + bits) / 8)
    decreases |s|
  {
    if s == [] {
    } else if s[0] == PAD {
    } else {
      var v := ValueOf(a, s[0]);
      var rest := Body(s[1..]);
      assert Body(s) == [s[0]] + rest;
      SpelledCons(s[0], rest, a);
      KeepsAlphabet(a, s[0]);
      if v.Some? {
        hide ValueOf, Joined, AllPad, Spelled, Body;
        AcceptsExact(s[1..], a, behavior, if bits >= 2 then bits - 2 else bits + 6, v.value.0);
        assert |rest| < |s[1..]| ==> s[1..][|rest| + 1..] == s[|rest| + 2..];
      }
    }
  }

  lemma {:induction false} SpelledCons(c: Byte, rest: seq<Byte>, a: Alphabet)
    ensures Spelled([c] + rest, a) <==> ValueOf(a, c).Some? && Spelled(rest, a)
  {
    hide ValueOf;
    if Spelled([c] + rest, a) {
      assert ValueOf(a, ([c] + rest)[0]).Some?;
      forall i | 0 <= i < |rest| ensures ValueOf(a, rest[i]).Some? { assert ([c] + rest)[i + 1] == rest[i]; }
    }
  }

  lemma {:induction false} KeepsAlphabet(a: Alphabet, c: Byte)
    requires a != Auto
    ensures ValueOf(a, c).Some? ==> ValueOf(a, c).value.1 == a
  {
  }

  // Detection gives up nothing: it succeeds exactly when one of the alphabets does, with that result.
  lemma {:induction false} AutoIsEither(s: seq<Byte>, behavior: Behavior, bits: nat, last: nat)
    requires bits in {0, 2, 4, 6} && last < 64
    ensures var r := Decoded(s, Auto, behavior, bits, last);
            var p := Decoded(s, Standard, behavior, bits, last);
            var q := Decoded(s, UrlSafe, behavior, bits, last);
            && (r.1 <==> p.1 || q.1)
            && (p.1 ==> r == p) && (q.1 ==> r == q)
    decreases |s|
  {
    if s != [] && s[0] != PAD {
      var c := s[0];
      var v := ValueOf(Auto, c);
      AutoValue(c);
      if v.Some? && v.value.1 == Auto {
        AutoIsEither(s[1..], behavior, if bits >= 2 then bits - 2 else bits + 6, v.value.0);
      }
      hide ValueOf, Joined;
    }
  }

  // A character decides for an alphabet exactly when the other one lacks it.
  lemma {:induction false} AutoValue(c: Byte)
    ensures var v, p, q := ValueOf(Auto, c), ValueOf(Standard, c), ValueOf(UrlSafe, c);
            && (v.None? ==> p.None? && q.None?)
            && (v.Some? && v.value.1 == Auto ==> p == Some((v.value.0, Standard)) && q == Some((v.value.0, UrlSafe)))
            && (v.Some? && v.value.1 == Standard ==> p == v && q.None?)
            && (v.Some? && v.value.1 == UrlSafe ==> q == v && p.None?)
  {
  }

  // No input, accepted or not, gives more bytes than the size function says.
  lemma {:induction false} DecodedSize(s: seq<Byte>, a: Alphabet, behavior: Behavior, bits: nat, last: nat)
    requires bits in {0, 2, 4, 6} && last < 64
    ensures 8 * |Decoded(s, a, behavior, bits, last).0| <= 6 * |s| + bits
    ensures bits == 0 ==> |Decoded(s, a, behavior, bits, last).0| <= MaxDecodeSize(|s|)
    decreases |s|
  {
    hide ValueOf, Joined;
    if s != [] && s[0] != PAD {
      var v := ValueOf(a, s[0]);
      if v.Some? { DecodedSize(s[1..], v.value.1, behavior, if bits >= 2 then bits - 2 else bits + 6, v.value.0); }
    }
  }

  // ---------- the round trip ----------

  lemma {:induction false} SymbolRead(a: Alphabet, b: Alphabet, v: nat)
    requires v < 64 && (b == Auto || (a == UrlSafe) == (b == UrlSafe))
    ensures Symbol(a, v) != PAD && ValueOf(b, Symbol(a, v)).Some?
    ensures var r := ValueOf(b, Symbol(a, v)).value; r.0 == v && (r.1 == Auto || (a == UrlSafe) == (r.1 == UrlSafe))
  {
  }

  ghost predicate Fits(a: Alphabet, b: Alphabet) { b == Auto || (a == UrlSafe) == (b == UrlSafe) }

  // One character of the encoding, read in whatever state decoding has reached.
  lemma {:induction false} ReadSymbol(a: Alphabet, b: Alphabet, v: nat, rest: seq<Byte>, behavior: Behavior, bits: nat, last: nat)
    returns (c: Alphabet)
    requires v < 64 && Fits(a, b) && bits in {0, 2, 4, 6} && last < 64
    ensures Fits(a, c)
    ensures var s := [Symbol(a, v)] + rest;
            if bits >= 2 then
              var r := Decoded(rest, c, behavior, bits - 2, v);
              Decoded(s, b, behavior, bits, last).0 == [Joined(last, v, bits)] + r.0 && Decoded(s, b, behavior, bits, last).1 == r.1
            else Decoded(s, b, behavior, bits, last) == Decoded(rest, c, behavior, bits + 6, v)
  {
    SymbolRead(a, b, v);
    c := ValueOf(b, Symbol(a, v)).value.1;
    hide Symbol, ValueOf, Joined;
    assert ([Symbol(a, v)] + rest)[1..] == rest;
  }

  lemma {:induction false} JoinFirst(x: Byte, high: nat)
    requires high < 16
    ensures Joined(x / 4, x % 4 * 16 + high, 6) == x
  {
    assert (x % 4 * 16 + high) / 16 == x % 4;
  }

  lemma {:induction false} JoinSecond(low: nat, y: Byte, high: nat)
    requires low < 4 && high < 4
    ensures Joined(low * 16 + y / 16, y % 16 * 4 + high, 4) == y
  {
    assert (low * 16 + y / 16) * 16 == low * 256 + y / 16 * 16;
    assert (low * 16 + y / 16) * 16 % 256 == y / 16 * 16;
    assert (y % 16 * 4 + high) / 4 == y % 16;
  }

  lemma {:induction false} JoinThird(low: nat, z: Byte)
    requires low < 16
    ensures Joined(low * 4 + z / 64, z % 64, 2) == z
  {
    assert (low * 4 + z / 64) * 64 == low * 256 + z / 64 * 64;
    assert (low * 4 + z / 64) * 64 % 256 == z / 64 * 64;
  }

  // Decoding what was encoded gives it back, with its alphabet given or left to be detected.
  lemma {:induction false} RoundTrip(s: seq<Byte>, a: Alphabet, b: Alphabet, behavior: Behavior, last: nat)
    requires Fits(a, b) && last < 64
    ensures var r := Decoded(Encoded(s, a), b, behavior, 0, last); r.0 == s && r.1
    decreases |s|
  {
    if |s| == 0 {
    } else if |s| == 1 {
      assert s == [s[0]];
      ReadOne(s[0], a, b, behavior, last);
    } else if |s| == 2 {
      assert s == [s[0], s[1]];
      ReadTwo(s[0], s[1], a, b, behavior, last);
    } else {
      var e := Encoded(s[3..], a);
      var d, v := ReadQuad(s[0], s[1], s[2], e, a, b, behavior, last);
      RoundTrip(s[3..], a, d, behavior, v);
      hide Decoded, Quad;
      assert s == [s[0], s[1], s[2]] + s[3..];
    }
  }

  lemma {:induction false} ReadQuad(x: Byte, y: Byte, z: Byte, rest: seq<Byte>, a: Alphabet, b: Alphabet, behavior: Behavior, last: nat)
    returns (d: Alphabet, v: nat)
    requires Fits(a, b) && last < 64
    ensures Fits(a, d) && v < 64
    ensures var r := Decoded(rest, d, behavior, 0, v);
            var whole := Decoded(Quad(x, y, z, a) + rest, b, behavior, 0, last);
            whole.0 == [x, y, z] + r.0 && whole.1 == r.1
  {
    hide Symbol, Decoded, Joined;
    JoinFirst(x, y / 16);
    JoinSecond(x % 4, y, z / 64);
    JoinThird(y % 16, z);
    var v0, v1, v2, v3 := x / 4, x % 4 * 16 + y / 16, y % 16 * 4 + z / 64, z % 64;
    var s3 := [Symbol(a, v3)] + rest;
    var s2 := [Symbol(a, v2)] + s3;
    var s1 := [Symbol(a, v1)] + s2;
    assert Quad(x, y, z, a) + rest == [Symbol(a, v0)] + s1;
    var c0 := ReadSymbol(a, b, v0, s1, behavior, 0, last);
    var c1 := ReadSymbol(a, c0, v1, s2, behavior, 6, v0);
    var c2 := ReadSymbol(a, c1, v2, s3, behavior, 4, v1);
    var c3 := ReadSymbol(a, c2, v3, rest, behavior, 2, v2);
    d, v := c3, v3;
  }

  lemma {:induction false} ReadPad(pads: seq<Byte>, b: Alphabet, behavior: Behavior, bits: nat, last: nat)
    requires bits in {0, 2, 4, 6} && last < 64 && AllPad(pads)
    ensures var r := Decoded(pads, b, behavior, bits, last); r.0 == [] && r.1
  {
  }

  lemma {:induction false} ReadLast(a: Alphabet, b: Alphabet, v: nat, pads: seq<Byte>, behavior: Behavior, bits: nat, last: nat)
    requires v < 64 && Fits(a, b) && bits in {2, 4, 6} && last < 64 && AllPad(pads)
    ensures var r := Decoded([Symbol(a, v)] + pads, b, behavior, bits, last); r.0 == [Joined(last, v, bits)] && r.1
  {
    hide Symbol, Decoded, Joined, Fits, AllPad;
    var c := ReadSymbol(a, b, v, pads, behavior, bits, last);
    ReadPad(pads, c, behavior, bits - 2, v);
  }

  lemma {:induction false} PadsArePads()
    ensures AllPad([PAD]) && AllPad([PAD, PAD])
  {
  }

  lemma {:induction false} EncodedOne(x: Byte, a: Alphabet)
    ensures Encoded([x], a) == [Symbol(a, x / 4)] + ([Symbol(a, x % 4 * 16)] + [PAD, PAD])
  {
    hide Symbol;
  }

  lemma {:induction false} ReadOne(x: Byte, a: Alphabet, b: Alphabet, behavior: Behavior, last: nat)
    requires Fits(a, b) && last < 64
    ensures var r := Decoded(Encoded([x], a), b, behavior, 0, last); r.0 == [x] && r.1
  {
    hide *;
    PadsArePads();
    EncodedOne(x, a);
    JoinFirst(x, 0);
    var v0, v1 := x / 4, x % 4 * 16;
    var s1 := [Symbol(a, v1)] + [PAD, PAD];
    var c0 := ReadSymbol(a, b, v0, s1, behavior, 0, last);
    ReadLast(a, c0, v1, [PAD, PAD], behavior, 6, v0);
  }

  lemma {:induction false} EncodedTwo(x: Byte, y: Byte, a: Alphabet)
    ensures Encoded([x, y], a) == [Symbol(a, x / 4)] + ([Symbol(a, x % 4 * 16 + y / 16)] + ([Symbol(a, y % 16 * 4)] + [PAD]))
  {
    hide Symbol;
  }

  lemma {:induction false} ReadTwo(x: Byte, y: Byte, a: Alphabet, b: Alphabet, behavior: Behavior, last: nat)
    requires Fits(a, b) && last < 64
    ensures var r := Decoded(Encoded([x, y], a), b, behavior, 0, last); r.0 == [x, y] && r.1
  {
    hide *;
    PadsArePads();
    JoinFirst(x, y / 16);
    JoinSecond(x % 4, y, 0);
    var v0, v1, v2 := x / 4, x % 4 * 16 + y / 16, y % 16 * 4;
    var s2 := [Symbol(a, v2)] + [PAD];
    var s1 := [Symbol(a, v1)] + s2;
    EncodedTwo(x, y, a);
    var c0 := ReadSymbol(a, b, v0, s1, behavior, 0, last);
    var c1 := ReadSymbol(a, c0, v1, s2, behavior, 6, v0);
    ReadLast(a, c1, v2, [PAD], behavior, 4, v1);
  }

  // ---------- the alphabet and the bits ----------

  // The letters, the digits and the two signs that tell the alphabets apart.
  lemma {:induction false} SymbolTable(a: Alphabet, c: char)
    ensures 'A' <= c <= 'Z' ==> Symbol(a, c as nat - 'A' as nat) == c as nat
    ensures 'a' <= c <= 'z' ==> Symbol(a, 26 + (c as nat - 'a' as nat)) == c as nat
    ensures '0' <= c <= '9' ==> Symbol(a, 52 + (c as nat - '0' as nat)) == c as nat
    ensures a != UrlSafe ==> Symbol(a, 62) == '+' as nat && Symbol(a, 63) == '/' as nat
    ensures a == UrlSafe ==> Symbol(a, 62) == '-' as nat && Symbol(a, 63) == '_' as nat
  {
  }

  // Characters for values of six bits.
  predicate Stands(a: Alphabet, text: seq<Byte>, vs: seq<nat>) {
    |text| == |vs| && forall i :: 0 <= i < |vs| ==> vs[i] < 64 && text[i] == Symbol(a, vs[i])
  }

  function Number(digits: seq<nat>, base: nat): nat {
    if digits == [] then 0 else Number(digits[..|digits| - 1], base) * base + digits[|digits| - 1]
  }

  lemma {:induction false} ShortNumbers(base: nat, a: nat, b: nat, c: nat, d: nat)
    ensures Number([a], base) == a && Number([a, b], base) == a * base + b
    ensures Number([a, b, c], base) == (a * base + b) * base + c
    ensures Number([a, b, c, d], base) == ((a * base + b) * base + c) * base + d
  {
    assert [a][..0] == [] && [a, b][..1] == [a] && [a, b, c][..2] == [a, b] && [a, b, c, d][..3] == [a, b, c];
  }

  lemma {:induction false} TwoBits(x: nat, y: nat)
    ensures (x / 4 * 64 + (x % 4 * 16 + y / 16)) * 64 + y % 16 * 4 == (x * 256 + y) * 4
    ensures x / 4 * 64 + x % 4 * 16 == x * 16
  {
  }

  lemma {:induction false} ThreeBits(x: nat, y: nat, z: nat)
    ensures ((x / 4 * 64 + (x % 4 * 16 + y / 16)) * 64 + (y % 16 * 4 + z / 64)) * 64 + z % 64 == (x * 256 + y) * 256 + z
  {
    TwoBits(x, y);
  }

  // The characters for up to three bytes.
  function Sixes(s: seq<Byte>): (vs: seq<nat>)
    requires 1 <= |s| <= 3
    ensures |vs| == |s| + 1 && forall i :: 0 <= i < |vs| ==> vs[i] < 64
  {
    if |s| == 1 then [s[0] / 4, s[0] % 4 * 16]
    else if |s| == 2 then [s[0] / 4, s[0] % 4 * 16 + s[1] / 16, s[1] % 16 * 4]
    else [s[0] / 4, s[0] % 4 * 16 + s[1] / 16, s[1] % 16 * 4 + s[2] / 64, s[2] % 64]
  }

  lemma {:induction false} SixesNumber(s: seq<Byte>)
    requires 1 <= |s| <= 3
    ensures Number(Sixes(s), 64) == Number(s, 256) * (if |s| == 1 then 16 else if |s| == 2 then 4 else 1)
  {
    hide Number;
    var vs := Sixes(s);
    if |s| == 1 {
      TwoBits(s[0], 0);
      ShortNumbers(64, vs[0], vs[1], 0, 0);
      ShortNumbers(256, s[0], 0, 0, 0);
      assert s == [s[0]];
    } else if |s| == 2 {
      TwoBits(s[0], s[1]);
      ShortNumbers(64, vs[0], vs[1], vs[2], 0);
      ShortNumbers(256, s[0], s[1], 0, 0);
      assert s == [s[0], s[1]];
    } else {
      ThreeBits(s[0], s[1], s[2]);
      ShortNumbers(64, vs[0], vs[1], vs[2], vs[3]);
      ShortNumbers(256, s[0], s[1], s[2], 0);
      assert s == [s[0], s[1], s[2]];
    }
  }

  // Up to three bytes and the characters for them are one number in two notations, the last bits filled up
  // with zeros and the group with padding.
  lemma {:induction false} GroupBits(s: seq<Byte>, a: Alphabet) returns (vs: seq<nat>)
    requires 1 <= |s| <= 3
    ensures |vs| == |s| + 1 && |Encoded(s, a)| == 4 && Stands(a, Encoded(s, a)[..|vs|], vs)
    ensures Number(vs, 64) == Number(s, 256) * (if |s| == 1 then 16 else if |s| == 2 then 4 else 1)
    ensures forall i :: |vs| <= i < 4 ==> Encoded(s, a)[i] == '=' as nat
  {
    vs := Sixes(s);
    SixesNumber(s);
    hide Symbol, Number;
    EncodedCases(s, a);
    if |s| == 3 { assert s[3..] == [] && Encoded([], a) == []; }
  }

  // A longer text is written three bytes at a time.
  lemma {:induction false} GroupsOfThree(s: seq<Byte>, a: Alphabet)
    requires |s| > 3
    ensures Encoded(s, a) == Encoded(s[..3], a) + Encoded(s[3..], a)
  {
    hide Symbol;
    EncodedCases(s, a);
    EncodedCases(s[..3], a);
    assert s[..3][3..] == [] && Encoded([], a) == [];
  }
}
