/** What base64 decoding gives, bit by bit, also for texts no encoder writes. */
module Base64Bits {
  import opened Basics
  import opened Base64

  // ---------- bits ----------

  function Weight(k: nat): nat
    requires k < 8
  {
    if k == 0 then 1 else if k == 1 then 2 else if k == 2 then 4 else if k == 3 then 8
    else if k == 4 then 16 else if k == 5 then 32 else if k == 6 then 64 else 128
  }

  predicate Bit(v: nat, k: nat)
    requires k < 8
  {
    v / Weight(k) % 2 == 1
  }

  // The low bits of a number, the highest of them first.
  function BitsOf(v: nat, n: nat): (r: seq<bool>)
    requires n <= 8
    ensures |r| == n
  {
    seq(n, i requires 0 <= i < n => Bit(v, n - 1 - i))
  }

  function AllBits(vs: seq<nat>, n: nat): (r: seq<bool>)
    requires n <= 8
    ensures |r| == n * |vs|
  {
    if vs == [] then [] else BitsOf(vs[0], n) + AllBits(vs[1..], n)
  }

  // The bits of a number put together from a high and a low part of `m` bits.
  lemma {:induction false} HighBit(high: nat, low: nat, m: nat, k: nat)
    requires m in {2, 4, 6} && m <= k < 8 && low < Weight(m)
    ensures Bit(high * Weight(m) + low, k) == Bit(high, k - m)
  {
    var p, w := Weight(m), Weight(k - m);
    assert Weight(k) == p * w;
    Nested(high * p + low, high, p, w);
  }

  lemma {:induction false} Nested(x: nat, high: nat, p: nat, w: nat)
    requires p > 0 && w > 0 && high * p <= x < high * p + p
    ensures p * w > 0 && x / (p * w) == high / w
  {
    var q, r := high / w, high % w;
    assert high == w * q + r;
    Scaled(p, w * q, high);
    Scaled(p, high + 1, w * q + w);
    Products(p, w, q);
    Products(p, 1, high);
    Scaled(p, 1, w);
    Quotient(x, p * w, q);
  }

  lemma {:induction false} Products(p: nat, w: nat, q: nat)
    ensures p * (w * q) == p * w * q && p * (w * q + w) == p * w * q + p * w && p * (q + 1) == p * q + p && p * q == q * p
  {
  }

  lemma {:induction false} Quotient(x: nat, d: nat, q: nat)
    requires d > 0 && d * q <= x < d * q + d
    ensures x / d == q
  {
    var e := x / d;
    assert x == d * e + x % d;
    if e < q { Scaled(d, e + 1, q); }
    if q < e { Scaled(d, q + 1, e); }
  }

  lemma {:induction false} Scaled(d: nat, x: nat, y: nat)
    requires x <= y
    ensures d * x <= d * y
  {
  }

  lemma {:induction false} LowBit(high: nat, low: nat, m: nat, k: nat)
    requires m in {2, 4, 6} && k < m && low < Weight(m)
    ensures Bit(high * Weight(m) + low, k) == Bit(low, k)
  {
    var w := Weight(k);
    var rest := if m == 2 then (if k == 0 then 2 else 1)
                else if m == 4 then (if k == 0 then 8 else if k == 1 then 4 else if k == 2 then 2 else 1)
                else (if k == 0 then 32 else if k == 1 then 16 else if k == 2 then 8 else if k == 3 then 4 else if k == 4 then 2 else 1);
    assert Weight(m) == w * rest * 2;
    Shifted(high, low, w, rest);
  }

  lemma {:induction false} Shifted(high: nat, low: nat, w: nat, rest: nat)
    requires w > 0
    ensures (high * (w * rest * 2) + low) / w % 2 == low / w % 2
  {
    var q, r, y := low / w, low % w, high * rest;
    Exchanged(high, w, rest);
    assert low == w * q + r;
    Added(w, 2 * y, q, r);
    Parity(y, q);
  }

  lemma {:induction false} Exchanged(high: nat, w: nat, rest: nat)
    ensures high * (w * rest * 2) == w * (2 * (high * rest))
  {
    assert high * (w * rest * 2) == high * (w * rest) * 2;
    assert high * (w * rest) == w * (high * rest);
  }

  lemma {:induction false} Parity(y: nat, q: nat)
    ensures (2 * y + q) % 2 == q % 2
  {
  }

  lemma {:induction false} Added(w: nat, z: nat, q: nat, r: nat)
    requires w > 0 && r < w
    ensures (w * z + (w * q + r)) / w == z + q
  {
    assert w * z + w * q == w * (z + q);
    Quotient(w * z + (w * q + r), w, z + q);
  }

  // The two parts of a byte that is joined from the bits kept and the first ones of the next character.
  lemma {:induction false} JoinedParts(last: nat, v: nat, bits: nat)
    requires bits in {2, 4, 6} && last < 64 && v < 64
    ensures Joined(last, v, bits) == last % Weight(bits) * Weight(8 - bits) + v / Weight(bits - 2) && v / Weight(bits - 2) < Weight(8 - bits)
  {
    if bits == 6 {
      SixKept(last);
    } else if bits == 4 {
      FourKept(last);
    } else {
      TwoKept(last);
    }
  }

  lemma {:induction false} SixKept(last: nat)
    requires last < 64
    ensures last * 4 % 256 == last % 64 * 4
  {
  }

  lemma {:induction false} FourKept(last: nat)
    requires last < 64
    ensures last * 16 % 256 == last % 16 * 16
  {
    var q, r := last / 16, last % 16;
    assert last * 16 == q * 256 + r * 16;
  }

  lemma {:induction false} TwoKept(last: nat)
    requires last < 64
    ensures last * 64 % 256 == last % 4 * 64
  {
    var q, r := last / 4, last % 4;
    assert last * 64 == q * 256 + r * 64;
  }

  lemma {:induction false} JoinedBit(last: nat, v: nat, bits: nat, k: nat)
    requires bits in {2, 4, 6} && last < 64 && v < 64 && k < 8
    ensures Bit(Joined(last, v, bits), k) <==> if k >= 8 - bits then Bit(last, k - (8 - bits)) else Bit(v, k + bits - 2)
  {
    JoinedParts(last, v, bits);
    hide Joined;
    var high, low, m := last % Weight(bits), v / Weight(bits - 2), 8 - bits;
    if k >= m {
      HighBit(high, low, m, k);
      KeptBit(last, bits, k - m);
    } else {
      LowBit(high, low, m, k);
      FirstBit(v, bits - 2, k);
    }
  }

  lemma {:induction false} KeptBit(last: nat, bits: nat, k: nat)
    requires bits in {2, 4, 6} && k < bits
    ensures Bit(last % Weight(bits), k) == Bit(last, k)
  {
    var w := Weight(bits);
    assert last == last / w * w + last % w;
    LowBit(last / w, last % w, bits, k);
  }

  lemma {:induction false} FirstBit(v: nat, n: nat, k: nat)
    requires n in {0, 2, 4} && n + k < 8
    ensures Bit(v / Weight(n), k) == Bit(v, k + n)
  {
    if n > 0 && k + n >= n {
      var w := Weight(n);
      assert v == v / w * w + v % w;
      if n == 2 { HighBit(v / 4, v % 4, 2, k + 2); } else { HighBit(v / 16, v % 16, 4, k + 4); }
    }
  }

  lemma {:induction false} JoinedBits(last: nat, v: nat, bits: nat)
    requires bits in {2, 4, 6} && last < 64 && v < 64
    ensures BitsOf(last, bits) + BitsOf(v, 6) == BitsOf(Joined(last, v, bits), 8) + BitsOf(v, bits - 2)
  {
    hide Bit, Joined;
    var a, b := BitsOf(last, bits) + BitsOf(v, 6), BitsOf(Joined(last, v, bits), 8) + BitsOf(v, bits - 2);
    forall i | 0 <= i < bits + 6 ensures a[i] == b[i] {
      if i < 8 { JoinedBit(last, v, bits, 7 - i); }
    }
  }

  // ---------- decoding ----------

  function Symbols(a: Alphabet, vs: seq<nat>): seq<Byte>
    requires forall i :: 0 <= i < |vs| ==> vs[i] < 64
  {
    if vs == [] then [] else [Symbol(a, vs[0])] + Symbols(a, vs[1..])
  }

  // The bytes are the bits of `all`, eight at a time; fewer than eight may be left over.
  ghost predicate Packs(out: seq<Byte>, all: seq<bool>) {
    8 * |out| <= |all| < 8 * |out| + 8 && AllBits(out, 8) == all[..8 * |out|]
  }

  lemma {:induction false} PackOne(b: Byte, out: seq<Byte>, all: seq<bool>)
    requires Packs(out, all)
    ensures Packs([b] + out, BitsOf(b, 8) + all)
  {
    hide BitsOf;
    var bits := BitsOf(b, 8);
    assert ([b] + out)[1..] == out;
    assert AllBits([b] + out, 8) == bits + AllBits(out, 8);
    assert (bits + all)[..8 * |out| + 8] == bits + all[..8 * |out|];
  }

  // With some bits kept from the character before.
  lemma {:induction false} DecodedPacks(vs: seq<nat>, pads: seq<Byte>, a: Alphabet, b: Alphabet, behavior: Behavior, bits: nat, last: nat)
    requires (forall i :: 0 <= i < |vs| ==> vs[i] < 64) && AllPad(pads) && Fits(a, b) && bits in {0, 2, 4, 6} && last < 64
    ensures var r := Decoded(Symbols(a, vs) + pads, b, behavior, bits, last);
            r.1 && Packs(r.0, BitsOf(last, bits) + AllBits(vs, 6))
    decreases |vs|
  {
    hide Symbol, Joined, BitsOf, Packs, Fits, AllPad, Decoded;
    if vs == [] {
      assert [] + pads == pads;
      ReadPad(pads, b, behavior, bits, last);
      NothingPacked(BitsOf(last, bits));
      assert BitsOf(last, bits) + [] == BitsOf(last, bits);
    } else {
      var v, rest := vs[0], vs[1..];
      var text := Symbols(a, rest) + pads;
      assert Symbols(a, vs) + pads == [Symbol(a, v)] + text;
      var c := ReadSymbol(a, b, v, text, behavior, bits, last);
      if bits >= 2 {
        DecodedPacks(rest, pads, a, c, behavior, bits - 2, v);
        JoinedBits(last, v, bits);
        PackOne(Joined(last, v, bits), Decoded(text, c, behavior, bits - 2, v).0, BitsOf(v, bits - 2) + AllBits(rest, 6));
        Regrouped(BitsOf(last, bits), BitsOf(v, 6), AllBits(rest, 6), BitsOf(Joined(last, v, bits), 8), BitsOf(v, bits - 2));
      } else {
        DecodedPacks(rest, pads, a, c, behavior, bits + 6, v);
        NoBits(last);
        assert [] + AllBits(vs, 6) == AllBits(vs, 6);
      }
    }
  }

  lemma {:induction false} NothingPacked(all: seq<bool>)
    requires |all| < 8
    ensures Packs([], all)
  {
  }

  lemma {:induction false} NoBits(v: nat)
    ensures BitsOf(v, 0) == []
  {
  }

  lemma {:induction false} Regrouped(a: seq<bool>, b: seq<bool>, c: seq<bool>, d: seq<bool>, e: seq<bool>)
    requires a + b == d + e
    ensures a + (b + c) == d + (e + c)
  {
    assert a + (b + c) == (a + b) + c;
    assert d + (e + c) == (d + e) + c;
  }

  // Main result: any characters of the alphabet, with padding or without, are decoded to the bytes their
  // bits make up, and the bits left over, whatever they are, are dropped.
  lemma {:induction false} DecodedBits(vs: seq<nat>, pads: seq<Byte>, a: Alphabet, b: Alphabet, behavior: Behavior)
    requires (forall i :: 0 <= i < |vs| ==> vs[i] < 64) && AllPad(pads) && Fits(a, b)
    ensures var r := Decoded(Symbols(a, vs) + pads, b, behavior, 0, 0); r.1 && Packs(r.0, AllBits(vs, 6))
  {
    hide Symbols, Packs, Fits, AllPad, Decoded, AllBits;
    DecodedPacks(vs, pads, a, b, behavior, 0, 0);
    NoBits(0);
    assert [] + AllBits(vs, 6) == AllBits(vs, 6);
  }
}
