/** Low-rank tensors (`LoraTorchTensor`): shape operations are done on the two factors, and must
    agree with the same operation on the product B.A. */
module Lora {
  import opened Basics

  // `at` is only meaningful on the indices of `shape`.
  datatype Tensor = Tensor(shape: seq<nat>, at: seq<nat> -> real)

  predicate InShape(idx: seq<nat>, shape: seq<nat>) {
    |idx| == |shape| && forall k :: 0 <= k < |idx| ==> idx[k] < shape[k]
  }

  ghost predicate Same(t: Tensor, u: Tensor) {
    t.shape == u.shape && forall idx :: InShape(idx, t.shape) ==> t.at(idx) == u.at(idx)
  }

  ghost function Sum(f: nat -> real, n: nat): real {
    if n == 0 then 0.0 else Sum(f, n - 1) + f(n - 1)
  }

  lemma {:induction false} SumEqual(f: nat -> real, g: nat -> real, n: nat)
    requires forall k: nat :: k < n ==> f(k) == g(k)
    ensures Sum(f, n) == Sum(g, n)
    decreases n
  {
    if n > 0 { SumEqual(f, g, n - 1); }
  }

  // ---------- the pair of factors ----------

  datatype Lora = Lora(A: Tensor, B: Tensor)

  // What the constructor asserts.
  predicate Constructed(l: Lora) {
    var n := |l.A.shape|;
    n == |l.B.shape| && n >= 2 && l.A.shape[n - 2] == l.B.shape[n - 1]
  }

  // The batch axes of A broadcast to those of B, which are the ones `shape` reports.
  predicate Valid(l: Lora) {
    Constructed(l)
    && forall k :: 0 <= k < |l.A.shape| - 2 ==> l.A.shape[k] == 1 || l.A.shape[k] == l.B.shape[k]
  }

  function Rank(l: Lora): nat
    requires Constructed(l)
  {
    l.B.shape[|l.B.shape| - 1]
  }

  function Shape(l: Lora): seq<nat>
    requires Constructed(l)
  {
    l.B.shape[..|l.B.shape| - 1] + [l.A.shape[|l.A.shape| - 1]]
  }

  function Broadcast(batch: seq<nat>, shape: seq<nat>): (r: seq<nat>)
    requires |batch| <= |shape|
    ensures |r| == |batch|
  {
    if batch == [] then []
    else [if shape[0] == 1 then 0 else batch[0]] + Broadcast(batch[1..], shape[1..])
  }

  // One summand of the product's entry at `p + [j]`.
  function Term(l: Lora, p: seq<nat>, j: nat, r: nat): real
    requires Constructed(l) && |p| == |l.B.shape| - 1
  {
    l.B.at(p + [r]) * l.A.at(Broadcast(p[..|p| - 1], l.A.shape) + [r, j])
  }

  ghost function Entry(l: Lora, p: seq<nat>, j: nat): real
    requires Constructed(l) && |p| == |l.B.shape| - 1
  {
    Sum((r: nat) => Term(l, p, j, r), Rank(l))
  }

  ghost function Product(l: Lora): Tensor
    requires Constructed(l)
  {
    Tensor(Shape(l), idx => if |idx| == |l.B.shape| then Entry(l, idx[..|idx| - 1], idx[|idx| - 1]) else 0.0)
  }

  // Two products have equal entries when their summands are equal, one by one.
  lemma {:induction false} EntryEqual(l: Lora, p: seq<nat>, m: Lora, q: seq<nat>, j: nat, j': nat)
    requires Constructed(l) && |p| == |l.B.shape| - 1 && Constructed(m) && |q| == |m.B.shape| - 1
    requires Rank(l) == Rank(m)
    requires forall r: nat :: r < Rank(l) ==> Term(l, p, j, r) == Term(m, q, j', r)
    ensures Entry(l, p, j) == Entry(m, q, j')
  {
    SumEqual((r: nat) => Term(l, p, j, r), (r: nat) => Term(m, q, j', r), Rank(l));
  }

  // ---------- basic indexing ----------

  datatype Index = At(i: int) | Slice(start: Option<int>, stop: Option<int>, step: nat)

  const FULL := Slice(None, None, 1)

  function ClampIndex(i: int, dim: nat): nat {
    var j := if i < 0 then i + dim else i;
    if j < 0 then 0 else if j > dim then dim else j
  }

  function SliceStart(s: Index, dim: nat): nat
    requires s.Slice?
  {
    if s.start.None? then 0 else ClampIndex(s.start.value, dim)
  }

  function SliceStop(s: Index, dim: nat): nat
    requires s.Slice?
  {
    if s.stop.None? then dim else ClampIndex(s.stop.value, dim)
  }

  function CeilDiv(a: nat, b: nat): nat
    requires b >= 1
  {
    (a + b - 1) / b
  }

  function SliceCount(s: Index, dim: nat): nat
    requires s.Slice? && s.step >= 1
  {
    var lo, hi := SliceStart(s, dim), SliceStop(s, dim);
    if lo < hi then CeilDiv(hi - lo, s.step) else 0
  }

  // A slice that keeps every position of an axis.
  predicate KeepsAll(s: Index, dim: nat)
    requires s.Slice? && s.step >= 1
  {
    SliceCount(s, dim) == dim
  }

  predicate IndexOk(x: Index, dim: nat) {
    match x
    case At(i) => 0 <= i + dim && i < dim
    case Slice(_, _, step) => step >= 1
  }

  predicate IndicesOk(ix: seq<Index>, shape: seq<nat>) {
    |ix| == |shape| && forall k :: 0 <= k < |ix| ==> IndexOk(ix[k], shape[k])
  }

  function Normal(i: int, dim: nat): nat
    requires 0 <= i + dim && i < dim
  {
    if i < 0 then i + dim else i
  }

  function IndexedShape(ix: seq<Index>, shape: seq<nat>): seq<nat>
    requires IndicesOk(ix, shape)
  {
    if ix == [] then []
    else (if ix[0].At? then [] else [SliceCount(ix[0], shape[0])]) + IndexedShape(ix[1..], shape[1..])
  }

  // The position in the indexed tensor that `idx` of the result comes from.
  function Source(ix: seq<Index>, shape: seq<nat>, idx: seq<nat>): (src: seq<nat>)
    requires IndicesOk(ix, shape)
    ensures |src| == |ix|
  {
    if ix == [] then []
    else if ix[0].At? then [Normal(ix[0].i, shape[0])] + Source(ix[1..], shape[1..], idx)
    else if idx == [] then [0] + Source(ix[1..], shape[1..], idx)
    else [Pick(ix[0], shape[0], idx[0])] + Source(ix[1..], shape[1..], idx[1..])
  }

  // The position of the i-th element a slice keeps.
  function Pick(s: Index, dim: nat, i: nat): nat
    requires s.Slice?
  {
    SliceStart(s, dim) + s.step * i
  }

  function IndexTensor(t: Tensor, ix: seq<Index>): Tensor
    requires IndicesOk(ix, t.shape)
  {
    Tensor(IndexedShape(ix, t.shape), idx => t.at(Source(ix, t.shape, idx)))
  }

  // ---------- __getitem__ with one index per axis ----------

  // Python's modulo, for the batch positions of A.
  function PyMod(i: int, d: nat): nat
    requires d >= 1
  {
    i % d
  }

  function IndexA(x: Index, dim: nat): Index {
    if x.At? && dim >= 1 then At(PyMod(x.i, dim)) else FULL
  }

  function IndicesA(ix: seq<Index>, shapeA: seq<nat>): seq<Index>
    requires |ix| == |shapeA| >= 2
  {
    BatchIndicesA(ix[..|ix| - 2], shapeA) + [FULL, ix[|ix| - 1]]
  }

  function BatchIndicesA(bx: seq<Index>, shapeA: seq<nat>): (r: seq<Index>)
    requires |bx| <= |shapeA|
    ensures |r| == |bx| && forall k :: 0 <= k < |bx| ==> r[k] == IndexA(bx[k], shapeA[k])
  {
    if bx == [] then [] else [IndexA(bx[0], shapeA[0])] + BatchIndicesA(bx[1..], shapeA[1..])
  }

  function IndicesB(ix: seq<Index>): seq<Index>
    requires |ix| >= 2
  {
    ix[..|ix| - 1] + [FULL]
  }

  // The indices torch accepts on the product: in range, and slices on the last two axes (an integer
  // there would leave a vector, which the constructor's assertions do not admit).
  predicate TupleOk(l: Lora, ix: seq<Index>)
    requires Constructed(l)
  {
    IndicesOk(ix, Shape(l)) && |ix| >= 2 && ix[|ix| - 2].Slice? && ix[|ix| - 1].Slice?
  }

  // Every batch axis that is cut is one on which A broadcasts.
  predicate CutsBroadcastAxesOnly(l: Lora, ix: seq<Index>)
    requires Constructed(l) && TupleOk(l, ix)
  {
    forall k :: 0 <= k < |ix| - 2 && ix[k].Slice? ==> l.A.shape[k] == 1 || KeepsAll(ix[k], l.A.shape[k])
  }

  lemma {:induction false} IndicesAOk(l: Lora, ix: seq<Index>)
    requires Valid(l) && TupleOk(l, ix)
    ensures IndicesOk(IndicesA(ix, l.A.shape), l.A.shape) && IndicesOk(IndicesB(ix), l.B.shape)
  {
    var n := |ix|;
    var ia, ib := IndicesA(ix, l.A.shape), IndicesB(ix);
    forall k | 0 <= k < n ensures IndexOk(ia[k], l.A.shape[k]) && IndexOk(ib[k], l.B.shape[k]) {
      if k < n - 1 { assert IndexOk(ix[k], Shape(l)[k]) && Shape(l)[k] == l.B.shape[k]; }
      if k == n - 1 { assert IndexOk(ix[k], Shape(l)[k]); }
    }
  }

  function GetItem(l: Lora, ix: seq<Index>): Lora
    requires Valid(l) && TupleOk(l, ix)
  {
    IndicesAOk(l, ix);
    Lora(IndexTensor(l.A, IndicesA(ix, l.A.shape)), IndexTensor(l.B, IndicesB(ix)))
  }

  lemma {:induction false} ConcatIndexed(a: seq<Index>, sa: seq<nat>, b: seq<Index>, sb: seq<nat>)
    requires IndicesOk(a, sa) && IndicesOk(b, sb)
    ensures IndicesOk(a + b, sa + sb)
    ensures IndexedShape(a + b, sa + sb) == IndexedShape(a, sa) + IndexedShape(b, sb)
  {
    hide SliceCount;
    if a == [] {
      assert a + b == b && sa + sb == sb;
    } else {
      assert (a + b)[1..] == a[1..] + b && (sa + sb)[1..] == sa[1..] + sb;
      ConcatIndexed(a[1..], sa[1..], b, sb);
    }
  }

  lemma {:induction false} ConcatSource(a: seq<Index>, sa: seq<nat>, ia: seq<nat>, b: seq<Index>, sb: seq<nat>, ib: seq<nat>)
    requires IndicesOk(a, sa) && IndicesOk(b, sb) && |ia| == |IndexedShape(a, sa)|
    ensures IndicesOk(a + b, sa + sb)
    ensures Source(a + b, sa + sb, ia + ib) == Source(a, sa, ia) + Source(b, sb, ib)
  {
    hide Pick, SliceCount, Normal, Source;
    if a == [] {
      assert a + b == b && sa + sb == sb && ia + ib == ib;
      SourceNothing(ia);
    } else {
      assert (a + b)[1..] == a[1..] + b && (sa + sb)[1..] == sa[1..] + sb;
      SourceStep(a, sa, ia);
      if a[0].At? {
        ConcatSource(a[1..], sa[1..], ia, b, sb, ib);
      } else {
        assert (ia + ib)[1..] == ia[1..] + ib && ia != [];
        ConcatSource(a[1..], sa[1..], ia[1..], b, sb, ib);
      }
      SourceStep(a + b, sa + sb, ia + ib);
    }
  }

  lemma {:induction false} SourceNothing(idx: seq<nat>)
    ensures Source([], [], idx) == []
  {
  }

  lemma {:induction false} SourceStep(ix: seq<Index>, shape: seq<nat>, idx: seq<nat>)
    requires IndicesOk(ix, shape) && ix != []
    ensures Source(ix, shape, idx) ==
            if ix[0].At? then [Normal(ix[0].i, shape[0])] + Source(ix[1..], shape[1..], idx)
            else if idx == [] then [0] + Source(ix[1..], shape[1..], idx)
            else [Pick(ix[0], shape[0], idx[0])] + Source(ix[1..], shape[1..], idx[1..])
  {
    hide Pick, Normal;
  }

  lemma {:induction false} MulMonotone(b: nat, x: int, y: int)
    requires x <= y
    ensures b * x <= b * y
  {
  }

  lemma {:induction false} CeilDivSmaller(a: nat, b: nat, d: nat)
    requires b >= 2 && a <= d && d >= 2
    ensures CeilDiv(a, b) < d
  {
    var q := (a + b - 1) / b;
    assert b * q <= a + b - 1;
    MulMonotone(d - 1, 1, b - 1);
    assert b * d == (d - 1) * (b - 1) + b + d - 1;
    if q >= d { MulMonotone(b, d, q); }
  }

  // Keeping all positions of an axis longer than one means starting at 0 with step 1.
  lemma {:induction false} KeepsAllIsIdentity(s: Index, dim: nat)
    requires s.Slice? && s.step >= 1 && KeepsAll(s, dim) && dim >= 2
    ensures SliceStart(s, dim) == 0 && s.step == 1
  {
    var lo, hi := SliceStart(s, dim), SliceStop(s, dim);
    if s.step >= 2 {
      CeilDivSmaller(hi - lo, s.step, dim);
    } else {
      assert CeilDiv(hi - lo, 1) == hi - lo;
    }
  }

  lemma {:induction false} FullKeepsAll(dim: nat)
    ensures SliceCount(FULL, dim) == dim && SliceStart(FULL, dim) == 0
  {
    if dim > 0 { assert CeilDiv(dim, 1) == dim; }
  }

  ghost predicate BatchBroadcasts(sa: seq<nat>, sb: seq<nat>) {
    |sa| == |sb| && forall k :: 0 <= k < |sa| ==> sa[k] == 1 || sa[k] == sb[k]
  }

  predicate CutsOk(bx: seq<Index>, sa: seq<nat>)
    requires |bx| == |sa| && forall k :: 0 <= k < |bx| ==> bx[k].Slice? ==> bx[k].step >= 1
  {
    forall k :: 0 <= k < |bx| && bx[k].Slice? ==> sa[k] == 1 || KeepsAll(bx[k], sa[k])
  }

  lemma {:induction false} BatchIndexed(bx: seq<Index>, sa: seq<nat>, sb: seq<nat>)
    requires IndicesOk(bx, sb) && BatchBroadcasts(sa, sb)
    ensures IndicesOk(BatchIndicesA(bx, sa), sa)
    ensures BatchBroadcasts(IndexedShape(BatchIndicesA(bx, sa), sa), IndexedShape(bx, sb)) <==> CutsOk(bx, sa)
    ensures |IndexedShape(BatchIndicesA(bx, sa), sa)| == |IndexedShape(bx, sb)|
  {
    if bx != [] {
      BatchIndexed(bx[1..], sa[1..], sb[1..]);
      FullKeepsAll(sa[0]);
      CutsCons(bx, sa);
      var a, b := IndexedShape(BatchIndicesA(bx, sa), sa), IndexedShape(bx, sb);
      assert BatchIndicesA(bx, sa)[1..] == BatchIndicesA(bx[1..], sa[1..]);
      var a', b' := IndexedShape(BatchIndicesA(bx[1..], sa[1..]), sa[1..]), IndexedShape(bx[1..], sb[1..]);
      if bx[0].Slice? {
        assert a == [sa[0]] + a' && b == [SliceCount(bx[0], sb[0])] + b';
        BroadcastsCons(sa[0], a', SliceCount(bx[0], sb[0]), b');
      } else {
        assert a == a' && b == b';
      }
      hide BatchBroadcasts, CutsOk;
    }
  }

  lemma {:induction false} BroadcastsCons(x: nat, a: seq<nat>, y: nat, b: seq<nat>)
    requires |a| == |b|
    ensures BatchBroadcasts([x] + a, [y] + b) <==> (x == 1 || x == y) && BatchBroadcasts(a, b)
  {
    var c, d := [x] + a, [y] + b;
    assert c[0] == x && d[0] == y;
    if BatchBroadcasts(c, d) {
      assert forall k :: 0 <= k < |a| ==> a[k] == c[k + 1] && b[k] == d[k + 1];
    } else if BatchBroadcasts(a, b) {
      assert forall k :: 1 <= k < |c| ==> a[k - 1] == c[k] && b[k - 1] == d[k];
    }
  }

  lemma {:induction false} CutsCons(bx: seq<Index>, sa: seq<nat>)
    requires bx != [] && |bx| == |sa| && forall k :: 0 <= k < |bx| ==> bx[k].Slice? ==> bx[k].step >= 1
    ensures CutsOk(bx, sa) <==> (bx[0].Slice? ==> sa[0] == 1 || KeepsAll(bx[0], sa[0])) && CutsOk(bx[1..], sa[1..])
  {
    assert forall k :: 0 <= k < |bx[1..]| ==> bx[1..][k] == bx[k + 1] && sa[1..][k] == sa[k + 1];
    if CutsOk(bx[1..], sa[1..]) {
      assert forall k :: 1 <= k < |bx| ==> bx[k] == bx[1..][k - 1] && sa[k] == sa[1..][k - 1];
    }
  }

  lemma {:induction false} SourceAt(x: Index, da: nat, db: nat)
    requires x.At? && IndexOk(x, db) && (da == 1 || da == db)
    ensures IndexA(x, da).At? && IndexOk(IndexA(x, da), da)
    ensures Normal(IndexA(x, da).i, da) == if da == 1 then 0 else Normal(x.i, db)
  {
    ModIsNormal(x.i, db);
  }

  lemma {:induction false} SourceSlice(x: Index, da: nat, db: nat, i: nat)
    requires x.Slice? && IndexOk(x, db) && (da == 1 || da == db) && (da == 1 || KeepsAll(x, da)) && i < SliceCount(x, db)
    ensures IndexA(x, da) == FULL && SliceCount(FULL, da) == da && SliceStart(FULL, da) == 0
    ensures Pick(FULL, da, i) == i && (da != 1 ==> Pick(x, db, i) == i)
  {
    FullKeepsAll(da);
    if da != 1 { KeepsAllIsIdentity(x, da); }
  }

  lemma {:induction false} FullPicks(dim: nat, i: nat)
    ensures Pick(FULL, dim, i) == i
  {
  }

  lemma {:induction false} BatchSource(bx: seq<Index>, sa: seq<nat>, sb: seq<nat>, p: seq<nat>)
    requires IndicesOk(bx, sb) && BatchBroadcasts(sa, sb) && CutsOk(bx, sa) && InShape(p, IndexedShape(bx, sb))
    requires IndicesOk(BatchIndicesA(bx, sa), sa) && |IndexedShape(BatchIndicesA(bx, sa), sa)| == |p|
    ensures Source(BatchIndicesA(bx, sa), sa, Broadcast(p, IndexedShape(BatchIndicesA(bx, sa), sa)))
            == Broadcast(Source(bx, sb, p), sa)
  {
    if bx != [] {
      var bx', sa', sb' := bx[1..], sa[1..], sb[1..];
      assert BatchBroadcasts(sa', sb') && CutsOk(bx', sa') && IndicesOk(bx', sb');
      BatchIndexed(bx', sa', sb');
      var ia, ia' := BatchIndicesA(bx, sa), BatchIndicesA(bx', sa');
      assert ia == [IndexA(bx[0], sa[0])] + ia' && ia[1..] == ia';
      var shape := IndexedShape(ia, sa);
      if bx[0].At? {
        SourceAt(bx[0], sa[0], sb[0]);
        assert shape == IndexedShape(ia', sa');
        BatchSource(bx', sa', sb', p);
      } else {
        var ib := IndexedShape(bx, sb);
        assert ib[1..] == IndexedShape(bx', sb');
        assert InShape(p[1..], ib[1..]);
        SourceSlice(bx[0], sa[0], sb[0], p[0]);
        assert shape == [sa[0]] + IndexedShape(ia', sa') && shape[1..] == IndexedShape(ia', sa');
        BatchSource(bx', sa', sb', p[1..]);
        var q := Broadcast(p, shape);
        assert q == [if sa[0] == 1 then 0 else p[0]] + Broadcast(p[1..], shape[1..]);
        assert q[1..] == Broadcast(p[1..], shape[1..]);
        SourceSlice(bx[0], sa[0], sb[0], p[0]);
        FullPicks(sa[0], q[0]);
        assert Source(ia, sa, q) == [q[0]] + Source(ia', sa', q[1..]);
      }
    }
  }

  lemma {:induction false} ModIsNormal(i: int, dim: nat)
    requires 0 <= i + dim && i < dim
    ensures PyMod(i, dim) == Normal(i, dim) && PyMod(i, 1) == 0
  {
    var q, m := i / dim, i % dim;
    assert i == dim * q + m;
    if q >= 1 { MulMonotone(dim, 1, q); }
    if q <= -2 { MulMonotone(dim, q, -2); }
    assert q == 0 || q == -1;
  }

  // One more axis at the end, kept whole or sliced.
  lemma {:induction false} LastAxis(ix: seq<Index>, shape: seq<nat>, idx: seq<nat>, x: Index, dim: nat, i: nat)
    requires IndicesOk(ix, shape) && x.Slice? && IndexOk(x, dim) && |idx| == |IndexedShape(ix, shape)|
    ensures IndicesOk(ix + [x], shape + [dim])
    ensures IndexedShape(ix + [x], shape + [dim]) == IndexedShape(ix, shape) + [SliceCount(x, dim)]
    ensures Source(ix + [x], shape + [dim], idx + [i]) == Source(ix, shape, idx) + [Pick(x, dim, i)]
  {
    ConcatIndexed(ix, shape, [x], [dim]);
    ConcatSource(ix, shape, idx, [x], [dim], [i]);
    assert IndexedShape([x], [dim]) == [SliceCount(x, dim)];
    assert [i][1..] == [] && [x][1..] == [] && [dim][1..] == [];
    assert Source([x], [dim], [i]) == [Pick(x, dim, i)];
  }

  lemma {:induction false} LastAxisShape(ix: seq<Index>, shape: seq<nat>, x: Index, dim: nat)
    requires IndicesOk(ix, shape) && x.Slice? && IndexOk(x, dim)
    ensures IndicesOk(ix + [x], shape + [dim])
    ensures IndexedShape(ix + [x], shape + [dim]) == IndexedShape(ix, shape) + [SliceCount(x, dim)]
  {
    ConcatIndexed(ix, shape, [x], [dim]);
    assert IndexedShape([x], [dim]) == [SliceCount(x, dim)];
  }

  // The shapes of the two sliced factors, axis by axis.
  lemma {:induction false} GetItemShapes(l: Lora, ix: seq<Index>)
    requires Valid(l) && TupleOk(l, ix)
    ensures var n := |ix|; var bx := ix[..n - 2]; var sa, sb := l.A.shape[..n - 2], l.B.shape[..n - 2];
            IndicesOk(bx, sb) && BatchBroadcasts(sa, sb) && IndicesOk(BatchIndicesA(bx, sa), sa)
            && GetItem(l, ix).A.shape
               == IndexedShape(BatchIndicesA(bx, sa), sa) + [Rank(l), SliceCount(ix[n - 1], l.A.shape[n - 1])]
            && GetItem(l, ix).B.shape
               == IndexedShape(bx, sb) + [SliceCount(ix[n - 2], l.B.shape[n - 2]), Rank(l)]
  {
    var n := |ix|;
    var bx := ix[..n - 2];
    var sa, sb := l.A.shape[..n - 2], l.B.shape[..n - 2];
    SplitAxes(l, ix);
    BatchIndexed(bx, sa, sb);
    FullKeepsAll(Rank(l));
    IndicesAOk(l, ix);
    hide IndexedShape, IndicesOk, BatchIndicesA, IndicesA, IndicesB, SliceCount, BatchBroadcasts, IndexOk, Valid, TupleOk;
    LastAxesShape(BatchIndicesA(bx, sa), sa, FULL, Rank(l), ix[n - 1], l.A.shape[n - 1]);
    LastAxesShape(bx, sb, ix[n - 2], l.B.shape[n - 2], FULL, Rank(l));
  }

  lemma {:induction false} LastAxesShape(ix: seq<Index>, shape: seq<nat>, x: Index, d: nat, y: Index, e: nat)
    requires IndicesOk(ix, shape) && x.Slice? && IndexOk(x, d) && y.Slice? && IndexOk(y, e)
    ensures IndicesOk(ix + [x] + [y], shape + [d] + [e])
    ensures IndexedShape(ix + [x] + [y], shape + [d] + [e]) == IndexedShape(ix, shape) + [SliceCount(x, d), SliceCount(y, e)]
  {
    hide IndexedShape, SliceCount;
    LastAxisShape(ix, shape, x, d);
    LastAxisShape(ix + [x], shape + [d], y, e);
  }

  lemma {:induction false} SplitAxes(l: Lora, ix: seq<Index>)
    requires Valid(l) && TupleOk(l, ix)
    ensures var n := |ix|; var bx := ix[..n - 2]; var sa, sb := l.A.shape[..n - 2], l.B.shape[..n - 2];
            IndicesOk(bx, sb) && BatchBroadcasts(sa, sb)
            && IndexOk(ix[n - 2], l.B.shape[n - 2]) && IndexOk(ix[n - 1], l.A.shape[n - 1])
            && l.A.shape == sa + [Rank(l)] + [l.A.shape[n - 1]]
            && l.B.shape == sb + [l.B.shape[n - 2]] + [Rank(l)]
            && Shape(l) == sb + [l.B.shape[n - 2]] + [l.A.shape[n - 1]]
            && IndicesA(ix, l.A.shape) == BatchIndicesA(bx, sa) + [FULL] + [ix[n - 1]]
            && IndicesB(ix) == bx + [ix[n - 2]] + [FULL]
            && ix == bx + [ix[n - 2]] + [ix[n - 1]]
  {
    hide BatchIndicesA, IndexA;
    var n := |ix|;
    var bx := ix[..n - 2];
    var sa, sb := l.A.shape[..n - 2], l.B.shape[..n - 2];
    SplitShapes(l);
    LastTwo(ix);
    assert ix[..n - 1] == bx + [ix[n - 2]];
    assert forall k :: 0 <= k < n ==> IndexOk(ix[k], Shape(l)[k]);
    BatchPrefix(bx, l.A.shape, sa);
    assert BatchIndicesA(bx, sa) + [FULL, ix[n - 1]] == BatchIndicesA(bx, sa) + [FULL] + [ix[n - 1]];
  }

  lemma {:induction false} SplitShapes(l: Lora)
    requires Valid(l)
    ensures var n := |l.A.shape|; var sa, sb := l.A.shape[..n - 2], l.B.shape[..n - 2];
            BatchBroadcasts(sa, sb)
            && l.A.shape == sa + [Rank(l)] + [l.A.shape[n - 1]]
            && l.B.shape == sb + [l.B.shape[n - 2]] + [Rank(l)]
            && Shape(l) == sb + [l.B.shape[n - 2]] + [l.A.shape[n - 1]]
  {
    var n := |l.A.shape|;
    LastTwo(l.A.shape);
    LastTwo(l.B.shape);
    assert l.B.shape[..n - 1] == l.B.shape[..n - 2] + [l.B.shape[n - 2]];
  }

  lemma {:induction false} BatchPrefix(bx: seq<Index>, shape: seq<nat>, prefix: seq<nat>)
    requires |bx| == |prefix| <= |shape| && shape[..|prefix|] == prefix
    ensures BatchIndicesA(bx, shape) == BatchIndicesA(bx, prefix)
  {
    assert forall k :: 0 <= k < |bx| ==> shape[k] == prefix[k];
  }

  lemma {:induction false} LastTwo<T>(s: seq<T>)
    requires |s| >= 2
    ensures s == s[..|s| - 2] + [s[|s| - 2]] + [s[|s| - 1]]
  {
  }

  // The factors stay a well-formed pair exactly when only broadcast axes of A are cut.
  lemma {:induction false} GetItemValidIff(l: Lora, ix: seq<Index>)
    requires Valid(l) && TupleOk(l, ix)
    ensures Constructed(GetItem(l, ix))
    ensures Valid(GetItem(l, ix)) <==> CutsBroadcastAxesOnly(l, ix)
  {
    var n := |ix|;
    var bx := ix[..n - 2];
    var sa, sb := l.A.shape[..n - 2], l.B.shape[..n - 2];
    GetItemShapes(l, ix);
    BatchIndexed(bx, sa, sb);
    var a, b := IndexedShape(BatchIndicesA(bx, sa), sa), IndexedShape(bx, sb);
    var m := GetItem(l, ix);
    assert Valid(m) <==> BatchBroadcasts(a, b) by {
      assert forall k :: 0 <= k < |a| ==> m.A.shape[k] == a[k] && m.B.shape[k] == b[k];
    }
    assert CutsOk(bx, sa) <==> CutsBroadcastAxesOnly(l, ix) by {
      assert forall k :: 0 <= k < n - 2 ==> bx[k] == ix[k] && sa[k] == l.A.shape[k];
    }
  }

  lemma {:induction false} GetItemShape(l: Lora, ix: seq<Index>)
    requires Valid(l) && TupleOk(l, ix)
    ensures Constructed(GetItem(l, ix)) && Shape(GetItem(l, ix)) == IndexedShape(ix, Shape(l))
  {
    hide IndexedShape, IndicesA, IndicesB;
    var n := |ix|;
    var bx := ix[..n - 2];
    var sb := l.B.shape[..n - 2];
    GetItemValidIff(l, ix);
    GetItemShapes(l, ix);
    SplitAxes(l, ix);
    LastAxisShape(bx, sb, ix[n - 2], l.B.shape[n - 2]);
    LastAxisShape(bx + [ix[n - 2]], sb + [l.B.shape[n - 2]], ix[n - 1], l.A.shape[n - 1]);
  }

  // Main result for slicing: it commutes with the product.
  lemma {:induction false} GetItemCommutes(l: Lora, ix: seq<Index>)
    requires Valid(l) && TupleOk(l, ix) && CutsBroadcastAxesOnly(l, ix)
    ensures Constructed(GetItem(l, ix)) && Same(Product(GetItem(l, ix)), IndexTensor(Product(l), ix))
  {
    hide IndexedShape, Source, Entry, GetItem, CutsBroadcastAxesOnly;
    GetItemShape(l, ix);
    forall idx | InShape(idx, Shape(GetItem(l, ix)))
      ensures Product(GetItem(l, ix)).at(idx) == IndexTensor(Product(l), ix).at(idx)
    {
      GetItemEntry(l, ix, idx);
    }
  }

  // Where an entry of the sliced B comes from: batch position `b`, row `i`.
  lemma {:induction false} GetItemB(l: Lora, ix: seq<Index>, b: seq<nat>, i: nat, r: nat)
    requires Valid(l) && TupleOk(l, ix)
    requires IndicesOk(ix[..|ix| - 2], l.B.shape[..|ix| - 2])
    requires |b| == |IndexedShape(ix[..|ix| - 2], l.B.shape[..|ix| - 2])|
    ensures var n := |ix|;
            GetItem(l, ix).B.at(b + [i] + [r])
            == l.B.at(Source(ix[..n - 2], l.B.shape[..n - 2], b) + [Pick(ix[n - 2], l.B.shape[n - 2], i)] + [r])
  {
    hide IndexedShape, Source, Pick, SliceCount;
    var n := |ix|;
    var bx, sb := ix[..n - 2], l.B.shape[..n - 2];
    SplitAxes(l, ix);
    FullPicks(Rank(l), r);
    LastAxis(bx, sb, b, ix[n - 2], l.B.shape[n - 2], i);
    LastAxis(bx + [ix[n - 2]], sb + [l.B.shape[n - 2]], b + [i], FULL, Rank(l), r);
  }

  // Where an entry of the sliced A comes from, at the broadcast batch position.
  lemma {:induction false} GetItemA(l: Lora, ix: seq<Index>, b: seq<nat>, j: nat, r: nat)
    requires Valid(l) && TupleOk(l, ix) && CutsBroadcastAxesOnly(l, ix)
    requires IndicesOk(ix[..|ix| - 2], l.B.shape[..|ix| - 2])
    requires InShape(b, IndexedShape(ix[..|ix| - 2], l.B.shape[..|ix| - 2]))
    requires |b| <= |GetItem(l, ix).A.shape|
    ensures var n := |ix|;
            GetItem(l, ix).A.at(Broadcast(b, GetItem(l, ix).A.shape) + [r, j])
            == l.A.at(Broadcast(Source(ix[..n - 2], l.B.shape[..n - 2], b), l.A.shape)
                      + [r, Pick(ix[n - 1], l.A.shape[n - 1], j)])
  {
    hide IndexedShape, Source, Pick, SliceCount, Broadcast, CutsBroadcastAxesOnly, CutsOk;
    var n := |ix|;
    var bx := ix[..n - 2];
    var sa, sb := l.A.shape[..n - 2], l.B.shape[..n - 2];
    GetItemShapes(l, ix);
    SplitAxes(l, ix);
    BatchIndexed(bx, sa, sb);
    CutsOnPrefix(l, ix);
    BatchSource(bx, sa, sb, b);
    FullPicks(Rank(l), r);
    var ba := BatchIndicesA(bx, sa);
    var ia, src := IndexedShape(ba, sa), Source(bx, sb, b);
    RankThenColumn(ba, sa, Broadcast(b, ia), Rank(l), r, ix[n - 1], l.A.shape[n - 1], j);
    BroadcastPrefix(b, GetItem(l, ix).A.shape, ia);
    BroadcastPrefix(src, l.A.shape, sa);
  }

  lemma {:induction false} RankThenColumn(ba: seq<Index>, sa: seq<nat>, bc: seq<nat>, rank: nat, r: nat, x: Index, dim: nat, j: nat)
    requires IndicesOk(ba, sa) && |bc| == |IndexedShape(ba, sa)| && x.Slice? && IndexOk(x, dim)
    ensures IndicesOk(ba + [FULL] + [x], sa + [rank] + [dim])
    ensures Source(ba + [FULL] + [x], sa + [rank] + [dim], bc + [r, j]) == Source(ba, sa, bc) + [r, Pick(x, dim, j)]
  {
    hide IndexedShape, Source, Pick, SliceCount;
    FullPicks(rank, r);
    LastAxis(ba, sa, bc, FULL, rank, r);
    LastAxis(ba + [FULL], sa + [rank], bc + [r], x, dim, j);
    assert bc + [r] + [j] == bc + [r, j];
    assert Source(ba, sa, bc) + [r] + [Pick(x, dim, j)] == Source(ba, sa, bc) + [r, Pick(x, dim, j)];
  }

  lemma {:induction false} GetItemTerm(l: Lora, ix: seq<Index>, b: seq<nat>, i: nat, j: nat, r: nat)
    requires Valid(l) && TupleOk(l, ix) && CutsBroadcastAxesOnly(l, ix)
    requires Constructed(GetItem(l, ix)) && |b| + 2 == |GetItem(l, ix).B.shape|
    requires IndicesOk(ix[..|ix| - 2], l.B.shape[..|ix| - 2])
    requires InShape(b, IndexedShape(ix[..|ix| - 2], l.B.shape[..|ix| - 2]))
    ensures var n := |ix|;
            var src := Source(ix[..n - 2], l.B.shape[..n - 2], b);
            Term(GetItem(l, ix), b + [i], j, r)
            == Term(l, src + [Pick(ix[n - 2], l.B.shape[n - 2], i)], Pick(ix[n - 1], l.A.shape[n - 1], j), r)
  {
    hide IndexedShape, Source, Pick, Broadcast, CutsBroadcastAxesOnly, GetItem;
    var n := |ix|;
    var src := Source(ix[..n - 2], l.B.shape[..n - 2], b);
    var p, q := b + [i], src + [Pick(ix[n - 2], l.B.shape[n - 2], i)];
    assert p[..|p| - 1] == b && q[..|q| - 1] == src;
    GetItemB(l, ix, b, i, r);
    GetItemA(l, ix, b, j, r);
  }

  lemma {:induction false} CutsOnPrefix(l: Lora, ix: seq<Index>)
    requires Valid(l) && TupleOk(l, ix) && CutsBroadcastAxesOnly(l, ix)
    ensures |ix[..|ix| - 2]| == |l.A.shape[..|ix| - 2]|
    ensures forall k :: 0 <= k < |ix| - 2 && ix[k].Slice? ==> ix[..|ix| - 2][k].step >= 1
    ensures CutsOk(ix[..|ix| - 2], l.A.shape[..|ix| - 2])
  {
    var n := |ix|;
    assert forall k :: 0 <= k < n ==> IndexOk(ix[k], Shape(l)[k]);
    assert forall k :: 0 <= k < n - 2 ==> ix[..n - 2][k] == ix[k] && l.A.shape[..n - 2][k] == l.A.shape[k];
  }

  lemma {:induction false} GetItemEntry(l: Lora, ix: seq<Index>, idx: seq<nat>)
    requires Valid(l) && TupleOk(l, ix) && CutsBroadcastAxesOnly(l, ix)
    requires Constructed(GetItem(l, ix)) && InShape(idx, Shape(GetItem(l, ix)))
    ensures Product(GetItem(l, ix)).at(idx) == Product(l).at(Source(ix, Shape(l), idx))
  {
    hide IndexedShape, Source, Pick, SliceCount, Broadcast, CutsBroadcastAxesOnly, CutsOk, Term;
    var n := |ix|;
    var bx := ix[..n - 2];
    var sa, sb := l.A.shape[..n - 2], l.B.shape[..n - 2];
    var m := GetItem(l, ix);
    GetItemShapes(l, ix);
    SplitAxes(l, ix);
    var k := |idx|;
    var b, i, j := idx[..k - 2], idx[k - 2], idx[k - 1];
    var p := idx[..k - 1];
    assert p == b + [i] && idx == b + [i] + [j];
    var ib := IndexedShape(bx, sb);
    assert InShape(b, ib) by {
      assert forall h :: 0 <= h < |b| ==> b[h] == idx[h] && Shape(m)[h] == ib[h];
    }
    var row, col := Pick(ix[n - 2], l.B.shape[n - 2], i), Pick(ix[n - 1], l.A.shape[n - 1], j);
    var src := Source(bx, sb, b);
    assert Source(ix, Shape(l), idx) == src + [row] + [col] by {
      LastAxis(bx, sb, b, ix[n - 2], l.B.shape[n - 2], i);
      LastAxis(bx + [ix[n - 2]], sb + [l.B.shape[n - 2]], p, ix[n - 1], l.A.shape[n - 1], j);
    }
    var q := src + [row];
    assert (q + [col])[..n - 1] == q;
    forall r: nat | r < Rank(m) ensures Term(m, p, j, r) == Term(l, q, col, r) {
      GetItemTerm(l, ix, b, i, j, r);
    }
    EntryEqual(m, p, l, q, j, col);
  }

  lemma {:induction false} BroadcastPrefix(batch: seq<nat>, shape: seq<nat>, prefix: seq<nat>)
    requires |batch| == |prefix| <= |shape| && shape[..|prefix|] == prefix
    ensures Broadcast(batch, shape) == Broadcast(batch, prefix)
  {
    if batch != [] {
      assert shape[0] == shape[..|prefix|][0];
      assert shape[1..][..|prefix[1..]|] == shape[..|prefix|][1..];
      BroadcastPrefix(batch[1..], shape[1..], prefix[1..]);
    }
  }

  // ---------- reshape ----------

  function Prod(s: seq<nat>): nat {
    if s == [] then 1 else Prod(s[..|s| - 1]) * s[|s| - 1]
  }

  // Row-major position of an index, and back.
  function Ravel(idx: seq<nat>, shape: seq<nat>): nat
    requires |idx| == |shape|
  {
    if idx == [] then 0
    else Ravel(idx[..|idx| - 1], shape[..|shape| - 1]) * shape[|shape| - 1] + idx[|idx| - 1]
  }

  function Unravel(k: nat, shape: seq<nat>): (idx: seq<nat>)
    ensures |idx| == |shape|
    decreases |shape|
  {
    if shape == [] then []
    else
      var d := shape[|shape| - 1];
      Unravel(Quotient(k, d), shape[..|shape| - 1]) + [Remainder(k, d)]
  }

  function Quotient(k: nat, d: nat): nat { if d == 0 then 0 else k / d }

  function Remainder(k: nat, d: nat): nat { if d == 0 then 0 else k % d }

  function ReshapeTensor(t: Tensor, shape: seq<nat>): Tensor {
    Tensor(shape, idx => if |idx| == |shape| then t.at(Unravel(Ravel(idx, shape), t.shape)) else 0.0)
  }

  lemma {:induction false} DivModOf(q: nat, d: nat, r: nat)
    requires r < d
    ensures Quotient(q * d + r, d) == q && Remainder(q * d + r, d) == r
  {
    var k := q * d + r;
    var q', r' := k / d, k % d;
    assert k == d * q' + r';
    if q' < q { MulMonotone(d, q' + 1, q); }
    if q < q' { MulMonotone(d, q + 1, q'); }
  }

  // Keeping the last axis, the leading axes are renumbered and the last index stays.
  lemma {:induction false} ReshapeKeepsLast(p: seq<nat>, j: nat, shape: seq<nat>, from: seq<nat>, d: nat)
    requires |p| == |shape| && j < d
    ensures Unravel(Ravel(p + [j], shape + [d]), from + [d]) == Unravel(Ravel(p, shape), from) + [j]
  {
    assert (p + [j])[..|p|] == p && (shape + [d])[..|p|] == shape && (from + [d])[..|from|] == from;
    hide Quotient, Remainder;
    DivModOf(Ravel(p, shape), d, j);
  }

  // The shape list as written, with -1 for "whatever is left".
  function ExpandShape(l: Lora, newShape: seq<int>): (r: Option<seq<int>>)
    requires Constructed(l)
    ensures r.Some? ==> |r.value| == |newShape|
  {
    if -1 !in newShape then Some(newShape)
    else
      var n, known := Prod(Shape(l)), ProdKnown(newShape);
      if known == 0 || n % known != 0 then None
      else Some(FillIn(newShape, n / known))
  }

  function ProdKnown(s: seq<int>): int {
    if s == [] then 1 else ProdKnown(s[..|s| - 1]) * (if s[|s| - 1] == -1 then 1 else s[|s| - 1])
  }

  function FillIn(s: seq<int>, d: int): (r: seq<int>)
    ensures |r| == |s|
  {
    if s == [] then [] else [if s[0] == -1 then d else s[0]] + FillIn(s[1..], d)
  }

  function Ones(n: nat): seq<nat> { seq(n, _ => 1) }

  predicate AllNat(s: seq<int>) { forall i :: 0 <= i < |s| ==> s[i] >= 0 }

  function ToNats(s: seq<int>): (r: seq<nat>)
    requires AllNat(s)
    ensures |r| == |s| && forall i :: 0 <= i < |s| ==> r[i] == s[i]
  {
    if s == [] then [] else [s[0]] + ToNats(s[1..])
  }

  datatype Failure = NotImplemented | AssertionFailed | ShapeMismatch

  // `torch.reshape` fails when the element counts differ.
  function Reshape(l: Lora, newShape: seq<int>): Result<Lora, Failure>
    requires Constructed(l)
  {
    if |newShape| < 2 then Err(NotImplemented)
    else
      var expanded := ExpandShape(l, newShape);
      if expanded.None? then Err(AssertionFailed)
      else
        var s, orig := expanded.value, Shape(l);
        if s[|s| - 1] != orig[|orig| - 1] then Err(NotImplemented)
        else if !AllNat(s) then Err(ShapeMismatch)
        else
          var lead := ToNats(s)[..|s| - 1];
          var shapeA := Ones(|s| - 2) + [Rank(l), orig[|orig| - 1]];
          var shapeB := lead + [Rank(l)];
          if Prod(shapeA) != Prod(l.A.shape) || Prod(shapeB) != Prod(l.B.shape) then Err(ShapeMismatch)
          else Ok(Lora(ReshapeTensor(l.A, shapeA), ReshapeTensor(l.B, shapeB)))
  }

  predicate BatchOfOnes(l: Lora)
    requires Constructed(l)
  {
    forall k :: 0 <= k < |l.A.shape| - 2 ==> l.A.shape[k] == 1
  }

  lemma {:induction false} BroadcastOnes(batch: seq<nat>, shape: seq<nat>)
    requires |batch| <= |shape| && forall k :: 0 <= k < |batch| ==> shape[k] == 1
    ensures Broadcast(batch, shape) == Zeros(|batch|)
  {
    if batch != [] {
      BroadcastOnes(batch[1..], shape[1..]);
      assert Zeros(|batch|) == [0] + Zeros(|batch| - 1);
    }
  }

  function Zeros(n: nat): seq<nat> { seq(n, _ => 0) }

  lemma {:induction false} RavelZeros(n: nat)
    ensures Ravel(Zeros(n), Ones(n)) == 0
  {
    if n > 0 {
      assert Zeros(n)[..n - 1] == Zeros(n - 1) && Ones(n)[..n - 1] == Ones(n - 1);
      RavelZeros(n - 1);
    }
  }

  lemma {:induction false} UnravelOnes(n: nat)
    ensures Unravel(0, Ones(n)) == Zeros(n)
  {
    if n > 0 {
      assert Ones(n)[..n - 1] == Ones(n - 1);
      UnravelOnes(n - 1);
      assert Zeros(n) == Zeros(n - 1) + [0];
    }
  }

  // A with all-one batch axes is the same matrix under any number of them.
  lemma {:induction false} ReshapeA(m: nat, n: nat, rank: nat, d: nat, r: nat, j: nat)
    requires r < rank && j < d
    ensures Unravel(Ravel(Zeros(m) + [r, j], Ones(m) + [rank, d]), Ones(n) + [rank, d]) == Zeros(n) + [r, j]
  {
    var z, o := Zeros(m) + [r], Ones(m) + [rank];
    assert Zeros(m) + [r, j] == z + [j] && Ones(m) + [rank, d] == o + [d];
    assert Ones(n) + [rank, d] == Ones(n) + [rank] + [d];
    ReshapeKeepsLast(z, j, o, Ones(n) + [rank], d);
    ReshapeKeepsLast(Zeros(m), r, Ones(m), Ones(n), rank);
    RavelZeros(m);
    UnravelOnes(n);
    assert Zeros(n) + [r] + [j] == Zeros(n) + [r, j];
  }

  // Main result for reshape: when it succeeds on a pair whose A has no real batch axes, the product
  // is reshaped.
  lemma {:induction false} ReshapeCommutes(l: Lora, newShape: seq<int>)
    requires Constructed(l) && BatchOfOnes(l) && Reshape(l, newShape).Ok?
    ensures ExpandShape(l, newShape).Some? && AllNat(ExpandShape(l, newShape).value)
    ensures var m := Reshape(l, newShape).value;
            Valid(m) && Same(Product(m), ReshapeTensor(Product(l), ToNats(ExpandShape(l, newShape).value)))
  {
    hide Prod, Unravel, Ravel, Entry, ProdKnown, FillIn, Broadcast, ExpandShape;
    var s := ToNats(ExpandShape(l, newShape).value);
    var m := Reshape(l, newShape).value;
    var d := Shape(l)[|Shape(l)| - 1];
    var lead := s[..|s| - 1];
    assert s == lead + [d];
    assert m == Lora(ReshapeTensor(l.A, Ones(|s| - 2) + [Rank(l), d]), ReshapeTensor(l.B, lead + [Rank(l)]));
    assert Constructed(m) && Valid(m);
    assert Shape(m) == s;
    forall idx | InShape(idx, s) ensures Product(m).at(idx) == ReshapeTensor(Product(l), s).at(idx) {
      ReshapeEntry(l, m, lead, idx[..|idx| - 1], idx[|idx| - 1]);
      assert idx == idx[..|idx| - 1] + [idx[|idx| - 1]];
    }
  }

  lemma {:induction false} ReshapeTerm(l: Lora, m: Lora, lead: seq<nat>, p: seq<nat>, j: nat, r: nat)
    requires Constructed(l) && BatchOfOnes(l) && |lead| >= 1 && |p| == |lead|
    requires var d := Shape(l)[|Shape(l)| - 1];
             j < d && m == Lora(ReshapeTensor(l.A, Ones(|lead| - 1) + [Rank(l), d]), ReshapeTensor(l.B, lead + [Rank(l)]))
    requires r < Rank(l) && Constructed(m) && |p| == |m.B.shape| - 1
    ensures Term(m, p, j, r) == Term(l, Unravel(Ravel(p, lead), l.B.shape[..|l.B.shape| - 1]), j, r)
  {
    hide Unravel, Ravel, Broadcast, ReshapeTensor, BatchOfOnes;
    ReshapeTermB(l, lead, p, r);
    ReshapeTermA(l, m, lead, p, Unravel(Ravel(p, lead), l.B.shape[..|l.B.shape| - 1]), j, r);
  }

  lemma {:induction false} ReshapeTermB(l: Lora, lead: seq<nat>, p: seq<nat>, r: nat)
    requires Constructed(l) && |p| == |lead| && r < Rank(l)
    ensures ReshapeTensor(l.B, lead + [Rank(l)]).at(p + [r])
            == l.B.at(Unravel(Ravel(p, lead), l.B.shape[..|l.B.shape| - 1]) + [r])
  {
    hide Unravel, Ravel;
    var rows := l.B.shape[..|l.B.shape| - 1];
    assert l.B.shape == rows + [Rank(l)];
    ReshapeKeepsLast(p, r, lead, rows, Rank(l));
  }

  lemma {:induction false} ReshapeTermA(l: Lora, m: Lora, lead: seq<nat>, p: seq<nat>, q: seq<nat>, j: nat, r: nat)
    requires Constructed(l) && BatchOfOnes(l) && |lead| >= 1 && |p| == |lead| && |q| == |l.B.shape| - 1
    requires var d := Shape(l)[|Shape(l)| - 1];
             j < d && m.A == ReshapeTensor(l.A, Ones(|lead| - 1) + [Rank(l), d])
    requires r < Rank(l)
    ensures m.A.at(Broadcast(p[..|p| - 1], m.A.shape) + [r, j]) == l.A.at(Broadcast(q[..|q| - 1], l.A.shape) + [r, j])
  {
    hide Unravel, Ravel, Broadcast;
    var n := |l.A.shape|;
    var rank, d := Rank(l), Shape(l)[|Shape(l)| - 1];
    assert l.A.shape == Ones(n - 2) + [rank, d];
    BroadcastOnes(p[..|p| - 1], m.A.shape);
    BroadcastOnes(q[..|q| - 1], l.A.shape);
    ReshapeA(|p| - 1, n - 2, rank, d, r, j);
    var z := Zeros(|p| - 1) + [r, j];
    assert |z| == |m.A.shape|;
  }

  lemma {:induction false} ReshapeEntry(l: Lora, m: Lora, lead: seq<nat>, p: seq<nat>, j: nat)
    requires Constructed(l) && BatchOfOnes(l) && |lead| >= 1 && |p| == |lead|
    requires var d := Shape(l)[|Shape(l)| - 1];
             j < d && m == Lora(ReshapeTensor(l.A, Ones(|lead| - 1) + [Rank(l), d]), ReshapeTensor(l.B, lead + [Rank(l)]))
    ensures Constructed(m)
    ensures var d := Shape(l)[|Shape(l)| - 1];
            Entry(m, p, j) == Product(l).at(Unravel(Ravel(p + [j], lead + [d]), Shape(l)))
  {
    hide Unravel, Ravel, Broadcast, Term;
    var n := |l.B.shape|;
    var rank, d := Rank(l), Shape(l)[|Shape(l)| - 1];
    var rows := l.B.shape[..n - 1];
    assert Shape(l) == rows + [d];
    ReshapeKeepsLast(p, j, lead, rows, d);
    var q := Unravel(Ravel(p, lead), rows);
    assert (q + [j])[..n - 1] == q;
    forall r: nat | r < rank ensures Term(m, p, j, r) == Term(l, q, j, r) {
      ReshapeTerm(l, m, lead, p, j, r);
    }
    EntryEqual(m, p, l, q, j, j);
  }

  lemma {:induction false} ProdOnes(n: nat)
    ensures Prod(Ones(n)) == 1
  {
    if n > 0 {
      assert Ones(n)[..n - 1] == Ones(n - 1);
      ProdOnes(n - 1);
    }
  }

  lemma {:induction false} ProdOneAllOnes(s: seq<nat>)
    requires Prod(s) == 1
    ensures forall k :: 0 <= k < |s| ==> s[k] == 1
  {
    if s != [] {
      var front, d := s[..|s| - 1], s[|s| - 1];
      FactorsOfOne(Prod(front), d);
      ProdOneAllOnes(front);
      assert forall k :: 0 <= k < |front| ==> s[k] == front[k];
    }
  }

  lemma {:induction false} FactorsOfOne(x: nat, y: nat)
    requires x * y == 1
    ensures x == 1 && y == 1
  {
    if x >= 2 && y >= 1 { MulMonotone(x, 1, y); }
    if y >= 2 && x >= 1 { MulMonotone(y, 1, x); }
  }

  lemma {:induction false} CancelFactor(x: nat, c: nat)
    requires c >= 1 && x * c == c
    ensures x == 1
  {
    if x >= 2 { MulMonotone(c, 2, x); }
  }

  lemma {:induction false} ProdSnoc(s: seq<nat>, d: nat)
    ensures Prod(s + [d]) == Prod(s) * d
  {
    assert (s + [d])[..|s|] == s;
  }

  lemma {:induction false} MulAssoc(x: nat, y: nat, z: nat)
    ensures x * y * z == x * (y * z)
  {
  }

  // For factors that are not empty, a reshape succeeds only if A has no real batch axes.
  lemma {:induction false} ReshapeNeedsOnes(l: Lora, newShape: seq<int>)
    requires Constructed(l) && Reshape(l, newShape).Ok?
    requires Rank(l) >= 1 && l.A.shape[|l.A.shape| - 1] >= 1
    ensures BatchOfOnes(l)
  {
    hide Prod, ExpandShape;
    var n := |l.A.shape|;
    var rank, d := Rank(l), l.A.shape[n - 1];
    var batch, ones := l.A.shape[..n - 2], Ones(|newShape| - 2);
    LastTwo(l.A.shape);
    ProdSnoc(batch, rank);
    ProdSnoc(batch + [rank], d);
    ProdOnes(|ones|);
    ProdSnoc(ones, rank);
    ProdSnoc(ones + [rank], d);
    assert ones + [rank] + [d] == ones + [rank, d];
    MulAssoc(Prod(batch), rank, d);
    MulMonotone(rank, 1, d);
    CancelFactor(Prod(batch), rank * d);
    ProdOneAllOnes(batch);
    assert forall k :: 0 <= k < n - 2 ==> l.A.shape[k] == batch[k];
  }

  // ---------- permute and transpose ----------

  predicate IsPermutation(dims: seq<nat>) {
    (forall k :: 0 <= k < |dims| ==> dims[k] < |dims|)
    && (forall j, k :: 0 <= j < k < |dims| ==> dims[j] != dims[k])
  }

  // Where axis `d` went.
  function Position(dims: seq<nat>, d: nat): (k: nat)
    ensures k <= |dims| && (k < |dims| ==> dims[k] == d)
    ensures d in dims ==> k < |dims|
  {
    if dims == [] || dims[0] == d then 0 else 1 + Position(dims[1..], d)
  }

  function Unpermute(dims: seq<nat>, idx: seq<nat>): (r: seq<nat>)
    requires |idx| == |dims|
    ensures |r| == |dims|
  {
    seq(|dims|, d requires 0 <= d < |dims| => if Position(dims, d) < |idx| then idx[Position(dims, d)] else 0)
  }

  function PermuteTensor(t: Tensor, dims: seq<nat>): Tensor
    requires |dims| == |t.shape| && IsPermutation(dims)
  {
    Tensor(seq(|dims|, k requires 0 <= k < |dims| => t.shape[dims[k]]),
           idx => if |idx| == |dims| then t.at(Unpermute(dims, idx)) else 0.0)
  }

  // Axes as written may be negative.
  function Axes(dims: seq<int>, n: nat): Option<seq<nat>> {
    if |dims| == n && forall k :: 0 <= k < n ==> 0 <= dims[k] + n && dims[k] < n then
      var d := seq(n, k requires 0 <= k < n => if dims[k] < 0 then dims[k] + n else dims[k]);
      if IsPermutation(d) then Some(d) else None
    else None
  }

  // Duplicate or missing axes are refused by torch.
  function Permute(l: Lora, dims: seq<int>): Result<Lora, Failure>
    requires Constructed(l)
  {
    var n := |l.B.shape|;
    var axes := Axes(dims, n);
    if axes.None? then Err(ShapeMismatch)
    else if axes.value[n - 1] == n - 1 then
      if BatchOfOnes(l) then Ok(Lora(l.A, PermuteTensor(l.B, axes.value))) else Err(AssertionFailed)
    else if n == 2 then
      Ok(Lora(PermuteTensor(l.B, axes.value), PermuteTensor(l.A, axes.value)))
    else Err(NotImplemented)
  }

  lemma {:induction false} PositionIs(dims: seq<nat>, k: nat)
    requires IsPermutation(dims) && k < |dims|
    ensures Position(dims, dims[k]) == k
  {
  }

  // When the last axis stays, the leading axes are permuted alone.
  lemma {:induction false} UnpermuteLast(dims: seq<nat>, p: seq<nat>, x: nat, y: nat)
    requires dims != [] && IsPermutation(dims) && dims[|dims| - 1] == |dims| - 1 && |p| == |dims| - 1
    ensures Unpermute(dims, p + [x])[|dims| - 1] == x
    ensures Unpermute(dims, p + [x])[..|dims| - 1] == Unpermute(dims, p + [y])[..|dims| - 1]
  {
    var n := |dims|;
    PositionIs(dims, n - 1);
    forall d | 0 <= d < n - 1 ensures Unpermute(dims, p + [x])[d] == Unpermute(dims, p + [y])[d] {
      var k := Position(dims, d);
      if k < n { assert k != n - 1; }
    }
  }

  lemma {:induction false} PermuteKeepsLast(l: Lora, dims: seq<nat>)
    requires Constructed(l) && BatchOfOnes(l) && |dims| == |l.B.shape| && IsPermutation(dims) && dims[|dims| - 1] == |dims| - 1
    ensures var m := Lora(l.A, PermuteTensor(l.B, dims));
            Valid(m) && Same(Product(m), PermuteTensor(Product(l), dims))
  {
    hide Entry, Broadcast, Unpermute;
    var n := |dims|;
    var m := Lora(l.A, PermuteTensor(l.B, dims));
    assert m.B.shape[n - 1] == l.B.shape[n - 1];
    forall k | 0 <= k < n ensures Shape(m)[k] == Shape(l)[dims[k]] {
      if k < n - 1 { assert dims[k] != dims[n - 1]; }
    }
    assert Product(m).shape == PermuteTensor(Product(l), dims).shape;
    forall idx | InShape(idx, Shape(m)) ensures Product(m).at(idx) == PermuteTensor(Product(l), dims).at(idx) {
      var p, j := idx[..n - 1], idx[n - 1];
      assert idx == p + [j];
      PermuteEntry(l, dims, p, j);
    }
  }

  lemma {:induction false} PermuteEntry(l: Lora, dims: seq<nat>, p: seq<nat>, j: nat)
    requires Constructed(l) && BatchOfOnes(l) && |dims| == |l.B.shape| && IsPermutation(dims) && dims[|dims| - 1] == |dims| - 1
    requires |p| == |dims| - 1
    ensures Constructed(Lora(l.A, PermuteTensor(l.B, dims)))
    ensures Entry(Lora(l.A, PermuteTensor(l.B, dims)), p, j) == Product(l).at(Unpermute(dims, p + [j]))
  {
    hide Broadcast;
    var n := |dims|;
    var m := Lora(l.A, PermuteTensor(l.B, dims));
    var u := Unpermute(dims, p + [j]);
    var q := u[..n - 1];
    UnpermuteLast(dims, p, j, j);
    forall r: nat | r < Rank(l) ensures Term(m, p, j, r) == Term(l, q, j, r) {
      UnpermuteLast(dims, p, r, j);
      var v := Unpermute(dims, p + [r]);
      assert v == v[..n - 1] + [v[n - 1]];
      BroadcastOnes(p[..|p| - 1], l.A.shape);
      BroadcastOnes(q[..|q| - 1], l.A.shape);
    }
    EntryEqual(m, p, l, q, j, j);
  }

  const SWAP: seq<nat> := [1, 0]

  lemma {:induction false} SwapUnpermute(i: nat, j: nat)
    ensures Unpermute(SWAP, [i, j]) == [j, i]
  {
    assert SWAP[1..] == [0];
    assert Position(SWAP, 0) == 1 && Position(SWAP, 1) == 0;
  }

  lemma {:induction false} PermuteSwaps(l: Lora)
    requires Constructed(l) && |l.B.shape| == 2
    ensures var m := Lora(PermuteTensor(l.B, SWAP), PermuteTensor(l.A, SWAP));
            Valid(m) && Same(Product(m), PermuteTensor(Product(l), SWAP))
  {
    var m := Lora(PermuteTensor(l.B, SWAP), PermuteTensor(l.A, SWAP));
    forall idx | InShape(idx, Shape(m)) ensures Product(m).at(idx) == PermuteTensor(Product(l), SWAP).at(idx) {
      var i, j := idx[0], idx[1];
      assert idx == [i, j];
      SwapUnpermute(i, j);
      forall r: nat | r < Rank(l) ensures Term(m, [i], j, r) == Term(l, [j], i, r) {
        SwapUnpermute(i, r);
        SwapUnpermute(r, j);
        assert [i] + [r] == [i, r] && [j] + [r] == [j, r];
        assert [i][..0] == [] && [j][..0] == [] && [] + [r, j] == [r, j] && [] + [r, i] == [r, i];
      }
      EntryEqual(m, [i], l, [j], j, i);
      assert idx[..1] == [i] && [j, i][..1] == [j];
    }
  }

  lemma {:induction false} OnlySwap(dims: seq<nat>)
    requires |dims| == 2 && IsPermutation(dims) && dims[1] != 1
    ensures dims == SWAP
  {
    assert dims[0] != dims[1];
  }

  // Main result for permute: whenever it is carried out, the product is permuted.
  lemma {:induction false} PermuteCommutes(l: Lora, dims: seq<int>)
    requires Constructed(l) && Permute(l, dims).Ok?
    ensures Axes(dims, |l.B.shape|).Some?
    ensures Valid(Permute(l, dims).value)
    ensures Same(Product(Permute(l, dims).value), PermuteTensor(Product(l), Axes(dims, |l.B.shape|).value))
  {
    var n := |l.B.shape|;
    var axes := Axes(dims, n).value;
    if axes[n - 1] == n - 1 {
      PermuteKeepsLast(l, axes);
    } else {
      OnlySwap(axes);
      PermuteSwaps(l);
    }
  }

  // Python indexes the list of axes, then swaps two of its elements.
  function Swapped(n: nat, dim0: int, dim1: int): seq<int>
    requires 0 <= dim0 + n && dim0 < n && 0 <= dim1 + n && dim1 < n
  {
    var i, j := (if dim0 < 0 then dim0 + n else dim0), (if dim1 < 0 then dim1 + n else dim1);
    seq(n, k => if k == i then j else if k == j then i else k)
  }

  function Transpose(l: Lora, dim0: int, dim1: int): Result<Lora, Failure>
    requires Constructed(l) && 0 <= dim0 + |l.B.shape| && dim0 < |l.B.shape| && 0 <= dim1 + |l.B.shape| && dim1 < |l.B.shape|
  {
    Permute(l, Swapped(|l.B.shape|, dim0, dim1))
  }

  // On matrices, transposing twice gives the factors back.
  lemma {:induction false} TransposeInvolutive(l: Lora)
    requires Constructed(l) && |l.B.shape| == 2
    ensures Transpose(l, 0, 1).Ok?
    ensures var m := Transpose(l, 0, 1).value;
            Constructed(m) && |m.B.shape| == 2 && Transpose(m, 0, 1).Ok?
            && Same(Transpose(m, 0, 1).value.A, l.A) && Same(Transpose(m, 0, 1).value.B, l.B)
            && Same(Product(m), PermuteTensor(Product(l), SWAP))
  {
    var w := Swapped(2, 0, 1);
    assert w == [1, 0];
    assert Axes(w, 2) == Some(SWAP) by {
      assert seq(2, k requires 0 <= k < 2 => if w[k] < 0 then w[k] + 2 else w[k]) == SWAP;
    }
    PermuteSwaps(l);
    var m := Transpose(l, 0, 1).value;
    var back := Transpose(m, 0, 1).value;
    assert back == Lora(PermuteTensor(PermuteTensor(l.A, SWAP), SWAP), PermuteTensor(PermuteTensor(l.B, SWAP), SWAP));
    SwapTwice(l.A);
    SwapTwice(l.B);
  }

  lemma {:induction false} SwapTwice(t: Tensor)
    requires |t.shape| == 2
    ensures Same(PermuteTensor(PermuteTensor(t, SWAP), SWAP), t)
  {
    var u := PermuteTensor(PermuteTensor(t, SWAP), SWAP);
    forall idx | InShape(idx, u.shape) ensures u.at(idx) == t.at(idx) {
      assert idx == [idx[0], idx[1]];
      SwapUnpermute(idx[0], idx[1]);
      SwapUnpermute(idx[1], idx[0]);
    }
  }

  // ---------- stack and cat on axis 0 ----------

  function StackTensor(ts: seq<Tensor>): Tensor
    requires ts != []
  {
    Tensor([|ts|] + ts[0].shape, idx => if idx != [] && idx[0] < |ts| then ts[idx[0]].at(idx[1..]) else 0.0)
  }

  function FactorsA(ls: seq<Lora>): (r: seq<Tensor>)
    ensures |r| == |ls| && forall i :: 0 <= i < |ls| ==> r[i] == ls[i].A
  {
    seq(|ls|, i requires 0 <= i < |ls| => ls[i].A)
  }

  function FactorsB(ls: seq<Lora>): (r: seq<Tensor>)
    ensures |r| == |ls| && forall i :: 0 <= i < |ls| ==> r[i] == ls[i].B
  {
    seq(|ls|, i requires 0 <= i < |ls| => ls[i].B)
  }

  ghost function Products(ls: seq<Lora>): (r: seq<Tensor>)
    requires forall i :: 0 <= i < |ls| ==> Constructed(ls[i])
    ensures |r| == |ls| && forall i :: 0 <= i < |ls| ==> r[i] == Product(ls[i])
  {
    seq(|ls|, i requires 0 <= i < |ls| => Product(ls[i]))
  }

  // torch.stack wants equal shapes.
  predicate Stackable(ls: seq<Lora>) {
    ls != []
    && forall i :: 0 <= i < |ls| ==> Valid(ls[i]) && ls[i].A.shape == ls[0].A.shape && ls[i].B.shape == ls[0].B.shape
  }

  function Stack(ls: seq<Lora>): Lora
    requires Stackable(ls)
  {
    Lora(StackTensor(FactorsA(ls)), StackTensor(FactorsB(ls)))
  }

  lemma {:induction false} StackCommutes(ls: seq<Lora>)
    requires Stackable(ls)
    ensures Valid(Stack(ls)) && Same(Product(Stack(ls)), StackTensor(Products(ls)))
  {
    hide Broadcast, Entry, Term;
    var m := Stack(ls);
    var n := |m.B.shape|;
    forall k | 0 <= k < n - 2 ensures m.A.shape[k] == 1 || m.A.shape[k] == m.B.shape[k] {
      if k > 0 { assert m.A.shape[k] == ls[0].A.shape[k - 1] && m.B.shape[k] == ls[0].B.shape[k - 1]; }
    }
    assert Shape(m) == [|ls|] + Shape(ls[0]);
    forall idx | InShape(idx, Shape(m)) ensures Product(m).at(idx) == StackTensor(Products(ls)).at(idx) {
      assert Shape(m)[0] == |ls|;
      var n := |idx|;
      assert idx == [idx[0]] + idx[1..n - 1] + [idx[n - 1]];
      StackEntry(ls, idx[0], idx[1..n - 1], idx[n - 1]);
    }
  }

  lemma {:induction false} StackEntry(ls: seq<Lora>, i: nat, p: seq<nat>, j: nat)
    requires Stackable(ls) && i < |ls| && |p| == |ls[0].B.shape| - 1
    ensures Constructed(Stack(ls)) && forall k :: 0 <= k < |ls| ==> Constructed(ls[k])
    ensures Product(Stack(ls)).at([i] + p + [j]) == StackTensor(Products(ls)).at([i] + p + [j])
  {
    hide Entry, Term;
    var m := Stack(ls);
    var idx := [i] + p + [j];
    assert idx[..|idx| - 1] == [i] + p && idx[1..] == p + [j] && (p + [j])[..|p|] == p;
    forall r: nat | r < Rank(m) ensures Term(m, [i] + p, j, r) == Term(ls[i], p, j, r) {
      StackTerm(ls, i, p, j, r);
    }
    EntryEqual(m, [i] + p, ls[i], p, j, j);
  }

  lemma {:induction false} StackTerm(ls: seq<Lora>, i: nat, p: seq<nat>, j: nat, r: nat)
    requires Stackable(ls) && i < |ls| && |p| == |ls[0].B.shape| - 1
    ensures Constructed(Stack(ls)) && Term(Stack(ls), [i] + p, j, r) == Term(ls[i], p, j, r)
  {
    var m := Stack(ls);
    assert ([i] + p + [r])[1..] == p + [r];
    var b := ([i] + p)[..|p|];
    assert b == [i] + p[..|p| - 1] && b[1..] == p[..|p| - 1];
    assert m.A.shape[1..] == ls[0].A.shape && m.A.shape[0] == |ls|;
    var bc := Broadcast(b, m.A.shape);
    var tail := Broadcast(p[..|p| - 1], ls[i].A.shape);
    assert bc == [if |ls| == 1 then 0 else i] + tail;
    assert (bc + [r, j])[1..] == tail + [r, j] && (bc + [r, j])[0] == i;
  }

  // The tensor that holds row `i` of a concatenation, and the row inside it.
  function Locate(ts: seq<Tensor>, i: nat): (nat, nat)
    requires forall k :: 0 <= k < |ts| ==> ts[k].shape != []
  {
    if ts == [] then (0, i)
    else if i < ts[0].shape[0] then (0, i)
    else var (k, row) := Locate(ts[1..], i - ts[0].shape[0]); (k + 1, row)
  }

  function Total(ts: seq<Tensor>): nat
    requires forall k :: 0 <= k < |ts| ==> ts[k].shape != []
  {
    if ts == [] then 0 else ts[0].shape[0] + Total(ts[1..])
  }

  // Matrices below one another.
  function CatRows(ts: seq<Tensor>): Tensor
    requires ts != [] && forall k :: 0 <= k < |ts| ==> |ts[k].shape| == 2
  {
    Tensor([Total(ts), ts[0].shape[1]], idx => if |idx| == 2 then RowAt(ts, idx[0], idx[1]) else 0.0)
  }

  function RowAt(ts: seq<Tensor>, i: nat, j: nat): real
    requires forall k :: 0 <= k < |ts| ==> |ts[k].shape| == 2
  {
    var (k, row) := Locate(ts, i);
    if k < |ts| then ts[k].at([row, j]) else 0.0
  }

  lemma {:induction false} LocateSound(ts: seq<Tensor>, i: nat)
    requires forall k :: 0 <= k < |ts| ==> ts[k].shape != []
    ensures i < Total(ts) ==> Locate(ts, i).0 < |ts| && Locate(ts, i).1 < ts[Locate(ts, i).0].shape[0]
  {
    if ts != [] && i >= ts[0].shape[0] { LocateSound(ts[1..], i - ts[0].shape[0]); }
  }

  // Position depends only on the sizes along axis 0.
  lemma {:induction false} LocateSame(ts: seq<Tensor>, us: seq<Tensor>, i: nat)
    requires |ts| == |us|
    requires forall k :: 0 <= k < |ts| ==> ts[k].shape != [] && us[k].shape != [] && ts[k].shape[0] == us[k].shape[0]
    ensures Locate(ts, i) == Locate(us, i) && Total(ts) == Total(us)
  {
    if ts != [] {
      if i >= ts[0].shape[0] { LocateSame(ts[1..], us[1..], i - ts[0].shape[0]); } else { LocateSame(ts[1..], us[1..], 0); }
    }
  }

  // Matrix pairs whose A is the same tensor (`torch.equal`).
  ghost predicate SharesA(a: Lora, l: Lora) {
    Constructed(a) && Constructed(l) && |a.B.shape| == 2 && |l.B.shape| == 2 && Same(a.A, l.A)
  }

  predicate Matrices(ls: seq<Lora>) {
    forall i :: 0 <= i < |ls| ==> Constructed(ls[i]) && |ls[i].B.shape| == 2
  }

  ghost predicate CanCat(ls: seq<Lora>) {
    ls != [] && Matrices(ls) && forall i :: 0 <= i < |ls| ==> SharesA(ls[0], ls[i])
  }

  function Concatenate(ls: seq<Lora>): Lora
    requires ls != [] && Matrices(ls)
  {
    Lora(ls[0].A, CatRows(FactorsB(ls)))
  }

  lemma {:induction false} SharedA(ls: seq<Lora>, k: nat)
    requires CanCat(ls) && k < |ls|
    ensures Same(ls[0].A, ls[k].A) && ls[0].A.shape == ls[k].A.shape && Rank(ls[k]) == Rank(ls[0])
  {
    assert SharesA(ls[0], ls[k]);
  }

  lemma {:induction false} CatEntry(ls: seq<Lora>, i: nat, j: nat)
    requires CanCat(ls) && i < Total(FactorsB(ls)) && j < ls[0].A.shape[1]
    ensures Constructed(Concatenate(ls)) && |Concatenate(ls).B.shape| == 2
    ensures Entry(Concatenate(ls), [i], j) == RowAt(Products(ls), i, j)
  {
    hide SharesA, Same, Locate, Total, Entry, Term;
    var bs := FactorsB(ls);
    LocateSound(bs, i);
    LocateSame(bs, Products(ls), i);
    var (k, row) := Locate(bs, i);
    SharedA(ls, k);
    forall r: nat | r < Rank(ls[0]) ensures Term(Concatenate(ls), [i], j, r) == Term(ls[k], [row], j, r) {
      CatTerm(ls, k, i, row, j, r);
    }
    EntryEqual(Concatenate(ls), [i], ls[k], [row], j, j);
    assert [row, j][..1] == [row];
  }

  lemma {:induction false} CatTerm(ls: seq<Lora>, k: nat, i: nat, row: nat, j: nat, r: nat)
    requires CanCat(ls) && k < |ls| && j < ls[0].A.shape[1] && r < Rank(ls[0])
    requires Locate(FactorsB(ls), i) == (k, row)
    ensures Constructed(Concatenate(ls)) && |Concatenate(ls).B.shape| == 2
    ensures Term(Concatenate(ls), [i], j, r) == Term(ls[k], [row], j, r)
  {
    hide Locate, Total, SharesA;
    SharedA(ls, k);
    assert [i] + [r] == [i, r] && [row] + [r] == [row, r] && [i][..0] == [] && [row][..0] == [];
    assert [] + [r, j] == [r, j];
    assert InShape([r, j], ls[0].A.shape);
  }

  // Main result for cat: sharing A, only B is concatenated, and the products are.
  lemma {:induction false} CatCommutes(ls: seq<Lora>)
    requires CanCat(ls)
    ensures Valid(Concatenate(ls)) && Same(Product(Concatenate(ls)), CatRows(Products(ls)))
  {
    hide Entry, RowAt, Locate, SharesA, CanCat, Total, Term, Same;
    CatParts(ls);
    var m, ps := Concatenate(ls), Products(ls);
    CatShape(ls);
    hide Concatenate, Products, CatRows, Product, Shape;
    forall idx | InShape(idx, Shape(m)) ensures Product(m).at(idx) == CatRows(ps).at(idx) {
      CatEntry(ls, idx[0], idx[1]);
      ProductAt(m, idx);
      CatRowsAt(ps, idx);
    }
    SameByEntry(Product(m), CatRows(ps));
  }

  lemma {:induction false} CatShape(ls: seq<Lora>)
    requires CanCat(ls)
    ensures Valid(Concatenate(ls)) && forall k :: 0 <= k < |ls| ==> |Product(ls[k]).shape| == 2
    ensures var m := Concatenate(ls);
            Shape(m) == Product(m).shape == CatRows(Products(ls)).shape == [Total(FactorsB(ls)), ls[0].A.shape[1]]
  {
    hide Entry, RowAt, Locate, SharesA, Total, Term;
    LocateSame(FactorsB(ls), Products(ls), 0);
  }

  lemma {:induction false} ProductAt(l: Lora, idx: seq<nat>)
    requires Constructed(l) && |l.B.shape| == 2 == |idx|
    ensures Product(l).at(idx) == Entry(l, [idx[0]], idx[1])
  {
    hide Entry;
    assert idx[..1] == [idx[0]];
  }

  lemma {:induction false} CatRowsAt(ts: seq<Tensor>, idx: seq<nat>)
    requires ts != [] && (forall k :: 0 <= k < |ts| ==> |ts[k].shape| == 2) && |idx| == 2
    ensures CatRows(ts).at(idx) == RowAt(ts, idx[0], idx[1])
  {
    hide RowAt;
  }

  lemma {:induction false} SameByEntry(t: Tensor, u: Tensor)
    requires t.shape == u.shape && forall idx :: InShape(idx, t.shape) ==> t.at(idx) == u.at(idx)
    ensures Same(t, u)
  {
  }

  lemma {:induction false} CatParts(ls: seq<Lora>)
    requires CanCat(ls)
    ensures ls != [] && Matrices(ls)
  {
  }
}
