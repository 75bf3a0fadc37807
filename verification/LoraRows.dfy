/** Low-rank tensors indexed by one bare integer or slice: both factors get the same index, so the batch
    axis of A may be cut along, or may not survive it. */
module LoraRows {
  import opened Basics
  import opened Lora

  // A tensor indexed on its first axis alone.
  function Rows(t: Tensor, x: Index): Tensor
    requires t.shape != [] && IndexOk(x, t.shape[0])
  {
    if x.At? then Tensor(t.shape[1..], idx => t.at([Normal(x.i, t.shape[0])] + idx))
    else
      Tensor([SliceCount(x, t.shape[0])] + t.shape[1..],
             idx => if idx == [] then 0.0 else t.at([Pick(x, t.shape[0], idx[0])] + idx[1..]))
  }

  function Full(n: nat): seq<Index> { seq(n, _ => FULL) }

  lemma {:induction false} FullTail(n: nat)
    requires n > 0
    ensures Full(n)[0] == FULL && Full(n)[1..] == Full(n - 1)
  {
  }

  lemma {:induction false} FullKeeps(shape: seq<nat>, idx: seq<nat>)
    requires |idx| == |shape|
    ensures IndicesOk(Full(|shape|), shape) && IndexedShape(Full(|shape|), shape) == shape
    ensures Source(Full(|shape|), shape, idx) == idx
  {
    if shape != [] {
      FullTail(|shape|);
      FullKeepsAll(shape[0]);
      FullPicks(shape[0], idx[0]);
      FullKeeps(shape[1..], idx[1..]);
      hide Pick, SliceCount;
      assert shape == [shape[0]] + shape[1..] && idx == [idx[0]] + idx[1..];
    }
  }

  lemma {:induction false} FirstThenFull(shape: seq<nat>, x: Index)
    requires shape != [] && IndexOk(x, shape[0])
    ensures var ix := [x] + Full(|shape| - 1); IndicesOk(ix, shape) && ix[1..] == Full(|shape| - 1)
  {
    var ix := [x] + Full(|shape| - 1);
    forall k | 0 <= k < |ix| ensures IndexOk(ix[k], shape[k]) {
      if k > 0 { assert ix[k] == FULL; }
    }
  }

  lemma {:induction false} RowsShape(t: Tensor, x: Index)
    requires t.shape != [] && IndexOk(x, t.shape[0]) && IndicesOk([x] + Full(|t.shape| - 1), t.shape)
    ensures Rows(t, x).shape == IndexedShape([x] + Full(|t.shape| - 1), t.shape)
  {
    FirstThenFull(t.shape, x);
    FullKeeps(t.shape[1..], t.shape[1..]);
    hide SliceCount, Full;
  }

  lemma {:induction false} RowsAt(t: Tensor, x: Index, idx: seq<nat>)
    requires t.shape != [] && IndexOk(x, t.shape[0]) && IndicesOk([x] + Full(|t.shape| - 1), t.shape)
    requires if x.At? then |idx| + 1 == |t.shape| else |idx| == |t.shape|
    ensures Rows(t, x).at(idx) == t.at(Source([x] + Full(|t.shape| - 1), t.shape, idx))
  {
    var ix := [x] + Full(|t.shape| - 1);
    FirstThenFull(t.shape, x);
    SourceStep(ix, t.shape, idx);
    FullKeeps(t.shape[1..], if x.At? then idx else idx[1..]);
    hide Pick, SliceCount, Normal, IndexedShape, Source, Full;
  }

  // It is the indexing by that index and a full slice for every other axis.
  lemma {:induction false} RowsAreIndexed(t: Tensor, x: Index)
    requires t.shape != [] && IndexOk(x, t.shape[0])
    ensures IndicesOk([x] + Full(|t.shape| - 1), t.shape)
    ensures Same(Rows(t, x), IndexTensor(t, [x] + Full(|t.shape| - 1)))
  {
    hide Full, SliceCount, Normal, Pick, IndexedShape, Source, IndicesOk, IndexOk;
    FirstThenFull(t.shape, x);
    RowsShape(t, x);
    forall idx | InShape(idx, Rows(t, x).shape)
      ensures Rows(t, x).at(idx) == IndexTensor(t, [x] + Full(|t.shape| - 1)).at(idx)
    {
      RowsAt(t, x, idx);
    }
  }

  // ---------- __getitem__ with a bare index ----------

  // Integers must be in range of both factors, and do not index a matrix.
  function GetRows(l: Lora, x: Index): Result<Lora, Failure>
    requires Valid(l) && IndexOk(x, Shape(l)[0])
  {
    var matrix := |Shape(l)| == 2;
    if x.At? && matrix then Err(NotImplemented)
    else if matrix then Ok(Lora(l.A, Rows(l.B, x)))
    else if x.At? && !IndexOk(x, l.A.shape[0]) then Err(ShapeMismatch)
    else Ok(Lora(Rows(l.A, x), Rows(l.B, x)))
  }

  // The batch axis of A is the one of B, or it is still there after the cut, or nothing is left of B's.
  predicate AxisSurvives(l: Lora, x: Index)
    requires Valid(l) && IndexOk(x, Shape(l)[0])
  {
    x.At? || |Shape(l)| == 2 || l.A.shape[0] == l.B.shape[0] || SliceCount(x, 1) == 1 || SliceCount(x, l.B.shape[0]) == 0
  }

  lemma {:induction false} OneLeft(step: nat)
    requires step >= 1
    ensures CeilDiv(1, step) == 1
  {
    assert 1 + step - 1 == step;
    assert step / step == 1;
  }

  lemma {:induction false} OneRow(x: Index)
    requires x.Slice? && x.step >= 1
    ensures SliceCount(x, 1) <= 1
    ensures SliceCount(x, 1) == 1 ==> Pick(x, 1, 0) == 0
  {
    var lo, hi := SliceStart(x, 1), SliceStop(x, 1);
    assert lo <= hi ==> hi - lo <= 1;
    if lo < hi { OneLeft(x.step); }
  }

  lemma {:induction false} ShapeParts(l: Lora)
    requires Constructed(l)
    ensures |Shape(l)| == |l.B.shape| && Shape(l)[0] == l.B.shape[0]
    ensures Shape(l)[1..] == l.B.shape[1..|l.B.shape| - 1] + [l.A.shape[|l.A.shape| - 1]]
  {
  }

  lemma {:induction false} GetRowsShape(l: Lora, x: Index)
    requires Valid(l) && IndexOk(x, Shape(l)[0]) && GetRows(l, x).Ok?
    ensures Constructed(GetRows(l, x).value) && Shape(GetRows(l, x).value) == Rows(Product(l), x).shape
  {
    hide SliceCount, Normal, Pick, Entry;
    ShapeParts(l);
    var m, n := GetRows(l, x).value, |l.B.shape|;
    var rest, last := l.B.shape[1..n - 1], l.A.shape[n - 1];
    if x.At? {
      assert m.B.shape == l.B.shape[1..] && m.A.shape == l.A.shape[1..];
      assert m.B.shape[..n - 2] == rest;
      assert Shape(m) == rest + [last];
    } else {
      var count := SliceCount(x, l.B.shape[0]);
      assert m.B.shape == [count] + l.B.shape[1..] && m.A.shape[|m.A.shape| - 1] == last;
      assert m.B.shape[..n - 1] == [count] + rest;
      assert Shape(m) == [count] + (rest + [last]);
    }
  }

  // An integer fails on matrices and outside a batch axis on which A broadcasts; otherwise the factors
  // stay a well-formed pair exactly when the axis survives.
  lemma {:induction false} GetRowsExact(l: Lora, x: Index)
    requires Valid(l) && IndexOk(x, Shape(l)[0])
    ensures GetRows(l, x).Ok? <==> x.Slice? || (|Shape(l)| > 2 && (l.A.shape[0] == l.B.shape[0] || x.i == 0 || x.i == -1))
    ensures GetRows(l, x).Ok? ==> Constructed(GetRows(l, x).value)
                                  && (Valid(GetRows(l, x).value) <==> AxisSurvives(l, x))
  {
    if GetRows(l, x).Ok? {
      GetRowsShape(l, x);
      hide SliceCount, Rows;
      if x.Slice? { SliceValid(l, x); } else { IntegerValid(l, x); }
    }
  }

  lemma {:induction false} IntegerValid(l: Lora, x: Index)
    requires Valid(l) && x.At? && IndexOk(x, Shape(l)[0]) && GetRows(l, x).Ok?
    ensures Valid(GetRows(l, x).value)
  {
    var m := GetRows(l, x).value;
    assert forall k :: 0 <= k < |m.A.shape| ==> m.A.shape[k] == l.A.shape[k + 1] && m.B.shape[k] == l.B.shape[k + 1];
  }

  lemma {:induction false} SliceValid(l: Lora, x: Index)
    requires Valid(l) && x.Slice? && IndexOk(x, Shape(l)[0]) && Constructed(GetRows(l, x).value)
    ensures Valid(GetRows(l, x).value) <==> AxisSurvives(l, x)
  {
    var m := GetRows(l, x).value;
    OneRow(x);
    hide SliceCount;
    if |Shape(l)| > 2 {
      assert forall k :: 0 < k < |m.A.shape| ==> m.A.shape[k] == l.A.shape[k] && m.B.shape[k] == l.B.shape[k];
      var a, b := m.A.shape[0], m.B.shape[0];
      assert a == SliceCount(x, l.A.shape[0]) && b == SliceCount(x, l.B.shape[0]);
      assert Valid(m) <==> a == 1 || a == b;
    }
  }

  // The position on the first axis of A that the product uses, before and after.
  lemma {:induction false} SameRow(l: Lora, x: Index, k: nat)
    requires Valid(l) && x.Slice? && IndexOk(x, Shape(l)[0]) && |Shape(l)| > 2 && AxisSurvives(l, x)
    requires k < SliceCount(x, l.B.shape[0])
    ensures Pick(x, l.A.shape[0], if SliceCount(x, l.A.shape[0]) == 1 then 0 else k)
            == if l.A.shape[0] == 1 then 0 else Pick(x, l.B.shape[0], k)
  {
    OneRow(x);
    if l.A.shape[0] != 1 { assert l.A.shape[0] == l.B.shape[0]; }
  }

  lemma {:induction false} BroadcastFirst(b: nat, batch: seq<nat>, shape: seq<nat>)
    requires |batch| < |shape|
    ensures Broadcast([b] + batch, shape) == [if shape[0] == 1 then 0 else b] + Broadcast(batch, shape[1..])
  {
    assert ([b] + batch)[1..] == batch;
  }

  lemma {:induction false} IntegerTerm(l: Lora, x: Index, p: seq<nat>, j: nat, r: nat)
    requires Valid(l) && x.At? && IndexOk(x, Shape(l)[0]) && GetRows(l, x).Ok?
    requires Constructed(GetRows(l, x).value) && |p| + 1 == |GetRows(l, x).value.B.shape|
    ensures Term(GetRows(l, x).value, p, j, r) == Term(l, [Normal(x.i, l.B.shape[0])] + p, j, r)
  {
    var b := Normal(x.i, l.B.shape[0]);
    var batch := p[..|p| - 1];
    assert ([b] + p)[..|p|] == [b] + batch;
    assert ([b] + p) + [r] == [b] + (p + [r]);
    BroadcastFirst(b, batch, l.A.shape);
    var c := if l.A.shape[0] == 1 then 0 else b;
    assert c == Normal(x.i, l.A.shape[0]);
    hide Normal, Broadcast;
    assert ([c] + Broadcast(batch, l.A.shape[1..])) + [r, j] == [c] + (Broadcast(batch, l.A.shape[1..]) + [r, j]);
  }

  lemma {:induction false} SliceTermB(l: Lora, x: Index, k: nat, p: seq<nat>, r: nat)
    requires Valid(l) && x.Slice? && IndexOk(x, Shape(l)[0])
    ensures Rows(l.B, x).at(([k] + p) + [r]) == l.B.at(([Pick(x, l.B.shape[0], k)] + p) + [r])
  {
    var b := Pick(x, l.B.shape[0], k);
    hide SliceCount, Pick;
    assert ([b] + p) + [r] == [b] + (p + [r]) && (([k] + p) + [r])[1..] == p + [r];
  }

  lemma {:induction false} SliceTermA(l: Lora, x: Index, k: nat, batch: seq<nat>, j: nat, r: nat)
    requires Valid(l) && x.Slice? && IndexOk(x, Shape(l)[0]) && |Shape(l)| > 2 && AxisSurvives(l, x)
    requires IndexOk(x, l.A.shape[0]) && |batch| + 3 == |l.A.shape| && k < SliceCount(x, l.B.shape[0])
    ensures var m, b := Rows(l.A, x), Pick(x, l.B.shape[0], k);
            |m.shape| == |l.A.shape|
            && m.at(Broadcast([k] + batch, m.shape) + [r, j]) == l.A.at(Broadcast([b] + batch, l.A.shape) + [r, j])
  {
    var m, b := Rows(l.A, x), Pick(x, l.B.shape[0], k);
    SameRow(l, x, k);
    hide SliceCount, Pick, AxisSurvives, Valid;
    BroadcastFirst(b, batch, l.A.shape);
    BroadcastFirst(k, batch, m.shape);
    assert m.shape[1..] == l.A.shape[1..];
    hide Broadcast;
    var rest := Broadcast(batch, l.A.shape[1..]);
    var c, d := if m.shape[0] == 1 then 0 else k, if l.A.shape[0] == 1 then 0 else b;
    assert ([c] + rest) + [r, j] == [c] + (rest + [r, j]);
    assert ([d] + rest) + [r, j] == [d] + (rest + [r, j]);
  }

  lemma {:induction false} SliceTerm(l: Lora, x: Index, k: nat, p: seq<nat>, j: nat, r: nat)
    requires Valid(l) && x.Slice? && IndexOk(x, Shape(l)[0]) && |Shape(l)| > 2 && AxisSurvives(l, x)
    requires Constructed(GetRows(l, x).value) && |p| + 2 == |l.B.shape| && k < SliceCount(x, l.B.shape[0])
    ensures Term(GetRows(l, x).value, [k] + p, j, r) == Term(l, [Pick(x, l.B.shape[0], k)] + p, j, r)
  {
    var b, batch := Pick(x, l.B.shape[0], k), p[..|p| - 1];
    hide SliceCount, Pick, AxisSurvives, Broadcast, Rows;
    assert ([b] + p)[..|p|] == [b] + batch && ([k] + p)[..|p|] == [k] + batch;
    SliceTermB(l, x, k, p, r);
    SliceTermA(l, x, k, batch, j, r);
  }

  lemma {:induction false} MatrixTerm(l: Lora, x: Index, k: nat, j: nat, r: nat)
    requires Valid(l) && x.Slice? && IndexOk(x, Shape(l)[0]) && |Shape(l)| == 2
    requires Constructed(GetRows(l, x).value)
    ensures Term(GetRows(l, x).value, [k], j, r) == Term(l, [Pick(x, l.B.shape[0], k)], j, r)
  {
    var b := Pick(x, l.B.shape[0], k);
    assert [b] + [r] == [b] + ([k] + [r])[1..];
    assert [k][..0] == [b][..0] == [];
  }

  lemma {:induction false} RowsEntry(l: Lora, x: Index, idx: seq<nat>)
    requires Valid(l) && IndexOk(x, Shape(l)[0]) && GetRows(l, x).Ok? && AxisSurvives(l, x)
    requires Constructed(GetRows(l, x).value) && Shape(GetRows(l, x).value) == Rows(Product(l), x).shape
    requires InShape(idx, Shape(GetRows(l, x).value))
    ensures Product(GetRows(l, x).value).at(idx) == Rows(Product(l), x).at(idx)
  {
    hide SliceCount, Normal, Pick, Term, AxisSurvives;
    var m, n := GetRows(l, x).value, |idx|;
    var p, j := idx[..n - 1], idx[n - 1];
    if x.At? {
      var q := [Normal(x.i, l.B.shape[0])] + p;
      assert ([Normal(x.i, l.B.shape[0])] + idx)[..n] == q;
      forall r: nat | r < Rank(m) ensures Term(m, p, j, r) == Term(l, q, j, r) { IntegerTerm(l, x, p, j, r); }
      EntryEqual(m, p, l, q, j, j);
    } else {
      var k, rest := idx[0], idx[1..n - 1];
      var q := [Pick(x, l.B.shape[0], k)] + rest;
      assert p == [k] + rest && ([Pick(x, l.B.shape[0], k)] + idx[1..])[..n - 1] == q;
      forall r: nat | r < Rank(m) ensures Term(m, p, j, r) == Term(l, q, j, r) {
        if n == 2 {
          assert rest == [] && p == [k] && q == [Pick(x, l.B.shape[0], k)];
          MatrixTerm(l, x, k, j, r);
        } else {
          SliceTerm(l, x, k, rest, j, r);
        }
      }
      EntryEqual(m, p, l, q, j, j);
    }
  }

  // A bare index commutes with the product whenever the factors stay a well-formed pair.
  lemma {:induction false} GetRowsCommutes(l: Lora, x: Index)
    requires Valid(l) && IndexOk(x, Shape(l)[0]) && GetRows(l, x).Ok? && AxisSurvives(l, x)
    ensures Constructed(GetRows(l, x).value) && Same(Product(GetRows(l, x).value), Rows(Product(l), x))
  {
    hide Rows, GetRows, AxisSurvives, Entry;
    GetRowsShape(l, x);
    forall idx | InShape(idx, Shape(GetRows(l, x).value))
      ensures Product(GetRows(l, x).value).at(idx) == Rows(Product(l), x).at(idx)
    {
      RowsEntry(l, x, idx);
    }
  }

  // Rows 2 and 3 of a batch of 4 that share one matrix A: nothing is left of A.
  lemma {:induction false} SharedFactorLost(l: Lora)
    requires Valid(l) && |Shape(l)| == 3 && l.A.shape[0] == 1 && l.B.shape[0] == 4
    ensures var x := Slice(Some(2), Some(4), 1);
            && GetRows(l, x).Ok? && !Valid(GetRows(l, x).value)
            && GetRows(l, x).value.A.shape[0] == 0 && GetRows(l, x).value.B.shape[0] == 2
  {
    var x := Slice(Some(2), Some(4), 1);
    assert SliceCount(x, 1) == 0;
    assert CeilDiv(2, 1) == 2 && SliceCount(x, 4) == 2;
    hide SliceCount;
    GetRowsShape(l, x);
    SliceValid(l, x);
  }
}
