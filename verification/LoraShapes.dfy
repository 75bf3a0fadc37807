/** When reshape and permute succeed, and on which shapes. */
module LoraShapes {
  import opened Basics
  import opened Lora

  // ---------- reshape ----------

  // The shape as written, `m` wherever -1 stands.
  predicate Filled(newShape: seq<int>, s: seq<nat>, m: nat) {
    |s| == |newShape| && forall k :: 0 <= k < |s| ==> s[k] == if newShape[k] == -1 then m else newShape[k]
  }

  function Unknowns(newShape: seq<int>): nat {
    if newShape == [] then 0 else Unknowns(newShape[..|newShape| - 1]) + if newShape[|newShape| - 1] == -1 then 1 else 0
  }

  // What the shape stands for: one -1 is any number, several are all 1.
  ghost predicate StandsFor(newShape: seq<int>, s: seq<nat>) { exists m: nat :: Filled(newShape, s, m) && (m == 1 || Unknowns(newShape) <= 1) }

  function Power(m: nat, k: nat): nat { if k == 0 then 1 else Power(m, k - 1) * m }

  lemma {:induction false} Unknown(newShape: seq<int>)
    ensures Unknowns(newShape) > 0 <==> -1 in newShape
  {
    if newShape != [] {
      Unknown(newShape[..|newShape| - 1]);
      assert newShape == newShape[..|newShape| - 1] + [newShape[|newShape| - 1]];
    }
  }

  lemma {:induction false} FilledProd(newShape: seq<int>, s: seq<nat>, m: nat)
    requires Filled(newShape, s, m)
    ensures Prod(s) == ProdKnown(newShape) * Power(m, Unknowns(newShape))
  {
    if s != [] {
      var n := |s| - 1;
      FilledProd(newShape[..n], s[..n], m);
      var known, unknown := ProdKnown(newShape[..n]), Power(m, Unknowns(newShape[..n]));
      Times3(known, unknown, s[n]);
    }
  }

  lemma {:induction false} Times3(x: int, y: int, z: int)
    ensures x * y * z == x * (y * z) == x * z * y
  {
  }

  lemma {:induction false} FillInIs(newShape: seq<int>, d: int, k: nat)
    requires k < |newShape|
    ensures FillIn(newShape, d)[k] == if newShape[k] == -1 then d else newShape[k]
  {
    if k > 0 { FillInIs(newShape[1..], d, k - 1); }
  }

  lemma {:induction false} FillInFilled(newShape: seq<int>, s: seq<nat>, m: nat)
    requires Filled(newShape, s, m)
    ensures AllNat(FillIn(newShape, m)) && ToNats(FillIn(newShape, m)) == s
  {
    forall k | 0 <= k < |s| ensures FillIn(newShape, m)[k] == s[k] { FillInIs(newShape, m, k); }
  }

  lemma {:induction false} PowerGrows(m: nat, k: nat)
    requires m >= 1
    ensures Power(m, k) >= 1 && (k >= 1 ==> Power(m, k) >= m) && (k >= 2 && m >= 2 ==> Power(m, k) > m)
  {
    if k > 0 {
      PowerGrows(m, k - 1);
      MulMonotone(m, 1, Power(m, k - 1));
      if k >= 2 && m >= 2 { MulMonotone(m, 2, Power(m, k - 1)); }
    }
  }

  lemma {:induction false} PowerShort(m: nat, k: nat)
    ensures k == 0 ==> Power(m, k) == 1
    ensures k == 1 ==> Power(m, k) == m
    ensures m == 1 ==> Power(m, k) == 1
  {
    if k > 0 { PowerShort(m, k - 1); }
  }

  lemma {:induction false} DividesEvenly(n: nat, known: int, m: nat)
    requires n > 0 && n == known * m
    ensures known > 0 && n % known == 0 && n / known == m
  {
    if known <= 0 { NotPositive(known, m); }
    var q, r := n / known, n % known;
    assert n == known * q + r;
    Quotients(known, m, q, r);
  }

  lemma {:induction false} NotPositive(known: int, m: nat)
    requires known <= 0
    ensures known * m <= 0
  {
  }

  lemma {:induction false} Quotients(d: int, m: int, q: int, r: int)
    requires d > 0 && 0 <= r < d && d * m == d * q + r
    ensures q == m && r == 0
  {
    var e := m - q;
    assert d * e == r;
    if e >= 1 { Scaled(d, 1, e); }
    if e <= -1 { Scaled(d, e, -1); }
  }

  lemma {:induction false} Scaled(d: int, x: int, y: int)
    requires d > 0 && x <= y
    ensures d * x <= d * y
  {
  }

  // The expanded shape, for a shape that stands for some numbers.
  lemma {:induction false} Expands(l: Lora, newShape: seq<int>, s: seq<nat>)
    requires Constructed(l) && StandsFor(newShape, s) && Prod(s) == Prod(Shape(l)) > 0
    ensures ExpandShape(l, newShape).Some? && AllNat(ExpandShape(l, newShape).value) && ToNats(ExpandShape(l, newShape).value) == s
  {
    var m: nat :| Filled(newShape, s, m) && (m == 1 || Unknowns(newShape) <= 1);
    hide Prod, ProdKnown;
    Unknown(newShape);
    FilledProd(newShape, s, m);
    PowerShort(m, Unknowns(newShape));
    if -1 in newShape {
      DividesEvenly(Prod(s), ProdKnown(newShape), m);
      FillInFilled(newShape, s, m);
    } else {
      NatsAre(newShape, s, m);
    }
  }

  lemma {:induction false} NatsAre(newShape: seq<int>, s: seq<nat>, m: nat)
    requires Filled(newShape, s, m) && -1 !in newShape
    ensures AllNat(newShape) && ToNats(newShape) == s
  {
    assert forall k :: 0 <= k < |s| ==> newShape[k] == s[k];
  }

  // Only shapes that stand for numbers with as many elements are expanded and kept.
  lemma {:induction false} Expanded(l: Lora, newShape: seq<int>)
    requires Constructed(l) && ExpandShape(l, newShape).Some? && AllNat(ExpandShape(l, newShape).value)
    requires Prod(ToNats(ExpandShape(l, newShape).value)) == Prod(Shape(l)) > 0
    ensures StandsFor(newShape, ToNats(ExpandShape(l, newShape).value))
  {
    var n, known := Prod(Shape(l)), ProdKnown(newShape);
    hide Prod, ProdKnown, Shape, FillIn, ToNats, Unknowns;
    var s := ToNats(ExpandShape(l, newShape).value);
    if -1 in newShape {
      EvenlyDivided(n, known);
      FilledOut(newShape, n, known, n / known, s);
    } else {
      Unknown(newShape);
      assert Filled(newShape, s, 0);
    }
  }

  lemma {:induction false} EvenlyDivided(n: nat, known: int)
    requires known != 0 && n % known == 0
    ensures n == known * (n / known)
  {
  }

  lemma {:induction false} FilledOut(newShape: seq<int>, n: nat, known: int, m: int, s: seq<nat>)
    requires -1 in newShape && known == ProdKnown(newShape) && n == known * m && AllNat(FillIn(newShape, m)) && s == ToNats(FillIn(newShape, m))
    requires Prod(s) == n > 0
    ensures StandsFor(newShape, s)
  {
    hide Prod, ProdKnown, Unknowns;
    var i :| 0 <= i < |newShape| && newShape[i] == -1;
    FillInIs(newShape, m, i);
    forall k | 0 <= k < |s| ensures s[k] == if newShape[k] == -1 then m else newShape[k] { FillInIs(newShape, m, k); }
    hide FillIn, ToNats;
    assert Filled(newShape, s, m);
    FilledProd(newShape, s, m);
    if Unknowns(newShape) >= 2 { OnesOnly(n, known, m, Unknowns(newShape)); }
  }

  lemma {:induction false} OnesOnly(n: nat, known: int, m: nat, k: nat)
    requires n > 0 && n == known * m == known * Power(m, k) && k >= 2
    ensures m == 1
  {
    DividesEvenly(n, known, m);
    DividesEvenly(n, known, Power(m, k));
    PowerGrows(m, k);
  }

  // The numbers of elements of the factors under the new shape.
  lemma {:induction false} ElementsMatch(l: Lora, s: seq<nat>)
    requires Constructed(l) && |s| >= 2 && Rank(l) >= 1 && s[|s| - 1] == l.A.shape[|l.A.shape| - 1] >= 1
    ensures Prod(s[..|s| - 1] + [Rank(l)]) == Prod(l.B.shape) <==> Prod(s) == Prod(Shape(l))
  {
    hide Prod;
    var rank, d, n := Rank(l), s[|s| - 1], |l.B.shape|;
    var lead, rows := s[..|s| - 1], l.B.shape[..n - 1];
    assert s == lead + [d] && l.B.shape == rows + [rank];
    ProdSnoc(lead, d);
    ProdSnoc(rows, d);
    ProdSnoc(lead, rank);
    ProdSnoc(rows, rank);
    SameFactor(Prod(lead), Prod(rows), rank);
    SameFactor(Prod(lead), Prod(rows), d);
  }

  lemma {:induction false} SameFactor(x: nat, y: nat, c: nat)
    requires c >= 1
    ensures x * c == y * c <==> x == y
  {
    if x < y { MulMonotone(c, x + 1, y); }
    if y < x { MulMonotone(c, y + 1, x); }
  }

  lemma {:induction false} OnesKept(l: Lora, n: nat)
    requires Constructed(l) && BatchOfOnes(l)
    ensures Prod(Ones(n) + [Rank(l), l.A.shape[|l.A.shape| - 1]]) == Prod(l.A.shape)
  {
    hide Prod;
    var rank, d, k := Rank(l), l.A.shape[|l.A.shape| - 1], |l.A.shape| - 2;
    assert l.A.shape[..k] == Ones(k);
    LastTwo(l.A.shape);
    assert Ones(n) + [rank] + [d] == Ones(n) + [rank, d];
    ProdOnes(n);
    ProdOnes(k);
    ProdSnoc(Ones(n), rank);
    ProdSnoc(Ones(n) + [rank], d);
    ProdSnoc(Ones(k), rank);
    ProdSnoc(Ones(k) + [rank], d);
  }

  // A shape that stands for `s`, with the same row length and as many elements.
  ghost predicate Suits(l: Lora, newShape: seq<int>, s: seq<nat>)
    requires Constructed(l)
  {
    StandsFor(newShape, s) && s != [] && s[|s| - 1] == l.A.shape[|l.A.shape| - 1] && Prod(s) == Prod(Shape(l))
  }

  lemma {:induction false} RowsNotEmpty(l: Lora)
    requires Constructed(l) && Prod(Shape(l)) > 0
    ensures l.A.shape[|l.A.shape| - 1] >= 1
  {
    ProdSnoc(l.B.shape[..|l.B.shape| - 1], l.A.shape[|l.A.shape| - 1]);
  }

  // The new shape keeps the rows and the number of elements of both factors.
  predicate Fits(l: Lora, s: seq<nat>)
    requires Constructed(l)
  {
    && |s| >= 2 && s[|s| - 1] == l.A.shape[|l.A.shape| - 1]
    && Prod(Ones(|s| - 2) + [Rank(l), s[|s| - 1]]) == Prod(l.A.shape) && Prod(s[..|s| - 1] + [Rank(l)]) == Prod(l.B.shape)
  }

  lemma {:induction false} ReshapeCases(l: Lora, newShape: seq<int>)
    requires Constructed(l)
    ensures Reshape(l, newShape).Ok?
            <==> |newShape| >= 2 && ExpandShape(l, newShape).Some? && AllNat(ExpandShape(l, newShape).value) && Fits(l, ToNats(ExpandShape(l, newShape).value))
    ensures Reshape(l, newShape).Ok? ==>
              var s, m := ToNats(ExpandShape(l, newShape).value), Reshape(l, newShape).value;
              m.A.shape == Ones(|s| - 2) + [Rank(l), s[|s| - 1]] && m.B.shape == s[..|s| - 1] + [Rank(l)]
  {
    hide Prod, ExpandShape, ToNats, Ones;
  }

  lemma {:induction false} ReshapeFits(l: Lora, newShape: seq<int>)
    requires Constructed(l) && Rank(l) >= 1 && Prod(Shape(l)) > 0 && Reshape(l, newShape).Ok?
    ensures |newShape| >= 2 && BatchOfOnes(l) && Suits(l, newShape, ToNats(ExpandShape(l, newShape).value))
  {
    RowsNotEmpty(l);
    ReshapeNeedsOnes(l, newShape);
    ReshapeCases(l, newShape);
    hide Prod, ExpandShape, ToNats, Reshape, StandsFor, BatchOfOnes, Ones;
    ElementsMatch(l, ToNats(ExpandShape(l, newShape).value));
    Expanded(l, newShape);
  }

  lemma {:induction false} SuitsReshaped(l: Lora, newShape: seq<int>, s: seq<nat>)
    requires Constructed(l) && Rank(l) >= 1 && Prod(Shape(l)) > 0 && |newShape| >= 2 && BatchOfOnes(l) && Suits(l, newShape, s)
    ensures Reshape(l, newShape).Ok? && Constructed(Reshape(l, newShape).value) && Shape(Reshape(l, newShape).value) == s
  {
    RowsNotEmpty(l);
    Expands(l, newShape, s);
    ReshapeCases(l, newShape);
    hide Prod, ExpandShape, ToNats, Reshape, StandsFor, BatchOfOnes;
    assert |s| == |newShape|;
    ElementsMatch(l, s);
    OnesKept(l, |s| - 2);
    assert s == s[..|s| - 1] + [s[|s| - 1]];
  }

  // Main result for reshape: it succeeds exactly when A has no real batch axes and the shape, with at least
  // two axes, stands for one with the same row length and as many elements; and then it has that shape.
  lemma {:induction false} ReshapeSucceeds(l: Lora, newShape: seq<int>)
    requires Constructed(l) && Rank(l) >= 1 && Prod(Shape(l)) > 0
    ensures Reshape(l, newShape).Ok? <==> |newShape| >= 2 && BatchOfOnes(l) && exists s :: Suits(l, newShape, s)
    ensures Reshape(l, newShape).Ok? ==> forall s :: Suits(l, newShape, s) ==> Constructed(Reshape(l, newShape).value) && Shape(Reshape(l, newShape).value) == s
  {
    hide Prod, ExpandShape, ToNats, Reshape, Suits, BatchOfOnes;
    if Reshape(l, newShape).Ok? { ReshapeFits(l, newShape); }
    forall s | |newShape| >= 2 && BatchOfOnes(l) && Suits(l, newShape, s)
      ensures Reshape(l, newShape).Ok? && Constructed(Reshape(l, newShape).value) && Shape(Reshape(l, newShape).value) == s
    {
      SuitsReshaped(l, newShape, s);
    }
  }

  // ---------- permute ----------

  // The axes as written stand for these: negative ones count from the end.
  predicate AxesAre(dims: seq<int>, p: seq<nat>) {
    |dims| == |p| && forall k :: 0 <= k < |p| ==> p[k] < |p| && (dims[k] == p[k] || dims[k] == p[k] - |p|)
  }

  lemma {:induction false} AxesExact(dims: seq<int>, n: nat, p: seq<nat>)
    ensures Axes(dims, n) == Some(p) <==> |p| == n && AxesAre(dims, p) && IsPermutation(p)
  {
    if |dims| == n && forall k :: 0 <= k < n ==> 0 <= dims[k] + n && dims[k] < n {
      var d: seq<nat> := seq(n, k requires 0 <= k < n => if dims[k] < 0 then dims[k] + n else dims[k]);
      if AxesAre(dims, p) { assert d == p; }
      if d == p { assert AxesAre(dims, p); }
    }
  }

  // Main result for permute: it succeeds exactly on a permutation of the axes that keeps the last one while
  // A has no real batch axes, or swaps the two axes of a matrix; and then the product is permuted that way.
  lemma {:induction false} PermuteSucceeds(l: Lora, dims: seq<int>)
    requires Constructed(l)
    ensures Permute(l, dims).Ok? <==> exists p :: Permutes(l, dims, p)
    ensures forall p :: Permutes(l, dims, p) ==> Valid(Permute(l, dims).value) && Same(Product(Permute(l, dims).value), PermuteTensor(Product(l), p))
  {
    var n := |l.B.shape|;
    if Permute(l, dims).Ok? {
      var p := Axes(dims, n).value;
      AxesExact(dims, n, p);
      assert Permutes(l, dims, p);
    }
    forall p | Permutes(l, dims, p)
      ensures Permute(l, dims).Ok? && Valid(Permute(l, dims).value) && Same(Product(Permute(l, dims).value), PermuteTensor(Product(l), p))
    {
      AxesExact(dims, n, p);
      PermuteCommutes(l, dims);
    }
  }

  ghost predicate Permutes(l: Lora, dims: seq<int>, p: seq<nat>)
    requires Constructed(l)
  {
    var n := |l.B.shape|;
    |p| == n && AxesAre(dims, p) && IsPermutation(p) && ((p[n - 1] == n - 1 && BatchOfOnes(l)) || p == [1, 0])
  }
}
