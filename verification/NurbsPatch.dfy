/** Evaluation of a rational B-spline patch given by homogeneous control points. */
module NurbsPatch {
  import opened Common
  import opened RowMajor
  import opened Nurbs
  import opened NurbsEval
  import opened Quotients

  datatype Vec4 = Vec4(x: real, y: real, z: real, w: real)
  datatype Channel = X | Y | Z | W

  function At(v: Vec4, c: Channel): real {
    match c
    case X => v.x
    case Y => v.y
    case Z => v.z
    case W => v.w
  }

  datatype Patch = Patch(
    nu: int, uorder: int, uknots: seq<real>,
    nv: int, vorder: int, vknots: seq<real>,
    ctrl: seq<Vec4>)
  {
    ghost predicate Valid() {
      && ValidKnots(uknots, nu, uorder) && ValidKnots(vknots, nv, vorder)
      && uorder <= nu && vorder <= nv && |ctrl| == nv * nu
    }
  }

  /** One coordinate of the control point in a row and column; zero outside the grid. */
  ghost function Ctrl(p: Patch, row: int, col: int, c: Channel): real
    requires p.Valid()
  {
    if 0 <= row < p.nv && 0 <= col < p.nu then IdxBounds(p.nu, p.nv, col, row); At(p.ctrl[Idx(p.nu, col, row)], c)
    else 0.0
  }

  /** The values that the basis functions brk, brk-1, .. weigh. */
  ghost function Window(f: int -> real, brk: int, k: nat): (xs: seq<real>)
    ensures |xs| == k
  {
    seq(k, s requires 0 <= s < k => f(brk - s))
  }

  ghost function RowWindow(p: Patch, row: int, ubrk: int, k: nat, c: Channel): (xs: seq<real>)
    requires p.Valid()
    ensures |xs| == k
  {
    Window(col => Ctrl(p, row, col, c), ubrk, k)
  }

  ghost function RowSum(p: Patch, row: int, ubrk: int, bu: seq<real>, c: Channel): real
    requires p.Valid()
  {
    Dot(bu, RowWindow(p, row, ubrk, |bu|, c))
  }

  ghost function ColWindow(p: Patch, ubrk: int, vbrk: int, bu: seq<real>, k: nat, c: Channel): (xs: seq<real>)
    requires p.Valid()
    ensures |xs| == k
  {
    Window(row => RowSum(p, row, ubrk, bu, c), vbrk, k)
  }

  lemma ColWindowAt(p: Patch, ubrk: int, vbrk: int, bu: seq<real>, k: nat, c: Channel, t: nat)
    requires p.Valid() && t < k
    ensures ColWindow(p, ubrk, vbrk, bu, k, c)[t] == RowSum(p, vbrk - t, ubrk, bu, c)
  {
  }

  /** The tensor product sum over the window of control points. */
  ghost function PatchSum(p: Patch, ubrk: int, vbrk: int, bu: seq<real>, bv: seq<real>, c: Channel): real
    requires p.Valid()
  {
    Dot(bv, ColWindow(p, ubrk, vbrk, bu, |bv|, c))
  }

  // ---------- the window sum is the whole definition ----------

  /** The defining sum over the first i points: recursive basis function times value. */
  ghost function BasisSum(f: int -> real, kv: seq<real>, k: int, u: real, i: nat): real
    requires 1 <= k && i + k <= |kv|
  {
    if i == 0 then 0.0 else BasisSum(f, kv, k, u, i - 1) + Mul(EvalBase(kv, i - 1, k - 1, u), f(i - 1))
  }

  /** The same sum with the polynomials that the basis functions are on the interval at brk. */
  ghost function PieceSum(f: int -> real, kv: seq<real>, k: int, u: real, brk: int, i: nat): real
    requires 1 <= k && i + k <= |kv|
  {
    if i == 0 then 0.0 else PieceSum(f, kv, k, u, brk, i - 1) + Mul(PieceBase(kv, i - 1, k - 1, u, brk), f(i - 1))
  }

  lemma {:induction false} PieceSumIsBasisSum(f: int -> real, kv: seq<real>, k: int, u: real, brk: int, i: nat)
    requires Segment(kv, u, brk, k) && u < kv[brk + 1] && i + k <= |kv|
    ensures PieceSum(f, kv, k, u, brk, i) == BasisSum(f, kv, k, u, i)
  {
    if i > 0 {
      PieceSumIsBasisSum(f, kv, k, u, brk, i - 1);
      PieceIsBase(kv, i - 1, k - 1, u, brk);
    }
  }

  /** The points before the window add nothing. */
  lemma {:induction false} PieceSumBefore(f: int -> real, kv: seq<real>, k: int, u: real, brk: int, i: nat)
    requires Segment(kv, u, brk, k) && i + k <= |kv| && i <= brk - k + 1
    ensures PieceSum(f, kv, k, u, brk, i) == 0.0
  {
    if i > 0 {
      PieceSumBefore(f, kv, k, u, brk, i - 1);
      PieceIsLocal(kv, i - 1, k - 1, u, brk);
      MulZero(f(i - 1));
    }
  }

  /** Inside the window the sum is the weighted sum of the entries visited so far, the last ones of the row. */
  lemma {:induction false} PieceSumWithin(f: int -> real, kv: seq<real>, k: int, u: real, brk: int, i: nat)
    requires Segment(kv, u, brk, k) && k - 1 <= brk && brk + k < |kv| && brk - k + 1 <= i <= brk + 1
    ensures PieceSum(f, kv, k, u, brk, i) == Dot(Row(kv, u, brk, k)[brk - i + 1..], Window(f, brk, k)[brk - i + 1..])
  {
    var b, xs := Row(kv, u, brk, k), Window(f, brk, k);
    if i == brk - k + 1 {
      PieceSumBefore(f, kv, k, u, brk, i);
      assert b[k..] == [] && xs[k..] == [];
    } else {
      var s := brk - i + 1;
      PieceSumWithin(f, kv, k, u, brk, i - 1);
      RowIsPiece(kv, u, brk, k, s);
      DotSuffix(b, xs, s);
    }
  }

  lemma DotSuffix(b: seq<real>, xs: seq<real>, s: nat)
    requires |b| == |xs| && s < |b|
    ensures Dot(b[s..], xs[s..]) == Mul(b[s], xs[s]) + Dot(b[s + 1..], xs[s + 1..])
  {
    assert b[s..][1..] == b[s + 1..] && xs[s..][1..] == xs[s + 1..];
  }

  /** The points after the window add nothing. */
  lemma {:induction false} PieceSumAfter(f: int -> real, kv: seq<real>, k: int, u: real, brk: int, i: nat)
    requires Segment(kv, u, brk, k) && brk + 1 <= i && i + k <= |kv|
    ensures PieceSum(f, kv, k, u, brk, i) == PieceSum(f, kv, k, u, brk, brk + 1)
  {
    if i > brk + 1 {
      PieceSumAfter(f, kv, k, u, brk, i - 1);
      PieceIsLocal(kv, i - 1, k - 1, u, brk);
      MulZero(f(i - 1));
    }
  }

  /** Evaluating only the k functions around u is evaluating all n of them, at both ends of the interval too. */
  lemma WindowIsPiece(f: int -> real, kv: seq<real>, n: int, k: int, u: real, brk: int)
    requires ValidKnots(kv, n, k) && k - 1 <= brk <= n - 1 && Segment(kv, u, brk, k)
    ensures Dot(Row(kv, u, brk, k), Window(f, brk, k)) == PieceSum(f, kv, k, u, brk, n)
  {
    var b, xs := Row(kv, u, brk, k), Window(f, brk, k);
    PieceSumWithin(f, kv, k, u, brk, brk + 1);
    PieceSumAfter(f, kv, k, u, brk, n);
    assert b[0..] == b && xs[0..] == xs;
  }

  /** On the half-open interval those are the recursive basis functions. */
  lemma WindowIsAll(f: int -> real, kv: seq<real>, n: int, k: int, u: real, brk: int)
    requires ValidKnots(kv, n, k) && k - 1 <= brk <= n - 1 && Segment(kv, u, brk, k) && u < kv[brk + 1]
    ensures Dot(Row(kv, u, brk, k), Window(f, brk, k)) == BasisSum(f, kv, k, u, n)
  {
    WindowIsPiece(f, kv, n, k, u, brk);
    PieceSumIsBasisSum(f, kv, k, u, brk, n);
  }

  /** The positions in the knot vectors where a point is evaluated. */
  ghost predicate EvaluatedAt(p: Patch, u: real, v: real, ubrk: int, vbrk: int) {
    && p.Valid()
    && p.uorder - 1 <= ubrk < p.nu && Segment(p.uknots, u, ubrk, p.uorder)
    && p.vorder - 1 <= vbrk < p.nv && Segment(p.vknots, v, vbrk, p.vorder)
  }

  /** The definition of the homogeneous surface: the sum over every control point of the patch. */
  ghost function Surface(p: Patch, u: real, v: real, c: Channel): real
    requires p.Valid()
  {
    BasisSum(row => BasisSum(col => Ctrl(p, row, col, c), p.uknots, p.uorder, u, p.nu), p.vknots, p.vorder, v, p.nv)
  }

  /** The polynomial piece of it on two knot intervals, both their ends included. */
  ghost function Piece(p: Patch, u: real, v: real, ubrk: int, vbrk: int, c: Channel): real
    requires p.Valid()
  {
    PieceSum(row => PieceSum(col => Ctrl(p, row, col, c), p.uknots, p.uorder, u, ubrk, p.nu),
             p.vknots, p.vorder, v, vbrk, p.nv)
  }

  lemma PatchSumIsPiece(p: Patch, u: real, v: real, ubrk: int, vbrk: int, c: Channel)
    requires EvaluatedAt(p, u, v, ubrk, vbrk)
    ensures PatchSum(p, ubrk, vbrk, Row(p.uknots, u, ubrk, p.uorder), Row(p.vknots, v, vbrk, p.vorder), c)
         == Piece(p, u, v, ubrk, vbrk, c)
  {
    var bu := Row(p.uknots, u, ubrk, p.uorder);
    var f := row => PieceSum(col => Ctrl(p, row, col, c), p.uknots, p.uorder, u, ubrk, p.nu);
    var g := row => RowSum(p, row, ubrk, bu, c);
    forall row: int
      ensures f(row) == g(row)
    {
      WindowIsPiece(col => Ctrl(p, row, col, c), p.uknots, p.nu, p.uorder, u, ubrk);
    }
    WindowIsPiece(f, p.vknots, p.nv, p.vorder, v, vbrk);
    assert Window(f, vbrk, p.vorder) == Window(g, vbrk, p.vorder);
  }

  lemma PatchSumIsSurface(p: Patch, u: real, v: real, ubrk: int, vbrk: int, c: Channel)
    requires EvaluatedAt(p, u, v, ubrk, vbrk) && u < p.uknots[ubrk + 1] && v < p.vknots[vbrk + 1]
    ensures PatchSum(p, ubrk, vbrk, Row(p.uknots, u, ubrk, p.uorder), Row(p.vknots, v, vbrk, p.vorder), c)
         == Surface(p, u, v, c)
  {
    var bu := Row(p.uknots, u, ubrk, p.uorder);
    var f := row => BasisSum(col => Ctrl(p, row, col, c), p.uknots, p.uorder, u, p.nu);
    var g := row => RowSum(p, row, ubrk, bu, c);
    forall row: int
      ensures f(row) == g(row)
    {
      WindowIsAll(col => Ctrl(p, row, col, c), p.uknots, p.nu, p.uorder, u, ubrk);
    }
    WindowIsAll(f, p.vknots, p.nv, p.vorder, v, vbrk);
    assert Window(f, vbrk, p.vorder) == Window(g, vbrk, p.vorder);
  }

  // ---------- convex hull ----------

  /** Every control point of the window has a positive weight and a projected coordinate in [lo, hi]. */
  ghost predicate WindowWithin(p: Patch, ubrk: int, vbrk: int, c: Channel, lo: real, hi: real)
    requires p.Valid()
  {
    forall row, col :: vbrk - p.vorder < row <= vbrk && ubrk - p.uorder < col <= ubrk ==>
      && Ctrl(p, row, col, W) > 0.0
      && Mul(lo, Ctrl(p, row, col, W)) <= Ctrl(p, row, col, c) <= Mul(hi, Ctrl(p, row, col, W))
  }

  /** The weight w is positive and the projection of x by it lies in [lo, hi]. */
  predicate Within(x: real, w: real, lo: real, hi: real) { w > 0.0 && Mul(lo, w) <= x <= Mul(hi, w) }

  lemma RowWithin(p: Patch, row: int, ubrk: int, vbrk: int, bu: seq<real>, c: Channel, lo: real, hi: real)
    requires p.Valid() && WindowWithin(p, ubrk, vbrk, c, lo, hi) && vbrk - p.vorder < row <= vbrk
    requires |bu| == p.uorder && NonNegative(bu) && Sum(bu) == 1.0
    ensures Within(RowSum(p, row, ubrk, bu, c), RowSum(p, row, ubrk, bu, W), lo, hi)
  {
    var xs := RowWindow(p, row, ubrk, |bu|, c);
    var ws := RowWindow(p, row, ubrk, |bu|, W);
    DotBounds(bu, xs, ws, lo, hi);
    PositiveEntry(bu);
    DotPositive(bu, ws);
  }

  lemma ColumnWithin(p: Patch, ubrk: int, vbrk: int, bu: seq<real>, k: nat, t: nat, c: Channel, lo: real, hi: real)
    requires p.Valid() && WindowWithin(p, ubrk, vbrk, c, lo, hi) && t < k == p.vorder
    requires |bu| == p.uorder && NonNegative(bu) && Sum(bu) == 1.0
    ensures Within(ColWindow(p, ubrk, vbrk, bu, k, c)[t], ColWindow(p, ubrk, vbrk, bu, k, W)[t], lo, hi)
  {
    ColWindowAt(p, ubrk, vbrk, bu, k, c, t);
    ColWindowAt(p, ubrk, vbrk, bu, k, W, t);
    RowWithin(p, vbrk - t, ubrk, vbrk, bu, c, lo, hi);
  }

  lemma QuotientBounds(x: real, w: real, lo: real, hi: real)
    requires w > 0.0 && Mul(lo, w) <= x <= Mul(hi, w)
    ensures lo <= x / w <= hi
  {
    var q := x / w;
    assert Mul(q, w) == x;
    MulDifference(w, q, lo);
    MulDifference(w, hi, q);
    PositiveFactor(q - lo, w);
    PositiveFactor(hi - q, w);
  }

  /** Convex hull for any nonnegative weights that sum to one. */
  lemma CombinationInHull(p: Patch, ubrk: int, vbrk: int, bu: seq<real>, bv: seq<real>, c: Channel, lo: real, hi: real)
    requires p.Valid() && WindowWithin(p, ubrk, vbrk, c, lo, hi)
    requires |bu| == p.uorder && NonNegative(bu) && Sum(bu) == 1.0
    requires |bv| == p.vorder && NonNegative(bv) && Sum(bv) == 1.0
    ensures PatchSum(p, ubrk, vbrk, bu, bv, W) > 0.0
    ensures lo <= PatchSum(p, ubrk, vbrk, bu, bv, c) / PatchSum(p, ubrk, vbrk, bu, bv, W) <= hi
  {
    var xs := ColWindow(p, ubrk, vbrk, bu, |bv|, c);
    var ws := ColWindow(p, ubrk, vbrk, bu, |bv|, W);
    forall t | 0 <= t < |bv|
      ensures Within(xs[t], ws[t], lo, hi)
    {
      ColumnWithin(p, ubrk, vbrk, bu, |bv|, t, c, lo, hi);
    }
    BoundedQuotient(bv, xs, ws, lo, hi);
  }

  lemma BoundedQuotient(b: seq<real>, xs: seq<real>, ws: seq<real>, lo: real, hi: real)
    requires |b| == |xs| == |ws| && NonNegative(b) && Sum(b) == 1.0
    requires forall t :: 0 <= t < |b| ==> Within(xs[t], ws[t], lo, hi)
    ensures Dot(b, ws) > 0.0 && lo <= Dot(b, xs) / Dot(b, ws) <= hi
  {
    DotBounds(b, xs, ws, lo, hi);
    PositiveEntry(b);
    DotPositive(b, ws);
    QuotientBounds(Dot(b, xs), Dot(b, ws), lo, hi);
  }

  /**
   * Convex hull: with positive weights every evaluated coordinate lies between the least and the greatest
   * projected coordinate of the uorder * vorder control points used, and the denominator is positive.
   */
  lemma PatchInHull(p: Patch, u: real, v: real, ubrk: int, vbrk: int, c: Channel, lo: real, hi: real)
    requires p.Valid() && Segment(p.uknots, u, ubrk, p.uorder) && Segment(p.vknots, v, vbrk, p.vorder)
    requires WindowWithin(p, ubrk, vbrk, c, lo, hi)
    ensures var bu, bv := Row(p.uknots, u, ubrk, p.uorder), Row(p.vknots, v, vbrk, p.vorder);
            && PatchSum(p, ubrk, vbrk, bu, bv, W) > 0.0
            && lo <= PatchSum(p, ubrk, vbrk, bu, bv, c) / PatchSum(p, ubrk, vbrk, bu, bv, W) <= hi
  {
    BasisIsConvex(p.uknots, u, ubrk, p.uorder);
    BasisIsConvex(p.vknots, v, vbrk, p.vorder);
    CombinationInHull(p, ubrk, vbrk, Row(p.uknots, u, ubrk, p.uorder), Row(p.vknots, v, vbrk, p.vorder), c, lo, hi);
  }

  // ---------- the evaluation loops ----------

  function Accumulate(r: Vec4, p: Vec4, tensor: real): (q: Vec4)
    ensures forall c :: At(q, c) == At(r, c) + Mul(At(p, c), tensor)
  {
    Vec4(r.x + Mul(p.x, tensor), r.y + Mul(p.y, tensor), r.z + Mul(p.z, tensor), r.w + Mul(p.w, tensor))
  }

  /** One turn of the inner loop on one coordinate. */
  lemma TurnAdds(b: seq<real>, xs: seq<real>, s: nat, weight: real)
    requires |b| == |xs| && s < |b|
    ensures Mul(weight, Dot(b[s..], xs[s..])) == Mul(weight, Dot(b[s + 1..], xs[s + 1..]))
            + Mul(xs[s], Mul(b[s], weight))
  {
    DotSuffix(b, xs, s);
    var d, x, y := Dot(b[s + 1..], xs[s + 1..]), b[s], xs[s];
    MulSum(weight, Mul(x, y), d);
    MulSwap(weight, x, y);
    MulAssoc(y, x, weight);
    assert Mul(x, Mul(weight, y)) == Mul(y, Mul(x, weight));
  }

  /** The inner loop: one row of control points. */
  method AddRow(p: Patch, row: int, idx: int, ubrk: int, bu: seq<real>, weight: real, r0: Vec4) returns (r: Vec4)
    requires p.Valid() && |bu| == p.uorder && p.uorder - 1 <= ubrk < p.nu && 0 <= row < p.nv
    requires idx == Idx(p.nu, ubrk - p.uorder + 1, row)
    ensures forall c :: At(r, c) == At(r0, c) + Mul(weight, RowSum(p, row, ubrk, bu, c))
  {
    r := r0;
    var k := p.uorder;
    assert forall c :: At(r, c) == At(r0, c) + Mul(weight, Dot(bu[k - 0..], RowWindow(p, row, ubrk, k, c)[k - 0..]));
    for j := 0 to k
      invariant forall c ::
                  At(r, c) == At(r0, c) + Mul(weight, Dot(bu[k - j..], RowWindow(p, row, ubrk, k, c)[k - j..]))
    {
      var rj := k - 1 - j;
      IdxBounds(p.nu, p.nv, ubrk - rj, row);
      var tensor := Mul(bu[rj], weight);
      var next := Accumulate(r, p.ctrl[idx + j], tensor);
      forall c: Channel
        ensures At(next, c) == At(r0, c) + Mul(weight, Dot(bu[rj..], RowWindow(p, row, ubrk, k, c)[rj..]))
      {
        var xs := RowWindow(p, row, ubrk, k, c);
        TurnAdds(bu, xs, rj, weight);
        assert xs[rj] == At(p.ctrl[idx + j], c);
        assert At(next, c) == At(r, c) + Mul(At(p.ctrl[idx + j], c), tensor);
      }
      r := next;
    }
    forall c: Channel
      ensures At(r, c) == At(r0, c) + Mul(weight, RowSum(p, row, ubrk, bu, c))
    {
      var xs := RowWindow(p, row, ubrk, k, c);
      assert bu[0..] == bu && xs[0..] == xs;
    }
  }

  /** All components of r are tensor product sums. */
  ghost predicate AllSums(r: Vec4, p: Patch, ubrk: int, vbrk: int, bu: seq<real>, bv: seq<real>)
    requires p.Valid()
  {
    forall c :: At(r, c) == PatchSum(p, ubrk, vbrk, bu, bv, c)
  }

  /** The sums over the rows of the window from s on. */
  ghost predicate PartSums(r: Vec4, p: Patch, ubrk: int, vbrk: int, bu: seq<real>, bv: seq<real>, s: int)
    requires p.Valid() && 0 <= s <= |bv|
  {
    forall c :: At(r, c) == Dot(bv[s..], ColWindow(p, ubrk, vbrk, bu, |bv|, c)[s..])
  }

  lemma PartSumsNext(r: Vec4, p: Patch, ubrk: int, vbrk: int, bu: seq<real>, bv: seq<real>, s: int, next: Vec4)
    requires p.Valid() && 0 <= s < |bv| && PartSums(r, p, ubrk, vbrk, bu, bv, s + 1)
    requires forall c :: At(next, c) == At(r, c) + Mul(bv[s], RowSum(p, vbrk - s, ubrk, bu, c))
    ensures PartSums(next, p, ubrk, vbrk, bu, bv, s)
  {
    forall c: Channel
      ensures At(next, c) == Dot(bv[s..], ColWindow(p, ubrk, vbrk, bu, |bv|, c)[s..])
    {
      DotSuffix(bv, ColWindow(p, ubrk, vbrk, bu, |bv|, c), s);
      ColWindowAt(p, ubrk, vbrk, bu, |bv|, c, s);
      assert At(next, c) == At(r, c) + Mul(bv[s], RowSum(p, vbrk - s, ubrk, bu, c));
    }
  }

  lemma AllPartSums(r: Vec4, p: Patch, ubrk: int, vbrk: int, bu: seq<real>, bv: seq<real>)
    requires p.Valid() && PartSums(r, p, ubrk, vbrk, bu, bv, 0)
    ensures AllSums(r, p, ubrk, vbrk, bu, bv)
  {
    forall c: Channel
      ensures At(r, c) == PatchSum(p, ubrk, vbrk, bu, bv, c)
    {
      var xs := ColWindow(p, ubrk, vbrk, bu, |bv|, c);
      assert bv[0..] == bv && xs[0..] == xs;
    }
  }

  /** One turn of the outer loop: row s of the window, counted from the last. */
  method NextRow(p: Patch, ubrk: int, vbrk: int, bu: seq<real>, bv: seq<real>, s: int, idx: int, r: Vec4)
    returns (next: Vec4)
    requires p.Valid() && |bu| == p.uorder && |bv| == p.vorder && 0 <= s < |bv|
    requires p.uorder - 1 <= ubrk < p.nu && p.vorder - 1 <= vbrk < p.nv
    requires idx == Idx(p.nu, ubrk - p.uorder + 1, vbrk - s) && PartSums(r, p, ubrk, vbrk, bu, bv, s + 1)
    ensures PartSums(next, p, ubrk, vbrk, bu, bv, s)
  {
    next := AddRow(p, vbrk - s, idx, ubrk, bu, bv[s], r);
    PartSumsNext(r, p, ubrk, vbrk, bu, bv, s, next);
  }

  /** The two loops over the window of control points. */
  method TensorSum(p: Patch, ubrk: int, vbrk: int, bu: seq<real>, bv: seq<real>) returns (r: Vec4)
    requires p.Valid() && |bu| == p.uorder && |bv| == p.vorder
    requires p.uorder - 1 <= ubrk < p.nu && p.vorder - 1 <= vbrk < p.nv
    ensures AllSums(r, p, ubrk, vbrk, bu, bv)
  {
    r := Vec4(0.0, 0.0, 0.0, 0.0);
    var k := p.vorder;
    var idx := Idx(p.nu, ubrk - p.uorder + 1, vbrk - k + 1);
    for i := 0 to k
      invariant idx == Idx(p.nu, ubrk - p.uorder + 1, vbrk - k + 1 + i)
      invariant PartSums(r, p, ubrk, vbrk, bu, bv, k - i)
    {
      r := NextRow(p, ubrk, vbrk, bu, bv, k - 1 - i, idx, r);
      assert RowStart(p.nu, vbrk - k + 1 + i) + p.nu == RowStart(p.nu, vbrk - k + 1 + i + 1);
      idx := idx + p.nu;
    }
    AllPartSums(r, p, ubrk, vbrk, bu, bv);
  }

  // ---------- points and tangents ----------

  lemma {:induction false} DotScaleLeft(c: real, b: seq<real>, xs: seq<real>)
    requires |b| == |xs|
    ensures Dot(Scale(c, b), xs) == Mul(c, Dot(b, xs))
  {
    if b != [] {
      DotScaleLeft(c, b[1..], xs[1..]);
      assert Scale(c, b)[1..] == Scale(c, b[1..]);
      var x, d := Mul(b[0], xs[0]), Dot(b[1..], xs[1..]);
      MulAssoc(c, b[0], xs[0]);
      MulSum(c, x, d);
    } else {
      MulZero(c);
    }
  }

  lemma {:induction false} DotScaleRight(c: real, b: seq<real>, xs: seq<real>)
    requires |b| == |xs|
    ensures Dot(b, Scale(c, xs)) == Mul(c, Dot(b, xs))
  {
    if b != [] {
      DotScaleRight(c, b[1..], xs[1..]);
      assert Scale(c, xs)[1..] == Scale(c, xs[1..]);
      var x, d := Mul(b[0], xs[0]), Dot(b[1..], xs[1..]);
      MulSwap(b[0], c, xs[0]);
      MulSum(c, x, d);
    } else {
      MulZero(c);
    }
  }

  lemma PatchSumScaled(p: Patch, ubrk: int, vbrk: int, bu: seq<real>, bv: seq<real>, c: Channel, f: real)
    requires p.Valid()
    ensures PatchSum(p, ubrk, vbrk, Scale(f, bu), bv, c) == Mul(f, PatchSum(p, ubrk, vbrk, bu, bv, c))
    ensures PatchSum(p, ubrk, vbrk, bu, Scale(f, bv), c) == Mul(f, PatchSum(p, ubrk, vbrk, bu, bv, c))
  {
    var ys := ColWindow(p, ubrk, vbrk, bu, |bv|, c);
    var zs := ColWindow(p, ubrk, vbrk, Scale(f, bu), |bv|, c);
    forall t | 0 <= t < |bv|
      ensures zs[t] == Scale(f, ys)[t]
    {
      DotScaleLeft(f, bu, RowWindow(p, vbrk - t, ubrk, |bu|, c));
    }
    assert zs == Scale(f, ys);
    DotScaleRight(f, bv, ys);
    DotScaleLeft(f, bv, ys);
  }

  lemma SquarePositive(w: real)
    ensures w != 0.0 ==> Mul(w, w) > 0.0
  {
    if w > 0.0 {
      MulPositive(w, w);
    } else if w < 0.0 {
      MulPositive(-w, -w);
    }
  }

  function Square(w: real): (q: real)
    ensures w != 0.0 ==> q > 0.0
  {
    SquarePositive(w);
    Mul(w, w)
  }

  function QuotientRule(x: real, dx: real, w: real, dw: real): real
    requires w != 0.0
  {
    (Mul(w, dx) - Mul(dw, x)) / Square(w)
  }

  lemma QuotientRuleScaled(x: real, dx: real, w: real, dw: real, f: real)
    requires w != 0.0
    ensures QuotientRule(x, Mul(f, dx), w, Mul(f, dw)) == Mul(f, QuotientRule(x, dx, w, dw))
  {
    var n := Mul(w, dx) - Mul(dw, x);
    MulSwap(w, f, dx);
    MulAssoc(f, dw, x);
    MulDifference(f, Mul(w, dx), Mul(dw, x));
    DivMul(Mul(f, n), Square(w));
    DivMul(n, Square(w));
    MulAssoc(f, n, 1.0 / Square(w));
  }

  datatype Vec3 = Vec3(x: real, y: real, z: real)

  ghost function Coord(v: Vec3, c: Channel): real
    requires c != W
  {
    match c
    case X => v.x
    case Y => v.y
    case Z => v.z
  }

  ghost predicate PositiveWeights(p: Patch) {
    forall i :: 0 <= i < |p.ctrl| ==> p.ctrl[i].w > 0.0
  }

  lemma WeightSumPositive(p: Patch, u: real, v: real, ubrk: int, vbrk: int)
    requires EvaluatedAt(p, u, v, ubrk, vbrk) && PositiveWeights(p)
    ensures PatchSum(p, ubrk, vbrk, Row(p.uknots, u, ubrk, p.uorder), Row(p.vknots, v, vbrk, p.vorder), W) > 0.0
  {
    forall row, col | vbrk - p.vorder < row <= vbrk && ubrk - p.uorder < col <= ubrk
      ensures Ctrl(p, row, col, W) > 0.0
      ensures Mul(1.0, Ctrl(p, row, col, W)) <= Ctrl(p, row, col, W) <= Mul(1.0, Ctrl(p, row, col, W))
    {
      IdxBounds(p.nu, p.nv, col, row);
      MulOne(Ctrl(p, row, col, W));
    }
    PatchInHull(p, u, v, ubrk, vbrk, W, 1.0, 1.0);
  }

  method Locate(p: Patch, u: real, v: real) returns (ubrk: int, vbrk: int)
    requires p.Valid() && InDomain(p.uknots, p.nu, p.uorder, u) && InDomain(p.vknots, p.nv, p.vorder, v)
    ensures EvaluatedAt(p, u, v, ubrk, vbrk)
    ensures u < p.uknots[p.nu] ==> u < p.uknots[ubrk + 1]
    ensures v < p.vknots[p.nv] ==> v < p.vknots[vbrk + 1]
  {
    ubrk := FindBreakPoint(u, p.uknots, p.nu - 1, p.uorder);
    BreakPointUsable(u, p.uknots, p.nu - 1, p.uorder, ubrk);
    vbrk := FindBreakPoint(v, p.vknots, p.nv - 1, p.vorder);
    BreakPointUsable(v, p.vknots, p.nv - 1, p.vorder, vbrk);
  }

  /** A work array of MAXORDER entries filled by the in-place routine. */
  method BasisRow(u: real, brk: int, kv: seq<real>, k: int) returns (b: seq<real>)
    requires Segment(kv, u, brk, k) && k <= MAXORDER
    ensures b == Row(kv, u, brk, k)
  {
    var bvals := new real[MAXORDER];
    BasisFunctions(u, brk, kv, k, bvals);
    b := bvals[..k];
  }

  method DerivativeRow(u: real, brk: int, kv: seq<real>, k: int) returns (d: seq<real>)
    requires Segment(kv, u, brk, k) && 2 <= k <= MAXORDER && k - 1 <= brk
    ensures d == Scale(kv[brk + 1] - kv[brk], RowDerivative(kv, u, brk, k))
  {
    var dvals := new real[MAXORDER];
    BasisDerivatives(u, brk, kv, k, dvals);
    d := dvals[..k];
  }

  /** The quotients of the homogeneous coordinates; none if the denominator is zero. */
  ghost predicate IsQuotient(pt: Option<Vec3>, x: Channel -> real) {
    && (pt.Some? <==> x(W) != 0.0)
    && (pt.Some? ==> forall c | c != W :: Coord(pt.value, c) == x(c) / x(W))
  }

  function Project(r: Vec4): (pt: Option<Vec3>)
    ensures IsQuotient(pt, c => At(r, c))
  {
    if r.w == 0.0 then None else Some(Vec3(r.x / r.w, r.y / r.w, r.z / r.w))
  }

  /**
   * The point of the patch at (u, v), `None` where the division is by zero. It is the quotient of the
   * polynomial pieces on the closed knot intervals, and so below the end knots that of the surface itself.
   */
  method EvalPoint(p: Patch, u: real, v: real) returns (pt: Option<Vec3>, ubrk: int, vbrk: int)
    requires p.Valid() && InDomain(p.uknots, p.nu, p.uorder, u) && InDomain(p.vknots, p.nv, p.vorder, v)
    ensures EvaluatedAt(p, u, v, ubrk, vbrk) && IsQuotient(pt, c => Piece(p, u, v, ubrk, vbrk, c))
    ensures u < p.uknots[p.nu] && v < p.vknots[p.nv] ==> IsQuotient(pt, c => Surface(p, u, v, c))
    ensures PositiveWeights(p) ==> pt.Some?
  {
    ubrk, vbrk := Locate(p, u, v);
    var bu := BasisRow(u, ubrk, p.uknots, p.uorder);
    var bv := BasisRow(v, vbrk, p.vknots, p.vorder);
    var r := TensorSum(p, ubrk, vbrk, bu, bv);
    pt := Project(r);
    PointMeans(p, u, v, ubrk, vbrk, r);
  }

  lemma PointMeans(p: Patch, u: real, v: real, ubrk: int, vbrk: int, r: Vec4)
    requires EvaluatedAt(p, u, v, ubrk, vbrk)
    requires AllSums(r, p, ubrk, vbrk, Row(p.uknots, u, ubrk, p.uorder), Row(p.vknots, v, vbrk, p.vorder))
    ensures IsQuotient(Project(r), c => Piece(p, u, v, ubrk, vbrk, c))
    ensures u < p.uknots[ubrk + 1] && v < p.vknots[vbrk + 1] ==> IsQuotient(Project(r), c => Surface(p, u, v, c))
    ensures PositiveWeights(p) ==> r.w > 0.0
  {
    forall c: Channel
      ensures At(r, c) == Piece(p, u, v, ubrk, vbrk, c)
      ensures u < p.uknots[ubrk + 1] && v < p.vknots[vbrk + 1] ==> At(r, c) == Surface(p, u, v, c)
    {
      PatchSumIsPiece(p, u, v, ubrk, vbrk, c);
      if u < p.uknots[ubrk + 1] && v < p.vknots[vbrk + 1] {
        PatchSumIsSurface(p, u, v, ubrk, vbrk, c);
      }
    }
    SameQuotient(Project(r), c => At(r, c), c => Piece(p, u, v, ubrk, vbrk, c));
    if u < p.uknots[ubrk + 1] && v < p.vknots[vbrk + 1] {
      SameQuotient(Project(r), c => At(r, c), c => Surface(p, u, v, c));
    }
    if PositiveWeights(p) {
      WeightSumPositive(p, u, v, ubrk, vbrk);
      assert At(r, W) > 0.0;
    }
  }

  lemma SameQuotient(pt: Option<Vec3>, x: Channel -> real, y: Channel -> real)
    requires IsQuotient(pt, x) && forall c :: x(c) == y(c)
    ensures IsQuotient(pt, y)
  {
  }

  /** `du` is f times the derivative of the projected point whose weights bu change at the rates db. */
  ghost predicate TangentOf(p: Patch, ubrk: int, vbrk: int, bu: seq<real>, bv: seq<real>, db: seq<real>, f: real,
                            du: Vec3)
    requires p.Valid()
  {
    && PatchSum(p, ubrk, vbrk, bu, bv, W) != 0.0
    && forall c | c != W :: Coord(du, c) ==
         Mul(f, QuotientRule(PatchSum(p, ubrk, vbrk, bu, bv, c), PatchSum(p, ubrk, vbrk, db, bv, c),
                             PatchSum(p, ubrk, vbrk, bu, bv, W), PatchSum(p, ubrk, vbrk, db, bv, W)))
  }

  /** `du` is the derivative by u of the projected point, in units of the u knot interval. */
  ghost predicate IsTangentU(p: Patch, u: real, v: real, ubrk: int, vbrk: int, du: Vec3)
    requires EvaluatedAt(p, u, v, ubrk, vbrk)
  {
    TangentOf(p, ubrk, vbrk, Row(p.uknots, u, ubrk, p.uorder), Row(p.vknots, v, vbrk, p.vorder),
              RowDerivative(p.uknots, u, ubrk, p.uorder), p.uknots[ubrk + 1] - p.uknots[ubrk], du)
  }

  /** The homogeneous point and its scaled u derivative. */
  method PointAndUTangent(p: Patch, u: real, v: real, ubrk: int, vbrk: int) returns (r: Vec4, rutan: Vec4)
    requires EvaluatedAt(p, u, v, ubrk, vbrk)
    ensures SumsAt(p, u, v, ubrk, vbrk, r, rutan)
  {
    var bu := BasisRow(u, ubrk, p.uknots, p.uorder);
    var bv := BasisRow(v, vbrk, p.vknots, p.vorder);
    var dbu := DerivativeRow(u, ubrk, p.uknots, p.uorder);
    r, rutan := TensorSums(p, ubrk, vbrk, bu, dbu, bv);
    SumsAreAt(p, u, v, ubrk, vbrk, bu, dbu, bv, r, rutan);
  }

  lemma SumsAreAt(p: Patch, u: real, v: real, ubrk: int, vbrk: int, bu: seq<real>, dbu: seq<real>, bv: seq<real>,
                  r: Vec4, rutan: Vec4)
    requires EvaluatedAt(p, u, v, ubrk, vbrk)
    requires bu == Row(p.uknots, u, ubrk, p.uorder) && bv == Row(p.vknots, v, vbrk, p.vorder)
    requires dbu == Scale(p.uknots[ubrk + 1] - p.uknots[ubrk], RowDerivative(p.uknots, u, ubrk, p.uorder))
    requires AllSums(r, p, ubrk, vbrk, bu, bv) && AllSums(rutan, p, ubrk, vbrk, dbu, bv)
    ensures SumsAt(p, u, v, ubrk, vbrk, r, rutan)
  {
  }

  /** The sums for the point and for the tangent. */
  method TensorSums(p: Patch, ubrk: int, vbrk: int, bu: seq<real>, dbu: seq<real>, bv: seq<real>)
    returns (r: Vec4, rutan: Vec4)
    requires p.Valid() && |bu| == |dbu| == p.uorder && |bv| == p.vorder
    requires p.uorder - 1 <= ubrk < p.nu && p.vorder - 1 <= vbrk < p.nv
    ensures AllSums(r, p, ubrk, vbrk, bu, bv) && AllSums(rutan, p, ubrk, vbrk, dbu, bv)
  {
    r := TensorSum(p, ubrk, vbrk, bu, bv);
    rutan := TensorSum(p, ubrk, vbrk, dbu, bv);
  }

  ghost predicate SumsAt(p: Patch, u: real, v: real, ubrk: int, vbrk: int, r: Vec4, rutan: Vec4)
    requires EvaluatedAt(p, u, v, ubrk, vbrk)
  {
    var bu, bv := Row(p.uknots, u, ubrk, p.uorder), Row(p.vknots, v, vbrk, p.vorder);
    var db := Scale(p.uknots[ubrk + 1] - p.uknots[ubrk], RowDerivative(p.uknots, u, ubrk, p.uorder));
    AllSums(r, p, ubrk, vbrk, bu, bv) && AllSums(rutan, p, ubrk, vbrk, db, bv)
  }

  function TangentQuotients(r: Vec4, d: Vec4): (du: Option<Vec3>) {
    if r.w == 0.0 then None
    else Some(Vec3(QuotientRule(r.x, d.x, r.w, d.w), QuotientRule(r.y, d.y, r.w, d.w),
                   QuotientRule(r.z, d.z, r.w, d.w)))
  }

  /**
   * The u tangent, `None` where the division is by zero. (The v tangent is the same computation with the two
   * directions exchanged.)
   */
  method EvalTangentU(p: Patch, u: real, v: real) returns (du: Option<Vec3>, ubrk: int, vbrk: int)
    requires p.Valid() && InDomain(p.uknots, p.nu, p.uorder, u) && InDomain(p.vknots, p.nv, p.vorder, v)
    ensures EvaluatedAt(p, u, v, ubrk, vbrk)
    ensures du.Some? <==> Piece(p, u, v, ubrk, vbrk, W) != 0.0
    ensures du.Some? ==> IsTangentU(p, u, v, ubrk, vbrk, du.value) && IsDerivativeU(p, u, v, ubrk, vbrk, du.value)
    ensures PositiveWeights(p) ==> du.Some?
  {
    ubrk, vbrk := Locate(p, u, v);
    var r, rutan := PointAndUTangent(p, u, v, ubrk, vbrk);
    PointMeans(p, u, v, ubrk, vbrk, r);
    du := TangentQuotients(r, rutan);
    if du.Some? {
      TangentMeans(p, u, v, ubrk, vbrk, r, rutan, du.value);
      TangentIsDerivative(p, u, v, ubrk, vbrk, du.value);
    }
  }

  lemma TangentMeans(p: Patch, u: real, v: real, ubrk: int, vbrk: int, r: Vec4, rutan: Vec4, du: Vec3)
    requires EvaluatedAt(p, u, v, ubrk, vbrk) && r.w != 0.0
    requires SumsAt(p, u, v, ubrk, vbrk, r, rutan)
    requires forall c | c != W :: Coord(du, c) == QuotientRule(At(r, c), At(rutan, c), r.w, rutan.w)
    ensures IsTangentU(p, u, v, ubrk, vbrk, du)
  {
    ScaledTangent(p, ubrk, vbrk, Row(p.uknots, u, ubrk, p.uorder), Row(p.vknots, v, vbrk, p.vorder),
                  RowDerivative(p.uknots, u, ubrk, p.uorder), p.uknots[ubrk + 1] - p.uknots[ubrk], r, rutan, du);
  }

  lemma ScaledTangent(p: Patch, ubrk: int, vbrk: int, bu: seq<real>, bv: seq<real>, db: seq<real>, f: real, r: Vec4,
                      rutan: Vec4, du: Vec3)
    requires p.Valid() && r.w != 0.0 && |db| == |bu|
    requires AllSums(r, p, ubrk, vbrk, bu, bv) && AllSums(rutan, p, ubrk, vbrk, Scale(f, db), bv)
    requires forall c | c != W :: Coord(du, c) == QuotientRule(At(r, c), At(rutan, c), r.w, rutan.w)
    ensures TangentOf(p, ubrk, vbrk, bu, bv, db, f, du)
  {
    assert At(r, W) == r.w && At(rutan, W) == rutan.w;
    PatchSumScaled(p, ubrk, vbrk, db, bv, W, f);
    forall c: Channel | c != W
      ensures Coord(du, c) == Mul(f, QuotientRule(At(r, c), PatchSum(p, ubrk, vbrk, db, bv, c), r.w,
                                                  PatchSum(p, ubrk, vbrk, db, bv, W)))
    {
      PatchSumScaled(p, ubrk, vbrk, db, bv, c, f);
      QuotientRuleScaled(At(r, c), PatchSum(p, ubrk, vbrk, db, bv, c), r.w, PatchSum(p, ubrk, vbrk, db, bv, W), f);
    }
  }

  // ---------- the tangent's sums are derivatives ----------

  lemma {:induction false} DotExpands(b': seq<real>, b: seq<real>, d: seq<real>, e: seq<real>, h: real, xs: seq<real>)
    requires Expands(b', b, d, e, h) && |xs| == |b|
    ensures Dot(b', xs) == Taylor(Dot(b, xs), Dot(d, xs), Dot(e, xs), h)
  {
    if b == [] {
      TaylorZero(h);
    } else {
      DotExpands(b'[1..], b[1..], d[1..], e[1..], h, xs[1..]);
      TaylorScaled(xs[0], b[0], d[0], e[0], h);
      TaylorSum(Mul(b[0], xs[0]), Mul(d[0], xs[0]), Mul(e[0], xs[0]), Dot(b[1..], xs[1..]), Dot(d[1..], xs[1..]),
                Dot(e[1..], xs[1..]), h);
    }
  }

  lemma TaylorScaled(a: real, x: real, dx: real, ex: real, h: real)
    ensures Mul(Taylor(x, dx, ex, h), a) == Taylor(Mul(x, a), Mul(dx, a), Mul(ex, a), h)
    ensures Mul(a, Taylor(x, dx, ex, h)) == Taylor(Mul(a, x), Mul(a, dx), Mul(a, ex), h)
  {
    MulZero(h);
    ShareTaylor(a, 0.0, x, dx, ex, h);
    MulZero(x);
    MulZero(dx);
    assert Mul(a, Taylor(x, dx, ex, h)) == Mul(Taylor(x, dx, ex, h), a);
    assert Mul(a, x) == Mul(x, a) && Mul(a, dx) == Mul(dx, a) && Mul(a, ex) == Mul(ex, a);
  }

  lemma {:induction false} DotOfExpanded(bv: seq<real>, ys': seq<real>, ys: seq<real>, ds: seq<real>, es: seq<real>,
                                         h: real)
    requires Expands(ys', ys, ds, es, h) && |bv| == |ys|
    ensures Dot(bv, ys') == Taylor(Dot(bv, ys), Dot(bv, ds), Dot(bv, es), h)
  {
    if bv == [] {
      TaylorZero(h);
    } else {
      DotOfExpanded(bv[1..], ys'[1..], ys[1..], ds[1..], es[1..], h);
      TaylorScaled(bv[0], ys[0], ds[0], es[0], h);
      TaylorSum(Mul(bv[0], ys[0]), Mul(bv[0], ds[0]), Mul(bv[0], es[0]), Dot(bv[1..], ys[1..]), Dot(bv[1..], ds[1..]),
                Dot(bv[1..], es[1..]), h);
    }
  }

  lemma PatchSumExpands(p: Patch, ubrk: int, vbrk: int, b': seq<real>, b: seq<real>, d: seq<real>, e: seq<real>,
                        bv: seq<real>, c: Channel, h: real)
    requires p.Valid() && Expands(b', b, d, e, h)
    ensures PatchSum(p, ubrk, vbrk, b', bv, c)
         == Taylor(PatchSum(p, ubrk, vbrk, b, bv, c), PatchSum(p, ubrk, vbrk, d, bv, c),
                   PatchSum(p, ubrk, vbrk, e, bv, c), h)
  {
    var ys', ys := ColWindow(p, ubrk, vbrk, b', |bv|, c), ColWindow(p, ubrk, vbrk, b, |bv|, c);
    var ds, es := ColWindow(p, ubrk, vbrk, d, |bv|, c), ColWindow(p, ubrk, vbrk, e, |bv|, c);
    forall t | 0 <= t < |bv|
      ensures ys'[t] == Taylor(ys[t], ds[t], es[t], h)
    {
      DotExpands(b', b, d, e, h, RowWindow(p, vbrk - t, ubrk, |b|, c));
    }
    DotOfExpanded(bv, ys', ys, ds, es, h);
  }

  /** The control values of one coordinate stay within m. */
  ghost predicate CtrlBounded(p: Patch, c: Channel, m: real)
    requires p.Valid()
  {
    forall row: int, col: int :: -m <= Ctrl(p, row, col, c) <= m
  }

  /** There always is such a bound. */
  lemma {:induction false} CtrlHasBound(p: Patch) returns (n: real)
    requires p.Valid()
    ensures n >= 0.0 && forall c :: CtrlBounded(p, c, n)
  {
    n := PointsHaveBound(p.ctrl);
    forall c, row: int, col: int
      ensures -n <= Ctrl(p, row, col, c) <= n
    {
      if 0 <= row < p.nv && 0 <= col < p.nu {
        IdxBounds(p.nu, p.nv, col, row);
        assert -n <= At(p.ctrl[Idx(p.nu, col, row)], c) <= n;
      }
    }
  }

  lemma {:induction false} PointsHaveBound(pts: seq<Vec4>) returns (n: real)
    ensures n >= 0.0 && forall i, c :: 0 <= i < |pts| ==> -n <= At(pts[i], c) <= n
  {
    n := 0.0;
    if pts != [] {
      var rest := PointsHaveBound(pts[1..]);
      var v := pts[0];
      n := rest + Size(v.x) + Size(v.y) + Size(v.z) + Size(v.w);
      assert forall i :: 0 < i < |pts| ==> pts[i] == pts[1..][i - 1];
    }
  }

  function Size(x: real): real { if x < 0.0 then -x else x }

  lemma {:induction false} DotBounded(b: seq<real>, x: seq<real>, m: real, n: real)
    requires |b| == |x| && Bounded(b, m) && Bounded(x, n) && m >= 0.0 && n >= 0.0
    ensures Mul(|b| as real, Mul(m, n)) >= 0.0
    ensures -Mul(|b| as real, Mul(m, n)) <= Dot(b, x) <= Mul(|b| as real, Mul(m, n))
  {
    MulNonNegative(m, n);
    MulNonNegative(|b| as real, Mul(m, n));
    if b != [] {
      DotBounded(b[1..], x[1..], m, n);
      SignedProduct(b[0], x[0], m, n);
      MulSum(Mul(m, n), (|b| - 1) as real, 1.0);
      MulOne(Mul(m, n));
    }
  }

  lemma PatchSumBounded(p: Patch, ubrk: int, vbrk: int, e: seq<real>, bv: seq<real>, c: Channel, m: real, n: real)
    requires p.Valid() && Bounded(e, m) && Bounded(bv, 1.0) && CtrlBounded(p, c, n) && m >= 0.0 && n >= 0.0
    ensures var most := Mul(|bv| as real, Mul(|e| as real, Mul(m, n)));
            -most <= PatchSum(p, ubrk, vbrk, e, bv, c) <= most
  {
    var row := Mul(|e| as real, Mul(m, n));
    var ys := ColWindow(p, ubrk, vbrk, e, |bv|, c);
    MulNonNegative(m, n);
    MulNonNegative(|e| as real, Mul(m, n));
    forall t | 0 <= t < |bv|
      ensures -row <= ys[t] <= row
    {
      DotBounded(e, RowWindow(p, vbrk - t, ubrk, |e|, c), m, n);
    }
    DotBounded(bv, ys, 1.0, row);
    MulOne(row);
  }

  /** A bound of the sums with rows that are bounded by m, for control values bounded by n. */
  function SumBound(p: Patch, m: real, n: real): real {
    Mul(p.vorder as real, Mul(p.uorder as real, Mul(m, n)))
  }

  /** The sums at u and u + h: value, slope and curve, with their bounds. */
  ghost predicate Expanded(p: Patch, u: real, v: real, h: real, ubrk: int, vbrk: int, c: Channel, n: real, x1: real,
                           x2: real)
    requires EvaluatedAt(p, u, v, ubrk, vbrk) && EvaluatedAt(p, u + h, v, ubrk, vbrk)
  {
    var top := TopRate(p.uknots, ubrk);
    && Piece(p, u + h, v, ubrk, vbrk, c) == Taylor(Piece(p, u, v, ubrk, vbrk, c), x1, x2, h)
    && x1 == PatchSum(p, ubrk, vbrk, RowDerivative(p.uknots, u, ubrk, p.uorder), Row(p.vknots, v, vbrk, p.vorder), c)
    && AtMost(Piece(p, u, v, ubrk, vbrk, c), SumBound(p, 1.0, n))
    && AtMost(x1, SumBound(p, SlopeBound(p.uorder, top), n)) && AtMost(x2, SumBound(p, CurveBound(p.uorder, top), n))
  }

  lemma PieceExpands(p: Patch, u: real, v: real, h: real, ubrk: int, vbrk: int, c: Channel, n: real)
    returns (x1: real, x2: real)
    requires EvaluatedAt(p, u, v, ubrk, vbrk) && EvaluatedAt(p, u + h, v, ubrk, vbrk) && CtrlBounded(p, c, n)
             && n >= 0.0
    ensures Expanded(p, u, v, h, ubrk, vbrk, c, n, x1, x2)
  {
    var k, bv := p.uorder, Row(p.vknots, v, vbrk, p.vorder);
    var b, d, e := Row(p.uknots, u, ubrk, k), RowDerivative(p.uknots, u, ubrk, k), Remainder(p.uknots, u, h, ubrk, k);
    x1, x2 := PatchSum(p, ubrk, vbrk, d, bv, c), PatchSum(p, ubrk, vbrk, e, bv, c);
    PatchSumIsPiece(p, u, v, ubrk, vbrk, c);
    PatchSumIsPiece(p, u + h, v, ubrk, vbrk, c);
    RowExpands(p.uknots, u, h, ubrk, k);
    PatchSumExpands(p, ubrk, vbrk, Row(p.uknots, u + h, ubrk, k), b, d, e, bv, c, h);
    RowBounded(p.vknots, v, vbrk, p.vorder);
    RowBounded(p.uknots, u, ubrk, k);
    SlopeBounded(p.uknots, u, ubrk, k);
    CurveBounded(p.uknots, u, h, ubrk, k);
    PatchSumBounded(p, ubrk, vbrk, b, bv, c, 1.0, n);
    PatchSumBounded(p, ubrk, vbrk, d, bv, c, SlopeBound(k, TopRate(p.uknots, ubrk)), n);
    PatchSumBounded(p, ubrk, vbrk, e, bv, c, CurveBound(k, TopRate(p.uknots, ubrk)), n);
  }

  /**
   * The sum that the tangent uses is the derivative by u of the homogeneous surface: on each pair of closed knot
   * intervals the piece at u + h differs from the piece at u plus h times it by no more than a constant times h^2.
   */
  lemma PieceIsDifferentiable(p: Patch, u: real, v: real, h: real, ubrk: int, vbrk: int, c: Channel, n: real)
    requires EvaluatedAt(p, u, v, ubrk, vbrk) && EvaluatedAt(p, u + h, v, ubrk, vbrk) && CtrlBounded(p, c, n)
             && n >= 0.0
    ensures var db, bv := RowDerivative(p.uknots, u, ubrk, p.uorder), Row(p.vknots, v, vbrk, p.vorder);
            var slope := PatchSum(p, ubrk, vbrk, db, bv, c);
            AtMost(Piece(p, u + h, v, ubrk, vbrk, c) - (Piece(p, u, v, ubrk, vbrk, c) + Mul(h, slope)),
                   Mul(Mul(h, h), SumBound(p, CurveBound(p.uorder, TopRate(p.uknots, ubrk)), n)))
  {
    var x1, x2 := PieceExpands(p, u, v, h, ubrk, vbrk, c, n);
    SquareNonNegative(h);
    MulAssoc(h, h, x2);
    ProductBounded(Mul(h, h), Mul(h, h), x2, SumBound(p, CurveBound(p.uorder, TopRate(p.uknots, ubrk)), n));
  }

  // ---------- the tangent is the derivative of the projected point ----------

  /** A bound of the error of the tangent, for control values up to n and a weight away from zero by `low`. */
  ghost function TangentErrorBound(p: Patch, ubrk: int, n: real, low: real): real
    requires p.Valid() && 0 <= ubrk && ubrk + 1 < |p.uknots| && p.uknots[ubrk] < p.uknots[ubrk + 1] && low > 0.0
  {
    var top := TopRate(p.uknots, ubrk);
    RestBound(SumBound(p, 1.0, n), SumBound(p, SlopeBound(p.uorder, top), n), SumBound(p, CurveBound(p.uorder, top), n),
              p.uknots[ubrk + 1] - p.uknots[ubrk], 1.0 / low)
  }

  predicate AwayFromZero(w: real, low: real) { low > 0.0 && (w >= low || w <= -low) }

  /** u + h is in the same knot interval, the weight is away from zero at both ends, and n bounds the control values. */
  ghost predicate Comparable(p: Patch, u: real, v: real, ubrk: int, vbrk: int, c: Channel, h: real, n: real, low: real)
    requires EvaluatedAt(p, u, v, ubrk, vbrk)
  {
    && EvaluatedAt(p, u + h, v, ubrk, vbrk) && n >= 0.0 && CtrlBounded(p, c, n) && CtrlBounded(p, W, n)
    && AwayFromZero(Piece(p, u, v, ubrk, vbrk, W), low) && AwayFromZero(Piece(p, u + h, v, ubrk, vbrk, W), low)
  }

  /**
   * Where the weight stays away from zero, one coordinate of the projected point at u + h is that at u plus h times the
   * slope over the length of the knot interval, up to a constant times h^2.
   */
  ghost predicate MovesBy(p: Patch, u: real, v: real, ubrk: int, vbrk: int, c: Channel, slope: real,
                          h: real, n: real, low: real)
    requires EvaluatedAt(p, u, v, ubrk, vbrk)
  {
    Comparable(p, u, v, ubrk, vbrk, c, h, n, low) ==>
    var here := Piece(p, u, v, ubrk, vbrk, c) / Piece(p, u, v, ubrk, vbrk, W);
    var there := Piece(p, u + h, v, ubrk, vbrk, c) / Piece(p, u + h, v, ubrk, vbrk, W);
    AtMost(there - (here + Mul(h, slope / (p.uknots[ubrk + 1] - p.uknots[ubrk]))),
           Mul(Mul(h, h), TangentErrorBound(p, ubrk, n, low)))
  }

  /** `du` is the derivative by u of the projected point, in units of the knot interval. */
  ghost predicate IsDerivativeU(p: Patch, u: real, v: real, ubrk: int, vbrk: int, du: Vec3)
    requires EvaluatedAt(p, u, v, ubrk, vbrk)
  {
    forall c, h, n, low :: c != W ==> MovesBy(p, u, v, ubrk, vbrk, c, Coord(du, c), h, n, low)
  }

  lemma QuotientRuleTimes(x: real, dx: real, w: real, dw: real)
    requires w != 0.0
    ensures Mul(QuotientRule(x, dx, w, dw), Mul(w, w)) == Mul(w, dx) - Mul(dw, x)
  {
    Undivided(Mul(w, dx) - Mul(dw, x), Square(w));
  }

  lemma Undivided(n: real, d: real)
    requires d != 0.0
    ensures Mul(n / d, d) == n && Mul(d, n) / d == n
  {
  }

  /** q is the slope of the quotient of a coordinate and the weight, by their own slopes. */
  ghost predicate IsSlope(p: Patch, u: real, v: real, ubrk: int, vbrk: int, c: Channel, q: real)
    requires EvaluatedAt(p, u, v, ubrk, vbrk)
  {
    var x, w := Piece(p, u, v, ubrk, vbrk, c), Piece(p, u, v, ubrk, vbrk, W);
    var db, bv := RowDerivative(p.uknots, u, ubrk, p.uorder), Row(p.vknots, v, vbrk, p.vorder);
    Mul(q, Mul(w, w)) == Mul(w, PatchSum(p, ubrk, vbrk, db, bv, c)) - Mul(PatchSum(p, ubrk, vbrk, db, bv, W), x)
  }

  /** The tangent is such a slope times the length of the knot interval. */
  lemma TangentCoordinate(p: Patch, u: real, v: real, ubrk: int, vbrk: int, du: Vec3, c: Channel) returns (q: real)
    requires EvaluatedAt(p, u, v, ubrk, vbrk) && IsTangentU(p, u, v, ubrk, vbrk, du) && c != W
    ensures IsSlope(p, u, v, ubrk, vbrk, c, q) && Coord(du, c) == Mul(p.uknots[ubrk + 1] - p.uknots[ubrk], q)
  {
    var db, bv := RowDerivative(p.uknots, u, ubrk, p.uorder), Row(p.vknots, v, vbrk, p.vorder);
    var x, x1 := Piece(p, u, v, ubrk, vbrk, c), PatchSum(p, ubrk, vbrk, db, bv, c);
    var w, w1 := Piece(p, u, v, ubrk, vbrk, W), PatchSum(p, ubrk, vbrk, db, bv, W);
    PatchSumIsPiece(p, u, v, ubrk, vbrk, c);
    PatchSumIsPiece(p, u, v, ubrk, vbrk, W);
    q := QuotientRule(x, x1, w, w1);
    QuotientRuleTimes(x, x1, w, w1);
  }

  lemma TangentIsDerivative(p: Patch, u: real, v: real, ubrk: int, vbrk: int, du: Vec3)
    requires EvaluatedAt(p, u, v, ubrk, vbrk) && IsTangentU(p, u, v, ubrk, vbrk, du)
    ensures IsDerivativeU(p, u, v, ubrk, vbrk, du)
  {
    forall c: Channel, h, n, low | c != W
      ensures MovesBy(p, u, v, ubrk, vbrk, c, Coord(du, c), h, n, low)
    {
      var q := TangentCoordinate(p, u, v, ubrk, vbrk, du, c);
      CoordinateMoves(p, u, v, ubrk, vbrk, c, Coord(du, c), q, h, n, low);
    }
  }

  lemma CoordinateMoves(p: Patch, u: real, v: real, ubrk: int, vbrk: int, c: Channel, slope: real, q: real,
                        h: real, n: real, low: real)
    requires EvaluatedAt(p, u, v, ubrk, vbrk) && IsSlope(p, u, v, ubrk, vbrk, c, q)
    requires slope == Mul(p.uknots[ubrk + 1] - p.uknots[ubrk], q)
    ensures MovesBy(p, u, v, ubrk, vbrk, c, slope, h, n, low)
  {
    if Comparable(p, u, v, ubrk, vbrk, c, h, n, low) {
      Undivided(q, p.uknots[ubrk + 1] - p.uknots[ubrk]);
      QuotientMoves(p, u, v, ubrk, vbrk, c, q, h, n, low);
    }
  }

  lemma QuotientMoves(p: Patch, u: real, v: real, ubrk: int, vbrk: int, c: Channel, q: real, h: real, n: real,
                      low: real)
    requires EvaluatedAt(p, u, v, ubrk, vbrk) && Comparable(p, u, v, ubrk, vbrk, c, h, n, low)
    requires IsSlope(p, u, v, ubrk, vbrk, c, q)
    ensures var here := Piece(p, u, v, ubrk, vbrk, c) / Piece(p, u, v, ubrk, vbrk, W);
            var there := Piece(p, u + h, v, ubrk, vbrk, c) / Piece(p, u + h, v, ubrk, vbrk, W);
            AtMost(there - (here + Mul(h, q)), Mul(Mul(h, h), TangentErrorBound(p, ubrk, n, low)))
  {
    var top := TopRate(p.uknots, ubrk);
    var x1, x2 := PieceExpands(p, u, v, h, ubrk, vbrk, c, n);
    var w1, w2 := PieceExpands(p, u, v, h, ubrk, vbrk, W, n);
    QuotientDiffers(Piece(p, u, v, ubrk, vbrk, c), x1, x2, Piece(p, u, v, ubrk, vbrk, W), w1, w2, h, q,
                    SumBound(p, 1.0, n), SumBound(p, SlopeBound(p.uorder, top), n),
                    SumBound(p, CurveBound(p.uorder, top), n), p.uknots[ubrk + 1] - p.uknots[ubrk], low);
  }
}
