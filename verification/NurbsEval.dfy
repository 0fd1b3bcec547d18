/** NURBS evaluation: the break point search, the in-place basis routines and the patch point. */
module NurbsEval {
  import opened Common
  import opened Nurbs

  /** A knot vector for n points of order k, as the patch constructor checks it. */
  ghost predicate ValidKnots(kv: seq<real>, n: int, k: int) {
    2 <= k <= MAXORDER && 1 <= n && |kv| == n + k && Sorted(kv)
  }

  /** The parameters that have a full set of basis functions: half-open, or closed at a non-repeated end knot. */
  ghost predicate InDomain(kv: seq<real>, n: int, k: int, u: real)
    requires ValidKnots(kv, n, k)
  {
    kv[k - 1] <= u && (u < kv[n] || (u == kv[n] && kv[n - 1] < kv[n]))
  }

  /**
   * The descending search for the knot interval of u (m is the last point's index). The result is exact for
   * every u: the special case at the end knot, else the last knot not above the clamped u, else 0.
   */
  method FindBreakPoint(u: real, kv: seq<real>, m: int, k: int) returns (brk: int)
    requires ValidKnots(kv, m + 1, k)
    ensures 0 <= brk <= m + k
    ensures var useU := if u < kv[m + k] then u else kv[m + k];
            if useU == kv[m + 1] then brk == m
            else (brk > 0 ==> kv[brk] <= useU) && forall i :: brk < i <= m + k ==> useU < kv[i]
  {
    var useU := if u < kv[m + k] then u else kv[m + k];
    if useU == kv[m + 1] {
      brk := m;
    } else {
      brk := m + k;
      while useU < kv[brk] && brk > 0
        invariant 0 <= brk <= m + k
        invariant forall i :: brk < i <= m + k ==> useU < kv[i]
        decreases brk
      {
        brk := brk - 1;
      }
    }
  }

  /** What the search promises. */
  ghost predicate IsBreakPoint(u: real, kv: seq<real>, m: int, k: int, brk: int)
    requires ValidKnots(kv, m + 1, k)
  {
    && 0 <= brk <= m + k
    && var useU := if u < kv[m + k] then u else kv[m + k];
       if useU == kv[m + 1] then brk == m
       else (brk > 0 ==> kv[brk] <= useU) && forall i :: brk < i <= m + k ==> useU < kv[i]
  }

  /**
   * The break point is usable exactly on the domain: it is the start of a nonempty interval that holds u,
   * with all its k basis functions and control points in range, if and only if u is in the domain.
   */
  lemma BreakPointUsable(u: real, kv: seq<real>, m: int, k: int, brk: int)
    requires ValidKnots(kv, m + 1, k) && IsBreakPoint(u, kv, m, k, brk)
    ensures (k - 1 <= brk <= m && Segment(kv, u, brk, k)) <==> (k - 1 <= m && InDomain(kv, m + 1, k, u))
  {
    var useU := if u < kv[m + k] then u else kv[m + k];
    assert kv[m + 1] <= kv[m + k];
    if k - 1 <= m && InDomain(kv, m + 1, k, u) {
      assert useU == u;
      if u < kv[m + 1] {
        assert brk >= k - 1 by {
          assert forall i :: brk < i <= m + k ==> u < kv[i];
        }
        assert brk <= m && u < kv[brk + 1];
      }
    }
    if k - 1 <= brk <= m && Segment(kv, u, brk, k) {
      assert kv[k - 1] <= kv[brk] && kv[brk + 1] <= kv[m + 1] && kv[brk] <= kv[m];
    }
  }

  /**
   * The constructor's own check of the minimum parameter, knot[order-2], is one knot too low: here u passes it,
   * and the first control point of the evaluation has index -1.
   */
  lemma DomainCheckTooWeak()
    ensures var kv, m, k, u, brk := [0.0, 1.0, 2.0, 3.0], 1, 2, 0.5, 0;
            && ValidKnots(kv, m + 1, k) && kv[k - 2] <= u <= kv[m + 1]
            && IsBreakPoint(u, kv, m, k, brk) && brk - k + 1 == -1
  {
  }

  /** One weight of the scheme; left of the knot vector it is zero. */
  method ComputeOmega(u: real, brk: int, kv: seq<real>, r: int, i: int) returns (omega: real)
    requires Segment(kv, u, brk, r) && 2 <= r && brk - (r - 2) <= i <= brk
    ensures omega == Omega(kv, u, brk, r, brk - i)
  {
    if i < 0 {
      omega := 0.0;
    } else {
      assert kv[i] <= kv[brk] && kv[brk + 1] <= kv[i + r - 1];
      omega := (u - kv[i]) / (kv[i + r - 1] - kv[i]);
    }
  }

  /** The array in the middle of the inner loop: entries up to s not yet shared, entry s+1 without its gain. */
  ghost predicate Shared(b: seq<real>, o: seq<real>, w: seq<real>, s: int) {
    && |b| == |o| + 1 && |w| == |o| && -1 <= s < |o|
    && (forall t :: 0 <= t <= s ==> b[t] == o[t])
    && b[s + 1] == Kept(o, w, s + 1)
    && (forall t :: s + 1 < t <= |o| ==> b[t] == Kept(o, w, t) + Passed(o, w, t - 1))
  }

  lemma SharedStep(b: seq<real>, o: seq<real>, w: seq<real>, s: int)
    requires Shared(b, o, w, s) && 0 <= s
    ensures Shared(b[s + 1 := b[s + 1] + Mul(1.0 - w[s], b[s])][s := Mul(w[s], b[s])], o, w, s - 1)
  {
  }

  lemma SharedDone(b: seq<real>, o: seq<real>, w: seq<real>)
    requires Shared(b, o, w, -1)
    ensures b == Mix(o, w)
  {
  }

  /** The two updates of one inner turn. */
  method ShareEntry(bvals: array<real>, s: int, omega: real, r: int, ghost o: seq<real>, ghost w: seq<real>)
    requires 2 <= r <= bvals.Length && 0 <= s <= r - 2
    requires Shared(bvals[..r], o, w, s) && omega == w[s]
    modifies bvals
    ensures Shared(bvals[..r], o, w, s - 1)
  {
    ghost var b := bvals[..r];
    SharedStep(b, o, w, s);
    bvals[s + 1] := bvals[s + 1] + Mul(1.0 - omega, bvals[s]);
    bvals[s] := Mul(omega, bvals[s]);
    assert bvals[..r] == b[s + 1 := b[s + 1] + Mul(1.0 - w[s], b[s])][s := Mul(w[s], b[s])];
  }

  method StartShare(bvals: array<real>, r: int, ghost o: seq<real>, ghost w: seq<real>)
    requires 2 <= r <= bvals.Length && bvals[..r - 1] == o && |w| == r - 1
    modifies bvals
    ensures Shared(bvals[..r], o, w, r - 2)
  {
    bvals[r - 1] := 0.0;
    assert bvals[..r][..r - 1] == bvals[..r - 1] == o;
    assert forall t :: 0 <= t < r - 1 ==> bvals[..r][t] == o[t];
  }

  /** The inner loop: one order up, in place, from the last entry to the first. */
  method RaiseOrder(u: real, brk: int, kv: seq<real>, r: int, bvals: array<real>)
    requires Segment(kv, u, brk, r) && 2 <= r <= bvals.Length
    requires bvals[..r - 1] == Row(kv, u, brk, r - 1)
    modifies bvals
    ensures bvals[..r] == Row(kv, u, brk, r)
  {
    ghost var o, w := bvals[..r - 1], Omegas(kv, u, brk, r);
    StartShare(bvals, r, o, w);
    var i := brk - r + 1;
    var s := r - 2;
    while s >= 0
      invariant -1 <= s <= r - 2 && i == brk - s - 1
      invariant Shared(bvals[..r], o, w, s)
    {
      i := i + 1;
      var omega := ComputeOmega(u, brk, kv, r, i);
      ShareEntry(bvals, s, omega, r, o, w);
      s := s - 1;
    }
    SharedDone(bvals[..r], o, w);
  }

  /** The basis values of order k at u, computed in place in one array. */
  method BasisFunctions(u: real, brk: int, kv: seq<real>, k: int, bvals: array<real>)
    requires Segment(kv, u, brk, k) && k <= bvals.Length
    modifies bvals
    ensures bvals[..k] == Row(kv, u, brk, k)
  {
    bvals[0] := 1.0;
    assert bvals[..1] == [1.0] == Row(kv, u, brk, 1);
    ghost var row := bvals[..1];
    for r := 2 to k + 1
      invariant row == Row(kv, u, brk, r - 1) && bvals[..r - 1] == row
    {
      RaiseOrder(u, brk, kv, r, bvals);
      row := bvals[..r];
    }
  }

  // ---------- derivatives ----------

  /** The array in the middle of the derivative loop. */
  ghost predicate Spreading(b: seq<real>, o: seq<real>, w: seq<real>, s: int) {
    && |b| == |o| + 1 && |w| == |o| && -1 <= s < |o|
    && (forall t :: 0 <= t <= s ==> b[t] == o[t])
    && b[s + 1] == Kept(o, w, s + 1)
    && (forall t :: s + 1 < t <= |o| ==> b[t] == Kept(o, w, t) - Kept(o, w, t - 1))
  }

  lemma SpreadingStep(b: seq<real>, o: seq<real>, w: seq<real>, s: int)
    requires Spreading(b, o, w, s) && 0 <= s
    ensures Spreading(b[s + 1 := b[s + 1] + Mul(-w[s], b[s])][s := Mul(b[s], w[s])], o, w, s - 1)
  {
    assert Mul(-w[s], b[s]) == -Mul(w[s], b[s]) && Mul(b[s], w[s]) == Mul(w[s], b[s]);
  }

  method SpreadEntry(dvals: array<real>, s: int, omega: real, k: int, ghost o: seq<real>, ghost w: seq<real>)
    requires 2 <= k <= dvals.Length && 0 <= s <= k - 2
    requires Spreading(dvals[..k], o, w, s) && omega == w[s]
    modifies dvals
    ensures Spreading(dvals[..k], o, w, s - 1)
  {
    ghost var b := dvals[..k];
    SpreadingStep(b, o, w, s);
    dvals[s + 1] := dvals[s + 1] + Mul(-omega, dvals[s]);
    dvals[s] := Mul(dvals[s], omega);
    assert dvals[..k] == b[s + 1 := b[s + 1] + Mul(-w[s], b[s])][s := Mul(b[s], w[s])];
  }

  method StartSpread(dvals: array<real>, k: int, ghost o: seq<real>, ghost w: seq<real>)
    requires 2 <= k <= dvals.Length && dvals[..k - 1] == o && |w| == k - 1
    modifies dvals
    ensures Spreading(dvals[..k], o, w, k - 2)
  {
    dvals[k - 1] := 0.0;
    assert dvals[..k][..k - 1] == dvals[..k - 1] == o;
    assert forall t :: 0 <= t < k - 1 ==> dvals[..k][t] == o[t];
  }

  method ComputeDerivOmega(u: real, brk: int, kv: seq<real>, k: int, i: int, factor: real) returns (omega: real)
    requires Segment(kv, u, brk, k) && 2 <= k && k - 1 <= brk && brk - (k - 2) <= i <= brk
    ensures omega == Scale(factor, Rates(kv, u, brk, k))[brk - i]
  {
    assert kv[i] <= kv[brk] && kv[brk + 1] <= kv[i + k - 1];
    var den := kv[i + k - 1] - kv[i];
    omega := factor / den;
    DivMul(factor, den);
  }

  lemma SpreadScaled(o: seq<real>, w: seq<real>, c: real)
    requires |w| == |o|
    ensures Spread(o, Scale(c, w)) == Scale(c, Spread(o, w))
  {
    forall t | 0 <= t <= |o|
      ensures Spread(o, Scale(c, w))[t] == Scale(c, Spread(o, w))[t]
    {
      KeptScaled(o, w, c, t);
      KeptScaled(o, w, c, t - 1);
      MulDifference(c, Kept(o, w, t), Kept(o, w, t - 1));
    }
  }

  lemma KeptScaled(o: seq<real>, w: seq<real>, c: real, t: int)
    requires |w| == |o|
    ensures Kept(o, Scale(c, w), t) == Mul(c, Kept(o, w, t))
  {
    MulZero(c);
    if 0 <= t < |o| {
      MulAssoc(c, w[t], o[t]);
    }
  }

  lemma ScaleScale(a: real, b: real, x: seq<real>)
    ensures Scale(Mul(a, b), x) == Scale(a, Scale(b, x))
  {
    forall t | 0 <= t < |x|
      ensures Scale(Mul(a, b), x)[t] == Scale(a, Scale(b, x))[t]
    {
      MulAssoc(a, b, x[t]);
    }
  }

  lemma SpreadingDone(b: seq<real>, o: seq<real>, w: seq<real>)
    requires Spreading(b, o, w, -1)
    ensures b == Spread(o, w)
  {
  }

  lemma SpreadIsDerivative(kv: seq<real>, u: real, brk: int, k: int, c: real, d: seq<real>)
    requires Segment(kv, u, brk, k) && 2 <= k && k - 1 <= brk
    requires d == Spread(Row(kv, u, brk, k - 1), Scale(Mul(c, (k - 1) as real), Rates(kv, u, brk, k)))
    ensures d == Scale(c, RowDerivative(kv, u, brk, k)) && Sum(d) == 0.0
  {
    DerivativeClosedForm(kv, u, brk, k);
    ScaledSpread(Row(kv, u, brk, k - 1), Rates(kv, u, brk, k), c, (k - 1) as real, RowDerivative(kv, u, brk, k), d);
  }

  lemma ScaledSpread(o: seq<real>, v: seq<real>, c: real, f: real, slope: seq<real>, d: seq<real>)
    requires |o| == |v| && slope == Scale(f, Spread(o, v)) && d == Spread(o, Scale(Mul(c, f), v))
    ensures d == Scale(c, slope) && Sum(d) == 0.0
  {
    SpreadSumsToZero(o, Scale(Mul(c, f), v));
    SpreadScaled(o, v, Mul(c, f));
    ScaleScale(c, f, Spread(o, v));
  }

  /** The derivative loop, in place. */
  method SpreadInPlace(u: real, brk: int, kv: seq<real>, k: int, factor: real, dvals: array<real>, ghost o: seq<real>)
    requires Segment(kv, u, brk, k) && 2 <= k <= dvals.Length && k - 1 <= brk && dvals[..k - 1] == o
    modifies dvals
    ensures dvals[..k] == Spread(o, Scale(factor, Rates(kv, u, brk, k)))
  {
    ghost var w := Scale(factor, Rates(kv, u, brk, k));
    StartSpread(dvals, k, o, w);
    var i := brk - k + 1;
    var s := k - 2;
    while s >= 0
      invariant -1 <= s <= k - 2 && i == brk - s - 1
      invariant Spreading(dvals[..k], o, w, s)
    {
      i := i + 1;
      var omega := ComputeDerivOmega(u, brk, kv, k, i, factor);
      SpreadEntry(dvals, s, omega, k, o, w);
      s := s - 1;
    }
    SpreadingDone(dvals[..k], o, w);
  }

  /**
   * The derivative routine computes the derivative of the basis values by the parameter, in units of the
   * knot interval; its values sum to zero.
   */
  method BasisDerivatives(u: real, brk: int, kv: seq<real>, k: int, dvals: array<real>)
    requires Segment(kv, u, brk, k) && 2 <= k <= dvals.Length && k - 1 <= brk
    modifies dvals
    ensures dvals[..k] == Scale(kv[brk + 1] - kv[brk], RowDerivative(kv, u, brk, k))
    ensures Sum(dvals[..k]) == 0.0
  {
    var knotScale := kv[brk + 1] - kv[brk];
    BasisSpread(u, brk, kv, k, Mul(knotScale, (k - 1) as real), dvals);
    SpreadIsDerivative(kv, u, brk, k, knotScale, dvals[..k]);
  }

  /** The order below, then the loop. */
  method BasisSpread(u: real, brk: int, kv: seq<real>, k: int, factor: real, dvals: array<real>)
    requires Segment(kv, u, brk, k) && 2 <= k <= dvals.Length && k - 1 <= brk
    modifies dvals
    ensures dvals[..k] == Spread(Row(kv, u, brk, k - 1), Scale(factor, Rates(kv, u, brk, k)))
  {
    BasisFunctions(u, brk, kv, k - 1, dvals);
    SpreadInPlace(u, brk, kv, k, factor, dvals, Row(kv, u, brk, k - 1));
  }

  // ---------- weighted sums ----------

  ghost function Dot(b: seq<real>, x: seq<real>): real
    requires |b| == |x|
  {
    if b == [] then 0.0 else Mul(b[0], x[0]) + Dot(b[1..], x[1..])
  }

  lemma {:induction false} DotBounds(b: seq<real>, x: seq<real>, w: seq<real>, lo: real, hi: real)
    requires |b| == |x| == |w| && NonNegative(b)
    requires forall t :: 0 <= t < |x| ==> Mul(lo, w[t]) <= x[t] <= Mul(hi, w[t])
    ensures Mul(lo, Dot(b, w)) <= Dot(b, x) <= Mul(hi, Dot(b, w))
  {
    if b != [] {
      DotBounds(b[1..], x[1..], w[1..], lo, hi);
      WeighBounds(b[0], x[0], w[0], lo, hi);
      MulSum(lo, Mul(b[0], w[0]), Dot(b[1..], w[1..]));
      MulSum(hi, Mul(b[0], w[0]), Dot(b[1..], w[1..]));
    } else {
      MulZero(lo);
      MulZero(hi);
    }
  }

  lemma WeighBounds(b: real, x: real, w: real, lo: real, hi: real)
    requires b >= 0.0 && Mul(lo, w) <= x <= Mul(hi, w)
    ensures Mul(lo, Mul(b, w)) <= Mul(b, x) <= Mul(hi, Mul(b, w))
  {
    MulNonNegative(b, x - Mul(lo, w));
    MulNonNegative(b, Mul(hi, w) - x);
    MulDifference(b, x, Mul(lo, w));
    MulDifference(b, Mul(hi, w), x);
    MulSwap(b, lo, w);
    MulSwap(b, hi, w);
  }

  /** A nonnegative combination of positive numbers with a nonzero weight is positive. */
  lemma {:induction false} DotPositive(b: seq<real>, w: seq<real>)
    requires |b| == |w| && NonNegative(b)
    requires forall t :: 0 <= t < |w| ==> w[t] > 0.0
    ensures Dot(b, w) >= 0.0
    ensures (exists t :: 0 <= t < |b| && b[t] > 0.0) ==> Dot(b, w) > 0.0
  {
    if b != [] {
      DotPositive(b[1..], w[1..]);
      MulNonNegative(b[0], w[0]);
      if t :| 0 <= t < |b| && b[t] > 0.0 {
        if t == 0 {
          MulPositive(b[0], w[0]);
        } else {
          assert b[1..][t - 1] > 0.0;
        }
      }
    }
  }

  lemma {:induction false} PositiveEntry(b: seq<real>)
    requires NonNegative(b) && Sum(b) > 0.0
    ensures exists t :: 0 <= t < |b| && b[t] > 0.0
  {
    var last := |b| - 1;
    if !(b[last] > 0.0) {
      PositiveEntry(b[..last]);
      var t :| 0 <= t < last && b[..last][t] > 0.0;
      assert b[t] > 0.0;
    }
  }
}
