/** NURBS basis functions: the in-place triangular scheme, its recursive definition and its derivative. */
module Nurbs {
  import opened Common

  // Maximum order accepted for a patch.
  const MAXORDER: nat := 20

  ghost predicate Sorted(kv: seq<real>) {
    forall i, j :: 0 <= i <= j < |kv| ==> kv[i] <= kv[j]
  }

  /** Orders up to `k` can be evaluated at `u` in the nonempty knot interval that starts at `brk`. */
  ghost predicate Segment(kv: seq<real>, u: real, brk: int, k: int) {
    && Sorted(kv) && 0 <= brk && 1 <= k && brk + k <= |kv| && brk + 1 < |kv|
    && kv[brk] <= u <= kv[brk + 1] && kv[brk] < kv[brk + 1]
  }

  // ---------- sums ----------

  ghost function Sum(s: seq<real>): real {
    if s == [] then 0.0 else Sum(s[..|s| - 1]) + s[|s| - 1]
  }

  ghost predicate NonNegative(s: seq<real>) {
    forall i :: 0 <= i < |s| ==> s[i] >= 0.0
  }

  /** The share w[t] of entry t, and zero outside the row. */
  ghost function Kept(o: seq<real>, w: seq<real>, t: int): real
    requires |w| == |o|
  {
    if 0 <= t < |o| then Mul(w[t], o[t]) else 0.0
  }

  /** The other share, 1 - w[t]. */
  ghost function Passed(o: seq<real>, w: seq<real>, t: int): real
    requires |w| == |o|
  {
    if 0 <= t < |o| then Mul(1.0 - w[t], o[t]) else 0.0
  }

  /** Each entry is split in two shares: w[t] stays at t and 1 - w[t] goes to t + 1. */
  ghost function Mix(o: seq<real>, w: seq<real>): (r: seq<real>)
    requires |w| == |o|
    ensures |r| == |o| + 1
  {
    seq(|o| + 1, t requires 0 <= t <= |o| => Kept(o, w, t) + Passed(o, w, t - 1))
  }

  /** Each scaled entry is kept at t and taken away at t + 1. */
  ghost function Spread(o: seq<real>, w: seq<real>): (r: seq<real>)
    requires |w| == |o|
    ensures |r| == |o| + 1
  {
    seq(|o| + 1, t requires 0 <= t <= |o| => Kept(o, w, t) - Kept(o, w, t - 1))
  }

  lemma SharesAddUp(o: seq<real>, w: seq<real>, t: nat)
    requires |w| == |o| && t < |o|
    ensures Kept(o, w, t) + Passed(o, w, t) == o[t]
  {
    MulSum(o[t], w[t], 1.0 - w[t]);
    MulOne(o[t]);
  }

  lemma {:induction false} PrefixSumMix(o: seq<real>, w: seq<real>, n: nat)
    requires |w| == |o| && n <= |o|
    ensures Sum(Mix(o, w)[..n]) == Sum(o[..n]) - Passed(o, w, n - 1)
  {
    if n > 0 {
      PrefixSumMix(o, w, n - 1);
      SharesAddUp(o, w, n - 1);
      assert Mix(o, w)[..n][..n - 1] == Mix(o, w)[..n - 1] && o[..n][..n - 1] == o[..n - 1];
    }
  }

  lemma MixKeepsSum(o: seq<real>, w: seq<real>)
    requires |w| == |o| > 0
    ensures Sum(Mix(o, w)) == Sum(o)
  {
    var n := |o|;
    PrefixSumMix(o, w, n);
    assert Mix(o, w)[..n + 1] == Mix(o, w) && o[..n] == o;
  }

  lemma {:induction false} PrefixSumSpread(o: seq<real>, w: seq<real>, n: nat)
    requires |w| == |o| && n <= |o|
    ensures Sum(Spread(o, w)[..n]) == Kept(o, w, n - 1)
  {
    if n > 0 {
      PrefixSumSpread(o, w, n - 1);
      assert Spread(o, w)[..n][..n - 1] == Spread(o, w)[..n - 1];
    }
  }

  lemma SpreadSumsToZero(o: seq<real>, w: seq<real>)
    requires |w| == |o|
    ensures Sum(Spread(o, w)) == 0.0
  {
    PrefixSumSpread(o, w, |o|);
    assert Spread(o, w)[..|o| + 1] == Spread(o, w);
  }

  // ---------- the triangular scheme ----------

  /** 1 / (kv[i+r-1] - kv[i]) at i = brk - s, and 0 left of the knot vector: what one unit of u adds to omega. */
  ghost function Rate(kv: seq<real>, u: real, brk: int, r: int, s: int): (rate: real)
    requires Segment(kv, u, brk, r) && 2 <= r && 0 <= s <= r - 2
    ensures rate >= 0.0
  {
    var i := brk - s;
    if i < 0 then 0.0 else 1.0 / (kv[i + r - 1] - kv[i])
  }

  /** The weight of the scheme: the position of u between kv[i] and kv[i+r-1], i = brk - s. */
  ghost function Omega(kv: seq<real>, u: real, brk: int, r: int, s: int): real
    requires Segment(kv, u, brk, r) && 2 <= r && 0 <= s <= r - 2
  {
    var i := brk - s;
    if i < 0 then 0.0 else (u - kv[i]) / (kv[i + r - 1] - kv[i])
  }

  lemma OmegaInUnit(kv: seq<real>, u: real, brk: int, r: int, s: int)
    requires Segment(kv, u, brk, r) && 2 <= r && 0 <= s <= r - 2
    ensures 0.0 <= Omega(kv, u, brk, r, s) <= 1.0
  {
    var i := brk - s;
    if i >= 0 {
      var num, den := u - kv[i], kv[i + r - 1] - kv[i];
      assert kv[i] <= kv[brk] && kv[brk + 1] <= kv[i + r - 1];
      assert 0.0 <= num <= den && den > 0.0;
      Quotient(num, den);
    }
  }

  lemma Quotient(num: real, den: real)
    requires 0.0 <= num <= den && den > 0.0
    ensures 0.0 <= num / den <= 1.0
  {
    var q := num / den;
    assert Mul(q, den) == num;
    MulDifference(den, 1.0, q);
    MulOne(den);
    PositiveFactor(q, den);
    PositiveFactor(1.0 - q, den);
  }

  ghost function Omegas(kv: seq<real>, u: real, brk: int, r: int): (w: seq<real>)
    requires Segment(kv, u, brk, r) && 2 <= r
    ensures |w| == r - 1
  {
    seq(r - 1, s requires 0 <= s < r - 1 => Omega(kv, u, brk, r, s))
  }

  ghost function Rates(kv: seq<real>, u: real, brk: int, r: int): (w: seq<real>)
    requires Segment(kv, u, brk, r) && 2 <= r
    ensures |w| == r - 1
  {
    seq(r - 1, s requires 0 <= s < r - 1 => Rate(kv, u, brk, r, s))
  }

  /** The values of order `r`: entry s is the basis function that starts at knot brk - s. */
  ghost function Row(kv: seq<real>, u: real, brk: int, r: int): (b: seq<real>)
    requires Segment(kv, u, brk, r) && 1 <= r
    ensures |b| == r
    decreases r
  {
    if r == 1 then [1.0] else Mix(Row(kv, u, brk, r - 1), Omegas(kv, u, brk, r))
  }

  /** For every order and every nonempty segment the basis values are nonnegative and sum to one. */
  lemma {:induction false} BasisIsConvex(kv: seq<real>, u: real, brk: int, r: int)
    requires Segment(kv, u, brk, r) && 1 <= r
    ensures NonNegative(Row(kv, u, brk, r)) && Sum(Row(kv, u, brk, r)) == 1.0
    decreases r
  {
    if r == 1 {
      assert [1.0][..0] == [];
    } else {
      BasisIsConvex(kv, u, brk, r - 1);
      var o, w := Row(kv, u, brk, r - 1), Omegas(kv, u, brk, r);
      MixKeepsSum(o, w);
      forall s | 0 <= s < r - 1
        ensures 0.0 <= w[s] <= 1.0
      {
        OmegaInUnit(kv, u, brk, r, s);
      }
      MixNonNegative(o, w);
    }
  }

  lemma MixNonNegative(o: seq<real>, w: seq<real>)
    requires |w| == |o| && NonNegative(o)
    requires forall s :: 0 <= s < |w| ==> 0.0 <= w[s] <= 1.0
    ensures NonNegative(Mix(o, w))
  {
    forall t | 0 <= t <= |o|
      ensures Mix(o, w)[t] >= 0.0
    {
      if t < |o| {
        MulNonNegative(w[t], o[t]);
      }
      if t > 0 {
        MulNonNegative(1.0 - w[t - 1], o[t - 1]);
      }
    }
  }

  // ---------- agreement with the recursive definition ----------

  /** The coefficients of the recursive definition, zero when their denominator is zero. */
  ghost function LeftRatio(kv: seq<real>, i: int, p: nat, u: real): real
    requires 0 <= i && i + p < |kv|
  {
    var div := kv[i + p] - kv[i];
    if div != 0.0 then (u - kv[i]) / div else 0.0
  }

  ghost function RightRatio(kv: seq<real>, i: int, p: nat, u: real): real
    requires 0 <= i && i + 1 + p < |kv|
  {
    var div := kv[i + 1 + p] - kv[i + 1];
    if div != 0.0 then (kv[i + 1 + p] - u) / div else 0.0
  }

  /** The recursive (Cox-de Boor) definition. */
  ghost function EvalBase(kv: seq<real>, i: int, p: nat, u: real): real
    requires 0 <= i && i + p + 1 < |kv|
    decreases p
  {
    if p == 0 then (if kv[i] <= u < kv[i + 1] then 1.0 else 0.0)
    else
      Mul(LeftRatio(kv, i, p, u), EvalBase(kv, i, p - 1, u))
        + Mul(RightRatio(kv, i, p, u), EvalBase(kv, i + 1, p - 1, u))
  }

  /** The polynomial that a basis function is on the knot interval that starts at `brk`. */
  ghost function PieceBase(kv: seq<real>, i: int, p: nat, u: real, brk: int): real
    requires 0 <= i && i + p + 1 < |kv|
    decreases p
  {
    if p == 0 then (if i == brk then 1.0 else 0.0)
    else
      Mul(LeftRatio(kv, i, p, u), PieceBase(kv, i, p - 1, u, brk))
      + Mul(RightRatio(kv, i, p, u), PieceBase(kv, i + 1, p - 1, u, brk))
  }

  /** It is the basis function there. */
  lemma {:induction false} PieceIsBase(kv: seq<real>, i: int, p: nat, u: real, brk: int)
    requires Sorted(kv) && 0 <= i && i + p + 1 < |kv|
    requires 0 <= brk && brk + 1 < |kv| && kv[brk] <= u < kv[brk + 1]
    ensures PieceBase(kv, i, p, u, brk) == EvalBase(kv, i, p, u)
    decreases p
  {
    if p == 0 {
      if i > brk {
        assert kv[brk + 1] <= kv[i];
      } else if i < brk {
        assert kv[i + 1] <= kv[brk];
      }
    } else {
      PieceIsBase(kv, i, p - 1, u, brk);
      PieceIsBase(kv, i + 1, p - 1, u, brk);
    }
  }

  lemma PieceStep(kv: seq<real>, i: int, p: nat, u: real, brk: int, x: real, y: real)
    requires 0 <= i && i + p + 1 < |kv| && p > 0
    requires x == PieceBase(kv, i, p - 1, u, brk) && y == PieceBase(kv, i + 1, p - 1, u, brk)
    ensures PieceBase(kv, i, p, u, brk) == Mul(LeftRatio(kv, i, p, u), x) + Mul(RightRatio(kv, i, p, u), y)
  {
  }

  lemma {:induction false} PieceIsLocal(kv: seq<real>, i: int, p: nat, u: real, brk: int)
    requires 0 <= i && i + p + 1 < |kv| && (i > brk || i + p < brk)
    ensures PieceBase(kv, i, p, u, brk) == 0.0
    decreases p
  {
    if p > 0 {
      PieceIsLocal(kv, i, p - 1, u, brk);
      PieceIsLocal(kv, i + 1, p - 1, u, brk);
      MulZero(LeftRatio(kv, i, p, u));
      MulZero(RightRatio(kv, i, p, u));
    }
  }

  /** A basis function vanishes outside its knots. */
  lemma EvalBaseIsLocal(kv: seq<real>, i: int, p: nat, u: real, brk: int)
    requires Sorted(kv) && 0 <= i && i + p + 1 < |kv|
    requires 0 <= brk && brk + 1 < |kv| && kv[brk] <= u < kv[brk + 1]
    requires i > brk || i + p < brk
    ensures EvalBase(kv, i, p, u) == 0.0
  {
    PieceIsBase(kv, i, p, u, brk);
    PieceIsLocal(kv, i, p, u, brk);
  }

  lemma DivMul(x: real, d: real)
    requires d != 0.0
    ensures x / d == Mul(x, 1.0 / d)
  {
  }

  lemma OneMinus(a: real, b: real, u: real)
    requires a < b
    ensures 1.0 - (u - a) / (b - a) == (b - u) / (b - a)
  {
    var d := b - a;
    var inv := 1.0 / d;
    DivMul(u - a, d);
    DivMul(b - u, d);
    DivMul(d, d);
    MulSum(inv, u - a, b - u);
  }

  /** The weights of the scheme are the coefficients of the definition. */
  lemma WeightsAreRatios(kv: seq<real>, u: real, brk: int, r: int, s: int)
    requires Segment(kv, u, brk, r) && 2 <= r && r - 1 <= brk && 0 <= s <= r - 2
    ensures Omega(kv, u, brk, r, s) == LeftRatio(kv, brk - s, r - 1, u)
    ensures 1.0 - Omega(kv, u, brk, r, s) == RightRatio(kv, brk - s - 1, r - 1, u)
  {
    var i := brk - s;
    assert kv[i] <= kv[brk] && kv[brk + 1] <= kv[i + r - 1];
    OneMinus(kv[i], kv[i + r - 1], u);
  }

  /** One entry of a mix, from the two entries it comes from (zero outside the row) and their weights. */
  lemma MixEntry(o: seq<real>, w: seq<real>, s: int, a: real, x: real, b: real, y: real)
    requires |o| == |w| && 0 <= s <= |o|
    requires if s < |o| then a == w[s] && x == o[s] else x == 0.0
    requires if s > 0 then b == 1.0 - w[s - 1] && y == o[s - 1] else y == 0.0
    ensures Mix(o, w)[s] == Mul(a, x) + Mul(b, y)
  {
    MulZero(a);
    MulZero(b);
    assert Kept(o, w, s) == Mul(a, x) && Passed(o, w, s - 1) == Mul(b, y);
  }

  lemma RowEntry(kv: seq<real>, u: real, brk: int, r: int, s: int, a: real, x: real, b: real, y: real)
    requires Segment(kv, u, brk, r) && 2 <= r && 0 <= s < r
    requires if s < r - 1 then a == Omega(kv, u, brk, r, s) && x == Row(kv, u, brk, r - 1)[s] else x == 0.0
    requires if s > 0 then b == 1.0 - Omega(kv, u, brk, r, s - 1) && y == Row(kv, u, brk, r - 1)[s - 1] else y == 0.0
    ensures Row(kv, u, brk, r)[s] == Mul(a, x) + Mul(b, y)
  {
    MixEntry(Row(kv, u, brk, r - 1), Omegas(kv, u, brk, r), s, a, x, b, y);
  }

  lemma RowEntryByRatios(kv: seq<real>, u: real, brk: int, r: int, s: int, x: real, y: real)
    requires Segment(kv, u, brk, r) && 2 <= r && r - 1 <= brk && brk + r < |kv| && 0 <= s < r
    requires x == if s < r - 1 then Row(kv, u, brk, r - 1)[s] else 0.0
    requires y == if s > 0 then Row(kv, u, brk, r - 1)[s - 1] else 0.0
    ensures Row(kv, u, brk, r)[s] == Mul(LeftRatio(kv, brk - s, r - 1, u), x)
            + Mul(RightRatio(kv, brk - s, r - 1, u), y)
  {
    if s < r - 1 {
      WeightsAreRatios(kv, u, brk, r, s);
    }
    if s > 0 {
      WeightsAreRatios(kv, u, brk, r, s - 1);
    }
    RowEntry(kv, u, brk, r, s, LeftRatio(kv, brk - s, r - 1, u), x, RightRatio(kv, brk - s, r - 1, u), y);
  }

  /**
   * The triangular scheme computes the recursive definition: for every sorted knot vector, order and
   * half-open segment with brk >= r-1, entry s is the basis function that starts at knot brk - s.
   */
  lemma RowIsCoxDeBoor(kv: seq<real>, u: real, brk: int, r: int, s: int)
    requires Segment(kv, u, brk, r) && u < kv[brk + 1] && brk + r < |kv|
    requires 1 <= r && r - 1 <= brk && 0 <= s < r
    ensures Row(kv, u, brk, r)[s] == EvalBase(kv, brk - s, r - 1, u)
  {
    RowIsPiece(kv, u, brk, r, s);
    PieceIsBase(kv, brk - s, r - 1, u, brk);
  }

  /** At both ends of the segment too it computes the polynomial of that segment. */
  lemma {:induction false} RowIsPiece(kv: seq<real>, u: real, brk: int, r: int, s: int)
    requires Segment(kv, u, brk, r) && brk + r < |kv| && 1 <= r && r - 1 <= brk && 0 <= s < r
    ensures Row(kv, u, brk, r)[s] == PieceBase(kv, brk - s, r - 1, u, brk)
    decreases r, 1
  {
    if r > 1 {
      var x, y := PieceBase(kv, brk - s, r - 2, u, brk), PieceBase(kv, brk - s + 1, r - 2, u, brk);
      RowBelow(kv, u, brk, r, s);
      RowBelow(kv, u, brk, r, s - 1);
      EntryIsPiece(kv, u, brk, r, s, x, y);
    }
  }

  lemma EntryIsPiece(kv: seq<real>, u: real, brk: int, r: int, s: int, x: real, y: real)
    requires Segment(kv, u, brk, r) && brk + r < |kv| && 2 <= r && r - 1 <= brk && 0 <= s < r
    requires x == PieceBase(kv, brk - s, r - 2, u, brk) && y == PieceBase(kv, brk - s + 1, r - 2, u, brk)
    requires x == if s < r - 1 then Row(kv, u, brk, r - 1)[s] else 0.0
    requires y == if s > 0 then Row(kv, u, brk, r - 1)[s - 1] else 0.0
    ensures Row(kv, u, brk, r)[s] == PieceBase(kv, brk - s, r - 1, u, brk)
  {
    RowEntryByRatios(kv, u, brk, r, s, x, y);
    PieceStep(kv, brk - s, r - 1, u, brk, x, y);
  }

  /** The order below, with the basis functions just outside the row, which vanish. */
  lemma {:induction false} RowBelow(kv: seq<real>, u: real, brk: int, r: int, t: int)
    requires Segment(kv, u, brk, r) && brk + r < |kv| && 2 <= r <= brk + 1 && -1 <= t < r
    ensures PieceBase(kv, brk - t, r - 2, u, brk) == if 0 <= t < r - 1 then Row(kv, u, brk, r - 1)[t] else 0.0
    decreases r, 0
  {
    if 0 <= t < r - 1 {
      RowIsPiece(kv, u, brk, r - 1, t);
    } else {
      PieceIsLocal(kv, brk - t, r - 2, u, brk);
    }
  }

  // ---------- the derivative ----------

  ghost function Add(a: seq<real>, b: seq<real>): (r: seq<real>)
    requires |a| == |b|
    ensures |r| == |a|
  {
    seq(|a|, t requires 0 <= t < |a| => a[t] + b[t])
  }

  ghost function Scale(f: real, a: seq<real>): (r: seq<real>)
    ensures |r| == |a|
  {
    seq(|a|, t requires 0 <= t < |a| => Mul(f, a[t]))
  }

  lemma AddScaled(f: real, a: seq<real>)
    ensures Add(Scale(f, a), a) == Scale(f + 1.0, a)
  {
    forall t | 0 <= t < |a|
      ensures Add(Scale(f, a), a)[t] == Scale(f + 1.0, a)[t]
    {
      MulSum(a[t], f, 1.0);
      MulOne(a[t]);
    }
  }

  /**
   * The derivative of `Row` by u, by the product rule on each level of the scheme: the coefficient of
   * the infinitesimal when the scheme runs on u plus an infinitesimal.
   */
  ghost function RowDerivative(kv: seq<real>, u: real, brk: int, r: int): (d: seq<real>)
    requires Segment(kv, u, brk, r) && 1 <= r
    ensures |d| == r
    decreases r
  {
    if r == 1 then [0.0]
    else
      Add(Mix(RowDerivative(kv, u, brk, r - 1), Omegas(kv, u, brk, r)),
          Spread(Row(kv, u, brk, r - 1), Rates(kv, u, brk, r)))
  }

  /** How the weights of two successive orders relate at neighbouring knots. */
  lemma CrossTerms(kv: seq<real>, u: real, brk: int, r: int, t: int)
    requires Segment(kv, u, brk, r) && 3 <= r && r - 1 <= brk && 0 <= t <= r - 3
    ensures Mul(Omega(kv, u, brk, r, t), Rate(kv, u, brk, r - 1, t))
         == Mul(Rate(kv, u, brk, r, t), Omega(kv, u, brk, r - 1, t))
    ensures Mul(1.0 - Omega(kv, u, brk, r, t + 1), Rate(kv, u, brk, r - 1, t))
         == Mul(Rate(kv, u, brk, r, t + 1), 1.0 - Omega(kv, u, brk, r - 1, t))
  {
    var i := brk - t;
    assert kv[i] <= kv[brk] && kv[brk + 1] <= kv[i + r - 2] <= kv[i + r - 1] && kv[i - 1] <= kv[i];
    var a, b := kv[i + r - 1] - kv[i], kv[i + r - 2] - kv[i];
    SwapQuotients(u - kv[i], a, b);
    var c := kv[i + r - 2] - kv[i - 1];
    OneMinus(kv[i - 1], kv[i + r - 2], u);
    OneMinus(kv[i], kv[i + r - 2], u);
    SwapQuotients(kv[i + r - 2] - u, c, b);
  }

  lemma SwapQuotients(x: real, a: real, b: real)
    requires a != 0.0 && b != 0.0
    ensures Mul(x / a, 1.0 / b) == Mul(1.0 / a, x / b)
  {
    DivMul(x, a);
    DivMul(x, b);
    MulAssoc(x, 1.0 / a, 1.0 / b);
    MulSwap(1.0 / a, x, 1.0 / b);
  }

  /** The relation between the weights w, v of one order and those w', v' of the order below, at entry s. */
  ghost predicate RelatedAt(w: seq<real>, v: seq<real>, w': seq<real>, v': seq<real>, s: int)
    requires 0 <= s < |w'| == |v'| && |w| == |v| == |w'| + 1
  {
    && Mul(w[s], v'[s]) == Mul(v[s], w'[s])
    && Mul(1.0 - w[s + 1], v'[s]) == Mul(v[s + 1], 1.0 - w'[s])
  }

  ghost predicate Related(n: nat, w: seq<real>, v: seq<real>, w': seq<real>, v': seq<real>) {
    && |w| == |v| == n + 1 && |w'| == |v'| == n
    && forall s :: 0 <= s < n ==> RelatedAt(w, v, w', v', s)
  }

  lemma WeightsRelated(kv: seq<real>, u: real, brk: int, r: int)
    requires Segment(kv, u, brk, r) && 3 <= r && r - 1 <= brk
    ensures Related(r - 2, Omegas(kv, u, brk, r), Rates(kv, u, brk, r),
                    Omegas(kv, u, brk, r - 1), Rates(kv, u, brk, r - 1))
  {
    var w, v := Omegas(kv, u, brk, r), Rates(kv, u, brk, r);
    var w', v' := Omegas(kv, u, brk, r - 1), Rates(kv, u, brk, r - 1);
    forall s | 0 <= s < r - 2
      ensures RelatedAt(w, v, w', v', s)
    {
      CrossTerms(kv, u, brk, r, s);
    }
  }

  /** The products that appear on both sides of `MixSpread`. */
  lemma ShareProducts(o: seq<real>, w: seq<real>, v: seq<real>, w': seq<real>, v': seq<real>, t: int)
    requires Related(|o|, w, v, w', v') && 0 <= t <= |o|
    ensures Mul(w[t], Kept(o, v', t)) == Mul(v[t], Kept(o, w', t))
    ensures Mul(1.0 - w[t], Kept(o, v', t - 1)) == Mul(v[t], Passed(o, w', t - 1))
  {
    if t < |o| {
      assert RelatedAt(w, v, w', v', t);
      Assoc(w[t], v'[t], v[t], w'[t], o[t]);
    }
    if t > 0 {
      assert RelatedAt(w, v, w', v', t - 1);
      Assoc(1.0 - w[t], v'[t - 1], v[t], 1.0 - w'[t - 1], o[t - 1]);
    }
  }

  lemma MixOfSpread(o: seq<real>, v': seq<real>, w: seq<real>, t: int, w0: real, w1: real)
    requires |v'| == |o| && |w| == |o| + 1 && 0 <= t <= |o| + 1
    requires w0 == (if t <= |o| then w[t] else 0.0) && w1 == (if t > 0 then w[t - 1] else 1.0)
    ensures Mix(Spread(o, v'), w)[t]
         == Mul(w0, Kept(o, v', t) - Kept(o, v', t - 1)) + Mul(1.0 - w1, Kept(o, v', t - 1) - Kept(o, v', t - 2))
  {
    var s := Spread(o, v');
    MulZero(Kept(o, v', t) - Kept(o, v', t - 1));
    MulZero(Kept(o, v', t - 1) - Kept(o, v', t - 2));
    assert Kept(s, w, t) == Mul(w0, Kept(o, v', t) - Kept(o, v', t - 1));
    assert Passed(s, w, t - 1) == Mul(1.0 - w1, Kept(o, v', t - 1) - Kept(o, v', t - 2));
  }

  lemma SpreadOfMix(o: seq<real>, w': seq<real>, v: seq<real>, t: int, v0: real, v1: real)
    requires |w'| == |o| && |v| == |o| + 1 && 0 <= t <= |o| + 1
    requires v0 == (if t <= |o| then v[t] else 0.0) && v1 == (if t > 0 then v[t - 1] else 0.0)
    ensures Spread(Mix(o, w'), v)[t]
         == Mul(v0, Kept(o, w', t) + Passed(o, w', t - 1)) - Mul(v1, Kept(o, w', t - 1) + Passed(o, w', t - 2))
  {
    var m := Mix(o, w');
    MulZero(Kept(o, w', t) + Passed(o, w', t - 1));
    MulZero(Kept(o, w', t - 1) + Passed(o, w', t - 2));
    assert Kept(m, v, t) == Mul(v0, Kept(o, w', t) + Passed(o, w', t - 1));
    assert Kept(m, v, t - 1) == Mul(v1, Kept(o, w', t - 1) + Passed(o, w', t - 2));
  }

  /** Mixing a spread is spreading a mix. */
  lemma MixSpread(o: seq<real>, w: seq<real>, v: seq<real>, w': seq<real>, v': seq<real>, t: int)
    requires Related(|o|, w, v, w', v') && 0 <= t <= |o| + 1
    ensures Mix(Spread(o, v'), w)[t] == Spread(Mix(o, w'), v)[t]
  {
    var w0, v0, w1, v1 := 0.0, 0.0, 1.0, 0.0;
    if t <= |o| {
      ShareProducts(o, w, v, w', v', t);
      w0, v0 := w[t], v[t];
    }
    if t > 0 {
      ShareProducts(o, w, v, w', v', t - 1);
      w1, v1 := w[t - 1], v[t - 1];
    }
    MixOfSpread(o, v', w, t, w0, w1);
    SpreadOfMix(o, w', v, t, v0, v1);
    Middle(w0, w1, v0, v1, Kept(o, v', t), Kept(o, v', t - 1), Kept(o, v', t - 2),
           Kept(o, w', t), Kept(o, w', t - 1), Passed(o, w', t - 1), Passed(o, w', t - 2));
  }

  lemma Middle(w0: real, w1: real, v0: real, v1: real, p0: real, p1: real, p2: real,
               q0: real, q1: real, r1: real, r2: real)
    requires Mul(w0, p0) == Mul(v0, q0) && Mul(1.0 - w0, p1) == Mul(v0, r1)
    requires Mul(w1, p1) == Mul(v1, q1) && Mul(1.0 - w1, p2) == Mul(v1, r2)
    ensures Mul(w0, p0 - p1) + Mul(1.0 - w1, p1 - p2) == Mul(v0, q0 + r1) - Mul(v1, q1 + r2)
  {
    MulDifference(w0, p0, p1);
    MulDifference(1.0 - w1, p1, p2);
    MulSum(v0, q0, r1);
    MulSum(v1, q1, r2);
    MulDifference(p1, 1.0, w0);
    MulDifference(p1, 1.0, w1);
  }

  lemma Assoc(p: real, q: real, r: real, s: real, x: real)
    requires Mul(p, q) == Mul(r, s)
    ensures Mul(p, Mul(q, x)) == Mul(r, Mul(s, x))
  {
    MulAssoc(p, q, x);
    MulAssoc(r, s, x);
  }

  lemma MixScale(d: seq<real>, f: real, w: seq<real>, t: int)
    requires |d| == |w| && 0 <= t <= |d|
    ensures Mix(Scale(f, d), w)[t] == Mul(f, Mix(d, w)[t])
  {
    if t < |d| {
      MulSwap(w[t], f, d[t]);
    }
    if t > 0 {
      MulSwap(1.0 - w[t - 1], f, d[t - 1]);
    }
    var x, y := Kept(d, w, t), Passed(d, w, t - 1);
    MulZero(f);
    assert Kept(Scale(f, d), w, t) == Mul(f, x) && Passed(Scale(f, d), w, t - 1) == Mul(f, y);
    MulSum(f, x, y);
  }

  lemma DerivativeStep(o: seq<real>, w: seq<real>, v: seq<real>, w': seq<real>, v': seq<real>, f: real)
    requires |o| > 0 && Related(|o|, w, v, w', v')
    ensures Mix(Scale(f, Spread(o, v')), w) == Scale(f, Spread(Mix(o, w'), v))
  {
    forall t | 0 <= t <= |o| + 1
      ensures Mix(Scale(f, Spread(o, v')), w)[t] == Scale(f, Spread(Mix(o, w'), v))[t]
    {
      MixScale(Spread(o, v'), f, w, t);
      MixSpread(o, w, v, w', v', t);
    }
  }

  lemma MixOfZero(w: seq<real>, x: seq<real>)
    requires |w| == 1 && |x| == 2
    ensures Mix([0.0], w) == Scale(0.0, x)
  {
    forall t | 0 <= t < 2
      ensures Mix([0.0], w)[t] == 0.0 && Scale(0.0, x)[t] == 0.0
    {
      MulZero(x[t]);
      MulZero(w[0]);
      MulZero(1.0 - w[0]);
      assert Kept([0.0], w, t) == 0.0 && Passed([0.0], w, t - 1) == 0.0;
    }
  }

  /**
   * The derivative of the basis of order r is r-1 times the spread of the basis of order r-1: the closed
   * form that the derivative routine evaluates.
   */
  lemma {:induction false} DerivativeClosedForm(kv: seq<real>, u: real, brk: int, r: int)
    requires Segment(kv, u, brk, r) && 2 <= r && r - 1 <= brk
    ensures RowDerivative(kv, u, brk, r)
         == Scale((r - 1) as real, Spread(Row(kv, u, brk, r - 1), Rates(kv, u, brk, r)))
    decreases r
  {
    if r > 2 {
      DerivativeClosedForm(kv, u, brk, r - 1);
    }
    MixedDerivative(kv, u, brk, r);
    AddScaled((r - 2) as real, Spread(Row(kv, u, brk, r - 1), Rates(kv, u, brk, r)));
  }

  /** The derivative of order r - 1, mixed. */
  lemma MixedDerivative(kv: seq<real>, u: real, brk: int, r: int)
    requires Segment(kv, u, brk, r) && 2 <= r && r - 1 <= brk
    requires r > 2 ==>
               RowDerivative(kv, u, brk, r - 1)
               == Scale((r - 2) as real, Spread(Row(kv, u, brk, r - 2), Rates(kv, u, brk, r - 1)))
    ensures Mix(RowDerivative(kv, u, brk, r - 1), Omegas(kv, u, brk, r))
         == Scale((r - 2) as real, Spread(Row(kv, u, brk, r - 1), Rates(kv, u, brk, r)))
  {
    if r > 2 {
      WeightsRelated(kv, u, brk, r);
      DerivativeStep(Row(kv, u, brk, r - 2), Omegas(kv, u, brk, r), Rates(kv, u, brk, r),
                     Omegas(kv, u, brk, r - 1), Rates(kv, u, brk, r - 1), (r - 2) as real);
    } else {
      MixOfZero(Omegas(kv, u, brk, 2), Spread(Row(kv, u, brk, 1), Rates(kv, u, brk, 2)));
    }
  }

  // ---------- the derivative is the derivative ----------

  /** b' == b + h d + h^2 e, entry by entry. */
  ghost predicate Expands(b': seq<real>, b: seq<real>, d: seq<real>, e: seq<real>, h: real) {
    |b'| == |b| == |d| == |e| && forall t :: 0 <= t < |b| ==> b'[t] == Taylor(b[t], d[t], e[t], h)
  }

  ghost function Taylor(x: real, dx: real, ex: real, h: real): real { x + Mul(h, dx) + Mul(h, Mul(h, ex)) }

  lemma TaylorSum(x: real, dx: real, ex: real, y: real, dy: real, ey: real, h: real)
    ensures Taylor(x, dx, ex, h) + Taylor(y, dy, ey, h) == Taylor(x + y, dx + dy, ex + ey, h)
    ensures Taylor(x, dx, ex, h) - Taylor(y, dy, ey, h) == Taylor(x - y, dx - dy, ex - ey, h)
  {
    MulSum(h, dx, dy);
    MulSum(h, ex, ey);
    MulSum(h, Mul(h, ex), Mul(h, ey));
    MulDifference(h, dx, dy);
    MulDifference(h, ex, ey);
    MulDifference(h, Mul(h, ex), Mul(h, ey));
  }

  lemma TaylorZero(h: real)
    ensures Taylor(0.0, 0.0, 0.0, h) == 0.0
  {
    MulZero(h);
  }

  /** The product rule for one share. */
  lemma ShareTaylor(w: real, v: real, x: real, dx: real, ex: real, h: real)
    ensures Mul(w + Mul(h, v), Taylor(x, dx, ex, h))
         == Taylor(Mul(w, x), Mul(w, dx) + Mul(v, x), Mul(w + Mul(h, v), ex) + Mul(v, dx), h)
  {
    var w' := w + Mul(h, v);
    var a, b := Mul(h, dx), Mul(h, Mul(h, ex));
    MulSum(w', x + a, b);
    MulSum(w', x, a);
    MulSum(x, w, Mul(h, v));
    MulSum(a, w, Mul(h, v));
    MulAssoc(h, v, x);
    MulSwap(w, h, dx);
    MulAssoc(h, v, a);
    MulSwap(v, h, dx);
    MulSwap(w', h, Mul(h, ex));
    MulSwap(w', h, ex);
    MulSum(h, Mul(w, dx), Mul(v, x));
    MulSum(h, Mul(w', ex), Mul(v, dx));
    MulSum(h, Mul(h, Mul(w', ex)), Mul(h, Mul(v, dx)));
  }

  /** The weights w' are w with the rates v over the distance h. */
  ghost predicate Moved(w': seq<real>, w: seq<real>, v: seq<real>, h: real) {
    |w'| == |w| == |v| && forall t :: 0 <= t < |w| ==> w'[t] == w[t] + Mul(h, v[t])
  }

  lemma SharesExpand(o': seq<real>, o: seq<real>, d: seq<real>, e: seq<real>,
                     w': seq<real>, w: seq<real>, v: seq<real>, h: real, t: int)
    requires Expands(o', o, d, e, h) && Moved(w', w, v, h) && |w| == |o|
    ensures Kept(o', w', t) == Taylor(Kept(o, w, t), Kept(d, w, t) + Kept(o, v, t), Kept(e, w', t) + Kept(d, v, t), h)
    ensures Passed(o', w', t)
         == Taylor(Passed(o, w, t), Passed(d, w, t) - Kept(o, v, t), Passed(e, w', t) - Kept(d, v, t), h)
  {
    if 0 <= t < |o| {
      ShareTaylor(w[t], v[t], o[t], d[t], e[t], h);
      SharesAddUp(o', w', t);
      SharesAddUp(o, w, t);
      SharesAddUp(d, w, t);
      SharesAddUp(e, w', t);
      TaylorSum(o[t], d[t], e[t], Kept(o, w, t), Kept(d, w, t) + Kept(o, v, t), Kept(e, w', t) + Kept(d, v, t), h);
    } else {
      TaylorZero(h);
    }
  }

  lemma MixExpands(o': seq<real>, o: seq<real>, d: seq<real>, e: seq<real>,
                   w': seq<real>, w: seq<real>, v: seq<real>, h: real)
    requires Expands(o', o, d, e, h) && Moved(w', w, v, h) && |w| == |o|
    ensures Expands(Mix(o', w'), Mix(o, w), Add(Mix(d, w), Spread(o, v)), Add(Mix(e, w'), Spread(d, v)), h)
  {
    var b, db, eb := Mix(o, w), Add(Mix(d, w), Spread(o, v)), Add(Mix(e, w'), Spread(d, v));
    forall t | 0 <= t <= |o|
      ensures Mix(o', w')[t] == Taylor(b[t], db[t], eb[t], h)
    {
      SharesExpand(o', o, d, e, w', w, v, h, t);
      SharesExpand(o', o, d, e, w', w, v, h, t - 1);
      TaylorSum(Kept(o, w, t), Kept(d, w, t) + Kept(o, v, t), Kept(e, w', t) + Kept(d, v, t),
                Passed(o, w, t - 1), Passed(d, w, t - 1) - Kept(o, v, t - 1), Passed(e, w', t - 1) - Kept(d, v, t - 1),
                  h);
    }
  }

  /** What is left of the row at u + h after the terms of degree zero and one, divided by h^2. */
  ghost function Remainder(kv: seq<real>, u: real, h: real, brk: int, r: int): (e: seq<real>)
    requires Segment(kv, u, brk, r) && Segment(kv, u + h, brk, r) && 1 <= r
    ensures |e| == r
    decreases r
  {
    if r == 1 then [0.0]
    else
      Add(Mix(Remainder(kv, u, h, brk, r - 1), Omegas(kv, u + h, brk, r)),
          Spread(RowDerivative(kv, u, brk, r - 1), Rates(kv, u, brk, r)))
  }

  lemma OmegasMoved(kv: seq<real>, u: real, h: real, brk: int, r: int)
    requires Segment(kv, u, brk, r) && Segment(kv, u + h, brk, r) && 2 <= r
    ensures Moved(Omegas(kv, u + h, brk, r), Omegas(kv, u, brk, r), Rates(kv, u, brk, r), h)
  {
    forall s | 0 <= s < r - 1
      ensures Omega(kv, u + h, brk, r, s) == Omega(kv, u, brk, r, s) + Mul(h, Rate(kv, u, brk, r, s))
    {
      var i := brk - s;
      if i < 0 {
        MulZero(h);
      } else {
        assert kv[i] <= kv[brk] && kv[brk + 1] <= kv[i + r - 1];
        var den := kv[i + r - 1] - kv[i];
        DivMul(u - kv[i], den);
        DivMul(u + h - kv[i], den);
        MulSum(1.0 / den, u - kv[i], h);
      }
    }
  }

  lemma {:induction false} RowExpands(kv: seq<real>, u: real, h: real, brk: int, r: int)
    requires Segment(kv, u, brk, r) && Segment(kv, u + h, brk, r) && 1 <= r
    ensures Expands(Row(kv, u + h, brk, r), Row(kv, u, brk, r), RowDerivative(kv, u, brk, r),
                    Remainder(kv, u, h, brk, r), h)
    decreases r
  {
    if r == 1 {
      MulZero(h);
    } else {
      RowExpands(kv, u, h, brk, r - 1);
      OmegasMoved(kv, u, h, brk, r);
      MixExpands(Row(kv, u + h, brk, r - 1), Row(kv, u, brk, r - 1), RowDerivative(kv, u, brk, r - 1),
                 Remainder(kv, u, h, brk, r - 1), Omegas(kv, u + h, brk, r), Omegas(kv, u, brk, r),
                   Rates(kv, u, brk, r), h);
    }
  }

  ghost predicate Bounded(x: seq<real>, m: real) {
    forall t :: 0 <= t < |x| ==> -m <= x[t] <= m
  }

  lemma ProductBounded(w: real, top: real, x: real, m: real)
    requires 0.0 <= w <= top && -m <= x <= m
    ensures -Mul(top, m) <= Mul(w, x) <= Mul(top, m)
  {
    MulNonNegative(w, m - x);
    MulNonNegative(w, x + m);
    MulNonNegative(top - w, m);
    MulDifference(w, m, x);
    MulSum(w, x, m);
    MulDifference(m, top, w);
  }

  ghost predicate AllBetween(w: seq<real>, top: real) {
    forall t :: 0 <= t < |w| ==> 0.0 <= w[t] <= top
  }

  lemma MixBounded(o: seq<real>, w: seq<real>, m: real)
    requires |w| == |o| && Bounded(o, m) && AllBetween(w, 1.0) && m >= 0.0
    ensures Bounded(Mix(o, w), m + m)
  {
    MulOne(m);
    forall t | 0 <= t <= |o|
      ensures -(m + m) <= Mix(o, w)[t] <= m + m
    {
      if t < |o| {
        ProductBounded(w[t], 1.0, o[t], m);
      }
      if t > 0 {
        ProductBounded(1.0 - w[t - 1], 1.0, o[t - 1], m);
      }
    }
  }

  lemma SpreadBounded(o: seq<real>, v: seq<real>, m: real, top: real)
    requires |v| == |o| && Bounded(o, m) && AllBetween(v, top) && m >= 0.0 && top >= 0.0
    ensures Bounded(Spread(o, v), Mul(top, m) + Mul(top, m))
  {
    MulNonNegative(top, m);
    forall t | 0 <= t <= |o|
      ensures -(Mul(top, m) + Mul(top, m)) <= Spread(o, v)[t] <= Mul(top, m) + Mul(top, m)
    {
      if t < |o| {
        ProductBounded(v[t], top, o[t], m);
      }
      if t > 0 {
        ProductBounded(v[t - 1], top, o[t - 1], m);
      }
    }
  }

  lemma StepBounded(e: seq<real>, w: seq<real>, m: real, d: seq<real>, v: seq<real>, n: real, top: real)
    requires |w| == |e| == |d| == |v| && Bounded(e, m) && AllBetween(w, 1.0) && m >= 0.0
    requires Bounded(d, n) && AllBetween(v, top) && n >= 0.0 && top >= 0.0
    ensures Bounded(Add(Mix(e, w), Spread(d, v)), m + m + (Mul(top, n) + Mul(top, n)))
  {
    MixBounded(e, w, m);
    SpreadBounded(d, v, n, top);
  }

  /** The largest rate on a knot interval. */
  ghost function TopRate(kv: seq<real>, brk: int): (top: real)
    requires 0 <= brk && brk + 1 < |kv| && kv[brk] < kv[brk + 1]
    ensures top > 0.0
  {
    1.0 / (kv[brk + 1] - kv[brk])
  }

  lemma Reciprocals(a: real, b: real)
    requires 0.0 < a <= b
    ensures 1.0 / b <= 1.0 / a
  {
  }

  lemma WeightsBetween(kv: seq<real>, u: real, brk: int, r: int)
    requires Segment(kv, u, brk, r) && 2 <= r
    ensures AllBetween(Omegas(kv, u, brk, r), 1.0) && AllBetween(Rates(kv, u, brk, r), TopRate(kv, brk))
  {
    forall s | 0 <= s < r - 1
      ensures 0.0 <= Omega(kv, u, brk, r, s) <= 1.0 && 0.0 <= Rate(kv, u, brk, r, s) <= TopRate(kv, brk)
    {
      OmegaInUnit(kv, u, brk, r, s);
      var i := brk - s;
      if i >= 0 {
        assert kv[i] <= kv[brk] && kv[brk + 1] <= kv[i + r - 1];
        Reciprocals(kv[brk + 1] - kv[brk], kv[i + r - 1] - kv[i]);
      }
    }
  }

  /** A bound of the derivative of order r on an interval with the given largest rate. */
  ghost function SlopeBound(r: nat, top: real): (m: real)
    requires top >= 0.0
    ensures m >= 0.0
  {
    if r <= 1 then 0.0 else SlopeBound(r - 1, top) + SlopeBound(r - 1, top) + (top + top)
  }

  /** A bound of the remainder of order r, which depends neither on u nor on h. */
  ghost function CurveBound(r: nat, top: real): (m: real)
    requires top >= 0.0
    ensures m >= 0.0
  {
    if r <= 1 then 0.0
    else
      MulNonNegative(top, SlopeBound(r - 1, top));
      var spread := Mul(top, SlopeBound(r - 1, top));
      CurveBound(r - 1, top) + CurveBound(r - 1, top) + (spread + spread)
  }

  lemma {:induction false} RowBounded(kv: seq<real>, u: real, brk: int, r: int)
    requires Segment(kv, u, brk, r) && 1 <= r
    ensures Bounded(Row(kv, u, brk, r), 1.0)
    decreases r
  {
    BasisIsConvex(kv, u, brk, r);
    var b := Row(kv, u, brk, r);
    forall t | 0 <= t < r
      ensures b[t] <= 1.0
    {
      EntryBelowSum(b, t);
    }
  }

  lemma {:induction false} EntryBelowSum(b: seq<real>, t: nat)
    requires NonNegative(b) && t < |b|
    ensures 0.0 <= b[t] <= Sum(b)
  {
    var n := |b| - 1;
    SumNonNegative(b[..n]);
    if t < n {
      EntryBelowSum(b[..n], t);
    }
  }

  lemma {:induction false} SumNonNegative(b: seq<real>)
    requires NonNegative(b)
    ensures Sum(b) >= 0.0
  {
    if b != [] {
      SumNonNegative(b[..|b| - 1]);
    }
  }

  lemma {:induction false} SlopeBounded(kv: seq<real>, u: real, brk: int, r: int)
    requires Segment(kv, u, brk, r) && 1 <= r
    ensures Bounded(RowDerivative(kv, u, brk, r), SlopeBound(r, TopRate(kv, brk)))
    decreases r
  {
    if r > 1 {
      var top := TopRate(kv, brk);
      SlopeBounded(kv, u, brk, r - 1);
      RowBounded(kv, u, brk, r - 1);
      WeightsBetween(kv, u, brk, r);
      StepBounded(RowDerivative(kv, u, brk, r - 1), Omegas(kv, u, brk, r), SlopeBound(r - 1, top),
                  Row(kv, u, brk, r - 1), Rates(kv, u, brk, r), 1.0, top);
      MulOne(top);
    }
  }

  lemma {:induction false} CurveBounded(kv: seq<real>, u: real, h: real, brk: int, r: int)
    requires Segment(kv, u, brk, r) && Segment(kv, u + h, brk, r) && 1 <= r
    ensures Bounded(Remainder(kv, u, h, brk, r), CurveBound(r, TopRate(kv, brk)))
    decreases r
  {
    if r > 1 {
      var top := TopRate(kv, brk);
      CurveBounded(kv, u, h, brk, r - 1);
      SlopeBounded(kv, u, brk, r - 1);
      WeightsBetween(kv, u, brk, r);
      WeightsBetween(kv, u + h, brk, r);
      StepBounded(Remainder(kv, u, h, brk, r - 1), Omegas(kv, u + h, brk, r), CurveBound(r - 1, top),
                  RowDerivative(kv, u, brk, r - 1), Rates(kv, u, brk, r), SlopeBound(r - 1, top), top);
    }
  }

  /**
   * `RowDerivative` is the derivative of `Row`: on each nonempty knot interval the row at u + h differs from the
   * row at u plus h times it by no more than a constant times h^2.
   */
  lemma RowIsDifferentiable(kv: seq<real>, u: real, h: real, brk: int, r: int, s: int)
    requires Segment(kv, u, brk, r) && Segment(kv, u + h, brk, r) && 0 <= s < r
    ensures var error := Row(kv, u + h, brk, r)[s] - (Row(kv, u, brk, r)[s] + Mul(h, RowDerivative(kv, u, brk, r)[s]));
            var most := Mul(CurveBound(r, TopRate(kv, brk)), Mul(h, h));
            -most <= error <= most
  {
    RowExpands(kv, u, h, brk, r);
    CurveBounded(kv, u, h, brk, r);
    var e, m := Remainder(kv, u, h, brk, r)[s], CurveBound(r, TopRate(kv, brk));
    SquareNonNegative(h);
    ProductBounded(Mul(h, h), Mul(h, h), e, m);
    MulAssoc(h, h, e);
    assert Mul(m, Mul(h, h)) == Mul(Mul(h, h), m);
  }

  lemma SquareNonNegative(h: real)
    ensures Mul(h, h) >= 0.0
  {
    if h >= 0.0 {
      MulNonNegative(h, h);
    } else {
      MulNonNegative(-h, -h);
    }
  }
}
