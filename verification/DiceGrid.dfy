/** The size of the grid that a small enough primitive is diced into. */
module DiceGrid {
  import opened Common
  import opened Pieces

  // What the raster estimate must not fall below.
  const RI_EPSILON: real := 0.0000000001

  /** n rounded up to whole SIMD blocks of `flen` lanes. */
  function PadSize(n: int, flen: int): int
    requires flen >= 1
  {
    ((n + flen - 1) / flen) * flen
  }

  function MaxSize(flen: int): int
    requires flen >= 1
  {
    PadSize(48, flen) * 48
  }

  /** The SIMD lengths in use divide 48. */
  predicate Divides48(flen: int) { flen in {1, 2, 3, 4, 6, 8, 12, 16, 24, 48} }

  lemma PadIsLeast(n: int, flen: int)
    requires flen >= 1
    ensures n <= PadSize(n, flen) < n + flen && PadSize(n, flen) % flen == 0
  {
    var q, r := (n + flen - 1) / flen, (n + flen - 1) % flen;
    assert n + flen - 1 == q * flen + r && 0 <= r < flen;
    MultipleMod(q, flen);
  }

  lemma MultipleMod(q: int, d: int)
    requires d >= 1
    ensures (q * d) % d == 0
  {
    var m := q * d;
    assert m == d * (m / d) + m % d;
    var k := q - m / d;
    assert m % d == d * k;
    assert k >= 1 ==> d * k >= d;
    assert k <= -1 ==> d * k <= -d;
  }

  /** Padding does not pass a multiple. */
  lemma PadWithin(n: int, flen: int)
    requires 1 <= n <= 48 && Divides48(flen)
    ensures PadSize(n, flen) <= 48
  {
  }

  lemma SqrtBound(area: real, dim: real)
    requires 0.0 <= dim && dim * dim == area <= 2304.0
    ensures dim <= 48.0 && (area > 0.0 ==> dim > 0.0)
  {
    assert dim > 48.0 ==> dim * dim > 48.0 * 48.0;
  }

  lemma ProductBound(wd: int, he: int)
    requires 0 <= wd <= 48 && 0 <= he <= 48
    ensures wd * he <= 2304
  {
    assert wd * he <= 48 * he;
  }

  /**
   * The answer for a primitive of the given raster area and bound: too small is culled, too large is split both
   * ways, and otherwise the grid is whole SIMD blocks wide and fits the shading buffers.
   */
  method CheckForSplit(area: real, dim: real, bound: Bound, flen: int) returns (ans: Answer)
    requires Divides48(flen) && (0.0 <= area ==> 0.0 <= dim && dim * dim == area)
    ensures ans == Cull <==> area < RI_EPSILON
    ensures ans.Split? <==> area > MaxSize(flen) as real
    ensures ans.Split? ==> ans == Split(true, true)
    ensures ans.Dice? ==> ans.bound == bound && ans.wd % flen == 0
    ensures ans.Dice? ==> 1 <= ans.he <= ans.wd <= 48 && ans.wd * ans.he <= MaxSize(flen)
    ensures ans.Dice? ==> (ans.he as real - 1.0) < dim <= ans.he as real && ans.wd < ans.he + flen
  {
    assert MaxSize(flen) == 2304;
    if area <= MaxSize(flen) as real {
      if area < RI_EPSILON {
        return Cull;
      }
      SqrtBound(area, dim);
      var c := Ceil(dim);
      PadIsLeast(c, flen);
      PadWithin(c, flen);
      ProductBound(PadSize(c, flen), c);
      ans := Dice(bound, PadSize(c, flen), c);
    } else {
      ans := Split(true, true);
    }
  }
}
