/** The derivative of a quotient, with a bound of the error of degree two. */
module Quotients {
  import opened Common
  import opened Nurbs

  lemma SignedProduct(a: real, x: real, m: real, n: real)
    requires -m <= a <= m && -n <= x <= n
    ensures -Mul(m, n) <= Mul(a, x) <= Mul(m, n)
  {
    if a >= 0.0 {
      ProductBounded(a, m, x, n);
    } else {
      ProductBounded(-a, m, x, n);
      MulDifference(x, 0.0, a);
      MulZero(x);
    }
  }

  /** A factor and its inverse can be put in and taken out. */
  lemma PutIn(a: real, j: real, w: real, i: real)
    requires Mul(w, i) == 1.0
    ensures Mul(a, j) == Mul(Mul(a, w), Mul(i, j))
  {
    MulAssoc(a, w, Mul(i, j));
    MulAssoc(w, i, j);
    MulOne(j);
  }

  lemma Inverse(w: real)
    requires w != 0.0
    ensures Mul(w, 1.0 / w) == 1.0
  {
  }

  /** The numerator of the difference of two quotients. */
  lemma CrossDifference(x: real, x1: real, x2: real, w: real, w1: real, w2: real, h: real)
    ensures Mul(Taylor(x, x1, x2, h), w) - Mul(x, Taylor(w, w1, w2, h))
         == Mul(h, Mul(w, x1) - Mul(w1, x)) + Mul(h, Mul(h, Mul(w, x2) - Mul(w2, x)))
  {
    TaylorTimes(x, x1, x2, w, h);
    TaylorTimes(w, w1, w2, x, h);
    MulDifference(h, Mul(w, x1), Mul(w1, x));
    MulDifference(h, Mul(w, x2), Mul(w2, x));
    MulDifference(h, Mul(h, Mul(w, x2)), Mul(h, Mul(w2, x)));
    assert Mul(x, w) == Mul(w, x) && Mul(x1, w) == Mul(w, x1) && Mul(x2, w) == Mul(w, x2);
    assert Mul(x, Taylor(w, w1, w2, h)) == Mul(Taylor(w, w1, w2, h), x);
  }

  lemma TaylorTimes(x: real, x1: real, x2: real, k: real, h: real)
    ensures Mul(Taylor(x, x1, x2, h), k) == Mul(x, k) + Mul(h, Mul(x1, k)) + Mul(h, Mul(h, Mul(x2, k)))
  {
    MulSum(k, x + Mul(h, x1), Mul(h, Mul(h, x2)));
    MulSum(k, x, Mul(h, x1));
    MulAssoc(h, x1, k);
    MulAssoc(h, Mul(h, x2), k);
    MulAssoc(h, x2, k);
  }

  /** What is left of a quotient after the terms of degree zero and one, divided by h^2; i and j are the inverses. */
  function Rest(num: real, num2: real, w1: real, w2: real, h: real, i: real, j: real): real {
    Mul(num2, Mul(i, j)) - Mul(Mul(num, w1 + Mul(h, w2)), Mul(i, Mul(i, j)))
  }

  /** The inverses differ by what the denominators do. */
  lemma InversesDiffer(w: real, w': real, d: real, i: real, j: real)
    requires Mul(w, i) == 1.0 && Mul(w', j) == 1.0 && w' == w + d
    ensures j - i == -Mul(d, Mul(i, j))
  {
    MulSum(Mul(i, j), w, d);
    MulAssoc(w, i, j);
    MulOne(j);
    MulAssoc(w', j, i);
    MulOne(i);
    assert Mul(i, j) == Mul(j, i);
  }

  lemma QuotientExpands(x: real, x1: real, x2: real, w: real, w1: real, w2: real, h: real, i: real, j: real)
    requires Mul(w, i) == 1.0 && Mul(Taylor(w, w1, w2, h), j) == 1.0
    ensures var num, num2 := Mul(w, x1) - Mul(w1, x), Mul(w, x2) - Mul(w2, x);
            Mul(Taylor(x, x1, x2, h), j)
            == Mul(x, i) + Mul(h, Mul(num, Mul(i, i))) + Mul(h, Mul(h, Rest(num, num2, w1, w2, h, i, j)))
  {
    var x', w' := Taylor(x, x1, x2, h), Taylor(w, w1, w2, h);
    var num, num2 := Mul(w, x1) - Mul(w1, x), Mul(w, x2) - Mul(w2, x);
    PutIn(x', j, w, i);
    PutIn(x, i, w', j);
    assert Mul(i, j) == Mul(j, i);
    MulDifference(Mul(i, j), Mul(x', w), Mul(x, w'));
    CrossDifference(x, x1, x2, w, w1, w2, h);
    MulSum(h, w1, Mul(h, w2));
    InversesDiffer(w, w', Mul(h, w1 + Mul(h, w2)), i, j);
    Gather(num, num2, w1 + Mul(h, w2), h, i, j);
  }

  /** The same sum, ordered by powers of h. */
  lemma Gather(num: real, num2: real, d: real, h: real, i: real, j: real)
    requires j - i == -Mul(Mul(h, d), Mul(i, j))
    ensures Mul(Mul(h, num) + Mul(h, Mul(h, num2)), Mul(i, j))
         == Mul(h, Mul(num, Mul(i, i)))
            + Mul(h, Mul(h, Mul(num2, Mul(i, j)) - Mul(Mul(num, d), Mul(i, Mul(i, j)))))
  {
    var k := Mul(i, j);
    MulSum(k, Mul(h, num), Mul(h, Mul(h, num2)));
    MulAssoc(h, num, k);
    MulAssoc(h, Mul(h, num2), k);
    MulAssoc(h, num2, k);
    FirstInverse(d, h, i, j);
    MulDifference(num, Mul(i, i), Mul(h, Mul(d, Mul(i, k))));
    MulSwap(num, h, Mul(d, Mul(i, k)));
    MulAssoc(num, d, Mul(i, k));
    MulDifference(h, Mul(num, Mul(i, i)), Mul(h, Mul(Mul(num, d), Mul(i, k))));
    MulDifference(h, Mul(num2, k), Mul(Mul(num, d), Mul(i, k)));
    MulDifference(h, Mul(h, Mul(num2, k)), Mul(h, Mul(Mul(num, d), Mul(i, k))));
  }

  lemma FirstInverse(d: real, h: real, i: real, j: real)
    requires j - i == -Mul(Mul(h, d), Mul(i, j))
    ensures Mul(i, j) == Mul(i, i) - Mul(h, Mul(d, Mul(i, Mul(i, j))))
  {
    var k := Mul(i, j);
    MulDifference(i, i, Mul(Mul(h, d), k));
    MulSwap(i, Mul(h, d), k);
    MulAssoc(h, d, Mul(i, k));
  }

  /** A bound of it, from bounds of the coordinates, their slopes and curves, the length of h and the inverses. */
  function RestBound(b0: real, b1: real, b2: real, len: real, d: real): real {
    Mul(Mul(b0, b2) + Mul(b0, b2), Mul(d, d)) + Mul(Mul(Mul(b0, b1) + Mul(b0, b1), b1 + Mul(len, b2)),
                                                    Mul(d, Mul(d, d)))
  }

  /** x is at most m away from zero. */
  predicate AtMost(x: real, m: real) { -m <= x <= m }

  lemma RestBounded(x: real, x1: real, x2: real, w: real, w1: real, w2: real, h: real, i: real, j: real,
                    b0: real, b1: real, b2: real, len: real, d: real)
    requires AtMost(x, b0) && AtMost(w, b0) && AtMost(x1, b1) && AtMost(w1, b1) && AtMost(x2, b2) && AtMost(w2, b2)
    requires AtMost(h, len) && AtMost(i, d) && AtMost(j, d)
    ensures AtMost(Rest(Mul(w, x1) - Mul(w1, x), Mul(w, x2) - Mul(w2, x), w1, w2, h, i, j),
                   RestBound(b0, b1, b2, len, d))
  {
    SignedProduct(w, x1, b0, b1);
    SignedProduct(x, w1, b0, b1);
    SignedProduct(w, x2, b0, b2);
    SignedProduct(x, w2, b0, b2);
    assert Mul(x, w1) == Mul(w1, x) && Mul(x, w2) == Mul(w2, x);
    SignedProduct(h, w2, len, b2);
    SignedProduct(i, j, d, d);
    SignedProduct(i, Mul(i, j), d, Mul(d, d));
    var num, num2, e := Mul(w, x1) - Mul(w1, x), Mul(w, x2) - Mul(w2, x), w1 + Mul(h, w2);
    SignedProduct(num, e, Mul(b0, b1) + Mul(b0, b1), b1 + Mul(len, b2));
    SignedProduct(num2, Mul(i, j), Mul(b0, b2) + Mul(b0, b2), Mul(d, d));
    SignedProduct(Mul(num, e), Mul(i, Mul(i, j)), Mul(Mul(b0, b1) + Mul(b0, b1), b1 + Mul(len, b2)), Mul(d, Mul(d, d)));
  }

  lemma InverseBounded(w: real, low: real)
    requires low > 0.0 && (w >= low || w <= -low)
    ensures AtMost(1.0 / w, 1.0 / low)
  {
    if w >= low {
      Reciprocals(low, w);
    } else {
      Reciprocals(low, -w);
      NegativeInverse(w);
    }
  }

  lemma NegativeInverse(w: real)
    requires w != 0.0
    ensures 1.0 / (-w) == -(1.0 / w)
  {
    Inverse(w);
    Inverse(-w);
    var i, j := 1.0 / w, 1.0 / (-w);
    MulAssoc(j, w, i);
    assert Mul(-w, j) == -Mul(j, w);
    MulOne(j);
    assert Mul(-1.0, i) == -i;
  }

  /** x' / w' is x / w plus h times the slope of the quotient, but for a multiple of h^2. */
  lemma QuotientDiffers(x: real, x1: real, x2: real, w: real, w1: real, w2: real, h: real, slope: real,
                        b0: real, b1: real, b2: real, len: real, low: real)
    requires AtMost(x, b0) && AtMost(w, b0) && AtMost(x1, b1) && AtMost(w1, b1) && AtMost(x2, b2) && AtMost(w2, b2)
    requires AtMost(h, len) && low > 0.0 && (w >= low || w <= -low)
    requires var w' := Taylor(w, w1, w2, h); w' >= low || w' <= -low
    requires Mul(slope, Mul(w, w)) == Mul(w, x1) - Mul(w1, x)
    ensures var error := Taylor(x, x1, x2, h) / Taylor(w, w1, w2, h) - (x / w + Mul(h, slope));
            AtMost(error, Mul(Mul(h, h), RestBound(b0, b1, b2, len, 1.0 / low)))
  {
    var w' := Taylor(w, w1, w2, h);
    var i, j := 1.0 / w, 1.0 / w';
    var num, num2 := Mul(w, x1) - Mul(w1, x), Mul(w, x2) - Mul(w2, x);
    Inverse(w);
    Inverse(w');
    QuotientExpands(x, x1, x2, w, w1, w2, h, i, j);
    DivMul(Taylor(x, x1, x2, h), w');
    DivMul(x, w);
    SlopeIs(slope, w, i, num);
    InverseBounded(w, low);
    InverseBounded(w', low);
    RestBounded(x, x1, x2, w, w1, w2, h, i, j, b0, b1, b2, len, 1.0 / low);
    var rest := Rest(num, num2, w1, w2, h, i, j);
    SquareNonNegative(h);
    MulAssoc(h, h, rest);
    ProductBounded(Mul(h, h), Mul(h, h), rest, RestBound(b0, b1, b2, len, 1.0 / low));
  }

  lemma SlopeIs(slope: real, w: real, i: real, num: real)
    requires Mul(w, i) == 1.0 && Mul(slope, Mul(w, w)) == num
    ensures slope == Mul(num, Mul(i, i))
  {
    MulAssoc(slope, Mul(w, w), Mul(i, i));
    MulAssoc(w, w, Mul(i, i));
    MulAssoc(w, i, i);
    MulOne(i);
    MulOne(slope);
  }
}
