/** Which points pass the edge test of a convex quad: those of its area, whichever way its loop runs. */
module ConvexQuads {
  import opened Common
  import opened Micropolys

  /** Twice the signed area of the triangle a, b, c. */
  function Turn(a: Vert, b: Vert, c: Vert): real {
    Mul(b.x - a.x, c.y - a.y) - Mul(b.y - a.y, c.x - a.x)
  }

  /** The corners a, b, c, d of a loop all turn one way, to the left. */
  predicate TurnsLeft(a: Vert, b: Vert, c: Vert, d: Vert) {
    Turn(a, b, c) >= 0.0 && Turn(b, c, d) >= 0.0 && Turn(c, d, a) >= 0.0 && Turn(d, a, b) >= 0.0
  }

  predicate TurnsRight(a: Vert, b: Vert, c: Vert, d: Vert) {
    Turn(a, b, c) <= 0.0 && Turn(b, c, d) <= 0.0 && Turn(c, d, a) <= 0.0 && Turn(d, a, b) <= 0.0
  }

  /** The loop 0, 1, 3, 2 is convex, in either direction. */
  predicate Convex(q: Quad) {
    TurnsLeft(q.v0, q.v1, q.v3, q.v2) || TurnsRight(q.v0, q.v1, q.v3, q.v2)
  }

  /** Twice the signed area. */
  function QuadArea(q: Quad): real { Turn(q.v0, q.v1, q.v3) + Turn(q.v3, q.v2, q.v0) }

  datatype Weights = Weights(w0: real, w1: real, w2: real, w3: real) {
    predicate Valid() { w0 >= 0.0 && w1 >= 0.0 && w2 >= 0.0 && w3 >= 0.0 && w0 + w1 + w2 + w3 == 1.0 }
  }

  function Blend(w: Weights, a: real, b: real, c: real, d: real): real {
    Mul(w.w0, a) + Mul(w.w1, b) + Mul(w.w2, c) + Mul(w.w3, d)
  }

  /** The point is the mean of the vertices with the weights w. */
  predicate Weighs(w: Weights, q: Quad, px: real, py: real) {
    w.Valid() && px == Blend(w, q.v0.x, q.v1.x, q.v2.x, q.v3.x) && py == Blend(w, q.v0.y, q.v1.y, q.v2.y, q.v3.y)
  }

  /** The point is a convex combination of the four vertices. */
  ghost predicate InHull(q: Quad, px: real, py: real) {
    exists w :: Weighs(w, q, px, py)
  }

  /** The same quad with its loop run the other way. */
  function Reversed(q: Quad): Quad { Quad(q.v0, q.v2, q.v1, q.v3) }

  // ---------- the other way around ----------

  lemma EdgeFlips(a: Vert, b: Vert, px: real, py: real)
    ensures Edge(b, a, px, py) == -Edge(a, b, px, py)
  {
    EdgeIsCross(a, b, px, py);
    EdgeIsCross(b, a, px, py);
    CrossFlips(From(a, px, py), From(b, px, py));
  }

  lemma CrossFlips(a: Vec, b: Vec)
    ensures Cross(b, a) == -Cross(a, b)
  {
    assert a.x * b.y == b.y * a.x && a.y * b.x == b.x * a.y;
  }

  lemma ReversedCovers(q: Quad, px: real, py: real)
    ensures Covers(Reversed(q), px, py) <==> Covers(q, px, py)
  {
    EdgeFlips(q.v0, q.v1, px, py);
    EdgeFlips(q.v1, q.v3, px, py);
    EdgeFlips(q.v3, q.v2, px, py);
    EdgeFlips(q.v2, q.v0, px, py);
  }

  lemma ReversedHull(q: Quad, px: real, py: real)
    requires InHull(q, px, py)
    ensures InHull(Reversed(q), px, py)
  {
    var w :| Weighs(w, q, px, py);
    assert Weighs(Weights(w.w0, w.w2, w.w1, w.w3), Reversed(q), px, py);
  }

  lemma TurnTurns(a: Vert, b: Vert, c: Vert)
    ensures Turn(a, b, c) == Turn(b, c, a) == Turn(c, a, b) == -Turn(b, a, c)
  {
    TurnCross(a, b, c);
    TurnCross(b, c, a);
    TurnCross(c, a, b);
    TurnCross(b, a, c);
    CrossFlips(AsVec(a), AsVec(b));
    CrossFlips(AsVec(b), AsVec(c));
    CrossFlips(AsVec(c), AsVec(a));
  }

  function AsVec(a: Vert): Vec { Vec(a.x, a.y) }

  /** The area by the corners' cross products. */
  lemma TurnCross(a: Vert, b: Vert, c: Vert)
    ensures Turn(a, b, c) == Cross(AsVec(a), AsVec(b)) + Cross(AsVec(b), AsVec(c)) + Cross(AsVec(c), AsVec(a))
  {
    MulDifference(b.x - a.x, c.y, a.y);
    MulDifference(c.y, b.x, a.x);
    MulDifference(a.y, b.x, a.x);
    MulDifference(b.y - a.y, c.x, a.x);
    MulDifference(c.x, b.y, a.y);
    MulDifference(a.x, b.y, a.y);
    assert Mul(b.x, c.y) == b.x * c.y && Mul(a.x, c.y) == c.y * a.x && Mul(b.x, a.y) == a.y * b.x;
    assert Mul(b.y, c.x) == b.y * c.x && Mul(a.y, c.x) == c.x * a.y && Mul(b.y, a.x) == a.x * b.y;
  }

  lemma ReversedTurns(q: Quad)
    ensures TurnsRight(q.v0, q.v1, q.v3, q.v2) ==> TurnsLeft(q.v0, q.v2, q.v3, q.v1)
    ensures QuadArea(Reversed(q)) == -QuadArea(q)
  {
    TurnTurns(q.v0, q.v1, q.v3);
    TurnTurns(q.v1, q.v3, q.v2);
    TurnTurns(q.v3, q.v2, q.v0);
    TurnTurns(q.v2, q.v0, q.v1);
    TurnTurns(q.v0, q.v2, q.v3);
    TurnTurns(q.v2, q.v3, q.v1);
    TurnTurns(q.v3, q.v1, q.v0);
    TurnTurns(q.v1, q.v0, q.v2);
    FourCorners(q.v0, q.v1, q.v3, q.v2);
  }

  /** Both diagonals cut the same area. */
  lemma FourCorners(a: Vert, b: Vert, c: Vert, d: Vert)
    ensures Turn(a, b, c) + Turn(c, d, a) == Turn(b, c, d) + Turn(d, a, b)
  {
    TurnCross(a, b, c);
    TurnCross(c, d, a);
    TurnCross(b, c, d);
    TurnCross(d, a, b);
    CrossFlips(AsVec(a), AsVec(c));
    CrossFlips(AsVec(b), AsVec(d));
  }

  // ---------- a convex combination passes ----------

  lemma BlendShift(w: Weights, a: real, b: real, c: real, d: real, k: real)
    requires w.Valid()
    ensures Blend(w, a, b, c, d) - k == Blend(w, a - k, b - k, c - k, d - k)
  {
    MulDifference(w.w0, a, k);
    MulDifference(w.w1, b, k);
    MulDifference(w.w2, c, k);
    MulDifference(w.w3, d, k);
    MulSum(k, w.w0, w.w1);
    MulSum(k, w.w0 + w.w1, w.w2);
    MulSum(k, w.w0 + w.w1 + w.w2, w.w3);
    MulOne(k);
  }

  lemma BlendScale(w: Weights, f: real, a: real, b: real, c: real, d: real, m: real)
    requires m == Blend(w, a, b, c, d)
    ensures Mul(f, m) == Blend(w, Mul(f, a), Mul(f, b), Mul(f, c), Mul(f, d))
  {
    MulSum(f, Mul(w.w0, a), Mul(w.w1, b));
    MulSum(f, Mul(w.w0, a) + Mul(w.w1, b), Mul(w.w2, c));
    MulSum(f, Mul(w.w0, a) + Mul(w.w1, b) + Mul(w.w2, c), Mul(w.w3, d));
    MulSwap(f, w.w0, a);
    MulSwap(f, w.w1, b);
    MulSwap(f, w.w2, c);
    MulSwap(f, w.w3, d);
  }

  lemma BlendMinus(w: Weights, a: real, b: real, c: real, d: real, m: real,
                   a': real, b': real, c': real, d': real, m': real)
    requires m == Blend(w, a, b, c, d) && m' == Blend(w, a', b', c', d')
    ensures m - m' == Blend(w, a - a', b - b', c - c', d - d')
  {
    MulDifference(w.w0, a, a');
    MulDifference(w.w1, b, b');
    MulDifference(w.w2, c, c');
    MulDifference(w.w3, d, d');
  }

  lemma EdgeIsTurn(a: Vert, b: Vert, px: real, py: real, z: real)
    ensures Edge(a, b, px, py) == Turn(a, b, Vert(px, py, z))
  {
    assert (py - a.y) * (b.x - a.x) == Mul(b.x - a.x, py - a.y) && (px - a.x) * (b.y - a.y) == Mul(b.y - a.y, px - a.x);
  }

  /** The edge value is the mean of the vertices' own. */
  lemma EdgeBlend(a: Vert, b: Vert, q: Quad, w: Weights, px: real, py: real)
    requires Weighs(w, q, px, py)
    ensures Edge(a, b, px, py) == Blend(w, Turn(a, b, q.v0), Turn(a, b, q.v1), Turn(a, b, q.v2), Turn(a, b, q.v3))
  {
    EdgeIsTurn(a, b, px, py, 0.0);
    TurnBlend(w, b.x - a.x, b.y - a.y, a.x, a.y, q.v0, q.v1, q.v2, q.v3, px, py,
              Turn(a, b, q.v0), Turn(a, b, q.v1), Turn(a, b, q.v2), Turn(a, b, q.v3));
  }

  lemma TurnBlend(w: Weights, f: real, g: real, x: real, y: real, a: Vert, b: Vert, c: Vert, d: Vert, px: real,
                  py: real,
                  t0: real, t1: real, t2: real, t3: real)
    requires w.Valid() && px == Blend(w, a.x, b.x, c.x, d.x) && py == Blend(w, a.y, b.y, c.y, d.y)
    requires t0 == Mul(f, a.y - y) - Mul(g, a.x - x) && t1 == Mul(f, b.y - y) - Mul(g, b.x - x)
    requires t2 == Mul(f, c.y - y) - Mul(g, c.x - x) && t3 == Mul(f, d.y - y) - Mul(g, d.x - x)
    ensures Mul(f, py - y) - Mul(g, px - x) == Blend(w, t0, t1, t2, t3)
  {
    BlendFrom(w, f, a.y, b.y, c.y, d.y, py, y);
    BlendFrom(w, g, a.x, b.x, c.x, d.x, px, x);
    BlendMinus(w, Mul(f, a.y - y), Mul(f, b.y - y), Mul(f, c.y - y), Mul(f, d.y - y), Mul(f, py - y),
               Mul(g, a.x - x), Mul(g, b.x - x), Mul(g, c.x - x), Mul(g, d.x - x), Mul(g, px - x));
  }

  lemma BlendFrom(w: Weights, f: real, a: real, b: real, c: real, d: real, p: real, k: real)
    requires w.Valid() && p == Blend(w, a, b, c, d)
    ensures Mul(f, p - k) == Blend(w, Mul(f, a - k), Mul(f, b - k), Mul(f, c - k), Mul(f, d - k))
  {
    BlendShift(w, a, b, c, d, k);
    BlendScale(w, f, a - k, b - k, c - k, d - k, p - k);
  }

  /** A mean of vertices to the left of a line is to the left of it. */
  lemma LeftOfEdge(a: Vert, b: Vert, q: Quad, w: Weights, px: real, py: real)
    requires Weighs(w, q, px, py)
    requires Turn(a, b, q.v0) >= 0.0 && Turn(a, b, q.v1) >= 0.0 && Turn(a, b, q.v2) >= 0.0 && Turn(a, b, q.v3) >= 0.0
    ensures Edge(a, b, px, py) >= 0.0
  {
    EdgeBlend(a, b, q, w, px, py);
    MulNonNegative(w.w0, Turn(a, b, q.v0));
    MulNonNegative(w.w1, Turn(a, b, q.v1));
    MulNonNegative(w.w2, Turn(a, b, q.v2));
    MulNonNegative(w.w3, Turn(a, b, q.v3));
  }

  /** The ends of an edge are on it. */
  lemma TurnAtEnds(a: Vert, b: Vert)
    ensures Turn(a, b, a) == 0.0 && Turn(a, b, b) == 0.0
  {
    MulZero(b.x - a.x);
    MulZero(b.y - a.y);
    assert Mul(b.x - a.x, b.y - a.y) == Mul(b.y - a.y, b.x - a.x);
  }

  lemma LeftHullCovered(q: Quad, px: real, py: real)
    requires TurnsLeft(q.v0, q.v1, q.v3, q.v2) && InHull(q, px, py)
    ensures Covers(q, px, py)
  {
    var w :| Weighs(w, q, px, py);
    TurnAtEnds(q.v0, q.v1);
    TurnAtEnds(q.v1, q.v3);
    TurnAtEnds(q.v3, q.v2);
    TurnAtEnds(q.v2, q.v0);
    TurnTurns(q.v0, q.v1, q.v3);
    TurnTurns(q.v1, q.v3, q.v2);
    TurnTurns(q.v3, q.v2, q.v0);
    TurnTurns(q.v2, q.v0, q.v1);
    LeftOfEdge(q.v0, q.v1, q, w, px, py);
    LeftOfEdge(q.v1, q.v3, q, w, px, py);
    LeftOfEdge(q.v3, q.v2, q, w, px, py);
    LeftOfEdge(q.v2, q.v0, q, w, px, py);
  }

  /** Every convex combination of the vertices of a convex quad passes the edge test. */
  lemma HullCovered(q: Quad, px: real, py: real)
    requires Convex(q) && InHull(q, px, py)
    ensures Covers(q, px, py)
  {
    if TurnsLeft(q.v0, q.v1, q.v3, q.v2) {
      LeftHullCovered(q, px, py);
    } else {
      ReversedTurns(q);
      ReversedHull(q, px, py);
      LeftHullCovered(Reversed(q), px, py);
      ReversedCovers(q, px, py);
    }
  }

  lemma BlendBetween(w: Weights, a: real, b: real, c: real, d: real, lo: real, hi: real)
    requires w.Valid() && lo <= a <= hi && lo <= b <= hi && lo <= c <= hi && lo <= d <= hi
    ensures lo <= Blend(w, a, b, c, d) <= hi
  {
    BlendShift(w, a, b, c, d, lo);
    BlendShift(w, a, b, c, d, hi);
    MulNonNegative(w.w0, a - lo);
    MulNonNegative(w.w1, b - lo);
    MulNonNegative(w.w2, c - lo);
    MulNonNegative(w.w3, d - lo);
    NotPositive(w.w0, a - hi);
    NotPositive(w.w1, b - hi);
    NotPositive(w.w2, c - hi);
    NotPositive(w.w3, d - hi);
  }

  lemma NotPositive(x: real, y: real)
    requires x >= 0.0 && y <= 0.0
    ensures Mul(x, y) <= 0.0
  {
    MulNonNegative(x, 0.0 - y);
    MulDifference(x, 0.0, y);
    MulZero(x);
  }

  /** And it is in the bounding box. */
  lemma HullInBox(q: Quad, px: real, py: real)
    requires InHull(q, px, py)
    ensures var box := BoxOf(q); box.minX <= px <= box.maxX && box.minY <= py <= box.maxY
  {
    var w :| Weighs(w, q, px, py);
    var box := BoxOf(q);
    BlendBetween(w, q.v0.x, q.v1.x, q.v2.x, q.v3.x, box.minX, box.maxX);
    BlendBetween(w, q.v0.y, q.v1.y, q.v2.y, q.v3.y, box.minY, box.maxY);
  }

  // ---------- nothing else passes ----------

  /** The point p and the area of a, b, c: the three triangles at p make up the whole. */
  lemma ThreeParts(a: Vert, b: Vert, c: Vert, px: real, py: real)
    ensures Edge(b, c, px, py) + Edge(c, a, px, py) + Edge(a, b, px, py) == Turn(a, b, c)
  {
    var p := Vert(px, py, 0.0);
    EdgeIsTurn(b, c, px, py, 0.0);
    EdgeIsTurn(c, a, px, py, 0.0);
    EdgeIsTurn(a, b, px, py, 0.0);
    TurnCross(b, c, p);
    TurnCross(c, a, p);
    TurnCross(a, b, p);
    TurnCross(a, b, c);
    CrossFlips(AsVec(a), AsVec(p));
    CrossFlips(AsVec(b), AsVec(p));
    CrossFlips(AsVec(c), AsVec(p));
  }

  /** The weights of the corners are the opposite triangles, for any two vectors' coordinates. */
  lemma OppositeTriangles(a: Vec, b: Vec, c: Vec)
    ensures Mul(Cross(b, c), a.x) + Mul(Cross(c, a), b.x) + Mul(Cross(a, b), c.x) == 0.0
    ensures Mul(Cross(b, c), a.y) + Mul(Cross(c, a), b.y) + Mul(Cross(a, b), c.y) == 0.0
  {
    Expand(b, c, a.x);
    Expand(c, a, b.x);
    Expand(a, b, c.x);
    Expand(b, c, a.y);
    Expand(c, a, b.y);
    Expand(a, b, c.y);
    Shuffle(a.x, b.x, c.y);
    Shuffle(a.x, b.y, c.x);
    Shuffle(a.y, b.x, c.x);
    Shuffle(a.x, b.y, c.y);
    Shuffle(a.y, b.x, c.y);
    Shuffle(a.y, b.y, c.x);
  }

  lemma Expand(a: Vec, b: Vec, k: real)
    ensures Mul(Cross(a, b), k) == Mul(Mul(a.x, b.y), k) - Mul(Mul(a.y, b.x), k)
  {
    MulDifference(k, Mul(a.x, b.y), Mul(a.y, b.x));
  }

  /** All ways of writing a product of three. */
  lemma Shuffle(x: real, y: real, z: real)
    ensures Mul(Mul(x, y), z) == Mul(Mul(y, x), z) == Mul(Mul(y, z), x) == Mul(Mul(z, y), x)
         == Mul(Mul(x, z), y) == Mul(Mul(z, x), y)
  {
    MulAssoc(x, y, z);
    MulAssoc(y, z, x);
    MulAssoc(x, z, y);
    assert Mul(x, y) == Mul(y, x) && Mul(y, z) == Mul(z, y) && Mul(x, z) == Mul(z, x);
    assert Mul(x, Mul(y, z)) == Mul(Mul(y, z), x);
  }

  /** So the point is their mean with those weights. */
  lemma TriangleMean(a: Vert, b: Vert, c: Vert, px: real, py: real)
    ensures var e0, e1, e2 := Edge(b, c, px, py), Edge(c, a, px, py), Edge(a, b, px, py);
            && Mul(e0, a.x) + Mul(e1, b.x) + Mul(e2, c.x) == Mul(e0 + e1 + e2, px)
            && Mul(e0, a.y) + Mul(e1, b.y) + Mul(e2, c.y) == Mul(e0 + e1 + e2, py)
  {
    var e0, e1, e2 := Edge(b, c, px, py), Edge(c, a, px, py), Edge(a, b, px, py);
    EdgeIsCross(b, c, px, py);
    EdgeIsCross(c, a, px, py);
    EdgeIsCross(a, b, px, py);
    OppositeTriangles(From(a, px, py), From(b, px, py), From(c, px, py));
    MeanFrom(e0, e1, e2, a.x, b.x, c.x, px);
    MeanFrom(e0, e1, e2, a.y, b.y, c.y, py);
  }

  lemma MeanFrom(e0: real, e1: real, e2: real, x: real, y: real, z: real, p: real)
    requires Mul(e0, x - p) + Mul(e1, y - p) + Mul(e2, z - p) == 0.0
    ensures Mul(e0, x) + Mul(e1, y) + Mul(e2, z) == Mul(e0 + e1 + e2, p)
  {
    MulDifference(e0, x, p);
    MulDifference(e1, y, p);
    MulDifference(e2, z, p);
    MulSum(p, e0, e1);
    MulSum(p, e0 + e1, e2);
  }

  lemma Share(e: real, total: real, x: real)
    requires e >= 0.0 && total > 0.0
    ensures e / total >= 0.0 && Mul(e / total, x) == Mul(e, x) / total
  {
    var f := e / total;
    assert Mul(f, total) == e;
    PositiveFactor(f, total);
    assert (f * x) * total == (f * total) * x;
  }

  /** A point on the inner side of the three edges of a triangle of positive area is a mean of its corners. */
  lemma InTriangle(a: Vert, b: Vert, c: Vert, px: real, py: real) returns (r: real, s: real, t: real)
    requires Turn(a, b, c) > 0.0
    requires Edge(b, c, px, py) >= 0.0 && Edge(c, a, px, py) >= 0.0 && Edge(a, b, px, py) >= 0.0
    ensures r >= 0.0 && s >= 0.0 && t >= 0.0 && r + s + t == 1.0
    ensures px == Mul(r, a.x) + Mul(s, b.x) + Mul(t, c.x) && py == Mul(r, a.y) + Mul(s, b.y) + Mul(t, c.y)
  {
    var e0, e1, e2, all := Edge(b, c, px, py), Edge(c, a, px, py), Edge(a, b, px, py), Turn(a, b, c);
    ThreeParts(a, b, c, px, py);
    TriangleMean(a, b, c, px, py);
    r, s, t := e0 / all, e1 / all, e2 / all;
    Share(e0, all, a.x);
    Share(e1, all, b.x);
    Share(e2, all, c.x);
    Share(e0, all, a.y);
    Share(e1, all, b.y);
    Share(e2, all, c.y);
    SumOfQuotients(e0, e1, e2, all);
    SumOfQuotients(Mul(e0, a.x), Mul(e1, b.x), Mul(e2, c.x), all);
    SumOfQuotients(Mul(e0, a.y), Mul(e1, b.y), Mul(e2, c.y), all);
    QuotientOfProduct(all, px);
    QuotientOfProduct(all, py);
    QuotientOfProduct(all, 1.0);
    MulOne(all);
  }

  lemma SumOfQuotients(x: real, y: real, z: real, d: real)
    requires d != 0.0
    ensures x / d + y / d + z / d == (x + y + z) / d
  {
  }

  lemma QuotientOfProduct(d: real, x: real)
    requires d != 0.0
    ensures Mul(d, x) / d == x
  {
  }

  lemma LeftCoveredInHull(q: Quad, px: real, py: real)
    requires TurnsLeft(q.v0, q.v1, q.v3, q.v2) && QuadArea(q) > 0.0 && Covers(q, px, py)
    ensures InHull(q, px, py)
  {
    var a, b, c, d := q.v0, q.v1, q.v3, q.v2;
    ThreeParts(a, b, c, px, py);
    ThreeParts(c, d, a, px, py);
    EdgeFlips(a, c, px, py);
    TurnTurns(c, d, a);
    if Edge(c, a, px, py) >= 0.0 && Turn(a, b, c) > 0.0 {
      var r, s, t := InTriangle(a, b, c, px, py);
      MulZero(d.x);
      MulZero(d.y);
      assert Weighs(Weights(r, s, 0.0, t), q, px, py);
    } else {
      var r, s, t := InTriangle(c, d, a, px, py);
      MulZero(b.x);
      MulZero(b.y);
      assert Weighs(Weights(t, 0.0, s, r), q, px, py);
    }
  }

  /** A point that passes the edge test of a convex quad that is not flat is a convex combination of its vertices. */
  lemma CoveredInHull(q: Quad, px: real, py: real)
    requires Convex(q) && QuadArea(q) != 0.0 && Covers(q, px, py)
    ensures InHull(q, px, py)
  {
    ReversedTurns(q);
    if TurnsLeft(q.v0, q.v1, q.v3, q.v2) {
      LeftCoveredInHull(q, px, py);
    } else {
      ReversedCovers(q, px, py);
      LeftCoveredInHull(Reversed(q), px, py);
      ReversedHull(Reversed(q), px, py);
    }
  }
}
