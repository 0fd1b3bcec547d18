/** Sampling of micropolygons: the edge test, the bounding box that limits it, and the scan of a diced grid. */
module Micropolys {

  // Largest float; the bounds start from it.
  const FLT_MAX: real := 340282346638528859811704183484516925440.0

  datatype Vert = Vert(x: real, y: real, z: real)
  datatype Quad = Quad(v0: Vert, v1: Vert, v2: Vert, v3: Vert)

  /** Sub-pixel position of a sample, in [0, 1). */
  datatype Coord = Coord(x: real, y: real)

  /** What a micropolygon leaves in a sample. */
  datatype Sample = Sample(depth: real, ci: (real, real, real), oi: (real, real, real))

  /** Which side of the line from a to b the point (px, py) is on. */
  function Edge(a: Vert, b: Vert, px: real, py: real): real {
    (py - a.y) * (b.x - a.x) - (px - a.x) * (b.y - a.y)
  }

  /** The four edge values around the loop 0, 1, 3, 2 have one sign. */
  predicate Covers(q: Quad, px: real, py: real) {
    var c0, c1 := Edge(q.v0, q.v1, px, py), Edge(q.v1, q.v3, px, py);
    var c2, c3 := Edge(q.v3, q.v2, px, py), Edge(q.v2, q.v0, px, py);
    (c0 <= 0.0 && c1 <= 0.0 && c2 <= 0.0 && c3 <= 0.0) || (c0 >= 0.0 && c1 >= 0.0 && c2 >= 0.0 && c3 >= 0.0)
  }

  /** All four edge values are zero: the quad has collapsed to a line through the point. */
  predicate OnAllEdges(q: Quad, px: real, py: real) {
    && Edge(q.v0, q.v1, px, py) == 0.0 && Edge(q.v1, q.v3, px, py) == 0.0
    && Edge(q.v3, q.v2, px, py) == 0.0 && Edge(q.v2, q.v0, px, py) == 0.0
  }

  function Min(a: real, b: real): real { if a < b then a else b }
  function Max(a: real, b: real): real { if a > b then a else b }

  datatype Box = Box(minX: real, maxX: real, minY: real, maxY: real)

  function BoxOf(q: Quad): Box {
    Box(Min(Min(q.v0.x, q.v1.x), Min(q.v2.x, q.v3.x)), Max(Max(q.v0.x, q.v1.x), Max(q.v2.x, q.v3.x)),
        Min(Min(q.v0.y, q.v1.y), Min(q.v2.y, q.v3.y)), Max(Max(q.v0.y, q.v1.y), Max(q.v2.y, q.v3.y)))
  }

  // ---------- a covered point is in the bounding box ----------

  /** A vector from the sampled point. */
  datatype Vec = Vec(x: real, y: real)

  function Cross(a: Vec, b: Vec): real {
    a.x * b.y - a.y * b.x
  }

  function From(v: Vert, px: real, py: real): Vec {
    Vec(v.x - px, v.y - py)
  }

  lemma EdgeIsCross(a: Vert, b: Vert, px: real, py: real)
    ensures Edge(a, b, px, py) == Cross(From(a, px, py), From(b, px, py))
  {
    var u, v := From(a, px, py), From(b, px, py);
    assert Edge(a, b, px, py) == (-u.y) * (v.x - u.x) - (-u.x) * (v.y - u.y);
    assert (-u.y) * (v.x - u.x) - (-u.x) * (v.y - u.y) == u.x * v.y - u.y * v.x;
  }

  /** For vectors to the right of the point, the sign of the cross product orders their slopes. */
  lemma CrossOrdersSlopes(a: Vec, b: Vec)
    requires a.x > 0.0 && b.x > 0.0
    ensures Cross(a, b) >= 0.0 ==> a.y / a.x <= b.y / b.x
    ensures Cross(a, b) <= 0.0 ==> a.y / a.x >= b.y / b.x
    ensures a.y / a.x == b.y / b.x ==> Cross(a, b) == 0.0
  {
    var s, t := a.y / a.x, b.y / b.x;
    var p := a.x * b.x;
    assert s * a.x == a.y && t * b.x == b.y;
    assert p > 0.0;
    assert Cross(a, b) == p * (t - s) by {
      assert a.x * (t * b.x) == p * t;
      assert (s * a.x) * b.x == p * s;
      assert p * t - p * s == p * (t - s);
    }
    SignOfFactor(p, t - s);
  }

  lemma SignOfFactor(p: real, d: real)
    requires p > 0.0
    ensures p * d >= 0.0 ==> d >= 0.0
    ensures p * d <= 0.0 ==> d <= 0.0
    ensures d == 0.0 ==> p * d == 0.0
  {
  }

  /** The cross products around a loop of four vectors have one sign. */
  predicate OneSign(a: Vec, b: Vec, c: Vec, d: Vec) {
    || (Cross(a, b) <= 0.0 && Cross(b, c) <= 0.0 && Cross(c, d) <= 0.0 && Cross(d, a) <= 0.0)
    || (Cross(a, b) >= 0.0 && Cross(b, c) >= 0.0 && Cross(c, d) >= 0.0 && Cross(d, a) >= 0.0)
  }

  predicate AllZero(a: Vec, b: Vec, c: Vec, d: Vec) {
    Cross(a, b) == 0.0 && Cross(b, c) == 0.0 && Cross(c, d) == 0.0 && Cross(d, a) == 0.0
  }

  /** Four vectors to the right of the point cannot turn one way all around the loop, unless they are parallel. */
  lemma RightOfPoint(a: Vec, b: Vec, c: Vec, d: Vec)
    requires a.x > 0.0 && b.x > 0.0 && c.x > 0.0 && d.x > 0.0 && OneSign(a, b, c, d)
    ensures AllZero(a, b, c, d)
  {
    CrossOrdersSlopes(a, b);
    CrossOrdersSlopes(b, c);
    CrossOrdersSlopes(c, d);
    CrossOrdersSlopes(d, a);
  }

  function Flip(a: Vec): Vec { Vec(-a.x, a.y) }
  function Swap(a: Vec): Vec { Vec(a.y, a.x) }

  lemma Mirrored(a: Vec, b: Vec)
    ensures Cross(Flip(a), Flip(b)) == -Cross(a, b) && Cross(Swap(a), Swap(b)) == -Cross(a, b)
  {
    assert (-a.x) * b.y == -(a.x * b.y) && a.y * (-b.x) == -(a.y * b.x);
  }

  lemma MirroredLoop(a: Vec, b: Vec, c: Vec, d: Vec)
    requires OneSign(a, b, c, d)
    ensures OneSign(Flip(a), Flip(b), Flip(c), Flip(d)) && OneSign(Swap(a), Swap(b), Swap(c), Swap(d))
    ensures AllZero(Flip(a), Flip(b), Flip(c), Flip(d)) ==> AllZero(a, b, c, d)
    ensures AllZero(Swap(a), Swap(b), Swap(c), Swap(d)) ==> AllZero(a, b, c, d)
  {
    Mirrored(a, b);
    Mirrored(b, c);
    Mirrored(c, d);
    Mirrored(d, a);
  }

  /** The same on any side of the point. */
  lemma OneSideOfPoint(a: Vec, b: Vec, c: Vec, d: Vec)
    requires OneSign(a, b, c, d)
    requires || (a.x > 0.0 && b.x > 0.0 && c.x > 0.0 && d.x > 0.0) || (a.x < 0.0 && b.x < 0.0 && c.x < 0.0 && d.x < 0.0)
             || (a.y > 0.0 && b.y > 0.0 && c.y > 0.0 && d.y > 0.0) || (a.y < 0.0 && b.y < 0.0 && c.y < 0.0 && d.y < 0.0)
    ensures AllZero(a, b, c, d)
  {
    MirroredLoop(a, b, c, d);
    if a.x > 0.0 && b.x > 0.0 && c.x > 0.0 && d.x > 0.0 {
      RightOfPoint(a, b, c, d);
    } else if a.x < 0.0 && b.x < 0.0 && c.x < 0.0 && d.x < 0.0 {
      RightOfPoint(Flip(a), Flip(b), Flip(c), Flip(d));
    } else if a.y > 0.0 && b.y > 0.0 && c.y > 0.0 && d.y > 0.0 {
      RightOfPoint(Swap(a), Swap(b), Swap(c), Swap(d));
    } else {
      var e, f, g, h := Swap(a), Swap(b), Swap(c), Swap(d);
      MirroredLoop(e, f, g, h);
      RightOfPoint(Flip(e), Flip(f), Flip(g), Flip(h));
    }
  }

  /**
   * A point that passes the edge test lies in the bounding box of the quad, whatever its shape (concave,
   * crossed, of either orientation), unless all four edge values are zero.
   */
  lemma CoveredInBox(q: Quad, px: real, py: real)
    requires Covers(q, px, py) && !OnAllEdges(q, px, py)
    ensures var box := BoxOf(q); box.minX <= px <= box.maxX && box.minY <= py <= box.maxY
  {
    var a, b, c, d := From(q.v0, px, py), From(q.v1, px, py), From(q.v3, px, py), From(q.v2, px, py);
    EdgeIsCross(q.v0, q.v1, px, py);
    EdgeIsCross(q.v1, q.v3, px, py);
    EdgeIsCross(q.v3, q.v2, px, py);
    EdgeIsCross(q.v2, q.v0, px, py);
    var box := BoxOf(q);
    if !(box.minX <= px <= box.maxX && box.minY <= py <= box.maxY) {
      OneSideOfPoint(a, b, c, d);
    }
  }
}
