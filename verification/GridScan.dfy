/** Busting a diced grid: every cell of the grid becomes a micropolygon that is sampled once. */
module GridScan {
  import opened Micropolys
  import opened ConvexQuads
  import opened RowMajor
  import opened Sampling

  /** A shaded grid in bucket space: w by h vertices in rows, each with its colour and opacity. */
  datatype Shaded = Shaded(w: int, h: int, verts: seq<Vert>, cis: seq<(real, real, real)>,
                           ois: seq<(real, real, real)>) {
    ghost predicate Valid() {
      && 1 <= w && 1 <= h && |verts| == |cis| == |ois| == h * w
      && forall k :: 0 <= k < |verts| ==> -FLT_MAX <= verts[k].x <= FLT_MAX && -FLT_MAX <= verts[k].y <= FLT_MAX
    }
  }

  /** A micropolygon and what it leaves in the samples it covers. */
  datatype Poly = Poly(q: Quad, data: Sample)

  /** Cell (i, j): the four grid vertices around it, the colours of the first. */
  ghost function CellPoly(s: Shaded, i: int, j: int): Poly
    requires s.Valid() && 0 <= i < s.h - 1 && 0 <= j < s.w - 1
  {
    IdxBounds(s.w, s.h, j, i);
    IdxBounds(s.w, s.h, j + 1, i);
    IdxBounds(s.w, s.h, j, i + 1);
    IdxBounds(s.w, s.h, j + 1, i + 1);
    var k := Idx(s.w, j, i);
    var v0 := s.verts[k];
    Poly(Quad(v0, s.verts[Idx(s.w, j + 1, i)], s.verts[Idx(s.w, j, i + 1)], s.verts[Idx(s.w, j + 1, i + 1)]),
         Sample(v0.z, s.cis[k], s.ois[k]))
  }

  /** The cells before (i, j), row by row. */
  ghost function PolysBefore(s: Shaded, i: int, j: int): seq<Poly>
    requires s.Valid() && 0 <= j <= s.w - 1 && 0 <= i <= s.h - 1 && (i == s.h - 1 ==> j == 0)
    decreases i, j
  {
    if j > 0 then PolysBefore(s, i, j - 1) + [CellPoly(s, i, j - 1)]
    else if i > 0 then PolysBefore(s, i - 1, s.w - 1)
    else []
  }

  ghost function AllPolys(s: Shaded): seq<Poly>
    requires s.Valid()
  {
    PolysBefore(s, s.h - 1, 0)
  }

  /** Each of the (w-1) * (h-1) cells is there exactly once, at its row-major position. */
  lemma {:induction false} CellPosition(s: Shaded, i: int, j: int)
    requires s.Valid() && 0 <= j <= s.w - 1 && 0 <= i <= s.h - 1 && (i == s.h - 1 ==> j == 0)
    ensures |PolysBefore(s, i, j)| == RowStart(s.w - 1, i) + j
    decreases i, j
  {
    if j > 0 {
      CellPosition(s, i, j - 1);
    } else if i > 0 {
      CellPosition(s, i - 1, s.w - 1);
      assert (i - 1) * (s.w - 1) + (s.w - 1) == i * (s.w - 1);
    }
  }

  lemma {:induction false} CellAt(s: Shaded, i: int, j: int, a: int, b: int)
    requires s.Valid() && 0 <= j <= s.w - 1 && 0 <= i <= s.h - 1 && (i == s.h - 1 ==> j == 0)
    requires 0 <= a < s.h - 1 && 0 <= b < s.w - 1 && (a < i || (a == i && b < j))
    ensures 0 <= RowStart(s.w - 1, a) + b < |PolysBefore(s, i, j)|
    ensures PolysBefore(s, i, j)[RowStart(s.w - 1, a) + b] == CellPoly(s, a, b)
    decreases i, j
  {
    if j > 0 {
      if a == i && b == j - 1 {
        CellPosition(s, i, j - 1);
        IdxBounds(s.w - 1, s.h - 1, b, a);
      } else {
        CellAt(s, i, j - 1, a, b);
      }
    } else {
      CellAt(s, i - 1, s.w - 1, a, b);
    }
  }

  // ---------- what the samples receive ----------

  /** The list of one sample after the polygons, in order. */
  ghost function Received(polys: seq<Poly>, x: int, y: int, c: Coord, list: seq<Sample>): seq<Sample> {
    if polys == [] then list
    else
      var last := polys[|polys| - 1];
      var rest := Received(polys[..|polys| - 1], x, y, c, list);
      if InRange(BoxOf(last.q), x, y) && Hit(last.q, x, y, c) then rest + [last.data] else rest
  }

  ghost predicate PixelReceived(g: Grid, polys: seq<Poly>, before: seq<Lists>, now: seq<Lists>, x: int, y: int)
    requires Shaped(g, before) && Shaped(g, now) && 0 <= x < g.wd && 0 <= y < g.he
  {
    IdxBounds(g.wd, g.he, x, y);
    var p := Idx(g.wd, x, y);
    forall i :: 0 <= i < |now[p]| ==> now[p][i] == Received(polys, x, y, g.coords[p][i], before[p][i])
  }

  ghost predicate AllReceived(g: Grid, polys: seq<Poly>, before: seq<Lists>, now: seq<Lists>)
    requires Shaped(g, before) && Shaped(g, now)
  {
    forall x, y :: 0 <= x < g.wd && 0 <= y < g.he ==> PixelReceived(g, polys, before, now, x, y)
  }

  lemma ReceivedNext(g: Grid, polys: seq<Poly>, poly: Poly, before: seq<Lists>, mid: seq<Lists>, now: seq<Lists>)
    requires Shaped(g, before) && Shaped(g, mid) && Shaped(g, now)
    requires AllReceived(g, polys, before, mid) && Scanned(g, poly.q, poly.data, mid, now)
    ensures AllReceived(g, polys + [poly], before, now)
  {
    var more := polys + [poly];
    assert more[..|more| - 1] == polys;
    forall x, y | 0 <= x < g.wd && 0 <= y < g.he
      ensures PixelReceived(g, more, before, now, x, y)
    {
      assert PixelReceived(g, polys, before, mid, x, y) && PixelScanned(g, poly.q, poly.data, mid, now, x, y);
    }
  }

  /** The polygons that pass the edge test, in order. */
  ghost function Hits(polys: seq<Poly>, x: int, y: int, c: Coord): seq<Sample> {
    if polys == [] then []
    else
      var last := polys[|polys| - 1];
      Hits(polys[..|polys| - 1], x, y, c) + if Hit(last.q, x, y, c) then [last.data] else []
  }

  lemma {:induction false} ReceivedAtMostHits(polys: seq<Poly>, x: int, y: int, c: Coord, list: seq<Sample>)
    ensures |Received(polys, x, y, c, list)| <= |list| + |Hits(polys, x, y, c)|
  {
    if polys != [] {
      ReceivedAtMostHits(polys[..|polys| - 1], x, y, c, list);
    }
  }

  /**
   * Exactly when culling loses nothing over a whole grid: a sample receives, in scan order, the cells that pass the
   * edge test if and only if no cell has four zero edge values there and a box range that leaves its pixel out.
   */
  lemma {:induction false} ReceivedIsAllHits(polys: seq<Poly>, x: int, y: int, c: Coord, list: seq<Sample>)
    requires 0.0 <= c.x < 1.0 && 0.0 <= c.y < 1.0
    ensures Received(polys, x, y, c, list) == list + Hits(polys, x, y, c) <==>
              forall k :: 0 <= k < |polys| ==> !CulledAway(polys[k].q, x, y, c)
  {
    if polys != [] {
      var rest, last := polys[..|polys| - 1], polys[|polys| - 1];
      assert forall k :: 0 <= k < |rest| ==> rest[k] == polys[k];
      assert (forall k :: 0 <= k < |polys| ==> !CulledAway(polys[k].q, x, y, c)) <==>
               (forall k :: 0 <= k < |rest| ==> !CulledAway(rest[k].q, x, y, c)) && !CulledAway(last.q, x, y, c);
      ReceivedIsAllHits(rest, x, y, c, list);
      ReceivedAtMostHits(rest, x, y, c, list);
      HitInRangeExactly(last.q, x, y, c);
      LastCell(rest, last, x, y, c, list);
    }
  }

  /** One more cell: nothing is lost before it, and it is not lost itself. */
  lemma LastCell(rest: seq<Poly>, last: Poly, x: int, y: int, c: Coord, list: seq<Sample>)
    requires Hit(last.q, x, y, c) && !InRange(BoxOf(last.q), x, y) <==> CulledAway(last.q, x, y, c)
    requires |Received(rest, x, y, c, list)| <= |list| + |Hits(rest, x, y, c)|
    ensures var got := Received(rest, x, y, c, list); var hits := Hits(rest, x, y, c);
            (if InRange(BoxOf(last.q), x, y) && Hit(last.q, x, y, c) then got + [last.data] else got)
              == list + (hits + if Hit(last.q, x, y, c) then [last.data] else [])
            <==> got == list + hits && !CulledAway(last.q, x, y, c)
  {
    var got, hits := Received(rest, x, y, c, list), Hits(rest, x, y, c);
    if Hit(last.q, x, y, c) {
      assert list + (hits + [last.data]) == (list + hits) + [last.data];
      if InRange(BoxOf(last.q), x, y) {
        assert (got + [last.data])[..|got|] == got;
        assert ((list + hits) + [last.data])[..|list + hits|] == list + hits;
      }
    } else {
      assert hits + [] == hits;
    }
  }

  /** What the polygons that hold the point leave, in order. */
  ghost function Inside(polys: seq<Poly>, px: real, py: real): seq<Sample> {
    if polys == [] then []
    else
      var last := polys[|polys| - 1];
      Inside(polys[..|polys| - 1], px, py) + if InHull(last.q, px, py) then [last.data] else []
  }

  ghost predicate AllSolid(polys: seq<Poly>) {
    forall k :: 0 <= k < |polys| ==> Convex(polys[k].q) && QuadArea(polys[k].q) != 0.0
  }

  lemma {:induction false} ReceivedIsInside(polys: seq<Poly>, x: int, y: int, c: Coord, list: seq<Sample>)
    requires 0.0 <= c.x < 1.0 && 0.0 <= c.y < 1.0 && AllSolid(polys)
    ensures Received(polys, x, y, c, list) == list + Inside(polys, x as real + c.x, y as real + c.y)
  {
    if polys != [] {
      var rest, last := polys[..|polys| - 1], polys[|polys| - 1];
      ReceivedIsInside(rest, x, y, c, list);
      if InHull(last.q, x as real + c.x, y as real + c.y) {
        HullHit(last.q, x, y, c);
        HullInRange(last.q, x, y, c);
      } else if Hit(last.q, x, y, c) {
        CoveredInHull(last.q, x as real + c.x, y as real + c.y);
      }
    }
  }

  /** Every sample has received, in scan order, the polygons whose area it is in. */
  ghost predicate AllInside(g: Grid, polys: seq<Poly>, before: seq<Lists>, now: seq<Lists>)
    requires Shaped(g, before) && Shaped(g, now)
  {
    forall x, y :: 0 <= x < g.wd && 0 <= y < g.he ==> PixelInside(g, polys, before, now, x, y)
  }

  ghost predicate PixelInside(g: Grid, polys: seq<Poly>, before: seq<Lists>, now: seq<Lists>, x: int, y: int)
    requires Shaped(g, before) && Shaped(g, now) && 0 <= x < g.wd && 0 <= y < g.he
  {
    IdxBounds(g.wd, g.he, x, y);
    var p := Idx(g.wd, x, y);
    forall i :: 0 <= i < |now[p]| ==>
      now[p][i] == before[p][i] + Inside(polys, x as real + g.coords[p][i].x, y as real + g.coords[p][i].y)
  }

  lemma SolidCells(g: Grid, polys: seq<Poly>, before: seq<Lists>, now: seq<Lists>)
    requires Shaped(g, before) && Shaped(g, now) && AllReceived(g, polys, before, now) && AllSolid(polys)
    ensures AllInside(g, polys, before, now)
  {
    forall x, y | 0 <= x < g.wd && 0 <= y < g.he
      ensures PixelInside(g, polys, before, now, x, y)
    {
      IdxBounds(g.wd, g.he, x, y);
      var p := Idx(g.wd, x, y);
      assert PixelReceived(g, polys, before, now, x, y);
      forall i | 0 <= i < |now[p]|
        ensures now[p][i] == before[p][i] + Inside(polys, x as real + g.coords[p][i].x, y as real + g.coords[p][i].y)
      {
        ReceivedIsInside(polys, x, y, g.coords[p][i], before[p][i]);
      }
    }
  }

  // ---------- the loops ----------

  method UpdateMinMax(box: Box, v: Vert) returns (r: Box)
    ensures r == Box(Min(box.minX, v.x), Max(box.maxX, v.x), Min(box.minY, v.y), Max(box.maxY, v.y))
  {
    r := box;
    if v.x < r.minX { r := r.(minX := v.x); }
    if v.y < r.minY { r := r.(minY := v.y); }
    if v.x > r.maxX { r := r.(maxX := v.x); }
    if v.y > r.maxY { r := r.(maxY := v.y); }
  }

  predicate InFloatRange(v: Vert) {
    -FLT_MAX <= v.x <= FLT_MAX && -FLT_MAX <= v.y <= FLT_MAX
  }

  method BoundsOf(q: Quad) returns (box: Box)
    requires InFloatRange(q.v0) && InFloatRange(q.v1) && InFloatRange(q.v2) && InFloatRange(q.v3)
    ensures box == BoxOf(q)
  {
    box := Box(FLT_MAX, -FLT_MAX, FLT_MAX, -FLT_MAX);
    box := UpdateMinMax(box, q.v0);
    box := UpdateMinMax(box, q.v1);
    box := UpdateMinMax(box, q.v2);
    box := UpdateMinMax(box, q.v3);
  }

  /** The micropolygon at the running vertex index. */
  method CellFrom(s: Shaded, srcVertIdx: int, ghost i: int, ghost j: int) returns (poly: Poly)
    requires s.Valid() && 0 <= i < s.h - 1 && 0 <= j < s.w - 1
    requires srcVertIdx == Idx(s.w, j, i)
    ensures poly == CellPoly(s, i, j)
    ensures srcVertIdx >= 0 && srcVertIdx + s.w + 1 < |s.verts|
    ensures poly.q == Quad(s.verts[srcVertIdx], s.verts[srcVertIdx + 1], s.verts[srcVertIdx + s.w],
                           s.verts[srcVertIdx + s.w + 1])
    ensures poly.data == Sample(s.verts[srcVertIdx].z, s.cis[srcVertIdx], s.ois[srcVertIdx])
    ensures InFloatRange(poly.q.v0) && InFloatRange(poly.q.v1) && InFloatRange(poly.q.v2) && InFloatRange(poly.q.v3)
  {
    CellIndices(s, i, j);
    var xN := s.w - 1;
    var q := Quad(s.verts[srcVertIdx], s.verts[srcVertIdx + 1], s.verts[srcVertIdx + xN + 1],
                  s.verts[srcVertIdx + xN + 2]);
    poly := Poly(q, Sample(q.v0.z, s.cis[srcVertIdx], s.ois[srcVertIdx]));
  }

  method SampleCell(g: Grid, poly: Poly, pixels: array<Lists>)
    requires Shaped(g, pixels[..])
    requires InFloatRange(poly.q.v0) && InFloatRange(poly.q.v1) && InFloatRange(poly.q.v2) && InFloatRange(poly.q.v3)
    modifies pixels
    ensures Shaped(g, pixels[..]) && Scanned(g, poly.q, poly.data, old(pixels[..]), pixels[..])
  {
    var box := BoundsOf(poly.q);
    AddMPSamples(g, poly.q, box, poly.data, pixels);
  }

  lemma CellIndices(s: Shaded, i: int, j: int)
    requires s.Valid() && 0 <= i < s.h - 1 && 0 <= j < s.w - 1
    ensures 0 <= Idx(s.w, j, i) && Idx(s.w, j, i) + s.w + 1 < |s.verts|
    ensures Idx(s.w, j + 1, i) == Idx(s.w, j, i) + 1
    ensures Idx(s.w, j, i + 1) == Idx(s.w, j, i) + s.w && Idx(s.w, j + 1, i + 1) == Idx(s.w, j, i) + s.w + 1
  {
    IdxBounds(s.w, s.h, j, i);
    IdxBounds(s.w, s.h, j + 1, i + 1);
    assert (i + 1) * s.w == i * s.w + s.w;
  }

  /** The scan of a whole grid: each sample of the bucket receives the cells in order. */
  method Bust(s: Shaded, g: Grid, pixels: array<Lists>)
    requires s.Valid() && Shaped(g, pixels[..])
    modifies pixels
    ensures Shaped(g, pixels[..]) && AllReceived(g, AllPolys(s), old(pixels[..]), pixels[..])
    ensures AllSolid(AllPolys(s)) ==> AllInside(g, AllPolys(s), old(pixels[..]), pixels[..])
  {
    ScanCells(s, g, pixels);
    if AllSolid(AllPolys(s)) {
      SolidCells(g, AllPolys(s), old(pixels[..]), pixels[..]);
    }
  }

  method ScanCells(s: Shaded, g: Grid, pixels: array<Lists>)
    requires s.Valid() && Shaped(g, pixels[..])
    modifies pixels
    ensures Shaped(g, pixels[..]) && AllReceived(g, AllPolys(s), old(pixels[..]), pixels[..])
  {
    ghost var before := pixels[..];
    var xN, yN := s.w - 1, s.h - 1;
    var srcVertIdx := 0;
    for i := 0 to yN
      invariant srcVertIdx == RowStart(s.w, i)
      invariant Shaped(g, pixels[..]) && AllReceived(g, PolysBefore(s, i, 0), before, pixels[..])
    {
      for j := 0 to xN
        invariant srcVertIdx == Idx(s.w, j, i)
        invariant Shaped(g, pixels[..]) && AllReceived(g, PolysBefore(s, i, j), before, pixels[..])
      {
        ghost var mid := pixels[..];
        var poly := CellFrom(s, srcVertIdx, i, j);
        SampleCell(g, poly, pixels);
        ReceivedNext(g, PolysBefore(s, i, j), CellPoly(s, i, j), before, mid, pixels[..]);
        srcVertIdx := srcVertIdx + 1;
      }
      srcVertIdx := srcVertIdx + 1;
      assert (i + 1) * s.w == i * s.w + s.w;
    }
  }
}
