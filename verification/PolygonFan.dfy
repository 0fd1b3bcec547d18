/** Polygons turned into bilinear patches: a fan of quads around the first vertex, and a last triangle cut in three. */
module PolygonFan {
  import opened Common

  datatype Point = Point(x: real, y: real)

  /** The four corners as the patch takes them; around its edge they come as 0, 1, 3, 2. */
  datatype Patch = Patch(c0: Point, c1: Point, c2: Point, c3: Point)

  /** Indices of the corners of a quad, or of a last triangle. */
  datatype Part = QuadPart(c0: int, c1: int, c2: int, c3: int) | LastTriangle(v1: int, v2: int, v3: int)

  datatype Tri = Tri(a: int, b: int, c: int)

  /** The triangles of the fan that a part stands for: a quad's loop cut along its diagonal from the first corner. */
  function Triangles(p: Part): seq<Tri> {
    match p
    case QuadPart(c0, c1, c2, c3) => [Tri(c0, c1, c3), Tri(c0, c3, c2)]
    case LastTriangle(v1, v2, v3) => [Tri(v1, v2, v3)]
  }

  function AllTriangles(ps: seq<Part>): seq<Tri> {
    if ps == [] then [] else AllTriangles(ps[..|ps| - 1]) + Triangles(ps[|ps| - 1])
  }

  /** The fan triangles (0, i, i + 1) for 1 <= i < k. */
  function Fan(k: nat): seq<Tri> {
    if k <= 1 then [] else Fan(k - 1) + [Tri(0, k - 1, k)]
  }

  lemma AddPart(ps: seq<Part>, p: Part)
    ensures AllTriangles(ps + [p]) == AllTriangles(ps) + Triangles(p)
  {
    assert (ps + [p])[..|ps|] == ps;
  }

  lemma FanTwo(k: nat)
    requires k >= 1
    ensures Fan(k + 2) == Fan(k) + Triangles(QuadPart(0, k, k + 2, k + 1))
  {
    assert Fan(k + 2) == Fan(k + 1) + [Tri(0, k + 1, k + 2)];
    assert Fan(k + 1) == Fan(k) + [Tri(0, k, k + 1)];
  }

  /** The corners are those of fan triangles of n vertices. */
  predicate Proper(p: Part, n: int) {
    match p
    case QuadPart(c0, c1, c2, c3) => 0 == c0 < c1 < c3 < c2 < n
    case LastTriangle(v1, v2, v3) => 0 == v1 < v2 < v3 < n
  }

  /** A last triangle is left over. */
  predicate LeavesTriangle(n: nat) { n >= 3 && n % 2 == 1 }

  /** The parts are the fan of n vertices: quads and, for an odd number of vertices, one last triangle. */
  ghost predicate IsTessellation(parts: seq<Part>, n: nat) {
    && AllTriangles(parts) == Fan(if n == 0 then 0 else n - 1)
    && (forall k :: 0 <= k < |parts| ==> Proper(parts[k], n))
    && (forall k :: 0 <= k < |parts| && k < |parts| - 1 ==> parts[k].QuadPart?)
    && (LeavesTriangle(n) ==> parts != [] && parts[|parts| - 1] == LastTriangle(0, n - 2, n - 1))
    && (!LeavesTriangle(n) && parts != [] ==> parts[|parts| - 1].QuadPart?)
  }

  /** Every fan triangle is covered exactly once, in order, for every number of vertices. */
  method Tessellate(n: nat) returns (parts: seq<Part>)
    ensures IsTessellation(parts, n)
  {
    parts := [];
    var last := n - 1;
    var start := 1;
    var end := MinOf(3, last);
    while end - start == 2
      invariant 1 <= start && start % 2 == 1 && end == MinOf(start + 2, last) && (n >= 2 ==> start <= last)
      invariant AllTriangles(parts) == Fan(start)
      invariant forall k :: 0 <= k < |parts| ==> parts[k].QuadPart? && Proper(parts[k], n)
      decreases last - start
    {
      var quad := QuadPart(0, start, end, start + 1);
      AddPart(parts, quad);
      FanTwo(start);
      parts := parts + [quad];
      start := end;
      end := MinOf(start + 2, last);
    }
    if end - start == 1 {
      var tri := LastTriangle(0, start, end);
      AddPart(parts, tri);
      assert Fan(end) == Fan(start) + [Tri(0, start, end)];
      parts := parts + [tri];
    }
  }

  // ---------- areas ----------

  /** What an edge contributes to an area. */
  type Measure = (Point, Point) -> real

  /** Running along an edge the other way changes the sign. */
  ghost predicate Turns(w: Measure) {
    forall p, q :: w(p, q) == -w(q, p)
  }

  /** The contributions of the edges of a triangle. */
  function Area(w: Measure, a: Point, b: Point, c: Point): real { w(a, b) + w(b, c) + w(c, a) }

  /** The contributions around the edge of a patch. */
  function PatchArea(w: Measure, p: Patch): real { w(p.c0, p.c1) + w(p.c1, p.c3) + w(p.c3, p.c2) + w(p.c2, p.c0) }

  /** The terms of the shoelace formula for the first k edges. */
  function Edges(w: Measure, vs: seq<Point>, k: nat): real
    requires k < |vs|
  {
    if k == 0 then 0.0 else Edges(w, vs, k - 1) + w(vs[k - 1], vs[k])
  }

  /** The shoelace formula: the contributions around the polygon. */
  function Shoelace(w: Measure, vs: seq<Point>): real {
    if vs == [] then 0.0 else Edges(w, vs, |vs| - 1) + w(vs[|vs| - 1], vs[0])
  }

  predicate Refers(vs: seq<Point>, p: Part) {
    match p
    case QuadPart(c0, c1, c2, c3) => 0 <= c0 < |vs| && 0 <= c1 < |vs| && 0 <= c2 < |vs| && 0 <= c3 < |vs|
    case LastTriangle(v1, v2, v3) => 0 <= v1 < |vs| && 0 <= v2 < |vs| && 0 <= v3 < |vs|
  }

  function PartArea(w: Measure, vs: seq<Point>, p: Part): real
    requires Refers(vs, p)
  {
    match p
    case QuadPart(c0, c1, c2, c3) => PatchArea(w, Patch(vs[c0], vs[c1], vs[c2], vs[c3]))
    case LastTriangle(v1, v2, v3) => Area(w, vs[v1], vs[v2], vs[v3])
  }

  function PartsArea(w: Measure, vs: seq<Point>, ps: seq<Part>): real
    requires forall k :: 0 <= k < |ps| ==> Refers(vs, ps[k])
  {
    if ps == [] then 0.0 else PartsArea(w, vs, ps[..|ps| - 1]) + PartArea(w, vs, ps[|ps| - 1])
  }

  predicate InRange(vs: seq<Point>, t: Tri) { 0 <= t.a < |vs| && 0 <= t.b < |vs| && 0 <= t.c < |vs| }

  predicate AllInRange(vs: seq<Point>, ts: seq<Tri>) {
    ts != [] ==> InRange(vs, ts[|ts| - 1]) && AllInRange(vs, ts[..|ts| - 1])
  }

  function TriArea(w: Measure, vs: seq<Point>, t: Tri): real
    requires InRange(vs, t)
  {
    Area(w, vs[t.a], vs[t.b], vs[t.c])
  }

  function TrisArea(w: Measure, vs: seq<Point>, ts: seq<Tri>): real
    requires AllInRange(vs, ts)
  {
    if ts == [] then 0.0 else TrisArea(w, vs, ts[..|ts| - 1]) + TriArea(w, vs, ts[|ts| - 1])
  }

  lemma TrisAreaSnoc(w: Measure, vs: seq<Point>, ts: seq<Tri>, t: Tri)
    requires AllInRange(vs, ts) && InRange(vs, t)
    ensures AllInRange(vs, ts + [t]) && TrisArea(w, vs, ts + [t]) == TrisArea(w, vs, ts) + TriArea(w, vs, t)
  {
    assert (ts + [t])[..|ts|] == ts;
  }

  /** The edge of a quad encloses its two triangles. */
  lemma PartIsTriangles(w: Measure, vs: seq<Point>, ts: seq<Tri>, p: Part)
    requires Turns(w) && Refers(vs, p) && AllInRange(vs, ts)
    ensures AllInRange(vs, ts + Triangles(p)) && TrisArea(w, vs, ts + Triangles(p))
            == TrisArea(w, vs, ts) + PartArea(w, vs, p)
  {
    match p {
      case QuadPart(c0, c1, c2, c3) =>
        var t, u := Tri(c0, c1, c3), Tri(c0, c3, c2);
        TrisAreaSnoc(w, vs, ts, t);
        TrisAreaSnoc(w, vs, ts + [t], u);
        assert ts + [t] + [u] == ts + Triangles(p);
        assert w(vs[c3], vs[c0]) == -w(vs[c0], vs[c3]);
      case LastTriangle(v1, v2, v3) =>
        TrisAreaSnoc(w, vs, ts, Tri(v1, v2, v3));
    }
  }

  lemma {:induction false} PartsAreTriangles(w: Measure, vs: seq<Point>, ps: seq<Part>)
    requires Turns(w) && forall k :: 0 <= k < |ps| ==> Refers(vs, ps[k])
    ensures AllInRange(vs, AllTriangles(ps)) && PartsArea(w, vs, ps) == TrisArea(w, vs, AllTriangles(ps))
  {
    if ps != [] {
      PartsAreTriangles(w, vs, ps[..|ps| - 1]);
      PartIsTriangles(w, vs, AllTriangles(ps[..|ps| - 1]), ps[|ps| - 1]);
    }
  }

  lemma {:induction false} FanArea(w: Measure, vs: seq<Point>, k: nat)
    requires Turns(w) && 1 <= k < |vs|
    ensures AllInRange(vs, Fan(k)) && TrisArea(w, vs, Fan(k)) == Edges(w, vs, k) + w(vs[k], vs[0])
  {
    if k == 1 {
      assert w(vs[0], vs[1]) == -w(vs[1], vs[0]);
      assert Edges(w, vs, 1) == Edges(w, vs, 0) + w(vs[0], vs[1]);
    } else {
      FanArea(w, vs, k - 1);
      FanGrows(w, vs, k);
      assert w(vs[k - 1], vs[0]) == -w(vs[0], vs[k - 1]);
    }
  }

  lemma FanGrows(w: Measure, vs: seq<Point>, k: nat)
    requires 2 <= k < |vs| && AllInRange(vs, Fan(k - 1))
    ensures AllInRange(vs, Fan(k)) && TrisArea(w, vs, Fan(k))
            == TrisArea(w, vs, Fan(k - 1)) + Area(w, vs[0], vs[k - 1], vs[k])
  {
    TrisAreaSnoc(w, vs, Fan(k - 1), Tri(0, k - 1, k));
  }

  /** For every measure of edges, the quads and the last triangle add up to the polygon, with their signs. */
  lemma FanIsPolygon(w: Measure, vs: seq<Point>, parts: seq<Part>)
    requires Turns(w) && vs != [] && AllTriangles(parts) == Fan(|vs| - 1)
    requires forall k :: 0 <= k < |parts| ==> Refers(vs, parts[k])
    ensures PartsArea(w, vs, parts) == Shoelace(w, vs)
  {
    PartsAreTriangles(w, vs, parts);
    var fan := Fan(|vs| - 1);
    FanIsShoelace(w, vs, fan);
    assert AllTriangles(parts) == fan;
  }

  lemma FanIsShoelace(w: Measure, vs: seq<Point>, fan: seq<Tri>)
    requires Turns(w) && vs != [] && fan == Fan(|vs| - 1)
    ensures AllInRange(vs, fan) && TrisArea(w, vs, fan) == Shoelace(w, vs)
  {
    if |vs| == 1 {
      assert w(vs[0], vs[0]) == -w(vs[0], vs[0]);
    } else {
      FanArea(w, vs, |vs| - 1);
    }
  }

  // ---------- signed areas in the plane ----------

  /** Twice the signed area of the triangle from the origin. */
  function Wedge(p: Point, q: Point): real { Mul(p.x, q.y) - Mul(p.y, q.x) }

  lemma WedgeFlips(p: Point, q: Point)
    ensures Wedge(p, q) == -Wedge(q, p)
  {
    assert p.x * q.y == q.y * p.x && p.y * q.x == q.x * p.y;
  }

  lemma WedgeSelf(p: Point)
    ensures Wedge(p, p) == 0.0
  {
    WedgeFlips(p, p);
  }

  /** The quads and the last triangle, as a whole, have the signed area that the shoelace formula gives. */
  lemma PartsHaveArea(vs: seq<Point>, parts: seq<Part>)
    requires vs != [] && AllTriangles(parts) == Fan(|vs| - 1) && forall k :: 0 <= k < |parts| ==> Refers(vs, parts[k])
    ensures PartsArea(Wedge, vs, parts) == Shoelace(Wedge, vs)
  {
    var w: Measure := Wedge;
    forall p, q
      ensures w(p, q) == -w(q, p)
    {
      WedgeFlips(p, q);
    }
    FanIsPolygon(w, vs, parts);
  }

  // ---------- the last triangle ----------

  function Halfway(p: Point, q: Point): Point { Point((p.x + q.x) * 0.5, (p.y + q.y) * 0.5) }
  function Middle(p: Point, q: Point, r: Point): Point { Point((p.x + q.x + r.x) / 3.0, (p.y + q.y + r.y) / 3.0) }

  /** The patches of a triangle: at each corner, the halves of its two sides and the middle. */
  function TrianglePatches(v1: Point, v2: Point, v3: Point): seq<Patch> {
    var mid := Middle(v1, v2, v3);
    var a, b, c := Halfway(v1, v2), Halfway(v2, v3), Halfway(v1, v3);
    [Patch(v1, a, c, mid), Patch(v2, a, b, mid), Patch(v3, b, c, mid)]
  }

  lemma WedgeHalfway(p: Point, q: Point, r: Point)
    ensures Wedge(Halfway(p, q), r) == (Wedge(p, r) + Wedge(q, r)) / 2.0
    ensures Wedge(r, Halfway(p, q)) == (Wedge(r, p) + Wedge(r, q)) / 2.0
  {
    assert (p.x + q.x) * 0.5 * r.y == (p.x * r.y + q.x * r.y) * 0.5;
    assert (p.y + q.y) * 0.5 * r.x == (p.y * r.x + q.y * r.x) * 0.5;
    assert r.x * ((p.y + q.y) * 0.5) == (r.x * p.y + r.x * q.y) * 0.5;
    assert r.y * ((p.x + q.x) * 0.5) == (r.y * p.x + r.y * q.x) * 0.5;
  }

  lemma WedgeMiddle(p: Point, q: Point, s: Point, r: Point)
    ensures Wedge(Middle(p, q, s), r) == (Wedge(p, r) + Wedge(q, r) + Wedge(s, r)) / 3.0
  {
    assert (p.x + q.x + s.x) / 3.0 * r.y == (p.x * r.y + q.x * r.y + s.x * r.y) / 3.0;
    assert (p.y + q.y + s.y) / 3.0 * r.x == (p.y * r.x + q.y * r.x + s.y * r.x) / 3.0;
  }

  /** The edge of the patch at corner p, whose halves towards q and r meet at the middle. */
  lemma CornerPatch(p: Point, q: Point, r: Point)
    ensures PatchArea(Wedge, Patch(p, Halfway(p, q), Halfway(p, r), Middle(p, q, r))) == Area(Wedge, p, q, r) / 3.0
  {
    var a, c, m := Halfway(p, q), Halfway(p, r), Middle(p, q, r);
    WedgeHalfway(p, q, p);
    WedgeHalfway(p, r, p);
    WedgeMiddle(p, q, r, a);
    WedgeMiddle(p, q, r, c);
    WedgeFlips(a, m);
    WedgeHalfway(p, q, q);
    WedgeHalfway(p, q, r);
    WedgeHalfway(p, r, q);
    WedgeHalfway(p, r, r);
    WedgeSelf(p);
    WedgeSelf(q);
    WedgeSelf(r);
    WedgeFlips(p, q);
    WedgeFlips(q, r);
    WedgeFlips(r, p);
  }

  lemma AreaTurns(p: Point, q: Point, r: Point)
    ensures Area(Wedge, q, p, r) == -Area(Wedge, p, q, r) && Area(Wedge, r, q, p) == -Area(Wedge, p, q, r)
  {
    WedgeFlips(p, q);
    WedgeFlips(q, r);
    WedgeFlips(r, p);
  }

  lemma HalfwayBoth(p: Point, q: Point)
    ensures Halfway(p, q) == Halfway(q, p)
  {
  }

  lemma MiddleAny(p: Point, q: Point, r: Point)
    ensures Middle(p, q, r) == Middle(q, p, r) == Middle(r, q, p)
  {
  }

  /** Each patch has a third of the triangle's area; the second and third run around it the other way. */
  lemma ThirdsOfTriangle(v1: Point, v2: Point, v3: Point)
    ensures var ps, t := TrianglePatches(v1, v2, v3), Area(Wedge, v1, v2, v3) / 3.0;
            PatchArea(Wedge, ps[0]) == t && PatchArea(Wedge, ps[1]) == -t && PatchArea(Wedge, ps[2]) == -t
  {
    AreaTurns(v1, v2, v3);
    MiddleAny(v1, v2, v3);
    HalfwayBoth(v1, v2);
    HalfwayBoth(v2, v3);
    HalfwayBoth(v1, v3);
    CornerPatch(v1, v2, v3);
    CornerPatch(v2, v1, v3);
    CornerPatch(v3, v2, v1);
  }

  /** The point is a convex combination of the corners of the patch. */
  ghost predicate InPatch(p: Patch, pt: Point) {
    exists w :: PatchWeighs(w, p, pt)
  }

  datatype Weights = Weights(w0: real, w1: real, w2: real, w3: real)

  predicate PatchWeighs(w: Weights, p: Patch, pt: Point) {
    && w.w0 >= 0.0 && w.w1 >= 0.0 && w.w2 >= 0.0 && w.w3 >= 0.0 && w.w0 + w.w1 + w.w2 + w.w3 == 1.0
    && pt.x == Mul(w.w0, p.c0.x) + Mul(w.w1, p.c1.x) + Mul(w.w2, p.c2.x) + Mul(w.w3, p.c3.x)
    && pt.y == Mul(w.w0, p.c0.y) + Mul(w.w1, p.c1.y) + Mul(w.w2, p.c2.y) + Mul(w.w3, p.c3.y)
  }

  /** The point of a triangle with the given weights of its corners. */
  function At(r: real, s: real, t: real, v1: Point, v2: Point, v3: Point): Point {
    Point(Mul(r, v1.x) + Mul(s, v2.x) + Mul(t, v3.x), Mul(r, v1.y) + Mul(s, v2.y) + Mul(t, v3.y))
  }

  lemma NearCorner(r: real, s: real, t: real, p: real, q: real, o: real)
    ensures Mul(r, p) + Mul(s, q) + Mul(t, o)
         == Mul(r - t, p) + Mul(2.0 * (t - s), (p + o) * 0.5) + Mul(3.0 * s, (p + q + o) / 3.0)
  {
    MulDifference(p, r, t);
    assert Mul(2.0 * (t - s), (p + o) * 0.5) == Mul(t - s, p + o);
    assert Mul(3.0 * s, (p + q + o) / 3.0) == Mul(s, p + q + o);
    MulDifference(p + o, t, s);
    MulSum(t, p, o);
    MulSum(s, p, o);
    MulSum(s, p + q, o);
    MulSum(s, p, q);
  }

  /** A point nearest to corner p, that is with its weight greatest, is in the patch there. */
  lemma CornerHolds(r: real, s: real, t: real, p: Point, q: Point, o: Point)
    requires 0.0 <= s <= r && 0.0 <= t <= r && r + s + t == 1.0
    ensures InPatch(Patch(p, Halfway(p, q), Halfway(p, o), Middle(p, q, o)), At(r, s, t, p, q, o))
  {
    var patch := Patch(p, Halfway(p, q), Halfway(p, o), Middle(p, q, o));
    if s <= t {
      NearCorner(r, s, t, p.x, q.x, o.x);
      NearCorner(r, s, t, p.y, q.y, o.y);
      MulZero(patch.c1.x);
      MulZero(patch.c1.y);
      assert PatchWeighs(Weights(r - t, 0.0, 2.0 * (t - s), 3.0 * s), patch, At(r, s, t, p, q, o));
    } else {
      NearCorner(r, t, s, p.x, o.x, q.x);
      NearCorner(r, t, s, p.y, o.y, q.y);
      MulZero(patch.c2.x);
      MulZero(patch.c2.y);
      assert PatchWeighs(Weights(r - s, 2.0 * (s - t), 0.0, 3.0 * t), patch, At(r, s, t, p, q, o));
    }
  }

  lemma AtAny(r: real, s: real, t: real, v1: Point, v2: Point, v3: Point)
    ensures At(r, s, t, v1, v2, v3) == At(s, r, t, v2, v1, v3) == At(t, s, r, v3, v2, v1)
  {
  }

  /** The patches cover the triangle: each point of it is in the patch of the corner that it is nearest to. */
  lemma PatchesCover(r: real, s: real, t: real, v1: Point, v2: Point, v3: Point)
    requires r >= 0.0 && s >= 0.0 && t >= 0.0 && r + s + t == 1.0
    ensures var ps, pt := TrianglePatches(v1, v2, v3), At(r, s, t, v1, v2, v3);
            && (r >= s && r >= t ==> InPatch(ps[0], pt)) && (s >= r && s >= t ==> InPatch(ps[1], pt))
            && (t >= r && t >= s ==> InPatch(ps[2], pt))
  {
    AtAny(r, s, t, v1, v2, v3);
    MiddleAny(v1, v2, v3);
    HalfwayBoth(v1, v2);
    HalfwayBoth(v2, v3);
    HalfwayBoth(v1, v3);
    if r >= s && r >= t {
      CornerHolds(r, s, t, v1, v2, v3);
    }
    if s >= r && s >= t {
      CornerHolds(s, r, t, v2, v1, v3);
    }
    if t >= r && t >= s {
      CornerHolds(t, s, r, v3, v2, v1);
    }
  }

  // ---------- the patches that are inserted ----------

  /** A quad becomes one patch, a last triangle three. */
  function PatchesOf(vs: seq<Point>, p: Part): seq<Patch>
    requires Refers(vs, p)
  {
    match p
    case QuadPart(c0, c1, c2, c3) => [Patch(vs[c0], vs[c1], vs[c2], vs[c3])]
    case LastTriangle(v1, v2, v3) => TrianglePatches(vs[v1], vs[v2], vs[v3])
  }

  function AllPatches(vs: seq<Point>, ps: seq<Part>): seq<Patch>
    requires forall k :: 0 <= k < |ps| ==> Refers(vs, ps[k])
  {
    if ps == [] then [] else AllPatches(vs, ps[..|ps| - 1]) + PatchesOf(vs, ps[|ps| - 1])
  }

  /** Twice the signed area of all of them. */
  function TotalArea(ps: seq<Patch>): real {
    if ps == [] then 0.0 else TotalArea(ps[..|ps| - 1]) + PatchArea(Wedge, ps[|ps| - 1])
  }

  lemma TotalAreaSnoc(ps: seq<Patch>, p: Patch)
    ensures TotalArea(ps + [p]) == TotalArea(ps) + PatchArea(Wedge, p)
  {
    assert (ps + [p])[..|ps|] == ps;
  }

  lemma TotalAreaThree(ps: seq<Patch>, qs: seq<Patch>)
    requires |qs| == 3
    ensures TotalArea(ps + qs)
         == TotalArea(ps) + (PatchArea(Wedge, qs[0]) + PatchArea(Wedge, qs[1]) + PatchArea(Wedge, qs[2]))
  {
    TotalAreaSnoc(ps, qs[0]);
    TotalAreaSnoc(ps + [qs[0]], qs[1]);
    TotalAreaSnoc(ps + [qs[0]] + [qs[1]], qs[2]);
    assert ps + qs == ps + [qs[0]] + [qs[1]] + [qs[2]];
  }

  /** The last triangle of the polygon, if there is one, as an area. */
  function LastArea(vs: seq<Point>): real {
    if LeavesTriangle(|vs|) then Area(Wedge, vs[0], vs[|vs| - 2], vs[|vs| - 1]) else 0.0
  }

  lemma {:induction false} QuadPatchesArea(vs: seq<Point>, ps: seq<Part>)
    requires forall k :: 0 <= k < |ps| ==> Refers(vs, ps[k]) && ps[k].QuadPart?
    ensures TotalArea(AllPatches(vs, ps)) == PartsArea(Wedge, vs, ps)
  {
    if ps != [] {
      var rest, p := ps[..|ps| - 1], ps[|ps| - 1];
      QuadPatchesArea(vs, rest);
      TotalAreaSnoc(AllPatches(vs, rest), Patch(vs[p.c0], vs[p.c1], vs[p.c2], vs[p.c3]));
    }
  }

  /** The three patches of a last triangle add up to minus a third of it. */
  lemma LastPatchesArea(vs: seq<Point>, ps: seq<Patch>, p: Part)
    requires p.LastTriangle? && Refers(vs, p)
    ensures TotalArea(ps + PatchesOf(vs, p)) == TotalArea(ps) - PartArea(Wedge, vs, p) / 3.0
  {
    ThirdsOfTriangle(vs[p.v1], vs[p.v2], vs[p.v3]);
    TotalAreaThree(ps, PatchesOf(vs, p));
  }

  lemma PatchesArea(vs: seq<Point>, parts: seq<Part>)
    requires IsTessellation(parts, |vs|) && forall k :: 0 <= k < |parts| ==> Refers(vs, parts[k])
    ensures TotalArea(AllPatches(vs, parts)) == PartsArea(Wedge, vs, parts) - LastArea(vs) * 4.0 / 3.0
  {
    if LeavesTriangle(|vs|) {
      var rest := parts[..|parts| - 1];
      QuadPatchesArea(vs, rest);
      LastPatchesArea(vs, AllPatches(vs, rest), parts[|parts| - 1]);
    } else {
      QuadPatchesArea(vs, parts);
    }
  }

  /** The patches are those of the quads and the last triangle, in order. */
  ghost predicate InsertedPatches(vs: seq<Point>, patches: seq<Patch>) {
    exists parts :: IsTessellation(parts, |vs|) && ArePatchesOf(patches, vs, parts)
  }

  ghost predicate ArePatchesOf(patches: seq<Patch>, vs: seq<Point>, parts: seq<Part>) {
    (forall k :: 0 <= k < |parts| ==> Refers(vs, parts[k])) && patches == AllPatches(vs, parts)
  }

  /**
   * The patches of every polygon, as inserted, have its signed area less four thirds of the last triangle's: they
   * have the polygon's area exactly if the number of vertices is even or below three, or the last triangle is flat.
   */
  method Simplify(vs: seq<Point>) returns (patches: seq<Patch>)
    ensures InsertedPatches(vs, patches)
    ensures TotalArea(patches) == Shoelace(Wedge, vs) - LastArea(vs) * 4.0 / 3.0
    ensures TotalArea(patches) == Shoelace(Wedge, vs) <==> !LeavesTriangle(|vs|) || LastArea(vs) == 0.0
  {
    var parts := Tessellate(|vs|);
    patches := [];
    for k := 0 to |parts|
      invariant forall i :: 0 <= i < |parts| ==> Refers(vs, parts[i])
      invariant patches == AllPatches(vs, parts[..k])
    {
      assert parts[..k + 1][..k] == parts[..k];
      patches := patches + PatchesOf(vs, parts[k]);
    }
    assert parts[..|parts|] == parts;
    assert ArePatchesOf(patches, vs, parts);
    PatchesArea(vs, parts);
    if vs != [] {
      PartsHaveArea(vs, parts);
    }
  }

  /** The counterexample: the patches of a triangle add up to minus a third of it. */
  lemma TriangleLosesArea(vs: seq<Point>)
    requires |vs| == 3
    ensures Shoelace(Wedge, vs) == Area(Wedge, vs[0], vs[1], vs[2])
    ensures TotalArea(TrianglePatches(vs[0], vs[1], vs[2])) == -Area(Wedge, vs[0], vs[1], vs[2]) / 3.0
  {
    assert Edges(Wedge, vs, 1) == Edges(Wedge, vs, 0) + Wedge(vs[0], vs[1]);
    assert Edges(Wedge, vs, 2) == Edges(Wedge, vs, 1) + Wedge(vs[1], vs[2]);
    ThirdsOfTriangle(vs[0], vs[1], vs[2]);
    var ps := TrianglePatches(vs[0], vs[1], vs[2]);
    TotalAreaThree([], ps);
    assert [] + ps == ps;
  }

  /** Triangles that are not flat exist. */
  lemma SomeTriangleIsNotFlat(o: Point, a: Point, b: Point)
    requires o.x == o.y == a.y == b.x == 0.0 && a.x == b.y == 1.0
    ensures Area(Wedge, o, a, b) == 1.0
  {
    MulUnits(a.x);
    MulUnits(o.x);
  }

  lemma MulUnits(x: real)
    ensures Mul(x, 0.0) == 0.0 == Mul(0.0, x) && Mul(x, 1.0) == x == Mul(1.0, x)
  {
  }
}
