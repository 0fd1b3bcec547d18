/** Recording micropolygons in the samples of a bucket, and the scan of a whole grid. */
module Sampling {
  import opened Common
  import opened Micropolys
  import opened ConvexQuads
  import opened RowMajor

  type Lists = seq<seq<Sample>>

  /** A pixel of the bucket, one coordinate and one list per sample. */
  datatype Grid = Grid(wd: int, he: int, coords: seq<seq<Coord>>) {
    ghost predicate Valid() {
      && 0 <= wd && 0 <= he && |coords| == he * wd
      && forall p, i :: 0 <= p < |coords| && 0 <= i < |coords[p]| ==>
          0.0 <= coords[p][i].x < 1.0 && 0.0 <= coords[p][i].y < 1.0
    }
  }

  /** The integer pixel range of a box, before clipping to the bucket. */
  predicate InRange(box: Box, x: int, y: int) {
    box.minX.Floor <= x <= Ceil(box.maxX) && box.minY.Floor <= y <= Ceil(box.maxY)
  }

  predicate Hit(q: Quad, x: int, y: int, c: Coord) {
    Covers(q, x as real + c.x, y as real + c.y)
  }

  /** The lists of a pixel after its samples have been tested. */
  function Tested(q: Quad, x: int, y: int, coords: seq<Coord>, lists: Lists, data: Sample): (r: Lists)
    requires |lists| == |coords|
    ensures |r| == |lists|
  {
    seq(|lists|, i requires 0 <= i < |lists| => if Hit(q, x, y, coords[i]) then lists[i] + [data] else lists[i])
  }

  method TestPixel(q: Quad, x: int, y: int, coords: seq<Coord>, lists: Lists, data: Sample) returns (r: Lists)
    requires |lists| == |coords|
    ensures r == Tested(q, x, y, coords, lists, data)
  {
    r := lists;
    for i := 0 to |lists|
      invariant |r| == |lists|
      invariant forall k :: 0 <= k < i ==> r[k] == if Hit(q, x, y, coords[k]) then lists[k] + [data] else lists[k]
      invariant forall k :: i <= k < |lists| ==> r[k] == lists[k]
    {
      var sampX, sampY := x as real + coords[i].x, y as real + coords[i].y;
      var crs0, crs1 := Edge(q.v0, q.v1, sampX, sampY), Edge(q.v1, q.v3, sampX, sampY);
      var crs2, crs3 := Edge(q.v3, q.v2, sampX, sampY), Edge(q.v2, q.v0, sampX, sampY);
      if (crs0 <= 0.0 && crs1 <= 0.0 && crs2 <= 0.0 && crs3 <= 0.0)
        || (crs0 >= 0.0 && crs1 >= 0.0 && crs2 >= 0.0 && crs3 >= 0.0) {
        r := r[i := r[i] + [data]];
      }
    }
  }

  ghost predicate Shaped(g: Grid, pixels: seq<Lists>) {
    && g.Valid() && |pixels| == |g.coords|
    && forall p :: 0 <= p < |pixels| ==> |pixels[p]| == |g.coords[p]|
  }

  /** Row `y`, the pixels from row * wd on: those at x1 to x2 have been tested, the others not touched. */
  ghost predicate RowScanned(g: Grid, q: Quad, data: Sample, before: seq<Lists>, now: seq<Lists>, y: int, x1: int,
                             x2: int)
    requires Shaped(g, before) && Shaped(g, now)
  {
    var row := RowStart(g.wd, y);
    forall p: nat :: p < |now| && row <= p < row + g.wd ==> TestedAt(g, q, data, before, now, y, x1, x2, p)
  }

  /** Pixel p of row y has been tested if it is one of the columns x1 to x2, else it is not touched. */
  ghost predicate TestedAt(g: Grid, q: Quad, data: Sample, before: seq<Lists>, now: seq<Lists>, y: int, x1: int,
                           x2: int, p: nat)
    requires Shaped(g, before) && Shaped(g, now) && p < |now|
  {
    var x := p - RowStart(g.wd, y);
    now[p] == if x1 <= x <= x2 then Tested(q, x, y, g.coords[p], before[p], data) else before[p]
  }

  ghost predicate SameOutside(before: seq<Lists>, now: seq<Lists>, lo: int, hi: int) {
    |now| == |before| && forall p: nat :: SameAt(before, now, lo, hi, p)
  }

  ghost predicate SameAt(before: seq<Lists>, now: seq<Lists>, lo: int, hi: int, p: nat) {
    p < |now| && p < |before| && !(lo <= p < hi) ==> now[p] == before[p]
  }

  /** The columns of row y from x1 up to, not including, x have been tested, and the other rows are as they were. */
  ghost predicate Scanning(g: Grid, q: Quad, data: Sample, before: seq<Lists>, now: seq<Lists>, y: int, x1: int,
                           x: int) {
    && Shaped(g, before) && Shaped(g, now) && RowScanned(g, q, data, before, now, y, x1, x - 1)
    && SameOutside(before, now, RowStart(g.wd, y), RowStart(g.wd, y) + g.wd)
  }

  /** One column. */
  method ScanPixel(g: Grid, q: Quad, data: Sample, y: int, ghost minX: int, x: int, pixels: array<Lists>,
                   ghost before: seq<Lists>)
    requires 0 <= y < g.he && 0 <= minX <= x < g.wd && Scanning(g, q, data, before, pixels[..], y, minX, x)
    modifies pixels
    ensures Scanning(g, q, data, before, pixels[..], y, minX, x + 1)
  {
    IdxBounds(g.wd, g.he, x, y);
    var p := Idx(g.wd, x, y);
    ghost var was := pixels[..];
    assert TestedAt(g, q, data, before, was, y, minX, x - 1, p);
    var tested := TestPixel(q, x, y, g.coords[p], pixels[p], data);
    pixels[p] := tested;
    assert pixels[..] == was[p := tested];
    NextPixel(g, q, data, before, was, pixels[..], y, minX, x, p);
    StillSameOutside(before, was, pixels[..], RowStart(g.wd, y), RowStart(g.wd, y) + g.wd, p);
  }

  /** The inner two loops for one row of pixels. */
  method ScanRow(g: Grid, q: Quad, data: Sample, y: int, minX: int, maxX: int, pixels: array<Lists>)
    requires Shaped(g, pixels[..]) && 0 <= y < g.he && 0 <= minX && maxX < g.wd
    modifies pixels
    ensures Shaped(g, pixels[..])
    ensures RowScanned(g, q, data, old(pixels[..]), pixels[..], y, minX, maxX)
    ensures SameOutside(old(pixels[..]), pixels[..], RowStart(g.wd, y), RowStart(g.wd, y) + g.wd)
  {
    ghost var before := pixels[..];
    var x := minX;
    while x <= maxX
      invariant minX <= x && (x <= maxX + 1 || x == minX)
      invariant Scanning(g, q, data, before, pixels[..], y, minX, x)
    {
      ScanPixel(g, q, data, y, minX, x, pixels, before);
      x := x + 1;
    }
    NoMoreColumns(g, q, data, before, pixels[..], y, minX, x - 1, maxX);
  }

  /** Empty ranges of columns are alike. */
  lemma NoMoreColumns(g: Grid, q: Quad, data: Sample, before: seq<Lists>, now: seq<Lists>, y: int, x1: int, x2: int,
                      x2': int)
    requires Shaped(g, before) && Shaped(g, now) && RowScanned(g, q, data, before, now, y, x1, x2)
    requires x2 == x2' || (x2 < x1 && x2' < x1)
    ensures RowScanned(g, q, data, before, now, y, x1, x2')
  {
    var row := RowStart(g.wd, y);
    forall k: nat | k < |now| && row <= k < row + g.wd
      ensures TestedAt(g, q, data, before, now, y, x1, x2', k)
    {
      assert TestedAt(g, q, data, before, now, y, x1, x2, k);
    }
  }

  /** Testing column x, which is pixel `at`, too. */
  lemma NextPixel(g: Grid, q: Quad, data: Sample, before: seq<Lists>, was: seq<Lists>, now: seq<Lists>, y: int, x1: int,
                  x: int, at: nat)
    requires Shaped(g, before) && Shaped(g, was) && Shaped(g, now) && RowScanned(g, q, data, before, was, y, x1, x - 1)
    requires at == RowStart(g.wd, y) + x < |was| && x1 <= x && now == was[at := now[at]]
    requires TestedAt(g, q, data, before, now, y, x, x, at)
    ensures RowScanned(g, q, data, before, now, y, x1, x)
  {
    var row := RowStart(g.wd, y);
    forall k: nat | k < |now| && row <= k < row + g.wd
      ensures TestedAt(g, q, data, before, now, y, x1, x, k)
    {
      assert TestedAt(g, q, data, before, was, y, x1, x - 1, k);
    }
  }

  lemma StillSameOutside(before: seq<Lists>, was: seq<Lists>, now: seq<Lists>, lo: int, hi: int, at: nat)
    requires SameOutside(before, was, lo, hi) && lo <= at < hi && at < |was| && |now| == |was|
             && now == was[at := now[at]]
    ensures SameOutside(before, now, lo, hi)
  {
    forall k: nat
      ensures SameAt(before, now, lo, hi, k)
    {
      assert SameAt(before, was, lo, hi, k);
    }
  }

  /** Pixel (x, y) after one micropolygon: tested if it is in the box range, else not touched. */
  ghost predicate PixelScanned(g: Grid, q: Quad, data: Sample, before: seq<Lists>, now: seq<Lists>, x: int, y: int)
    requires Shaped(g, before) && Shaped(g, now) && 0 <= x < g.wd && 0 <= y < g.he
  {
    IdxBounds(g.wd, g.he, x, y);
    var p := Idx(g.wd, x, y);
    now[p] == if InRange(BoxOf(q), x, y) then Tested(q, x, y, g.coords[p], before[p], data) else before[p]
  }

  ghost predicate Scanned(g: Grid, q: Quad, data: Sample, before: seq<Lists>, now: seq<Lists>)
    requires Shaped(g, before) && Shaped(g, now)
  {
    forall x, y :: 0 <= x < g.wd && 0 <= y < g.he ==> PixelScanned(g, q, data, before, now, x, y)
  }

  /** Row `y` in the middle of the scan of rows y1 to y2. */
  ghost predicate RowState(g: Grid, q: Quad, data: Sample, before: seq<Lists>, now: seq<Lists>, x1: int, x2: int,
                           y1: int, y2: int, y: int)
    requires Shaped(g, before) && Shaped(g, now)
  {
    RowScanned(g, q, data, before, now, y, x1, if y1 <= y <= y2 then x2 else x1 - 1)
  }

  /** Scanning row y2 + 1 leaves the other rows as they are. */
  lemma NextRow(g: Grid, q: Quad, data: Sample, before: seq<Lists>, mid: seq<Lists>, now: seq<Lists>, x1: int, x2: int,
                y1: int, y2: int, y: int)
    requires Shaped(g, before) && Shaped(g, mid) && Shaped(g, now) && y1 <= y2 + 1 && 0 <= y < g.he
    requires RowState(g, q, data, before, mid, x1, x2, y1, y2, y)
    requires RowScanned(g, q, data, mid, now, y2 + 1, x1, x2)
    requires SameOutside(mid, now, RowStart(g.wd, y2 + 1), RowStart(g.wd, y2 + 1) + g.wd)
    ensures RowState(g, q, data, before, now, x1, x2, y1, y2 + 1, y)
  {
    var row, last := RowStart(g.wd, y), if y1 <= y <= y2 + 1 then x2 else x1 - 1;
    if y < y2 + 1 {
      RowsApart(g.wd, y, y2 + 1);
    } else if y > y2 + 1 {
      RowsApart(g.wd, y2 + 1, y);
    }
    forall p: nat | p < |now| && row <= p < row + g.wd
      ensures TestedAt(g, q, data, before, now, y, x1, last, p)
    {
      assert TestedAt(g, q, data, before, mid, y, x1, if y1 <= y <= y2 then x2 else x1 - 1, p);
      if y == y2 + 1 {
        assert TestedAt(g, q, data, mid, now, y, x1, x2, p);
      } else {
        assert SameAt(mid, now, RowStart(g.wd, y2 + 1), RowStart(g.wd, y2 + 1) + g.wd, p);
      }
    }
  }

  /** The row loops over the clipped range. */
  method ScanRows(g: Grid, q: Quad, data: Sample, minX: int, maxX: int, minY: int, maxY: int, pixels: array<Lists>)
    requires Shaped(g, pixels[..]) && 0 <= minX && maxX < g.wd && 0 <= minY && maxY < g.he
    modifies pixels
    ensures Shaped(g, pixels[..])
    ensures forall y :: 0 <= y < g.he ==> RowState(g, q, data, old(pixels[..]), pixels[..], minX, maxX, minY, maxY, y)
  {
    ghost var before := pixels[..];
    var y, last := minY, minY - 1;
    while y <= maxY
      invariant minY <= y == last + 1 && (y <= maxY + 1 || y == minY)
      invariant Shaped(g, pixels[..])
      invariant forall k :: 0 <= k < g.he ==> RowState(g, q, data, before, pixels[..], minX, maxX, minY, last, k)
    {
      ghost var mid := pixels[..];
      ScanRow(g, q, data, y, minX, maxX, pixels);
      forall k | 0 <= k < g.he
        ensures RowState(g, q, data, before, pixels[..], minX, maxX, minY, y, k)
      {
        NextRow(g, q, data, before, mid, pixels[..], minX, maxX, minY, last, k);
      }
      last := y;
      y := y + 1;
    }
    forall k | 0 <= k < g.he
      ensures RowState(g, q, data, before, pixels[..], minX, maxX, minY, maxY, k)
    {
      assert RowState(g, q, data, before, pixels[..], minX, maxX, minY, last, k);
    }
  }

  /** The clipped range holds exactly the pixels of the bucket that are in the box range. */
  predicate ClippedTo(g: Grid, box: Box, x1: int, x2: int, y1: int, y2: int) {
    && x1 == (if box.minX.Floor < 0 then 0 else box.minX.Floor)
      && x2 == (if Ceil(box.maxX) >= g.wd then g.wd - 1 else Ceil(box.maxX))
    && y1 == (if box.minY.Floor < 0 then 0 else box.minY.Floor)
      && y2 == (if Ceil(box.maxY) >= g.he then g.he - 1 else Ceil(box.maxY))
  }

  lemma RowsGivePixel(g: Grid, q: Quad, data: Sample, before: seq<Lists>, now: seq<Lists>, x1: int, x2: int, y1: int,
                      y2: int, x: int, y: int)
    requires Shaped(g, before) && Shaped(g, now) && 0 <= x < g.wd && 0 <= y < g.he
    requires ClippedTo(g, BoxOf(q), x1, x2, y1, y2)
    requires RowState(g, q, data, before, now, x1, x2, y1, y2, y)
    ensures PixelScanned(g, q, data, before, now, x, y)
  {
    IdxBounds(g.wd, g.he, x, y);
    assert TestedAt(g, q, data, before, now, y, x1, if y1 <= y <= y2 then x2 else x1 - 1, Idx(g.wd, x, y));
    assert InRange(BoxOf(q), x, y) <==> x1 <= x <= x2 && y1 <= y <= y2;
  }

  lemma RowsGiveScan(g: Grid, q: Quad, data: Sample, before: seq<Lists>, now: seq<Lists>, x1: int, x2: int, y1: int,
                     y2: int)
    requires Shaped(g, before) && Shaped(g, now) && ClippedTo(g, BoxOf(q), x1, x2, y1, y2)
    requires forall y :: 0 <= y < g.he ==> RowState(g, q, data, before, now, x1, x2, y1, y2, y)
    ensures Scanned(g, q, data, before, now)
  {
    forall x, y | 0 <= x < g.wd && 0 <= y < g.he
      ensures PixelScanned(g, q, data, before, now, x, y)
    {
      RowsGivePixel(g, q, data, before, now, x1, x2, y1, y2, x, y);
    }
  }

  lemma OutsideBucket(g: Grid, q: Quad, data: Sample, before: seq<Lists>)
    requires Shaped(g, before)
    requires var box := BoxOf(q);
             Ceil(box.maxX) < 0 || Ceil(box.maxY) < 0 || box.minX.Floor >= g.wd || box.minY.Floor >= g.he
    ensures Scanned(g, q, data, before, before)
  {
  }

  /** One micropolygon: box to pixel range, early exit, clipping, and the loops over the pixels that are left. */
  method AddMPSamples(g: Grid, q: Quad, box: Box, data: Sample, pixels: array<Lists>)
    requires Shaped(g, pixels[..]) && box == BoxOf(q)
    modifies pixels
    ensures Shaped(g, pixels[..]) && Scanned(g, q, data, old(pixels[..]), pixels[..])
    ensures Convex(q) ==> ShapeRecorded(g, q, data, old(pixels[..]), pixels[..])
  {
    ClipAndScan(g, q, box, data, pixels);
    if Convex(q) {
      ScannedByShape(g, q, data, old(pixels[..]), pixels[..]);
    }
  }

  method ClipAndScan(g: Grid, q: Quad, box: Box, data: Sample, pixels: array<Lists>)
    requires Shaped(g, pixels[..]) && box == BoxOf(q)
    modifies pixels
    ensures Shaped(g, pixels[..]) && Scanned(g, q, data, old(pixels[..]), pixels[..])
  {
    var minX, maxX := box.minX.Floor, Ceil(box.maxX);
    var minY, maxY := box.minY.Floor, Ceil(box.maxY);
    if maxX < 0 || maxY < 0 || minX >= g.wd || minY >= g.he {
      OutsideBucket(g, q, data, pixels[..]);
      return;
    }
    if minX < 0 { minX := 0; }
    if minY < 0 { minY := 0; }
    if maxX >= g.wd { maxX := g.wd - 1; }
    if maxY >= g.he { maxY := g.he - 1; }
    ScanRows(g, q, data, minX, maxX, minY, maxY, pixels);
    RowsGiveScan(g, q, data, old(pixels[..]), pixels[..], minX, maxX, minY, maxY);
  }

  // ---------- convex micropolygons, by their shape ----------

  /** Sample i of pixel (x, y), which is pixel p: recorded inside the quad, and nowhere else if the quad is not flat. */
  ghost predicate ShapeAt(g: Grid, q: Quad, data: Sample, before: seq<Lists>, now: seq<Lists>, x: int, y: int,
                          p: nat, i: nat)
    requires Shaped(g, before) && Shaped(g, now) && p < |now| && i < |now[p]|
  {
    var px, py := x as real + g.coords[p][i].x, y as real + g.coords[p][i].y;
    && (InHull(q, px, py) ==> now[p][i] == before[p][i] + [data])
    && (QuadArea(q) != 0.0 && !InHull(q, px, py) ==> now[p][i] == before[p][i])
  }

  ghost predicate PixelShaped(g: Grid, q: Quad, data: Sample, before: seq<Lists>, now: seq<Lists>, x: int, y: int)
    requires Shaped(g, before) && Shaped(g, now) && 0 <= x < g.wd && 0 <= y < g.he
  {
    IdxBounds(g.wd, g.he, x, y);
    var p := Idx(g.wd, x, y);
    forall i: nat :: i < |now[p]| ==> ShapeAt(g, q, data, before, now, x, y, p, i)
  }

  /** Every sample of the bucket that is a convex combination of the vertices is recorded, and no other. */
  ghost predicate ShapeRecorded(g: Grid, q: Quad, data: Sample, before: seq<Lists>, now: seq<Lists>)
    requires Shaped(g, before) && Shaped(g, now)
  {
    forall x, y :: 0 <= x < g.wd && 0 <= y < g.he ==> PixelShaped(g, q, data, before, now, x, y)
  }

  /** A point of the quad's area passes the edge test. */
  lemma HullHit(q: Quad, x: int, y: int, c: Coord)
    requires Convex(q) && InHull(q, x as real + c.x, y as real + c.y)
    ensures Hit(q, x, y, c)
  {
    HullCovered(q, x as real + c.x, y as real + c.y);
  }

  /** And its pixel is in the box range. */
  lemma HullInRange(q: Quad, x: int, y: int, c: Coord)
    requires 0.0 <= c.x < 1.0 && 0.0 <= c.y < 1.0 && InHull(q, x as real + c.x, y as real + c.y)
    ensures InRange(BoxOf(q), x, y)
  {
    HullInBox(q, x as real + c.x, y as real + c.y);
    BoxInRange(BoxOf(q), x, y, c);
  }

  lemma BoxInRange(box: Box, x: int, y: int, c: Coord)
    requires 0.0 <= c.x < 1.0 && 0.0 <= c.y < 1.0
    requires box.minX <= x as real + c.x <= box.maxX && box.minY <= y as real + c.y <= box.maxY
    ensures InRange(box, x, y)
  {
  }

  lemma ScannedShape(g: Grid, q: Quad, data: Sample, before: seq<Lists>, now: seq<Lists>, x: int, y: int, p: nat,
                     i: nat)
    requires Shaped(g, before) && Shaped(g, now) && Convex(q) && 0 <= x < g.wd && 0 <= y < g.he
    requires p == Idx(g.wd, x, y) < |now| && i < |now[p]| && PixelScanned(g, q, data, before, now, x, y)
    ensures ShapeAt(g, q, data, before, now, x, y, p, i)
  {
    var c := g.coords[p][i];
    var px, py := x as real + c.x, y as real + c.y;
    if InHull(q, px, py) {
      HullHit(q, x, y, c);
      HullInRange(q, x, y, c);
    } else if QuadArea(q) != 0.0 && Hit(q, x, y, c) {
      CoveredInHull(q, px, py);
    }
  }

  lemma ScannedByShape(g: Grid, q: Quad, data: Sample, before: seq<Lists>, now: seq<Lists>)
    requires Shaped(g, before) && Shaped(g, now) && Scanned(g, q, data, before, now) && Convex(q)
    ensures ShapeRecorded(g, q, data, before, now)
  {
    forall x, y | 0 <= x < g.wd && 0 <= y < g.he
      ensures PixelShaped(g, q, data, before, now, x, y)
    {
      IdxBounds(g.wd, g.he, x, y);
      var p := Idx(g.wd, x, y);
      assert PixelScanned(g, q, data, before, now, x, y);
      forall i: nat | i < |now[p]|
        ensures ShapeAt(g, q, data, before, now, x, y, p, i)
      {
        ScannedShape(g, q, data, before, now, x, y, p, i);
      }
    }
  }

  /** It does not matter which way the loop of a quad runs, whatever its shape. */
  lemma LoopDirectionDoesNotShow(g: Grid, q: Quad, data: Sample, before: seq<Lists>, now: seq<Lists>, now': seq<Lists>)
    requires Shaped(g, before) && Shaped(g, now) && Shaped(g, now')
    requires Scanned(g, q, data, before, now) && Scanned(g, Reversed(q), data, before, now')
    ensures now == now'
  {
    forall p | 0 <= p < |now|
      ensures now[p] == now'[p]
    {
      var x, y := IdxSplits(g.wd, g.he, p);
      assert PixelScanned(g, q, data, before, now, x, y) && PixelScanned(g, Reversed(q), data, before, now', x, y);
      SamePixel(g, q, data, before, now, now', x, y, p);
    }
  }

  lemma SamePixel(g: Grid, q: Quad, data: Sample, before: seq<Lists>, now: seq<Lists>, now': seq<Lists>,
                  x: int, y: int, p: nat)
    requires Shaped(g, before) && Shaped(g, now) && Shaped(g, now')
    requires 0 <= x < g.wd && 0 <= y < g.he && p == Idx(g.wd, x, y) < |now|
    requires PixelScanned(g, q, data, before, now, x, y) && PixelScanned(g, Reversed(q), data, before, now', x, y)
    ensures now[p] == now'[p]
  {
    SameTested(q, x, y, g.coords[p], before[p], data);
    SameBox(q);
  }

  lemma SameBox(q: Quad)
    ensures BoxOf(Reversed(q)) == BoxOf(q)
  {
  }

  lemma SameTested(q: Quad, x: int, y: int, coords: seq<Coord>, lists: Lists, data: Sample)
    requires |lists| == |coords|
    ensures Tested(Reversed(q), x, y, coords, lists, data) == Tested(q, x, y, coords, lists, data)
  {
    forall i | 0 <= i < |lists|
      ensures Hit(Reversed(q), x, y, coords[i]) <==> Hit(q, x, y, coords[i])
    {
      ReversedCovers(q, x as real + coords[i].x, y as real + coords[i].y);
    }
  }

  // ---------- culling loses nothing ----------

  /** A covered sample that is not on all four edges belongs to a pixel of the box range. */
  lemma CoveredInRange(q: Quad, x: int, y: int, c: Coord)
    requires 0.0 <= c.x < 1.0 && 0.0 <= c.y < 1.0
    requires Hit(q, x, y, c) && !OnAllEdges(q, x as real + c.x, y as real + c.y)
    ensures InRange(BoxOf(q), x, y)
  {
    CoveredInBox(q, x as real + c.x, y as real + c.y);
  }

  /** The micropolygon was added to sample i of pixel p if it passes the edge test, and nothing else happened to it. */
  ghost predicate RecordedRight(q: Quad, data: Sample, before: seq<Lists>, now: seq<Lists>, x: int, y: int, c: Coord,
                                p: int, i: int)
    requires 0 <= p < |before| && 0 <= i < |before[p]| && p < |now| && i < |now[p]|
  {
    now[p][i] == if Hit(q, x, y, c) then before[p][i] + [data] else before[p][i]
  }

  /** Culling takes a sample away only if all four edge values are zero there and its pixel is out of the box range. */
  predicate CulledAway(q: Quad, x: int, y: int, c: Coord) {
    OnAllEdges(q, x as real + c.x, y as real + c.y) && !InRange(BoxOf(q), x, y)
  }

  lemma HitInRangeExactly(q: Quad, x: int, y: int, c: Coord)
    requires 0.0 <= c.x < 1.0 && 0.0 <= c.y < 1.0
    ensures Hit(q, x, y, c) && !InRange(BoxOf(q), x, y) <==> CulledAway(q, x, y, c)
  {
    if Hit(q, x, y, c) && !OnAllEdges(q, x as real + c.x, y as real + c.y) {
      CoveredInRange(q, x, y, c);
    }
  }

  /**
   * Exactly when the clipped loop refines testing every sample of the bucket: a sample is recorded right if and
   * only if its four edge values are not all zero or its pixel is in the range of the box.
   */
  lemma CullingIsLossless(g: Grid, q: Quad, data: Sample, before: seq<Lists>, now: seq<Lists>, x: int, y: int, i: int)
    requires Shaped(g, before) && Shaped(g, now) && Scanned(g, q, data, before, now)
    requires 0 <= x < g.wd && 0 <= y < g.he && 0 <= Idx(g.wd, x, y) < |g.coords|
    requires 0 <= i < |g.coords[Idx(g.wd, x, y)]|
    ensures var p := Idx(g.wd, x, y); var c := g.coords[p][i];
            RecordedRight(q, data, before, now, x, y, c, p, i) <==> !CulledAway(q, x, y, c)
  {
    var p := Idx(g.wd, x, y);
    assert PixelScanned(g, q, data, before, now, x, y);
    HitInRangeExactly(q, x, y, g.coords[p][i]);
  }

  /** The exception is real: a quad collapsed to a segment passes the edge test at a far point of its line. */
  lemma CollapsedQuad(q: Quad)
    requires q.v0.x == q.v0.y == q.v1.y == 0.0 && q.v1.x == 1.0 && q.v2 == q.v0 && q.v3 == q.v1
    ensures CulledAway(q, 5, 0, Coord(0.0, 0.0))
  {
    assert BoxOf(q) == Box(0.0, 1.0, 0.0, 0.0);
    assert Ceil(1.0) == 1;
  }

  /** In every bucket with a sample there, that sample passes the edge test and is not recorded. */
  lemma CollapsedQuadIsCulled(g: Grid, q: Quad, data: Sample, before: seq<Lists>, now: seq<Lists>)
    requires q.v0.x == q.v0.y == q.v1.y == 0.0 && q.v1.x == 1.0 && q.v2 == q.v0 && q.v3 == q.v1
    requires Shaped(g, before) && Shaped(g, now) && Scanned(g, q, data, before, now)
    requires g.wd > 5 && g.he > 0 && |g.coords| > 5 && |g.coords[5]| > 0 && g.coords[5][0] == Coord(0.0, 0.0)
    ensures Hit(q, 5, 0, Coord(0.0, 0.0)) && now[5][0] == before[5][0]
  {
    CollapsedQuad(q);
    FirstRow(g.wd, 5);
    assert PixelScanned(g, q, data, before, now, 5, 0);
  }

  lemma FirstRow(wd: int, x: int)
    ensures Idx(wd, x, 0) == x
  {
  }
}
