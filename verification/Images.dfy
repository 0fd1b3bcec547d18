/** Image buffers: copying rectangles, and the transfer of rendered buckets. */
module Images {
  import opened Common
  import opened RowMajor
  import opened Buckets

  /** The NOUTCOLS channels of one pixel, which every copy moves together. */
  datatype Pixel = Pixel(r: real, g: real, b: real, a: real)

  /** The pixels of an image, row by row. */
  datatype Image = Image(wd: int, he: int, px: seq<Pixel>) {
    ghost predicate Valid() { 0 <= wd && 0 <= he && |px| == RowStart(wd, he) }
    ghost predicate Has(x: int, y: int) { 0 <= x < wd && 0 <= y < he }
    ghost function At(x: int, y: int): Pixel
      requires Valid() && Has(x, y)
    {
      IdxBounds(wd, he, x, y);
      px[Idx(wd, x, y)]
    }
  }

  /** Two images of one size that agree at every pixel are the same. */
  lemma SameImage(a: Image, b: Image)
    requires a.Valid() && b.Valid() && a.wd == b.wd && a.he == b.he
    requires forall x, y :: a.Has(x, y) ==> a.At(x, y) == b.At(x, y)
    ensures a == b
  {
    forall k | 0 <= k < |a.px|
      ensures a.px[k] == b.px[k]
    {
      var x, y := IdxSplits(a.wd, a.he, k);
      assert a.Has(x, y) && a.At(x, y) == b.At(x, y);
    }
  }

  /** `from` lies in `now` with its corner at (dx, dy), clipped; elsewhere it is as before. */
  ghost predicate PixelCopied(before: Image, from: Image, dx: int, dy: int, now: Image, x: int, y: int)
    requires before.Valid() && from.Valid() && now.Valid() && before.Has(x, y) && now.Has(x, y)
  {
    now.At(x, y) == if from.Has(x - dx, y - dy) then from.At(x - dx, y - dy) else before.At(x, y)
  }

  ghost predicate Copied(before: Image, from: Image, dx: int, dy: int, now: Image) {
    && before.Valid() && from.Valid() && now.Valid() && now.wd == before.wd && now.he == before.he
    && forall x, y :: before.Has(x, y) ==> PixelCopied(before, from, dx, dy, now, x, y)
  }

  // ---------- copying in place ----------

  /** The pixels from `at` on are those of src from `from` on, n of them; the others have not changed. */
  ghost predicate RunCopied(before: seq<Pixel>, now: seq<Pixel>, at: int, src: seq<Pixel>, from: int, n: int) {
    && |now| == |before| && (n > 0 ==> 0 <= at && at + n <= |now| && 0 <= from && from + n <= |src|)
    && forall p :: 0 <= p < |now| ==> now[p] == if at <= p < at + n then src[from + (p - at)] else before[p]
  }

  method CopyRun(des: array<Pixel>, at: int, src: seq<Pixel>, from: int, n: int)
    requires n > 0 ==> 0 <= at && at + n <= des.Length && 0 <= from && from + n <= |src|
    modifies des
    ensures RunCopied(old(des[..]), des[..], at, src, from, n)
  {
    var j := 0;
    while j < n
      invariant 0 <= j && (j <= n || j == 0)
      invariant forall p :: 0 <= p < des.Length ==> des[p] == if at <= p < at + j then src[from + (p - at)]
                else old(des[p])
    {
      des[at + j] := src[from + j];
      j := j + 1;
    }
  }

  /** Rows i and on of the clipped rectangle are still to be copied. */
  ghost predicate PartCopied(before: Image, from: Image, dx: int, dy: int, rows: int, now: Image) {
    && before.Valid() && from.Valid() && now.Valid() && now.wd == before.wd && now.he == before.he
    && forall x, y :: before.Has(x, y) ==>
      if y < rows then PixelCopied(before, from, dx, dy, now, x, y) else now.At(x, y) == before.At(x, y)
  }

  /** Of n source columns (or rows) placed at d, those from s1 on fit; they are w (if positive) and start at x1. */
  predicate Clipped(size: int, n: int, d: int, x1: int, s1: int, w: int) {
    && x1 == (if d < 0 then 0 else d) && s1 == x1 - d
    && w == MinOf(if d < 0 then n + d else n, size - x1)
  }

  /** Row y of the destination: columns x1 to x1 + w - 1 are those of the source. */
  lemma RowCopied(before: Image, from: Image, dx: int, dy: int, y: int, mid: Image, now: Image, x1: int, s1: int,
                  w: int)
    requires PartCopied(before, from, dx, dy, y, mid) && 0 <= y < before.he && 0 <= y - dy < from.he
    requires now.Valid() && now.wd == mid.wd && now.he == mid.he
    requires Clipped(before.wd, from.wd, dx, x1, s1, w)
    requires RunCopied(mid.px, now.px, Idx(now.wd, x1, y), from.px, Idx(from.wd, s1, y - dy), w)
    ensures PartCopied(before, from, dx, dy, y + 1, now)
  {
    forall x, b | before.Has(x, b)
      ensures if b < y + 1 then PixelCopied(before, from, dx, dy, now, x, b) else now.At(x, b) == before.At(x, b)
    {
      RowPixel(before, from, dx, dy, y, mid, now, x1, w, x, b);
    }
  }

  lemma RowPixel(before: Image, from: Image, dx: int, dy: int, y: int, mid: Image, now: Image, x1: int, w: int, x: int,
                 b: int)
    requires PartCopied(before, from, dx, dy, y, mid) && 0 <= y < before.he && before.Has(x, b)
    requires now.Valid() && now.wd == mid.wd && now.he == mid.he
    requires x1 <= x < x1 + w <==> from.Has(x - dx, y - dy)
    requires RunCopied(mid.px, now.px, Idx(now.wd, x1, y), from.px, Idx(from.wd, x1 - dx, y - dy), w)
    requires 0 <= x1 && (w > 0 ==> x1 + w <= now.wd)
    ensures if b < y + 1 then PixelCopied(before, from, dx, dy, now, x, b) else now.At(x, b) == before.At(x, b)
  {
    IdxBounds(now.wd, now.he, x, b);
    var p, at := Idx(now.wd, x, b), Idx(now.wd, x1, y);
    assert mid.Has(x, b) && now.px[p] == now.At(x, b) && mid.px[p] == mid.At(x, b);
    if b < y {
      RowsApart(now.wd, b, y);
      assert !(at <= p < at + w);
    } else if b > y {
      RowsApart(now.wd, y, b);
      assert !(at <= p < at + w);
    } else {
      assert p - at == x - x1;
    }
  }

  class Buffer2D {
    var wd: int
    var he: int
    var data: array<Pixel>

    ghost predicate Valid()
      reads this, data
    {
      0 <= wd && 0 <= he && data.Length == RowStart(wd, he)
    }

    ghost function Contents(): (r: Image)
      reads this, data
      requires Valid()
      ensures r.Valid()
    {
      Image(wd, he, data[..])
    }

    method CopyRow(ghost before: Image, from: Image, ghost dx: int, ghost dy: int, x: int, y: int, sx: int, sy: int,
                   w: int)
      requires Valid() && PartCopied(before, from, dx, dy, y, Contents()) && 0 <= y < he && 0 <= sy < from.he
               && sy == y - dy
      requires Clipped(wd, from.wd, dx, x, sx, w)
      modifies data
      ensures Valid() && PartCopied(before, from, dx, dy, y + 1, Contents())
    {
      ghost var mid := Contents();
      RunInside(wd, he, x, y, w);
      RunInside(from.wd, from.he, sx, sy, w);
      CopyRun(data, Idx(wd, x, y), from.px, Idx(from.wd, sx, sy), w);
      RowCopied(before, from, dx, dy, y, mid, Contents(), x, sx, w);
    }

    /** Copies an image to (dx1, dy1), which may be outside; what does not fit is clipped off. */
    method CopyRect(dx: int, dy: int, from: Image)
      requires Valid() && from.Valid()
      modifies data
      ensures Valid() && Copied(old(Contents()), from, dx, dy, Contents())
    {
      ghost var before := Contents();
      var dx1, dy1, w, h, sx1, sy1 := dx, dy, from.wd, from.he, 0, 0;
      if dx1 < 0 { sx1, w, dx1 := sx1 - dx1, w + dx1, 0; }
      if dy1 < 0 { sy1, h, dy1 := sy1 - dy1, h + dy1, 0; }
      if dx1 + w > wd { w := wd - dx1; }
      if dy1 + h > he { h := he - dy1; }
      assert Clipped(wd, from.wd, dx, dx1, sx1, w) && Clipped(he, from.he, dy, dy1, sy1, h);
      NothingYet(before, from, dx, dy, dy1);
      var i := 0;
      while i < h
        invariant 0 <= i && (i <= h || i == 0)
        invariant Valid() && PartCopied(before, from, dx, dy, dy1 + i, Contents())
      {
        CopyRow(before, from, dx, dy, dx1, dy1 + i, sx1, sy1 + i, w);
        i := i + 1;
      }
      AllRows(before, from, dx, dy, dy1, sy1, h, i, Contents());
    }

    /** The pixels of a bucket, row by row. */
    method CopyOutputBucket(r: Rect) returns (dest: seq<Pixel>)
      requires Valid() && Inside(r, wd, he)
      ensures Extracted(Contents(), r, dest)
    {
      dest := [];
      for y := 0 to r.y2 - r.y1
        invariant Valid() && ExtractedTo(Contents(), r, y, dest)
      {
        RunInside(wd, he, r.x1, r.y1 + y, r.x2 - r.x1);
        var at := Idx(wd, r.x1, r.y1 + y);
        var run := data[at..at + (r.x2 - r.x1)];
        ExtractedNext(Contents(), r, y, dest, run);
        dest := dest + run;
      }
    }

    /** Puts the pixels of a bucket, row by row, in its place. */
    method StoreOutputBucket(r: Rect, src: seq<Pixel>)
      requires Valid() && Inside(r, wd, he) && |src| == RowStart(r.x2 - r.x1, r.y2 - r.y1)
      modifies data
      ensures Valid() && Copied(old(Contents()), Sub(r, src), r.x1, r.y1, Contents())
    {
      ghost var before := Contents();
      var from := Sub(r, src);
      NothingYet(before, from, r.x1, r.y1, r.y1);
      for y := 0 to r.y2 - r.y1
        invariant Valid() && PartCopied(before, from, r.x1, r.y1, r.y1 + y, Contents())
      {
        CopyRow(before, from, r.x1, r.y1, r.x1, r.y1 + y, 0, y, r.x2 - r.x1);
      }
      AllRows(before, from, r.x1, r.y1, r.y1, 0, r.y2 - r.y1, r.y2 - r.y1, Contents());
    }

    /** The buckets of an image are stored one after the other, in whatever order. */
    method StoreBuckets(buckets: seq<Rect>, rendered: seq<Image>, order: seq<int>)
      requires Valid() && Tiled(buckets, wd, he, Count(he)) && Rendered(buckets, rendered)
      requires forall k :: 0 <= k < |order| ==> 0 <= order[k] < |buckets|
      modifies data
      ensures Valid()
      ensures (forall k :: 0 <= k < |buckets| ==> k in order) ==> Assembled(Contents(), buckets, rendered)
    {
      for n := 0 to |order|
        invariant Valid() && PartAssembled(Contents(), buckets, rendered, order, n)
      {
        ghost var before := Contents();
        var k := order[n];
        TilesInside(buckets, wd, he, k);
        StoreOutputBucket(buckets[k], rendered[k].px);
        AssembledNext(before, buckets, rendered, order, n, Contents());
      }
      if forall k :: 0 <= k < |buckets| ==> k in order {
        AssembledAtEnd(Contents(), buckets, rendered, order);
      }
    }

    /** The buckets of an image end their rendering one after the other, in whatever order. */
    method EndRenders(buckets: seq<Rect>, rendered: seq<Image>, order: seq<int>)
      requires Valid() && Tiled(buckets, wd, he, Count(he)) && Rendered(buckets, rendered)
      requires forall k :: 0 <= k < |order| ==> 0 <= order[k] < |buckets|
      modifies data
      ensures Valid()
      ensures (forall k :: 0 <= k < |buckets| ==> k in order) ==> Assembled(Contents(), buckets, rendered)
    {
      for n := 0 to |order|
        invariant Valid() && PartAssembled(Contents(), buckets, rendered, order, n)
      {
        ghost var before := Contents();
        var k := order[n];
        CopyRect(buckets[k].x1, buckets[k].y1, rendered[k]);
        AssembledNext(before, buckets, rendered, order, n, Contents());
      }
      if forall k :: 0 <= k < |buckets| ==> k in order {
        AssembledAtEnd(Contents(), buckets, rendered, order);
      }
    }
  }

  // ---------- buckets out and in ----------

  predicate Inside(r: Rect, wd: int, he: int) { 0 <= r.x1 <= r.x2 <= wd && 0 <= r.y1 <= r.y2 <= he }

  /** The pixels of a bucket as an image. */
  function Sub(r: Rect, px: seq<Pixel>): Image { Image(r.x2 - r.x1, r.y2 - r.y1, px) }

  ghost predicate ExtractedTo(img: Image, r: Rect, rows: int, px: seq<Pixel>) {
    && img.Valid() && Inside(r, img.wd, img.he) && 0 <= rows <= r.y2 - r.y1
    && |px| == RowStart(r.x2 - r.x1, rows)
    && forall x, y :: 0 <= x < r.x2 - r.x1 && 0 <= y < rows ==> PixelExtracted(img, r, px, x, y)
  }

  ghost predicate PixelExtracted(img: Image, r: Rect, px: seq<Pixel>, x: int, y: int)
    requires img.Valid() && img.Has(r.x1 + x, r.y1 + y)
  {
    var k := Idx(r.x2 - r.x1, x, y);
    0 <= k < |px| && px[k] == img.At(r.x1 + x, r.y1 + y)
  }

  /** px holds exactly the pixels of the bucket. */
  ghost predicate Extracted(img: Image, r: Rect, px: seq<Pixel>) {
    ExtractedTo(img, r, r.y2 - r.y1, px)
  }

  lemma ExtractedNext(img: Image, r: Rect, rows: int, px: seq<Pixel>, run: seq<Pixel>)
    requires ExtractedTo(img, r, rows, px) && rows < r.y2 - r.y1
    requires var at := Idx(img.wd, r.x1, r.y1 + rows);
             && 0 <= at <= at + (r.x2 - r.x1) <= |img.px|
             && run == img.px[at..at + (r.x2 - r.x1)]
    ensures ExtractedTo(img, r, rows + 1, px + run)
  {
    var w, more := r.x2 - r.x1, px + run;
    assert (rows + 1) * w == rows * w + w;
    forall x, y | 0 <= x < w && 0 <= y < rows + 1
      ensures PixelExtracted(img, r, more, x, y)
    {
      if y < rows {
        assert PixelExtracted(img, r, px, x, y);
      } else {
        IdxBounds(img.wd, img.he, r.x1 + x, r.y1 + y);
        MulMono(0, rows, w);
        assert more[Idx(w, x, y)] == run[x];
      }
    }
  }

  /** Taking a bucket out and putting it into an image gives that image this bucket's part of the first. */
  lemma StoreUndoesCopy(img: Image, r: Rect, px: seq<Pixel>, other: Image, now: Image, x: int, y: int)
    requires Extracted(img, r, px) && img.wd == other.wd && img.he == other.he
    requires Copied(other, Sub(r, px), r.x1, r.y1, now) && img.Has(x, y)
    ensures now.At(x, y) == if r.Contains(x, y) then img.At(x, y) else other.At(x, y)
  {
    assert other.Has(x, y) && PixelCopied(other, Sub(r, px), r.x1, r.y1, now, x, y);
    if r.Contains(x, y) {
      assert PixelExtracted(img, r, px, x - r.x1, y - r.y1);
    }
  }

  lemma StoreBackIsIdentity(img: Image, r: Rect, px: seq<Pixel>, now: Image)
    requires Extracted(img, r, px) && Copied(img, Sub(r, px), r.x1, r.y1, now)
    ensures now == img
  {
    forall x, y | img.Has(x, y)
      ensures now.At(x, y) == img.At(x, y)
    {
      StoreUndoesCopy(img, r, px, img, now, x, y);
    }
    SameImage(img, now);
  }

  lemma CopyUndoesStore(img: Image, r: Rect, src: seq<Pixel>, now: Image, px: seq<Pixel>)
    requires Inside(r, img.wd, img.he) && Copied(img, Sub(r, src), r.x1, r.y1, now) && Extracted(now, r, px)
    ensures px == src
  {
    var a, b := Sub(r, src), Sub(r, px);
    forall x, y | a.Has(x, y)
      ensures a.At(x, y) == b.At(x, y)
    {
      assert img.Has(r.x1 + x, r.y1 + y) && PixelCopied(img, a, r.x1, r.y1, now, r.x1 + x, r.y1 + y);
      assert PixelExtracted(now, r, px, x, y);
    }
    SameImage(a, b);
  }

  // ---------- any order ----------

  ghost predicate Rendered(buckets: seq<Rect>, rendered: seq<Image>) {
    && |rendered| == |buckets|
    && forall k :: 0 <= k < |buckets| ==>
      rendered[k].Valid() && rendered[k].wd == buckets[k].x2 - buckets[k].x1
        && rendered[k].he == buckets[k].y2 - buckets[k].y1
  }

  /** A pixel comes from the bucket that contains it. */
  ghost predicate FromHome(img: Image, buckets: seq<Rect>, rendered: seq<Image>, x: int, y: int)
    requires img.Valid() && img.Has(x, y)
  {
    var k := Home(img.wd, x, y);
    && 0 <= k < |buckets| && k < |rendered| && rendered[k].Valid()
      && rendered[k].Has(x - buckets[k].x1, y - buckets[k].y1)
    && img.At(x, y) == rendered[k].At(x - buckets[k].x1, y - buckets[k].y1)
  }

  ghost predicate PartAssembled(img: Image, buckets: seq<Rect>, rendered: seq<Image>, order: seq<int>, n: nat) {
    && img.Valid() && n <= |order|
    && forall x, y :: img.Has(x, y) && Home(img.wd, x, y) in order[..n] ==> FromHome(img, buckets, rendered, x, y)
  }

  ghost predicate Assembled(img: Image, buckets: seq<Rect>, rendered: seq<Image>) {
    img.Valid() && forall x, y :: img.Has(x, y) ==> FromHome(img, buckets, rendered, x, y)
  }

  lemma AssembledNext(before: Image, buckets: seq<Rect>, rendered: seq<Image>, order: seq<int>, n: nat, now: Image)
    requires PartAssembled(before, buckets, rendered, order, n) && n < |order| && 0 <= order[n] < |buckets|
    requires Tiled(buckets, before.wd, before.he, Count(before.he)) && Rendered(buckets, rendered)
    requires Copied(before, rendered[order[n]], buckets[order[n]].x1, buckets[order[n]].y1, now)
    ensures PartAssembled(now, buckets, rendered, order, n + 1)
  {
    var k := order[n];
    forall x, y | now.Has(x, y) && Home(now.wd, x, y) in order[..n + 1]
      ensures FromHome(now, buckets, rendered, x, y)
    {
      assert before.Has(x, y) && PixelCopied(before, rendered[k], buckets[k].x1, buckets[k].y1, now, x, y);
      TilesPartition(buckets, before.wd, before.he, k, x, y);
      if k != Home(now.wd, x, y) {
        assert order[..n + 1] == order[..n] + [k];
        assert FromHome(before, buckets, rendered, x, y);
      }
    }
  }

  lemma AssembledAtEnd(img: Image, buckets: seq<Rect>, rendered: seq<Image>, order: seq<int>)
    requires PartAssembled(img, buckets, rendered, order, |order|)
    requires Tiled(buckets, img.wd, img.he, Count(img.he)) && forall k :: 0 <= k < |buckets| ==> k in order
    ensures Assembled(img, buckets, rendered)
  {
    assert order[..|order|] == order;
    forall x, y | img.Has(x, y)
      ensures FromHome(img, buckets, rendered, x, y)
    {
      SideHas(img.wd, x, x / BUCKET_SIZE);
      SideHas(img.he, y, y / BUCKET_SIZE);
      assert TileIs(buckets, img.wd, img.he, x / BUCKET_SIZE, y / BUCKET_SIZE);
      assert Home(img.wd, x, y) in order;
    }
  }

  /** So the full image does not depend on the order. */
  lemma AssembledOnce(a: Image, b: Image, buckets: seq<Rect>, rendered: seq<Image>)
    requires Assembled(a, buckets, rendered) && Assembled(b, buckets, rendered) && a.wd == b.wd && a.he == b.he
    ensures a == b
  {
    forall x, y | a.Has(x, y)
      ensures a.At(x, y) == b.At(x, y)
    {
      assert FromHome(a, buckets, rendered, x, y) && b.Has(x, y) && FromHome(b, buckets, rendered, x, y);
    }
    SameImage(a, b);
  }

  lemma NothingYet(before: Image, from: Image, dx: int, dy: int, dy1: int)
    requires before.Valid() && from.Valid() && dy1 == (if dy < 0 then 0 else dy)
    ensures PartCopied(before, from, dx, dy, dy1, before)
  {
  }

  lemma AllRows(before: Image, from: Image, dx: int, dy: int, y1: int, s1: int, h: int, i: int, now: Image)
    requires PartCopied(before, from, dx, dy, y1 + i, now)
    requires Clipped(before.he, from.he, dy, y1, s1, h) && 0 <= i && i >= h
    ensures Copied(before, from, dx, dy, now)
  {
  }

  lemma RunInside(wd: int, he: int, x: int, y: int, w: int)
    requires 0 <= x && 0 <= y < he && 0 <= wd
    ensures 0 <= w && x + w <= wd ==> 0 <= Idx(wd, x, y) && Idx(wd, x, y) + w <= RowStart(wd, he)
  {
    MulMono(0, y, wd);
    RowsApart(wd, y, he);
  }
}
