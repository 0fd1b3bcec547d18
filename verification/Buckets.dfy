/** The tiling of the image into buckets and the four shared sample buffers. */
module Buckets {
  import opened Common
  import opened RowMajor

  const BUCKET_SIZE: int := 128

  datatype Rect = Rect(x1: int, y1: int, x2: int, y2: int) {
    predicate Contains(x: int, y: int) { x >= x1 && y >= y1 && x < x2 && y < y2 }
  }

  /** How many buckets a side of n pixels takes. */
  function Count(n: int): int { if n <= 0 then 0 else (n - 1) / BUCKET_SIZE + 1 }

  function Side(i: int, n: int): (int, int) { (i * BUCKET_SIZE, MinOf(i * BUCKET_SIZE + BUCKET_SIZE, n)) }

  /** The bucket in column i of row j. */
  function Tile(xRes: int, yRes: int, i: int, j: int): Rect {
    Rect(Side(i, xRes).0, Side(j, yRes).0, Side(i, xRes).1, Side(j, yRes).1)
  }

  /** The buckets are the tiles, row by row. */
  ghost predicate Tiled(buckets: seq<Rect>, xRes: int, yRes: int, rows: int) {
    && |buckets| == RowStart(Count(xRes), rows)
    && forall i, j :: 0 <= i < Count(xRes) && 0 <= j < rows ==> TileIs(buckets, xRes, yRes, i, j)
  }

  ghost predicate TileIs(buckets: seq<Rect>, xRes: int, yRes: int, i: int, j: int) {
    0 <= Idx(Count(xRes), i, j) < |buckets| && buckets[Idx(Count(xRes), i, j)] == Tile(xRes, yRes, i, j)
  }

  // ---------- the buckets partition the image ----------

  lemma SideHas(n: int, t: int, i: int)
    requires 0 <= t < n && 0 <= i < Count(n)
    ensures Side(i, n).0 <= t < Side(i, n).1 <==> i == t / BUCKET_SIZE
    ensures 0 <= t / BUCKET_SIZE < Count(n)
  {
  }

  lemma SideInside(n: int, i: int)
    requires 0 <= i < Count(n)
    ensures 0 <= Side(i, n).0 < Side(i, n).1 <= n
  {
  }

  lemma IdxInjective(wd: int, i: int, j: int, i': int, j': int)
    requires 0 <= i < wd && 0 <= i' < wd && Idx(wd, i, j) == Idx(wd, i', j')
    ensures i == i' && j == j'
  {
    if j < j' {
      RowsApart(wd, j, j');
    } else if j' < j {
      RowsApart(wd, j', j);
    }
  }

  /** The place of the bucket of a pixel. */
  function Home(xRes: int, x: int, y: int): int { Idx(Count(xRes), x / BUCKET_SIZE, y / BUCKET_SIZE) }

  /** Every pixel of the image is in exactly one bucket, and every bucket lies in the image. */
  lemma TilesPartition(buckets: seq<Rect>, xRes: int, yRes: int, k: int, x: int, y: int)
    requires Tiled(buckets, xRes, yRes, Count(yRes)) && 0 <= k < |buckets|
    requires 0 <= x < xRes && 0 <= y < yRes
    ensures 0 <= Home(xRes, x, y) < |buckets|
    ensures buckets[k].Contains(x, y) <==> k == Home(xRes, x, y)
  {
    var i, j := IdxSplits(Count(xRes), Count(yRes), k);
    assert TileIs(buckets, xRes, yRes, i, j);
    SideHas(xRes, x, i);
    SideHas(yRes, y, j);
    var i', j' := x / BUCKET_SIZE, y / BUCKET_SIZE;
    assert TileIs(buckets, xRes, yRes, i', j');
    if k == Home(xRes, x, y) {
      IdxInjective(Count(xRes), i, j, i', j');
    }
  }

  lemma TilesInside(buckets: seq<Rect>, xRes: int, yRes: int, k: int)
    requires Tiled(buckets, xRes, yRes, Count(yRes)) && 0 <= k < |buckets|
    ensures var r := buckets[k]; 0 <= r.x1 < r.x2 <= xRes && 0 <= r.y1 < r.y2 <= yRes
  {
    var i, j := IdxSplits(Count(xRes), Count(yRes), k);
    assert TileIs(buckets, xRes, yRes, i, j);
    SideInside(xRes, i);
    SideInside(yRes, j);
  }

  // ---------- the sample buffers ----------

  type Size = (int, int)

  function SizeOf(r: Rect): Size { (r.x2 - r.x1, r.y2 - r.y1) }

  /** A buffer of sample coordinates, for buckets of one size, at a rate of 4^rate samples a pixel. */
  datatype SampleBuffer = SampleBuffer(wd: int, he: int, rate: nat) {
    function Size(): Size { (wd, he) }
  }

  type Table = seq<Option<SampleBuffer>>

  /** The sizes that the buckets of an image have. */
  ghost function Needed(xRes: int, yRes: int): set<Size> {
    set i, j | 0 <= i < Count(xRes) && 0 <= j < Count(yRes) :: SizeOf(Tile(xRes, yRes, i, j))
  }

  /** The four sizes that they can have. */
  ghost function Sizes(xRes: int, yRes: int): set<Size> {
    var w, h := Side(Count(xRes) - 1, xRes), Side(Count(yRes) - 1, yRes);
    {(BUCKET_SIZE, BUCKET_SIZE), (BUCKET_SIZE, h.1 - h.0), (w.1 - w.0, BUCKET_SIZE), (w.1 - w.0, h.1 - h.0)}
  }

  lemma NeededAmongFour(xRes: int, yRes: int)
    ensures Needed(xRes, yRes) <= Sizes(xRes, yRes) && |Sizes(xRes, yRes)| <= 4
  {
    var w, h := Side(Count(xRes) - 1, xRes), Side(Count(yRes) - 1, yRes);
    FourOrLess((BUCKET_SIZE, BUCKET_SIZE), (BUCKET_SIZE, h.1 - h.0), (w.1 - w.0, BUCKET_SIZE), (w.1 - w.0, h.1 - h.0));
  }

  lemma FourOrLess(a: Size, b: Size, c: Size, d: Size)
    ensures |{a, b, c, d}| <= 4
  {
  }

  lemma {:induction false} SubsetSize(s: set<Size>, t: set<Size>)
    requires s <= t
    ensures |s| <= |t|
  {
    if s != {} {
      var x :| x in s;
      SubsetSize(s - {x}, t - {x});
    }
  }

  /** The sizes in the table. */
  ghost function Used(slots: Table): set<Size> {
    set i | 0 <= i < |slots| && slots[i].Some? :: slots[i].value.Size()
  }

  ghost predicate OneEach(slots: Table) {
    |slots| == 4 &&
    forall i, j :: 0 <= i < j < 4 && slots[i].Some? && slots[j].Some? ==> slots[i].value.Size() != slots[j].value.Size()
  }

  lemma {:induction false} UsedAtMost(slots: Table)
    ensures |Used(slots)| <= |slots|
  {
    if slots != [] {
      var rest, last := slots[..|slots| - 1], slots[|slots| - 1];
      UsedAtMost(rest);
      assert Used(slots) == Used(rest) + if last.Some? then {last.value.Size()} else {};
    }
  }

  lemma FullTable(slots: Table)
    requires OneEach(slots) && slots[0].Some? && slots[1].Some? && slots[2].Some? && slots[3].Some?
    ensures |Used(slots)| == 4
  {
    var a, b, c, d := slots[0].value.Size(), slots[1].value.Size(), slots[2].value.Size(), slots[3].value.Size();
    assert Used(slots) == {a, b, c, d};
  }

  /** The table has grown: entries stay as they are, and new ones have the given rate. */
  ghost predicate Grown(before: Table, now: Table, rate: nat) {
    && |before| == |now| == 4
    && forall i :: 0 <= i < 4 ==>
         now[i] == before[i] || (before[i] == None && now[i].Some? && now[i].value.rate == rate)
  }

  /** A slot of that size holds another rate. */
  ghost predicate HoldsOtherRate(slots: Table, size: Size, rate: nat) {
    exists i :: 0 <= i < |slots| && slots[i].Some? && slots[i].value.Size() == size && slots[i].value.rate != rate
  }

  /** The slot holds a buffer of that size. */
  ghost predicate Serves(slots: Table, slot: Option<nat>, size: Size) {
    slot.Some? && slot.value < |slots| && slots[slot.value].Some? && slots[slot.value].value.Size() == size
  }

  /** The outcome of a search: none exactly if the size is new and four are in use; otherwise the size is served. */
  ghost predicate Found(before: Table, now: Table, size: Size, rate: nat, slot: Option<nat>) {
    && Grown(before, now, rate)
    && (slot == None <==> size !in Used(before) && |Used(before)| == 4)
    && Used(now) == Used(before) + (if slot.Some? then {size} else {})
    && (slot.Some? ==> Serves(now, slot, size))
  }

  class SampleBuffers {
    const slots: array<Option<SampleBuffer>>

    ghost predicate Valid()
      reads this, slots
    {
      OneEach(slots[..])
    }

    constructor ()
      ensures Valid() && fresh(slots) && Used(slots[..]) == {}
    {
      slots := new Option<SampleBuffer>[4](_ => None);
    }

    /**
     * The buffer of the given size. There is none exactly if the size is new and four others are in use. The rate is
     * not looked at: what is returned has the rate asked for exactly if no slot of that size holds another.
     */
    method FindOrAdd(wd: int, he: int, rate: nat) returns (slot: Option<nat>)
      requires Valid()
      modifies slots
      ensures Valid() && Found(old(slots[..]), slots[..], (wd, he), rate, slot)
      ensures slot.Some? ==> (slots[slot.value].value.rate == rate <==> !HoldsOtherRate(old(slots[..]), (wd, he), rate))
    {
      ghost var before := slots[..];
      for i := 0 to 4
        invariant forall k :: 0 <= k < i ==> !(slots[k].Some? && slots[k].value.Size() == (wd, he))
        invariant slots[..] == before
      {
        if slots[i].Some? && slots[i].value.wd == wd && slots[i].value.he == he {
          FoundRate(before, i, (wd, he), rate);
          return Some(i);
        }
      }
      assert (wd, he) !in Used(before);
      for i := 0 to 4
        invariant forall k :: 0 <= k < i ==> slots[k].Some?
        invariant slots[..] == before
      {
        if slots[i].None? {
          slots[i] := Some(SampleBuffer(wd, he, rate));
          TakenSlot(before, i, SampleBuffer(wd, he, rate));
          assert slots[..] == before[i := Some(SampleBuffer(wd, he, rate))];
          return Some(i);
        }
      }
      FullTable(before);
      slot := None;
    }
  }

  lemma FoundRate(slots: Table, i: nat, size: Size, rate: nat)
    requires OneEach(slots) && i < 4 && slots[i].Some? && slots[i].value.Size() == size
    ensures size in Used(slots) && (slots[i].value.rate == rate <==> !HoldsOtherRate(slots, size, rate))
    ensures Used(slots) == Used(slots) + {size}
  {
  }

  lemma TakenSlot(slots: Table, i: nat, b: SampleBuffer)
    requires OneEach(slots) && i < 4 && slots[i] == None && b.Size() !in Used(slots)
    ensures var now := slots[i := Some(b)];
            && OneEach(now) && Used(now) == Used(slots) + {b.Size()} && Grown(slots, now, b.rate)
            && !HoldsOtherRate(slots, b.Size(), b.rate) && |Used(slots)| < 4
  {
    var now := slots[i := Some(b)];
    forall x
      ensures x in Used(now) <==> x in Used(slots) + {b.Size()}
    {
      if x in Used(slots) {
        var k :| 0 <= k < |slots| && slots[k].Some? && slots[k].value.Size() == x;
        assert now[k] == slots[k];
      }
      if x == b.Size() {
        assert now[i].Some? && now[i].value.Size() == x;
      }
    }
    UsedAtMost(now);
    assert b.Size() !in Used(slots);
  }

  // ---------- the tiling loops ----------

  ghost predicate TiledTo(buckets: seq<Rect>, xRes: int, yRes: int, i: int, j: int) {
    && |buckets| == Idx(Count(xRes), i, j)
    && forall a, b :: 0 <= a < Count(xRes) && 0 <= b && (b < j || (b == j && a < i)) ==>
        TileIs(buckets, xRes, yRes, a, b)
  }

  lemma TiledNext(buckets: seq<Rect>, xRes: int, yRes: int, i: int, j: int)
    requires TiledTo(buckets, xRes, yRes, i, j) && 0 <= i < Count(xRes) && 0 <= j
    ensures TiledTo(buckets + [Tile(xRes, yRes, i, j)], xRes, yRes, i + 1, j)
  {
    var more := buckets + [Tile(xRes, yRes, i, j)];
    forall a, b | 0 <= a < Count(xRes) && 0 <= b && (b < j || (b == j && a < i + 1))
      ensures TileIs(more, xRes, yRes, a, b)
    {
      assert (a == i && b == j) || TileIs(buckets, xRes, yRes, a, b);
    }
  }

  lemma TiledRow(buckets: seq<Rect>, xRes: int, yRes: int, j: int)
    requires TiledTo(buckets, xRes, yRes, Count(xRes), j)
    ensures TiledTo(buckets, xRes, yRes, 0, j + 1)
  {
    assert (j + 1) * Count(xRes) == j * Count(xRes) + Count(xRes);
  }

  // ---------- which worlds the table serves ----------

  ghost function SizesOf(buckets: seq<Rect>): set<Size> {
    set k | 0 <= k < |buckets| :: SizeOf(buckets[k])
  }

  lemma SizesOfSnoc(buckets: seq<Rect>, r: Rect)
    ensures SizesOf(buckets + [r]) == SizesOf(buckets) + {SizeOf(r)}
  {
    var more := buckets + [r];
    assert more[|buckets|] == r;
    forall x | x in SizesOf(buckets)
      ensures x in SizesOf(more)
    {
      var k :| 0 <= k < |buckets| && SizeOf(buckets[k]) == x;
      assert more[k] == buckets[k];
    }
  }

  lemma TilesNeed(buckets: seq<Rect>, xRes: int, yRes: int)
    requires Tiled(buckets, xRes, yRes, Count(yRes))
    ensures SizesOf(buckets) == Needed(xRes, yRes)
  {
    forall k | 0 <= k < |buckets|
      ensures SizeOf(buckets[k]) in Needed(xRes, yRes)
    {
      var i, j := IdxSplits(Count(xRes), Count(yRes), k);
      assert TileIs(buckets, xRes, yRes, i, j);
    }
    forall i, j | 0 <= i < Count(xRes) && 0 <= j < Count(yRes)
      ensures SizeOf(Tile(xRes, yRes, i, j)) in SizesOf(buckets)
    {
      assert TileIs(buckets, xRes, yRes, i, j);
    }
  }

  /** Every bucket has been given a buffer of its own size. */
  ghost predicate Fitted(buckets: seq<Rect>, slotOf: seq<Option<nat>>, slots: Table) {
    && |slotOf| == |buckets|
    && forall k :: 0 <= k < |buckets| ==> Serves(slots, slotOf[k], SizeOf(buckets[k]))
  }

  /** The buffers that have been given are of the right size. */
  ghost predicate Honest(buckets: seq<Rect>, slotOf: seq<Option<nat>>, slots: Table) {
    && |slotOf| == |buckets|
    && forall k :: 0 <= k < |buckets| && slotOf[k].Some? ==> Serves(slots, slotOf[k], SizeOf(buckets[k]))
  }

  /** So far all buckets have a buffer and the table holds just their sizes and the old ones, or they are too many. */
  ghost predicate Served(before: Table, buckets: seq<Rect>, slotOf: seq<Option<nat>>, slots: Table) {
    && Honest(buckets, slotOf, slots)
    && (Fitted(buckets, slotOf, slots) ==> Used(slots) == Used(before) + SizesOf(buckets))
    && (!Fitted(buckets, slotOf, slots) ==> |Used(before) + SizesOf(buckets)| > 4)
  }

  lemma ServedNext(before: Table, buckets: seq<Rect>, slotOf: seq<Option<nat>>, mid: Table, r: Rect, slot: Option<nat>,
                   now: Table, rate: nat)
    requires Served(before, buckets, slotOf, mid) && OneEach(mid) && Found(mid, now, SizeOf(r), rate, slot)
    ensures Served(before, buckets + [r], slotOf + [slot], now)
  {
    SizesOfSnoc(buckets, r);
    FittedNext(buckets, slotOf, mid, r, slot, now, rate);
    OneMoreSize(Used(before), SizesOf(buckets), SizeOf(r));
  }

  lemma OneMoreSize(s: set<Size>, t: set<Size>, x: Size)
    ensures s + (t + {x}) == (s + t) + {x} && |(s + t) + {x}| >= |s + t|
            && (x !in s + t ==> |(s + t) + {x}| == |s + t| + 1)
  {
    assert s + (t + {x}) == (s + t) + {x};
    SubsetSize(s + t, (s + t) + {x});
  }

  /** A bucket that has a buffer keeps it, and one that has none gets none later. */
  lemma FittedNext(buckets: seq<Rect>, slotOf: seq<Option<nat>>, mid: Table, r: Rect, slot: Option<nat>, now: Table,
                   rate: nat)
    requires Honest(buckets, slotOf, mid) && Grown(mid, now, rate) && (slot.Some? ==> Serves(now, slot, SizeOf(r)))
    ensures Fitted(buckets + [r], slotOf + [slot], now) <==> Fitted(buckets, slotOf, mid) && slot.Some?
    ensures Honest(buckets + [r], slotOf + [slot], now)
  {
    var bs, ss := buckets + [r], slotOf + [slot];
    assert bs[|buckets|] == r && ss[|buckets|] == slot;
    assert forall k :: 0 <= k < |buckets| ==> bs[k] == buckets[k] && ss[k] == slotOf[k];
    if Fitted(bs, ss, now) {
      forall k | 0 <= k < |buckets|
        ensures Serves(mid, slotOf[k], SizeOf(buckets[k]))
      {
        assert Serves(now, ss[k], SizeOf(bs[k]));
      }
      assert Serves(now, ss[|buckets|], SizeOf(bs[|buckets|]));
    }
  }

  /** What has been given all along is the condition: the old sizes and those of the buckets are at most four. */
  lemma ServedExactly(before: Table, buckets: seq<Rect>, slotOf: seq<Option<nat>>, slots: Table)
    requires Served(before, buckets, slotOf, slots) && |slots| == 4
    ensures Fitted(buckets, slotOf, slots) <==> |Used(before) + SizesOf(buckets)| <= 4
  {
    UsedAtMost(slots);
  }

  lemma GrownTwice(before: Table, mid: Table, now: Table, rate: nat)
    requires Grown(before, mid, rate) && Grown(mid, now, rate)
    ensures Grown(before, now, rate)
  {
  }

  /** A bucket's buffer has the rate asked for exactly if no slot of its size held another before. */
  lemma RateExactly(before: Table, now: Table, rate: nat, slot: Option<nat>, size: Size)
    requires Grown(before, now, rate) && OneEach(now) && Serves(now, slot, size)
    ensures now[slot.value].value.rate == rate <==> !HoldsOtherRate(before, size, rate)
  {
    if HoldsOtherRate(before, size, rate) {
      var i :| 0 <= i < |before| && before[i].Some? && before[i].value.Size() == size && before[i].value.rate != rate;
      assert now[i] == before[i];
    }
  }

  /** The tiles before column i of row j have been made and served. */
  ghost predicate Tiling(before: Table, xRes: int, yRes: int, rate: nat, i: int, j: int, buckets: seq<Rect>,
                         slotOf: seq<Option<nat>>, slots: Table) {
    && TiledTo(buckets, xRes, yRes, i, j) && Served(before, buckets, slotOf, slots) && Grown(before, slots, rate)
  }

  lemma TilingNext(before: Table, xRes: int, yRes: int, rate: nat, i: int, j: int, buckets: seq<Rect>,
                   slotOf: seq<Option<nat>>,
                   mid: Table, r: Rect, size: Size, slot: Option<nat>, now: Table)
    requires Tiling(before, xRes, yRes, rate, i, j, buckets, slotOf, mid) && 0 <= i < Count(xRes) && 0 <= j
    requires OneEach(mid) && Found(mid, now, size, rate, slot) && r == Tile(xRes, yRes, i, j) && size == SizeOf(r)
    ensures Tiling(before, xRes, yRes, rate, i + 1, j, buckets + [r], slotOf + [slot], now)
  {
    TiledNext(buckets, xRes, yRes, i, j);
    ServedNext(before, buckets, slotOf, mid, r, slot, now, rate);
    GrownTwice(before, mid, now, rate);
  }

  /** One bucket and its buffer. */
  method AddBucket(x: int, y: int, xRes: int, yRes: int, rate: nat, buffs: SampleBuffers, ghost before: Table,
                   ghost i: int, ghost j: int,
                   buckets: seq<Rect>, slotOf: seq<Option<nat>>)
    returns (buckets': seq<Rect>, slotOf': seq<Option<nat>>)
    requires buffs.Valid() && Tiling(before, xRes, yRes, rate, i, j, buckets, slotOf, buffs.slots[..])
    requires 0 <= i < Count(xRes) && 0 <= j && x == i * BUCKET_SIZE && y == j * BUCKET_SIZE
    modifies buffs.slots
    ensures buffs.Valid() && Tiling(before, xRes, yRes, rate, i + 1, j, buckets', slotOf', buffs.slots[..])
  {
    var x2, y2 := MinOf(x + BUCKET_SIZE, xRes), MinOf(y + BUCKET_SIZE, yRes);
    var r := Rect(x, y, x2, y2);
    assert r == Tile(xRes, yRes, i, j);
    var slot := FitTile(r, xRes, yRes, rate, buffs, before, i, j, buckets, slotOf);
    buckets', slotOf' := buckets + [r], slotOf + [slot];
  }

  method FitTile(r: Rect, ghost xRes: int, ghost yRes: int, rate: nat, buffs: SampleBuffers, ghost before: Table,
                 ghost i: int, ghost j: int,
                 ghost buckets: seq<Rect>, ghost slotOf: seq<Option<nat>>)
    returns (slot: Option<nat>)
    requires buffs.Valid() && Tiling(before, xRes, yRes, rate, i, j, buckets, slotOf, buffs.slots[..])
    requires 0 <= i < Count(xRes) && 0 <= j && r == Tile(xRes, yRes, i, j)
    modifies buffs.slots
    ensures buffs.Valid() && Tiling(before, xRes, yRes, rate, i + 1, j, buckets + [r], slotOf + [slot], buffs.slots[..])
  {
    ghost var mid := buffs.slots[..];
    var wd, he := r.x2 - r.x1, r.y2 - r.y1;
    slot := buffs.FindOrAdd(wd, he, rate);
    TilingNext(before, xRes, yRes, rate, i, j, buckets, slotOf, mid, r, (wd, he), slot, buffs.slots[..]);
  }

  method TileRow(y: int, xRes: int, yRes: int, rate: nat, buffs: SampleBuffers, ghost before: Table, ghost j: int,
                 buckets0: seq<Rect>, slotOf0: seq<Option<nat>>)
    returns (buckets: seq<Rect>, slotOf: seq<Option<nat>>)
    requires buffs.Valid() && Tiling(before, xRes, yRes, rate, 0, j, buckets0, slotOf0, buffs.slots[..])
    requires 0 <= j && y == j * BUCKET_SIZE
    modifies buffs.slots
    ensures buffs.Valid() && Tiling(before, xRes, yRes, rate, 0, j + 1, buckets, slotOf, buffs.slots[..])
  {
    buckets, slotOf := buckets0, slotOf0;
    var x := 0;
    ghost var i := 0;
    while x < xRes
      invariant 0 <= i <= Count(xRes) && x == i * BUCKET_SIZE && (x >= xRes ==> i == Count(xRes))
      invariant buffs.Valid() && Tiling(before, xRes, yRes, rate, i, j, buckets, slotOf, buffs.slots[..])
    {
      buckets, slotOf := AddBucket(x, y, xRes, yRes, rate, buffs, before, i, j, buckets, slotOf);
      x, i := x + BUCKET_SIZE, i + 1;
    }
    TiledRow(buckets, xRes, yRes, j);
  }

  /**
   * What a new world leaves: each bucket gets a sample buffer of its size exactly if the sizes in the table before and
   * those needed are together at most four; and then all of them have the rate asked for exactly if no slot of a
   * needed size held another.
   */
  ghost predicate WorldServed(before: Table, xRes: int, yRes: int, rate: nat, buckets: seq<Rect>,
                              slotOf: seq<Option<nat>>, slots: Table) {
    && Tiled(buckets, xRes, yRes, Count(yRes)) && Honest(buckets, slotOf, slots)
    && (Fitted(buckets, slotOf, slots) <==> |Used(before) + Needed(xRes, yRes)| <= 4)
    && (Fitted(buckets, slotOf, slots) ==>
      && Used(slots) == Used(before) + Needed(xRes, yRes)
      && (RatesRight(slotOf, slots, rate) <==> forall size :: size in Needed(xRes, yRes) ==>
          !HoldsOtherRate(before, size, rate)))
  }

  lemma TilingDone(before: Table, xRes: int, yRes: int, rate: nat, buckets: seq<Rect>, slotOf: seq<Option<nat>>,
                   slots: Table)
    requires Tiling(before, xRes, yRes, rate, 0, Count(yRes), buckets, slotOf, slots) && OneEach(slots)
    ensures WorldServed(before, xRes, yRes, rate, buckets, slotOf, slots)
  {
    TilesNeed(buckets, xRes, yRes);
    ServedExactly(before, buckets, slotOf, slots);
    if Fitted(buckets, slotOf, slots) {
      AllRatesExactly(before, buckets, slotOf, slots, rate);
    }
  }

  /** The tiling of a new world, for every resolution, rate and state of the table. */
  method WorldBegin(xRes: int, yRes: int, rate: nat, buffs: SampleBuffers)
    returns (buckets: seq<Rect>, slotOf: seq<Option<nat>>)
    requires buffs.Valid()
    modifies buffs.slots
    ensures buffs.Valid() && WorldServed(old(buffs.slots[..]), xRes, yRes, rate, buckets, slotOf, buffs.slots[..])
  {
    ghost var before := buffs.slots[..];
    buckets, slotOf := [], [];
    StartServed(before);
    var y := 0;
    ghost var j := 0;
    while y < yRes
      invariant 0 <= j <= Count(yRes) && y == j * BUCKET_SIZE && (y >= yRes ==> j == Count(yRes))
      invariant buffs.Valid() && Tiling(before, xRes, yRes, rate, 0, j, buckets, slotOf, buffs.slots[..])
    {
      buckets, slotOf := TileRow(y, xRes, yRes, rate, buffs, before, j, buckets, slotOf);
      y, j := y + BUCKET_SIZE, j + 1;
    }
    TilingDone(before, xRes, yRes, rate, buckets, slotOf, buffs.slots[..]);
  }

  /** Every buffer given has the rate asked for. */
  ghost predicate RatesRight(slotOf: seq<Option<nat>>, slots: Table, rate: nat) {
    forall k :: 0 <= k < |slotOf| ==> HasRate(slots, slotOf[k], rate)
  }

  ghost predicate HasRate(slots: Table, slot: Option<nat>, rate: nat) {
    slot.Some? && slot.value < |slots| && slots[slot.value].Some? && slots[slot.value].value.rate == rate
  }

  lemma StartServed(before: Table)
    requires OneEach(before)
    ensures Served(before, [], [], before) && forall rate: nat :: Grown(before, before, rate)
  {
    assert SizesOf([]) == {};
    assert Used(before) + {} == Used(before);
  }

  lemma AllRatesExactly(before: Table, buckets: seq<Rect>, slotOf: seq<Option<nat>>, now: Table, rate: nat)
    requires Grown(before, now, rate) && OneEach(now) && Fitted(buckets, slotOf, now)
    ensures RatesRight(slotOf, now, rate) <==> forall size :: size in SizesOf(buckets) ==>
              !HoldsOtherRate(before, size, rate)
  {
    forall k | 0 <= k < |buckets|
      ensures HasRate(now, slotOf[k], rate) <==> !HoldsOtherRate(before, SizeOf(buckets[k]), rate)
      ensures SizeOf(buckets[k]) in SizesOf(buckets)
    {
      assert Serves(now, slotOf[k], SizeOf(buckets[k]));
      RateExactly(before, now, rate, slotOf[k], SizeOf(buckets[k]));
    }
  }

  /** The table cannot run out from empty, nor in another world with the same sizes. */
  lemma NeverRunsOut(used: set<Size>, xRes: int, yRes: int)
    requires used <= Sizes(xRes, yRes)
    ensures |used + Needed(xRes, yRes)| <= 4
  {
    NeededAmongFour(xRes, yRes);
    SubsetSize(used + Needed(xRes, yRes), Sizes(xRes, yRes));
  }

  // ---------- worlds that go wrong ----------

  /** A size that a resolution needs. */
  lemma NeedsTile(xRes: int, yRes: int, i: int, j: int, size: Size)
    requires 0 <= i < Count(xRes) && 0 <= j < Count(yRes) && SizeOf(Tile(xRes, yRes, i, j)) == size
    ensures size in Needed(xRes, yRes)
  {
  }

  /** The sizes of a resolution that takes two columns and two rows. */
  lemma NeedsCorner(n: int, i: int, j: int, w: int, h: int)
    requires 128 < n < 256 && 0 <= i <= 1 && 0 <= j <= 1
    requires w == (if i == 0 then 128 else n - 128) && h == (if j == 0 then 128 else n - 128)
    ensures (w, h) in Needed(n, n)
  {
    assert Side(i, n).1 - Side(i, n).0 == w && Side(j, n).1 - Side(j, n).0 == h;
    NeedsTile(n, n, i, j, (w, h));
  }

  lemma NeedsFour(n: int, a: int, b: int)
    requires 128 < n < 256 && a == 128 && b == n - 128
    ensures (a, a) in Needed(n, n) && (b, a) in Needed(n, n) && (a, b) in Needed(n, n) && (b, b) in Needed(n, n)
  {
    NeedsCorner(n, 0, 0, a, a);
    NeedsCorner(n, 1, 0, b, a);
    NeedsCorner(n, 0, 1, a, b);
    NeedsCorner(n, 1, 1, b, b);
  }

  lemma OneBucket(buckets: seq<Rect>, m: int)
    requires 0 < m < 128 && Tiled(buckets, m, m, Count(m))
    ensures |buckets| == 1 && (m, m) in Needed(m, m)
  {
    assert Count(m) == 1 && RowStart(1, 1) == 1;
    NeedsTile(m, m, 0, 0, (m, m));
  }

  lemma FiveSizes(used: set<Size>, more: set<Size>, a: int, b: int, m: int)
    requires (a, a) in used && (b, a) in used && (a, b) in used && (b, b) in used && (m, m) in more
    requires a != b && m != a && m != b
    ensures |used + more| > 4
  {
    var four: set<Size> := {(a, a), (b, a), (a, b), (b, b)};
    assert |four| == 4 && (m, m) !in four;
    SubsetSize(four + {(m, m)}, used + more);
  }

  /** From an empty table every bucket gets its buffer at the rate asked for. */
  lemma FirstWorld(before: Table, xRes: int, yRes: int, rate: nat, buckets: seq<Rect>, slotOf: seq<Option<nat>>,
                   slots: Table)
    requires Used(before) == {} && WorldServed(before, xRes, yRes, rate, buckets, slotOf, slots)
    ensures Fitted(buckets, slotOf, slots) && Used(slots) == Needed(xRes, yRes) && RatesRight(slotOf, slots, rate)
  {
    NeverRunsOut({}, xRes, yRes);
    assert forall size, r: nat :: HoldsOtherRate(before, size, r) ==> size in Used(before);
  }

  lemma TableRunsOut(n: int, m: int, table: Table, bs: seq<Rect>, ss: seq<Option<nat>>, slots: Table)
    requires 128 < n < 256 && 0 < m < 128 && m != n - 128 && Used(table) == Needed(n, n)
    requires WorldServed(table, m, m, 0, bs, ss, slots)
    ensures ss == [None]
  {
    NeedsFour(n, 128, n - 128);
    OneBucket(bs, m);
    FiveSizes(Needed(n, n), Needed(m, m), 128, n - 128, m);
    Unserved(bs, ss, slots);
  }

  lemma Unserved(bs: seq<Rect>, ss: seq<Option<nat>>, slots: Table)
    requires |bs| == 1 && Honest(bs, ss, slots) && !Fitted(bs, ss, slots)
    ensures ss == [None]
  {
  }

  /** A world of n by n pixels, such as 200, fills the table; the one bucket of a later m by m world gets no buffer. */
  method SecondWorldRunsOut(n: int, m: int) returns (slotOf: seq<Option<nat>>)
    requires 128 < n < 256 && 0 < m < 128 && m != n - 128
    ensures slotOf == [None]
  {
    var buffs := new SampleBuffers();
    ghost var empty := buffs.slots[..];
    var bs, ss := WorldBegin(n, n, 0, buffs);
    FirstWorld(empty, n, n, 0, bs, ss, buffs.slots[..]);
    ghost var table := buffs.slots[..];
    bs, slotOf := WorldBegin(m, m, 0, buffs);
    TableRunsOut(n, m, table, bs, slotOf, buffs.slots[..]);
  }

  lemma OldRateStays(m: int, was: nat, rate: nat, table: Table, bs: seq<Rect>, ss: seq<Option<nat>>,
                     bs': seq<Rect>, ss': seq<Option<nat>>, slots: Table)
    requires 0 < m < 128 && was != rate && Tiled(bs, m, m, Count(m))
    requires Fitted(bs, ss, table) && RatesRight(ss, table, was) && Used(table) == Needed(m, m)
    requires WorldServed(table, m, m, rate, bs', ss', slots)
    ensures |ss'| == 1 && Serves(slots, ss'[0], SizeOf(bs'[0])) && slots[ss'[0].value].value.rate != rate
  {
    OneBucket(bs, m);
    OneBucket(bs', m);
    NeededAmongFour(m, m);
    NeverRunsOut(Used(table), m, m);
    TilesNeed(bs, m, m);
    OtherRateHeld(table, ss, SizeOf(bs[0]), was, rate);
    assert SizeOf(bs[0]) in SizesOf(bs);
    assert !RatesRight(ss', slots, rate);
  }

  lemma OtherRateHeld(table: Table, ss: seq<Option<nat>>, size: Size, was: nat, rate: nat)
    requires |ss| == 1 && Serves(table, ss[0], size) && RatesRight(ss, table, was) && was != rate
    ensures HoldsOtherRate(table, size, rate)
  {
    assert HasRate(table, ss[0], was);
  }

  /** In a later world of the same resolution but another sampling rate the bucket is given the buffer of the first. */
  method SecondWorldHasOldRate(m: int, was: nat, rate: nat) returns (got: nat)
    requires 0 < m < 128 && was != rate
    ensures got != rate
  {
    var buffs := new SampleBuffers();
    ghost var empty := buffs.slots[..];
    var bs, ss := WorldBegin(m, m, was, buffs);
    FirstWorld(empty, m, m, was, bs, ss, buffs.slots[..]);
    ghost var table := buffs.slots[..];
    var bs', ss' := WorldBegin(m, m, rate, buffs);
    OldRateStays(m, was, rate, table, bs, ss, bs', ss', buffs.slots[..]);
    got := buffs.slots[ss'[0].value].value.rate;
  }
}
