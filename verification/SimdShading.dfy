/** Elementwise shader instructions: run on blocks of SIMD lanes, they do to every grid point what they say. */
module SimdShading {

  type Sym = nat
  type Block<V> = seq<V>
  type Memory<V> = map<Sym, seq<Block<V>>>

  /** An instruction writes f of its sources; one that keeps part of its destination has it among the sources. */
  datatype Inst<!V> = Inst(dest: Sym, srcs: seq<Sym>, f: seq<V> -> V)

  /** The grid: how many lanes a block has, how many blocks the grid takes, and which symbols vary over it. */
  datatype Layout = Layout(lanes: nat, blocksN: nat, varying: set<Sym>) {
    function Step(s: Sym): int { if s in varying then 1 else 0 }
    function BlocksOf(s: Sym): nat { if s in varying then blocksN else 1 }
    /** The block of a symbol that belongs to block b of the grid. */
    function Of(s: Sym, b: nat): nat { if s in varying then b else 0 }
  }

  ghost predicate Shaped<V>(lay: Layout, mem: Memory<V>) {
    && lay.lanes >= 1 && lay.blocksN >= 1
    && forall s :: s in mem ==> ShapedSym(lay, mem, s)
  }

  ghost predicate ShapedSym<V>(lay: Layout, mem: Memory<V>, s: Sym)
    requires s in mem
  {
    |mem[s]| == lay.BlocksOf(s) && forall b :: 0 <= b < |mem[s]| ==> |mem[s][b]| == lay.lanes
  }

  /** All lanes of a uniform symbol hold its value. */
  ghost predicate Splat<V>(lay: Layout, mem: Memory<V>)
    requires Shaped(lay, mem)
  {
    forall s, l :: s in mem && s !in lay.varying && 0 <= l < lay.lanes ==> SplatAt(lay, mem, s, l)
  }

  ghost predicate SplatAt<V>(lay: Layout, mem: Memory<V>, s: Sym, l: nat)
    requires Shaped(lay, mem) && s in mem && s !in lay.varying && l < lay.lanes
  {
    assert ShapedSym(lay, mem, s);
    mem[s][0][l] == mem[s][0][0]
  }

  /** The symbols are there. */
  predicate Present<V>(syms: set<Sym>, ins: Inst<V>) {
    ins.dest in syms && forall k :: 0 <= k < |ins.srcs| ==> ins.srcs[k] in syms
  }

  /** And a uniform destination has uniform sources only. */
  predicate WellFormed<V>(lay: Layout, syms: set<Sym>, ins: Inst<V>) {
    && Present(syms, ins)
    && (ins.dest !in lay.varying ==> forall k :: 0 <= k < |ins.srcs| ==> ins.srcs[k] !in lay.varying)
  }

  // ---------- one point at a time ----------

  /** The value of a symbol at lane l of block b. */
  ghost function ValueAt<V>(lay: Layout, mem: Memory<V>, b: nat, l: nat, s: Sym): V
    requires Shaped(lay, mem) && s in mem && b < lay.blocksN && l < lay.lanes
  {
    assert ShapedSym(lay, mem, s);
    mem[s][lay.Of(s, b)][l]
  }

  /** The values at one grid point. */
  ghost function PointOf<V>(lay: Layout, mem: Memory<V>, b: nat, l: nat): map<Sym, V>
    requires Shaped(lay, mem) && b < lay.blocksN && l < lay.lanes
  {
    map s | s in mem :: ValueAt(lay, mem, b, l, s)
  }

  ghost function Args<V>(point: map<Sym, V>, srcs: seq<Sym>): seq<V>
    requires forall k :: 0 <= k < |srcs| ==> srcs[k] in point
  {
    seq(|srcs|, k requires 0 <= k < |srcs| => point[srcs[k]])
  }

  /** Scalar execution at one point. */
  ghost function Scalar<V>(point: map<Sym, V>, ins: Inst<V>): map<Sym, V> {
    if Present(point.Keys, ins) then point[ins.dest := ins.f(Args(point, ins.srcs))] else point
  }

  /** Its destination is given f of its sources' values in their order, and nothing else changes. */
  lemma ScalarMeans<V>(point: map<Sym, V>, ins: Inst<V>, args: seq<V>)
    requires Present(point.Keys, ins) && |args| == |ins.srcs|
    requires forall k :: 0 <= k < |args| ==> args[k] == point[ins.srcs[k]]
    ensures Scalar(point, ins) == point[ins.dest := ins.f(args)]
  {
    assert args == Args(point, ins.srcs);
  }

  ghost function ScalarRun<V>(point: map<Sym, V>, prog: seq<Inst<V>>): map<Sym, V> {
    if prog == [] then point else ScalarRun(Scalar(point, prog[0]), prog[1..])
  }

  // ---------- blocks at a time ----------

  /** The result of one block, lane by lane, from the sources' blocks at the given indices. */
  function BlockResult<V>(lay: Layout, mem: Memory<V>, ins: Inst<V>, idx: seq<nat>): (r: Block<V>)
    requires |idx| == |ins.srcs|
    requires forall k :: 0 <= k < |idx| ==>
               ins.srcs[k] in mem && idx[k] < |mem[ins.srcs[k]]| && |mem[ins.srcs[k]][idx[k]]| == lay.lanes
    ensures |r| == lay.lanes
  {
    seq(lay.lanes, l requires 0 <= l < lay.lanes =>
      ins.f(seq(|idx|, k requires 0 <= k < |idx| => mem[ins.srcs[k]][idx[k]][l])))
  }

  ghost function Indices(lay: Layout, srcs: seq<Sym>, b: nat): (idx: seq<nat>)
    ensures |idx| == |srcs|
  {
    seq(|srcs|, k requires 0 <= k < |srcs| => lay.Of(srcs[k], b))
  }

  /** Reading the sources' blocks gives the values at the points of the block. */
  lemma BlockIsPoints<V>(lay: Layout, mem: Memory<V>, ins: Inst<V>, b: nat, l: nat)
    requires Shaped(lay, mem) && Present(mem.Keys, ins) && b < lay.BlocksOf(ins.dest) && b < lay.blocksN
             && l < lay.lanes
    requires Readable(lay, mem, ins, Indices(lay, ins.srcs, b))
    ensures BlockResult(lay, mem, ins, Indices(lay, ins.srcs, b))[l] == ins.f(Args(PointOf(lay, mem, b, l), ins.srcs))
  {
    var idx, point := Indices(lay, ins.srcs, b), PointOf(lay, mem, b, l);
    var args := seq(|idx|, k requires 0 <= k < |idx| => mem[ins.srcs[k]][idx[k]][l]);
    assert args == Args(point, ins.srcs);
  }

  ghost predicate Readable<V>(lay: Layout, mem: Memory<V>, ins: Inst<V>, idx: seq<nat>) {
    && |idx| == |ins.srcs|
    && forall k :: 0 <= k < |idx| ==>
         ins.srcs[k] in mem && idx[k] < |mem[ins.srcs[k]]| && |mem[ins.srcs[k]][idx[k]]| == lay.lanes
  }

  lemma IndicesReadable<V>(lay: Layout, mem: Memory<V>, ins: Inst<V>, b: nat)
    requires Shaped(lay, mem) && Present(mem.Keys, ins) && b < lay.BlocksOf(ins.dest)
    ensures b < lay.blocksN && Readable(lay, mem, ins, Indices(lay, ins.srcs, b))
  {
    forall k | 0 <= k < |ins.srcs|
      ensures var idx := Indices(lay, ins.srcs, b);
              idx[k] < |mem[ins.srcs[k]]| && |mem[ins.srcs[k]][idx[k]]| == lay.lanes
    {
      assert ShapedSym(lay, mem, ins.srcs[k]);
    }
  }

  /** The first i blocks of the destination hold the results from the memory as it was; all else is as it was. */
  ghost predicate PartDone<V>(lay: Layout, before: Memory<V>, ins: Inst<V>, i: nat, now: Memory<V>)
    requires Shaped(lay, before) && Present(before.Keys, ins)
  {
    && ins.dest in now && now == before[ins.dest := now[ins.dest]]
      && |now[ins.dest]| == |before[ins.dest]| == lay.BlocksOf(ins.dest)
    && i <= lay.BlocksOf(ins.dest)
    && (forall b :: 0 <= b < i ==> BlockDone(lay, before, ins, b, now[ins.dest][b]))
    && (forall b :: i <= b < |now[ins.dest]| ==> now[ins.dest][b] == before[ins.dest][b])
  }

  ghost predicate BlockDone<V>(lay: Layout, before: Memory<V>, ins: Inst<V>, b: nat, block: Block<V>) {
    && Readable(lay, before, ins, Indices(lay, ins.srcs, b))
    && block == BlockResult(lay, before, ins, Indices(lay, ins.srcs, b))
  }

  class Context<V> {
    const lay: Layout
    var mem: Memory<V>

    constructor (lay: Layout, mem: Memory<V>)
      ensures this.lay == lay && this.mem == mem
    {
      this.lay, this.mem := lay, mem;
    }

    method StoreBlock(ins: Inst<V>, i: nat, idx: seq<nat>, ghost before: Memory<V>)
      requires Shaped(lay, before) && Present(before.Keys, ins) && PartDone(lay, before, ins, i, mem)
      requires i < lay.BlocksOf(ins.dest) && idx == Indices(lay, ins.srcs, i)
      modifies this
      ensures PartDone(lay, before, ins, i + 1, mem)
    {
      IndicesReadable(lay, before, ins, i);
      SameSources(lay, before, ins, i, mem);
      var block := BlockResult(lay, mem, ins, idx);
      mem := mem[ins.dest := mem[ins.dest][i := block]];
    }

    /** One instruction: a loop over the destination's blocks, each source stepping if it varies. */
    method Execute(ins: Inst<V>)
      requires Shaped(lay, mem) && Present(mem.Keys, ins)
      modifies this
      ensures Shaped(lay, mem) && mem.Keys == old(mem).Keys
      ensures PartDone(lay, old(mem), ins, lay.BlocksOf(ins.dest), mem)
    {
      ghost var before := mem;
      assert ShapedSym(lay, mem, ins.dest);
      var blocksN := lay.BlocksOf(ins.dest);
      var idx: seq<nat> := seq(|ins.srcs|, _ => 0);
      for i := 0 to blocksN
        invariant PartDone(lay, before, ins, i, mem)
        invariant |idx| == |ins.srcs| && forall k :: 0 <= k < |idx| ==> idx[k] == i * lay.Step(ins.srcs[k])
      {
        assert i > 0 ==> ins.dest in lay.varying;
        assert idx == Indices(lay, ins.srcs, i);
        StoreBlock(ins, i, idx, before);
        idx := seq(|ins.srcs|, k requires 0 <= k < |ins.srcs| => idx[k] + lay.Step(ins.srcs[k]));
      }
      DoneShaped(lay, before, ins, mem);
    }

    /**
     * Every grid point ends as if the program had been run on it alone, if every instruction with a uniform
     * destination has one result over the whole grid; with uniform sources it always has.
     */
    method Run(prog: seq<Inst<V>>)
      requires Shaped(lay, mem) && Splat(lay, mem) && forall k :: 0 <= k < |prog| ==> Present(mem.Keys, prog[k])
      modifies this
      ensures Shaped(lay, mem) && mem.Keys == old(mem).Keys
      ensures OneResults(lay, PointsOf(lay, old(mem)), prog) ==> Splat(lay, mem) && RanAlone(lay, old(mem), prog, mem)
      ensures (forall k :: 0 <= k < |prog| ==> WellFormed(lay, old(mem).Keys, prog[k])) ==>
                OneResults(lay, PointsOf(lay, old(mem)), prog)
    {
      ghost var mem0, points := mem, PointsOf(lay, mem);
      ghost var right := OneResults(lay, points, prog);
      if forall k :: 0 <= k < |prog| ==> WellFormed(lay, mem.Keys, prog[k]) {
        UniformAgrees(lay, mem);
        WellFormedSettles(lay, mem.Keys, points, prog);
      }
      for i := 0 to |prog|
        invariant Shaped(lay, mem) && mem.Keys == mem0.Keys
        invariant right ==> Splat(lay, mem) && OneResults(lay, points, prog[i..]) && Matches(lay, mem, points)
        invariant right ==> Halfway(lay, mem0, prog, mem, prog[i..])
      {
        ghost var before := mem;
        Execute(prog[i]);
        assert prog[i..][0] == prog[i] && prog[i..][1..] == prog[i + 1..];
        if right {
          SameOneResult(lay, before, points, prog[i]);
          DoneIsScalar(lay, before, prog[i], mem);
        }
        points := StepAll(points, prog[i]);
      }
    }
  }

  ghost predicate RanAlone<V>(lay: Layout, mem0: Memory<V>, prog: seq<Inst<V>>, mem: Memory<V>)
    requires Shaped(lay, mem0) && Shaped(lay, mem)
  {
    forall b: nat, l: nat :: b < lay.blocksN && l < lay.lanes ==>
      PointOf(lay, mem, b, l) == ScalarRun(PointOf(lay, mem0, b, l), prog)
  }

  /** What is left of the program leads every point from here to where the whole program leads it. */
  ghost predicate Halfway<V>(lay: Layout, mem0: Memory<V>, prog: seq<Inst<V>>, mem: Memory<V>, left: seq<Inst<V>>)
    requires Shaped(lay, mem0) && Shaped(lay, mem)
  {
    forall b: nat, l: nat :: b < lay.blocksN && l < lay.lanes ==>
      ScalarRun(PointOf(lay, mem, b, l), left) == ScalarRun(PointOf(lay, mem0, b, l), prog)
  }

  /** A block that is still to be written has not been changed, so it may also be a source. */
  lemma SameSources<V>(lay: Layout, before: Memory<V>, ins: Inst<V>, i: nat, now: Memory<V>)
    requires Shaped(lay, before) && Present(before.Keys, ins) && PartDone(lay, before, ins, i, now)
    requires i < lay.BlocksOf(ins.dest) && Readable(lay, before, ins, Indices(lay, ins.srcs, i))
    ensures Readable(lay, now, ins, Indices(lay, ins.srcs, i))
    ensures BlockResult(lay, now, ins, Indices(lay, ins.srcs, i))
            == BlockResult(lay, before, ins, Indices(lay, ins.srcs, i))
  {
    var idx := Indices(lay, ins.srcs, i);
    forall k | 0 <= k < |idx|
      ensures ins.srcs[k] in now && idx[k] < |now[ins.srcs[k]]|
              && now[ins.srcs[k]][idx[k]] == before[ins.srcs[k]][idx[k]]
    {
      assert ins.srcs[k] == ins.dest ==> idx[k] == i;
    }
    forall l | 0 <= l < lay.lanes
      ensures BlockResult(lay, now, ins, idx)[l] == BlockResult(lay, before, ins, idx)[l]
    {
      assert seq(|idx|, k requires 0 <= k < |idx| => now[ins.srcs[k]][idx[k]][l])
          == seq(|idx|, k requires 0 <= k < |idx| => before[ins.srcs[k]][idx[k]][l]);
    }
  }

  lemma DoneShaped<V>(lay: Layout, before: Memory<V>, ins: Inst<V>, now: Memory<V>)
    requires Shaped(lay, before) && Present(before.Keys, ins) && PartDone(lay, before, ins, lay.BlocksOf(ins.dest), now)
    ensures Shaped(lay, now)
  {
    forall s | s in now
      ensures ShapedSym(lay, now, s)
    {
      assert ShapedSym(lay, before, s);
      if s == ins.dest {
        forall b | 0 <= b < |now[s]|
          ensures |now[s][b]| == lay.lanes
        {
          assert BlockDone(lay, before, ins, b, now[s][b]);
        }
      }
    }
  }

  // ---------- when blocks do what points do ----------

  /** A uniform destination gets the same result at every grid point. */
  ghost predicate OneResult<V>(lay: Layout, mem: Memory<V>, ins: Inst<V>)
    requires Shaped(lay, mem) && Present(mem.Keys, ins)
  {
    ins.dest in lay.varying ||
    forall b: nat, l: nat :: b < lay.blocksN && l < lay.lanes ==>
      ins.f(Args(PointOf(lay, mem, b, l), ins.srcs)) == ins.f(Args(PointOf(lay, mem, 0, 0), ins.srcs))
  }

  ghost predicate DoneAsScalar<V>(lay: Layout, before: Memory<V>, ins: Inst<V>, now: Memory<V>)
    requires Shaped(lay, before) && Shaped(lay, now)
  {
    forall b: nat, l: nat :: b < lay.blocksN && l < lay.lanes ==>
      PointOf(lay, now, b, l) == Scalar(PointOf(lay, before, b, l), ins)
  }

  /** What the point (b, l) gets: the result of the point of the same lane in the destination's block for b. */
  lemma WrittenAt<V>(lay: Layout, before: Memory<V>, ins: Inst<V>, now: Memory<V>, b: nat, l: nat)
    requires Shaped(lay, before) && Present(before.Keys, ins) && b < lay.blocksN && l < lay.lanes
    requires PartDone(lay, before, ins, lay.BlocksOf(ins.dest), now) && Shaped(lay, now)
    ensures PointOf(lay, now, b, l)
         == PointOf(lay, before, b, l)[ins.dest := ins.f(Args(PointOf(lay, before, lay.Of(ins.dest, b), l), ins.srcs))]
  {
    var d := lay.Of(ins.dest, b);
    assert BlockDone(lay, before, ins, d, now[ins.dest][d]);
    BlockIsPoints(lay, before, ins, d, l);
    assert ShapedSym(lay, now, ins.dest);
    assert ValueAt(lay, now, b, l, ins.dest) == ins.f(Args(PointOf(lay, before, d, l), ins.srcs));
  }

  /**
   * Exactly when one instruction on blocks is the scalar instruction at every point, uniform symbols staying
   * uniform: when its destination varies, or its result is one and the same at every point.
   */
  lemma DoneIsScalar<V>(lay: Layout, before: Memory<V>, ins: Inst<V>, now: Memory<V>)
    requires Shaped(lay, before) && Splat(lay, before) && Present(before.Keys, ins)
    requires PartDone(lay, before, ins, lay.BlocksOf(ins.dest), now) && Shaped(lay, now)
    ensures DoneAsScalar(lay, before, ins, now) && Splat(lay, now) <==> OneResult(lay, before, ins)
  {
    if OneResult(lay, before, ins) {
      forall b: nat, l: nat | b < lay.blocksN && l < lay.lanes
        ensures PointOf(lay, now, b, l) == Scalar(PointOf(lay, before, b, l), ins)
      {
        WrittenAt(lay, before, ins, now, b, l);
      }
      StillSplat(lay, before, ins, now);
    }
    if DoneAsScalar(lay, before, ins, now) && Splat(lay, now) && ins.dest !in lay.varying {
      forall b: nat, l: nat | b < lay.blocksN && l < lay.lanes
        ensures ins.f(Args(PointOf(lay, before, b, l), ins.srcs)) == ins.f(Args(PointOf(lay, before, 0, 0), ins.srcs))
      {
        OneResultAt(lay, before, ins, now, b, l);
      }
    }
  }

  lemma StillSplat<V>(lay: Layout, before: Memory<V>, ins: Inst<V>, now: Memory<V>)
    requires Shaped(lay, before) && Splat(lay, before) && Present(before.Keys, ins) && OneResult(lay, before, ins)
    requires PartDone(lay, before, ins, lay.BlocksOf(ins.dest), now) && Shaped(lay, now)
    ensures Splat(lay, now)
  {
    forall s, l | s in now && s !in lay.varying && 0 <= l < lay.lanes
      ensures SplatAt(lay, now, s, l)
    {
      WrittenAt(lay, before, ins, now, 0, l);
      WrittenAt(lay, before, ins, now, 0, 0);
      assert PointOf(lay, now, 0, l)[s] == ValueAt(lay, now, 0, l, s);
      assert PointOf(lay, now, 0, 0)[s] == ValueAt(lay, now, 0, 0, s);
      assert SplatAt(lay, before, s, l);
    }
  }

  lemma OneResultAt<V>(lay: Layout, before: Memory<V>, ins: Inst<V>, now: Memory<V>, b: nat, l: nat)
    requires Shaped(lay, before) && Present(before.Keys, ins) && b < lay.blocksN && l < lay.lanes
    requires PartDone(lay, before, ins, lay.BlocksOf(ins.dest), now) && Shaped(lay, now)
    requires DoneAsScalar(lay, before, ins, now) && Splat(lay, now) && ins.dest !in lay.varying
    ensures ins.f(Args(PointOf(lay, before, b, l), ins.srcs)) == ins.f(Args(PointOf(lay, before, 0, 0), ins.srcs))
  {
    var d := ins.dest;
    WrittenAt(lay, before, ins, now, b, l);
    WrittenAt(lay, before, ins, now, 0, l);
    WrittenAt(lay, before, ins, now, 0, 0);
    assert PointOf(lay, now, b, l)[d] == Scalar(PointOf(lay, before, b, l), ins)[d];
    assert SplatAt(lay, now, d, l);
    assert PointOf(lay, now, 0, l)[d] == ValueAt(lay, now, 0, l, d);
    assert PointOf(lay, now, 0, 0)[d] == ValueAt(lay, now, 0, 0, d);
  }

  /** The failure is real: a uniform destination takes the result of the first block for all blocks. */
  lemma SecondBlockIgnored<V>(lay: Layout, before: Memory<V>, ins: Inst<V>, now: Memory<V>, x: Sym, u: Sym)
    requires Shaped(lay, before) && lay.blocksN > 1 && x in before && u in before && x in lay.varying
             && u !in lay.varying
    requires ins.dest == u && ins.srcs == [x] && forall v :: ins.f([v]) == v
    requires PartDone(lay, before, ins, lay.BlocksOf(u), now) && Shaped(lay, now)
    ensures PointOf(lay, now, 1, 0)[u] == PointOf(lay, before, 0, 0)[x]
    ensures Scalar(PointOf(lay, before, 1, 0), ins)[u] == PointOf(lay, before, 1, 0)[x]
  {
    WrittenAt(lay, before, ins, now, 1, 0);
    assert Args(PointOf(lay, before, 0, 0), [x]) == [PointOf(lay, before, 0, 0)[x]];
    assert Args(PointOf(lay, before, 1, 0), [x]) == [PointOf(lay, before, 1, 0)[x]];
  }

  // ---------- the same along a program, on the points alone ----------

  type Points<!V> = (nat, nat) -> map<Sym, V>

  ghost function PointsOf<V>(lay: Layout, mem: Memory<V>): Points<V>
    requires Shaped(lay, mem)
  {
    (b: nat, l: nat) => if b < lay.blocksN && l < lay.lanes then PointOf(lay, mem, b, l) else map[]
  }

  ghost predicate Matches<V>(lay: Layout, mem: Memory<V>, points: Points<V>)
    requires Shaped(lay, mem)
  {
    forall b: nat, l: nat :: b < lay.blocksN && l < lay.lanes ==> PointOf(lay, mem, b, l) == points(b, l)
  }

  ghost function StepAll<V>(points: Points<V>, ins: Inst<V>): Points<V> {
    (b: nat, l: nat) => Scalar(points(b, l), ins)
  }

  /** The instruction is run with one result over the points, or has a varying destination. */
  ghost predicate Settles<V>(lay: Layout, points: Points<V>, ins: Inst<V>) {
    ins.dest in lay.varying ||
    forall b: nat, l: nat :: b < lay.blocksN && l < lay.lanes ==> SameResult(points(b, l), points(0, 0), ins)
  }

  ghost predicate SameResult<V>(p: map<Sym, V>, q: map<Sym, V>, ins: Inst<V>) {
    Present(p.Keys, ins) && Present(q.Keys, ins) ==> ins.f(Args(p, ins.srcs)) == ins.f(Args(q, ins.srcs))
  }

  /** So is every instruction of the program in turn. */
  ghost predicate OneResults<V>(lay: Layout, points: Points<V>, prog: seq<Inst<V>>) {
    prog == [] || (Settles(lay, points, prog[0]) && OneResults(lay, StepAll(points, prog[0]), prog[1..]))
  }

  lemma SameOneResult<V>(lay: Layout, mem: Memory<V>, points: Points<V>, ins: Inst<V>)
    requires Shaped(lay, mem) && Present(mem.Keys, ins) && Matches(lay, mem, points)
    ensures OneResult(lay, mem, ins) <==> Settles(lay, points, ins)
  {
    assert PointOf(lay, mem, 0, 0) == points(0, 0);
    forall b: nat, l: nat | b < lay.blocksN && l < lay.lanes
      ensures SameResult(points(b, l), points(0, 0), ins) <==>
                ins.f(Args(PointOf(lay, mem, b, l), ins.srcs)) == ins.f(Args(PointOf(lay, mem, 0, 0), ins.srcs))
    {
      assert PointOf(lay, mem, b, l) == points(b, l);
    }
  }

  /** Uniform symbols have one value over the points. */
  ghost predicate Agree<V>(lay: Layout, syms: set<Sym>, points: Points<V>) {
    forall b: nat, l: nat :: b < lay.blocksN && l < lay.lanes ==> AgreeAt(lay, syms, points, b, l)
  }

  ghost predicate AgreeAt<V>(lay: Layout, syms: set<Sym>, points: Points<V>, b: nat, l: nat) {
    && points(b, l).Keys == points(0, 0).Keys == syms
    && forall s :: s in syms && s !in lay.varying ==> points(b, l)[s] == points(0, 0)[s]
  }

  lemma UniformAgrees<V>(lay: Layout, mem: Memory<V>)
    requires Shaped(lay, mem) && Splat(lay, mem)
    ensures Agree(lay, mem.Keys, PointsOf(lay, mem))
  {
    var points := PointsOf(lay, mem);
    forall b: nat, l: nat | b < lay.blocksN && l < lay.lanes
      ensures AgreeAt(lay, mem.Keys, points, b, l)
    {
      forall s | s in mem && s !in lay.varying
        ensures points(b, l)[s] == points(0, 0)[s]
      {
        assert SplatAt(lay, mem, s, l);
      }
    }
  }

  /** Programs whose uniform destinations have uniform sources settle. */
  lemma {:induction false} WellFormedSettles<V>(lay: Layout, syms: set<Sym>, points: Points<V>, prog: seq<Inst<V>>)
    requires Agree(lay, syms, points) && forall k :: 0 <= k < |prog| ==> WellFormed(lay, syms, prog[k])
    ensures OneResults(lay, points, prog)
  {
    if prog != [] {
      var ins, next := prog[0], StepAll(points, prog[0]);
      if ins.dest !in lay.varying {
        forall b: nat, l: nat | b < lay.blocksN && l < lay.lanes
          ensures SameResult(points(b, l), points(0, 0), ins)
        {
          SameArgs(lay, syms, points, ins, b, l);
        }
      }
      forall b: nat, l: nat | b < lay.blocksN && l < lay.lanes
        ensures AgreeAt(lay, syms, next, b, l)
      {
        SameArgs(lay, syms, points, ins, b, l);
      }
      WellFormedSettles(lay, syms, next, prog[1..]);
    }
  }

  lemma SameArgs<V>(lay: Layout, syms: set<Sym>, points: Points<V>, ins: Inst<V>, b: nat, l: nat)
    requires Agree(lay, syms, points) && WellFormed(lay, syms, ins) && b < lay.blocksN && l < lay.lanes
    ensures AgreeAt(lay, syms, points, b, l)
    ensures ins.dest !in lay.varying ==> Args(points(b, l), ins.srcs) == Args(points(0, 0), ins.srcs)
  {
    assert AgreeAt(lay, syms, points, b, l);
  }
}
