/** The hider's list of primitives from insertion to the end of a world. */
module Worklist {
  import opened Common
  import opened Pieces
  import opened Ownership

  /** The patches that a complex primitive turns into, once inserted. */
  function Parts(p: Prim): seq<Prim> {
    if p.kind.Complex?
    then seq(|p.kind.parts|, k requires 0 <= k < |p.kind.parts| =>
             NewSimple(p.key.(geom := p.kind.parts[k])).(refCnt := 1))
    else []
  }

  /** Every patch is new and simple, with the unit square before it. */
  lemma PartsAreNew(p: Prim)
    ensures forall k :: 0 <= k < |Parts(p)| ==>
              var q := Parts(p)[k]; q.kind == Simple && q.splitCnt == 0 && q.refCnt == 1 && q.grid == None
  {
  }

  /**
   * The patches cover, for each geometry that the primitive names and as often as it does, the unit square with the
   * primitive's own states, and nothing else.
   */
  lemma {:induction false} PartsCover(p: Prim, key: Key, u: real, v: real)
    requires p.kind.Complex?
    ensures SumOf(Parts(p), CoverAt(key, u, v))
         == if 0.0 <= u < 1.0 && 0.0 <= v < 1.0 && key.attribs == p.key.attribs && key.transform == p.key.transform
            then multiset(p.kind.parts)[key.geom] else 0
    decreases |p.kind.parts|
  {
    var geoms := p.kind.parts;
    if geoms != [] {
      var rest := p.(kind := Complex(geoms[1..]));
      PartsCover(rest, key, u, v);
      assert Parts(p)[1..] == Parts(rest);
      assert geoms == [geoms[0]] + geoms[1..];
    }
  }

  /** A bucket after a diced primitive has been offered to it. */
  ghost function Offered(b: Bucket, id: int, bound: Bound): Bucket {
    if b.Intersects(bound) then b.(prims := b.prims + [Some(id)]) else b
  }

  /** The bucket lists after a diced primitive has been given to those it intersects. */
  ghost function Sent(bs: seq<Bucket>, id: int, bound: Bound): (cs: seq<Bucket>)
    ensures |cs| == |bs|
  {
    seq(|bs|, b requires 0 <= b < |bs| => Offered(bs[b], id, bound))
  }

  ghost function SentAll(bs: seq<Bucket>, log: seq<Visit>): (cs: seq<Bucket>)
    ensures |cs| == |bs|
  {
    if log == [] then bs
    else
      var last, rest := log[|log| - 1], SentAll(bs, log[..|log| - 1]);
      if last.ans.Dice? then Sent(rest, last.id, last.ans.bound) else rest
  }

  /** The diced primitives whose bound intersects the bucket, in order. */
  ghost function Selected(log: seq<Visit>, b: Bucket): List {
    if log == [] then []
    else
      var last := log[|log| - 1];
      Selected(log[..|log| - 1], b) + if last.ans.Dice? && b.Intersects(last.ans.bound) then [Some(last.id)] else []
  }

  /** Each bucket receives exactly the diced primitives that intersect it, once each. */
  lemma {:induction false} SentAllAt(bs: seq<Bucket>, log: seq<Visit>, b: nat)
    requires b < |bs|
    ensures SentAll(bs, log)[b] == bs[b].(prims := bs[b].prims + Selected(log, bs[b]))
  {
    if log == [] {
      assert bs[b].prims + [] == bs[b].prims;
    } else {
      SentAllAt(bs, log[..|log| - 1], b);
    }
  }

  /** The primitive is live and is as it was when it was diced. */
  ghost predicate Kept(store: Store, visit: Visit) {
    visit.id in store && visit.ans.Dice? ==>
      store[visit.id] == visit.p.(grid := Some((visit.ans.wd, visit.ans.he)), refCnt := store[visit.id].refCnt)
  }

  // ---------- what is left of the list ----------

  ghost function Left(store: Store, l: List, i: nat, f: Prim -> nat): nat
    requires Listed(store, l) && i <= |l|
  {
    Total(store, l[i..], f)
  }

  ghost predicate Ready(p: Prim) { p.kind == Simple && p.grid == None }

  /** The casts to simple primitives are right from entry i on, and nothing there has been diced. */
  ghost predicate AllReady(store: Store, l: List, i: nat)
    requires Listed(store, l)
  {
    forall k :: i <= k < |l| && l[k].Some? ==> Ready(store[l[k].value])
  }

  /** What has been settled and what is left cover what the list covered at first. */
  ghost predicate Tiles(log: seq<Visit>, store: Store, l: List, i: nat, store0: Store, l0: List)
    requires Listed(store, l) && i <= |l| && Listed(store0, l0)
  {
    forall key, u, v :: SumOf(Finals(log), CoverAt(key, u, v)) + Left(store, l, i, CoverAt(key, u, v))
      == Left(store0, l0, 0, CoverAt(key, u, v))
  }

  /** The primitives of a key visited so far, and those that what is left can still lead to, fit the first budget. */
  ghost predicate Fits(log: seq<Visit>, store: Store, l: List, i: nat, store0: Store, l0: List)
    requires Listed(store, l) && i <= |l| && Listed(store0, l0)
  {
    forall key :: SumOf(Visited(log), One(key)) + Left(store, l, i, BudgetOf(key)) <= Left(store0, l0, 0, BudgetOf(key))
  }

  lemma LeftStep(store: Store, next: int, l: List, i: nat, ps: seq<Prim>, store': Store, l': List, f: Prim -> nat)
    requires Listed(store, l) && Distinct(l, next) && i < |l| && l[i].Some? && Taken(store, next, l, i, ps, store', l')
             && Listed(store', l')
    ensures i < |l'| && Left(store', l', i + 1, f) + f(store[l[i].value]) == Left(store, l, i, f) + SumOf(ps, f)
  {
    TotalFrom(store, l, i, f);
    TakenTotal(store, next, l, i, ps, store', l', f);
  }

  lemma TilesStep(log: seq<Visit>, visit: Visit, store: Store, next: int, l: List, i: nat, store': Store, l': List,
                  store0: Store, l0: List)
    requires Listed(store, l) && Distinct(l, next) && i < |l| && Listed(store', l') && Listed(store0, l0) && l[i].Some?
             && visit.p == store[l[i].value]
    requires Taken(store, next, l, i, Made(visit.p, visit.ans), store', l')
    requires Tiles(log, store, l, i, store0, l0)
    ensures i < |l'| && Tiles(log + [visit], store', l', i + 1, store0, l0)
  {
    forall key, u, v
      ensures SumOf(Finals(log + [visit]), CoverAt(key, u, v)) + Left(store', l', i + 1, CoverAt(key, u, v))
              == Left(store0, l0, 0, CoverAt(key, u, v))
    {
      LeftStep(store, next, l, i, Made(visit.p, visit.ans), store', l', CoverAt(key, u, v));
      CoverStep(log, visit, 0, key, u, v);
    }
  }

  lemma FitsStep(log: seq<Visit>, visit: Visit, store: Store, next: int, l: List, i: nat, store': Store, l': List,
                 store0: Store, l0: List)
    requires Listed(store, l) && Distinct(l, next) && i < |l| && Listed(store', l') && Listed(store0, l0) && l[i].Some?
             && visit.p == store[l[i].value]
    requires Taken(store, next, l, i, Made(visit.p, visit.ans), store', l')
    requires Fits(log, store, l, i, store0, l0)
    ensures i < |l'| && Fits(log + [visit], store', l', i + 1, store0, l0)
    ensures Left(store', l', i + 1, AnyBudget()) < Left(store, l, i, AnyBudget())
  {
    forall key
      ensures SumOf(Visited(log + [visit]), One(key)) + Left(store', l', i + 1, BudgetOf(key))
              <= Left(store0, l0, 0, BudgetOf(key))
    {
      LeftStep(store, next, l, i, Made(visit.p, visit.ans), store', l', BudgetOf(key));
      BudgetStep(log, visit, 0, key);
    }
    LeftStep(store, next, l, i, Made(visit.p, visit.ans), store', l', AnyBudget());
    PiecesFitBudget(visit.p, visit.ans, visit.p.key);
  }

  lemma ReadyStep(store: Store, next: int, l: List, i: nat, p: Prim, ans: Answer, store': Store, l': List)
    requires Listed(store, l) && Distinct(l, next) && i < |l| && l[i].Some? && Listed(store', l') && Ready(p)
    requires Taken(store, next, l, i, Made(p, ans), store', l') && AllReady(store, l, i)
    ensures AllReady(store', l', i + 1)
  {
    var ps := Made(p, ans);
    forall k | i + 1 <= k < |l'| && l'[k].Some?
      ensures Ready(store'[l'[k].value])
    {
      if k < |l| {
        assert Apart(l, i, k);
        assert l'[k] == l[k];
      } else {
        PiecesKeep(p, ans, k - |l|);
        assert l'[k] == Fresh(next, |ps|)[k - |l|];
      }
    }
  }

  lemma SkipStep(log: seq<Visit>, store: Store, l: List, i: nat, store0: Store, l0: List)
    requires Listed(store, l) && i < |l| && l[i] == None && Listed(store0, l0)
    requires Tiles(log, store, l, i, store0, l0) && Fits(log, store, l, i, store0, l0)
    ensures Tiles(log, store, l, i + 1, store0, l0) && Fits(log, store, l, i + 1, store0, l0)
    ensures Left(store, l, i + 1, AnyBudget()) == Left(store, l, i, AnyBudget())
  {
    forall f: Prim -> nat
      ensures Left(store, l, i + 1, f) == Left(store, l, i, f)
    {
      TotalFrom(store, l, i, f);
    }
  }

  class Hider {
    var store: Store
    var next: int
    var prims: List
    var buckets: seq<Bucket>
    ghost var freed: multiset<int>

    ghost predicate Holding()
      reads this
    {
      Sound(store, next, freed, Refs(prims, buckets))
    }

    ghost predicate Valid()
      reads this
    {
      Holding() && Listed(store, prims) && Distinct(prims, next)
    }

    constructor (buckets: seq<Bucket>)
      requires forall b :: 0 <= b < |buckets| ==> buckets[b].prims == []
      ensures Valid() && store == map[] && prims == [] && next == 0 && this.buckets == buckets
    {
      store, next, prims, this.buckets, freed := map[], 0, [], buckets, multiset{};
      new;
      NothingHeld([], buckets);
      assert forall id: int :: SoundAt(store, next, freed, Refs(prims, this.buckets), id);
      assert forall j: nat, k: nat :: Apart(prims, j, k);
    }

    // ---------- references ----------

    method New(p: Prim) returns (id: int)
      modifies this`store, this`next
      ensures id == old(next) && next == old(next) + 1 && store == old(store)[id := p.(refCnt := 0)]
    {
      id := next;
      store, next := store[id := p.(refCnt := 0)], next + 1;
    }

    method Borrow(id: int)
      requires id in store
      modifies this`store
      ensures store == old(store)[id := old(store[id]).(refCnt := old(store[id]).refCnt + 1)]
    {
      store := store[id := store[id].(refCnt := store[id].refCnt + 1)];
    }

    method Release(id: int)
      requires id in store && store[id].refCnt >= 1
      modifies this`store, this`freed
      ensures store == Released(old(store), id) && freed == FreedBy(old(store), old(freed), id)
    {
      var cnt := store[id].refCnt - 1;
      if cnt == 0 {
        store := store - {id};
        freed := freed + multiset{id};
      } else {
        store := store[id := store[id].(refCnt := cnt)];
      }
    }

    // ---------- insertion ----------

    /** A primitive that has just been made joins the list. */
    method Insert(p: Prim)
      requires Valid()
      modifies this
      ensures Valid() && next == old(next) + 1 && buckets == old(buckets)
      ensures prims == old(prims) + [Some(old(next))] && store == old(store)[old(next) := p.(refCnt := 1)]
    {
      var id := New(p);
      Borrow(id);
      Overwritten(old(store), id, p.(refCnt := 0), p.(refCnt := 1));
      prims := prims + [Some(id)];
      InsertedHolds(old(store), old(next), freed, old(prims), buckets, p.(refCnt := 1), store, next, prims);
    }

    method InsertSimple(id: int, src: int)
      requires id in store && src in store && id != src
      modifies this`store, this`prims
      ensures prims == old(prims) + [Some(id)]
      ensures var p, q := old(store[id]), old(store[src]);
              store == old(store)[id := p.(key := q.key.(geom := p.key.geom), refCnt := p.refCnt + 1)]
    {
      var q := store[src];
      store := store[id := store[id].(key := store[id].key.(attribs := q.key.attribs, transform := q.key.transform))];
      Borrow(id);
      prims := prims + [Some(id)];
    }

    method InsertSplitted(id: int, src: int)
      requires id in store && src in store && id != src
      modifies this`store, this`prims
      ensures prims == old(prims) + [Some(id)]
      ensures var p, q := old(store[id]), old(store[src]);
              store == old(store)[id := p.(key := q.key.(geom := p.key.geom), splitCnt := p.splitCnt + 1,
                                           refCnt := p.refCnt + 1)]
    {
      var q := store[src];
      store := store[id := store[id].(key := store[id].key.(attribs := q.key.attribs, transform := q.key.transform))];
      store := store[id := store[id].(splitCnt := store[id].splitCnt + 1)];
      Borrow(id);
      prims := prims + [Some(id)];
    }

    // ---------- splitting ----------

    /** Two copies that halve the u range. */
    method HalveU(id: int) returns (a: int, b: int)
      requires id in store && id < next
      modifies this`store, this`next, this`prims
      ensures a == old(next) && b == a + 1 && next == b + 1 && prims == old(prims) + [Some(a)] + [Some(b)]
      ensures var p := old(store[id]);
              store == old(store)[a := Piece(p, Range(p.u.lo, p.u.Mid()), p.v, p.splitCnt + 1)]
                                 [b := Piece(p, Range(p.u.Mid(), p.u.hi), p.v, p.splitCnt + 1)]
    {
      var p := store[id];
      a := New(p);
      b := New(p);
      var uMid := (p.u.lo + p.u.hi) * 0.5;
      store := store[a := store[a].(u := Range(store[a].u.lo, uMid))];
      store := store[b := store[b].(u := Range(uMid, store[b].u.hi))];
      InsertSplitted(a, id);
      InsertSplitted(b, id);
    }

    /** Two copies that halve the v range. */
    method HalveV(id: int)
      requires id in store && id < next
      modifies this`store, this`next, this`prims
      ensures next == old(next) + 2 && prims == old(prims) + [Some(old(next))] + [Some(old(next) + 1)]
      ensures var p := old(store[id]);
              store == old(store)[old(next) := Piece(p, p.u, Range(p.v.lo, p.v.Mid()), p.splitCnt + 1)]
                                 [old(next) + 1 := Piece(p, p.u, Range(p.v.Mid(), p.v.hi), p.splitCnt + 1)]
    {
      var p := store[id];
      var a := New(p);
      var b := New(p);
      var vMid := (p.v.lo + p.v.hi) * 0.5;
      store := store[a := store[a].(v := Range(store[a].v.lo, vMid))];
      store := store[b := store[b].(v := Range(vMid, store[b].v.hi))];
      InsertSplitted(a, id);
      InsertSplitted(b, id);
    }

    /** The pieces are edited after they have joined the list; what counts is how they end up. */
    method SplitPrim(id: int, uSplit: bool, vSplit: bool)
      requires id in store && id < next
      modifies this`store, this`next, this`prims
      ensures var ps := PiecesOf(old(store[id]), uSplit, vSplit);
              && next == old(next) + |ps|
              && prims == old(prims) + Fresh(old(next), |ps|)
              && Grown(old(store), old(next), ps, store)
    {
      ghost var store0, ps := store, PiecesOf(store[id], uSplit, vSplit);
      var p := store[id];
      if p.splitCnt > 9 {
        return;
      }
      if uSplit {
        var a, b := HalveU(id);
        if vSplit {
          var vMid := (p.v.lo + p.v.hi) * 0.5;
          SplitInserted(a, vMid);
          SplitInserted(b, vMid);
          assert Grown(store0, old(next), ps, store);
        } else {
          assert Grown(store0, old(next), ps, store);
        }
      } else if vSplit {
        HalveV(id);
        assert Grown(store0, old(next), ps, store);
      }
    }

    /** Cuts a piece that is already in the list: it keeps the first half, a new piece takes the second. */
    method SplitInserted(id: int, vMid: real)
      requires id in store && store[id].refCnt == 1 && id < next
      modifies this`store, this`next, this`prims
      ensures var p := old(store[id]);
              && next == old(next) + 1 && prims == old(prims) + [Some(old(next))]
              && store == old(store)[id := p.(v := Range(p.v.lo, vMid))]
                                    [old(next) := p.(v := Range(vMid, p.v.hi), splitCnt := p.splitCnt + 1)]
    {
      if store[id].refCnt != 0 {
        var c := New(store[id]);
        store := store[id := store[id].(v := Range(store[id].v.lo, vMid))];
        store := store[c := store[c].(v := Range(vMid, store[c].v.hi))];
        InsertSplitted(c, id);
      }
    }

    // ---------- one entry of the list ----------

    method Offer(b: nat, id: int, bound: Bound)
      requires Holding() && id in store && b < |buckets|
      modifies this`store, this`buckets
      ensures Holding() && buckets == old(buckets)[b := Offered(old(buckets[b]), id, bound)]
      ensures id in store && store == old(store)[id := old(store[id]).(refCnt := store[id].refCnt)]
    {
      if buckets[b].Intersects(bound) {
        BorrowedSound(store, next, freed, Refs(prims, buckets), id);
        RefsGiven(prims, buckets, b, Some(id));
        Borrow(id);
        buckets := buckets[b := buckets[b].(prims := buckets[b].prims + [Some(id)])];
      }
    }

    method InsertForDicing(id: int, bound: Bound)
      requires Holding() && id in store
      modifies this`store, this`buckets
      ensures Holding() && buckets == Sent(old(buckets), id, bound)
      ensures id in store && store == old(store)[id := old(store[id]).(refCnt := store[id].refCnt)]
    {
      ghost var buckets0, store0 := buckets, store;
      for i := 0 to |buckets|
        invariant Holding() && PartSent(buckets0, id, bound, i, buckets)
        invariant id in store && store == store0[id := store0[id].(refCnt := store[id].refCnt)]
      {
        ghost var store1, buckets1 := store, buckets;
        Offer(i, id, bound);
        PartSentNext(buckets0, id, bound, i, buckets1);
        Overwritten(store0, id, store1[id], store[id]);
      }
    }

    /** The list lets go of entry i. */
    method ReleaseEntry(i: nat)
      requires Holding() && i < |prims| && prims[i].Some?
      modifies this`store, this`freed, this`prims
      ensures Holding() && prims == old(prims)[i := None]
      ensures var id := old(prims[i]).value;
              && id in old(store) && old(store)[id].refCnt >= 1
              && store == Released(old(store), id)
    {
      var id := prims[i].value;
      RefsCleared(prims, buckets, i);
      HeldIsLive(store, next, freed, Refs(prims, buckets), id);
      ReleasedSound(store, next, freed, Refs(prims, buckets), id, Refs(prims[i := None], buckets));
      Release(id);
      prims := prims[i := None];
    }

    method HandleDice(id: int, bound: Bound, wd: int, he: int)
      requires Holding() && id in store
      modifies this`store, this`buckets
      ensures Holding() && buckets == Sent(old(buckets), id, bound)
      ensures id in store
      ensures store == old(store)[id := old(store[id]).(grid := Some((wd, he)), refCnt := store[id].refCnt)]
    {
      EditedSound(store, next, freed, Refs(prims, buckets), id, store[id].(grid := Some((wd, he))));
      store := store[id := store[id].(grid := Some((wd, he)))];
      InsertForDicing(id, bound);
    }

    method HandleSplit(id: int, uSplit: bool, vSplit: bool)
      requires Holding() && id in store && id < next
      modifies this`store, this`next, this`prims
      ensures Holding()
      ensures var ps := PiecesOf(old(store)[id], uSplit, vSplit);
              Prepared(old(store), old(next), old(prims), id, ps, store, prims) && id in store
                && next == old(next) + |ps|
    {
      ghost var store0, next0, prims0, ps := store, next, prims, PiecesOf(store[id], uSplit, vSplit);
      SplitPrim(id, uSplit, vSplit);
      PiecesHeldOnce(store0[id], Split(uSplit, vSplit));
      GrownPrepared(store0, next0, freed, prims0, buckets, id, ps, store, next, prims);
    }

    /** What is done with a primitive before the list lets go of it. */
    method Prepare(id: int, ans: Answer)
      requires Holding() && id in store && id < next
      modifies this`store, this`next, this`prims, this`buckets
      ensures Holding() && id in store
      ensures var p := old(store)[id];
              && Prepared(old(store), old(next), old(prims), id, Made(p, ans), store, prims)
              && next == old(next) + |Made(p, ans)|
              && buckets == (if ans.Dice? then Sent(old(buckets), id, ans.bound) else old(buckets))
              && Kept(store, Visit(id, p, ans))
    {
      ghost var store0, next0, prims0 := store, next, prims;
      match ans {
        case Dice(bound, wd, he) =>
          HandleDice(id, bound, wd, he);
          assert prims0 + Fresh(next0, 0) == prims0;
        case Split(uSplit, vSplit) =>
          HandleSplit(id, uSplit, vSplit);
        case Cull =>
          assert prims0 + Fresh(next0, 0) == prims0;
      }
    }

    /** One turn of the split loop. */
    method Handle(i: nat, ans: Answer)
      requires Valid() && i < |prims| && prims[i].Some? && Ready(store[prims[i].value])
      modifies this
      ensures Valid()
      ensures var id := old(prims[i]).value; var p := old(store)[id];
              && Taken(old(store), old(next), old(prims), i, Made(p, ans), store, prims)
              && next == old(next) + |Made(p, ans)|
              && buckets == (if ans.Dice? then Sent(old(buckets), id, ans.bound) else old(buckets))
              && Kept(store, Visit(id, p, ans))
    {
      var id := prims[i].value;
      ghost var store0, next0, prims0, ps := store, next, prims, Made(store[id], ans);
      Prepare(id, ans);
      ghost var store1, prims1 := store, prims;
      ReleaseEntry(i);
      PreparedTaken(store0, next0, prims0, i, ps, store1, prims1);
      TakenListed(store0, next0, prims0, i, ps, store, prims);
      TakenDistinct(store0, next0, prims0, i, ps, store, prims);
    }

    // ---------- the end of a world ----------

    /** One turn of the split loop: entry i is asked about and handled. */
    method Turn(i: nat, check: (int, Prim) -> Answer, ghost log: seq<Visit>, ghost store0: Store, ghost l0: List,
                ghost bs0: seq<Bucket>)
      returns (ghost log': seq<Visit>)
      requires Valid() && Listed(store0, l0) && i < |prims|
      requires Progress(log, store, next, prims, i, buckets, store0, l0, bs0, check)
      modifies this
      ensures Valid() && Progress(log', store, next, prims, i + 1, buckets, store0, l0, bs0, check)
      ensures Left(store, prims, i + 1, AnyBudget()) < old(Left(store, prims, i, AnyBudget()))
              || (prims == old(prims) && store == old(store))
      ensures Left(store, prims, i + 1, AnyBudget()) <= old(Left(store, prims, i, AnyBudget()))
    {
      log' := log;
      if prims[i].None? {
        SkipStep(log, store, prims, i, store0, l0);
        FollowedSkip(log, store, prims, i);
      } else {
        var id := prims[i].value;
        var ans := check(id, store[id]);
        ghost var visit, store1, next1, prims1, buckets1 := Visit(id, store[id], ans), store, next, prims, buckets;
        Handle(i, ans);
        ProgressStep(log, visit, store1, next1, prims1, i, buckets1, store, next, prims, buckets, store0, l0, bs0,
                     check);
        log' := log + [visit];
      }
    }

    /**
     * The split loop over the growing list. It ends for every way of answering, and what it has diced, culled
     * and dropped covers exactly what the list covered.
     */
    method SplitAndAddToBuckets(check: (int, Prim) -> Answer) returns (ghost log: seq<Visit>)
      requires Valid() && AllReady(store, prims, 0)
      modifies this
      ensures Valid() && prims == []
      ensures Tiles(log, store, prims, 0, old(store), old(prims))
      ensures Fits(log, store, prims, 0, old(store), old(prims))
      ensures buckets == SentAll(old(buckets), log)
      ensures Answered(log, check) && SplitsVisited(log)
      ensures forall k :: 0 <= k < |log| ==> Kept(store, log[k])
    {
      ghost var store0, prims0, buckets0 := store, prims, buckets;
      log := [];
      var i := 0;
      StartTiles(store, prims);
      while i < |prims|
        invariant 0 <= i <= |prims| && Valid()
        invariant Progress(log, store, next, prims, i, buckets, store0, prims0, buckets0, check)
        decreases Left(store, prims, i, AnyBudget()), |prims| - i
      {
        log := Turn(i, check, log, store0, prims0, buckets0);
        i := i + 1;
      }
      EndTiles(log, store, prims, store0, prims0);
      FollowedToEnd(log, store, prims);
      ClearedSound(store, next, freed, prims, buckets);
      prims := [];
    }

    /** A complex primitive inserts its patches, which take over its states. */
    method SimplifyPrim(id: int)
      requires id in store && id < next
      modifies this`store, this`next, this`prims
      ensures var ps := Parts(old(store[id]));
              && next == old(next) + |ps|
              && prims == old(prims) + Fresh(old(next), |ps|)
              && Grown(old(store), old(next), ps, store)
    {
      var p := store[id];
      if p.kind.Complex? {
        ghost var ps := Parts(p);
        for j := 0 to |p.kind.parts|
          invariant next == old(next) + j && prims == old(prims) + Fresh(old(next), j)
          invariant Grown(old(store), old(next), ps[..j], store) && id in store && store[id] == p
        {
          ghost var store1 := store;
          var part := New(NewSimple(Key(p.kind.parts[j], 0, 0)));
          InsertSimple(part, id);
          assert store == store1[part := ps[j]];
          GrownNext(old(store), old(next), ps, j, store1);
          assert Fresh(old(next), j) + [Some(part)] == Fresh(old(next), j + 1);
        }
        assert ps[..|ps|] == ps;
      }
    }

    /** One complex primitive is replaced by its patches. */
    method SimplifyEntry(i: nat)
      requires Valid() && i < |prims| && prims[i].Some?
      modifies this
      ensures Valid() && buckets == old(buckets)
      ensures var p := old(store)[old(prims[i]).value];
              Taken(old(store), old(next), old(prims), i, Parts(p), store, prims) && next == old(next) + |Parts(p)|
    {
      var id := prims[i].value;
      ghost var store0, next0, prims0, ps := store, next, prims, Parts(store[id]);
      SimplifyPrim(id);
      GrownPrepared(store0, next0, freed, prims0, buckets, id, ps, store, next, prims);
      ghost var store1, prims1 := store, prims;
      ReleaseEntry(i);
      PreparedTaken(store0, next0, prims0, i, ps, store1, prims1);
      TakenListed(store0, next0, prims0, i, ps, store, prims);
      TakenDistinct(store0, next0, prims0, i, ps, store, prims);
    }

    /** Afterwards the list holds simple primitives only: the simple ones and the patches of the complex ones. */
    method Simplify()
      requires Valid() && Unhandled(store, prims, 0)
      modifies this
      ensures Valid() && AllReady(store, prims, 0) && buckets == old(buckets)
      ensures SameTotals(store, prims, |prims|, old(store), old(prims))
    {
      ghost var store0, prims0 := store, prims;
      StartTotals(store, prims);
      var i := 0;
      while i < |prims|
        invariant 0 <= i <= |prims| && Valid() && Unhandled(store, prims, i) && SimpleBefore(store, prims, i)
                  && buckets == old(buckets)
        invariant SameTotals(store, prims, i, store0, prims0)
        decreases Left(store, prims, i, ComplexOnes()), |prims| - i
      {
        var id := prims[i].value;
        ghost var store1, next1, prims1 := store, next, prims;
        if store[id].kind.Complex? {
          SimplifyEntry(i);
          ComplexStep(store1, next1, prims1, i, store, prims, store0, prims0);
        } else {
          SimpleStep(store, prims, i, store0, prims0);
        }
        i := i + 1;
      }
    }

    method ReleaseBucketEntry(b: nat, i: nat)
      requires Holding() && b < |buckets| && i < |buckets[b].prims| && buckets[b].prims[i].Some?
      modifies this`store, this`freed, this`buckets
      ensures Holding() && buckets == old(buckets)[b := old(buckets[b]).(prims := old(buckets[b]).prims[i := None])]
    {
      var id := buckets[b].prims[i].value;
      ghost var list := buckets[b].prims[i := None];
      RefsClearedInBucket(prims, buckets, b, i);
      HeldIsLive(store, next, freed, Refs(prims, buckets), id);
      ReleasedSound(store, next, freed, Refs(prims, buckets), id,
                    Refs(prims, buckets[b := buckets[b].(prims := list)]));
      Release(id);
      buckets := buckets[b := buckets[b].(prims := buckets[b].prims[i := None])];
    }

    /** Lets go of everything that one bucket holds. */
    method ReleaseBucket(b: nat)
      requires Holding() && b < |buckets|
      modifies this`store, this`freed, this`buckets
      ensures Holding() && |buckets| == |old(buckets)| && Passed(buckets[b].prims, |buckets[b].prims|)
      ensures forall c :: 0 <= c < |buckets| && c != b ==> buckets[c] == old(buckets)[c]
    {
      for i := 0 to |buckets[b].prims|
        invariant Holding() && |buckets| == |old(buckets)| && |buckets[b].prims| == |old(buckets)[b].prims|
        invariant Passed(buckets[b].prims, i)
        invariant forall c :: 0 <= c < |buckets| && c != b ==> buckets[c] == old(buckets)[c]
      {
        if buckets[b].prims[i].Some? {
          ReleaseBucketEntry(b, i);
        }
      }
    }

    /** The release loops of the end of the world; after them no primitive is live. */
    method ReleaseBuckets()
      requires Valid() && prims == []
      modifies this`store, this`freed, this`buckets
      ensures Valid() && |buckets| == |old(buckets)|
      ensures forall b :: 0 <= b < |buckets| ==> Passed(buckets[b].prims, |buckets[b].prims|)
      ensures store == map[] && forall id :: freed[id] == if 0 <= id < next then 1 else 0
    {
      for b := 0 to |buckets|
        invariant Holding() && |buckets| == |old(buckets)|
        invariant forall c :: 0 <= c < b ==> Passed(buckets[c].prims, |buckets[c].prims|)
      {
        ReleaseBucket(b);
      }
      NothingHeld(prims, buckets);
      NothingLives(store, next, freed, Refs(prims, buckets));
    }

    /** Buckets are deleted, here or with the hider itself; they release what they still hold. */
    method DeleteBuckets()
      requires Valid() && prims == []
      modifies this`store, this`freed, this`buckets
      ensures Valid() && buckets == []
      ensures store == map[] && forall id :: freed[id] == if 0 <= id < next then 1 else 0
    {
      ReleaseBuckets();
      NothingHeld(prims, []);
      buckets := [];
      forall id: int
        ensures SoundAt(store, next, freed, Refs(prims, buckets), id)
      {
      }
    }

    /**
     * The end of a world, for every list and every way of answering: each primitive ever made, by the
     * application, by simplification or by splitting, has been deleted exactly once and none is live; and what
     * was settled covers, for each geometry and states and each (u, v), what was inserted.
     */
    method WorldEnd(check: (int, Prim) -> Answer) returns (ghost log: seq<Visit>)
      requires Valid() && Unhandled(store, prims, 0)
      modifies this
      ensures Valid() && prims == [] && buckets == [] && store == map[]
      ensures forall id :: freed[id] == if 0 <= id < next then 1 else 0
      ensures forall key, u, v ::
                SumOf(Finals(log), CoverAt(key, u, v))
                == Left(old(store), old(prims), 0, Simplified(CoverAt(key, u, v)))
      ensures Answered(log, check) && SplitsVisited(log)
    {
      ghost var store0, prims0 := store, prims;
      Simplify();
      ghost var store1, prims1 := store, prims;
      log := SplitAndAddToBuckets(check);
      RunTiles(log, store, prims, store1, prims1, store0, prims0);
      ReleaseBuckets();
      DeleteBuckets();
    }
  }

  // ---------- simplification ----------

  ghost predicate Unhandled(store: Store, l: List, i: nat)
    requires Listed(store, l)
  {
    forall k :: i <= k < |l| ==> l[k].Some? && store[l[k].value].grid == None
  }

  ghost predicate SimpleBefore(store: Store, l: List, i: nat)
    requires Listed(store, l)
  {
    forall k :: 0 <= k < i && k < |l| && l[k].Some? ==> Ready(store[l[k].value])
  }

  ghost function ComplexOnes(): Prim -> nat {
    (p: Prim) => if p.kind.Complex? then 1 else 0
  }

  /** f with a complex primitive standing for its patches. */
  ghost function Simplified(f: Prim -> nat): Prim -> nat {
    (p: Prim) => if p.kind.Complex? then SumOf(Parts(p), f) else f(p)
  }

  ghost function Before(store: Store, l: List, i: nat, f: Prim -> nat): nat
    requires Listed(store, l) && i <= |l|
  {
    Total(store, l[..i], f)
  }

  ghost predicate SameTotals(store: Store, l: List, i: nat, store0: Store, l0: List)
    requires Listed(store, l) && i <= |l| && Listed(store0, l0)
  {
    forall f: Prim -> nat :: Before(store, l, i, f) + Left(store, l, i, Simplified(f))
      == Left(store0, l0, 0, Simplified(f))
  }

  lemma StartTotals(store: Store, l: List)
    requires Listed(store, l)
    ensures SameTotals(store, l, 0, store, l)
  {
    assert l[..0] == [];
  }

  lemma {:induction false} SumOfParts(ps: seq<Prim>, f: Prim -> nat)
    requires forall k :: 0 <= k < |ps| ==> ps[k].kind == Simple
    ensures SumOf(ps, Simplified(f)) == SumOf(ps, f) && SumOf(ps, ComplexOnes()) == 0
  {
    if ps != [] {
      SumOfParts(ps[1..], f);
    }
  }

  lemma ComplexStep(store: Store, next: int, l: List, i: nat, store': Store, l': List, store0: Store, l0: List)
    requires Listed(store, l) && Distinct(l, next) && Listed(store', l') && Listed(store0, l0)
    requires i < |l| && l[i].Some? && store[l[i].value].kind.Complex? && Unhandled(store, l, i)
             && SimpleBefore(store, l, i)
    requires Taken(store, next, l, i, Parts(store[l[i].value]), store', l')
    requires SameTotals(store, l, i, store0, l0)
    ensures i < |l'| && SameTotals(store', l', i + 1, store0, l0)
    ensures Left(store', l', i + 1, ComplexOnes()) < Left(store, l, i, ComplexOnes())
    ensures Unhandled(store', l', i + 1) && SimpleBefore(store', l', i + 1)
  {
    var ps := Parts(store[l[i].value]);
    forall f: Prim -> nat
      ensures Before(store', l', i + 1, f) + Left(store', l', i + 1, Simplified(f))
              == Left(store0, l0, 0, Simplified(f))
    {
      LeftStep(store, next, l, i, ps, store', l', Simplified(f));
      PassedTotal(store, next, l, i, ps, store', l', f);
      SumOfParts(ps, f);
    }
    LeftStep(store, next, l, i, ps, store', l', ComplexOnes());
    SumOfParts(ps, ComplexOnes());
    ComplexFlags(store, next, l, i, store', l');
  }

  lemma ComplexFlags(store: Store, next: int, l: List, i: nat, store': Store, l': List)
    requires Listed(store, l) && Distinct(l, next) && Listed(store', l')
    requires i < |l| && l[i].Some? && Unhandled(store, l, i) && SimpleBefore(store, l, i)
    requires Taken(store, next, l, i, Parts(store[l[i].value]), store', l')
    ensures Unhandled(store', l', i + 1) && SimpleBefore(store', l', i + 1)
  {
    var ps := Parts(store[l[i].value]);
    forall k | 0 <= k < |l'|
      ensures k < |l| && k != i && l[k].Some? ==> l'[k] == l[k] && store'[l'[k].value] == store[l[k].value]
      ensures k >= |l| ==> l'[k] == Some(next + (k - |l|)) && store'[l'[k].value] == ps[k - |l|]
    {
      if k < i {
        assert Apart(l, k, i);
      } else if i < k < |l| {
        assert Apart(l, i, k);
      } else if k >= |l| {
        assert l'[k] == Fresh(next, |ps|)[k - |l|];
      }
    }
  }

  lemma SimpleStep(store: Store, l: List, i: nat, store0: Store, l0: List)
    requires Listed(store, l) && Listed(store0, l0) && i < |l| && l[i].Some? && store[l[i].value].kind == Simple
    requires SameTotals(store, l, i, store0, l0)
    ensures SameTotals(store, l, i + 1, store0, l0)
    ensures Left(store, l, i + 1, ComplexOnes()) == Left(store, l, i, ComplexOnes())
  {
    forall f: Prim -> nat
      ensures Before(store, l, i + 1, f) + Left(store, l, i + 1, Simplified(f)) == Left(store0, l0, 0, Simplified(f))
    {
      TotalFrom(store, l, i, Simplified(f));
      assert l[..i + 1] == l[..i] + [l[i]];
      TotalConcat(store, l[..i], [l[i]], f);
      assert Total(store, [l[i]], f) == f(store[l[i].value]) + Total(store, [], f);
    }
    TotalFrom(store, l, i, ComplexOnes());
  }

  lemma GrownNext(store: Store, next: int, ps: seq<Prim>, j: nat, store': Store)
    requires j < |ps| && Grown(store, next, ps[..j], store')
    ensures Grown(store, next, ps[..j + 1], store'[next + j := ps[j]])
  {
  }

  // ---------- the end ----------

  lemma NothingLives(store: Store, next: int, freed: multiset<int>, refs: multiset<Option<int>>)
    requires Sound(store, next, freed, refs) && forall id: int :: Some(id) !in refs
    ensures store == map[] && forall id :: freed[id] == if 0 <= id < next then 1 else 0
  {
    forall id: int
      ensures id !in store && freed[id] == if 0 <= id < next then 1 else 0
    {
      assert SoundAt(store, next, freed, refs, id);
    }
  }

  lemma RunTiles(log: seq<Visit>, store: Store, l: List, store1: Store, l1: List, store0: Store, l0: List)
    requires Listed(store, l) && Listed(store1, l1) && Listed(store0, l0) && l == []
    requires Tiles(log, store, l, 0, store1, l1) && SameTotals(store1, l1, |l1|, store0, l0)
    ensures forall key, u, v ::
              SumOf(Finals(log), CoverAt(key, u, v)) == Left(store0, l0, 0, Simplified(CoverAt(key, u, v)))
  {
    assert l1[..|l1|] == l1[0..] == l1;
    assert l1[|l1|..] == [];
    forall key, u, v
      ensures SumOf(Finals(log), CoverAt(key, u, v)) == Left(store0, l0, 0, Simplified(CoverAt(key, u, v)))
    {
      var f := CoverAt(key, u, v);
      assert Before(store1, l1, |l1|, f) + Left(store1, l1, |l1|, Simplified(f)) == Left(store0, l0, 0, Simplified(f));
    }
  }

  /** The answers are those given. */
  ghost predicate Answered(log: seq<Visit>, check: (int, Prim) -> Answer) {
    forall k :: 0 <= k < |log| ==> log[k].ans == check(log[k].id, log[k].p)
  }

  // ---------- a split primitive comes back in parts ----------

  /** The visit leaves parts: it was to be split in some direction, after at most nine splits. */
  predicate Divides(visit: Visit) {
    visit.ans.Split? && (visit.ans.uSplit || visit.ans.vSplit) && visit.p.splitCnt <= 9
  }

  ghost predicate PartAt(q: Prim, visit: Visit, secondU: bool, secondV: bool)
    requires visit.ans.Split?
  {
    IsPart(q, visit.p, visit.ans.uSplit, visit.ans.vSplit, secondU, secondV)
  }

  /** A part of visit k is visited later. */
  ghost predicate PartVisited(log: seq<Visit>, k: nat, secondU: bool, secondV: bool)
    requires k < |log| && log[k].ans.Split?
  {
    exists j :: k < j < |log| && PartAt(log[j].p, log[k], secondU, secondV)
  }

  /** A part of the visit is in the list from entry i on. */
  ghost predicate PartPending(visit: Visit, store: Store, l: List, i: nat, secondU: bool, secondV: bool)
    requires visit.ans.Split? && Listed(store, l)
  {
    exists m :: i <= m < |l| && l[m].Some? && PartAt(store[l[m].value], visit, secondU, secondV)
  }

  /** Every split primitive is visited again in all its parts. */
  ghost predicate SplitsVisited(log: seq<Visit>) {
    forall k: nat, secondU: bool, secondV: bool ::
      k < |log| && Divides(log[k]) ==> PartVisited(log, k, secondU, secondV)
  }

  /** So far its parts are visited or pending. */
  ghost predicate SplitsFollowed(log: seq<Visit>, store: Store, l: List, i: nat)
    requires Listed(store, l)
  {
    forall k: nat, secondU: bool, secondV: bool :: k < |log| && Divides(log[k]) ==>
      PartVisited(log, k, secondU, secondV) || PartPending(log[k], store, l, i, secondU, secondV)
  }

  /** What was visited later still is, and what was pending is visited now or still pending. */
  lemma FollowedStays(log: seq<Visit>, visit: Visit, store: Store, next: int, l: List, i: nat, store': Store, l': List,
                      k: nat, secondU: bool, secondV: bool)
    requires Listed(store, l) && Distinct(l, next) && i < |l| && l[i].Some? && Listed(store', l')
    requires visit.p == store[l[i].value] && Taken(store, next, l, i, Made(visit.p, visit.ans), store', l')
    requires k < |log| && log[k].ans.Split?
    requires PartVisited(log, k, secondU, secondV) || PartPending(log[k], store, l, i, secondU, secondV)
    ensures var more := log + [visit];
            PartVisited(more, k, secondU, secondV) || PartPending(more[k], store', l', i + 1, secondU, secondV)
  {
    var more := log + [visit];
    if PartVisited(log, k, secondU, secondV) {
      var j :| k < j < |log| && PartAt(log[j].p, log[k], secondU, secondV);
      assert PartAt(more[j].p, more[k], secondU, secondV);
    } else {
      var m :| i <= m < |l| && l[m].Some? && PartAt(store[l[m].value], log[k], secondU, secondV);
      if m == i {
        assert PartAt(more[|log|].p, more[k], secondU, secondV);
      } else {
        assert Apart(l, i, m);
        assert l'[m] == l[m];
        assert PartAt(store'[l'[m].value], more[k], secondU, secondV);
      }
    }
  }

  /** The parts of the primitive just visited are at the end of the list. */
  lemma PartsPending(visit: Visit, store: Store, next: int, l: List, i: nat, store': Store, l': List,
                     secondU: bool, secondV: bool)
    requires Listed(store, l) && i < |l| && l[i].Some? && Listed(store', l') && Divides(visit)
    requires Taken(store, next, l, i, Made(visit.p, visit.ans), store', l')
    ensures PartPending(visit, store', l', i + 1, secondU, secondV)
  {
    var ps := Made(visit.p, visit.ans);
    var n := PartMade(visit.p, visit.ans.uSplit, visit.ans.vSplit, secondU, secondV);
    assert l'[|l| + n] == Fresh(next, |ps|)[n] == Some(next + n);
    assert PartAt(store'[l'[|l| + n].value], visit, secondU, secondV);
  }

  lemma FollowedStep(log: seq<Visit>, visit: Visit, store: Store, next: int, l: List, i: nat, store': Store, l': List)
    requires Listed(store, l) && Distinct(l, next) && i < |l| && l[i].Some? && Listed(store', l')
    requires visit.p == store[l[i].value] && Taken(store, next, l, i, Made(visit.p, visit.ans), store', l')
    requires SplitsFollowed(log, store, l, i)
    ensures SplitsFollowed(log + [visit], store', l', i + 1)
  {
    var more := log + [visit];
    forall k: nat, secondU: bool, secondV: bool | k < |more| && Divides(more[k])
      ensures PartVisited(more, k, secondU, secondV) || PartPending(more[k], store', l', i + 1, secondU, secondV)
    {
      if k < |log| {
        FollowedStays(log, visit, store, next, l, i, store', l', k, secondU, secondV);
      } else {
        PartsPending(visit, store, next, l, i, store', l', secondU, secondV);
      }
    }
  }

  /** Passing an empty entry. */
  lemma FollowedSkip(log: seq<Visit>, store: Store, l: List, i: nat)
    requires Listed(store, l) && i < |l| && l[i] == None && SplitsFollowed(log, store, l, i)
    ensures SplitsFollowed(log, store, l, i + 1)
  {
    forall k: nat, secondU: bool, secondV: bool | k < |log| && Divides(log[k])
      ensures PartVisited(log, k, secondU, secondV) || PartPending(log[k], store, l, i + 1, secondU, secondV)
    {
      assert PartVisited(log, k, secondU, secondV) || PartPending(log[k], store, l, i, secondU, secondV);
    }
  }

  lemma FollowedToEnd(log: seq<Visit>, store: Store, l: List)
    requires Listed(store, l) && SplitsFollowed(log, store, l, |l|)
    ensures SplitsVisited(log)
  {
    forall k: nat, secondU: bool, secondV: bool | k < |log| && Divides(log[k])
      ensures PartVisited(log, k, secondU, secondV)
    {
    }
  }

  /** Every point of a split primitive is held by one visited later. */
  lemma SplitPointsVisited(log: seq<Visit>, k: nat, key: Key, u: real, v: real)
    requires SplitsVisited(log) && k < |log| && Divides(log[k]) && Holds(log[k].p, key, u, v)
    ensures exists j :: k < j < |log| && Holds(log[j].p, key, u, v)
  {
    var secondU, secondV := PartHolds(log[k].p, log[k].ans.uSplit, log[k].ans.vSplit, key, u, v);
    assert PartVisited(log, k, secondU, secondV);
    var j :| k < j < |log| && PartAt(log[j].p, log[k], secondU, secondV);
    assert Holds(log[j].p, key, u, v);
  }

  /** The state of the split loop before entry i. */
  ghost predicate Progress(log: seq<Visit>, store: Store, next: int, l: List, i: nat, bs: seq<Bucket>, store0: Store,
                           l0: List, bs0: seq<Bucket>, check: (int, Prim) -> Answer)
    requires Listed(store, l) && Listed(store0, l0)
  {
    && i <= |l| && AllReady(store, l, i) && Passed(l, i)
    && Tiles(log, store, l, i, store0, l0) && Fits(log, store, l, i, store0, l0)
    && bs == SentAll(bs0, log) && Answered(log, check) && SplitsFollowed(log, store, l, i)
    && forall k :: 0 <= k < |log| ==> Gone(store, l, next, log[k])
  }

  lemma ProgressStep(log: seq<Visit>, visit: Visit, store: Store, next: int, l: List, i: nat, bs: seq<Bucket>,
                     store': Store, next': int, l': List, bs': seq<Bucket>,
                     store0: Store, l0: List, bs0: seq<Bucket>, check: (int, Prim) -> Answer)
    requires Listed(store, l) && Distinct(l, next) && Listed(store', l') && Listed(store0, l0) && next <= next'
    requires i < |l| && l[i] == Some(visit.id) && visit.p == store[visit.id] && visit.ans == check(visit.id, visit.p)
    requires Taken(store, next, l, i, Made(visit.p, visit.ans), store', l') && Kept(store', visit)
    requires bs' == (if visit.ans.Dice? then Sent(bs, visit.id, visit.ans.bound) else bs)
    requires Progress(log, store, next, l, i, bs, store0, l0, bs0, check)
    ensures Progress(log + [visit], store', next', l', i + 1, bs', store0, l0, bs0, check)
    ensures Left(store', l', i + 1, AnyBudget()) < Left(store, l, i, AnyBudget())
  {
    TilesStep(log, visit, store, next, l, i, store', l', store0, l0);
    FitsStep(log, visit, store, next, l, i, store', l', store0, l0);
    ReadyStep(store, next, l, i, visit.p, visit.ans, store', l');
    GoneStep(log, visit, store, next, l, i, store', l', next');
    PassedStep(store, next, l, i, Made(visit.p, visit.ans), store', l');
    FollowedStep(log, visit, store, next, l, i, store', l');
    assert (log + [visit])[..|log|] == log;
  }

  lemma PassedStep(store: Store, next: int, l: List, i: nat, ps: seq<Prim>, store': Store, l': List)
    requires i < |l| && l[i].Some? && Taken(store, next, l, i, ps, store', l') && Passed(l, i)
    ensures Passed(l', i + 1)
  {
  }

  ghost predicate Passed(l: List, i: nat) {
    forall k :: 0 <= k < i && k < |l| ==> l[k] == None
  }

  /** A visited primitive has left the list for good, and if it was diced and still lives it is as it was then. */
  ghost predicate Gone(store: Store, l: List, next: int, visit: Visit) {
    visit.id < next && Some(visit.id) !in l && Kept(store, visit)
  }

  lemma GoneStep(log: seq<Visit>, visit: Visit, store: Store, next: int, l: List, i: nat, store': Store, l': List,
                 next': int)
    requires Distinct(l, next) && i < |l| && l[i] == Some(visit.id) && next <= next' && Kept(store', visit)
    requires Taken(store, next, l, i, Made(visit.p, visit.ans), store', l')
    requires forall k :: 0 <= k < |log| ==> Gone(store, l, next, log[k])
    ensures forall k :: 0 <= k < |log + [visit]| ==> Gone(store', l', next', (log + [visit])[k])
  {
    forall x: Visit | Gone(store, l, next, x)
      ensures Gone(store', l', next', x)
    {
      GoneStays(x, visit, store, next, l, i, store', l', next');
    }
    forall k | 0 <= k < |l'|
      ensures l'[k] != l[i]
    {
      assert k < |l| && k < i ==> Apart(l, k, i);
      assert k < |l| && i < k ==> Apart(l, i, k);
    }
  }

  lemma GoneStays(x: Visit, visit: Visit, store: Store, next: int, l: List, i: nat, store': Store, l': List, next': int)
    requires i < |l| && l[i] == Some(visit.id) && next <= next'
    requires Taken(store, next, l, i, Made(visit.p, visit.ans), store', l')
    requires Gone(store, l, next, x)
    ensures Gone(store', l', next', x)
  {
    forall k | 0 <= k < |l'|
      ensures l'[k] != Some(x.id)
    {
      assert k < |l| && k != i ==> l'[k] == l[k] && l[k] in l;
      assert k >= |l| ==> l'[k] == Some(next + (k - |l|));
    }
    assert l[i] in l;
  }

  lemma StartTiles(store: Store, l: List)
    requires Listed(store, l)
    ensures Tiles([], store, l, 0, store, l) && Fits([], store, l, 0, store, l)
  {
  }

  lemma EndTiles(log: seq<Visit>, store: Store, l: List, store0: Store, l0: List)
    requires Listed(store, l) && Listed(store0, l0)
    requires Tiles(log, store, l, |l|, store0, l0) && Fits(log, store, l, |l|, store0, l0)
    ensures Tiles(log, store, [], 0, store0, l0) && Fits(log, store, [], 0, store0, l0)
  {
    assert l[|l|..] == [];
    forall f: Prim -> nat
      ensures Left(store, l, |l|, f) == Left(store, [], 0, f)
    {
    }
  }

  lemma ClearedSound(store: Store, next: int, freed: multiset<int>, l: List, bs: seq<Bucket>)
    requires Sound(store, next, freed, Refs(l, bs)) && Passed(l, |l|)
    ensures Sound(store, next, freed, Refs([], bs)) && Distinct([], next)
  {
    var refs' := Refs([], bs);
    forall id: int
      ensures SoundAt(store, next, freed, refs', id)
    {
      assert SoundAt(store, next, freed, Refs(l, bs), id);
      assert Some(id) !in l;
    }
    assert forall j: nat, k: nat :: Apart([], j, k);
  }

  /** Before its release: the new primitives are in place and the others are as they were. */
  ghost predicate Prepared(store: Store, next: int, l: List, id: int, ps: seq<Prim>, store': Store, l': List) {
    && l' == l + Fresh(next, |ps|)
    && Stored(store', next, ps)
    && (forall k :: k in store && k != id ==> k in store' && store'[k] == store[k])
    && (forall k :: k in store' ==> k in store || next <= k)
  }

  lemma GrownPrepared(store: Store, next: int, freed: multiset<int>, l: List, bs: seq<Bucket>, id: int, ps: seq<Prim>,
                      store': Store, next': int, l': List)
    requires Sound(store, next, freed, Refs(l, bs)) && id in store && Grown(store, next, ps, store') && AllHeldOnce(ps)
    requires next' == next + |ps| && Same(l', l + Fresh(next, |ps|))
    ensures Sound(store', next', freed, Refs(l', bs))
    ensures Prepared(store, next, l, id, ps, store', l') && id in store' && store'[id] == store[id]
  {
    GrownSound(store, next, freed, l, bs, ps, store');
    SoundIds(store, next, freed, Refs(l, bs));
  }

  lemma InsertedHolds(store: Store, next: int, freed: multiset<int>, l: List, bs: seq<Bucket>, p: Prim, store': Store,
                      next': int, l': List)
    requires Sound(store, next, freed, Refs(l, bs)) && Listed(store, l) && Distinct(l, next) && p.refCnt == 1
    requires Same(store', store[next := p]) && next' == next + 1 && Same(l', l + [Some(next)])
    ensures Sound(store', next', freed, Refs(l', bs)) && Listed(store', l') && Distinct(l', next')
  {
    InsertedSound(store, next, freed, Refs(l, bs), p);
    RefsAppend(l, bs, Some(next));
    InsertedDistinct(l, next);
  }

  lemma PreparedTaken(store: Store, next: int, l: List, i: nat, ps: seq<Prim>, store': Store, l': List)
    requires i < |l| && l[i].Some? && l[i].value < next && l[i].value in store' && store'[l[i].value].refCnt >= 1
    requires Prepared(store, next, l, l[i].value, ps, store', l')
    ensures i < |l'| && Taken(store, next, l, i, ps, Released(store', l[i].value), l'[i := None])
  {
    assert l'[i := None] == l[i := None] + Fresh(next, |ps|);
  }

  lemma Overwritten(store: Store, id: int, p: Prim, q: Prim)
    ensures store[id := p][id := q] == store[id := q]
  {
  }

  ghost predicate PartSent(bs: seq<Bucket>, id: int, bound: Bound, i: nat, cs: seq<Bucket>) {
    i <= |bs| == |cs| && cs == Sent(bs, id, bound)[..i] + bs[i..]
  }

  lemma PartSentNext(bs: seq<Bucket>, id: int, bound: Bound, i: nat, cs: seq<Bucket>)
    requires i < |bs| && PartSent(bs, id, bound, i, cs)
    ensures PartSent(bs, id, bound, i + 1, cs[i := Offered(cs[i], id, bound)])
  {
  }

  lemma {:induction false} NothingHeld(l: List, bs: seq<Bucket>)
    requires forall k :: 0 <= k < |l| ==> l[k] == None
    requires forall b :: 0 <= b < |bs| ==> forall k :: 0 <= k < |bs[b].prims| ==> bs[b].prims[k] == None
    ensures forall id: int :: Some(id) !in Refs(l, bs)
    decreases |bs|
  {
    if bs != [] {
      NothingHeld(l, bs[..|bs| - 1]);
    }
  }

  lemma InsertedDistinct(l: List, next: int)
    requires Distinct(l, next)
    ensures Distinct(l + [Some(next)], next + 1)
  {
    var m := l + [Some(next)];
    forall j: nat, k: nat
      ensures Apart(m, j, k)
    {
      assert Apart(l, j, k);
    }
  }

  lemma SoundIds(store: Store, next: int, freed: multiset<int>, refs: multiset<Option<int>>)
    requires Sound(store, next, freed, refs)
    ensures forall id :: id in store ==> id < next
  {
    forall id | id in store
      ensures id < next
    {
      assert SoundAt(store, next, freed, refs, id);
    }
  }

  // ---------- one root ----------

  /** Entry k of the list is the only primitive of its geometry and states. */
  ghost predicate OnlyOf(store: Store, l: List, k: nat, key: Key)
    requires Listed(store, l)
  {
    && k < |l| && l[k].Some? && store[l[k].value].key == key
    && forall j :: 0 <= j < |l| && j != k && l[j].Some? ==> store[l[j].value].key != key
  }

  lemma {:induction false} TotalZero(store: Store, l: List, f: Prim -> nat)
    requires Listed(store, l) && forall j :: 0 <= j < |l| && l[j].Some? ==> f(store[l[j].value]) == 0
    ensures Total(store, l, f) == 0
  {
    if l != [] {
      TotalZero(store, l[1..], f);
    }
  }

  lemma TotalOfOne(store: Store, l: List, k: nat, key: Key, f: Prim -> nat)
    requires Listed(store, l) && OnlyOf(store, l, k, key) && forall p: Prim :: p.key != key ==> f(p) == 0
    ensures Left(store, l, 0, f) == f(store[l[k].value])
  {
    assert l[0..] == l == l[..k] + l[k..];
    TotalConcat(store, l[..k], l[k..], f);
    TotalFrom(store, l, k, f);
    TotalZero(store, l[..k], f);
    TotalZero(store, l[k + 1..], f);
  }

  /**
   * The pieces of one root: each point of its (u, v) rectangle is in exactly one of those diced, culled or
   * dropped, no other point is in any, and at most Budget of its split count ever descend from it.
   */
  lemma RootIsTiled(log: seq<Visit>, store: Store, store0: Store, l0: List, k: nat, key: Key, u: real, v: real)
    requires Listed(store, []) && Listed(store0, l0) && OnlyOf(store0, l0, k, key)
    requires Tiles(log, store, [], 0, store0, l0) && Fits(log, store, [], 0, store0, l0)
    ensures Holds(store0[l0[k].value], key, u, v) ==> HeldOnce(Finals(log), key, u, v)
    ensures !Holds(store0[l0[k].value], key, u, v) ==> forall j :: 0 <= j < |Finals(log)| ==>
              !Holds(Finals(log)[j], key, u, v)
    ensures SumOf(Visited(log), One(key)) <= Budget(store0[l0[k].value].splitCnt)
  {
    var f := CoverAt(key, u, v);
    TotalOfOne(store0, l0, k, key, f);
    TotalOfOne(store0, l0, k, key, BudgetOf(key));
    assert SumOf(Finals(log), f) + Left(store, [], 0, f) == Left(store0, l0, 0, f);
    if Holds(store0[l0[k].value], key, u, v) {
      CoverOnce(Finals(log), key, u, v);
    } else {
      CoverNone(Finals(log), key, u, v);
    }
  }

  /**
   * Nothing of a root is lost unless a primitive of more than nine splits is to be split again, or a split names no
   * direction: otherwise each of its points is in exactly one of the diced and culled pieces.
   */
  lemma RootIsShown(log: seq<Visit>, store: Store, store0: Store, l0: List, k: nat, key: Key, u: real, v: real)
    requires Listed(store, []) && Listed(store0, l0) && OnlyOf(store0, l0, k, key)
    requires Tiles(log, store, [], 0, store0, l0) && Fits(log, store, [], 0, store0, l0)
    requires forall j :: 0 <= j < |log| && log[j].ans.Split? ==>
               (log[j].ans.uSplit || log[j].ans.vSplit) && log[j].p.splitCnt <= 9
    ensures Holds(store0[l0[k].value], key, u, v) ==> HeldOnce(Shown(log), key, u, v)
    ensures !Holds(store0[l0[k].value], key, u, v) ==> forall j :: 0 <= j < |Shown(log)| ==>
              !Holds(Shown(log)[j], key, u, v)
  {
    FinalsAreShown(log);
    RootIsTiled(log, store, store0, l0, k, key, u, v);
  }
}
