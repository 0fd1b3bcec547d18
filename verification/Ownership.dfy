/** Reference counts of primitives: who holds them, and the store they live in. */
module Ownership {
  import opened Common
  import opened Pieces

  type Store = map<int, Prim>
  type List = seq<Option<int>>

  datatype Bucket = Bucket(x1: int, y1: int, x2: int, y2: int, prims: List) {
    predicate Intersects(b: Bound) { b.minX < x2 && b.maxX >= x1 && b.minY < y2 && b.maxY >= y1 }
  }

  // ---------- counting references ----------

  ghost function InBuckets(bs: seq<Bucket>): multiset<Option<int>> {
    if bs == [] then multiset{} else InBuckets(bs[..|bs| - 1]) + multiset(bs[|bs| - 1].prims)
  }

  /** Everything that the list and the buckets hold. */
  ghost function Refs(l: List, bs: seq<Bucket>): multiset<Option<int>> {
    multiset(l) + InBuckets(bs)
  }

  /**
   * A live primitive is held and counts its holders, a reference is to a live primitive, and every primitive
   * made so far is live or has been deleted exactly once.
   */
  ghost predicate SoundAt(store: Store, next: int, freed: multiset<int>, refs: multiset<Option<int>>, id: int) {
    && refs[Some(id)] == (if id in store then store[id].refCnt else 0)
    && freed[id] == (if 0 <= id < next && id !in store then 1 else 0)
    && (id in store ==> 0 <= id < next && store[id].refCnt >= 1)
  }

  /** The pixels of a bucket, and those of a bound, whose last ones count. */
  predicate InBucket(b: Bucket, x: int, y: int) { b.x1 <= x < b.x2 && b.y1 <= y < b.y2 }
  predicate InBound(bound: Bound, x: int, y: int) { bound.minX <= x <= bound.maxX && bound.minY <= y <= bound.maxY }

  /** A bucket is given exactly the primitives whose bound shares a pixel with it. */
  lemma IntersectsExactly(b: Bucket, bound: Bound)
    requires b.x1 < b.x2 && b.y1 < b.y2 && bound.minX <= bound.maxX && bound.minY <= bound.maxY
    ensures b.Intersects(bound) <==> exists x, y :: InBucket(b, x, y) && InBound(bound, x, y)
  {
    if b.Intersects(bound) {
      var x, y := if b.x1 < bound.minX then bound.minX else b.x1, if b.y1 < bound.minY then bound.minY else b.y1;
      assert InBucket(b, x, y) && InBound(bound, x, y);
    }
  }

  ghost predicate Sound(store: Store, next: int, freed: multiset<int>, refs: multiset<Option<int>>) {
    0 <= next && forall id :: SoundAt(store, next, freed, refs, id)
  }

  lemma {:induction false} InBucketsUpdate(bs: seq<Bucket>, b: nat, l: List)
    requires b < |bs|
    ensures InBuckets(bs[b := bs[b].(prims := l)]) + multiset(bs[b].prims) == InBuckets(bs) + multiset(l)
  {
    var cs, n := bs[b := bs[b].(prims := l)], |bs| - 1;
    if b == n {
      assert cs[..n] == bs[..n];
    } else {
      assert cs[..n] == bs[..n][b := bs[b].(prims := l)];
      InBucketsUpdate(bs[..n], b, l);
      AddBoth(InBuckets(cs[..n]), multiset(bs[b].prims), InBuckets(bs[..n]), multiset(l), multiset(bs[n].prims));
    }
  }

  lemma AddBoth(a: multiset<Option<int>>, m: multiset<Option<int>>, c: multiset<Option<int>>, n: multiset<Option<int>>,
                z: multiset<Option<int>>)
    requires a + m == c + n
    ensures (a + z) + m == (c + z) + n && (z + a) + m == (z + c) + n
  {
    forall y
      ensures ((a + z) + m)[y] == ((c + z) + n)[y]
    {
      assert (a + m)[y] == (c + n)[y];
    }
    assert a + z == z + a && c + z == z + c;
  }

  lemma {:induction false} InBucketsHas(bs: seq<Bucket>, b: nat)
    requires b < |bs|
    ensures multiset(bs[b].prims) <= InBuckets(bs)
  {
    if b < |bs| - 1 {
      InBucketsHas(bs[..|bs| - 1], b);
    }
  }

  // ---------- one reference more or less ----------

  /** Release: one reference less, and the primitive is deleted with its last. */
  ghost function Released(store: Store, id: int): Store
    requires id in store && store[id].refCnt >= 1
  {
    if store[id].refCnt == 1 then store - {id} else store[id := store[id].(refCnt := store[id].refCnt - 1)]
  }

  ghost function FreedBy(store: Store, freed: multiset<int>, id: int): multiset<int>
    requires id in store
  {
    if store[id].refCnt == 1 then freed + multiset{id} else freed
  }

  lemma HeldIsLive(store: Store, next: int, freed: multiset<int>, refs: multiset<Option<int>>, id: int)
    requires Sound(store, next, freed, refs) && Some(id) in refs
    ensures id in store && id < next && store[id].refCnt >= 1
  {
    assert SoundAt(store, next, freed, refs, id);
  }

  lemma ReleasedSound(store: Store, next: int, freed: multiset<int>, refs: multiset<Option<int>>, id: int,
                      refs': multiset<Option<int>>)
    requires Sound(store, next, freed, refs) && id in store && store[id].refCnt >= 1
    requires refs' + multiset{Some(id)} == refs + multiset{None}
    ensures Sound(Released(store, id), next, FreedBy(store, freed, id), refs')
  {
    forall k: int
      ensures SoundAt(Released(store, id), next, FreedBy(store, freed, id), refs', k)
    {
      assert SoundAt(store, next, freed, refs, k);
      assert (refs' + multiset{Some(id)})[Some(k)] == (refs + multiset{None})[Some(k)];
    }
  }

  lemma BorrowedSound(store: Store, next: int, freed: multiset<int>, refs: multiset<Option<int>>, id: int)
    requires Sound(store, next, freed, refs) && id in store
    ensures Sound(store[id := store[id].(refCnt := store[id].refCnt + 1)], next, freed, refs + multiset{Some(id)})
  {
    var store' := store[id := store[id].(refCnt := store[id].refCnt + 1)];
    var refs' := refs + multiset{Some(id)};
    forall k: int
      ensures SoundAt(store', next, freed, refs', k)
    {
      assert SoundAt(store, next, freed, refs, k);
    }
  }

  lemma InsertedSound(store: Store, next: int, freed: multiset<int>, refs: multiset<Option<int>>, p: Prim)
    requires Sound(store, next, freed, refs) && p.refCnt == 1
    ensures Sound(store[next := p], next + 1, freed, refs + multiset{Some(next)})
  {
    var store', next', refs' := store[next := p], next + 1, refs + multiset{Some(next)};
    forall k: int
      ensures SoundAt(store', next', freed, refs', k)
    {
      assert SoundAt(store, next, freed, refs, k);
    }
  }

  /** A change of a primitive that leaves its count alone. */
  lemma EditedSound(store: Store, next: int, freed: multiset<int>, refs: multiset<Option<int>>, id: int, p: Prim)
    requires Sound(store, next, freed, refs) && id in store && p.refCnt == store[id].refCnt
    ensures Sound(store[id := p], next, freed, refs)
  {
    var store' := store[id := p];
    forall k: int
      ensures SoundAt(store', next, freed, refs, k)
    {
      assert SoundAt(store, next, freed, refs, k);
    }
  }

  lemma RefsAppend(l: List, bs: seq<Bucket>, x: Option<int>)
    ensures Refs(l + [x], bs) == Refs(l, bs) + multiset{x}
  {
  }

  lemma RefsCleared(l: List, bs: seq<Bucket>, i: nat)
    requires i < |l|
    ensures l[i] in Refs(l, bs)
    ensures Refs(l[i := None], bs) + multiset{l[i]} == Refs(l, bs) + multiset{None}
  {
    assert l[i] in l;
    assert l == l[..i] + [l[i]] + l[i + 1..];
    assert l[i := None] == l[..i] + [None] + l[i + 1..];
  }

  lemma RefsGiven(l: List, bs: seq<Bucket>, b: nat, x: Option<int>)
    requires b < |bs|
    ensures Refs(l, bs[b := bs[b].(prims := bs[b].prims + [x])]) == Refs(l, bs) + multiset{x}
  {
    InBucketsUpdate(bs, b, bs[b].prims + [x]);
    AddCancel(InBuckets(bs[b := bs[b].(prims := bs[b].prims + [x])]), multiset(bs[b].prims), InBuckets(bs), x);
  }

  lemma AddCancel(a: multiset<Option<int>>, m: multiset<Option<int>>, c: multiset<Option<int>>, x: Option<int>)
    requires a + m == c + (m + multiset{x})
    ensures a == c + multiset{x}
  {
    forall y
      ensures a[y] == (c + multiset{x})[y]
    {
      assert (a + m)[y] == (c + (m + multiset{x}))[y];
    }
  }

  lemma RefsClearedInBucket(l: List, bs: seq<Bucket>, b: nat, i: nat)
    requires b < |bs| && i < |bs[b].prims|
    ensures bs[b].prims[i] in Refs(l, bs)
    ensures Refs(l, bs[b := bs[b].(prims := bs[b].prims[i := None])]) + multiset{bs[b].prims[i]}
            == Refs(l, bs) + multiset{None}
  {
    var m := bs[b].prims;
    InBucketsHas(bs, b);
    assert m[i] in m;
    InBucketsUpdate(bs, b, m[i := None]);
    RefsCleared(m, [], i);
    SwapCancel(InBuckets(bs[b := bs[b].(prims := m[i := None])]), multiset(m), InBuckets(bs), multiset(m[i := None]),
               m[i]);
    AddBoth(InBuckets(bs[b := bs[b].(prims := m[i := None])]), multiset{m[i]}, InBuckets(bs), multiset{None},
            multiset(l));
  }

  lemma SwapCancel(a: multiset<Option<int>>, m: multiset<Option<int>>, c: multiset<Option<int>>,
                   n: multiset<Option<int>>, x: Option<int>)
    requires a + m == c + n && n + multiset{x} == m + multiset{None}
    ensures a + multiset{x} == c + multiset{None}
  {
    forall y
      ensures (a + multiset{x})[y] == (c + multiset{None})[y]
    {
      assert (a + m)[y] == (c + n)[y] && (n + multiset{x})[y] == (m + multiset{None})[y];
    }
  }

  // ---------- new primitives appended to the list ----------

  ghost function Fresh(next: int, n: nat): List {
    seq(n, k requires 0 <= k < n => Some(next + k))
  }

  ghost predicate Stored(store: Store, next: int, ps: seq<Prim>) {
    forall id :: next <= id < next + |ps| ==> id in store && store[id] == ps[id - next]
  }

  /** The store has ps as well, from id `next` on. */
  ghost predicate Grown(store: Store, next: int, ps: seq<Prim>, store': Store) {
    && Stored(store', next, ps)
    && (forall id :: id in store && id < next ==> id in store' && store'[id] == store[id])
    && (forall id :: id in store' ==> id in store || next <= id < next + |ps|)
  }

  lemma {:induction false} FreshCount(next: int, n: nat, id: int)
    ensures multiset(Fresh(next, n))[Some(id)] == if next <= id < next + n then 1 else 0
  {
    if n > 0 {
      FreshCount(next, n - 1, id);
      assert Fresh(next, n) == Fresh(next, n - 1) + [Some(next + n - 1)];
    }
  }

  lemma RefsConcat(l: List, m: List, bs: seq<Bucket>, id: int)
    ensures Refs(l + m, bs)[Some(id)] == Refs(l, bs)[Some(id)] + multiset(m)[Some(id)]
  {
  }

  lemma GrownSound(store: Store, next: int, freed: multiset<int>, l: List, bs: seq<Bucket>, ps: seq<Prim>,
                   store': Store)
    requires Sound(store, next, freed, Refs(l, bs)) && Grown(store, next, ps, store') && AllHeldOnce(ps)
    ensures Sound(store', next + |ps|, freed, Refs(l + Fresh(next, |ps|), bs))
  {
    var next', refs' := next + |ps|, Refs(l + Fresh(next, |ps|), bs);
    forall k: int
      ensures SoundAt(store', next', freed, refs', k)
    {
      assert SoundAt(store, next, freed, Refs(l, bs), k);
      FreshCount(next, |ps|, k);
      RefsConcat(l, Fresh(next, |ps|), bs, k);
    }
  }

  // ---------- the primitives of a list ----------

  ghost predicate Listed(store: Store, l: List) {
    forall k :: 0 <= k < |l| && l[k].Some? ==> l[k].value in store
  }

  ghost predicate Apart(l: List, j: nat, k: nat) {
    j < k < |l| && l[j].Some? ==> l[j] != l[k]
  }

  /** No primitive is in the list twice, and all are of an id below `next`. */
  ghost predicate Distinct(l: List, next: int) {
    (forall j, k :: Apart(l, j, k)) && forall k :: 0 <= k < |l| && l[k].Some? ==> l[k].value < next
  }

  /** The sum of f over the primitives of the list. */
  ghost function Total(store: Store, l: List, f: Prim -> nat): nat
    requires Listed(store, l)
  {
    if l == [] then 0
    else (if l[0].Some? then f(store[l[0].value]) else 0) + Total(store, l[1..], f)
  }

  lemma {:induction false} TotalFrame(store: Store, other: Store, l: List, f: Prim -> nat)
    requires Listed(store, l)
    requires forall k :: 0 <= k < |l| && l[k].Some? ==> l[k].value in other && other[l[k].value] == store[l[k].value]
    ensures Listed(other, l) && Total(other, l, f) == Total(store, l, f)
  {
    if l != [] {
      assert forall k :: 0 <= k < |l[1..]| ==> l[1..][k] == l[k + 1];
      TotalFrame(store, other, l[1..], f);
    }
  }

  lemma {:induction false} TotalConcat(store: Store, l: List, m: List, f: Prim -> nat)
    requires Listed(store, l + m)
    ensures Listed(store, l) && Listed(store, m)
    ensures Total(store, l + m, f) == Total(store, l, f) + Total(store, m, f)
  {
    assert forall k :: 0 <= k < |l| ==> (l + m)[k] == l[k];
    assert forall k :: 0 <= k < |m| ==> (l + m)[|l| + k] == m[k];
    if l == [] {
      assert l + m == m;
    } else {
      assert (l + m)[1..] == l[1..] + m;
      TotalConcat(store, l[1..], m, f);
    }
  }

  lemma {:induction false} TotalFresh(store: Store, next: int, ps: seq<Prim>, f: Prim -> nat)
    requires Stored(store, next, ps)
    ensures Listed(store, Fresh(next, |ps|)) && Total(store, Fresh(next, |ps|), f) == SumOf(ps, f)
    decreases |ps|
  {
    var l := Fresh(next, |ps|);
    assert forall k :: 0 <= k < |l| ==> l[k].value == next + k && next + k in store;
    if ps != [] {
      assert next in store;
      TotalFresh(store, next + 1, ps[1..], f);
      assert Fresh(next, |ps|)[1..] == Fresh(next + 1, |ps| - 1);
    }
  }

  // ---------- taking one primitive from the list ----------

  /** Entry i has been handled: it is cleared, ps have been appended, and the other primitives are as they were. */
  ghost predicate Taken(store: Store, next: int, l: List, i: nat, ps: seq<Prim>, store': Store, l': List)
    requires i < |l| && l[i].Some?
  {
    && l' == l[i := None] + Fresh(next, |ps|)
    && Stored(store', next, ps)
    && (forall id :: id in store && id != l[i].value ==> id in store' && store'[id] == store[id])
    && (forall id :: id in store' ==> id in store || next <= id)
  }

  lemma TakenListed(store: Store, next: int, l: List, i: nat, ps: seq<Prim>, store': Store, l': List)
    requires Listed(store, l) && Distinct(l, next) && i < |l| && l[i].Some? && Taken(store, next, l, i, ps, store', l')
    ensures Listed(store', l')
  {
    var m := Fresh(next, |ps|);
    forall k | 0 <= k < |l'| && l'[k].Some?
      ensures l'[k].value in store'
    {
      if k < |l| {
        assert Apart(l, i, k) && Apart(l, k, i);
        assert l'[k] == l[k];
      } else {
        assert l'[k] == m[k - |l|] == Some(next + (k - |l|));
      }
    }
  }

  lemma TakenDistinct(store: Store, next: int, l: List, i: nat, ps: seq<Prim>, store': Store, l': List)
    requires Distinct(l, next) && i < |l| && l[i].Some? && Taken(store, next, l, i, ps, store', l')
    ensures Distinct(l', next + |ps|)
  {
    var m := Fresh(next, |ps|);
    assert forall k :: |l| <= k < |l'| ==> l'[k] == m[k - |l|] == Some(next + (k - |l|));
    assert forall k :: 0 <= k < |l| && l'[k].Some? ==> l'[k] == l[k];
    forall j: nat, k: nat
      ensures Apart(l', j, k)
    {
      assert Apart(l, j, k);
    }
  }

  lemma {:induction false} TotalFrom(store: Store, l: List, i: nat, f: Prim -> nat)
    requires Listed(store, l) && i < |l|
    ensures Listed(store, l[i..]) && Listed(store, l[i + 1..])
    ensures Total(store, l[i..], f) == (if l[i].Some? then f(store[l[i].value]) else 0) + Total(store, l[i + 1..], f)
  {
    assert l[i..][1..] == l[i + 1..];
  }

  /** What is left after entry i: what was left after it, and ps. */
  lemma TakenTotal(store: Store, next: int, l: List, i: nat, ps: seq<Prim>, store': Store, l': List, f: Prim -> nat)
    requires Listed(store, l) && Distinct(l, next) && i < |l| && l[i].Some? && Taken(store, next, l, i, ps, store', l')
    requires Listed(store', l'[i + 1..]) && Listed(store, l[i + 1..])
    ensures Total(store', l'[i + 1..], f) == Total(store, l[i + 1..], f) + SumOf(ps, f)
  {
    var m := Fresh(next, |ps|);
    assert l'[i + 1..] == l[i + 1..] + m;
    TotalConcat(store', l[i + 1..], m, f);
    TotalFresh(store', next, ps, f);
    forall k | i < k < |l|
      ensures l[k] != l[i]
    {
      assert Apart(l, i, k);
    }
    TotalFrame(store', store, l[i + 1..], f);
  }

  /** What has been passed does not change. */
  lemma PassedTotal(store: Store, next: int, l: List, i: nat, ps: seq<Prim>, store': Store, l': List, f: Prim -> nat)
    requires Listed(store, l) && Distinct(l, next) && i < |l| && l[i].Some? && Taken(store, next, l, i, ps, store', l')
             && Listed(store', l')
    ensures Listed(store', l'[..i + 1]) && Listed(store, l[..i])
    ensures Total(store', l'[..i + 1], f) == Total(store, l[..i], f)
  {
    assert l'[..i + 1] == l[..i] + [None];
    TotalConcat(store', l[..i], [None], f);
    forall k | 0 <= k < i && l[k].Some?
      ensures l[k] != l[i]
    {
      assert Apart(l, k, i);
    }
    TotalFrame(store', store, l[..i], f);
    assert Total(store', [None], f) == Total(store', [], f);
  }
}
