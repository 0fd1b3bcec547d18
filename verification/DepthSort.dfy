/** The insertion sort of what a sample has received: indices by depth, first come first for equal depths. */
module DepthSort {
  import opened Micropolys

  /** The indices in `order` refer to the data. */
  predicate Refers(data: seq<Sample>, order: seq<int>) {
    forall k :: 0 <= k < |order| ==> 0 <= order[k] < |data|
  }

  /** Nearer, or as near and received earlier. */
  predicate Precedes(data: seq<Sample>, a: int, b: int)
    requires 0 <= a < |data| && 0 <= b < |data|
  {
    data[a].depth < data[b].depth || (data[a].depth == data[b].depth && a < b)
  }

  ghost predicate Ordered(data: seq<Sample>, order: seq<int>) {
    Refers(data, order) && forall j, k :: 0 <= j < k < |order| ==> Precedes(data, order[j], order[k])
  }

  /** `order` is the stable sort of the first n samples: each of them once, in strict order. */
  ghost predicate StableSort(data: seq<Sample>, order: seq<int>, n: nat) {
    && Ordered(data, order) && |order| == n
    && (forall k :: 0 <= k < n ==> order[k] < n)
    && forall i :: 0 <= i < n ==> i in order
  }

  /** The place of a sample at depth d: before the first that is farther. */
  function Place(data: seq<Sample>, order: seq<int>, d: real): (j: nat)
    requires Refers(data, order)
    ensures j <= |order|
    ensures forall k :: 0 <= k < j ==> data[order[k]].depth <= d
    ensures j < |order| ==> d < data[order[j]].depth
  {
    if order == [] || d < data[order[0]].depth then 0 else 1 + Place(data, order[1..], d)
  }

  function Inserted(order: seq<int>, j: nat, i: int): seq<int>
    requires j <= |order|
  {
    order[..j] + [i] + order[j..]
  }

  lemma InsertedAt(order: seq<int>, j: nat, i: int, k: nat)
    requires j <= |order| && k <= |order|
    ensures |Inserted(order, j, i)| == |order| + 1
    ensures Inserted(order, j, i)[k] == if k < j then order[k] else if k == j then i else order[k - 1]
  {
  }

  lemma InsertedIsSorted(data: seq<Sample>, order: seq<int>, i: nat)
    requires i < |data| && StableSort(data, order, i)
    ensures StableSort(data, Inserted(order, Place(data, order, data[i].depth), i), i + 1)
  {
    var j := Place(data, order, data[i].depth);
    var more := Inserted(order, j, i);
    InsertedHas(order, j, i, i);
    forall k: nat | k < |more|
      ensures 0 <= more[k] <= i
    {
      InsertedAt(order, j, i, k);
    }
    forall a: nat, b: nat | a < b < |more|
      ensures Precedes(data, more[a], more[b])
    {
      InsertedPair(data, order, i, j, more, a, b);
    }
  }

  lemma InsertedPair(data: seq<Sample>, order: seq<int>, i: nat, j: nat, more: seq<int>, a: nat, b: nat)
    requires i < |data| && StableSort(data, order, i) && j == Place(data, order, data[i].depth) && a < b < |more|
    requires more == Inserted(order, j, i) && Refers(data, more)
    ensures Precedes(data, more[a], more[b])
  {
    InsertedAt(order, j, i, a);
    InsertedAt(order, j, i, b);
    if b == j {
      assert data[order[a]].depth <= data[i].depth;
    } else if a == j {
      assert j == b - 1 || Precedes(data, order[j], order[b - 1]);
    } else {
      var a', b' := if a < j then a else a - 1, if b < j then b else b - 1;
      assert Precedes(data, order[a'], order[b']);
    }
  }

  lemma InsertedHas(order: seq<int>, j: nat, i: int, n: nat)
    requires j <= |order| && forall k :: 0 <= k < n ==> k in order
    ensures i in Inserted(order, j, i) && forall k :: 0 <= k < n ==> k in Inserted(order, j, i)
  {
    var more := Inserted(order, j, i);
    assert more[j] == i;
    forall k | 0 <= k < n
      ensures k in more
    {
      assert k in order;
      var p :| 0 <= p < |order| && order[p] == k;
      assert more[if p < j then p else p + 1] == k;
    }
  }

  // ---------- there is only one stable sort ----------

  lemma HeadIsFirst(data: seq<Sample>, a: seq<int>, x: int)
    requires Ordered(data, a) && x in a
    ensures 0 <= x < |data| && (x == a[0] || Precedes(data, a[0], x))
    ensures x in a[1..] <==> x != a[0]
  {
    var p :| 0 <= p < |a| && a[p] == x;
    assert p > 0 ==> a[1..][p - 1] == x;
  }

  /** Two strict orders of the same samples are the same, so the sort is determined. */
  lemma {:induction false} SortUnique(data: seq<Sample>, a: seq<int>, b: seq<int>)
    requires Ordered(data, a) && Ordered(data, b) && |a| == |b| && forall x :: x in a <==> x in b
    ensures a == b
  {
    if a != [] {
      assert a[0] in b && b[0] in a;
      HeadIsFirst(data, a, b[0]);
      HeadIsFirst(data, b, a[0]);
      forall x
        ensures x in a[1..] <==> x in b[1..]
      {
        if x in a {
          HeadIsFirst(data, a, x);
          HeadIsFirst(data, b, x);
        }
      }
      SortUnique(data, a[1..], b[1..]);
    }
  }

  // ---------- the sort in place ----------

  /** Moves entries j to done - 1 up by one. */
  method ShiftUp(sort: array<int>, j: nat, done: nat)
    requires j <= done < sort.Length
    modifies sort
    ensures sort[..j] == old(sort[..j]) && sort[j + 1..done + 1] == old(sort[j..done])
  {
    var k := done - 1;
    while k >= j
      invariant j - 1 <= k <= done - 1
      invariant forall i :: 0 <= i <= k ==> sort[i] == old(sort[i])
      invariant forall i :: k + 1 < i <= done ==> sort[i] == old(sort[i - 1])
    {
      sort[k + 1] := sort[k];
      k := k - 1;
    }
  }

  /** Puts sample i among the sorted ones. */
  method InsertOne(data: seq<Sample>, sort: array<int>, i: nat)
    requires i < |data| && i < sort.Length && StableSort(data, sort[..i], i)
    modifies sort
    ensures StableSort(data, sort[..i + 1], i + 1)
  {
    ghost var order := sort[..i];
    ghost var place := Place(data, order, data[i].depth);
    InsertedIsSorted(data, order, i);
    var depthI := data[i].depth;
    var j := 0;
    while j < i && !(depthI < data[sort[j]].depth)
      invariant 0 <= j <= place
      invariant sort[..i] == order
    {
      j := j + 1;
    }
    InsertAt(sort, j, i, order);
  }

  /** Puts i at place j of the first i entries. */
  method InsertAt(sort: array<int>, j: nat, i: nat, ghost order: seq<int>)
    requires j <= i < sort.Length && sort[..i] == order
    modifies sort
    ensures sort[..i + 1] == Inserted(order, j, i)
  {
    if j < i {
      ShiftUp(sort, j, i);
      assert sort[..j] == order[..j] && sort[j + 1..i + 1] == order[j..];
    }
    sort[j] := i;
    assert sort[..i + 1] == sort[..j] + [i] + sort[j + 1..i + 1];
  }

  method SortSampData(data: seq<Sample>, n: nat, sort: array<int>)
    requires n <= |data| && n <= sort.Length
    modifies sort
    ensures StableSort(data, sort[..n], n)
  {
    if n == 1 {
      sort[0] := 0;
      assert sort[..1] == [0];
      return;
    }
    for i := 0 to n
      invariant StableSort(data, sort[..i], i)
    {
      InsertOne(data, sort, i);
    }
  }
}
