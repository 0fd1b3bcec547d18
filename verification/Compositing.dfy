/** From the sorted samples of a pixel to its colour: back-to-front compositing and the box filter. */
module Compositing {
  import opened Common
  import opened Micropolys
  import opened DepthSort

  const MAX_DATA_PER_SAMPLE: int := 1024

  type Triple = (real, real, real)

  /** One channel of one sample. */
  datatype Layer = Layer(c: real, o: real)

  // ---------- compositing is the front-to-back sum ----------

  /** A layer over what lies behind it. */
  function Over(l: Layer, behind: real): real { Mul(behind, 1.0 - l.o) + l.c }

  /** The nearest first: each layer over all the farther ones. */
  function Composite(ls: seq<Layer>): real {
    if ls == [] then 0.0 else Over(ls[0], Composite(ls[1..]))
  }

  /** What the first i layers let through. */
  function Through(ls: seq<Layer>, i: nat): real
    requires i <= |ls|
  {
    if i == 0 then 1.0 else Mul(Through(ls, i - 1), 1.0 - ls[i - 1].o)
  }

  /** The sum over the first n layers of each colour times what the nearer ones let through. */
  function FrontSum(ls: seq<Layer>, n: nat): real
    requires n <= |ls|
  {
    if n == 0 then 0.0 else FrontSum(ls, n - 1) + Mul(ls[n - 1].c, Through(ls, n - 1))
  }

  lemma TimesTurns(a: real, b: real, c: real)
    ensures Mul(Mul(a, b), c) == Mul(Mul(a, c), b)
  {
    MulAssoc(a, b, c);
    MulAssoc(a, c, b);
    MulSwap(b, a, c);
    assert Mul(b, c) == Mul(c, b);
  }

  lemma TimesSum(a: real, b: real, t: real, k: real)
    ensures Mul(a, k) + Mul(b, Mul(t, k)) == Mul(a + Mul(b, t), k)
  {
    MulAssoc(b, t, k);
    MulSum(k, a, Mul(b, t));
  }

  lemma {:induction false} ThroughTail(ls: seq<Layer>, i: nat)
    requires 1 <= i <= |ls|
    ensures Through(ls, i) == Mul(Through(ls[1..], i - 1), 1.0 - ls[0].o)
  {
    if i > 1 {
      ThroughTail(ls, i - 1);
      TimesTurns(Through(ls[1..], i - 2), 1.0 - ls[0].o, 1.0 - ls[i - 1].o);
    }
  }

  lemma {:induction false} FrontSumTail(ls: seq<Layer>, n: nat)
    requires 1 <= n <= |ls|
    ensures FrontSum(ls, n) == ls[0].c + Mul(FrontSum(ls[1..], n - 1), 1.0 - ls[0].o)
  {
    if n == 1 {
      MulOne(ls[0].c);
      MulZero(1.0 - ls[0].o);
      assert FrontSum(ls, 1) == FrontSum(ls, 0) + Mul(ls[0].c, Through(ls, 0));
    } else {
      FrontSumTail(ls, n - 1);
      ThroughTail(ls, n - 1);
      TimesSum(FrontSum(ls[1..], n - 2), ls[n - 1].c, Through(ls[1..], n - 2), 1.0 - ls[0].o);
    }
  }

  /** Folding from the back is the sum of every colour dimmed by the layers in front of it. */
  lemma {:induction false} CompositeIsFrontSum(ls: seq<Layer>)
    ensures Composite(ls) == FrontSum(ls, |ls|)
  {
    if ls != [] {
      CompositeIsFrontSum(ls[1..]);
      FrontSumTail(ls, |ls|);
    }
  }

  /** What lies behind a fully opaque layer does not matter. */
  lemma {:induction false} BehindOpaque(ls: seq<Layer>, k: nat)
    requires k < |ls| && ls[k].o == 1.0
    ensures Composite(ls) == Composite(ls[..k + 1])
  {
    var front := ls[..k + 1];
    if k == 0 {
      assert front[1..] == [];
      MulZero(Composite(ls[1..]));
      MulZero(0.0);
    } else {
      BehindOpaque(ls[1..], k - 1);
      assert front[1..] == ls[1..][..k];
    }
  }

  predicate Proper(l: Layer) { 0.0 <= l.c <= l.o <= 1.0 }

  /** Colours that do not exceed their opacity composite to a colour in [0, 1]. */
  lemma {:induction false} CompositeInUnit(ls: seq<Layer>)
    requires forall k :: 0 <= k < |ls| ==> Proper(ls[k])
    ensures 0.0 <= Composite(ls) <= 1.0
  {
    if ls != [] {
      CompositeInUnit(ls[1..]);
      OverInUnit(ls[0], Composite(ls[1..]));
    }
  }

  lemma OverInUnit(l: Layer, behind: real)
    requires Proper(l) && 0.0 <= behind <= 1.0
    ensures 0.0 <= Over(l, behind) <= 1.0
  {
    var t := 1.0 - l.o;
    MulNonNegative(behind, t);
    MulNonNegative(1.0 - behind, t);
    MulDifference(t, 1.0, behind);
    MulOne(t);
  }

  // ---------- the samples of one list ----------

  function Pick(t: Triple, ch: nat): real { if ch == 0 then t.0 else if ch == 1 then t.1 else t.2 }

  /** One channel of the samples in the given order. */
  function Layers(data: seq<Sample>, order: seq<int>, ch: nat): (ls: seq<Layer>)
    requires Refers(data, order)
    ensures |ls| == |order|
    ensures forall k :: 0 <= k < |ls| ==> ls[k] == Layer(Pick(data[order[k]].ci, ch), Pick(data[order[k]].oi, ch))
  {
    seq(|order|, k requires 0 <= k < |order| => Layer(Pick(data[order[k]].ci, ch), Pick(data[order[k]].oi, ch)))
  }

  function OpacitySum(ls: seq<Layer>): real {
    if ls == [] then 0.0 else OpacitySum(ls[1..]) + ls[0].o
  }

  function Colour(data: seq<Sample>, order: seq<int>): Triple
    requires Refers(data, order)
  {
    (Composite(Layers(data, order, 0)), Composite(Layers(data, order, 1)), Composite(Layers(data, order, 2)))
  }

  function Opacity(data: seq<Sample>, order: seq<int>): Triple
    requires Refers(data, order)
  {
    (OpacitySum(Layers(data, order, 0)), OpacitySum(Layers(data, order, 1)), OpacitySum(Layers(data, order, 2)))
  }

  lemma LayersTail(data: seq<Sample>, order: seq<int>, i: nat, ch: nat)
    requires Refers(data, order) && i < |order|
    ensures Refers(data, order[i..]) && Refers(data, order[i + 1..])
    ensures var s := data[order[i]];
            Layers(data, order[i..], ch) == [Layer(Pick(s.ci, ch), Pick(s.oi, ch))] + Layers(data, order[i + 1..], ch)
  {
  }

  lemma Cons(l: Layer, ls: seq<Layer>)
    ensures Composite([l] + ls) == Over(l, Composite(ls)) && OpacitySum([l] + ls) == OpacitySum(ls) + l.o
  {
    assert ([l] + ls)[1..] == ls;
  }

  /** One more sample in front, on one channel. */
  lemma InFront(data: seq<Sample>, order: seq<int>, i: nat, ch: nat)
    requires Refers(data, order) && i < |order|
    ensures Refers(data, order[i..]) && Refers(data, order[i + 1..])
    ensures var l, ls := Layer(Pick(data[order[i]].ci, ch), Pick(data[order[i]].oi, ch)),
            Layers(data, order[i + 1..], ch);
            && Composite(Layers(data, order[i..], ch)) == Over(l, Composite(ls))
            && OpacitySum(Layers(data, order[i..], ch)) == OpacitySum(ls) + l.o
  {
    LayersTail(data, order, i, ch);
    Cons(Layer(Pick(data[order[i]].ci, ch), Pick(data[order[i]].oi, ch)), Layers(data, order[i + 1..], ch));
  }

  method Accumulate(data: seq<Sample>, sort: array<int>, n: nat) returns (col: Triple, opa: Triple)
    requires n <= sort.Length && Refers(data, sort[..n])
    ensures col == Colour(data, sort[..n]) && opa == Opacity(data, sort[..n])
  {
    ghost var order := sort[..n];
    col, opa := (0.0, 0.0, 0.0), (0.0, 0.0, 0.0);
    var i := n - 1;
    while i >= 0
      invariant -1 <= i < n
      invariant Refers(data, order[i + 1..])
      invariant col == Colour(data, order[i + 1..]) && opa == Opacity(data, order[i + 1..])
    {
      InFront(data, order, i, 0);
      InFront(data, order, i, 1);
      InFront(data, order, i, 2);
      var s := data[sort[i]];
      col := (Over(Layer(s.ci.0, s.oi.0), col.0), Over(Layer(s.ci.1, s.oi.1), col.1),
              Over(Layer(s.ci.2, s.oi.2), col.2));
      opa := (opa.0 + s.oi.0, opa.1 + s.oi.1, opa.2 + s.oi.2);
      i := i - 1;
    }
    assert order[0..] == order;
  }

  // ---------- the pixel ----------

  datatype Rgba = Rgba(r: real, g: real, b: real, a: real)

  function Clamp(x: real, lo: real, hi: real): real { if x < lo then lo else if x > hi then hi else x }

  function Alpha(opa: Triple): real { Clamp((opa.0 + opa.1 + opa.2) / 3.0, 0.0, 1.0) }

  function Used(data: seq<Sample>): nat { if |data| <= MAX_DATA_PER_SAMPLE then |data| else MAX_DATA_PER_SAMPLE }

  /** c is what a sample list gives: its stable depth order composited, or nothing. */
  ghost predicate SampleGives(data: seq<Sample>, c: Rgba) {
    exists order :: OrderGives(data, order, c)
  }

  ghost predicate OrderGives(data: seq<Sample>, order: seq<int>, c: Rgba) {
    && StableSort(data, order, Used(data))
    && var col := Colour(data, order);
       c == Rgba(col.0, col.1, col.2, if data == [] then 0.0 else Alpha(Opacity(data, order)))
  }

  ghost predicate AllGive(lists: seq<seq<Sample>>, cs: seq<Rgba>) {
    |cs| == |lists| && forall k :: 0 <= k < |cs| ==> SampleGives(lists[k], cs[k])
  }

  function Add(a: Rgba, b: Rgba): Rgba { Rgba(a.r + b.r, a.g + b.g, a.b + b.b, a.a + b.a) }
  function Scale(a: Rgba, k: real): Rgba { Rgba(Mul(a.r, k), Mul(a.g, k), Mul(a.b, k), Mul(a.a, k)) }

  function Sum(cs: seq<Rgba>): Rgba {
    if cs == [] then Rgba(0.0, 0.0, 0.0, 0.0) else Add(Sum(cs[..|cs| - 1]), cs[|cs| - 1])
  }

  /** c is the pixel: what its samples give, added and scaled. */
  ghost predicate PixelGives(lists: seq<seq<Sample>>, ooSampsPerPixel: real, c: Rgba) {
    exists cs :: AllGive(lists, cs) && c == Scale(Sum(cs), ooSampsPerPixel)
  }

  lemma EmptyGives()
    ensures SampleGives([], Rgba(0.0, 0.0, 0.0, 0.0))
  {
    var order: seq<int> := [];
    assert Colour([], order) == (0.0, 0.0, 0.0);
    assert OrderGives([], order, Rgba(0.0, 0.0, 0.0, 0.0));
  }

  /** What a sample list gives is determined. */
  lemma GivesOnce(data: seq<Sample>, c: Rgba, d: Rgba)
    requires SampleGives(data, c) && SampleGives(data, d)
    ensures c == d
  {
    var a :| OrderGives(data, a, c);
    var b :| OrderGives(data, b, d);
    SortUnique(data, a, b);
  }

  method FilterSample(data: seq<Sample>) returns (c: Rgba)
    requires data != []
    ensures SampleGives(data, c)
  {
    var n := Used(data);
    var sort := new int[MAX_DATA_PER_SAMPLE];
    SortSampData(data, n, sort);
    var col, opa := Accumulate(data, sort, n);
    c := Rgba(col.0, col.1, col.2, Alpha(opa));
    assert OrderGives(data, sort[..n], c);
  }

  /** The colour of a pixel is the scaled sum of what its samples give; an empty sample gives nothing. */
  method FilterPixelBox(lists: seq<seq<Sample>>, ooSampsPerPixel: real) returns (pixCol: Rgba)
    ensures PixelGives(lists, ooSampsPerPixel, pixCol)
  {
    pixCol := Rgba(0.0, 0.0, 0.0, 0.0);
    ghost var cs := [];
    for si := 0 to |lists|
      invariant |cs| == si && pixCol == Sum(cs)
      invariant forall k :: 0 <= k < |cs| ==> SampleGives(lists[k], cs[k])
    {
      var c := Rgba(0.0, 0.0, 0.0, 0.0);
      if |lists[si]| == 0 {
        EmptyGives();
      } else {
        c := FilterSample(lists[si]);
        pixCol := Add(pixCol, c);
      }
      ghost var more := cs + [c];
      assert more[..|more| - 1] == cs;
      cs := more;
    }
    pixCol := Scale(pixCol, ooSampsPerPixel);
    assert AllGive(lists, cs);
  }

  /** The pixel is determined by its sample lists. */
  lemma PixelOnce(lists: seq<seq<Sample>>, ooSampsPerPixel: real, c: Rgba, d: Rgba)
    requires PixelGives(lists, ooSampsPerPixel, c) && PixelGives(lists, ooSampsPerPixel, d)
    ensures c == d
  {
    var a :| AllGive(lists, a) && c == Scale(Sum(a), ooSampsPerPixel);
    var b :| AllGive(lists, b) && d == Scale(Sum(b), ooSampsPerPixel);
    forall k | 0 <= k < |lists|
      ensures a[k] == b[k]
    {
      GivesOnce(lists[k], a[k], b[k]);
    }
    assert a == b;
  }

  // ---------- a proper pixel ----------

  predicate ProperSample(s: Sample) {
    && 0.0 <= s.ci.0 <= s.oi.0 <= 1.0 && 0.0 <= s.ci.1 <= s.oi.1 <= 1.0 && 0.0 <= s.ci.2 <= s.oi.2 <= 1.0
  }

  predicate InUnit(c: Rgba, n: real) {
    0.0 <= c.r <= n && 0.0 <= c.g <= n && 0.0 <= c.b <= n && 0.0 <= c.a <= n
  }

  lemma SampleInUnit(data: seq<Sample>, c: Rgba)
    requires SampleGives(data, c) && forall k :: 0 <= k < |data| ==> ProperSample(data[k])
    ensures InUnit(c, 1.0)
  {
    var order :| OrderGives(data, order, c);
    CompositeInUnit(Layers(data, order, 0));
    CompositeInUnit(Layers(data, order, 1));
    CompositeInUnit(Layers(data, order, 2));
  }

  lemma {:induction false} SumInUnit(lists: seq<seq<Sample>>, cs: seq<Rgba>)
    requires AllGive(lists, cs)
    requires forall k, i :: 0 <= k < |lists| && 0 <= i < |lists[k]| ==> ProperSample(lists[k][i])
    ensures InUnit(Sum(cs), |cs| as real)
    decreases |cs|
  {
    if cs != [] {
      var n := |cs| - 1;
      SumInUnit(lists[..n], cs[..n]);
      SampleInUnit(lists[n], cs[n]);
      assert (n + 1) as real == n as real + 1.0;
    }
  }

  /** With every sample taken and weighted alike, the pixel stays in [0, 1]. */
  lemma PixelInUnit(lists: seq<seq<Sample>>, c: Rgba)
    requires |lists| > 0 && PixelGives(lists, 1.0 / |lists| as real, c)
    requires forall k, i :: 0 <= k < |lists| && 0 <= i < |lists[k]| ==> ProperSample(lists[k][i])
    ensures InUnit(c, 1.0)
  {
    var cs :| AllGive(lists, cs) && c == Scale(Sum(cs), 1.0 / |lists| as real);
    SumInUnit(lists, cs);
    ScaledSumInUnit(Sum(cs), |lists| as real);
  }

  lemma ScaledSumInUnit(s: Rgba, n: real)
    requires InUnit(s, n) && n > 0.0
    ensures InUnit(Scale(s, 1.0 / n), 1.0)
  {
    ScaledInUnit(s.r, n);
    ScaledInUnit(s.g, n);
    ScaledInUnit(s.b, n);
    ScaledInUnit(s.a, n);
  }

  lemma ScaledInUnit(x: real, n: real)
    requires 0.0 <= x <= n && n > 0.0
    ensures 0.0 <= Mul(x, 1.0 / n) <= 1.0
  {
    var y := 1.0 / n;
    assert y > 0.0 && n * y == 1.0;
    assert x * y <= n * y;
  }

  // ---------- the order of arrival ----------

  ghost function Picked(data: seq<Sample>, order: seq<int>): (r: seq<Sample>)
    requires Refers(data, order)
    ensures |r| == |order| && forall k :: 0 <= k < |r| ==> r[k] == data[order[k]]
  {
    seq(|order|, k requires 0 <= k < |order| => data[order[k]])
  }

  ghost predicate DistinctDepths(data: seq<Sample>) {
    forall i, j :: 0 <= i < j < |data| ==> data[i].depth != data[j].depth
  }

  ghost predicate Rising(s: seq<Sample>) {
    forall j, k :: 0 <= j < k < |s| ==> s[j].depth < s[k].depth
  }

  lemma HeadIsNearest(s: seq<Sample>, x: Sample)
    requires Rising(s) && x in s
    ensures x == s[0] || s[0].depth < x.depth
    ensures x in s[1..] <==> x != s[0]
  {
    var p :| 0 <= p < |s| && s[p] == x;
    assert p > 0 ==> s[1..][p - 1] == x;
  }

  lemma {:induction false} RisingUnique(s: seq<Sample>, t: seq<Sample>)
    requires Rising(s) && Rising(t) && |s| == |t| && forall x :: x in s <==> x in t
    ensures s == t
  {
    if s != [] {
      assert s[0] in t && t[0] in s;
      HeadIsNearest(s, t[0]);
      HeadIsNearest(t, s[0]);
      forall x
        ensures x in s[1..] <==> x in t[1..]
      {
        if x in s {
          HeadIsNearest(s, x);
          HeadIsNearest(t, x);
        }
      }
      RisingUnique(s[1..], t[1..]);
    }
  }

  lemma SortRises(data: seq<Sample>, order: seq<int>)
    requires DistinctDepths(data) && StableSort(data, order, |data|)
    ensures Rising(Picked(data, order)) && forall x :: x in Picked(data, order) <==> x in data
  {
    var r := Picked(data, order);
    forall j, k | 0 <= j < k < |r|
      ensures r[j].depth < r[k].depth
    {
      assert Precedes(data, order[j], order[k]);
      var a, b := order[j], order[k];
      assert a != b && data[a].depth != data[b].depth;
    }
    forall x
      ensures x in r <==> x in data
    {
      if x in data {
        var i :| 0 <= i < |data| && data[i] == x;
        assert i in order;
        var k :| 0 <= k < |order| && order[k] == i;
        assert r[k] == x;
      }
    }
  }

  /**
   * Samples at distinct depths give the same colour whatever the order in which they arrived, so that of the
   * primitives and cells does not show.
   */
  lemma ArrivalOrderDoesNotShow(data: seq<Sample>, other: seq<Sample>, c: Rgba, d: Rgba)
    requires DistinctDepths(data) && DistinctDepths(other) && |data| == |other| <= MAX_DATA_PER_SAMPLE
    requires forall x :: x in data <==> x in other
    requires SampleGives(data, c) && SampleGives(other, d)
    ensures c == d
  {
    var a :| OrderGives(data, a, c);
    var b :| OrderGives(other, b, d);
    SortRises(data, a);
    SortRises(other, b);
    RisingUnique(Picked(data, a), Picked(other, b));
    forall ch: nat
      ensures Layers(data, a, ch) == Layers(other, b, ch)
    {
      forall k | 0 <= k < |a|
        ensures Layers(data, a, ch)[k] == Layers(other, b, ch)[k]
      {
        assert Picked(data, a)[k] == Picked(other, b)[k];
      }
    }
  }

  // ---------- the box filter is a mean ----------

  /** A sample list more adds what it gives, scaled. */
  lemma OneMoreSample(lists: seq<seq<Sample>>, more: seq<Sample>, oo: real, p: Rgba, c: Rgba)
    requires PixelGives(lists, oo, p) && SampleGives(more, c)
    ensures PixelGives(lists + [more], oo, Add(p, Scale(c, oo)))
  {
    var cs :| AllGive(lists, cs) && p == Scale(Sum(cs), oo);
    AllGiveMore(lists, cs, more, c);
    SumOfMore(cs, c);
    ScaleAdd(Sum(cs), c, oo);
  }

  lemma AllGiveMore(lists: seq<seq<Sample>>, cs: seq<Rgba>, more: seq<Sample>, c: Rgba)
    requires AllGive(lists, cs) && SampleGives(more, c)
    ensures AllGive(lists + [more], cs + [c])
  {
  }

  lemma SumOfMore(cs: seq<Rgba>, c: Rgba)
    ensures Sum(cs + [c]) == Add(Sum(cs), c)
  {
    assert (cs + [c])[..|cs|] == cs;
  }

  lemma ScaleAdd(a: Rgba, b: Rgba, k: real)
    ensures Scale(Add(a, b), k) == Add(Scale(a, k), Scale(b, k))
  {
    MulSum(k, a.r, b.r);
    MulSum(k, a.g, b.g);
    MulSum(k, a.b, b.b);
    MulSum(k, a.a, b.a);
  }

  /** If n samples all give c, a pixel scaled by 1 / n is c. */
  lemma EvenPixel(lists: seq<seq<Sample>>, oo: real, c: Rgba, p: Rgba)
    requires lists != [] && oo * (|lists| as real) == 1.0
    requires (forall k :: 0 <= k < |lists| ==> SampleGives(lists[k], c)) && PixelGives(lists, oo, p)
    ensures p == c
  {
    var cs :| AllGive(lists, cs) && p == Scale(Sum(cs), oo);
    forall k | 0 <= k < |cs|
      ensures cs[k] == c
    {
      GivesOnce(lists[k], cs[k], c);
    }
    SumOfSame(cs, c);
    Unscaled(c.r, |cs| as real, oo);
    Unscaled(c.g, |cs| as real, oo);
    Unscaled(c.b, |cs| as real, oo);
    Unscaled(c.a, |cs| as real, oo);
  }

  lemma Unscaled(x: real, n: real, oo: real)
    requires Mul(oo, n) == 1.0
    ensures Mul(Mul(x, n), oo) == x
  {
    MulAssoc(x, n, oo);
    MulOne(x);
    assert Mul(n, oo) == Mul(oo, n);
  }

  lemma {:induction false} SumOfSame(cs: seq<Rgba>, c: Rgba)
    requires forall k :: 0 <= k < |cs| ==> cs[k] == c
    ensures Sum(cs) == Scale(c, |cs| as real)
  {
    var n := |cs|;
    if n == 0 {
      MulZero(c.r);
      MulZero(c.g);
      MulZero(c.b);
      MulZero(c.a);
    } else {
      SumOfSame(cs[..n - 1], c);
      NextMultiple(c.r, n);
      NextMultiple(c.g, n);
      NextMultiple(c.b, n);
      NextMultiple(c.a, n);
    }
  }

  lemma NextMultiple(x: real, n: nat)
    requires n > 0
    ensures Mul(x, n as real) == Mul(x, (n - 1) as real) + x
  {
    MulSum(x, (n - 1) as real, 1.0);
    MulOne(x);
  }

  // ---------- the alpha ----------

  /** All the opacity of the first n samples, as they arrived. */
  function TotalOpacity(data: seq<Sample>, n: nat): real
    requires n <= |data|
  {
    if n == 0 then 0.0
    else TotalOpacity(data, n - 1) + (data[n - 1].oi.0 + data[n - 1].oi.1 + data[n - 1].oi.2)
  }

  function Distance(a: real, b: real): real { if a < b then b - a else a - b }

  /** a is the number from 0 to 1 that is nearest to m. */
  ghost predicate Nearest(a: real, m: real) {
    0.0 <= a <= 1.0 && forall t :: 0.0 <= t <= 1.0 ==> Distance(a, m) <= Distance(t, m)
  }

  /** The opacity of the samples in the given order. */
  function OpacityInOrder(data: seq<Sample>, order: seq<int>): real
    requires Refers(data, order)
  {
    if order == [] then 0.0
    else
      var s := data[order[0]];
      OpacityInOrder(data, order[1..]) + (s.oi.0 + s.oi.1 + s.oi.2)
  }

  lemma OpacityOfFirst(data: seq<Sample>, order: seq<int>, ch: nat)
    requires Refers(data, order) && order != []
    ensures OpacitySum(Layers(data, order, ch)) == OpacitySum(Layers(data, order[1..], ch))
            + Pick(data[order[0]].oi, ch)
  {
    assert order[0..] == order;
    InFront(data, order, 0, ch);
  }

  lemma {:induction false} ChannelsAddUp(data: seq<Sample>, order: seq<int>)
    requires Refers(data, order)
    ensures OpacitySum(Layers(data, order, 0)) + OpacitySum(Layers(data, order, 1)) + OpacitySum(Layers(data, order, 2))
         == OpacityInOrder(data, order)
  {
    if order != [] {
      ChannelsAddUp(data, order[1..]);
      OpacityOfFirst(data, order, 0);
      OpacityOfFirst(data, order, 1);
      OpacityOfFirst(data, order, 2);
    }
  }

  function Without(order: seq<int>, p: nat): (rest: seq<int>)
    requires p < |order|
    ensures |rest| == |order| - 1
    ensures forall k :: 0 <= k < |rest| ==> rest[k] == order[if k < p then k else k + 1]
  {
    order[..p] + order[p + 1..]
  }

  lemma {:induction false} TakenOut(data: seq<Sample>, order: seq<int>, p: nat)
    requires Refers(data, order) && p < |order|
    ensures var s := data[order[p]];
            OpacityInOrder(data, order) == OpacityInOrder(data, Without(order, p)) + (s.oi.0 + s.oi.1 + s.oi.2)
  {
    if p == 0 {
      assert Without(order, 0) == order[1..];
    } else {
      TakenOut(data, order[1..], p - 1);
      assert Without(order, p)[1..] == Without(order[1..], p - 1);
    }
  }

  /** Each of the first n samples is in the order, and once. */
  ghost predicate Permutes(order: seq<int>, n: nat) {
    && |order| == n && (forall k :: 0 <= k < n ==> 0 <= order[k] < n)
    && (forall j, k :: 0 <= j < k < n ==> order[j] != order[k]) && forall i :: 0 <= i < n ==> i in order
  }

  /** It does not depend on the order. */
  lemma {:induction false} OpacityInAnyOrder(data: seq<Sample>, order: seq<int>, n: nat)
    requires n <= |data| && Permutes(order, n)
    ensures OpacityInOrder(data, order) == TotalOpacity(data, n)
  {
    if n > 0 {
      assert n - 1 in order;
      var p :| 0 <= p < |order| && order[p] == n - 1;
      var rest := Without(order, p);
      TakenOut(data, order, p);
      StillPermutes(order, n, p);
      OpacityInAnyOrder(data, rest, n - 1);
    }
  }

  lemma StillPermutes(order: seq<int>, n: nat, p: nat)
    requires Permutes(order, n) && p < n && order[p] == n - 1
    ensures Permutes(Without(order, p), n - 1)
  {
    var rest := Without(order, p);
    forall i | 0 <= i < n - 1
      ensures i in rest
    {
      assert i in order;
      var k :| 0 <= k < |order| && order[k] == i;
      assert rest[if k < p then k else k - 1] == i;
    }
  }

  /** The alpha of a sample list is the number from 0 to 1 nearest to a third of all the opacity it received. */
  lemma AlphaIsNearestMean(data: seq<Sample>, c: Rgba)
    requires SampleGives(data, c) && data != []
    ensures Nearest(c.a, TotalOpacity(data, Used(data)) / 3.0)
  {
    var order :| OrderGives(data, order, c);
    ChannelsAddUp(data, order);
    assert forall j, k :: 0 <= j < k < |order| ==> Precedes(data, order[j], order[k]);
    OpacityInAnyOrder(data, order, Used(data));
    ClampIsNearest(TotalOpacity(data, Used(data)) / 3.0);
  }

  lemma ClampIsNearest(m: real)
    ensures Nearest(Clamp(m, 0.0, 1.0), m)
  {
  }
}
