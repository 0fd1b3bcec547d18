/** Primitives and what a split makes of one: the pieces, the area they cover, and how many can descend from it. */
module Pieces {
  import opened Common

  datatype Range = Range(lo: real, hi: real) {
    function Mid(): real { (lo + hi) * 0.5 }
    /** Half open, so that two halves share no point; a range may run downwards. */
    predicate Has(t: real) { lo <= t < hi || hi <= t < lo }
  }

  /** The geometry and the shared states of a primitive: what its clones keep. */
  datatype Key = Key(geom: nat, attribs: nat, transform: nat)

  /** A complex primitive is only ever turned into its patches, given by their geometry. */
  datatype Kind = Simple | Complex(parts: seq<nat>)

  datatype Prim = Prim(kind: Kind, key: Key, u: Range, v: Range, splitCnt: nat, refCnt: nat, grid: Option<(int, int)>)

  datatype Bound = Bound(minX: int, minY: int, maxX: int, maxY: int)

  /** What CheckForSplit can say of a primitive. */
  datatype Answer = Dice(bound: Bound, wd: int, he: int) | Cull | Split(uSplit: bool, vSplit: bool)

  /** A newly made simple primitive: unit ranges, no reference yet. */
  function NewSimple(key: Key): Prim {
    Prim(Simple, key, Range(0.0, 1.0), Range(0.0, 1.0), 0, 0, None)
  }

  // ---------- splitting ----------

  /** The copy of p over the given ranges, once inserted with the given count. */
  function Piece(p: Prim, u: Range, v: Range, splitCnt: nat): Prim {
    p.(u := u, v := v, splitCnt := splitCnt, refCnt := 1)
  }

  /** The primitives that Split leaves in the list, in the order of insertion. */
  function PiecesOf(p: Prim, uSplit: bool, vSplit: bool): seq<Prim> {
    var u1, u2 := Range(p.u.lo, p.u.Mid()), Range(p.u.Mid(), p.u.hi);
    var v1, v2 := Range(p.v.lo, p.v.Mid()), Range(p.v.Mid(), p.v.hi);
    var c := p.splitCnt;
    if c > 9 then []
    else if uSplit && vSplit then
      [Piece(p, u1, v1, c + 1), Piece(p, u2, v1, c + 1), Piece(p, u1, v2, c + 2), Piece(p, u2, v2, c + 2)]
    else if uSplit then [Piece(p, u1, p.v, c + 1), Piece(p, u2, p.v, c + 1)]
    else if vSplit then [Piece(p, p.u, v1, c + 1), Piece(p, p.u, v2, c + 1)]
    else []
  }

  /** The new primitives that handling p leaves in the list. */
  function Made(p: Prim, ans: Answer): seq<Prim> {
    if ans.Split? then PiecesOf(p, ans.uSplit, ans.vSplit) else []
  }

  // ---------- sums over primitives ----------

  ghost function SumOf(ps: seq<Prim>, f: Prim -> nat): nat {
    if ps == [] then 0 else f(ps[0]) + SumOf(ps[1..], f)
  }

  lemma {:induction false} SumOfConcat(ps: seq<Prim>, qs: seq<Prim>, f: Prim -> nat)
    ensures SumOf(ps + qs, f) == SumOf(ps, f) + SumOf(qs, f)
  {
    if ps == [] {
      assert ps + qs == qs;
    } else {
      assert (ps + qs)[1..] == ps[1..] + qs;
      SumOfConcat(ps[1..], qs, f);
    }
  }

  /** p is a piece of `key` and holds the point (u, v). */
  predicate Holds(p: Prim, key: Key, u: real, v: real) {
    p.key == key && p.u.Has(u) && p.v.Has(v)
  }

  ghost function CoverAt(key: Key, u: real, v: real): Prim -> nat {
    (p: Prim) => if Holds(p, key, u, v) then 1 else 0
  }

  /** Exactly one of ps holds the point. */
  ghost predicate HeldOnce(ps: seq<Prim>, key: Key, u: real, v: real) {
    exists k :: 0 <= k < |ps| && Holds(ps[k], key, u, v) && forall j :: 0 <= j < |ps| && j != k ==>
        !Holds(ps[j], key, u, v)
  }

  lemma {:induction false} CoverNone(ps: seq<Prim>, key: Key, u: real, v: real)
    ensures SumOf(ps, CoverAt(key, u, v)) == 0 <==> forall k :: 0 <= k < |ps| ==> !Holds(ps[k], key, u, v)
  {
    if ps != [] {
      CoverNone(ps[1..], key, u, v);
      assert forall k :: 0 < k < |ps| ==> ps[k] == ps[1..][k - 1];
    }
  }

  lemma {:induction false} CoverOnce(ps: seq<Prim>, key: Key, u: real, v: real)
    requires SumOf(ps, CoverAt(key, u, v)) == 1
    ensures HeldOnce(ps, key, u, v)
  {
    assert forall k :: 0 < k < |ps| ==> ps[k] == ps[1..][k - 1];
    CoverNone(ps[1..], key, u, v);
    if Holds(ps[0], key, u, v) {
      assert forall j :: 0 <= j < |ps| && j != 0 ==> !Holds(ps[j], key, u, v);
    } else {
      CoverOnce(ps[1..], key, u, v);
      var k :| 0 <= k < |ps[1..]| && Holds(ps[1..][k], key, u, v) && forall j :: 0 <= j < |ps[1..]| && j != k ==>
          !Holds(ps[1..][j], key, u, v);
      assert Holds(ps[k + 1], key, u, v);
      assert forall j :: 0 <= j < |ps| && j != k + 1 ==> !Holds(ps[j], key, u, v);
    }
  }

  // ---------- what a split keeps ----------

  lemma HalvesSplit(r: Range, t: real)
    ensures r.Has(t) <==> Range(r.lo, r.Mid()).Has(t) || Range(r.Mid(), r.hi).Has(t)
    ensures !(Range(r.lo, r.Mid()).Has(t) && Range(r.Mid(), r.hi).Has(t))
  {
  }

  /** The pieces tile the primitive: each point it holds is in exactly one of them, and no other point in any. */
  lemma PiecesTile(p: Prim, uSplit: bool, vSplit: bool, key: Key, u: real, v: real)
    requires PiecesOf(p, uSplit, vSplit) != []
    ensures SumOf(PiecesOf(p, uSplit, vSplit), CoverAt(key, u, v)) == CoverAt(key, u, v)(p)
  {
    HalvesSplit(p.u, u);
    HalvesSplit(p.v, v);
    var ps := PiecesOf(p, uSplit, vSplit);
    var f := CoverAt(key, u, v);
    if uSplit && vSplit {
      SumOfFour(ps[0], ps[1], ps[2], ps[3], f);
      assert ps == [ps[0], ps[1], ps[2], ps[3]];
    } else {
      SumOfTwo(ps[0], ps[1], f);
      assert ps == [ps[0], ps[1]];
    }
  }

  lemma SumOfTwo(a: Prim, b: Prim, f: Prim -> nat)
    ensures SumOf([a, b], f) == f(a) + f(b)
  {
    assert [a, b] == [a] + [b];
    SumOfConcat([a], [b], f);
  }

  lemma SumOfFour(a: Prim, b: Prim, c: Prim, d: Prim, f: Prim -> nat)
    ensures SumOf([a, b, c, d], f) == f(a) + f(b) + f(c) + f(d)
  {
    assert [a, b, c, d] == [a, b] + [c, d];
    SumOfConcat([a, b], [c, d], f);
    SumOfTwo(a, b, f);
    SumOfTwo(c, d, f);
  }

  /** The most primitives, itself included, that can descend from one at split count c. */
  function Budget(c: nat): (t: nat)
    ensures t >= 1
    decreases 10 - c
  {
    if c > 9 then 1 else 1 + 2 * Budget(c + 1) + 2 * Budget(c + 2)
  }

  ghost function BudgetOf(key: Key): Prim -> nat {
    (p: Prim) => if p.key == key then Budget(p.splitCnt) else 0
  }

  ghost function AnyBudget(): Prim -> nat {
    (p: Prim) => Budget(p.splitCnt)
  }

  /** The pieces' budgets fit in what is left of the primitive's own. */
  lemma PiecesFitBudget(p: Prim, ans: Answer, key: Key)
    ensures SumOf(Made(p, ans), AnyBudget()) + 1 <= Budget(p.splitCnt)
    ensures SumOf(Made(p, ans), BudgetOf(key)) + (if p.key == key then 1 else 0) <= BudgetOf(key)(p)
  {
    var ps := Made(p, ans);
    if |ps| == 4 {
      SumOfFour(ps[0], ps[1], ps[2], ps[3], AnyBudget());
      SumOfFour(ps[0], ps[1], ps[2], ps[3], BudgetOf(key));
      assert ps == [ps[0], ps[1], ps[2], ps[3]];
    } else if |ps| == 2 {
      SumOfTwo(ps[0], ps[1], AnyBudget());
      SumOfTwo(ps[0], ps[1], BudgetOf(key));
      assert ps == [ps[0], ps[1]];
    }
  }

  /** Every piece is simple, has one reference and its primitive's geometry and states, and is not yet diced. */
  lemma PiecesKeep(p: Prim, ans: Answer, k: nat)
    requires k < |Made(p, ans)|
    ensures var q := Made(p, ans)[k];
            && q.kind == p.kind && q.key == p.key && q.refCnt == 1 && q.grid == p.grid
            && p.splitCnt < q.splitCnt <= 11
  {
  }

  ghost predicate AllHeldOnce(ps: seq<Prim>) {
    forall k :: 0 <= k < |ps| ==> ps[k].refCnt == 1
  }

  lemma PiecesHeldOnce(p: Prim, ans: Answer)
    ensures AllHeldOnce(Made(p, ans))
  {
    forall k | 0 <= k < |Made(p, ans)|
      ensures Made(p, ans)[k].refCnt == 1
    {
      PiecesKeep(p, ans, k);
    }
  }

  // ---------- the record of a run ----------

  /** A primitive taken from the list, as it was then, and what was said of it. */
  datatype Visit = Visit(id: int, p: Prim, ans: Answer) {
    /** It was diced, culled or lost; otherwise its parts stand for it. */
    predicate Final() { ans.Dice? || ans.Cull? || Lost() }

    /** It was to be split in no direction, or after more than nine splits. */
    predicate Lost() { ans.Split? && ((!ans.uSplit && !ans.vSplit) || p.splitCnt > 9) }
  }

  lemma FinalMakesNothing(visit: Visit)
    ensures visit.Final() <==> Made(visit.p, visit.ans) == []
  {
  }

  /** q is r, or the named half of it if it is split: both halves have the same length. */
  predicate IsHalf(q: Range, r: Range, split: bool, second: bool) {
    if !split then q == r
    else if second then q.hi == r.hi && q.lo - r.lo == q.hi - q.lo
    else q.lo == r.lo && q.hi - q.lo == r.hi - q.hi
  }

  /** q is a part of p after such a split: one of its two, or of its four quarters. */
  predicate IsPart(q: Prim, p: Prim, uSplit: bool, vSplit: bool, secondU: bool, secondV: bool) {
    && q.kind == p.kind && q.key == p.key
    && IsHalf(q.u, p.u, uSplit, secondU) && IsHalf(q.v, p.v, vSplit, secondV)
    && q.splitCnt == p.splitCnt + if uSplit && vSplit && secondV then 2 else 1
  }

  /** Every part is made. */
  lemma PartMade(p: Prim, uSplit: bool, vSplit: bool, secondU: bool, secondV: bool) returns (n: nat)
    requires (uSplit || vSplit) && p.splitCnt <= 9
    ensures n < |PiecesOf(p, uSplit, vSplit)|
    ensures IsPart(PiecesOf(p, uSplit, vSplit)[n], p, uSplit, vSplit, secondU, secondV)
  {
    n := (if uSplit && secondU then 1 else 0) + if !vSplit || !secondV then 0 else if uSplit then 2 else 1;
  }

  /** A point of p is in one of its parts. */
  lemma PartHolds(p: Prim, uSplit: bool, vSplit: bool, key: Key, u: real, v: real)
    returns (secondU: bool, secondV: bool)
    requires Holds(p, key, u, v)
    ensures forall q :: IsPart(q, p, uSplit, vSplit, secondU, secondV) ==> Holds(q, key, u, v)
  {
    secondU, secondV := !Range(p.u.lo, p.u.Mid()).Has(u), !Range(p.v.lo, p.v.Mid()).Has(v);
    HalvesSplit(p.u, u);
    HalvesSplit(p.v, v);
    forall q | IsPart(q, p, uSplit, vSplit, secondU, secondV)
      ensures Holds(q, key, u, v)
    {
      assert uSplit && secondU ==> q.u == Range(p.u.Mid(), p.u.hi);
      assert uSplit && !secondU ==> q.u == Range(p.u.lo, p.u.Mid());
      assert vSplit && secondV ==> q.v == Range(p.v.Mid(), p.v.hi);
      assert vSplit && !secondV ==> q.v == Range(p.v.lo, p.v.Mid());
    }
  }

  /** The primitives that were diced or culled. */
  ghost function Shown(log: seq<Visit>): seq<Prim> {
    if log == [] then []
    else
      var last := log[|log| - 1];
      Shown(log[..|log| - 1]) + if last.ans.Dice? || last.ans.Cull? then [last.p] else []
  }

  lemma {:induction false} FinalsAreShown(log: seq<Visit>)
    requires forall k :: 0 <= k < |log| ==> !log[k].Lost()
    ensures Finals(log) == Shown(log)
  {
    if log != [] {
      FinalsAreShown(log[..|log| - 1]);
    }
  }

  ghost function Finals(log: seq<Visit>): seq<Prim> {
    if log == [] then []
    else
      var last := log[|log| - 1];
      Finals(log[..|log| - 1]) + if last.Final() then [last.p] else []
  }

  ghost function Visited(log: seq<Visit>): seq<Prim> {
    seq(|log|, k requires 0 <= k < |log| => log[k].p)
  }

  ghost function One(key: Key): Prim -> nat {
    (p: Prim) => if p.key == key then 1 else 0
  }

  /** One more visit leaves what is final and what is pending covering the same. */
  lemma CoverStep(log: seq<Visit>, visit: Visit, rest: nat, key: Key, u: real, v: real)
    ensures var f := CoverAt(key, u, v);
            SumOf(Finals(log + [visit]), f) + rest + SumOf(Made(visit.p, visit.ans), f)
              == SumOf(Finals(log), f) + rest + f(visit.p)
  {
    var more, f := log + [visit], CoverAt(key, u, v);
    assert more[..|more| - 1] == log;
    FinalMakesNothing(visit);
    if visit.Final() {
      SumOfConcat(Finals(log), [visit.p], f);
    } else {
      assert Finals(more) == Finals(log);
      PiecesTile(visit.p, visit.ans.uSplit, visit.ans.vSplit, key, u, v);
    }
  }

  lemma BudgetStep(log: seq<Visit>, visit: Visit, rest: nat, key: Key)
    ensures SumOf(Visited(log + [visit]), One(key)) + rest + SumOf(Made(visit.p, visit.ans), BudgetOf(key))
         <= SumOf(Visited(log), One(key)) + rest + BudgetOf(key)(visit.p)
  {
    assert Visited(log + [visit]) == Visited(log) + [visit.p];
    SumOfConcat(Visited(log), [visit.p], One(key));
    PiecesFitBudget(visit.p, visit.ans, key);
  }
}
