/** The buffered generator, whatever its word operations, and the infinite recurrence it produces word by word. */
module TwistBuffer {

  const N: int := 624
  const M: int := 397

  /** The word operations: the first word of a seed, the seeding step, the word stored by a reload, the output. */
  datatype Rule<!W> = Rule(start: W -> W, step: W -> W, join: (W, W, W) -> W, out: W -> W)

  /** The recurrence: a start, 623 seeding steps, then each word from those 227, 624 and 623 before it. */
  function Gen<W>(r: Rule<W>, seed: W, k: nat): W {
    if k == 0 then r.start(seed)
    else if k < 624 then r.step(Gen(r, seed, k - 1))
    else r.join(Gen(r, seed, k - 227), Gen(r, seed, k - 624), Gen(r, seed, k - 623))
  }

  ghost function Stream<W>(r: Rule<W>, seed: W): nat -> W {
    (k: nat) => Gen(r, seed, k)
  }

  ghost predicate ObeysAt<W>(x: nat -> W, r: Rule<W>, k: nat) {
    x(k + 624) == r.join(x(k + 397), x(k), x(k + 1))
  }

  ghost predicate Obeys<W>(x: nat -> W, r: Rule<W>) {
    forall k: nat :: ObeysAt(x, r, k)
  }

  lemma StreamObeys<W>(r: Rule<W>, seed: W)
    ensures Obeys(Stream(r, seed), r)
  {
    var x := Stream(r, seed);
    forall k: nat
      ensures ObeysAt(x, r, k)
    {
      assert x(k + 624) == Gen(r, seed, k + 624);
    }
  }

  /** The state words hold the stream from `at` on, the first `done` of them already one round further. */
  ghost predicate Holds<W>(words: seq<W>, x: nat -> W, at: nat, done: nat) {
    && |words| == 625
    && forall i :: 0 <= i < 624 ==> words[i] == x(if i < done then at + 624 + i else at + i)
  }

  lemma NextWord<W>(words: seq<W>, r: Rule<W>, x: nat -> W, at: nat, i: nat, m: nat)
    requires Obeys(x, r) && Holds(words, x, at, i) && i < 624 && m == (if i < 227 then i + 397 else i - 227)
    ensures Holds(words[i := r.join(words[m], x(at + i), x(at + i + 1))], x, at, i + 1)
  {
    assert ObeysAt(x, r, at + i);
    assert words[m] == x(at + i + 397);
  }

  class Buffer<W(0)> {
    const rule: Rule<W>
    const state: array<W>
    var next: int
    var initseed: W
    var left: int
    // The recurrence from the last seed, how often the state was reloaded since, and how many numbers were drawn.
    ghost var stream: nat -> W
    ghost var rounds: nat
    ghost var drawn: nat

    ghost predicate Loaded(at: nat)
      reads this, state
    {
      state.Length == 625 && Obeys(stream, rule) && Holds(state[..], stream, at, 0)
    }

    ghost predicate Valid()
      reads this, state
    {
      && Loaded(624 * rounds)
      && left == 624 * rounds - drawn && 0 <= left < 624
      && (rounds > 0 ==> next == 624 - left)
    }

    constructor (rule: Rule<W>, seed: W)
      ensures Valid() && fresh(state) && this.rule == rule && stream == Stream(rule, seed) && drawn == 0
    {
      this.rule := rule;
      state := new W[625];
      next := 0;
      initseed := seed;
      stream := Stream(rule, seed);
      new;
      Seed(seed);
    }

    method Seed(seed: W)
      requires state.Length == 625
      modifies this, state
      ensures Valid() && initseed == seed && stream == Stream(rule, seed) && drawn == 0
    {
      initseed := seed;
      var x := rule.start(seed);
      left, rounds, drawn, stream := 0, 0, 0, Stream(rule, seed);
      StreamObeys(rule, seed);
      state[0] := x;
      var s, j := 1, N - 1;
      while j > 0
        invariant s == 624 - j && 1 <= s <= 624 && x == Gen(rule, seed, s - 1)
        invariant forall i :: 0 <= i < s ==> state[i] == Gen(rule, seed, i)
        invariant initseed == seed && left == 0 && rounds == 0 && drawn == 0 && stream == Stream(rule, seed)
      {
        x := rule.step(x);
        state[s] := x;
        s, j := s + 1, j - 1;
      }
    }

    /** One word of the reload. */
    method StoreWord(p0: nat, pM: nat, s0: W, s1: W, ghost at: nat)
      requires state.Length == 625 && Obeys(stream, rule) && Holds(state[..], stream, at, p0)
      requires p0 < 624 && pM == (if p0 < 227 then p0 + 397 else p0 - 227)
      requires s0 == stream(at + p0) && s1 == stream(at + p0 + 1)
      modifies state
      ensures Holds(state[..], stream, at, p0 + 1)
    {
      ghost var words := state[..];
      NextWord(words, rule, stream, at, p0, pM);
      var w := rule.join(state[pM], s0, s1);
      state[p0] := w;
      assert state[..] == words[p0 := w];
    }

    /** The three parts of the reload, in place; the last word it reads is the spare one, which is not used. */
    method ReloadWords(ghost at: nat) returns (first: W)
      requires Loaded(at)
      modifies state
      ensures Loaded(at + 624) && first == stream(at + 624)
    {
      var p0, p2, pM := 0, 2, M;
      var s0, s1 := state[0], state[1];
      var j := N - M;
      while j > 0
        invariant 0 <= j && p0 == 227 - j && pM == p0 + 397 && p2 == p0 + 2
        invariant Holds(state[..], stream, at, p0)
        invariant s0 == stream(at + p0) && s1 == stream(at + p0 + 1)
      {
        StoreWord(p0, pM, s0, s1, at);
        s0, s1 := s1, state[p2];
        p0, p2, pM, j := p0 + 1, p2 + 1, pM + 1, j - 1;
      }
      pM, j := 0, M - 1;
      while j > 0
        invariant 0 <= j && p0 == 623 - j && pM == p0 - 227 && p2 == p0 + 2
        invariant Holds(state[..], stream, at, p0)
        invariant s0 == stream(at + p0) && (j > 0 ==> s1 == stream(at + p0 + 1))
      {
        StoreWord(p0, pM, s0, s1, at);
        s0, s1 := s1, state[p2];
        p0, p2, pM, j := p0 + 1, p2 + 1, pM + 1, j - 1;
      }
      s1 := state[0];
      StoreWord(p0, pM, s0, s1, at);
      first := s1;
    }

    /** Called when nothing is left; a count below -1 means that the generator has to be seeded again. */
    method Reload() returns (y: W)
      requires left <= -1 && Loaded(624 * rounds) && (left == -1 ==> drawn == 624 * rounds)
      modifies this, state
      ensures Valid() && initseed == old(initseed)
      ensures stream == if old(left) < -1 then Stream(rule, initseed) else old(stream)
      ensures var t := if old(left) < -1 then 0 else old(drawn); drawn == t + 1 && y == rule.out(stream(624 + t))
    {
      if left < -1 {
        Seed(initseed);
      }
      left, next := N - 1, 1;
      var s1 := ReloadWords(624 * rounds);
      rounds, drawn := rounds + 1, drawn + 1;
      y := rule.out(s1);
    }

    /** Draw number t is the output of word 624 + t of the recurrence; the generator is never seeded again. */
    method Random() returns (y: W)
      requires Valid()
      modifies this, state
      ensures Valid() && initseed == old(initseed) && stream == old(stream)
      ensures drawn == old(drawn) + 1 && y == rule.out(stream(624 + old(drawn)))
    {
      left := left - 1;
      if left < 0 {
        y := Reload();
      } else {
        y := rule.out(state[next]);
        next, drawn := next + 1, drawn + 1;
      }
    }
  }

  ghost predicate Drawn<W>(ys: seq<W>, rule: Rule<W>, x: nat -> W) {
    forall t :: 0 <= t < |ys| ==> ys[t] == rule.out(x(624 + t))
  }

  /** One more draw. */
  method DrawNext<W(0)>(g: Buffer<W>, ys: seq<W>) returns (more: seq<W>)
    requires g.Valid() && g.drawn == |ys| && Drawn(ys, g.rule, g.stream)
    modifies g, g.state
    ensures g.Valid() && g.stream == old(g.stream) && |more| == |ys| + 1 == g.drawn && Drawn(more, g.rule, g.stream)
  {
    var y := g.Random();
    more := ys + [y];
  }

  /** The first n draws of a new generator. */
  method DrawMany<W(0)>(rule: Rule<W>, seed: W, n: nat) returns (ys: seq<W>)
    ensures |ys| == n && Drawn(ys, rule, Stream(rule, seed))
  {
    var g := new Buffer(rule, seed);
    ghost var x := g.stream;
    ys := [];
    while |ys| < n
      invariant fresh(g) && fresh(g.state) && g.Valid() && g.rule == rule && g.stream == x
      invariant |ys| <= n && g.drawn == |ys| && Drawn(ys, rule, x)
    {
      ys := DrawNext(g, ys);
    }
  }
}

/** The Mersenne Twister on 32-bit words. */
module RandMT {
  import opened TwistBuffer

  const K: bv32 := 0x9908B0DF

  function HiBit(u: bv32): bv32 { u & 0x80000000 }
  function LoBit(u: bv32): bv32 { u & 0x00000001 }
  function LoBits(u: bv32): bv32 { u & 0x7FFFFFFF }
  function MixBits(u: bv32, v: bv32): bv32 { HiBit(u) | LoBits(v) }

  function Magic(v: bv32): bv32 { if LoBit(v) != 0 then K else 0 }

  /** The word that the reload loops store. */
  function Reloaded(m: bv32, u: bv32, v: bv32): bv32 { (m ^ (MixBits(u, v) >> 1)) ^ Magic(v) }

  /** The twist of two words: the top bit of u and the rest of v, halved and reduced. */
  function Twist(u: bv32, v: bv32): bv32 { (MixBits(u, v) >> 1) ^ Magic(v) }

  /** The top bit comes from u and the 31 others from v, and only the lowest of those decides about the constant. */
  lemma MixedBits(u: bv32, v: bv32)
    ensures MixBits(u, v) >> 31 == u >> 31 && MixBits(u, v) << 1 == v << 1
    ensures Magic(v) == if v << 31 == 0 then 0 else 0x9908B0DF
  {
  }

  // ---------- tempering ----------

  function Xor(a: bv32, b: bv32): bv32 { a ^ b }
  function Down11(y: bv32): bv32 { y >> 11 }
  function Down18(y: bv32): bv32 { y >> 18 }
  function Up7(y: bv32): bv32 { (y << 7) & 0x9D2C5680 }
  function Up15(y: bv32): bv32 { (y << 15) & 0xEFC60000 }

  // The four steps of the tempering.
  function Right11(y: bv32): bv32 { Xor(y, Down11(y)) }
  function Left7(y: bv32): bv32 { Xor(y, Up7(y)) }
  function Left15(y: bv32): bv32 { Xor(y, Up15(y)) }
  function Right18(y: bv32): bv32 { Xor(y, Down18(y)) }

  function Temper(y: bv32): bv32 { Right18(Left15(Left7(Right11(y)))) }

  function UnRight11(z: bv32): bv32 { Xor(z, Down11(Right11(z))) }
  function UnLeft7(z: bv32): bv32 { Xor(z, Up7(Xor(z, Up7(Xor(z, Up7(Left7(z))))))) }

  /** The inverse; two of the steps undo themselves. */
  function Untemper(z: bv32): bv32 { UnRight11(UnLeft7(Left15(Right18(z)))) }

  lemma XorCancels(a: bv32, b: bv32, c: bv32)
    ensures Xor(Xor(a, b), Xor(b, c)) == Xor(a, c) && Xor(a, 0) == a
  {
  }

  lemma DownXor(a: bv32, b: bv32)
    ensures Down11(Xor(a, b)) == Xor(Down11(a), Down11(b)) && Down18(Xor(a, b)) == Xor(Down18(a), Down18(b))
  {
  }

  lemma UpXor(a: bv32, b: bv32)
    ensures Up7(Xor(a, b)) == Xor(Up7(a), Up7(b)) && Up15(Xor(a, b)) == Xor(Up15(a), Up15(b))
  {
  }

  lemma DownToZero(y: bv32)
    ensures Down11(Down11(Down11(y))) == 0 && Down18(Down18(y)) == 0
  {
  }

  lemma UpToZero(y: bv32)
    ensures Up7(Up7(Up7(Up7(Up7(y))))) == 0 && Up15(Up15(y)) == 0
  {
  }

  lemma Right11Undone(y: bv32)
    ensures UnRight11(Right11(y)) == y
  {
    var d := Down11(y);
    DownXor(y, d);
    XorCancels(y, d, Down11(d));
    DownXor(y, Down11(d));
    DownToZero(y);
    XorCancels(y, d, 0);
  }

  lemma Right18Undone(y: bv32)
    ensures Right18(Right18(y)) == y
  {
    DownXor(y, Down18(y));
    DownToZero(y);
    XorCancels(y, Down18(y), 0);
  }

  /** Each turn takes what is left over one shift further up. */
  lemma Left7Undone(y: bv32)
    ensures UnLeft7(Left7(y)) == y
  {
    var u1 := Up7(y);
    var u2 := Up7(u1);
    var u3 := Up7(u2);
    var u4 := Up7(u3);
    UpXor(y, u1);
    XorCancels(y, u1, u2);
    UpXor(y, u2);
    XorCancels(y, u1, u3);
    UpXor(y, u3);
    XorCancels(y, u1, u4);
    UpXor(y, u4);
    UpToZero(y);
    XorCancels(y, u1, 0);
  }

  lemma Left15Undone(y: bv32)
    ensures Left15(Left15(y)) == y
  {
    UpXor(y, Up15(y));
    UpToZero(y);
    XorCancels(y, Up15(y), 0);
  }

  /** Each word can be read back from its tempered value, so that no two words are tempered alike. */
  lemma TemperUndone(y: bv32)
    ensures Untemper(Temper(y)) == y
  {
    Right18Undone(Left15(Left7(Right11(y))));
    Left15Undone(Left7(Right11(y)));
    Left7Undone(Right11(y));
    Right11Undone(y);
  }

  lemma XorSwap(a: bv32, b: bv32, c: bv32, d: bv32)
    ensures Xor(Xor(a, b), Xor(c, d)) == Xor(Xor(a, c), Xor(b, d))
  {
    XorMoves(a, b, Xor(c, d));
    XorMoves(b, c, d);
    XorMoves(c, b, d);
    XorMoves(a, c, Xor(b, d));
  }

  lemma XorMoves(a: bv32, b: bv32, c: bv32)
    ensures Xor(Xor(a, b), c) == Xor(a, Xor(b, c)) && Xor(a, b) == Xor(b, a)
  {
  }

  lemma Right11Xor(a: bv32, b: bv32)
    ensures Right11(Xor(a, b)) == Xor(Right11(a), Right11(b))
  {
    DownXor(a, b);
    XorSwap(a, b, Down11(a), Down11(b));
  }

  lemma Right18Xor(a: bv32, b: bv32)
    ensures Right18(Xor(a, b)) == Xor(Right18(a), Right18(b))
  {
    DownXor(a, b);
    XorSwap(a, b, Down18(a), Down18(b));
  }

  lemma Left7Xor(a: bv32, b: bv32)
    ensures Left7(Xor(a, b)) == Xor(Left7(a), Left7(b))
  {
    UpXor(a, b);
    XorSwap(a, b, Up7(a), Up7(b));
  }

  lemma Left15Xor(a: bv32, b: bv32)
    ensures Left15(Xor(a, b)) == Xor(Left15(a), Left15(b))
  {
    UpXor(a, b);
    XorSwap(a, b, Up15(a), Up15(b));
  }

  /** Tempering is linear, and so given by what it makes of each bit. */
  lemma TemperXor(a: bv32, b: bv32)
    ensures Temper(Xor(a, b)) == Xor(Temper(a), Temper(b))
  {
    Right11Xor(a, b);
    Left7Xor(Right11(a), Right11(b));
    Left15Xor(Left7(Right11(a)), Left7(Right11(b)));
    Right18Xor(Left15(Left7(Right11(a))), Left15(Left7(Right11(b))));
  }

  lemma TemperBits0()
    ensures Temper(0x1) == 0x00400091 && Temper(0x2) == 0x00000002
    ensures Temper(0x4) == 0x01020244 && Temper(0x8) == 0x02040489
    ensures Temper(0x10) == 0x00000010 && Temper(0x20) == 0x08001220
    ensures Temper(0x40) == 0x00000040 && Temper(0x80) == 0x20404890
  {
  }

  lemma TemperBits8()
    ensures Temper(0x100) == 0x00800120 && Temper(0x200) == 0x01000240
    ensures Temper(0x400) == 0x02000480 && Temper(0x800) == 0x04440990
    ensures Temper(0x1000) == 0x08081200 && Temper(0x2000) == 0x01022244
    ensures Temper(0x4000) == 0x22244C81 && Temper(0x8000) == 0x40009010
  {
  }

  lemma TemperBits16()
    ensures Temper(0x10000) == 0x88013220 && Temper(0x20000) == 0x01020000
    ensures Temper(0x40000) == 0x20444891 && Temper(0x80000) == 0x04880022
    ensures Temper(0x100000) == 0x09100044 && Temper(0x200000) == 0x12200088
    ensures Temper(0x400000) == 0x04440911 && Temper(0x800000) == 0x08881222
  {
  }

  lemma TemperBits24()
    ensures Temper(0x1000000) == 0x81000040 && Temper(0x2000000) == 0x22204888
    ensures Temper(0x4000000) == 0x44009100 && Temper(0x8000000) == 0x88012200
    ensures Temper(0x10000000) == 0x11020440 && Temper(0x20000000) == 0x20040801
    ensures Temper(0x40000000) == 0x44081102 && Temper(0x80000000) == 0x88102204
  {
  }

  ghost predicate Halves(h: bv32, u: bv32, v: bv32) {
    h >> 30 == u >> 31 && h << 2 == (v >> 1) << 2
  }

  /** Without its constant the twist is the top bit of u at 30 and, below it, v without its lowest bit. */
  lemma TwistOfBits(u: bv32, v: bv32)
    ensures Halves(Xor(Twist(u, v), Magic(v)), u, v)
  {
    XorUndone(MixBits(u, v) >> 1, Magic(v));
    Halved(u, v);
  }

  lemma XorUndone(a: bv32, b: bv32)
    ensures Xor(a ^ b, b) == a
  {
  }

  lemma Halved(u: bv32, v: bv32)
    ensures Halves(MixBits(u, v) >> 1, u, v)
  {
  }

  function Times69069(x: bv32): bv32 { x * 69069 }

  /** x[0] = seed | 1, x[k] = 69069 x[k-1] up to 623, then x[k+624] = x[k+397] xor twist(x[k], x[k+1]). */
  function X(seed: bv32, k: nat): bv32 {
    if k == 0 then seed | 1
    else if k < 624 then Times69069(X(seed, k - 1))
    else X(seed, k - 227) ^ Twist(X(seed, k - 624), X(seed, k - 623))
  }

  function MakeOdd(seed: bv32): bv32 { seed | 1 }

  function Mersenne(): Rule<bv32> { Rule(MakeOdd, Times69069, Reloaded, Temper) }

  lemma ReloadedIsTwist(m: bv32, u: bv32, v: bv32)
    ensures Reloaded(m, u, v) == m ^ Twist(u, v)
  {
    XorAssoc(m, MixBits(u, v) >> 1, Magic(v));
  }

  lemma XorAssoc(a: bv32, b: bv32, c: bv32)
    ensures (a ^ b) ^ c == a ^ (b ^ c)
  {
  }

  lemma {:induction false} GenIsX(seed: bv32, k: nat)
    ensures Gen(Mersenne(), seed, k) == X(seed, k)
  {
    if k == 0 {
    } else if k < 624 {
      GenIsX(seed, k - 1);
    } else {
      GenIsX(seed, k - 227);
      GenIsX(seed, k - 624);
      GenIsX(seed, k - 623);
      ReloadedIsTwist(X(seed, k - 227), X(seed, k - 624), X(seed, k - 623));
    }
  }

  lemma DrawIsTempered(seed: bv32, t: nat)
    ensures Mersenne().out(Stream(Mersenne(), seed)(624 + t)) == Temper(X(seed, 624 + t))
  {
    GenIsX(seed, 624 + t);
  }

  /** A new generator's draws are the tempered words of the recurrence from number 624 on. */
  method Draws(seed: bv32, n: nat) returns (ys: seq<bv32>)
    ensures |ys| == n && forall t :: 0 <= t < n ==> ys[t] == Temper(X(seed, 624 + t))
    ensures forall t :: 0 <= t < n ==> Untemper(ys[t]) == X(seed, 624 + t)
  {
    ys := DrawMany(Mersenne(), seed, n);
    forall t | 0 <= t < n
      ensures ys[t] == Temper(X(seed, 624 + t)) && Untemper(ys[t]) == X(seed, 624 + t)
    {
      DrawIsTempered(seed, t);
      TemperUndone(X(seed, 624 + t));
    }
  }
}
