/** The bit-packed writer and reader over byte vectors. */
module MemFile {
  import opened Bits

  datatype Result<T> = Ok(value: T) | OutOfRange

  /** Shifting within 32 bits drops what falls out, which is above the bits that count. */
  lemma {:induction false} LowShl(x: nat, c: nat, n: nat)
    requires c <= n
    ensures Low(Shl(x, c), n) == Shl(Low(x, n - c), c)
  {
    if c > 0 {
      LowShl(x, c - 1, n - 1);
      assert Shl(x, c) / 2 == Shl(x, c - 1) && Shl(x, c) % 2 == 0;
    }
  }

  lemma PushBits(acc: nat, y: nat, c: nat, n: nat)
    requires y == Low(y, c) && n + c <= 32
    ensures ToBits(Or(Low(Shl(acc, c), 32), y), n + c) == ToBits(acc, n) + ToBits(y, c)
  {
    LowShl(acc, c, 32);
    ShlOrBits(Low(acc, 32 - c), y, c, n);
    LowBits(acc, 32 - c, n);
  }

  /** The same when the accumulator is too full: what falls out of its 32 bits is lost, and zeros are read there. */
  lemma PushBitsLossy(acc: nat, y: nat, c: nat, n: nat, lost: nat)
    requires y == Low(y, c) && n + c == 32 + lost && lost <= n && c <= 32
    ensures ToBits(Or(Low(Shl(acc, c), 32), y), n + c) == Zeros(lost) + (ToBits(acc, n)[lost..] + ToBits(y, c))
  {
    var m, z := 32 - c, Or(Low(Shl(acc, c), 32), y);
    PushBits(acc, y, c, m);
    LowMore(y, c, 32);
    LowTwice(Shl(acc, c), 32);
    OrIsLow(Low(Shl(acc, c), 32), y, 32);
    HighBitsZero(z, 32, lost);
    ShrBits(acc, m, lost);
  }

  class MemWriterDynamic {
    var dest: seq<U8>
    var bits: nat
    var bitsCnt: nat

    /** All that has been written: the whole bytes and the bits still in the accumulator. */
    ghost function Written(): seq<bool>
      reads this
    {
      BytesBits(dest) + ToBits(bits, bitsCnt)
    }

    constructor ()
      ensures Written() == [] && bitsCnt == 0 && dest == []
    {
      dest, bits, bitsCnt := [], 0, 0;
    }

    /** Writes out the topmost 8 bits. */
    method PutByte()
      requires bitsCnt >= 8
      modifies this
      ensures Written() == old(Written()) && bitsCnt == old(bitsCnt) - 8 && |dest| == |old(dest)| + 1
    {
      ghost var k := bitsCnt - 8;
      var top := LowByte(Shr(bits, bitsCnt - 8));
      ShrBits(bits, k, 8);
      LowBits(Shr(bits, k), 8, 8);
      BytesBitsSnoc(dest, top);
      dest := dest + [top];
      bitsCnt := bitsCnt - 8;
      assert Written() == BytesBits(old(dest)) + (ToBits(top, 8) + ToBits(bits, k));
    }

    /** Shifts the low cnt bits of the value into the accumulator. */
    method Push(value: nat, cnt: nat)
      requires cnt <= 16 && bitsCnt < 8
      modifies this
      ensures Written() == old(Written()) + ToBits(value, cnt) && bitsCnt == old(bitsCnt) + cnt && dest == old(dest)
    {
      MaskIsLow(value, cnt);
      LowTwice(value, cnt);
      LowBits(value, cnt, cnt);
      PushBits(bits, Low(value, cnt), cnt, bitsCnt);
      bits := Low(Shl(bits, cnt), 32);
      bits := Or(bits, And(value, Ones(cnt)));
      bitsCnt := bitsCnt + cnt;
      assert Written() == BytesBits(old(dest)) + (ToBits(old(bits), old(bitsCnt)) + ToBits(value, cnt));
    }

    /** Appends the low cnt bits of the value; stale bits above those in use do no harm. */
    method WriteBits(value: nat, cnt: nat)
      requires cnt <= 16 && bitsCnt < 8
      modifies this
      ensures Written() == old(Written()) + ToBits(value, cnt) && bitsCnt < 8
      ensures 8 * |dest| + bitsCnt == 8 * |old(dest)| + old(bitsCnt) + cnt
    {
      Push(value, cnt);
      while bitsCnt >= 8
        invariant Written() == old(Written()) + ToBits(value, cnt)
        invariant 8 * |dest| + bitsCnt == 8 * |old(dest)| + old(bitsCnt) + cnt
      {
        PutByte();
      }
    }

    /** Fills the last byte with zeros. */
    method WriteBitsEnd()
      requires bitsCnt < 8
      modifies this
      ensures bitsCnt == 0 && Written() == BytesBits(dest) == old(Written()) + Zeros((8 - old(bitsCnt)) % 8)
    {
      if bitsCnt != 0 {
        WriteBits(0, 8 - bitsCnt);
        assert |dest| == |old(dest)| + 1;
      }
    }
  }

  /** The bits held after filling up from n by whole bytes until cnt are there. */
  function FilledTo(n: nat, cnt: nat): (r: nat)
    ensures r >= cnt && r >= n && (r < cnt + 8 || r == n)
    decreases cnt - n
  {
    if n < cnt then FilledTo(n + 8, cnt) else n
  }

  /** How many bits do not fit in the accumulator when it holds n. */
  function Over32(n: nat): (r: nat)
    ensures r <= n
  {
    if n > 32 then n - 32 else 0
  }

  /** `bits` with zeros in the place of the first ones. */
  function Cleared(bits: seq<bool>, lost: nat): (r: seq<bool>)
    requires lost <= |bits|
    ensures |r| == |bits|
  {
    Zeros(lost) + bits[lost..]
  }

  lemma ClearedNone(bits: seq<bool>)
    ensures Cleared(bits, 0) == bits
  {
  }

  /** The first cnt bits are those of `bits` exactly if zeros were lost. */
  lemma ClearedRight(bits: seq<bool>, lost: nat, cnt: nat)
    requires lost <= cnt <= |bits|
    ensures Cleared(bits, lost)[cnt..] == bits[cnt..] && Cleared(bits, lost)[..cnt] == Zeros(lost) + bits[lost..cnt]
    ensures Cleared(bits, lost)[..cnt] == bits[..cnt] <==> bits[..lost] == Zeros(lost)
  {
    var first := Cleared(bits, lost)[..cnt];
    assert first[..lost] == Zeros(lost) && bits[..cnt][..lost] == bits[..lost];
    assert first == Zeros(lost) + bits[lost..cnt];
    assert bits[..cnt] == bits[..lost] + bits[lost..cnt];
  }

  /** The top cnt of n bits, and what is left. */
  lemma TopBits(bits: nat, n: nat, cnt: nat, rest: seq<bool>)
    requires cnt <= n
    ensures var value := And(Shr(bits, n - cnt), Ones(cnt)); var all := ToBits(bits, n) + rest;
            ToBits(value, cnt) == all[..cnt] && ToBits(bits, n - cnt) + rest == all[cnt..] && value == Low(value, cnt)
  {
    var x := Shr(bits, n - cnt);
    ShrBits(bits, n - cnt, cnt);
    MaskIsLow(x, cnt);
    LowTwice(x, cnt);
    LowBits(x, cnt, cnt);
    Moves(ToBits(x, cnt), ToBits(bits, n - cnt), rest);
    SplitAtCount(ToBits(bits, n) + rest, ToBits(x, cnt), ToBits(bits, n - cnt) + rest);
  }

  lemma Moves(a: seq<bool>, b: seq<bool>, c: seq<bool>)
    ensures a + (b + c) == (a + b) + c
  {
  }

  lemma SplitAtCount(bits: seq<bool>, first: seq<bool>, rest: seq<bool>)
    requires bits == first + rest
    ensures bits[..|first|] == first && bits[|first|..] == rest
  {
  }

  class MemReader {
    const src: seq<U8>
    var idx: nat
    var bits: nat
    var bitsCnt: nat

    ghost predicate Valid()
      reads this
    {
      idx <= |src|
    }

    /** All that can still be read. */
    ghost function Remaining(): seq<bool>
      reads this
      requires Valid()
    {
      ToBits(bits, bitsCnt) + BytesBits(src[idx..])
    }

    constructor (src: seq<U8>)
      ensures Valid() && this.src == src && Remaining() == BytesBits(src) && bitsCnt == 0
    {
      this.src := src;
      idx, bits, bitsCnt := 0, 0, 0;
      new;
      assert src[0..] == src;
    }

    /** Takes one byte into the accumulator, if there is one; bits that then do not fit are lost. */
    method TakeByte() returns (r: Result<nat>)
      requires Valid() && bitsCnt < 32
      modifies this
      ensures Valid() && (r.Ok? <==> old(idx) < |src|)
      ensures r.Ok? ==> bitsCnt == old(bitsCnt) + 8 && Remaining() == Cleared(old(Remaining()), Over32(bitsCnt))
      ensures r.OutOfRange? ==> bitsCnt == old(bitsCnt) && idx == old(idx) && bits == old(bits)
    {
      if idx + 1 > |src| {
        return OutOfRange;
      }
      var val := src[idx];
      Taken(bits, bitsCnt, src, idx);
      idx := idx + 1;
      bits := Low(Shl(bits, 8), 32);
      bits := Or(bits, val);
      bitsCnt := bitsCnt + 8;
      r := Ok(val);
    }

    /**
     * Reads cnt bits, or fails if so many are not left. When filling up takes more than 32 bits, the topmost
     * are lost and zeros are read instead: the value is right exactly if they were zeros.
     */
    method ReadBits(cnt: nat) returns (r: Result<nat>)
      requires Valid() && bitsCnt < 32 && cnt < 32
      modifies this
      ensures Valid() && bitsCnt < 32 && (r.Ok? <==> cnt <= |old(Remaining())|)
      ensures r.Ok? ==> Remaining() == old(Remaining())[cnt..] && bitsCnt == FilledTo(old(bitsCnt), cnt) - cnt
      ensures r.Ok? ==> var lost := Over32(FilledTo(old(bitsCnt), cnt));
                && lost <= cnt && r.value == Low(r.value, cnt)
                && ToBits(r.value, cnt) == Zeros(lost) + old(Remaining())[lost..cnt]
                && (ToBits(r.value, cnt) == old(Remaining())[..cnt] <==> old(Remaining())[..lost] == Zeros(lost))
      ensures r.OutOfRange? ==> Remaining() == old(Remaining())
    {
      ghost var all := Remaining();
      ClearedNone(all);
      while bitsCnt < cnt
        invariant Valid() && FilledTo(bitsCnt, cnt) == FilledTo(old(bitsCnt), cnt)
        invariant |all| >= bitsCnt && Over32(bitsCnt) <= cnt && Remaining() == Cleared(all, Over32(bitsCnt))
        decreases cnt - bitsCnt
      {
        var b := TakeByte();
        if b.OutOfRange? {
          return OutOfRange;
        }
      }
      ClearedRight(all, Over32(bitsCnt), cnt);
      var value := TakeBits(cnt);
      r := Ok(value);
    }

    /** The topmost cnt of the bits held. */
    method TakeBits(cnt: nat) returns (value: nat)
      requires Valid() && cnt <= bitsCnt
      modifies this`bitsCnt
      ensures bitsCnt == old(bitsCnt) - cnt && Remaining() == old(Remaining())[cnt..]
      ensures ToBits(value, cnt) == old(Remaining())[..cnt] && value == Low(value, cnt)
    {
      TopBits(bits, bitsCnt, cnt, BytesBits(src[idx..]));
      value := Shr(bits, bitsCnt - cnt);
      value := And(value, Ones(cnt));
      bitsCnt := bitsCnt - cnt;
    }
  }

  /** The bits of the accumulator and the bytes after it, once byte idx has been taken in. */
  lemma Taken(bits: nat, n: nat, src: seq<U8>, idx: nat)
    requires idx < |src| && n < 32
    ensures ToBits(Or(Low(Shl(bits, 8), 32), src[idx]), n + 8) + BytesBits(src[idx + 1..])
         == Cleared(ToBits(bits, n) + BytesBits(src[idx..]), Over32(n + 8))
  {
    var val, rest, lost := src[idx], BytesBits(src[idx + 1..]), Over32(n + 8);
    ByteIsLow(val);
    BytesBitsCons(src[idx..]);
    assert src[idx..][1..] == src[idx + 1..];
    if lost == 0 {
      PushBits(bits, val, 8, n);
    } else {
      PushBitsLossy(bits, val, 8, n, lost);
    }
    Joined(ToBits(bits, n), lost, ToBits(val, 8), rest);
  }

  lemma Joined(a: seq<bool>, lost: nat, b: seq<bool>, c: seq<bool>)
    requires lost <= |a|
    ensures Zeros(lost) + (a[lost..] + b) + c == Cleared(a + (b + c), lost)
    ensures a + b == Zeros(0) + (a[0..] + b)
  {
  }

  /** Such a loss happens: after one pending bit, 26 more need 33 bits, and the first of them is read as zero. */
  method LongReadLosesBit() returns (first: Result<nat>, second: Result<nat>)
    ensures first.Ok? && second.Ok?
    ensures BytesBits([255, 255, 255, 255, 255])[7] && !ToBits(second.value, 26)[0]
  {
    var src: seq<U8> := [255, 255, 255, 255, 255];
    var rd := new MemReader(src);
    first := rd.ReadBits(7);
    assert FilledTo(0, 7) == 8;
    ghost var all := rd.Remaining();
    second := rd.ReadBits(26);
    assert FilledTo(1, 26) == FilledTo(9, 26) == FilledTo(17, 26) == FilledTo(25, 26) == 33;
    OneZero();
    EighthBit(src);
  }

  lemma OneZero()
    ensures Zeros(1) == [false]
  {
  }

  lemma EighthBit(src: seq<U8>)
    requires src != [] && src[0] == 255
    ensures BytesBits(src)[7]
  {
    BytesBitsCons(src);
  }

  // ---------- round trip ----------

  datatype Item = Item(value: nat, cnt: nat)

  ghost function Encoded(items: seq<Item>): seq<bool> {
    if items == [] then [] else ToBits(items[0].value, items[0].cnt) + Encoded(items[1..])
  }

  method WriteAll(items: seq<Item>) returns (w: MemWriterDynamic)
    requires forall k :: 0 <= k < |items| ==> items[k].cnt <= 16
    ensures fresh(w) && w.bitsCnt == 0 && exists pad: nat :: BytesBits(w.dest) == Encoded(items) + Zeros(pad)
  {
    w := new MemWriterDynamic();
    for i := 0 to |items|
      invariant fresh(w) && w.bitsCnt < 8 && w.Written() + Encoded(items[i..]) == Encoded(items)
    {
      ghost var before := w.Written();
      w.WriteBits(items[i].value, items[i].cnt);
      assert items[i..][1..] == items[i + 1..];
      Moves(before, ToBits(items[i].value, items[i].cnt), Encoded(items[i + 1..]));
    }
    assert w.Written() == Encoded(items);
    ghost var pad := (8 - w.bitsCnt) % 8;
    w.WriteBitsEnd();
    assert BytesBits(w.dest) == Encoded(items) + Zeros(pad);
  }

  lemma ReadFirst(items: seq<Item>, pad: nat, value: nat)
    requires items != [] && var bits := Encoded(items) + Zeros(pad); ToBits(value, items[0].cnt) == bits[..items[0].cnt]
    requires value == Low(value, items[0].cnt)
    ensures value == Low(items[0].value, items[0].cnt)
    ensures (Encoded(items) + Zeros(pad))[items[0].cnt..] == Encoded(items[1..]) + Zeros(pad)
  {
    var first, rest := ToBits(items[0].value, items[0].cnt), Encoded(items[1..]) + Zeros(pad);
    Moves(first, Encoded(items[1..]), Zeros(pad));
    SplitAtCount(Encoded(items) + Zeros(pad), first, rest);
    BitsInjective(value, items[0].value, items[0].cnt);
  }

  method ReadItem(rd: MemReader, cnt: nat, ghost items: seq<Item>, ghost pad: nat) returns (value: nat)
    requires rd.Valid() && rd.bitsCnt < 8 && items != [] && cnt == items[0].cnt <= 16
    requires rd.Remaining() == Encoded(items) + Zeros(pad)
    modifies rd
    ensures rd.Valid() && rd.bitsCnt < 8 && rd.Remaining() == Encoded(items[1..]) + Zeros(pad)
    ensures value == Low(items[0].value, cnt)
  {
    var r := rd.ReadBits(cnt);
    ReadFirst(items, pad, r.value);
    value := r.value;
  }

  /** What is written in pieces of at most 16 bits is read back, each value masked to its count. */
  method WriteThenRead(items: seq<Item>) returns (out: seq<nat>)
    requires forall k :: 0 <= k < |items| ==> items[k].cnt <= 16
    ensures |out| == |items| && forall k :: 0 <= k < |items| ==> out[k] == Low(items[k].value, items[k].cnt)
  {
    var w := WriteAll(items);
    ghost var pad: nat :| BytesBits(w.dest) == Encoded(items) + Zeros(pad);
    var rd := new MemReader(w.dest);
    out := [];
    ghost var left := items;
    for i := 0 to |items|
      invariant fresh(rd) && rd.Valid() && rd.bitsCnt < 8 && left == items[i..]
      invariant rd.Remaining() == Encoded(left) + Zeros(pad)
      invariant |out| == i && forall k :: 0 <= k < i ==> out[k] == Low(items[k].value, items[k].cnt)
    {
      var value := ReadItem(rd, items[i].cnt, left, pad);
      left := left[1..];
      out := out + [value];
    }
  }
}
