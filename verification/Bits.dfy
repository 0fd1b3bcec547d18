/** Bitwise operations on unsigned integers, and the bit sequences they stand for. */
module Bits {

  function Shl(x: nat, c: nat): nat { if c == 0 then x else 2 * Shl(x, c - 1) }
  function Shr(x: nat, c: nat): nat { if c == 0 then x else Shr(x / 2, c - 1) }

  function Or(x: nat, y: nat): nat {
    if x == 0 then y else if y == 0 then x
    else 2 * Or(x / 2, y / 2) + if x % 2 == 1 || y % 2 == 1 then 1 else 0
  }

  function And(x: nat, y: nat): nat {
    if x == 0 || y == 0 then 0
    else 2 * And(x / 2, y / 2) + if x % 2 == 1 && y % 2 == 1 then 1 else 0
  }

  /** The value kept in an unsigned integer of n bits. */
  function Low(x: nat, n: nat): nat { if n == 0 then 0 else 2 * Low(x / 2, n - 1) + x % 2 }

  function Ones(c: nat): (r: nat)
    ensures r >= c
  {
    Shl1Grows(c);
    Shl(1, c) - 1
  }

  lemma {:induction false} Shl1Grows(c: nat)
    ensures Shl(1, c) >= c + 1
  {
    if c > 0 {
      Shl1Grows(c - 1);
    }
  }

  /** The low n bits, the highest first; anything above them is ignored. */
  function ToBits(x: nat, n: nat): (bs: seq<bool>)
    ensures |bs| == n
  {
    if n == 0 then [] else ToBits(x / 2, n - 1) + [x % 2 == 1]
  }

  function Zeros(n: nat): seq<bool> { ToBits(0, n) }

  // ---------- the operations on bits ----------

  lemma {:induction false} LowBits(x: nat, n: nat, k: nat)
    requires k <= n
    ensures ToBits(Low(x, n), k) == ToBits(x, k)
  {
    if k > 0 {
      LowBits(x / 2, n - 1, k - 1);
    }
  }

  lemma {:induction false} ShrBits(x: nat, k: nat, n: nat)
    ensures ToBits(x, n + k) == ToBits(Shr(x, k), n) + ToBits(x, k)
  {
    if k > 0 {
      ShrBits(x / 2, k - 1, n);
      assert ToBits(x, n + k) == ToBits(x / 2, n + k - 1) + [x % 2 == 1];
    }
  }

  /** Shifting in y below x, where y has no more than c bits. */
  lemma {:induction false} ShlOrBits(x: nat, y: nat, c: nat, n: nat)
    requires y == Low(y, c)
    ensures ToBits(Or(Shl(x, c), y), n + c) == ToBits(x, n) + ToBits(y, c)
  {
    if c > 0 {
      var z := Or(Shl(x, c), y);
      assert Shl(x, c) == 2 * Shl(x, c - 1);
      OrHalves(Shl(x, c), y);
      assert z / 2 == Or(Shl(x, c - 1), y / 2) && z % 2 == y % 2;
      ShlOrBits(x, y / 2, c - 1, n);
      assert ToBits(z, n + c) == ToBits(z / 2, n + c - 1) + [z % 2 == 1];
    } else {
      OrZero(x);
    }
  }

  lemma OrZero(x: nat)
    ensures Or(x, 0) == x
  {
  }

  lemma OrHalves(x: nat, y: nat)
    requires x % 2 == 0
    ensures Or(x, y) / 2 == Or(x / 2, y / 2) && Or(x, y) % 2 == y % 2
  {
    OrZero(x / 2);
  }

  /** Masking with c ones keeps the low c bits. */
  lemma {:induction false} MaskIsLow(x: nat, c: nat)
    ensures And(x, Ones(c)) == Low(x, c)
  {
    if c == 0 {
    } else {
      Shl1Grows(c - 1);
      assert Ones(c) == 2 * Ones(c - 1) + 1;
      MaskIsLow(x / 2, c - 1);
      if x == 0 {
        LowOfZero(c);
      }
    }
  }

  lemma {:induction false} LowOfZero(c: nat)
    ensures Low(0, c) == 0
  {
    if c > 0 {
      LowOfZero(c - 1);
    }
  }

  lemma {:induction false} LowTwice(x: nat, c: nat)
    ensures Low(Low(x, c), c) == Low(x, c)
  {
    if c > 0 {
      LowTwice(x / 2, c - 1);
    }
  }

  /** A value of n bits has zeros above them. */
  lemma {:induction false} HighBitsZero(x: nat, n: nat, more: nat)
    requires x == Low(x, n)
    ensures ToBits(x, more + n) == Zeros(more) + ToBits(x, n)
  {
    if n > 0 {
      HighBitsZero(x / 2, n - 1, more);
      assert ToBits(x, more + n) == ToBits(x / 2, more + n - 1) + [x % 2 == 1];
    }
  }

  lemma {:induction false} LowMore(x: nat, c: nat, n: nat)
    requires x == Low(x, c) && c <= n
    ensures x == Low(x, n)
  {
    if c > 0 {
      LowMore(x / 2, c - 1, n - 1);
    } else {
      LowOfZero(n);
    }
  }

  lemma {:induction false} OrIsLow(x: nat, y: nat, n: nat)
    requires x == Low(x, n) && y == Low(y, n)
    ensures Or(x, y) == Low(Or(x, y), n)
  {
    if n > 0 && x != 0 && y != 0 {
      OrIsLow(x / 2, y / 2, n - 1);
    }
  }

  /** The bits determine the value. */
  lemma {:induction false} BitsInjective(x: nat, y: nat, c: nat)
    requires ToBits(x, c) == ToBits(y, c)
    ensures Low(x, c) == Low(y, c)
  {
    if c > 0 {
      var a, b := ToBits(x, c), ToBits(y, c);
      assert a[c - 1] == (x % 2 == 1) && b[c - 1] == (y % 2 == 1);
      assert a[..c - 1] == ToBits(x / 2, c - 1) && b[..c - 1] == ToBits(y / 2, c - 1);
      BitsInjective(x / 2, y / 2, c - 1);
    }
  }

  // ---------- bytes ----------

  type U8 = x: nat | x < 256

  lemma {:induction false} LowIsSmall(x: nat, n: nat)
    ensures Low(x, n) < Shl(1, n) && (x < Shl(1, n) ==> Low(x, n) == x)
  {
    if n > 0 {
      LowIsSmall(x / 2, n - 1);
    }
  }

  function LowByte(x: nat): (b: U8)
    ensures b == Low(x, 8)
  {
    LowIsSmall(x, 8);
    assert Shl(1, 8) == 2 * (2 * (2 * (2 * Shl(1, 4))));
    Low(x, 8)
  }

  lemma ByteIsLow(x: U8)
    ensures x == Low(x, 8)
  {
    LowIsSmall(x, 8);
    assert Shl(1, 8) == 2 * (2 * (2 * (2 * Shl(1, 4))));
  }

  function BytesBits(bytes: seq<U8>): (bs: seq<bool>)
    ensures |bs| == 8 * |bytes|
  {
    if bytes == [] then [] else BytesBits(bytes[..|bytes| - 1]) + ToBits(bytes[|bytes| - 1], 8)
  }

  lemma BytesBitsSnoc(bytes: seq<U8>, x: U8)
    ensures BytesBits(bytes + [x]) == BytesBits(bytes) + ToBits(x, 8)
  {
    assert (bytes + [x])[..|bytes|] == bytes;
  }

  lemma {:induction false} BytesBitsCons(bytes: seq<U8>)
    requires bytes != []
    ensures BytesBits(bytes) == ToBits(bytes[0], 8) + BytesBits(bytes[1..])
  {
    var n := |bytes| - 1;
    if n == 0 {
      assert bytes[..0] == [];
      assert BytesBits(bytes) == BytesBits([]) + ToBits(bytes[0], 8);
      assert BytesBits(bytes[1..]) == [];
    } else {
      BytesBitsCons(bytes[..n]);
      assert bytes[1..][..n - 1] == bytes[..n][1..];
      assert BytesBits(bytes[1..]) == BytesBits(bytes[..n][1..]) + ToBits(bytes[n], 8);
      assert BytesBits(bytes) == BytesBits(bytes[..n]) + ToBits(bytes[n], 8);
    }
  }
}
