/**
 * Packet framing over a byte stream: each packet is a 4-byte length and the payload, sent and received in
 * arbitrary pieces.
 */
module Packets {

  type Byte = x: int | 0 <= x < 256
  type Bytes = seq<Byte>

  // sizeof(U32)
  const HEAD: nat := 4
  // One past the largest payload length that the head can hold.
  const MAX_PAYLOAD: nat := 0x1_0000_0000

  function EncodeU32(n: nat): (b: Bytes)
    ensures |b| == HEAD
  {
    [n % 256, n / 256 % 256, n / 65536 % 256, n / 16777216 % 256]
  }

  /** The value of bytes in memory order, lowest first. */
  function Decode(b: Bytes): nat {
    if b == [] then 0 else b[0] + 256 * Decode(b[1..])
  }

  lemma DecodeFour(b: Bytes)
    requires |b| == HEAD
    ensures Decode(b) == (b[0] as int) + 256 * (b[1] as int) + 65536 * (b[2] as int)
            + 16777216 * (b[3] as int) < MAX_PAYLOAD
  {
    assert b[1..][1..][1..][1..] == [];
    assert b[1..][0] == b[1] && b[1..][1..][0] == b[2] && b[1..][1..][1..][0] == b[3];
    assert Decode(b[1..][1..][1..]) == b[3];
    assert Decode(b[1..][1..]) == (b[2] as int) + 256 * (b[3] as int);
  }

  lemma LowByte(n: nat, r: Byte, q: nat)
    requires n == r + 256 * q
    ensures n % 256 == r && n / 256 == q
  {
  }

  lemma DivTwice(n: nat)
    ensures n / 65536 == n / 256 / 256 && n / 16777216 == n / 65536 / 256
  {
  }

  lemma EncodeDecode(b: Bytes)
    requires |b| == HEAD
    ensures EncodeU32(Decode(b)) == b
  {
    DecodeFour(b);
    var b0, b1, b2, b3 := b[0] as int, b[1] as int, b[2] as int, b[3] as int;
    var n := Decode(b);
    LowByte(n, b[0], b1 + 256 * b2 + 65536 * b3);
    LowByte(b1 + 256 * b2 + 65536 * b3, b[1], b2 + 256 * b3);
    LowByte(b2 + 256 * b3, b[2], b3);
    DivTwice(n);
  }

  lemma DecodeEncode(n: nat)
    requires n < MAX_PAYLOAD
    ensures Decode(EncodeU32(n)) == n
  {
    DecodeFour(EncodeU32(n));
    DivTwice(n);
    var q1, q2, q3 := n / 256, n / 65536, n / 16777216;
    assert n == n % 256 + 256 * q1;
    assert q1 == q1 % 256 + 256 * q2;
    assert q2 == q2 % 256 + 256 * q3;
    assert q3 % 256 == q3;
  }

  /** The bytes of a packet as `Send` lays them out. */
  function Frame(payload: Bytes): (f: Bytes)
    ensures |f| == HEAD + |payload|
  {
    EncodeU32(|payload|) + payload
  }

  function Concat(parts: seq<Bytes>): Bytes {
    if parts == [] then [] else parts[0] + Concat(parts[1..])
  }

  lemma AppendAssoc(a: Bytes, b: Bytes, c: Bytes)
    ensures (a + b) + c == a + (b + c)
  {
  }

  lemma {:induction false} ConcatAppend(a: seq<Bytes>, b: seq<Bytes>)
    ensures Concat(a + b) == Concat(a) + Concat(b)
  {
    if a == [] {
      assert a + b == b;
    } else {
      ConcatAppend(a[1..], b);
      assert (a + b)[1..] == a[1..] + b;
      AppendAssoc(a[0], Concat(a[1..]), Concat(b));
    }
  }

  lemma ConcatSnoc(a: seq<Bytes>, x: Bytes)
    ensures Concat(a + [x]) == Concat(a) + x
  {
    ConcatAppend(a, [x]);
    assert Concat([x]) == x + Concat([]) == x;
  }

  /** The whole stream of a sequence of payloads. */
  function Stream(payloads: seq<Bytes>): Bytes {
    if payloads == [] then [] else Frame(payloads[0]) + Stream(payloads[1..])
  }

  lemma {:induction false} StreamAppend(a: seq<Bytes>, b: seq<Bytes>)
    ensures Stream(a + b) == Stream(a) + Stream(b)
  {
    if a == [] {
      assert a + b == b;
    } else {
      StreamAppend(a[1..], b);
      assert (a + b)[1..] == a[1..] + b;
      AppendAssoc(Frame(a[0]), Stream(a[1..]), Stream(b));
    }
  }

  lemma StreamSnoc(a: seq<Bytes>, x: Bytes)
    ensures Stream(a + [x]) == Stream(a) + Frame(x)
  {
    StreamAppend(a, [x]);
    assert Stream([x]) == Frame(x) + Stream([]) == Frame(x);
  }

  ghost predicate Encodable(payloads: seq<Bytes>) {
    forall i :: 0 <= i < |payloads| ==> |payloads[i]| < MAX_PAYLOAD
  }

  /** Framing is uniquely decodable: one stream is a prefix of another only if its payloads are. */
  lemma {:induction false} StreamPrefix(a: seq<Bytes>, b: seq<Bytes>)
    requires Encodable(a) && Encodable(b) && Stream(a) <= Stream(b)
    ensures a <= b
  {
    if a != [] {
      var p := a[0];
      assert Stream(a)[..HEAD] == Frame(p)[..HEAD] == EncodeU32(|p|);
      assert b != [];
      var q := b[0];
      assert Stream(b)[..HEAD] == Frame(q)[..HEAD] == EncodeU32(|q|);
      assert Stream(a)[..HEAD] == Stream(b)[..HEAD];
      DecodeEncode(|p|);
      DecodeEncode(|q|);
      var n := HEAD + |p|;
      assert Stream(a)[HEAD..n] == p && Stream(b)[HEAD..n] == q;
      assert Stream(a)[HEAD..n] == Stream(b)[..|Stream(a)|][HEAD..n] == Stream(b)[HEAD..n];
      assert Stream(a)[n..] == Stream(a[1..]) && Stream(b)[n..] == Stream(b[1..]);
      StreamPrefix(a[1..], b[1..]);
    }
  }

  // ---------- the two ends ----------

  /** The sending end: packets not yet seen by the thread, packets to send, bytes of the first already sent. */
  datatype Sender = Sender(inQueue: seq<Bytes>, queue: seq<Bytes>, off: nat, fatal: bool) {
    ghost predicate Valid() {
      if queue == [] then off == 0 else off < |queue[0]|
    }
  }

  /**
   * The receiving end: bytes of the head received, the head's memory, the body buffer and its fill, packets
   * received.
   */
  datatype Receiver = Receiver(headDone: nat, head: Bytes, buff: Bytes, done: nat, out: seq<Bytes>, fatal: bool) {
    ghost predicate Valid() {
      && headDone <= HEAD && |head| == HEAD && done <= |buff|
      && (headDone == HEAD ==> |buff| == Decode(head))
      && (headDone < HEAD ==> buff == [] && done == 0)
      && (headDone == 0 ==> head == ZERO_HEAD)
    }
  }

  const ZERO_HEAD: Bytes := [0, 0, 0, 0]

  function Enqueue(s: Sender, payload: Bytes): Sender {
    s.(inQueue := s.inQueue + [Frame(payload)])
  }

  function Flush(s: Sender): Sender {
    s.(queue := s.queue + s.inQueue, inQueue := [])
  }

  /** The socket takes `n` more bytes of the first packet; a finished packet leaves the queue. */
  function Transmit(s: Sender, n: nat): Sender
    requires s.queue != [] && s.off + n <= |s.queue[0]|
  {
    if s.off + n == |s.queue[0]| then s.(queue := s.queue[1..], off := 0) else s.(off := s.off + n)
  }

  /** Bytes of the head arrive. They are always stored from the start of the head's memory. */
  function ReceiveHead(r: Receiver, bytes: Bytes): (r': Receiver)
    requires r.Valid() && r.headDone < HEAD && r.headDone + |bytes| <= HEAD
    ensures r'.Valid()
  {
    var head := Store(r.head, bytes);
    var headDone := r.headDone + |bytes|;
    var buff: Bytes := if headDone == HEAD then seq(Decode(head), _ => 0) else [];
    r.(headDone := headDone, head := head, buff := buff)
  }

  /** Bytes of the body arrive; a finished packet goes to the output queue. */
  function ReceiveBody(r: Receiver, bytes: Bytes): (r': Receiver)
    requires r.Valid() && r.headDone == HEAD && r.done + |bytes| <= |r.buff|
    ensures r'.Valid()
  {
    var buff := r.buff[..r.done] + bytes + r.buff[r.done + |bytes|..];
    if r.done + |bytes| == |buff| then Receiver(0, ZERO_HEAD, [], 0, r.out + [buff], r.fatal)
    else r.(buff := buff, done := r.done + |bytes|)
  }

  // ---------- the head read in pieces ----------

  /** A piece stored at the start of the head's memory. */
  function Store(mem: Bytes, piece: Bytes): (r: Bytes)
    requires |mem| == HEAD && |piece| <= HEAD
    ensures |r| == HEAD
  {
    piece + mem[|piece|..]
  }

  /** The memory of the head after `pieces` were each stored at its start. */
  function Overlay(pieces: seq<Bytes>): (h: Bytes)
    requires forall i :: 0 <= i < |pieces| ==> |pieces[i]| <= HEAD
    ensures |h| == HEAD
  {
    if pieces == [] then ZERO_HEAD else Store(Overlay(pieces[..|pieces| - 1]), pieces[|pieces| - 1])
  }

  ghost predicate Pieces(pieces: seq<Bytes>) {
    && (forall i :: 0 <= i < |pieces| ==> 0 < |pieces[i]| <= HEAD)
    && |Concat(pieces)| <= HEAD
  }

  /** The receiver reads the length that was sent. */
  ghost predicate HeadRead(pieces: seq<Bytes>)
    requires Pieces(pieces)
  {
    Decode(Overlay(pieces)) == Decode(Concat(pieces))
  }

  lemma OverlaySnoc(pieces: seq<Bytes>, last: Bytes)
    requires Pieces(pieces + [last])
    ensures Pieces(pieces) && |Concat(pieces + [last])| == |Concat(pieces)| + |last|
    ensures 0 < |last| <= HEAD && Overlay(pieces + [last]) == Store(Overlay(pieces), last)
  {
    ConcatSnoc(pieces, last);
    var all := pieces + [last];
    assert forall i :: 0 <= i < |pieces| ==> all[i] == pieces[i];
    assert all[|all| - 1] == last && all[..|all| - 1] == pieces;
  }

  lemma Two(a: Bytes, b: Bytes)
    requires Pieces([a, b])
    ensures Pieces([a]) && Concat([a, b]) == a + b && 0 < |a| && 0 < |b| && |a| + |b| <= HEAD
    ensures Overlay([a, b]) == Store(Store(ZERO_HEAD, a), b)
  {
    assert [a, b] == [a] + [b] && [a] == [] + [a];
    OverlaySnoc([a], b);
    OverlaySnoc([], a);
    ConcatSnoc([a], b);
    ConcatSnoc([], a);
  }

  lemma Three(a: Bytes, b: Bytes, c: Bytes)
    requires Pieces([a, b, c])
    ensures Concat([a, b, c]) == a + b + c && 0 < |a| && 0 < |b| && 0 < |c| && |a| + |b| + |c| <= HEAD
    ensures Overlay([a, b, c]) == Store(Store(Store(ZERO_HEAD, a), b), c)
  {
    assert [a, b, c] == [a, b] + [c];
    OverlaySnoc([a, b], c);
    ConcatSnoc([a, b], c);
    Two(a, b);
  }

  lemma Four(a: Bytes, b: Bytes, c: Bytes, d: Bytes)
    requires Pieces([a, b, c, d])
    ensures Concat([a, b, c, d]) == a + b + c + d && |a| == |b| == |c| == |d| == 1
    ensures Overlay([a, b, c, d]) == Store(Store(Store(Store(ZERO_HEAD, a), b), c), d)
  {
    assert [a, b, c, d] == [a, b, c] + [d];
    OverlaySnoc([a, b, c], d);
    ConcatSnoc([a, b, c], d);
    Three(a, b, c);
  }

  /** The split heads that are still read right: a zero low byte and the top byte, zero too, arriving alone last. */
  predicate LuckySplit(pieces: seq<Bytes>, n: nat) {
    || (|pieces| == 2 && |pieces[0]| == 3 && n % 256 == 0 && n < 0x100_0000)
    || (|pieces| == 3 && |pieces[0]| == 2 && |pieces[1]| == 1 && n % 256 == 0 && n < 0x1_0000)
  }

  /**
   * Exactly when a head that arrives in pieces is read right, for every nonempty payload length: when it
   * arrives in one piece, or in one of the two lucky splits. All other splits give a wrong length.
   */
  lemma HeadReadExactly(pieces: seq<Bytes>, n: nat)
    requires Pieces(pieces) && 0 < n < MAX_PAYLOAD && Concat(pieces) == EncodeU32(n)
    ensures HeadRead(pieces) <==> |pieces| == 1 || LuckySplit(pieces, n)
  {
    DecodeEncode(n);
    if |pieces| == 1 {
      OnePiece(pieces);
    } else {
      ManyPieces(pieces, n);
    }
  }

  lemma OnePiece(pieces: seq<Bytes>)
    requires Pieces(pieces) && |pieces| == 1 && |Concat(pieces)| == HEAD
    ensures HeadRead(pieces)
  {
    var p := pieces[0];
    assert pieces == [] + [p];
    OverlaySnoc([], p);
    ConcatSnoc([], p);
  }

  /** The four bytes decide: equal numbers have equal bytes. */
  lemma SameBytes(a: Bytes, b: Bytes)
    requires |a| == |b| == HEAD
    ensures Decode(a) == Decode(b) <==> a == b
  {
    EncodeDecode(a);
    EncodeDecode(b);
  }

  lemma ZeroBytes(n: nat)
    requires n < MAX_PAYLOAD
    ensures var e := EncodeU32(n);
            && (e[0] == 0 <==> n % 256 == 0)
            && (e[3] == 0 <==> n < 0x100_0000)
            && (e[2] == 0 && e[3] == 0 <==> n < 0x1_0000)
            && (e[0] == 0 && e[1] == 0 && e[2] == 0 && e[3] == 0 <==> n == 0)
  {
    DecodeFour(EncodeU32(n));
    DecodeEncode(n);
  }

  /** The same in terms of the four bytes of the head. */
  predicate LuckyBytes(pieces: seq<Bytes>, e: Bytes)
    requires |e| == HEAD
  {
    || (|pieces| == 2 && |pieces[0]| == 3 && e[0] == 0 && e[3] == 0)
    || (|pieces| == 3 && |pieces[0]| == 2 && |pieces[1]| == 1 && e[0] == 0 && e[2] == 0 && e[3] == 0)
  }

  lemma ManyPieces(pieces: seq<Bytes>, n: nat)
    requires Pieces(pieces) && |pieces| != 1 && 0 < n < MAX_PAYLOAD && Concat(pieces) == EncodeU32(n)
    ensures HeadRead(pieces) <==> LuckySplit(pieces, n)
  {
    var e := EncodeU32(n);
    SameBytes(Overlay(pieces), e);
    ZeroBytes(n);
    SplitOverlay(pieces, e);
  }

  lemma SplitOverlay(pieces: seq<Bytes>, e: Bytes)
    requires Pieces(pieces) && |pieces| != 1 && |e| == HEAD && Concat(pieces) == e
    requires e[0] != 0 || e[1] != 0 || e[2] != 0 || e[3] != 0
    ensures Overlay(pieces) == e <==> LuckyBytes(pieces, e)
  {
    ConcatLength(pieces);
    if |pieces| == 2 {
      TwoPieces(pieces, e);
    } else if |pieces| == 3 {
      ThreePieces(pieces, e);
    } else {
      FourPieces(pieces, e);
    }
  }

  /** What the stores leave, by the lengths of the pieces. */
  lemma OverlayTwo(a: Bytes, b: Bytes, e: Bytes)
    requires 0 < |a| && 0 < |b| && a + b == e && |e| == HEAD
    ensures Store(Store(ZERO_HEAD, a), b) ==
            if |a| == 1 then [e[1], e[2], e[3], 0] else if |a| == 2 then [e[2], e[3], 0, 0] else [e[3], e[1], e[2], 0]
  {
    assert a == e[..|a|] && b == e[|a|..];
  }

  lemma OverlayThree(a: Bytes, b: Bytes, c: Bytes, e: Bytes)
    requires 0 < |a| && 0 < |b| && 0 < |c| && a + b + c == e && |e| == HEAD
    ensures Store(Store(Store(ZERO_HEAD, a), b), c) ==
            if |a| == 2 then [e[3], e[1], 0, 0] else if |b| == 2 then [e[3], e[2], 0, 0] else [e[2], e[3], 0, 0]
  {
    assert a == e[..|a|] && b == e[|a|..|a| + |b|] && c == e[|a| + |b|..];
    if |a| == 2 {
      assert Store(ZERO_HEAD, a) == [e[0], e[1], 0, 0];
      assert Store([e[0], e[1], 0, 0], b) == [e[2], e[1], 0, 0];
    } else if |b| == 2 {
      assert Store(ZERO_HEAD, a) == [e[0], 0, 0, 0];
      assert Store([e[0], 0, 0, 0], b) == [e[1], e[2], 0, 0];
    } else {
      assert Store(ZERO_HEAD, a) == [e[0], 0, 0, 0];
      assert Store([e[0], 0, 0, 0], b) == [e[1], 0, 0, 0];
    }
  }

  lemma OverlayFour(a: Bytes, b: Bytes, c: Bytes, d: Bytes, e: Bytes)
    requires |a| == |b| == |c| == |d| == 1 && a + b + c + d == e
    ensures Store(Store(Store(Store(ZERO_HEAD, a), b), c), d) == [e[3], 0, 0, 0]
  {
    assert Store(ZERO_HEAD, a) == [a[0], 0, 0, 0];
    assert Store([a[0], 0, 0, 0], b) == [b[0], 0, 0, 0];
    assert Store([b[0], 0, 0, 0], c) == [c[0], 0, 0, 0];
    assert d[0] == e[3];
  }

  lemma SameFour(e: Bytes, w: Byte, x: Byte, y: Byte, z: Byte)
    requires |e| == HEAD
    ensures [w, x, y, z] == e <==> w == e[0] && x == e[1] && y == e[2] && z == e[3]
  {
  }

  lemma TwoPieces(pieces: seq<Bytes>, e: Bytes)
    requires Pieces(pieces) && |pieces| == 2 && |e| == HEAD && Concat(pieces) == e
    requires e[0] != 0 || e[1] != 0 || e[2] != 0 || e[3] != 0
    ensures Overlay(pieces) == e <==> LuckyBytes(pieces, e)
  {
    var a, b := pieces[0], pieces[1];
    assert pieces == [a, b];
    Two(a, b);
    OverlayTwo(a, b, e);
    SameFour(e, e[1], e[2], e[3], 0);
    SameFour(e, e[2], e[3], 0, 0);
    SameFour(e, e[3], e[1], e[2], 0);
  }

  lemma ThreePieces(pieces: seq<Bytes>, e: Bytes)
    requires Pieces(pieces) && |pieces| == 3 && |e| == HEAD && Concat(pieces) == e
    requires e[0] != 0 || e[1] != 0 || e[2] != 0 || e[3] != 0
    ensures Overlay(pieces) == e <==> LuckyBytes(pieces, e)
  {
    var a, b, c := pieces[0], pieces[1], pieces[2];
    assert pieces == [a, b, c];
    Three(a, b, c);
    OverlayThree(a, b, c, e);
    SameFour(e, e[3], e[1], 0, 0);
    SameFour(e, e[3], e[2], 0, 0);
    SameFour(e, e[2], e[3], 0, 0);
  }

  lemma FourPieces(pieces: seq<Bytes>, e: Bytes)
    requires Pieces(pieces) && |pieces| == 4 && |e| == HEAD && Concat(pieces) == e
    requires e[0] != 0 || e[1] != 0 || e[2] != 0 || e[3] != 0
    ensures Overlay(pieces) != e
  {
    var a, b, c, d := pieces[0], pieces[1], pieces[2], pieces[3];
    assert pieces == [a, b, c, d];
    Four(a, b, c, d);
    OverlayFour(a, b, c, d, e);
    SameFour(e, e[3], 0, 0, 0);
  }

  lemma {:induction false} ConcatLength(pieces: seq<Bytes>)
    requires forall i :: 0 <= i < |pieces| ==> 0 < |pieces[i]|
    ensures |Concat(pieces)| >= |pieces|
  {
    if pieces != [] {
      ConcatLength(pieces[1..]);
    }
  }
}
