/** Every run of a sender, the byte channel and a receiver. */
module PacketRuns {
  import opened Common
  import opened Packets

  /**
   * One direction of a connection: the payloads given to `Send` so far, the sending end, the bytes on the wire,
   * the receiving end, and the pieces in which the current head has arrived.
   */
  datatype Sys = Sys(sent: seq<Bytes>, s: Sender, wire: Bytes, r: Receiver, pieces: seq<Bytes>)

  const START: Sys := Sys([], Sender([], [], 0, false), [], Receiver(0, ZERO_HEAD, [], 0, [], false), [])

  /** The steps of the two threads; a socket call may move any number of bytes, none, or fail. */
  datatype Event =
    | AppSend(payload: Bytes)
    | FlushIn
    | SendSome(n: nat)
    | SendFails
    | HeadSome(n: nat)
    | BodySome(n: nat)
    | ReceiveFails

  /** The step can happen: the socket moves at most what was asked for and what is there; a failed end stands still. */
  predicate Enabled(y: Sys, e: Event) {
    match e
    case AppSend(payload) => 0 < |payload| < MAX_PAYLOAD
    case FlushIn => !y.s.fatal
    case SendSome(n) => !y.s.fatal && y.s.queue != [] && y.s.off + n <= |y.s.queue[0]|
    case SendFails => y.s.queue != []
    case HeadSome(n) => !y.r.fatal && y.r.headDone < HEAD && y.r.headDone + n <= HEAD && n <= |y.wire|
    case BodySome(n) => !y.r.fatal && y.r.headDone == HEAD && y.r.done + n <= |y.r.buff| && n <= |y.wire|
    case ReceiveFails => true
  }

  function Next(y: Sys, e: Event): Sys
    requires y.s.Valid() && y.r.Valid() && Enabled(y, e)
  {
    match e
    case AppSend(payload) => y.(sent := y.sent + [payload], s := Enqueue(y.s, payload))
    case FlushIn => y.(s := Flush(y.s))
    case SendSome(n) =>
      y.(s := Transmit(y.s, n), wire := y.wire + y.s.queue[0][y.s.off..y.s.off + n])
    case SendFails => y.(s := y.s.(fatal := true))
    case HeadSome(n) =>
      y.(r := ReceiveHead(y.r, y.wire[..n]), wire := y.wire[n..],
         pieces := if n == 0 then y.pieces else y.pieces + [y.wire[..n]])
    case BodySome(n) =>
      var r := ReceiveBody(y.r, y.wire[..n]);
      y.(r := r, wire := y.wire[n..], pieces := if r.headDone == 0 then [] else y.pieces)
    case ReceiveFails => y.(r := y.r.(fatal := true))
  }

  /** Bytes that the sender still has to put on the wire. */
  function Unsent(s: Sender): Bytes
    requires s.Valid()
  {
    (if s.queue == [] then [] else s.queue[0][s.off..] + Concat(s.queue[1..])) + Concat(s.inQueue)
  }

  /** Bytes taken from the wire for the packet being received. */
  function Partial(y: Sys): Bytes
    requires y.r.Valid()
  {
    Concat(y.pieces) + y.r.buff[..y.r.done]
  }

  ghost predicate FramedQueues(s: Sender) {
    && (forall i :: 0 <= i < |s.queue| ==> |s.queue[i]| > HEAD)
    && (forall i :: 0 <= i < |s.inQueue| ==> |s.inQueue[i]| > HEAD)
  }

  /** Conservation of bytes: delivered, partly received, on the wire and unsent make up the whole stream. */
  ghost predicate Conserved(y: Sys) {
    && y.s.Valid() && y.r.Valid() && FramedQueues(y.s)
    && Encodable(y.sent) && Encodable(y.r.out) && (forall i :: 0 <= i < |y.sent| ==> y.sent[i] != [])
    && Pieces(y.pieces) && |Concat(y.pieces)| == y.r.headDone && Overlay(y.pieces) == y.r.head
    && Same(Stream(y.sent), Stream(y.r.out) + Partial(y) + y.wire + Unsent(y.s))
  }

  /** The current head, once complete, was read right. */
  ghost predicate HeadSafe(y: Sys)
    requires y.r.Valid() && Pieces(y.pieces)
  {
    y.r.headDone == HEAD ==> HeadRead(y.pieces)
  }

  ghost predicate Inv(y: Sys) {
    Conserved(y) && HeadSafe(y)
  }

  // ---------- every step conserves the stream ----------

  lemma AppendRight(all: Bytes, o: Bytes, p: Bytes, w: Bytes, u: Bytes, f: Bytes)
    requires all == o + p + w + u
    ensures all + f == o + p + w + (u + f)
  {
  }

  lemma AppSendConserves(y: Sys, payload: Bytes)
    requires Conserved(y) && Enabled(y, AppSend(payload))
    ensures Conserved(Next(y, AppSend(payload)))
  {
    var z := Next(y, AppSend(payload));
    assert Unsent(z.s) == Unsent(y.s) + Frame(payload) by {
      ConcatSnoc(y.s.inQueue, Frame(payload));
    }
    StreamSnoc(y.sent, payload);
    AppendRight(Stream(y.sent), Stream(y.r.out), Partial(y), y.wire, Unsent(y.s), Frame(payload));
  }

  lemma FlushKeepsUnsent(s: Sender)
    requires s.Valid() && FramedQueues(s)
    ensures Flush(s).Valid() && Unsent(Flush(s)) == Unsent(s)
  {
    var t := Flush(s);
    assert Concat(t.inQueue) == [];
    if s.queue == [] {
      assert t.queue == s.inQueue;
      if t.queue != [] {
        assert t.queue[0][0..] == t.queue[0];
      }
    } else {
      assert t.queue[0] == s.queue[0] && t.queue[1..] == s.queue[1..] + s.inQueue;
      ConcatAppend(s.queue[1..], s.inQueue);
    }
  }

  lemma FlushConserves(y: Sys)
    requires Conserved(y) && Enabled(y, FlushIn)
    ensures Conserved(Next(y, FlushIn))
  {
    FlushKeepsUnsent(y.s);
  }

  lemma TransmitMoves(s: Sender, n: nat)
    requires s.Valid() && FramedQueues(s) && s.queue != [] && s.off + n <= |s.queue[0]|
    ensures Transmit(s, n).Valid() && s.queue[0][s.off..s.off + n] + Unsent(Transmit(s, n)) == Unsent(s)
  {
    var t, moved := Transmit(s, n), s.queue[0][s.off..s.off + n];
    assert s.queue[0][s.off..] == moved + s.queue[0][s.off + n..];
    if s.off + n == |s.queue[0]| && |s.queue| > 1 {
      assert Concat(s.queue[1..]) == s.queue[1..][0] + Concat(s.queue[1..][1..]);
      assert t.queue[0][0..] == s.queue[1];
    }
  }

  lemma SendConserves(y: Sys, n: nat)
    requires Conserved(y) && Enabled(y, SendSome(n))
    ensures Conserved(Next(y, SendSome(n)))
  {
    var z := Next(y, SendSome(n));
    var moved := y.s.queue[0][y.s.off..y.s.off + n];
    TransmitMoves(y.s, n);
    assert (y.wire + moved) + Unsent(z.s) == y.wire + (moved + Unsent(z.s));
    Reassociate(Stream(y.r.out) + Partial(y), y.wire, Unsent(y.s), z.wire, Unsent(z.s));
  }

  lemma Reassociate(a: Bytes, w: Bytes, x: Bytes, w': Bytes, x': Bytes)
    requires w + x == w' + x'
    ensures a + w + x == a + w' + x'
  {
    assert a + w + x == a + (w + x);
    assert a + w' + x' == a + (w' + x');
  }

  /** `n` bytes go from the wire to the partly received packet. */
  lemma Reassociate3(o: Bytes, p: Bytes, w: Bytes, x: Bytes, n: nat)
    requires n <= |w|
    ensures o + p + w + x == o + (p + w[..n]) + w[n..] + x
  {
    assert w == w[..n] + w[n..];
  }

  lemma HeadConserves(y: Sys, n: nat)
    requires Conserved(y) && Enabled(y, HeadSome(n))
    ensures Conserved(Next(y, HeadSome(n)))
  {
    if n == 0 {
      NoBytes(y);
    } else {
      PieceArrives(y.pieces, y.wire[..n]);
      Reassociate3(Stream(y.r.out), Partial(y), y.wire, Unsent(y.s), n);
      HeadPartial(y, n);
    }
  }

  lemma NoBytes(y: Sys)
    requires y.s.Valid() && y.r.Valid() && Enabled(y, HeadSome(0))
    ensures Next(y, HeadSome(0)) == y
  {
    assert y.wire[..0] == [] && y.wire[0..] == y.wire;
    assert Store(y.r.head, []) == y.r.head;
  }

  lemma PieceArrives(pieces: seq<Bytes>, bytes: Bytes)
    requires Pieces(pieces) && 0 < |bytes| && |Concat(pieces)| + |bytes| <= HEAD
    ensures Pieces(pieces + [bytes]) && Concat(pieces + [bytes]) == Concat(pieces) + bytes
    ensures Overlay(pieces + [bytes]) == Store(Overlay(pieces), bytes)
  {
    ConcatSnoc(pieces, bytes);
    OverlaySnoc(pieces, bytes);
  }

  lemma HeadPartial(y: Sys, n: nat)
    requires y.s.Valid() && y.r.Valid() && 0 < n && Enabled(y, HeadSome(n))
    requires Concat(y.pieces + [y.wire[..n]]) == Concat(y.pieces) + y.wire[..n]
    ensures Next(y, HeadSome(n)).r.Valid() && Partial(Next(y, HeadSome(n))) == Partial(y) + y.wire[..n]
  {
    var z := Next(y, HeadSome(n));
    assert z.r.buff[..z.r.done] == [] && y.r.buff[..y.r.done] == [];
  }

  /** The body buffer after n more bytes from the wire. */
  function Filled(y: Sys, n: nat): (buff: Bytes)
    requires y.r.done + n <= |y.r.buff| && n <= |y.wire|
    ensures |buff| == |y.r.buff|
  {
    y.r.buff[..y.r.done] + y.wire[..n] + y.r.buff[y.r.done + n..]
  }

  lemma BodyFills(y: Sys, n: nat)
    requires Conserved(y) && Enabled(y, BodySome(n))
    ensures Filled(y, n)[..y.r.done + n] == y.r.buff[..y.r.done] + y.wire[..n]
    ensures var partial := Concat(y.pieces) + Filled(y, n)[..y.r.done + n];
            && partial == Partial(y) + y.wire[..n]
            && Same(Stream(y.sent), Stream(y.r.out) + partial + y.wire[n..] + Unsent(y.s))
  {
    assert Filled(y, n)[..y.r.done + n] == y.r.buff[..y.r.done] + y.wire[..n];
    AppendAssoc(Concat(y.pieces), y.r.buff[..y.r.done], y.wire[..n]);
    Reassociate3(Stream(y.r.out), Partial(y), y.wire, Unsent(y.s), n);
  }

  /** The step completes a packet. */
  predicate Delivers(y: Sys, e: Event) {
    e.BodySome? && y.r.done + e.n == |y.r.buff|
  }

  lemma BodyConserves(y: Sys, n: nat)
    requires Conserved(y) && Enabled(y, BodySome(n))
    requires Delivers(y, BodySome(n)) ==> HeadRead(y.pieces)
    ensures Conserved(Next(y, BodySome(n)))
  {
    BodyFills(y, n);
    if Delivers(y, BodySome(n)) {
      FrameComplete(y, n);
      BodyDelivers(y, n);
    } else {
      BodyGrows(y, n);
    }
  }

  lemma BodyGrows(y: Sys, n: nat)
    requires Conserved(y) && Enabled(y, BodySome(n)) && !Delivers(y, BodySome(n))
    requires var partial := Concat(y.pieces) + Filled(y, n)[..y.r.done + n];
             Same(Stream(y.sent), Stream(y.r.out) + partial + y.wire[n..] + Unsent(y.s))
    ensures Conserved(Next(y, BodySome(n)))
  {
    var z := Next(y, BodySome(n));
    assert Same(z.r.buff, Filled(y, n)) && z.r.headDone == y.r.headDone;
    assert Same(Partial(z), Concat(y.pieces) + Filled(y, n)[..y.r.done + n]);
  }

  /** The bytes received make up a frame. */
  lemma FrameComplete(y: Sys, n: nat)
    requires Conserved(y) && Enabled(y, BodySome(n)) && Delivers(y, BodySome(n)) && HeadRead(y.pieces)
    ensures Filled(y, n)[..y.r.done + n] == Filled(y, n) && |Filled(y, n)| < MAX_PAYLOAD
    ensures Same(Concat(y.pieces) + Filled(y, n), Frame(Filled(y, n)))
  {
    DecodeFour(y.r.head);
    EncodeDecode(Concat(y.pieces));
  }

  lemma BodyDelivers(y: Sys, n: nat)
    requires Conserved(y) && Enabled(y, BodySome(n)) && Delivers(y, BodySome(n)) && |Filled(y, n)| < MAX_PAYLOAD
    requires Same(Stream(y.sent), Stream(y.r.out) + Frame(Filled(y, n)) + y.wire[n..] + Unsent(y.s))
    ensures Conserved(Next(y, BodySome(n)))
  {
    var z := Next(y, BodySome(n));
    assert Same(z.r.out, y.r.out + [Filled(y, n)]) && z.pieces == [];
    StreamSnoc(y.r.out, Filled(y, n));
    assert Partial(z) == [];
    AppendNone(Stream(z.r.out), Partial(z));
  }

  lemma AppendNone(a: Bytes, none: Bytes)
    requires none == []
    ensures Same(a + none, a)
  {
    assert a + none == a;
  }

  /** Every step keeps the conservation law, as long as no packet is delivered after a misread head. */
  lemma StepConserves(y: Sys, e: Event)
    requires Conserved(y) && Enabled(y, e)
    requires Delivers(y, e) ==> HeadRead(y.pieces)
    ensures Conserved(Next(y, e))
  {
    match e
    case AppSend(payload) => AppSendConserves(y, payload);
    case FlushIn => FlushConserves(y);
    case SendSome(n) => SendConserves(y, n);
    case SendFails => assert Unsent(y.s.(fatal := true)) == Unsent(y.s);
    case HeadSome(n) => HeadConserves(y, n);
    case BodySome(n) => BodyConserves(y, n);
    case ReceiveFails =>
  }

  // ---------- whole runs ----------

  /** The events lead from `y` to `z`, each complete head being read right. */
  ghost predicate SafeRun(y: Sys, es: seq<Event>, z: Sys)
    decreases |es|
  {
    if es == [] then y == z
    else
      && y.s.Valid() && y.r.Valid() && Enabled(y, es[0])
      && var x := Next(y, es[0]); x.r.Valid() && Pieces(x.pieces) && HeadSafe(x) && SafeRun(x, es[1..], z)
  }

  lemma {:induction false} RunKeepsInv(y: Sys, es: seq<Event>, z: Sys)
    requires Inv(y) && SafeRun(y, es, z)
    ensures Inv(z)
    decreases |es|
  {
    if es != [] {
      StepConserves(y, es[0]);
      RunKeepsInv(Next(y, es[0]), es[1..], z);
    }
  }

  lemma StartInv()
    ensures Inv(START)
  {
  }

  lemma InvGivesPrefix(y: Sys)
    requires Conserved(y)
    ensures y.r.out <= y.sent
  {
    var rest := Partial(y) + y.wire + Unsent(y.s);
    assert Stream(y.sent) == Stream(y.r.out) + rest;
    StreamPrefix(y.r.out, y.sent);
  }

  /**
   * Safety over every run: the packets delivered are a prefix of the payloads sent, in order and unaltered; and
   * when nothing is queued, on the wire or half received, everything sent has been delivered.
   */
  lemma DeliveredInOrder(es: seq<Event>, z: Sys)
    requires SafeRun(START, es, z)
    ensures z.r.out <= z.sent
    ensures z.s.inQueue == [] && z.s.queue == [] && z.wire == [] && z.r.headDone == 0 ==> z.r.out == z.sent
  {
    StartInv();
    RunKeepsInv(START, es, z);
    InvGivesPrefix(z);
    if z.s.inQueue == [] && z.s.queue == [] && z.wire == [] && z.r.headDone == 0 {
      assert Partial(z) == [] && Unsent(z.s) == [];
      assert Stream(z.sent) == Stream(z.r.out);
      StreamPrefix(z.sent, z.r.out);
    }
  }

  /** The events lead from `y` to `z`. */
  ghost predicate Runs(y: Sys, es: seq<Event>, z: Sys)
    decreases |es|
  {
    if es == [] then y == z
    else y.s.Valid() && y.r.Valid() && Enabled(y, es[0]) && Runs(Next(y, es[0]), es[1..], z)
  }

  /** Each receive on a head gets all of its four bytes or none. */
  predicate WholeHeads(es: seq<Event>) {
    forall i :: 0 <= i < |es| && es[i].HeadSome? ==> es[i].n == 0 || es[i].n == HEAD
  }

  /** All heads so far have arrived whole. */
  ghost predicate Whole(y: Sys) {
    Inv(y) && |y.pieces| <= 1 && (y.pieces != [] ==> y.r.headDone == HEAD)
  }

  lemma WholeStep(y: Sys, e: Event)
    requires Whole(y) && Enabled(y, e) && (e.HeadSome? ==> e.n == 0 || e.n == HEAD)
    ensures Whole(Next(y, e))
  {
    var x := Next(y, e);
    StepConserves(y, e);
    if e.HeadSome? && e.n == HEAD {
      ConcatLength(y.pieces);
      assert x.pieces == [y.wire[..HEAD]];
      OnePiece(x.pieces);
    }
  }

  lemma {:induction false} WholeHeadsAreSafe(y: Sys, es: seq<Event>, z: Sys)
    requires Whole(y) && WholeHeads(es) && Runs(y, es, z)
    ensures SafeRun(y, es, z) && Whole(z)
    decreases |es|
  {
    if es != [] {
      WholeStep(y, es[0]);
      WholeHeadsAreSafe(Next(y, es[0]), es[1..], z);
    }
  }

  /** The same for every run in which heads arrive whole: arbitrary partial sends, partial bodies and empty results. */
  lemma DeliveredInOrderWhenHeadsWhole(es: seq<Event>, z: Sys)
    requires Runs(START, es, z) && WholeHeads(es)
    ensures z.r.out <= z.sent
    ensures z.s.inQueue == [] && z.s.queue == [] && z.wire == [] && z.r.headDone == 0 ==> z.r.out == z.sent
  {
    StartInv();
    WholeHeadsAreSafe(START, es, z);
    DeliveredInOrder(es, z);
  }

  // ---------- everything sent can be delivered ----------

  /** The steps that move packets on; heads are received whole. */
  predicate MovesOn(e: Event) {
    e.FlushIn? || e.SendSome? || (e.HeadSome? && e.n == HEAD) || e.BodySome?
  }

  ghost predicate AllMoveOn(es: seq<Event>) {
    forall i :: 0 <= i < |es| ==> MovesOn(es[i])
  }

  lemma {:induction false} RunsConcat(y: Sys, a: seq<Event>, x: Sys, b: seq<Event>, z: Sys)
    requires Runs(y, a, x) && Runs(x, b, z)
    ensures Runs(y, a + b, z)
    decreases |a|
  {
    if a == [] {
      assert a + b == b;
    } else {
      assert (a + b)[1..] == a[1..] + b;
      RunsConcat(Next(y, a[0]), a[1..], x, b, z);
    }
  }

  lemma RunsFirst(y: Sys, e: Event, es: seq<Event>, z: Sys)
    requires y.s.Valid() && y.r.Valid() && Enabled(y, e) && Runs(Next(y, e), es, z)
    ensures Runs(y, [e] + es, z)
  {
    assert ([e] + es)[1..] == es;
  }

  /** The thread's queue can be put on the wire. */
  lemma {:induction false} SendAll(y: Sys) returns (es: seq<Event>, z: Sys)
    requires Whole(y) && !y.s.fatal && y.s.inQueue == []
    ensures Runs(y, es, z) && AllMoveOn(es) && Whole(z) && z.s.queue == [] && z.s.inQueue == []
    ensures z.sent == y.sent && z.r == y.r
    decreases |y.s.queue|
  {
    if y.s.queue == [] {
      es, z := [], y;
    } else {
      var e := SendSome(|y.s.queue[0]| - y.s.off);
      WholeStep(y, e);
      var rest;
      rest, z := SendAll(Next(y, e));
      es := [e] + rest;
      RunsFirst(y, e, rest, z);
    }
  }

  /** The bytes of the next payload that is not delivered have been taken from the wire or are on it. */
  lemma NextIsThere(y: Sys)
    requires Conserved(y) && y.s.queue == [] && y.s.inQueue == [] && y.r.out <= y.sent && |y.r.out| < |y.sent|
    ensures |Partial(y)| + |y.wire| >= HEAD + |y.sent[|y.r.out|]|
  {
    var k := |y.r.out|;
    assert y.sent == y.r.out + y.sent[k..];
    StreamAppend(y.r.out, y.sent[k..]);
    assert Unsent(y.s) == [];
  }

  /** What is on the wire can be received. */
  lemma {:induction false} ReceiveAll(y: Sys) returns (es: seq<Event>, z: Sys)
    requires Whole(y) && !y.r.fatal && y.s.queue == [] && y.s.inQueue == []
    ensures Runs(y, es, z) && AllMoveOn(es) && z.r.out == z.sent == y.sent
    decreases |y.sent| - |y.r.out|, HEAD - y.r.headDone
  {
    InvGivesPrefix(y);
    if |y.r.out| == |y.sent| {
      es, z := [], y;
    } else {
      var e;
      if y.r.headDone == HEAD {
        e := ReceiveRest(y);
      } else {
        e := ReceiveNextHead(y);
      }
      var rest;
      rest, z := ReceiveAll(Next(y, e));
      es := [e] + rest;
      RunsFirst(y, e, rest, z);
    }
  }

  /** The body buffer is as long as the next payload, whose bytes are all there. */
  lemma BodyIsThere(y: Sys)
    requires Whole(y) && y.s.queue == [] && y.s.inQueue == [] && y.r.out <= y.sent && y.r.headDone == HEAD
    ensures |y.r.out| < |y.sent| && |y.r.buff| == |y.sent[|y.r.out|]| && |y.r.buff| - y.r.done <= |y.wire|
  {
    NextPayload(y);
    NextIsThere(y);
    DecodeEncode(|y.sent[|y.r.out|]|);
  }

  /** What one step of that comes to. */
  ghost predicate MovedOn(y: Sys, e: Event, x: Sys) {
    && MovesOn(e) && Whole(x) && !x.r.fatal && x.s == y.s && x.sent == y.sent
    && (|x.r.out| == |y.r.out| + 1 || (x.r.out == y.r.out && x.r.headDone > y.r.headDone))
  }

  /** The rest of the body. */
  lemma ReceiveRest(y: Sys) returns (e: Event)
    requires Whole(y) && !y.r.fatal && y.s.queue == [] && y.s.inQueue == [] && y.r.out <= y.sent && y.r.headDone == HEAD
    ensures Enabled(y, e) && MovedOn(y, e, Next(y, e))
  {
    BodyIsThere(y);
    e := BodySome(|y.r.buff| - y.r.done);
    WholeStep(y, e);
  }

  lemma NoHead(y: Sys)
    requires Whole(y) && y.r.headDone != HEAD
    ensures y.r.headDone == 0 && Partial(y) == []
  {
    assert y.pieces == [] && Concat(y.pieces) == [];
  }

  /** The next head. */
  lemma ReceiveNextHead(y: Sys) returns (e: Event)
    requires Whole(y) && !y.r.fatal && y.s.queue == [] && y.s.inQueue == []
    requires y.r.out <= y.sent && |y.r.out| < |y.sent| && y.r.headDone != HEAD
    ensures Enabled(y, e) && MovedOn(y, e, Next(y, e))
  {
    NoHead(y);
    NextIsThere(y);
    e := HeadSome(HEAD);
    WholeStep(y, e);
  }

  /**
   * Progress: from every state reached with whole heads in which neither end has failed, a run of flushes, sends and
   * receives delivers everything sent so far.
   */
  lemma AllCanBeDelivered(es: seq<Event>, y: Sys) returns (more: seq<Event>, z: Sys)
    requires Runs(START, es, y) && WholeHeads(es) && !y.s.fatal && !y.r.fatal
    ensures Runs(y, more, z) && AllMoveOn(more) && z.r.out == z.sent == y.sent
  {
    StartInv();
    WholeHeadsAreSafe(START, es, y);
    more, z := DeliverAll(y);
  }

  lemma DeliverAll(y: Sys) returns (more: seq<Event>, z: Sys)
    requires Whole(y) && !y.s.fatal && !y.r.fatal
    ensures Runs(y, more, z) && AllMoveOn(more) && z.r.out == z.sent == y.sent
  {
    WholeStep(y, FlushIn);
    var sends, x := SendAll(Next(y, FlushIn));
    var receives;
    receives, z := ReceiveAll(x);
    RunsConcat(Next(y, FlushIn), sends, x, receives, z);
    RunsFirst(y, FlushIn, sends + receives, z);
    more := [FlushIn] + (sends + receives);
  }

  /**
   * Exactly when a delivery is right: the payload being received exists, and the packet put in the output queue
   * continues the sent payloads if and only if its head came in one piece or in a lucky split.
   */
  lemma DeliveryRightExactly(y: Sys, n: nat)
    requires Conserved(y) && Enabled(y, BodySome(n)) && Delivers(y, BodySome(n))
    ensures |y.r.out| < |y.sent|
    ensures Next(y, BodySome(n)).r.out <= y.sent <==>
              |y.pieces| == 1 || LuckySplit(y.pieces, |y.sent[|y.r.out|]|)
    ensures Next(y, BodySome(n)).r.out <= y.sent <==> HeadRead(y.pieces)
  {
    InvGivesPrefix(y);
    var k := |y.r.out|;
    var z := Next(y, BodySome(n));
    var head := Concat(y.pieces);
    BodyFills(y, n);
    NextPayload(y);
    var p := y.sent[k];
    DecodeEncode(|p|);
    HeadReadExactly(y.pieces, |p|);
    DecodeFour(y.r.head);
    assert |z.r.out[k]| == |y.r.buff| == Decode(Overlay(y.pieces));
    if HeadRead(y.pieces) {
      BodyConserves(y, n);
      InvGivesPrefix(z);
    }
  }

  /** The head bytes taken from the stream are those of the next payload. */
  lemma NextPayload(y: Sys)
    requires Conserved(y) && y.r.headDone == HEAD && y.r.out <= y.sent
    ensures |y.r.out| < |y.sent| && Concat(y.pieces) == EncodeU32(|y.sent[|y.r.out|]|)
  {
    var k := |y.r.out|;
    var rest := Partial(y) + y.wire + Unsent(y.s);
    assert y.sent == y.r.out + y.sent[k..];
    StreamAppend(y.r.out, y.sent[k..]);
    assert Stream(y.sent) == Stream(y.r.out) + rest;
    assert Stream(y.sent[k..]) == Stream(y.sent)[|Stream(y.r.out)|..] == rest;
    assert rest[..HEAD] == Concat(y.pieces);
    assert y.sent[k..] != [];
    assert Stream(y.sent[k..])[..HEAD] == Frame(y.sent[k])[..HEAD] == EncodeU32(|y.sent[k]|);
  }

  // ---------- exactly which runs are right ----------

  /** The packet being received has its head in one piece, or in a lucky split of its length. */
  predicate HeadLucky(y: Sys) {
    |y.pieces| == 1 || (|y.r.out| < |y.sent| && LuckySplit(y.pieces, |y.sent[|y.r.out|]|))
  }

  /** Every packet delivered along the run had such a head. */
  ghost predicate HeadsLucky(y: Sys, es: seq<Event>)
    decreases |es|
  {
    es != [] && y.s.Valid() && y.r.Valid() && Enabled(y, es[0]) ==>
      (Delivers(y, es[0]) ==> HeadLucky(y)) && HeadsLucky(Next(y, es[0]), es[1..])
  }

  /** The packet delivered k-th is not the payload sent k-th. */
  predicate WrongAt(y: Sys, k: nat) {
    k < |y.r.out| && k < |y.sent| && y.r.out[k] != y.sent[k]
  }

  lemma StaysWrong(y: Sys, e: Event, k: nat)
    requires y.s.Valid() && y.r.Valid() && Enabled(y, e) && WrongAt(y, k)
    ensures WrongAt(Next(y, e), k)
  {
  }

  lemma {:induction false} EndsWrong(y: Sys, es: seq<Event>, z: Sys, k: nat)
    requires Runs(y, es, z) && WrongAt(y, k)
    ensures WrongAt(z, k)
    decreases |es|
  {
    if es != [] {
      StaysWrong(y, es[0], k);
      EndsWrong(Next(y, es[0]), es[1..], z, k);
    }
  }

  /** A packet delivered after a misread head is wrong from then on. */
  lemma WrongDelivery(y: Sys, n: nat) returns (k: nat)
    requires Conserved(y) && Enabled(y, BodySome(n)) && Delivers(y, BodySome(n)) && !HeadLucky(y)
    ensures WrongAt(Next(y, BodySome(n)), k)
  {
    DeliveryRightExactly(y, n);
    InvGivesPrefix(y);
    k := |y.r.out|;
    PrefixSnoc(y.r.out, Filled(y, n), y.sent);
  }

  lemma PrefixSnoc(a: seq<Bytes>, x: Bytes, all: seq<Bytes>)
    requires a <= all && |a| < |all|
    ensures a + [x] <= all <==> x == all[|a|]
  {
    if x == all[|a|] {
      assert all[..|a| + 1] == a + [x];
    }
  }

  lemma {:induction false} RunRight(y: Sys, es: seq<Event>, z: Sys)
    requires Conserved(y) && Runs(y, es, z)
    ensures z.r.out <= z.sent <==> HeadsLucky(y, es)
    decreases |es|
  {
    if es == [] {
      InvGivesPrefix(y);
    } else {
      var e := es[0];
      if Delivers(y, e) && !HeadLucky(y) {
        var k := WrongDelivery(y, e.n);
        EndsWrong(Next(y, e), es[1..], z, k);
      } else {
        if Delivers(y, e) {
          DeliveryRightExactly(y, e.n);
        }
        StepConserves(y, e);
        RunRight(Next(y, e), es[1..], z);
      }
    }
  }

  /**
   * Exactly which runs are right: for every run, what has been delivered at its end is a prefix of the payloads
   * sent if and only if every packet delivered on the way had its head in one piece or in a lucky split.
   */
  lemma RunRightExactly(es: seq<Event>, z: Sys)
    requires Runs(START, es, z)
    ensures z.r.out <= z.sent <==> HeadsLucky(START, es)
  {
    StartInv();
    RunRight(START, es, z);
  }

  // ---------- a run that goes wrong ----------

  const LOST: Bytes := [7]
  const LOST_FRAME: Bytes := [1, 0, 0, 0, 7]

  /** The stages of the run: queued, flushed, on the wire, half a head received, the whole head misread. */
  ghost function Stage(k: nat): Sys {
    match k
    case 0 => START
    case 1 => START.(sent := [LOST], s := Sender([LOST_FRAME], [], 0, false))
    case 2 => START.(sent := [LOST], s := Sender([], [LOST_FRAME], 0, false))
    case 3 => START.(sent := [LOST], wire := LOST_FRAME)
    case 4 => START.(sent := [LOST], wire := [0, 0, 7], r := Receiver(2, [1, 0, 0, 0], [], 0, [], false),
                     pieces := [[1, 0]])
    case 5 => START.(sent := [LOST], wire := [7], r := Receiver(4, ZERO_HEAD, [], 0, [], false),
                     pieces := [[1, 0], [0, 0]])
    case _ => START.(sent := [LOST], wire := [7], r := Receiver(0, ZERO_HEAD, [], 0, [[]], false))
  }

  function StageEvent(k: nat): Event {
    match k
    case 0 => AppSend(LOST)
    case 1 => FlushIn
    case 2 => SendSome(5)
    case 3 => HeadSome(2)
    case 4 => HeadSome(2)
    case _ => BodySome(0)
  }

  ghost predicate StageFollows(k: nat) {
    var y, e := Stage(k), StageEvent(k);
    y.s.Valid() && y.r.Valid() && Enabled(y, e) && Next(y, e) == Stage(k + 1)
  }

  lemma LostIsSent()
    ensures StageFollows(0) && StageFollows(1)
  {
    assert Frame(LOST) == LOST_FRAME;
    assert [] + [LOST] == [LOST];
  }

  lemma LostIsOnWire()
    ensures StageFollows(2)
  {
    assert LOST_FRAME[0..5] == LOST_FRAME && [LOST_FRAME][1..] == [];
  }

  lemma HalfHead()
    ensures StageFollows(3)
  {
    var w := Stage(3).wire;
    assert w[..2] == [1, 0] && w[2..] == [0, 0, 7];
    assert Store(ZERO_HEAD, [1, 0]) == [1, 0, 0, 0];
  }

  lemma MisreadHead()
    ensures StageFollows(4)
  {
    var w := Stage(4).wire;
    assert w[..2] == [0, 0] && w[2..] == [7];
    assert Store([1, 0, 0, 0], [0, 0]) == ZERO_HEAD;
    DecodeFour(ZERO_HEAD);
    assert [[1, 0]] + [[0, 0]] == [[1, 0], [0, 0]];
  }

  lemma LostIsLost()
    ensures StageFollows(5)
  {
    DecodeFour(ZERO_HEAD);
    var w := Stage(5).wire;
    assert w[..0] == [] && w[0..] == w;
  }

  /** A one-byte payload whose head arrives in two halves is received as an empty packet. */
  lemma SplitHeadLosesPayload()
    ensures forall k: nat :: k < 6 ==> StageFollows(k)
    ensures Stage(0) == START && Stage(6).sent == [LOST] && Stage(6).r.out == [[]]
  {
    LostAtLast();
    forall k: nat | k < 6
      ensures StageFollows(k)
    {
      StageByStage(k);
    }
  }

  lemma LostAtLast()
    ensures Stage(0) == START && Stage(6).sent == [LOST] && Stage(6).r.out == [[]]
  {
  }

  lemma StageByStage(k: nat)
    requires k < 6
    ensures StageFollows(k)
  {
    if k < 2 {
      LostIsSent();
    } else if k == 2 {
      LostIsOnWire();
    } else if k == 3 {
      HalfHead();
    } else if k == 4 {
      MisreadHead();
    } else {
      LostIsLost();
    }
  }
}
