/** The packet manager object: its queues and counters as one turn of its thread updates them. */
module PacketManager {
  import opened Packets

  /** What a socket call returned. */
  datatype SendResult = Sent(n: nat) | SendWouldBlock | SendError
  datatype RecvResult = Got(bytes: Bytes) | RecvWouldBlock | RecvError

  /** `packet` is packet i, the first one whose id is among `ids`; if asked for it is taken out and nothing else is. */
  ghost predicate Taken(before: seq<Bytes>, after: seq<Bytes>, ids: seq<nat>, doRemove: bool, packet: Bytes, i: nat)
    requires i < |before| && forall k :: 0 <= k < |before| ==> |before[k]| >= HEAD
  {
    && packet == before[i] && Decode(packet[..HEAD]) in ids
    && (forall k :: 0 <= k < i ==> Decode(before[k][..HEAD]) !in ids)
    && after == if doRemove then before[..i] + before[i + 1..] else before
  }

  class Manager {
    var inQueue: seq<Bytes>
    var queue: seq<Bytes>
    var sendOff: nat
    var headDone: nat
    var head: Bytes
    var recvBuff: Bytes
    var recvDone: nat
    var outQueue: seq<Bytes>
    var fatal: bool

    ghost function SendingEnd(): Sender
      reads this
    {
      Sender(inQueue, queue, sendOff, fatal)
    }

    ghost function ReceivingEnd(): Receiver
      reads this
    {
      Receiver(headDone, head, recvBuff, recvDone, outQueue, fatal)
    }

    ghost predicate Valid()
      reads this
    {
      && SendingEnd().Valid() && ReceivingEnd().Valid()
      && (forall i :: 0 <= i < |queue| ==> |queue[i]| >= HEAD)
      && (forall i :: 0 <= i < |inQueue| ==> |inQueue[i]| >= HEAD)
    }

    constructor ()
      ensures Valid()
      ensures SendingEnd() == Sender([], [], 0, false)
      ensures ReceivingEnd() == Receiver(0, ZERO_HEAD, [], 0, [], false)
    {
      inQueue, queue, sendOff := [], [], 0;
      headDone, head, recvBuff, recvDone, outQueue := 0, ZERO_HEAD, [], 0, [];
      fatal := false;
    }

    /** Queues a packet: the length in four bytes, then the payload. */
    method Send(payload: Bytes)
      requires Valid() && |payload| < MAX_PAYLOAD
      modifies this`inQueue
      ensures Valid() && SendingEnd() == Enqueue(old(SendingEnd()), payload)
    {
      var packet := EncodeU32(|payload|);
      packet := packet + payload;
      inQueue := inQueue + [packet];
    }

    /** Moves the packets queued by callers to the thread's own queue, one by one. */
    method FlushInQueue()
      requires Valid()
      modifies this`inQueue, this`queue
      ensures Valid() && SendingEnd() == Flush(old(SendingEnd()))
      ensures inQueue == [] && queue == old(queue) + old(inQueue)
    {
      if |inQueue| == 0 {
        return;
      }
      for i := 0 to |inQueue|
        invariant inQueue == old(inQueue) && queue == old(queue) + inQueue[..i]
      {
        queue := queue + [inQueue[i]];
      }
      inQueue := [];
    }

    /** One turn of the sending loop; `bytes` is what the socket took. */
    method SendOnce(result: SendResult) returns (goOn: bool, bytes: Bytes)
      requires Valid() && queue != []
      requires result.Sent? ==> sendOff + result.n <= |queue[0]|
      modifies this`queue, this`sendOff, this`fatal
      ensures Valid() && goOn == result.Sent?
      ensures result.Sent? ==>
                && bytes == old(queue[0][sendOff..sendOff + result.n])
                && SendingEnd() == Transmit(old(SendingEnd()), result.n)
      ensures result.SendWouldBlock? ==> SendingEnd() == old(SendingEnd())
      ensures result.SendError? ==> SendingEnd() == old(SendingEnd()).(fatal := true)
      ensures !result.Sent? ==> bytes == []
    {
      bytes := [];
      match result
      case SendWouldBlock =>
        goOn := false;
      case SendError =>
        fatal := true;
        goOn := false;
      case Sent(n) =>
        bytes := queue[0][sendOff..sendOff + n];
        sendOff := sendOff + n;
        if sendOff == |queue[0]| {
          queue := queue[1..];
          sendOff := 0;
        }
        goOn := true;
    }

    /** The head part of one turn; returns whether the turn goes on to the body. */
    method ReceiveHeadPart(result: RecvResult) returns (goOn: bool)
      requires Valid() && headDone < HEAD
      requires result.Got? ==> headDone + |result.bytes| <= HEAD
      modifies this`headDone, this`head, this`recvBuff, this`fatal
      ensures Valid() && goOn == (!result.RecvError? && headDone == HEAD)
      ensures result.Got? ==> ReceivingEnd() == ReceiveHead(old(ReceivingEnd()), result.bytes)
      ensures result.RecvWouldBlock? ==> ReceivingEnd() == old(ReceivingEnd())
      ensures result.RecvError? ==> ReceivingEnd() == old(ReceivingEnd()).(fatal := true)
    {
      match result {
        case RecvWouldBlock =>
        case RecvError =>
          fatal := true;
          return false;
        case Got(bytes) =>
          head := bytes + head[|bytes|..];
          headDone := headDone + |bytes|;
          if headDone == HEAD {
            recvBuff := seq(Decode(head), _ => 0);
          }
      }
      goOn := headDone == HEAD;
    }

    /** The body part of one turn. */
    method ReceiveBodyPart(result: RecvResult)
      requires Valid() && headDone == HEAD
      requires result.Got? ==> recvDone + |result.bytes| <= |recvBuff|
      modifies this`headDone, this`head, this`recvBuff, this`recvDone, this`outQueue, this`fatal
      ensures Valid()
      ensures result.Got? ==> ReceivingEnd() == ReceiveBody(old(ReceivingEnd()), result.bytes)
      ensures result.RecvWouldBlock? ==> ReceivingEnd() == old(ReceivingEnd())
      ensures result.RecvError? ==> ReceivingEnd() == old(ReceivingEnd()).(fatal := true)
    {
      match result
      case RecvWouldBlock =>
      case RecvError =>
        fatal := true;
      case Got(bytes) =>
        recvBuff := recvBuff[..recvDone] + bytes + recvBuff[recvDone + |bytes|..];
        recvDone := recvDone + |bytes|;
        if recvDone == |recvBuff| {
          outQueue := outQueue + [recvBuff];
          recvBuff := [];
          headDone, head, recvDone := 0, ZERO_HEAD, 0;
        }
    }

    /** Takes the first received packet whose 32-bit id is among `ids`, leaving the others in order. */
    method GetNextPacketMatchID32(doRemove: bool, ids: seq<nat>) returns (found: bool, packet: Bytes)
      requires forall i :: 0 <= i < |outQueue| ==> |outQueue[i]| >= HEAD
      modifies this`outQueue
      ensures found <==> exists i :: 0 <= i < |old(outQueue)| && Decode(old(outQueue)[i][..HEAD]) in ids
      ensures !found ==> outQueue == old(outQueue)
      ensures found ==> exists i :: 0 <= i < |old(outQueue)| && Taken(old(outQueue), outQueue, ids, doRemove, packet, i)
    {
      packet := [];
      for i := 0 to |outQueue|
        invariant outQueue == old(outQueue)
        invariant forall k :: 0 <= k < i ==> Decode(outQueue[k][..HEAD]) !in ids
      {
        var id := Decode(outQueue[i][..HEAD]);
        for j := 0 to |ids|
          invariant outQueue == old(outQueue)
          invariant id !in ids[..j]
        {
          if id == ids[j] {
            packet := outQueue[i];
            if doRemove {
              outQueue := outQueue[..i] + outQueue[i + 1..];
            }
            assert Taken(old(outQueue), outQueue, ids, doRemove, packet, i);
            return true, packet;
          }
        }
        assert ids[..|ids|] == ids;
      }
      found := false;
    }
  }
}
