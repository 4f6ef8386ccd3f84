/** What fragmentation and reassembly promise: one read, arbitrary streams, and every interleaving. */
module ServentProperties {
  import opened Bytes
  import opened Servent

  // ---------- one message through one read ----------

  /** A reader that has taken exactly the first `written` bytes of `data`, all in full packets. */
  ghost predicate ReadSoFar(rs: ReadState, data: Data, written: nat, seqNum: nat, fragSeq: nat) {
    && Progress(data, written, fragSeq)
    && written < |data|
    && rs.got == data[..written]
    && (fragSeq == 0 ==> rs == ReadStart)
    && (fragSeq > 0 ==> rs.lastSeq == seqNum && rs.lastFrag == fragSeq - 1)
  }

  /** The packets of `data` that follow the first `k` of them. */
  function FragmentsAfter(data: Data, seqNum: nat, k: nat): seq<Packet>
    requires |data| <= MAX_USERDATA && seqNum < 64 && k <= 63
  {
    FragmentsFrom(data, if k * PKT_USERDATA_MAX < |data| then k * PKT_USERDATA_MAX else |data|, seqNum, k)
  }

  lemma ReassembleFirst(rs: ReadState, p: Packet, rest: seq<Packet>, bufferSize: nat)
    ensures Reassemble(rs, [p] + rest, bufferSize)
         == var (status, rs') := Accept(rs, p, bufferSize);
            if status != NoError then Failed(status, rs'.got, rest)
            else if Terminal(rs'.msgType) then Complete(rs'.got, rest)
            else Reassemble(rs', rest, bufferSize)
  {
    assert ([p] + rest)[0] == p && ([p] + rest)[1..] == rest;
  }

  /** The next fragment at a reader that has everything before it. */
  lemma FragmentAccepted(rs: ReadState, data: Data, written: nat, seqNum: nat, fragSeq: nat, bufferSize: nat)
    requires seqNum < 64 && ReadSoFar(rs, data, written, seqNum, fragSeq)
    ensures var size := NextSize(data, written);
      var p := NextPacket(data, written, seqNum, fragSeq);
      Accept(rs, p, bufferSize)
      == if written + size > bufferSize then (ReadBufferTooSmall, rs)
         else (NoError, ReadState(seqNum, fragSeq, p.msgType, data[..written + size]))
    ensures Terminal(NextPacket(data, written, seqNum, fragSeq).msgType) <==> NextSize(data, written) == |data| - written
  {
    var size := NextSize(data, written);
    var p := NextPacket(data, written, seqNum, fragSeq);
    assert p.data[..p.dataLen] == data[written..written + size];
    assert data[..written] + data[written..written + size] == data[..written + size];
  }

  lemma {:induction false} ReassembleFrom(
    rs: ReadState, data: Data, written: nat, seqNum: nat, fragSeq: nat, rest: seq<Packet>, bufferSize: nat)
    requires seqNum < 64 && ReadSoFar(rs, data, written, seqNum, fragSeq) && written <= bufferSize
    ensures Reassemble(rs, FragmentsFrom(data, written, seqNum, fragSeq) + rest, bufferSize)
         == if |data| <= bufferSize then Complete(data, rest)
            else var kept := bufferSize / PKT_USERDATA_MAX;
                 Failed(ReadBufferTooSmall, data[..kept * PKT_USERDATA_MAX],
                        FragmentsAfter(data, seqNum, kept + 1) + rest)
    decreases |data| - written
  {
    hide Reassemble, FragmentsFrom, NextPacket, Accept;
    var size := NextSize(data, written);
    var first := NextPacket(data, written, seqNum, fragSeq);
    var tail := FragmentsFrom(data, written + size, seqNum, fragSeq + 1);
    FirstFragment(data, written, seqNum, fragSeq);
    assert [first] + tail + rest == [first] + (tail + rest);
    ReassembleFirst(rs, first, tail + rest, bufferSize);
    FragmentAccepted(rs, data, written, seqNum, fragSeq, bufferSize);
    if written + size > bufferSize {
      assert bufferSize / PKT_USERDATA_MAX == fragSeq;
    } else if size == |data| - written {
      NoFragment(data, seqNum, fragSeq + 1);
      assert tail + rest == rest && data[..written + size] == data;
    } else {
      ReassembleFrom(ReadState(seqNum, fragSeq, first.msgType, data[..written + size]),
                     data, written + size, seqNum, fragSeq + 1, rest, bufferSize);
    }
  }

  /** A read delivers a written message exactly when the buffer holds it; otherwise it reports the
      small buffer, keeps only whole packets, and leaves the rest of the message in the pipe. */
  lemma FragmentsReadBack(data: Data, seqNum: nat, rest: seq<Packet>, bufferSize: nat)
    requires 0 < |data| <= MAX_USERDATA && seqNum < 64
    ensures Reassemble(ReadStart, Fragments(data, seqNum) + rest, bufferSize) == Complete(data, rest)
       <==> |data| <= bufferSize
    ensures |data| > bufferSize ==>
      var kept := bufferSize / PKT_USERDATA_MAX;
      Reassemble(ReadStart, Fragments(data, seqNum) + rest, bufferSize)
      == Failed(ReadBufferTooSmall, data[..kept * PKT_USERDATA_MAX],
                FragmentsAfter(data, seqNum, kept + 1) + rest)
  {
    ReassembleFrom(ReadStart, data, 0, seqNum, 0, rest, bufferSize);
  }

  /** Fragment k of a message carries number k and the message number; there are never more than 63. */
  lemma {:induction false} FragmentNumbers(data: Data, written: nat, seqNum: nat, fragSeq: nat)
    requires Progress(data, written, fragSeq) && seqNum < 64
    ensures var ps := FragmentsFrom(data, written, seqNum, fragSeq);
      && |ps| == (|data| - written + PKT_USERDATA_MAX - 1) / PKT_USERDATA_MAX
      && (written < |data| ==> fragSeq + |ps| <= 63)
      && forall k :: 0 <= k < |ps| ==>
           ps[k].seqNum == seqNum && ps[k].fragSeq == fragSeq + k && ExtractPacketData(ps[k]).Some?
    decreases |data| - written
  {
    if written < |data| {
      var tail := FragmentsFrom(data, written + NextSize(data, written), seqNum, fragSeq + 1);
      FragmentNumbers(data, written + NextSize(data, written), seqNum, fragSeq + 1);
      forall k | 0 <= k < 1 + |tail|
        ensures var p := FragmentsFrom(data, written, seqNum, fragSeq)[k];
          p.seqNum == seqNum && p.fragSeq == fragSeq + k && ExtractPacketData(p).Some?
      {
        if k > 0 {
          assert FragmentsFrom(data, written, seqNum, fragSeq)[k] == tail[k - 1];
        }
      }
    }
  }

  /** Fragment k of a message, as it goes out: the 1020 octets at 1020 * k, or what is left there, and a type that
      tells the first, the last and the only one. */
  lemma {:induction false} FragmentIs(data: Data, seqNum: nat, k: nat)
    requires |data| <= MAX_USERDATA && seqNum < 64 && 1020 * k < |data|
    ensures k < |Fragments(data, seqNum)|
    ensures var end := if 1020 * (k + 1) < |data| then 1020 * (k + 1) else |data|;
      var msgType := if end < |data| then (if k == 0 then 0x21 else 0x22) else if k == 0 then 0x20 else 0x23;
      Fragments(data, seqNum)[k] == RawPacket(0x0A, msgType, seqNum, k, end - 1020 * k, data[1020 * k..end])
  {
    FragmentsDrop(data, seqNum, k);
    FirstFragment(data, 1020 * k, seqNum, k);
    assert Fragments(data, seqNum)[k] == Fragments(data, seqNum)[k..][0];
  }

  // ---------- any stream of packets ----------

  /** The user octets of the packets, one after the other. */
  function Payload(ps: seq<Packet>): Data {
    if ps == [] then [] else ps[0].data[..ps[0].dataLen] + Payload(ps[1..])
  }

  lemma PayloadHead(ps: seq<Packet>)
    requires ps != []
    ensures Payload(ps) == ps[0].data[..ps[0].dataLen] + Payload(ps[1..])
  {
  }

  /** A packet of this protocol with at least one and at most 1020 user octets. */
  predicate Proper(p: Packet) { p.header == 0x0A && 0x20 <= p.msgType <= 0x23 && 0 < p.dataLen <= 1020 }

  /** A packet that ends a message. */
  predicate Ends(p: Packet) { p.msgType == 0x20 || p.msgType == 0x23 }

  /** A run: accepted packets of one message with consecutive fragment numbers, only the last of
      which ends a message. */
  ghost predicate IsRun(ps: seq<Packet>) {
    && ps != []
    && forall i :: 0 <= i < |ps| ==>
         && Proper(ps[i])
         && ps[i].seqNum == ps[0].seqNum
         && ps[i].fragSeq == ps[0].fragSeq + i
         && (Ends(ps[i]) <==> i == |ps| - 1)
  }

  /** The packets continue a read that last took fragment `lastFrag` of message `lastSeq`, if any. */
  predicate RunFrom(lastSeq: nat, lastFrag: nat, ps: seq<Packet>)
    decreases |ps|
  {
    && ps != []
    && Proper(ps[0])
    && (lastSeq == INVALID_SEQNUM || ps[0].seqNum == lastSeq)
    && (lastFrag == INVALID_SEQNUM || ps[0].fragSeq == lastFrag + 1)
    && if Ends(ps[0]) then |ps| == 1 else RunFrom(ps[0].seqNum, ps[0].fragSeq, ps[1..])
  }

  lemma {:induction false} RunFromIsRun(ps: seq<Packet>)
    ensures RunFrom(INVALID_SEQNUM, INVALID_SEQNUM, ps) <==> IsRun(ps)
    decreases |ps|
  {
    if |ps| > 1 {
      var tail := ps[1..];
      RunFromIsRun(tail);
      if IsRun(ps) {
        forall i | 0 <= i < |tail|
          ensures Proper(tail[i]) && tail[i].seqNum == tail[0].seqNum
          ensures tail[i].fragSeq == tail[0].fragSeq + i && (Ends(tail[i]) <==> i == |tail| - 1)
        {
          assert tail[i] == ps[i + 1];
        }
      }
      if RunFrom(INVALID_SEQNUM, INVALID_SEQNUM, ps) {
        assert RunFrom(ps[0].seqNum, ps[0].fragSeq, tail);
        forall i | 0 <= i < |ps|
          ensures Proper(ps[i]) && ps[i].seqNum == ps[0].seqNum
          ensures ps[i].fragSeq == ps[0].fragSeq + i && (Ends(ps[i]) <==> i == |ps| - 1)
        {
          if i > 0 {
            assert ps[i] == tail[i - 1];
          }
        }
      }
    }
  }

  lemma {:induction false} CompleteFrom(
    rs: ReadState, stream: seq<Packet>, bufferSize: nat, message: Data, n: nat)
    requires n <= |stream|
    ensures Reassemble(rs, stream, bufferSize) == Complete(message, stream[n..])
       <==> && RunFrom(rs.lastSeq, rs.lastFrag, stream[..n])
            && message == rs.got + Payload(stream[..n]) && |message| <= bufferSize
    decreases |stream|
  {
    if stream == [] || n == 0 {
      CompleteConsumes(rs, stream, bufferSize);
    } else {
      var p, tail := stream[0], stream[1..];
      var (status, rs') := Accept(rs, p, bufferSize);
      assert stream[n..] == tail[n - 1..];
      assert stream[..n][0] == p && stream[..n][1..] == tail[..n - 1];
      if status != NoError {
        assert !Reassemble(rs, stream, bufferSize).Complete?;
        PayloadHead(stream[..n]);
      } else {
        PayloadHead(stream[..n]);
        assert rs.got + Payload(stream[..n]) == rs'.got + Payload(tail[..n - 1]);
        if Terminal(p.msgType) {
          assert Reassemble(rs, stream, bufferSize) == Complete(rs'.got, tail);
          assert n == 1 ==> Payload(tail[..n - 1]) == [];
        } else {
          CompleteFrom(rs', tail, bufferSize, message, n - 1);
        }
      }
    }
  }

  lemma {:induction false} CompleteConsumes(rs: ReadState, stream: seq<Packet>, bufferSize: nat)
    ensures var r := Reassemble(rs, stream, bufferSize);
      r.Complete? ==> |r.rest| < |stream| && r.rest == stream[|stream| - |r.rest|..]
    decreases |stream|
  {
    if stream != [] {
      var (status, rs') := Accept(rs, stream[0], bufferSize);
      CompleteConsumes(rs', stream[1..], bufferSize);
    }
  }

  /** On an arbitrary packet stream a read succeeds exactly when a run heads the stream and its
      payloads fit the buffer; it delivers their concatenation and leaves what follows the run. */
  lemma ReadSucceedsExactlyOnRuns(stream: seq<Packet>, bufferSize: nat, message: Data, rest: seq<Packet>)
    ensures Reassemble(ReadStart, stream, bufferSize) == Complete(message, rest)
       <==> exists n :: 0 <= n <= |stream| && rest == stream[n..] && IsRun(stream[..n])
                        && message == Payload(stream[..n]) && |message| <= bufferSize
  {
    CompleteConsumes(ReadStart, stream, bufferSize);
    forall n | 0 <= n <= |stream| && rest == stream[n..]
      ensures Reassemble(ReadStart, stream, bufferSize) == Complete(message, rest)
         <==> IsRun(stream[..n]) && message == Payload(stream[..n]) && |message| <= bufferSize
    {
      CompleteFrom(ReadStart, stream, bufferSize, message, n);
      RunFromIsRun(stream[..n]);
      assert ReadStart.got + Payload(stream[..n]) == Payload(stream[..n]);
    }
    if Reassemble(ReadStart, stream, bufferSize) == Complete(message, rest) {
      assert rest == stream[|stream| - |rest|..];
    }
  }

  // ---------- the streams that are refused ----------

  /** Packets that begin a message and do not end it. */
  ghost predicate OpenRun(ps: seq<Packet>) {
    forall i :: 0 <= i < |ps| ==>
      && Proper(ps[i]) && !Ends(ps[i])
      && ps[i].seqNum == ps[0].seqNum && ps[i].fragSeq == ps[0].fragSeq + i
  }

  /** What is wrong with a packet that comes after an open run, in the order in which it is noticed. */
  function FaultOf(ps: seq<Packet>, p: Packet, bufferSize: nat): Status {
    if !Proper(p) then BadPacket
    else if ps != [] && p.seqNum != ps[0].seqNum then Desynchronized
    else if ps != [] && p.fragSeq != ps[0].fragSeq + |ps| then PacketsNotOrdered
    else if |Payload(ps)| + p.dataLen > bufferSize then ReadBufferTooSmall
    else NoError
  }

  predicate OpenFrom(lastSeq: nat, lastFrag: nat, ps: seq<Packet>)
    decreases |ps|
  {
    ps != [] ==>
      && Proper(ps[0]) && !Ends(ps[0])
      && (lastSeq == INVALID_SEQNUM || ps[0].seqNum == lastSeq)
      && (lastFrag == INVALID_SEQNUM || ps[0].fragSeq == lastFrag + 1)
      && OpenFrom(ps[0].seqNum, ps[0].fragSeq, ps[1..])
  }

  lemma OpenFromWeaker(lastSeq: nat, lastFrag: nat, ps: seq<Packet>)
    requires OpenFrom(lastSeq, lastFrag, ps)
    ensures OpenFrom(INVALID_SEQNUM, INVALID_SEQNUM, ps)
  {
  }

  lemma {:induction false} OpenFromIsOpen(ps: seq<Packet>)
    ensures OpenFrom(INVALID_SEQNUM, INVALID_SEQNUM, ps) <==> OpenRun(ps)
    decreases |ps|
  {
    if |ps| > 1 {
      var tail := ps[1..];
      OpenFromIsOpen(tail);
      if OpenRun(ps) {
        forall i | 0 <= i < |tail|
          ensures Proper(tail[i]) && !Ends(tail[i])
          ensures tail[i].seqNum == tail[0].seqNum && tail[i].fragSeq == tail[0].fragSeq + i
        {
          assert tail[i] == ps[i + 1];
        }
      }
      if OpenFrom(INVALID_SEQNUM, INVALID_SEQNUM, ps) {
        assert OpenFrom(ps[0].seqNum, ps[0].fragSeq, tail);
        OpenFromWeaker(ps[0].seqNum, ps[0].fragSeq, tail);
        forall i | 0 <= i < |ps|
          ensures Proper(ps[i]) && !Ends(ps[i])
          ensures ps[i].seqNum == ps[0].seqNum && ps[i].fragSeq == ps[0].fragSeq + i
        {
          if i > 0 {
            assert ps[i] == tail[i - 1];
          }
        }
      }
    }
  }

  /** Reading goes on as long as packets of an open run fit the buffer. */
  lemma {:induction false} WaitingFrom(rs: ReadState, ps: seq<Packet>, bufferSize: nat)
    requires |rs.got| <= bufferSize
    ensures var r := Reassemble(rs, ps, bufferSize);
      && (r.Waiting? <==> OpenFrom(rs.lastSeq, rs.lastFrag, ps) && |rs.got + Payload(ps)| <= bufferSize)
      && (r.Waiting? ==> r.state == if ps == [] then rs else
            ReadState(ps[|ps| - 1].seqNum, ps[|ps| - 1].fragSeq, ps[|ps| - 1].msgType, rs.got + Payload(ps)))
    decreases |ps|
  {
    if ps != [] {
      var (status, rs') := Accept(rs, ps[0], bufferSize);
      PayloadHead(ps);
      if status == NoError && !Terminal(rs'.msgType) {
        WaitingFrom(rs', ps[1..], bufferSize);
        assert rs.got + Payload(ps) == rs'.got + Payload(ps[1..]);
      }
    }
  }

  /** A read that fails does so at one packet, and everything before it was fine. */
  lemma {:induction false} FailsAt(rs: ReadState, stream: seq<Packet>, bufferSize: nat) returns (n: nat)
    requires Reassemble(rs, stream, bufferSize).Failed?
    ensures n < |stream| && Reassemble(rs, stream[..n], bufferSize).Waiting?
    ensures var r := Reassemble(rs, stream, bufferSize);
      var s := Reassemble(rs, stream[..n], bufferSize).state;
      r == Failed(Accept(s, stream[n], bufferSize).0, s.got, stream[n + 1..]) && r.error != NoError
    decreases |stream|
  {
    var (status, rs') := Accept(rs, stream[0], bufferSize);
    if status != NoError {
      n := 0;
    } else {
      var k := FailsAt(rs', stream[1..], bufferSize);
      n := k + 1;
      assert stream[..n][0] == stream[0] && stream[..n][1..] == stream[1..][..k];
    }
  }

  lemma FaultIs(ps: seq<Packet>, p: Packet, bufferSize: nat)
    requires OpenRun(ps) && |Payload(ps)| <= bufferSize
    ensures Reassemble(ReadStart, ps, bufferSize).Waiting?
    ensures var s := Reassemble(ReadStart, ps, bufferSize).state;
      s.got == Payload(ps) && Accept(s, p, bufferSize).0 == FaultOf(ps, p, bufferSize)
  {
    hide Reassemble;
    OpenFromIsOpen(ps);
    WaitingFrom(ReadStart, ps, bufferSize);
    assert ReadStart.got + Payload(ps) == Payload(ps);
  }

  lemma CutAt(stream: seq<Packet>, n: nat)
    requires n < |stream|
    ensures stream == stream[..n] + stream[n..] && stream[n..] == [stream[n]] + stream[n + 1..]
  {
  }

  /** On an arbitrary packet stream a read fails exactly at the first packet with which something is wrong, after
      an open run; it reports what, keeps the octets before it, and has used up the packet. */
  lemma ReadFailsExactly(stream: seq<Packet>, bufferSize: nat, error: Status, partial: Data, rest: seq<Packet>)
    ensures Reassemble(ReadStart, stream, bufferSize) == Failed(error, partial, rest)
       <==> exists n :: 0 <= n < |stream| && rest == stream[n + 1..] && OpenRun(stream[..n])
                        && partial == Payload(stream[..n]) && |partial| <= bufferSize
                        && error == FaultOf(stream[..n], stream[n], bufferSize) != NoError
  {
    hide Reassemble, Accept, FaultOf, OpenRun;
    if Reassemble(ReadStart, stream, bufferSize) == Failed(error, partial, rest) {
      var n := FailsAt(ReadStart, stream, bufferSize);
      WaitingFrom(ReadStart, stream[..n], bufferSize);
      OpenFromIsOpen(stream[..n]);
      assert ReadStart.got + Payload(stream[..n]) == Payload(stream[..n]);
      FaultIs(stream[..n], stream[n], bufferSize);
    }
    if n :| 0 <= n < |stream| && rest == stream[n + 1..] && OpenRun(stream[..n])
            && partial == Payload(stream[..n]) && |partial| <= bufferSize
            && error == FaultOf(stream[..n], stream[n], bufferSize) != NoError {
      FaultIs(stream[..n], stream[n], bufferSize);
      var state := Reassemble(ReadStart, stream[..n], bufferSize).state;
      CutAt(stream, n);
      ReassembleResumes(ReadStart, stream[..n], stream[n..], bufferSize);
      ReassembleFirst(state, stream[n], rest, bufferSize);
      FailedKeeps(state, stream[n], bufferSize);
    }
  }

  lemma FailedKeeps(rs: ReadState, p: Packet, bufferSize: nat)
    ensures Accept(rs, p, bufferSize).0 != NoError ==> Accept(rs, p, bufferSize).1 == rs
  {
  }

  lemma {:induction false} FragmentsDrop(data: Data, seqNum: nat, k: nat)
    requires k * PKT_USERDATA_MAX < |data| <= MAX_USERDATA && seqNum < 64
    ensures k < |Fragments(data, seqNum)|
    ensures Fragments(data, seqNum)[k..] == FragmentsFrom(data, k * PKT_USERDATA_MAX, seqNum, k)
  {
    if k > 0 {
      FragmentsDrop(data, seqNum, k - 1);
      var all, tail := Fragments(data, seqNum), FragmentsFrom(data, (k - 1) * PKT_USERDATA_MAX, seqNum, k - 1);
      assert tail[1..] == FragmentsFrom(data, k * PKT_USERDATA_MAX, seqNum, k);
      assert all[k - 1..][1..] == all[k..] && |tail| > 1;
    }
  }

  /** The reader never asks that a run begin with fragment 0: when any number k of leading packets of a
      message is lost, a read quietly delivers the remainder, which is the message only for k = 0. */
  lemma LostHeadGoesUnnoticed(data: Data, seqNum: nat, k: nat, rest: seq<Packet>, bufferSize: nat)
    requires k * PKT_USERDATA_MAX < |data| <= MAX_USERDATA && seqNum < 64
    requires |data| - k * PKT_USERDATA_MAX <= bufferSize
    ensures k < |Fragments(data, seqNum)|
    ensures Reassemble(ReadStart, Fragments(data, seqNum)[k..] + rest, bufferSize)
         == Complete(data[k * PKT_USERDATA_MAX..], rest)
    ensures data[k * PKT_USERDATA_MAX..] == data <==> k == 0
  {
    var lost := k * PKT_USERDATA_MAX;
    FragmentsDrop(data, seqNum, k);
    var tail := FragmentsFrom(data, lost, seqNum, k);
    var stream, n := tail + rest, |tail|;
    var mid := if k == 0 then ReadStart else ReadState(seqNum, k - 1, PKT_FRAGDATA, data[..lost]);
    ReassembleFrom(mid, data, lost, seqNum, k, rest, |data|);
    assert stream[n..] == rest;
    CompleteFrom(mid, stream, |data|, data, n);
    assert Payload(stream[..n]) == data[lost..];
    CompleteFrom(ReadStart, stream, bufferSize, data[lost..], n);
  }

  // ---------- every interleaving of a writer and a reader ----------

  /** The receiving thread: it reads one message after another into a buffer of MAX_USERDATA bytes. */
  datatype Receiver = Receiver(read: ReadState, delivered: seq<Data>, status: Status)

  function Receive(r: Receiver, p: Packet): Receiver {
    if r.status != NoError then r else
    var (status, rs) := Accept(r.read, p, MAX_USERDATA);
    if status != NoError then r.(status := status)
    else if Terminal(rs.msgType) then Receiver(ReadStart, r.delivered + [rs.got], NoError)
    else r.(read := rs)
  }

  function ReceiveAll(r: Receiver, ps: seq<Packet>): Receiver
    decreases |ps|
  {
    if ps == [] then r else ReceiveAll(Receive(r, ps[0]), ps[1..])
  }

  /** A writer working through its messages, a reader, and the packets in between. */
  datatype System = System(
    outbox: seq<Data>, data: Data, written: nat, fragSeq: nat, nextSeq: nat,
    channel: seq<Packet>, receiver: Receiver)

  function Initial(messages: seq<Data>, seqNum: nat): System {
    System(messages, [], 0, 0, seqNum, [], Receiver(ReadStart, [], NoError))
  }

  datatype Step = WriterStep | ReaderStep

  /** One packet written, or the next message taken up: too long a message is refused, and an empty
      one uses up a message number without sending anything. */
  function WriterMoves(s: System): System
    requires Progress(s.data, s.written, s.fragSeq) && s.nextSeq < 64
  {
    if s.written < |s.data| then
      var written := s.written + NextSize(s.data, s.written);
      s.(channel := s.channel + [NextPacket(s.data, s.written, s.nextSeq, s.fragSeq)],
         written := written, fragSeq := s.fragSeq + 1,
         nextSeq := if written == |s.data| then (s.nextSeq + 1) % 64 else s.nextSeq)
    else if s.outbox == [] then s
    else if |s.outbox[0]| > MAX_USERDATA then s.(outbox := s.outbox[1..])
    else if s.outbox[0] == [] then s.(outbox := s.outbox[1..], nextSeq := (s.nextSeq + 1) % 64)
    else s.(outbox := s.outbox[1..], data := s.outbox[0], written := 0, fragSeq := 0)
  }

  function ReaderMoves(s: System): System {
    if s.channel == [] then s
    else s.(channel := s.channel[1..], receiver := Receive(s.receiver, s.channel[0]))
  }

  ghost predicate WellFormed(s: System) {
    && Progress(s.data, s.written, s.fragSeq)
    && s.nextSeq < 64
    && forall p :: p in s.channel ==> p.fragSeq <= 62
  }

  function Move(s: System, step: Step): (s': System)
    requires WellFormed(s)
    ensures WellFormed(s')
  {
    match step
    case WriterStep =>
      assert s.written < |s.data| ==>
        NextPacket(s.data, s.written, s.nextSeq, s.fragSeq).fragSeq <= 62;
      WriterMoves(s)
    case ReaderStep => ReaderMoves(s)
  }

  function Run(s: System, schedule: seq<Step>): (s': System)
    requires WellFormed(s)
    ensures WellFormed(s')
    decreases |schedule|
  {
    if schedule == [] then s else Run(Move(s, schedule[0]), schedule[1..])
  }

  /** The messages a write accepts and sends at least one packet for. */
  function Deliverable(messages: seq<Data>): seq<Data> {
    if messages == [] then []
    else (if 0 < |messages[0]| <= MAX_USERDATA then [messages[0]] else []) + Deliverable(messages[1..])
  }

  /** All packets of a list of messages. */
  function Stream(messages: seq<Data>, seqNum: nat): seq<Packet>
    requires seqNum < 64
  {
    if messages == [] then []
    else if |messages[0]| > MAX_USERDATA then Stream(messages[1..], seqNum)
    else Fragments(messages[0], seqNum) + Stream(messages[1..], (seqNum + 1) % 64)
  }

  /** The packets the writer will still put on the channel. */
  function Remaining(s: System): seq<Packet>
    requires WellFormed(s)
  {
    if s.written < |s.data|
    then FragmentsFrom(s.data, s.written, s.nextSeq, s.fragSeq) + Stream(s.outbox, (s.nextSeq + 1) % 64)
    else Stream(s.outbox, s.nextSeq)
  }

  lemma {:induction false} ReceiveAllAppend(r: Receiver, ps: seq<Packet>, qs: seq<Packet>)
    ensures ReceiveAll(r, ps + qs) == ReceiveAll(ReceiveAll(r, ps), qs)
    decreases |ps|
  {
    if ps == [] {
      assert ps + qs == qs;
    } else {
      assert (ps + qs)[0] == ps[0] && (ps + qs)[1..] == ps[1..] + qs;
      ReceiveAllAppend(Receive(r, ps[0]), ps[1..], qs);
    }
  }

  /** The receiving thread does packet by packet what successive reads do. */
  lemma {:induction false} ReceiveFollowsReads(rs: ReadState, delivered: seq<Data>, ps: seq<Packet>)
    ensures match Reassemble(rs, ps, MAX_USERDATA)
      case Complete(message, rest) =>
        ReceiveAll(Receiver(rs, delivered, NoError), ps)
        == ReceiveAll(Receiver(ReadStart, delivered + [message], NoError), rest)
      case Failed(error, _, _) => ReceiveAll(Receiver(rs, delivered, NoError), ps).status == error
      case Waiting(state) => ReceiveAll(Receiver(rs, delivered, NoError), ps) == Receiver(state, delivered, NoError)
    decreases |ps|
  {
    if ps != [] {
      var (status, rs') := Accept(rs, ps[0], MAX_USERDATA);
      if status != NoError {
        ReceiveAllKeeps(Receiver(rs, delivered, status), ps[1..]);
      } else if !Terminal(rs'.msgType) {
        ReceiveFollowsReads(rs', delivered, ps[1..]);
      }
    }
  }

  /** Deliveries are never taken back and an error is never forgotten. */
  lemma {:induction false} ReceiveAllKeeps(r: Receiver, ps: seq<Packet>)
    ensures r.delivered <= ReceiveAll(r, ps).delivered
    ensures r.status != NoError ==> ReceiveAll(r, ps) == r
    decreases |ps|
  {
    if ps != [] {
      ReceiveAllKeeps(Receive(r, ps[0]), ps[1..]);
    }
  }

  lemma NoStream(seqNum: nat, r: Receiver)
    requires seqNum < 64
    ensures Deliverable([]) == [] && ReceiveAll(r, Stream([], seqNum)) == r
  {
  }

  lemma FirstDeliverable(messages: seq<Data>)
    requires messages != []
    ensures Deliverable(messages)
         == (if 0 < |messages[0]| <= MAX_USERDATA then [messages[0]] else []) + Deliverable(messages[1..])
  {
  }

  /** A thread at the start of a message takes one that was written. */
  lemma MessageReceived(message: Data, seqNum: nat, delivered: seq<Data>, later: seq<Packet>)
    requires 0 < |message| <= MAX_USERDATA && seqNum < 64
    ensures ReceiveAll(Receiver(ReadStart, delivered, NoError), Fragments(message, seqNum) + later)
         == ReceiveAll(Receiver(ReadStart, delivered + [message], NoError), later)
  {
    hide ReceiveAll, Reassemble, Fragments;
    FragmentsReadBack(message, seqNum, later, MAX_USERDATA);
    ReceiveFollowsReads(ReadStart, delivered, Fragments(message, seqNum) + later);
  }

  lemma {:induction false} StreamDelivered(messages: seq<Data>, seqNum: nat, delivered: seq<Data>)
    requires seqNum < 64
    ensures ReceiveAll(Receiver(ReadStart, delivered, NoError), Stream(messages, seqNum))
         == Receiver(ReadStart, delivered + Deliverable(messages), NoError)
    decreases |messages|
  {
    hide ReceiveAll, Stream, Deliverable, FragmentsFrom;
    if messages == [] {
      NoStream(seqNum, Receiver(ReadStart, delivered, NoError));
      assert delivered + [] == delivered;
    } else {
      var first, rest, next := messages[0], messages[1..], (seqNum + 1) % 64;
      FirstOfStream(messages, seqNum);
      FirstDeliverable(messages);
      if |first| > MAX_USERDATA {
        StreamDelivered(rest, seqNum, delivered);
        assert [] + Deliverable(rest) == Deliverable(rest);
      } else if first == [] {
        NoFragment([], seqNum, 0);
        NothingThen(Stream(rest, next));
        StreamDelivered(rest, next, delivered);
        assert [] + Deliverable(rest) == Deliverable(rest);
      } else {
        MessageReceived(first, seqNum, delivered, Stream(rest, next));
        StreamDelivered(rest, next, delivered + [first]);
        assert delivered + [first] + Deliverable(rest) == delivered + ([first] + Deliverable(rest));
      }
    }
  }

  /** What is in flight, followed by what is still to be written. */
  function Ahead(s: System): seq<Packet>
    requires WellFormed(s)
  {
    s.channel + Remaining(s)
  }

  lemma NothingThen(packets: seq<Packet>)
    ensures [] + packets == packets
  {
  }

  lemma Regroup(sent: seq<Packet>, p: Packet, tail: seq<Packet>, later: seq<Packet>)
    ensures sent + ([p] + tail + later) == sent + [p] + (tail + later)
  {
  }

  /** What a writer leaves to be written when it is about to write, and when it has. */
  lemma RemainingAfterFragment(s: System)
    requires WellFormed(s) && s.written < |s.data|
    ensures var p := NextPacket(s.data, s.written, s.nextSeq, s.fragSeq);
      var s' := Move(s, WriterStep);
      var tail := FragmentsFrom(s.data, s'.written, s.nextSeq, s'.fragSeq);
      var later := Stream(s.outbox, (s.nextSeq + 1) % 64);
      && s'.channel == s.channel + [p]
      && Remaining(s) == [p] + tail + later && Remaining(s') == tail + later
  {
    hide Stream, FragmentsFrom, NextPacket;
    var s' := Move(s, WriterStep);
    FirstFragment(s.data, s.written, s.nextSeq, s.fragSeq);
    if s'.written == |s.data| {
      NoFragment(s.data, s.nextSeq, s'.fragSeq);
      NothingThen(Stream(s.outbox, (s.nextSeq + 1) % 64));
    }
  }

  lemma WriterFragmentKeepsAhead(s: System)
    requires WellFormed(s) && s.written < |s.data|
    ensures Ahead(Move(s, WriterStep)) == Ahead(s)
  {
    hide Stream, FragmentsFrom, NextPacket, Remaining;
    var s' := Move(s, WriterStep);
    RemainingAfterFragment(s);
    Regroup(s.channel, NextPacket(s.data, s.written, s.nextSeq, s.fragSeq),
            FragmentsFrom(s.data, s'.written, s.nextSeq, s'.fragSeq),
            Stream(s.outbox, (s.nextSeq + 1) % 64));
  }

  lemma FirstOfStream(messages: seq<Data>, seqNum: nat)
    requires messages != [] && seqNum < 64
    ensures Stream(messages, seqNum)
         == if |messages[0]| > MAX_USERDATA then Stream(messages[1..], seqNum)
            else Fragments(messages[0], seqNum) + Stream(messages[1..], (seqNum + 1) % 64)
  {
  }

  lemma WriterMessageKeepsAhead(s: System)
    requires WellFormed(s) && s.written >= |s.data|
    ensures Ahead(Move(s, WriterStep)) == Ahead(s)
  {
    hide FragmentsFrom, Stream;
    if s.outbox != [] {
      var first := s.outbox[0];
      FirstOfStream(s.outbox, s.nextSeq);
      if first == [] {
        NoFragment([], s.nextSeq, 0);
        NothingThen(Stream(s.outbox[1..], (s.nextSeq + 1) % 64));
      }
    }
  }

  lemma WriterKeepsAhead(s: System)
    requires WellFormed(s)
    ensures Move(s, WriterStep).receiver == s.receiver && Ahead(Move(s, WriterStep)) == Ahead(s)
  {
    hide Ahead;
    if s.written < |s.data| {
      WriterFragmentKeepsAhead(s);
    } else {
      WriterMessageKeepsAhead(s);
    }
  }

  lemma ReaderKeepsOutcome(s: System)
    requires WellFormed(s)
    ensures ReceiveAll(Move(s, ReaderStep).receiver, Ahead(Move(s, ReaderStep))) == ReceiveAll(s.receiver, Ahead(s))
  {
    hide Stream, FragmentsFrom, Receive;
    if s.channel != [] {
      var s' := Move(s, ReaderStep);
      assert Remaining(s') == Remaining(s);
      assert Ahead(s)[0] == s.channel[0] && Ahead(s)[1..] == Ahead(s');
    }
  }

  /** What is in flight and what is still to be written always lead to the same final deliveries. */
  lemma StepKeepsOutcome(s: System, step: Step)
    requires WellFormed(s)
    ensures ReceiveAll(Move(s, step).receiver, Ahead(Move(s, step))) == ReceiveAll(s.receiver, Ahead(s))
  {
    match step
    case ReaderStep => ReaderKeepsOutcome(s);
    case WriterStep => WriterKeepsAhead(s);
  }

  lemma {:induction false} RunKeepsOutcome(s: System, schedule: seq<Step>)
    requires WellFormed(s)
    ensures ReceiveAll(Run(s, schedule).receiver, Ahead(Run(s, schedule))) == ReceiveAll(s.receiver, Ahead(s))
    decreases |schedule|
  {
    hide ReceiveAll, Ahead, Move;
    if schedule != [] {
      StepKeepsOutcome(s, schedule[0]);
      RunKeepsOutcome(Move(s, schedule[0]), schedule[1..]);
    }
  }

  /** For every list of messages, every first message number and every interleaving: no read fails,
      what was delivered is an initial part of the messages sent, and once the writer is done and the
      channel is empty it is all of them, in order. Stalls are schedules in which a side waits. */
  lemma EveryInterleavingDelivers(messages: seq<Data>, seqNum: nat, schedule: seq<Step>)
    requires seqNum < 64
    ensures var s := Run(Initial(messages, seqNum), schedule);
      && s.receiver.status == NoError
      && s.receiver.delivered <= Deliverable(messages)
      && (forall p :: p in s.channel ==> p.fragSeq <= 62)
      && (s.outbox == [] && s.written == |s.data| && s.channel == [] ==>
            s.receiver == Receiver(ReadStart, Deliverable(messages), NoError))
  {
    var s0 := Initial(messages, seqNum);
    var s := Run(s0, schedule);
    RunKeepsOutcome(s0, schedule);
    assert Ahead(s0) == Stream(messages, seqNum);
    StreamDelivered(messages, seqNum, []);
    assert [] + Deliverable(messages) == Deliverable(messages);
    ReceiveAllKeeps(s.receiver, Ahead(s));
  }

  // ---------- progress ----------

  lemma {:induction false} RunAppend(s: System, left: seq<Step>, right: seq<Step>)
    requires WellFormed(s)
    ensures Run(s, left + right) == Run(Run(s, left), right)
    decreases |left|
  {
    hide Move;
    if left == [] {
      assert left + right == right;
    } else {
      assert (left + right)[0] == left[0] && (left + right)[1..] == left[1..] + right;
      RunAppend(Move(s, left[0]), left[1..], right);
    }
  }

  ghost predicate Drained(s: System) { s.outbox == [] && s.written == |s.data| && s.channel == [] }

  lemma RunOneMore(s: System, step: Step, more: seq<Step>)
    requires WellFormed(s)
    ensures Run(s, [step] + more) == Run(Move(s, step), more)
  {
    assert ([step] + more)[0] == step && ([step] + more)[1..] == more;
  }

  /** The writer alone gets everything on its way, and then the reader alone empties the channel. */
  lemma {:induction false} Drains(s: System) returns (more: seq<Step>)
    requires WellFormed(s)
    ensures Drained(Run(s, more))
    decreases |s.outbox|, |s.data| - s.written, |s.channel|
  {
    hide Run, NextPacket, Receive;
    if s.outbox != [] || s.written < |s.data| {
      more := Drains(Move(s, WriterStep));
      RunOneMore(s, WriterStep, more);
      more := [WriterStep] + more;
    } else if s.channel != [] {
      more := Drains(Move(s, ReaderStep));
      RunOneMore(s, ReaderStep, more);
      more := [ReaderStep] + more;
    } else {
      more := [];
      RunNothing(s);
    }
  }

  lemma RunNothing(s: System)
    requires WellFormed(s)
    ensures Run(s, []) == s
  {
  }

  lemma {:induction false} AllDeliverable(messages: seq<Data>)
    requires forall m :: m in messages ==> 0 < |m| <= 64260
    ensures Deliverable(messages) == messages
  {
    if messages != [] {
      AllDeliverable(messages[1..]);
      assert messages == [messages[0]] + messages[1..];
    }
  }

  /** No interleaving leads into a dead end: whatever happened so far, writer and reader can go on until every
      message is delivered that is neither empty nor too long. */
  lemma EveryMessageCanArrive(messages: seq<Data>, seqNum: nat, schedule: seq<Step>) returns (more: seq<Step>)
    requires seqNum < 64
    ensures var s := Run(Initial(messages, seqNum), schedule + more);
      && Drained(s) && s.receiver == Receiver(ReadStart, Deliverable(messages), NoError)
      && ((forall m :: m in messages ==> 0 < |m| <= 64260) ==> s.receiver.delivered == messages)
  {
    hide Run;
    more := Drains(Run(Initial(messages, seqNum), schedule));
    RunAppend(Initial(messages, seqNum), schedule, more);
    EveryInterleavingDelivers(messages, seqNum, schedule + more);
    if forall m :: m in messages ==> 0 < |m| <= 64260 {
      AllDeliverable(messages);
    }
  }
}
