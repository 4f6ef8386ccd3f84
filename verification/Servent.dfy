/** The IPC servent: messages are cut into packets, sent over a FIFO pipe and put together again. */
module Servent {
  import opened Bytes

  const PKT_HEADER_FIXEDVALUE := 0x0A
  const PKT_NONFRAGDATA := 0x20
  const PKT_FRAGDATAFIRST := 0x21
  const PKT_FRAGDATA := 0x22
  const PKT_FRAGDATALAST := 0x23
  const PKT_USERDATA_MAX := 1020
  const MAX_USERDATA := 64260
  const INVALID_SEQNUM := 99

  type Data = seq<byte>

  /** A packet on the pipe. The header fields are bit fields of 4, 6, 6, 6 and 10 bits. */
  datatype RawPacket = RawPacket(header: nat, msgType: nat, seqNum: nat, fragSeq: nat, dataLen: nat, data: Data)

  type Packet = p: RawPacket |
      p.header < 16 && p.msgType < 64 && p.seqNum < 64 && p.fragSeq < 64 && p.dataLen < 1024 && p.dataLen <= |p.data|
    witness RawPacket(0, 0, 0, 0, 0, [])

  datatype Status =
    | NoError | SendBufferTooBig | BadPacket | Desynchronized | PacketsNotOrdered | ReadBufferTooSmall
    | PeekPipeFailed | ReadPipeFailed | WritePipeFailed

  // ---------- the sending side ----------

  function MakePacket(data: Data, msgType: nat, seqNum: nat, fragSeq: nat): Packet
    requires |data| <= PKT_USERDATA_MAX && msgType < 64 && seqNum < 64 && fragSeq < 64
  {
    RawPacket(PKT_HEADER_FIXEDVALUE, msgType, seqNum, fragSeq, |data|, data)
  }

  /** Number of user bytes that go into the packet sent once `written` bytes are out. */
  function NextSize(data: Data, written: nat): nat
    requires written < |data|
  {
    if |data| - written > PKT_USERDATA_MAX then PKT_USERDATA_MAX else |data| - written
  }

  function NextPacket(data: Data, written: nat, seqNum: nat, fragSeq: nat): Packet
    requires written < |data| && seqNum < 64 && fragSeq < 64
  {
    var size := NextSize(data, written);
    var msgType :=
      if |data| - written > PKT_USERDATA_MAX
      then if fragSeq == 0 then PKT_FRAGDATAFIRST else PKT_FRAGDATA
      else if fragSeq == 0 then PKT_NONFRAGDATA else PKT_FRAGDATALAST;
    MakePacket(data[written..written + size], msgType, seqNum, fragSeq)
  }

  /** `written` bytes are out, in `fragSeq` packets that were all full unless the message is finished. */
  ghost predicate Progress(data: Data, written: nat, fragSeq: nat) {
    && |data| <= MAX_USERDATA
    && written <= |data|
    && (written < |data| ==> written == PKT_USERDATA_MAX * fragSeq)
    && fragSeq <= 63
  }

  /** The packets still to be sent for `data`. */
  function FragmentsFrom(data: Data, written: nat, seqNum: nat, fragSeq: nat): seq<Packet>
    requires Progress(data, written, fragSeq) && seqNum < 64
    decreases |data| - written
  {
    if written == |data| then [] else
    [NextPacket(data, written, seqNum, fragSeq)]
    + FragmentsFrom(data, written + NextSize(data, written), seqNum, fragSeq + 1)
  }

  function Fragments(data: Data, seqNum: nat): seq<Packet>
    requires |data| <= MAX_USERDATA && seqNum < 64
  {
    FragmentsFrom(data, 0, seqNum, 0)
  }

  lemma FirstFragment(data: Data, written: nat, seqNum: nat, fragSeq: nat)
    requires Progress(data, written, fragSeq) && seqNum < 64 && written < |data|
    ensures FragmentsFrom(data, written, seqNum, fragSeq)
         == [NextPacket(data, written, seqNum, fragSeq)]
            + FragmentsFrom(data, written + NextSize(data, written), seqNum, fragSeq + 1)
  {
  }

  lemma NoFragment(data: Data, seqNum: nat, fragSeq: nat)
    requires Progress(data, |data|, fragSeq) && seqNum < 64
    ensures FragmentsFrom(data, |data|, seqNum, fragSeq) == []
  {
  }

  // ---------- the receiving side ----------

  /** What a packet carries for the reader, or None for a packet that is refused. */
  function ExtractPacketData(p: Packet): Option<Data> {
    if p.header != PKT_HEADER_FIXEDVALUE then None
    else if p.msgType < PKT_NONFRAGDATA || p.msgType > PKT_FRAGDATALAST then None
    else if p.dataLen > PKT_USERDATA_MAX || p.dataLen == 0 then None
    else Some(p.data[..p.dataLen])
  }

  predicate Terminal(msgType: nat) { msgType == PKT_NONFRAGDATA || msgType == PKT_FRAGDATALAST }

  /** The local variables of one read between two packets. */
  datatype ReadState = ReadState(lastSeq: nat, lastFrag: nat, msgType: nat, got: Data)

  const ReadStart := ReadState(INVALID_SEQNUM, INVALID_SEQNUM, 0, [])

  /** One packet taken by a read: the checks in the order they are made. */
  function Accept(rs: ReadState, p: Packet, bufferSize: nat): (Status, ReadState) {
    match ExtractPacketData(p)
    case None => (BadPacket, rs)
    case Some(payload) =>
      if rs.lastSeq != INVALID_SEQNUM && p.seqNum != rs.lastSeq then (Desynchronized, rs)
      else if rs.lastFrag != INVALID_SEQNUM && p.fragSeq != rs.lastFrag + 1 then (PacketsNotOrdered, rs)
      else if |rs.got| + |payload| > bufferSize then (ReadBufferTooSmall, rs)
      else (NoError, ReadState(p.seqNum, p.fragSeq, p.msgType, rs.got + payload))
  }

  /** What a read makes of the packets in the pipe. */
  datatype ReadOutcome =
    | Complete(message: Data, rest: seq<Packet>)
    | Failed(error: Status, partial: Data, rest: seq<Packet>)
    | Waiting(state: ReadState)

  function Reassemble(rs: ReadState, stream: seq<Packet>, bufferSize: nat): ReadOutcome
    decreases |stream|
  {
    if stream == [] then Waiting(rs) else
    var (status, rs') := Accept(rs, stream[0], bufferSize);
    if status != NoError then Failed(status, rs'.got, stream[1..])
    else if Terminal(rs'.msgType) then Complete(rs'.got, stream[1..])
    else Reassemble(rs', stream[1..], bufferSize)
  }

  // ---------- the pipe ----------

  /** A FIFO pipe end. `arrived` can be read now; `later` is still on its way, and any number of
      "not ready" answers, bounded by `stalls`, may come in between. `sent` is what this end wrote, and
      `faults` counts the operations that failed or stopped short. A packet may only be written after the pipe was
      found ready. */
  class Pipe {
    var arrived: seq<Packet>
    var later: seq<Packet>
    var sent: seq<Packet>
    var stalls: nat
    ghost var faults: nat
    ghost var writable: bool

    constructor (incoming: seq<Packet>, stalls: nat)
      ensures Incoming() == incoming && sent == [] && this.stalls == stalls
    {
      arrived, later, sent := [], incoming, [];
      this.stalls, faults, writable := stalls, 0, false;
    }

    ghost function Incoming(): seq<Packet>
      reads this
    {
      arrived + later
    }

    method CanRead() returns (status: Status, ready: bool)
      modifies this`arrived, this`later, this`stalls, this`faults
      ensures Incoming() == old(Incoming())
      ensures faults == old(faults) + if status == NoError then 0 else 1
      ensures status == NoError || status == PeekPipeFailed
      ensures status == NoError && ready ==> arrived != [] && stalls == old(stalls)
      ensures status == NoError && !ready ==> stalls < old(stalls)
      ensures stalls <= old(stalls)
    {
      var n: int := *;
      if 0 <= n <= |later| {
        arrived, later := arrived + later[..n], later[n..];
      }
      var fails: bool := *;
      ready := arrived != [];
      status := if fails || (!ready && stalls == 0) then PeekPipeFailed else NoError;
      if status == NoError && !ready {
        stalls := stalls - 1;
      }
      faults := faults + if status == NoError then 0 else 1;
    }

    /** Delivers the first packet that arrived, or nothing at all, or an error. */
    method Read() returns (status: Status, packet: Option<Packet>)
      requires arrived != []
      modifies this`arrived, this`stalls, this`faults
      ensures faults == old(faults) + if status == NoError then 0 else 1
      ensures status == NoError || status == ReadPipeFailed
      ensures packet.Some? ==>
        status == NoError && packet.value == old(arrived)[0] && arrived == old(arrived)[1..] && stalls == old(stalls)
      ensures packet.None? ==> arrived == old(arrived) && (status == NoError ==> stalls < old(stalls))
    {
      var fails: bool := *;
      var nothing: bool := *;
      if fails {
        faults := faults + 1;
        return ReadPipeFailed, None;
      }
      if nothing && stalls > 0 {
        stalls := stalls - 1;
        return NoError, None;
      }
      status, packet := NoError, Some(arrived[0]);
      arrived := arrived[1..];
    }

    method CanWrite() returns (status: Status, ready: bool)
      modifies this`stalls, this`faults, this`writable
      ensures writable <==> status == NoError && ready
      ensures faults == old(faults) + if status == NoError then 0 else 1
      ensures status == NoError || status == PeekPipeFailed
      ensures status == NoError && ready ==> stalls == old(stalls)
      ensures status == NoError && !ready ==> stalls < old(stalls)
    {
      var fails: bool := *;
      ready := *;
      status := if fails then PeekPipeFailed else NoError;
      faults := faults + if fails then 1 else 0;
      if stalls == 0 {
        ready := true;
      } else if status == NoError && !ready {
        stalls := stalls - 1;
      }
      writable := status == NoError && ready;
    }

    /** Writes one packet, or fails, or stops short without reporting an error. */
    method Write(packet: Packet) returns (status: Status, whole: bool)
      requires writable
      modifies this`sent, this`faults, this`writable
      ensures faults == old(faults) + if status == NoError && whole then 0 else 1
      ensures status == NoError || status == WritePipeFailed
      ensures sent == if status == NoError && whole then old(sent) + [packet] else old(sent)
      ensures !writable
    {
      writable := false;
      var fails: bool := *;
      whole := *;
      status := if fails then WritePipeFailed else NoError;
      if status == NoError && whole {
        sent := sent + [packet];
      } else {
        faults := faults + 1;
      }
    }
  }

  lemma OnePacketMore(all: seq<Packet>, cut: nat)
    requires cut < |all|
    ensures all[..cut + 1] == all[..cut] + [all[cut]]
    ensures all[cut + 1..] == all[cut..][1..]
  {
  }

  // ---------- the two private operations of the servent ----------

  class Servent {
    const pipe: Pipe
    var nextSeq: nat

    ghost predicate Valid()
      reads this
    {
      nextSeq < 64
    }

    constructor (pipe: Pipe)
      ensures Valid() && this.pipe == pipe && nextSeq == 0
    {
      this.pipe, nextSeq := pipe, 0;
    }

    method WriteData(data: Data) returns (status: Status, written: nat)
      requires Valid()
      modifies this, pipe
      ensures Valid() && pipe.Incoming() == old(pipe.Incoming())
      ensures status == SendBufferTooBig <==> |data| > 64260
      ensures status == SendBufferTooBig ==> pipe.sent == old(pipe.sent) && nextSeq == old(nextSeq)
      ensures |data| <= MAX_USERDATA && status == NoError && written == |data| ==>
        && pipe.sent == old(pipe.sent) + Fragments(data, old(nextSeq)) && pipe.faults == old(pipe.faults)
        && nextSeq == (old(nextSeq) + 1) % 64
      ensures |data| <= MAX_USERDATA && (status != NoError || written != |data|) ==>
        && nextSeq == old(nextSeq) && pipe.faults > old(pipe.faults)
        && exists cut :: 0 <= cut < |Fragments(data, old(nextSeq))|
                         && pipe.sent == old(pipe.sent) + Fragments(data, old(nextSeq))[..cut]
    {
      hide FragmentsFrom, NextPacket;
      status, written := NoError, 0;
      if |data| > MAX_USERDATA {
        return SendBufferTooBig, 0;
      }
      var fragSeq: nat := 0;
      ghost var all := Fragments(data, nextSeq);
      ghost var cut: nat := 0;
      while written < |data|
        invariant Progress(data, written, fragSeq)
        invariant status == NoError && nextSeq == old(nextSeq) && nextSeq < 64
        invariant cut <= |all| && all[cut..] == FragmentsFrom(data, written, nextSeq, fragSeq)
        invariant pipe.sent == old(pipe.sent) + all[..cut] && pipe.faults == old(pipe.faults)
        invariant pipe.Incoming() == old(pipe.Incoming())
        decreases |data| - written, pipe.stalls
      {
        FirstFragment(data, written, nextSeq, fragSeq);
        var ready;
        status, ready := pipe.CanWrite();
        if status != NoError {
          return;
        }
        if !ready {
          continue;
        }
        var packet := NextPacket(data, written, nextSeq, fragSeq);
        var whole;
        assert packet == all[cut..][0] == all[cut];
        status, whole := pipe.Write(packet);
        if status != NoError || !whole {
          return;
        }
        OnePacketMore(all, cut);
        cut := cut + 1;
        written := written + NextSize(data, written);
        fragSeq := fragSeq + 1;
        if fragSeq > 63 {
          assert false;
        }
      }
      NoFragment(data, nextSeq, fragSeq);
      assert all == all[..cut] + all[cut..];
      assert all[..cut] == all;
      nextSeq := (nextSeq + 1) % 64;
    }

    /** A read that succeeds or finds fault does what `Reassemble` says. One that the pipe itself breaks
        off has taken some packets from the pipe that do not end a message, and holds their payloads. */
    method ReadData(buffer: array<byte>) returns (status: Status, read: nat, ghost taken: seq<Packet>)
      modifies pipe, buffer
      ensures read <= buffer.Length && buffer[read..] == old(buffer[read..])
      ensures pipe.sent == old(pipe.sent)
      ensures pipe.faults == old(pipe.faults) + if status == PeekPipeFailed || status == ReadPipeFailed then 1 else 0
      ensures status != PeekPipeFailed && status != ReadPipeFailed ==>
        match Reassemble(ReadStart, old(pipe.Incoming()), buffer.Length)
        case Complete(message, rest) => status == NoError && buffer[..read] == message && pipe.Incoming() == rest
        case Failed(error, partial, rest) => status == error && buffer[..read] == partial && pipe.Incoming() == rest
        case Waiting(_) => false
      ensures status == PeekPipeFailed || status == ReadPipeFailed ==>
        BrokenOff(taken, old(pipe.Incoming()), pipe.Incoming(), buffer[..read], buffer.Length)
    {
      hide Reassemble, Accept, ExtractPacketData;
      ghost var stream := pipe.Incoming();
      taken := [];
      ghost var rs := ReadStart;
      var lastSeq: nat, lastFrag: nat, msgType: nat := INVALID_SEQNUM, INVALID_SEQNUM, 0;
      status, read := NoError, 0;
      ReassembleNothing(ReadStart, buffer.Length);
      while status == NoError && !Terminal(msgType)
        invariant read <= buffer.Length && buffer[read..] == old(buffer[read..])
        invariant pipe.sent == old(pipe.sent)
        invariant pipe.faults == old(pipe.faults) + if status == NoError then 0 else 1
        invariant stream == taken + pipe.Incoming()
        invariant rs == ReadState(lastSeq, lastFrag, msgType, buffer[..read])
        invariant status == NoError || status == ReadPipeFailed
        invariant if status == NoError && Terminal(msgType)
                  then Reassemble(ReadStart, stream, buffer.Length) == Complete(rs.got, pipe.Incoming())
                  else Reassemble(ReadStart, taken, buffer.Length) == Waiting(rs)
        decreases status == NoError, |pipe.Incoming()|, pipe.stalls
      {
        var packet;
        status, packet := TryRead();
        if status == PeekPipeFailed {
          return;
        }
        if packet.Some? {
          var p := packet.value;
          ghost var before := rs;
          status, read, lastSeq, lastFrag, msgType, rs := TakePacket(buffer, read, lastSeq, lastFrag, msgType, p, rs);
          OnePacketRead(taken, p, pipe.Incoming(), before, buffer.Length);
          assert stream == taken + ([p] + pipe.Incoming()) == (taken + [p]) + pipe.Incoming();
          if status != NoError {
            return;
          }
          taken := taken + [p];
        }
      }
    }

    /** The check and the read at the top of the loop. */
    method TryRead() returns (status: Status, packet: Option<Packet>)
      modifies pipe
      ensures pipe.sent == old(pipe.sent)
      ensures pipe.faults == old(pipe.faults) + if status == NoError then 0 else 1
      ensures status == NoError || status == PeekPipeFailed || status == ReadPipeFailed
      ensures packet.Some? ==>
        status == NoError && old(pipe.Incoming()) == [packet.value] + pipe.Incoming() && pipe.stalls == old(pipe.stalls)
      ensures packet.None? ==>
        pipe.Incoming() == old(pipe.Incoming()) && (status == NoError ==> pipe.stalls < old(pipe.stalls))
    {
      var ready;
      status, ready := pipe.CanRead();
      if status != NoError || !ready {
        return status, None;
      }
      ghost var incoming := pipe.Incoming();
      status, packet := pipe.Read();
      if packet.Some? {
        assert incoming == [incoming[0]] + pipe.Incoming();
      }
    }

    /** What the loop does with a packet that was read. */
    method TakePacket(
      buffer: array<byte>, at: nat, seq0: nat, frag0: nat, type0: nat, p: Packet, ghost before: ReadState)
      returns (status: Status, read: nat, lastSeq: nat, lastFrag: nat, msgType: nat, ghost rs: ReadState)
      requires at <= buffer.Length && before == ReadState(seq0, frag0, type0, buffer[..at])
      modifies buffer
      ensures (status, rs) == Accept(before, p, buffer.Length)
      ensures status != PeekPipeFailed && status != ReadPipeFailed
      ensures read <= buffer.Length && at <= read && buffer[read..] == old(buffer[read..])
      ensures rs == ReadState(lastSeq, lastFrag, msgType, buffer[..read])
    {
      lastSeq, lastFrag, msgType, rs := seq0, frag0, type0, before;
      read := at;
      var payload := ExtractPacketData(p);
      if payload == None {
        return BadPacket, read, lastSeq, lastFrag, msgType, rs;
      }
      if lastSeq != INVALID_SEQNUM && p.seqNum != lastSeq {
        return Desynchronized, read, lastSeq, lastFrag, msgType, rs;
      }
      if lastFrag != INVALID_SEQNUM && p.fragSeq != lastFrag + 1 {
        return PacketsNotOrdered, read, lastSeq, lastFrag, msgType, rs;
      }
      if read + |payload.value| > buffer.Length {
        return ReadBufferTooSmall, read, lastSeq, lastFrag, msgType, rs;
      }
      CopyInto(buffer, read, payload.value);
      lastSeq, lastFrag, msgType := p.seqNum, p.fragSeq, p.msgType;
      read := read + |payload.value|;
      assert buffer[..read] == buffer[..at] + buffer[at..read];
      status, rs := NoError, ReadState(lastSeq, lastFrag, msgType, buffer[..read]);
    }
  }

  /** The packets `taken` were read from `stream`, did not end a message, and had the payloads `got`. */
  ghost predicate BrokenOff(
    taken: seq<Packet>, stream: seq<Packet>, rest: seq<Packet>, got: Data, bufferSize: nat)
  {
    && stream == taken + rest
    && Reassemble(ReadStart, taken, bufferSize).Waiting?
    && Reassemble(ReadStart, taken, bufferSize).state.got == got
  }

  lemma ReassembleNothing(rs: ReadState, bufferSize: nat)
    ensures Reassemble(rs, [], bufferSize) == Waiting(rs)
  {
  }

  /** Reassembly may stop after any packets that do not end a message, and resume. */
  lemma {:induction false} ReassembleResumes(
    rs: ReadState, taken: seq<Packet>, rest: seq<Packet>, bufferSize: nat)
    requires Reassemble(rs, taken, bufferSize).Waiting?
    ensures Reassemble(rs, taken + rest, bufferSize)
         == Reassemble(Reassemble(rs, taken, bufferSize).state, rest, bufferSize)
    decreases |taken|
  {
    if taken == [] {
      assert taken + rest == rest;
    } else {
      assert (taken + rest)[0] == taken[0] && (taken + rest)[1..] == taken[1..] + rest;
      ReassembleResumes(Accept(rs, taken[0], bufferSize).1, taken[1..], rest, bufferSize);
    }
  }

  /** One packet more, seen from the whole stream and from the packets taken. */
  lemma OnePacketRead(taken: seq<Packet>, p: Packet, rest: seq<Packet>, rs: ReadState, bufferSize: nat)
    requires Reassemble(ReadStart, taken, bufferSize) == Waiting(rs)
    ensures var (status, next) := Accept(rs, p, bufferSize);
      if status != NoError
      then Reassemble(ReadStart, taken + ([p] + rest), bufferSize) == Failed(status, next.got, rest)
      else if Terminal(next.msgType)
      then Reassemble(ReadStart, taken + ([p] + rest), bufferSize) == Complete(next.got, rest)
      else Reassemble(ReadStart, taken + [p], bufferSize) == Waiting(next)
  {
    hide Accept;
    ReassembleResumes(ReadStart, taken, [p] + rest, bufferSize);
    ReassembleResumes(ReadStart, taken, [p], bufferSize);
    assert ([p] + rest)[0] == p && ([p] + rest)[1..] == rest && [p][1..] == [];
  }
}
