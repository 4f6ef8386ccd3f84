/** Messages through the whole IPC stack: laid out, fragmented, interleaved, reassembled, taken apart. */
module EndToEnd {
  import opened Bytes
  import opened Messages
  import opened Servent
  import opened ServentProperties

  function Raws(messages: seq<Message>): seq<Data>
    requires forall m :: m in messages ==> ValidMessage(m)
  {
    if messages == [] then [] else [RawBytes(messages[0])] + Raws(messages[1..])
  }

  /** A message that could be created goes through one write and one read unharmed, whatever else is in
      the receive buffer. None is created for data that would fill a write or exceed it. */
  lemma CreatedMessageArrives(id: word16, data: seq<byte>, seqNum: nat, rest: seq<Packet>, stale: seq<byte>)
    requires seqNum < 64
    ensures match CreateMessage(id, data)
      case Some(m) =>
        && Reassemble(ReadStart, Fragments(RawBytes(m), seqNum) + rest, 64260) == Complete(RawBytes(m), rest)
        && MessageAt(RawBytes(m) + stale) == Some(Message(id, data))
      case None => 4 + |data| >= 64260
  {
    hide Reassemble, Fragments;
    match CreateMessage(id, data)
    case Some(m) =>
      FragmentsReadBack(RawBytes(m), seqNum, rest, MAX_USERDATA);
      RawRoundTrip(m, stale);
    case None =>
  }

  /** The bound on a message's data keeps every raw message within what a write accepts. */
  lemma {:induction false} RawsAreDeliverable(messages: seq<Message>)
    requires forall m :: m in messages ==> ValidMessage(m)
    ensures Deliverable(Raws(messages)) == Raws(messages) && |Raws(messages)| == |messages|
    ensures forall k :: 0 <= k < |messages| ==> Raws(messages)[k] == RawBytes(messages[k])
  {
    hide RawBytes;
    if messages != [] {
      RawsAreDeliverable(messages[1..]);
      assert Raws(messages)[0] == RawBytes(messages[0]) && Raws(messages)[1..] == Raws(messages[1..]);
    }
  }

  /** Under every interleaving of the writing and the reading thread, the k-th message read is the k-th
      message sent, and all of them are read once the channel has drained. */
  lemma MessagesArrive(messages: seq<Message>, seqNum: nat, schedule: seq<Step>)
    requires seqNum < 64 && forall m :: m in messages ==> ValidMessage(m)
    ensures var s := Run(Initial(Raws(messages), seqNum), schedule);
      && s.receiver.status == NoError
      && |s.receiver.delivered| <= |messages|
      && (forall k :: 0 <= k < |s.receiver.delivered| ==> s.receiver.delivered[k] == RawBytes(messages[k]))
      && (s.outbox == [] && s.written == |s.data| && s.channel == [] ==> |s.receiver.delivered| == |messages|)
  {
    hide RawBytes, Run, Initial;
    EveryInterleavingDelivers(Raws(messages), seqNum, schedule);
    RawsAreDeliverable(messages);
  }

  // ---------- records ----------

  /** What the client tells its user interface. */
  datatype Record =
    | Status(state: StatusInfo) | Tunnel(info: TunnelInfo) | Hap6(status: Hap6StatusInfo) | Brokers(list: seq<Broker>)

  function RecordMessage(r: Record): (m: Message)
    ensures m.id == match r
      case Status(_) => 0x0101
      case Tunnel(_) => 0x0102
      case Hap6(_) => 0x0104
      case Brokers(_) => 0x0103
  {
    match r
    case Status(state) => Message(MESSAGEID_STATUSINFO, StatusBytes(state))
    case Tunnel(info) => Message(MESSAGEID_TUNNELINFO, TunnelBytes(info))
    case Hap6(status) => Message(MESSAGEID_HAP6STATUSINFO, Hap6Bytes(status))
    case Brokers(list) => Message(MESSAGEID_BROKERLIST, BrokersBytes(list))
  }

  /** What fits a message; a list of brokers is never empty. */
  ghost predicate Sendable(r: Record) {
    ValidMessage(RecordMessage(r)) && (r.Brokers? ==> r.list != [])
  }

  /** What a handler of the user interface is given, or why none is called. */
  datatype Handled =
    | GotStatus(state: StatusInfo) | GotTunnel(info: TunnelInfo) | GotHap6(status: Hap6StatusInfo)
    | GotBrokers(list: seq<TakenBroker>) | NotImplemented | Disabled

  /** Null strings arrive as empty ones. Only the distances of brokers depend on what lies behind the message
      in the memory. */
  function RecordReceived(r: Record, mem: seq<byte>): Handled {
    match r
    case Status(state) => GotStatus(state)
    case Tunnel(info) => GotTunnel(TunnelReceived(info))
    case Hap6(status) => GotHap6(status.(mappings := MappingsReceived(status.mappings)))
    case Brokers(list) => GotBrokers(BrokersTaken(mem, list, 0))
  }

  /** The handler that is called, and every field of what it is given; of a list of brokers the distances past the
      first one are left open. */
  ghost predicate ArrivesAs(r: Record, got: Handled) {
    match r
    case Status(state) => got == GotStatus(state)
    case Tunnel(info) => got.GotTunnel? && SameTunnel(info, got.info) && (NoNullStrings(info) ==> got.info == info)
    case Hap6(status) => got.GotHap6? && SameHap6(status, got.status)
    case Brokers(list) =>
      && got.GotBrokers? && |got.list| == |list|
      && (forall k :: 0 <= k < |list| ==> SameText(list[k].address, got.list[k].address))
      && (list != [] ==> got.list[0].distance == Some(list[0].distance))
  }

  lemma ReceivedArrives(r: Record, mem: seq<byte>)
    requires RecordMessage(r).data <= mem
    ensures ArrivesAs(r, RecordReceived(r, mem))
  {
    hide TunnelBytes, Hap6Bytes, StatusBytes, SameText, TunnelReceived, SameTunnel, NoNullStrings;
    match r
    case Status(_) =>
    case Tunnel(info) => TunnelArrives(info);
    case Hap6(status) => Hap6Arrives(status);
    case Brokers(list) =>
      AddressesArrive(mem, list, 0);
      if list != [] {
        HeadDistanceArrives(mem, list);
      }
  }

  method SendRecord(r: Record) returns (m: Message)
    requires Sendable(r)
    ensures m == RecordMessage(r)
  {
    var message;
    match r {
      case Status(state) => message := SendStatusInfo(state);
      case Tunnel(info) => message := SendTunnelInfo(info);
      case Hap6(status) => message := SendHap6StatusInfo(status);
      case Brokers(list) => message := SendBrokerList(list);
    }
    m := message.value;
  }

  lemma StaleDoesNotMatter(raw: seq<byte>, stale: seq<byte>, m: Message)
    requires MessageAt(raw) == Some(m)
    ensures MessageAt(raw + stale) == Some(m) && m.data <= (raw + stale)[MSG_HEADER_LEN..]
  {
    assert (raw + stale)[MSG_HEADER_LEN..MSG_HEADER_LEN + |m.data|] == raw[MSG_HEADER_LEN..MSG_HEADER_LEN + |m.data|];
  }

  predicate Known(id: word16) {
    id == MESSAGEID_STATUSINFO || id == MESSAGEID_TUNNELINFO || id == MESSAGEID_BROKERLIST
    || id == MESSAGEID_HAP6STATUSINFO
  }

  /** The dispatch on the message that starts the receive buffer: a record that was sent, or a message with an
      identifier the user interface does not know. */
  method ProcessMessage(enabled: bool, recvBuffer: seq<byte>, ghost sent: Option<Record>) returns (got: Handled)
    requires MessageAt(recvBuffer).Some?
    requires match sent
      case Some(r) => MessageAt(recvBuffer).value == RecordMessage(r)
                      && RecordMessage(r).data <= recvBuffer[MSG_HEADER_LEN..]
      case None => !Known(MessageAt(recvBuffer).value.id)
    ensures got == if !enabled then Disabled
                   else match sent
                        case Some(r) => RecordReceived(r, recvBuffer[MSG_HEADER_LEN..])
                        case None => NotImplemented
    ensures enabled && sent.Some? ==> ArrivesAs(sent.value, got)
  {
    if sent.Some? {
      ReceivedArrives(sent.value, recvBuffer[MSG_HEADER_LEN..]);
    }
    hide ArrivesAs, StatusBytes, TunnelBytes, Hap6Bytes, BrokersBytes, BrokersTaken;
    if !enabled {
      return Disabled;
    }
    var message := MessageAt(recvBuffer).value;
    var pData := recvBuffer[MSG_HEADER_LEN..];
    if message.id == MESSAGEID_STATUSINFO {
      var state, _ := TranslateStatusInfo(pData, sent.value.state);
      got := GotStatus(state);
    } else if message.id == MESSAGEID_TUNNELINFO {
      var info, _ := TranslateTunnelInfo(pData, sent.value.info);
      got := GotTunnel(info);
    } else if message.id == MESSAGEID_BROKERLIST {
      var list, _ := TranslateBrokerList(pData, |message.data|, sent.value.list);
      got := GotBrokers(list);
    } else if message.id == MESSAGEID_HAP6STATUSINFO {
      var status, _ := TranslateHap6StatusInfo(pData, |message.data|, sent.value.status);
      got := GotHap6(status);
    } else {
      got := NotImplemented;
    }
  }

  method SendRecords(records: seq<Record>) returns (messages: seq<Message>)
    requires forall k :: 0 <= k < |records| ==> Sendable(records[k])
    ensures |messages| == |records| && forall k :: 0 <= k < |records| ==> messages[k] == RecordMessage(records[k])
  {
    hide RecordMessage, Sendable;
    messages := [];
    for i := 0 to |records|
      invariant |messages| == i && forall k :: 0 <= k < i ==> messages[k] == RecordMessage(records[k])
    {
      var m := SendRecord(records[i]);
      messages := messages + [m];
    }
  }

  /** The receive buffer behind the header of a message, with whatever lies behind it. */
  function Memory(m: Message, stale: seq<byte>): seq<byte>
    requires ValidMessage(m)
  {
    (RawBytes(m) + stale)[MSG_HEADER_LEN..]
  }

  lemma RawIsMessage(m: Message, stale: seq<byte>)
    requires ValidMessage(m)
    ensures MessageAt(RawBytes(m) + stale) == Some(m) && m.data <= Memory(m, stale)
  {
    RawRoundTrip(m, []);
    assert RawBytes(m) + [] == RawBytes(m);
    StaleDoesNotMatter(RawBytes(m), stale, m);
  }

  /** Records of any kind and number, sent as messages through any interleaving of writer and reader into a
      receive buffer with stale octets behind each message, come out as they were sent, in order, and all of
      them once the channel has drained. */
  method RecordsArrive(records: seq<Record>, seqNum: nat, schedule: seq<Step>, stale: seq<byte>)
    returns (messages: seq<Message>, received: seq<Handled>)
    requires seqNum < 64 && forall k :: 0 <= k < |records| ==> Sendable(records[k])
    ensures |received| <= |records| == |messages| && forall m :: m in messages ==> ValidMessage(m)
    ensures forall k :: 0 <= k < |received| ==>
      received[k] == RecordReceived(records[k], Memory(messages[k], stale)) && ArrivesAs(records[k], received[k])
    ensures var s := Run(Initial(Raws(messages), seqNum), schedule);
      && |received| == |s.receiver.delivered|
      && (s.outbox == [] && s.written == |s.data| && s.channel == [] ==> |received| == |records|)
  {
    hide MessageAt, Run, RecordMessage, RecordReceived, RawBytes, Memory, ArrivesAs;
    messages := SendRecords(records);
    MessagesArrive(messages, seqNum, schedule);
    var raws := Run(Initial(Raws(messages), seqNum), schedule).receiver.delivered;
    received := [];
    for i := 0 to |raws|
      invariant |received| == i
      invariant forall k :: 0 <= k < i ==>
        received[k] == RecordReceived(records[k], Memory(messages[k], stale)) && ArrivesAs(records[k], received[k])
    {
      RawIsMessage(messages[i], stale);
      MemoryIs(messages[i], stale);
      var got := ProcessMessage(true, raws[i] + stale, Some(records[i]));
      received := received + [got];
    }
  }

  lemma MemoryIs(m: Message, stale: seq<byte>)
    requires ValidMessage(m)
    ensures Memory(m, stale) == (RawBytes(m) + stale)[MSG_HEADER_LEN..]
  {
  }
}
