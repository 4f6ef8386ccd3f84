/** The messages between client and GUI: how records are laid out in them and taken out again. */
module Messages {
  import opened Bytes

  const MSG_HEADER_LEN := 4
  const MSG_MAX_USERDATA := 64260 - MSG_HEADER_LEN

  const MESSAGEID_STATUSINFO: word16 := 0x0101
  const MESSAGEID_TUNNELINFO: word16 := 0x0102
  const MESSAGEID_BROKERLIST: word16 := 0x0103
  const MESSAGEID_HAP6STATUSINFO: word16 := 0x0104

  /** A C string without its terminator; a null pointer is None. */
  type CString = s: seq<byte> | 0 !in s

  type Text = Option<CString>

  /** Enumerations, ints and times are copied as they lie in memory. */
  type Raw4 = s: seq<byte> | |s| == 4 witness [0, 0, 0, 0]

  type Raw8 = s: seq<byte> | |s| == 8 witness [0, 0, 0, 0, 0, 0, 0, 0]

  datatype StatusInfo = StatusInfo(eStatus: Raw4, nStatus: Raw4)

  datatype TunnelInfo = TunnelInfo(
    brokerName: Text, tunnelType: Raw4, ipv4Local: Text, ipv6Local: Text, ipv4Remote: Text, ipv6Remote: Text,
    delegatedPrefix: Text, userDomain: Text, upTime: Raw8)

  datatype MappingStatus = MappingStatus(deviceName: Text, status: Raw4)

  datatype Hap6StatusInfo = Hap6StatusInfo(
    proxyStatus: Raw4, webStatus: Raw4, devmapStatus: Raw4, mappings: seq<MappingStatus>)

  datatype Broker = Broker(address: Text, distance: Raw4)

  // ---------- the layout ----------

  function TextBytes(t: Text): (s: seq<byte>)
    ensures |s| > 0
  {
    (match t case None => [] case Some(s) => s) + [0]
  }

  /** A null string arrives as an empty one. */
  function Received(t: Text): Text { Some(match t case None => [] case Some(s) => s) }

  function StatusBytes(i: StatusInfo): seq<byte> { i.eStatus + i.nStatus }

  function TunnelBytes(i: TunnelInfo): seq<byte> {
    TextBytes(i.brokerName) + i.tunnelType + EndpointBytes(i)
    + TextBytes(i.delegatedPrefix) + TextBytes(i.userDomain) + i.upTime
  }

  function EndpointBytes(i: TunnelInfo): seq<byte> {
    TextBytes(i.ipv4Local) + TextBytes(i.ipv6Local) + TextBytes(i.ipv4Remote) + TextBytes(i.ipv6Remote)
  }

  function TunnelReceived(i: TunnelInfo): TunnelInfo {
    TunnelInfo(Received(i.brokerName), i.tunnelType, Received(i.ipv4Local), Received(i.ipv6Local),
               Received(i.ipv4Remote), Received(i.ipv6Remote), Received(i.delegatedPrefix),
               Received(i.userDomain), i.upTime)
  }

  /** The text that came out is the text that went in; a null string came out as an empty one. */
  ghost predicate SameText(t: Text, got: Text) {
    got.Some? && (t.Some? ==> got == t) && (t == None ==> got.value == [])
  }

  /** Field by field. */
  ghost predicate SameTunnel(i: TunnelInfo, got: TunnelInfo) {
    && SameText(i.brokerName, got.brokerName) && got.tunnelType == i.tunnelType
    && SameText(i.ipv4Local, got.ipv4Local) && SameText(i.ipv6Local, got.ipv6Local)
    && SameText(i.ipv4Remote, got.ipv4Remote) && SameText(i.ipv6Remote, got.ipv6Remote)
    && SameText(i.delegatedPrefix, got.delegatedPrefix) && SameText(i.userDomain, got.userDomain)
    && got.upTime == i.upTime
  }

  ghost predicate NoNullStrings(i: TunnelInfo) {
    && i.brokerName.Some? && i.ipv4Local.Some? && i.ipv6Local.Some? && i.ipv4Remote.Some? && i.ipv6Remote.Some?
    && i.delegatedPrefix.Some? && i.userDomain.Some?
  }

  /** One entry of a list. */
  function EntryBytes(t: Text, value: Raw4): (s: seq<byte>)
    ensures |s| == |TextBytes(t)| + 4
  {
    TextBytes(t) + value
  }

  function MappingsBytes(ms: seq<MappingStatus>): seq<byte> {
    if ms == [] then [] else EntryBytes(ms[0].deviceName, ms[0].status) + MappingsBytes(ms[1..])
  }

  function MappingsReceived(ms: seq<MappingStatus>): seq<MappingStatus> {
    if ms == [] then []
    else [MappingStatus(Received(ms[0].deviceName), ms[0].status)] + MappingsReceived(ms[1..])
  }

  /** Entry k arrives as entry k. */
  lemma {:induction false} MappingsArrive(ms: seq<MappingStatus>)
    ensures |MappingsReceived(ms)| == |ms|
    ensures forall k :: 0 <= k < |ms| ==>
      SameText(ms[k].deviceName, MappingsReceived(ms)[k].deviceName) && MappingsReceived(ms)[k].status == ms[k].status
    ensures (forall k :: 0 <= k < |ms| ==> ms[k].deviceName.Some?) ==> MappingsReceived(ms) == ms
  {
    if ms != [] {
      MappingsArrive(ms[1..]);
    }
  }

  ghost predicate SameHap6(i: Hap6StatusInfo, got: Hap6StatusInfo) {
    && got.proxyStatus == i.proxyStatus && got.webStatus == i.webStatus && got.devmapStatus == i.devmapStatus
    && |got.mappings| == |i.mappings|
    && forall k :: 0 <= k < |i.mappings| ==>
         && SameText(i.mappings[k].deviceName, got.mappings[k].deviceName)
         && got.mappings[k].status == i.mappings[k].status
  }

  ghost predicate NoNullNames(i: Hap6StatusInfo) {
    forall k :: 0 <= k < |i.mappings| ==> i.mappings[k].deviceName.Some?
  }

  lemma Hap6Arrives(i: Hap6StatusInfo)
    ensures SameHap6(i, i.(mappings := MappingsReceived(i.mappings)))
    ensures NoNullNames(i) ==> i.(mappings := MappingsReceived(i.mappings)) == i
  {
    MappingsArrive(i.mappings);
  }

  function Hap6Bytes(i: Hap6StatusInfo): seq<byte> {
    i.proxyStatus + i.webStatus + i.devmapStatus + MappingsBytes(i.mappings)
  }

  function BrokersBytes(bs: seq<Broker>): seq<byte> {
    if bs == [] then [] else EntryBytes(bs[0].address, bs[0].distance) + BrokersBytes(bs[1..])
  }

  // ---------- messages ----------

  datatype Message = Message(id: word16, data: seq<byte>)

  ghost predicate ValidMessage(m: Message) { |m.data| < MSG_MAX_USERDATA }

  /** A message is created only for strictly less data than the maximum. */
  function CreateMessage(id: word16, data: seq<byte>): (m: Option<Message>)
    ensures m == if 4 + |data| < 64260 then Some(Message(id, data)) else None
    ensures m.Some? ==> ValidMessage(m.value)
  {
    if |data| < MSG_MAX_USERDATA then Some(Message(id, data)) else None
  }

  function RawBytes(m: Message): (s: seq<byte>)
    requires ValidMessage(m)
    ensures |s| == 4 + |m.data| && s[4..] == m.data
    ensures s[0] as int + 0x100 * s[1] as int == m.id as int && s[2] as int + 0x100 * s[3] as int == |m.data|
  {
    [m.id % 0x100, m.id / 0x100, |m.data| % 0x100, |m.data| / 0x100] + m.data
  }

  /** The message that starts a receive buffer. */
  function MessageAt(raw: seq<byte>): Option<Message> {
    if |raw| < MSG_HEADER_LEN then None else
    var id: int, len: int := raw[0] as int + 0x100 * raw[1] as int, raw[2] as int + 0x100 * raw[3] as int;
    if len > |raw| - MSG_HEADER_LEN then None else Some(Message(id, raw[MSG_HEADER_LEN..MSG_HEADER_LEN + len]))
  }

  lemma RawRoundTrip(m: Message, rest: seq<byte>)
    requires ValidMessage(m)
    ensures MessageAt(RawBytes(m) + rest) == Some(m)
  {
  }

  // ---------- sending ----------

  /** memcpy into the message under construction. */
  method Put(pData: array<byte>, n: nat, bytes: seq<byte>) returns (n': nat)
    requires n + |bytes| <= pData.Length
    modifies pData
    ensures n' == n + |bytes| && pData[..n'] == old(pData[..n]) + bytes
  {
    n' := n + |bytes|;
    forall i | 0 <= i < |bytes| {
      pData[n + i] := bytes[i];
    }
  }

  method PutText(pData: array<byte>, n: nat, t: Text) returns (n': nat)
    requires n + |TextBytes(t)| <= pData.Length
    modifies pData
    ensures n' == n + |TextBytes(t)| && pData[..n'] == old(pData[..n]) + TextBytes(t)
  {
    match t {
      case Some(s) => n' := Put(pData, n, s + [0]);
      case None => n' := Put(pData, n, [0]);
    }
    assert [] + [0] == [0];
  }

  method SendStatusInfo(info: StatusInfo) returns (message: Option<Message>)
    ensures message == CreateMessage(0x0101, info.eStatus + info.nStatus)
  {
    var pData := new byte[MSG_MAX_USERDATA];
    var n := Put(pData, 0, info.eStatus);
    n := Put(pData, n, info.nStatus);
    assert pData[..n] == StatusBytes(info);
    message := CreateMessage(MESSAGEID_STATUSINFO, pData[..n]);
  }

  /** Both addresses of both ends of the tunnel. */
  method PutEndpoints(pData: array<byte>, n: nat, info: TunnelInfo) returns (n': nat)
    requires n + |EndpointBytes(info)| <= pData.Length
    modifies pData
    ensures n' == n + |EndpointBytes(info)| && pData[..n'] == old(pData[..n]) + EndpointBytes(info)
  {
    hide TextBytes;
    n' := PutText(pData, n, info.ipv4Local);
    n' := PutText(pData, n', info.ipv6Local);
    n' := PutText(pData, n', info.ipv4Remote);
    n' := PutText(pData, n', info.ipv6Remote);
  }

  /** The order of the fields. */
  lemma TunnelLaidOut(i: TunnelInfo)
    ensures TunnelBytes(i) ==
            TextBytes(i.brokerName) + i.tunnelType + TextBytes(i.ipv4Local) + TextBytes(i.ipv6Local)
            + TextBytes(i.ipv4Remote) + TextBytes(i.ipv6Remote) + TextBytes(i.delegatedPrefix)
            + TextBytes(i.userDomain) + i.upTime
  {
    hide TextBytes;
    var front, l4, l6, r4, r6 := TextBytes(i.brokerName) + i.tunnelType,
      TextBytes(i.ipv4Local), TextBytes(i.ipv6Local), TextBytes(i.ipv4Remote), TextBytes(i.ipv6Remote);
    assert front + (l4 + l6 + r4 + r6) == front + l4 + l6 + r4 + r6;
  }

  method SendTunnelInfo(info: TunnelInfo) returns (message: Option<Message>)
    requires |TunnelBytes(info)| <= MSG_MAX_USERDATA
    ensures message == CreateMessage(0x0102, TunnelBytes(info))
  {
    hide TextBytes, EndpointBytes;
    var pData := new byte[MSG_MAX_USERDATA];
    assert pData[..0] == [];
    var n := PutText(pData, 0, info.brokerName);
    n := Put(pData, n, info.tunnelType);
    n := PutEndpoints(pData, n, info);
    n := PutText(pData, n, info.delegatedPrefix);
    n := PutText(pData, n, info.userDomain);
    n := Put(pData, n, info.upTime);
    assert pData[..n] == TunnelBytes(info);
    message := CreateMessage(MESSAGEID_TUNNELINFO, pData[..n]);
  }

  method PutEntry(pData: array<byte>, n: nat, t: Text, value: Raw4) returns (n': nat)
    requires n + |EntryBytes(t, value)| <= pData.Length
    modifies pData
    ensures n' == n + |EntryBytes(t, value)| && pData[..n'] == old(pData[..n]) + EntryBytes(t, value)
  {
    hide TextBytes;
    n' := PutText(pData, n, t);
    n' := Put(pData, n', value);
  }

  lemma MappingsNone()
    ensures MappingsBytes([]) == []
  {
  }

  lemma MappingsFirst(ms: seq<MappingStatus>)
    requires ms != []
    ensures MappingsBytes(ms) == EntryBytes(ms[0].deviceName, ms[0].status) + MappingsBytes(ms[1..])
  {
  }

  method PutMappings(pData: array<byte>, start: nat, mappings: seq<MappingStatus>) returns (n: nat)
    requires start + |MappingsBytes(mappings)| <= pData.Length
    modifies pData
    ensures n == start + |MappingsBytes(mappings)| && pData[..n] == old(pData[..start]) + MappingsBytes(mappings)
  {
    hide EntryBytes, MappingsBytes;
    MappingsNone();
    ghost var before, total := pData[..start], MappingsBytes(mappings);
    var list := mappings;
    n := start;
    while list != []
      invariant n <= pData.Length && n + |MappingsBytes(list)| == start + |total| <= pData.Length
      invariant pData[..n] + MappingsBytes(list) == before + total
      decreases |list|
    {
      MappingsFirst(list);
      n := PutEntry(pData, n, list[0].deviceName, list[0].status);
      list := list[1..];
    }
    assert pData[..n] == pData[..n] + MappingsBytes(list);
  }

  method SendHap6StatusInfo(info: Hap6StatusInfo) returns (message: Option<Message>)
    requires |Hap6Bytes(info)| <= MSG_MAX_USERDATA
    ensures message == CreateMessage(0x0104, Hap6Bytes(info))
    ensures Hap6Bytes(info) == info.proxyStatus + info.webStatus + info.devmapStatus + MappingsBytes(info.mappings)
  {
    hide MappingsBytes;
    var pData := new byte[MSG_MAX_USERDATA];
    assert pData[..0] == [];
    var n := Put(pData, 0, info.proxyStatus);
    n := Put(pData, n, info.webStatus);
    n := Put(pData, n, info.devmapStatus);
    n := PutMappings(pData, n, info.mappings);
    assert pData[..n] == Hap6Bytes(info);
    message := CreateMessage(MESSAGEID_HAP6STATUSINFO, pData[..n]);
  }

  method PutBrokers(pData: array<byte>, start: nat, brokers: seq<Broker>) returns (n: nat)
    requires start + |BrokersBytes(brokers)| <= pData.Length
    modifies pData
    ensures n == start + |BrokersBytes(brokers)| && pData[..n] == old(pData[..start]) + BrokersBytes(brokers)
  {
    hide EntryBytes, BrokersBytes;
    BrokersNone();
    ghost var before, total := pData[..start], BrokersBytes(brokers);
    var list := brokers;
    n := start;
    while list != []
      invariant n <= pData.Length && n + |BrokersBytes(list)| == start + |total| <= pData.Length
      invariant pData[..n] + BrokersBytes(list) == before + total
      decreases |list|
    {
      BrokersFirst(list);
      n := PutEntry(pData, n, list[0].address, list[0].distance);
      list := list[1..];
    }
    assert pData[..n] == pData[..n] + BrokersBytes(list);
  }

  /** The list of brokers is never empty. */
  method SendBrokerList(brokers: seq<Broker>) returns (message: Option<Message>)
    requires brokers != [] && |BrokersBytes(brokers)| <= MSG_MAX_USERDATA
    ensures message == CreateMessage(0x0103, BrokersBytes(brokers))
  {
    var pData := new byte[MSG_MAX_USERDATA];
    var n := PutBrokers(pData, 0, brokers);
    assert pData[..n] == BrokersBytes(brokers);
    message := CreateMessage(MESSAGEID_BROKERLIST, pData[..n]);
  }

  lemma BrokersNone()
    ensures BrokersBytes([]) == []
  {
  }

  lemma BrokersFirst(bs: seq<Broker>)
    requires bs != []
    ensures BrokersBytes(bs) == EntryBytes(bs[0].address, bs[0].distance) + BrokersBytes(bs[1..])
  {
  }

  // ---------- translating ----------

  /** The memory from `cursor` on begins with `bytes`. */
  ghost predicate At(mem: seq<byte>, cursor: nat, bytes: seq<byte>) {
    cursor <= |mem| && bytes <= mem[cursor..]
  }

  lemma AtSplit(mem: seq<byte>, cursor: nat, left: seq<byte>, right: seq<byte>)
    requires At(mem, cursor, left + right)
    ensures At(mem, cursor, left) && At(mem, cursor + |left|, right)
  {
  }

  /** strdup and strlen at the cursor. */
  method TakeText(mem: seq<byte>, cursor: nat, ghost t: Text) returns (text: Text, next: nat)
    requires At(mem, cursor, TextBytes(t))
    ensures text == Received(t) && next == cursor + |TextBytes(t)|
  {
    ghost var s := Received(t).value;
    var i := IndexOf(mem[cursor..], 0);
    assert TextBytes(t) == s + [0] == mem[cursor..][..|s| + 1];
    assert mem[cursor..][..|s|] == (s + [0])[..|s|] == s && mem[cursor..][|s|] == (s + [0])[|s|] == 0;
    IndexOfIs(mem[cursor..], 0, |s|);
    text, next := Some(mem[cursor..cursor + i]), cursor + i + 1;
    assert mem[cursor..cursor + i] == mem[cursor..][..i];
  }

  method TakeRaw(mem: seq<byte>, cursor: nat, n: nat, ghost raw: seq<byte>) returns (bytes: seq<byte>, next: nat)
    requires At(mem, cursor, raw) && |raw| == n
    ensures bytes == raw && next == cursor + n
  {
    bytes, next := mem[cursor..cursor + n], cursor + n;
    assert bytes == mem[cursor..][..n];
  }

  method TranslateStatusInfo(mem: seq<byte>, ghost info: StatusInfo) returns (r: StatusInfo, cursor: nat)
    requires StatusBytes(info) <= mem
    ensures r == info && cursor == |StatusBytes(info)|
  {
    assert mem[0..] == mem;
    AtSplit(mem, 0, info.eStatus, info.nStatus);
    var eStatus, nStatus;
    eStatus, cursor := TakeRaw(mem, 0, 4, info.eStatus);
    nStatus, cursor := TakeRaw(mem, cursor, 4, info.nStatus);
    r := StatusInfo(eStatus, nStatus);
  }

  lemma TunnelArrives(i: TunnelInfo)
    ensures SameTunnel(i, TunnelReceived(i))
    ensures NoNullStrings(i) ==> TunnelReceived(i) == i
  {
  }

  /** Translating what SendTunnelInfo laid out gives every field of the record back and ends exactly at its end. */
  method TranslateTunnelInfo(mem: seq<byte>, ghost info: TunnelInfo) returns (r: TunnelInfo, cursor: nat)
    requires TunnelBytes(info) <= mem
    ensures r == TunnelReceived(info) && cursor == |TunnelBytes(info)|
    ensures SameTunnel(info, r) && (NoNullStrings(info) ==> r == info)
  {
    TunnelArrives(info);
    hide TextBytes, Received, At, SameTunnel, NoNullStrings;
    TunnelLayout(mem, info);
    var brokerName, tunnelType, l4, l6, r4, r6, prefix, domain, upTime;
    brokerName, cursor := TakeText(mem, 0, info.brokerName);
    tunnelType, cursor := TakeRaw(mem, cursor, 4, info.tunnelType);
    l4, cursor := TakeText(mem, cursor, info.ipv4Local);
    l6, cursor := TakeText(mem, cursor, info.ipv6Local);
    r4, cursor := TakeText(mem, cursor, info.ipv4Remote);
    r6, cursor := TakeText(mem, cursor, info.ipv6Remote);
    prefix, cursor := TakeText(mem, cursor, info.delegatedPrefix);
    domain, cursor := TakeText(mem, cursor, info.userDomain);
    upTime, cursor := TakeRaw(mem, cursor, 8, info.upTime);
    r := TunnelInfo(brokerName, tunnelType, l4, l6, r4, r6, prefix, domain, upTime);
  }

  lemma TunnelLayout(mem: seq<byte>, i: TunnelInfo)
    requires TunnelBytes(i) <= mem
    ensures var n0 := |TextBytes(i.brokerName)|;
      var n1 := n0 + 4;
      var n2 := n1 + |TextBytes(i.ipv4Local)|;
      var n3 := n2 + |TextBytes(i.ipv6Local)|;
      var n4 := n3 + |TextBytes(i.ipv4Remote)|;
      var n5 := n4 + |TextBytes(i.ipv6Remote)|;
      var n6 := n5 + |TextBytes(i.delegatedPrefix)|;
      var n7 := n6 + |TextBytes(i.userDomain)|;
      && At(mem, 0, TextBytes(i.brokerName)) && At(mem, n0, i.tunnelType) && At(mem, n1, TextBytes(i.ipv4Local))
      && At(mem, n2, TextBytes(i.ipv6Local)) && At(mem, n3, TextBytes(i.ipv4Remote))
      && At(mem, n4, TextBytes(i.ipv6Remote)) && At(mem, n5, TextBytes(i.delegatedPrefix))
      && At(mem, n6, TextBytes(i.userDomain)) && At(mem, n7, i.upTime) && |TunnelBytes(i)| == n7 + 8
  {
    hide TextBytes;
    assert At(mem, 0, TunnelBytes(i)) by {
      assert mem[0..] == mem;
    }
    hide At;
    var t7 := TextBytes(i.userDomain) + i.upTime;
    var t6 := TextBytes(i.delegatedPrefix) + t7;
    var t5 := TextBytes(i.ipv6Remote) + t6;
    var t4 := TextBytes(i.ipv4Remote) + t5;
    var t3 := TextBytes(i.ipv6Local) + t4;
    var t2 := TextBytes(i.ipv4Local) + t3;
    var t1 := i.tunnelType + t2;
    assert TunnelBytes(i) == TextBytes(i.brokerName) + t1;
    AtSplit(mem, 0, TextBytes(i.brokerName), t1);
    var n := |TextBytes(i.brokerName)|;
    AtSplit(mem, n, i.tunnelType, t2);
    n := n + 4;
    AtSplit(mem, n, TextBytes(i.ipv4Local), t3);
    n := n + |TextBytes(i.ipv4Local)|;
    AtSplit(mem, n, TextBytes(i.ipv6Local), t4);
    n := n + |TextBytes(i.ipv6Local)|;
    AtSplit(mem, n, TextBytes(i.ipv4Remote), t5);
    n := n + |TextBytes(i.ipv4Remote)|;
    AtSplit(mem, n, TextBytes(i.ipv6Remote), t6);
    n := n + |TextBytes(i.ipv6Remote)|;
    AtSplit(mem, n, TextBytes(i.delegatedPrefix), t7);
    n := n + |TextBytes(i.delegatedPrefix)|;
    AtSplit(mem, n, TextBytes(i.userDomain), i.upTime);
  }

  /** The recursive builder: the statuses from the cursor to the end of the data. */
  method BuildMappingStatuses(mem: seq<byte>, dataLen: nat, cursor: nat, ghost ms: seq<MappingStatus>)
    returns (r: seq<MappingStatus>, next: nat)
    requires At(mem, cursor, MappingsBytes(ms)) && cursor + |MappingsBytes(ms)| == dataLen
    ensures r == MappingsReceived(ms) && next == dataLen
    decreases dataLen - cursor
  {
    if cursor >= dataLen {
      return [], cursor;
    }
    hide TextBytes, Received, At;
    ghost var tail := ms[0].status + MappingsBytes(ms[1..]);
    assert MappingsBytes(ms) == TextBytes(ms[0].deviceName) + tail;
    AtSplit(mem, cursor, TextBytes(ms[0].deviceName), tail);
    var name, raw, others;
    name, next := TakeText(mem, cursor, ms[0].deviceName);
    AtSplit(mem, next, ms[0].status, MappingsBytes(ms[1..]));
    raw, next := TakeRaw(mem, next, 4, ms[0].status);
    others, next := BuildMappingStatuses(mem, dataLen, next, ms[1..]);
    r := [MappingStatus(name, raw)] + others;
  }

  method TranslateHap6StatusInfo(mem: seq<byte>, dataLen: nat, ghost info: Hap6StatusInfo)
    returns (r: Hap6StatusInfo, cursor: nat)
    requires Hap6Bytes(info) <= mem && dataLen == |Hap6Bytes(info)|
    ensures r == info.(mappings := MappingsReceived(info.mappings)) && cursor == dataLen
    ensures SameHap6(info, r)
    ensures NoNullNames(info) ==> r == info
  {
    Hap6Arrives(info);
    hide SameHap6, NoNullNames, MappingsReceived;
    ghost var t2 := info.devmapStatus + MappingsBytes(info.mappings);
    ghost var t1 := info.webStatus + t2;
    assert Hap6Bytes(info) == info.proxyStatus + t1 && mem[0..] == mem;
    AtSplit(mem, 0, info.proxyStatus, t1);
    AtSplit(mem, 4, info.webStatus, t2);
    AtSplit(mem, 8, info.devmapStatus, MappingsBytes(info.mappings));
    hide At;
    var proxy, web, devmap, mappings;
    proxy, cursor := TakeRaw(mem, 0, 4, info.proxyStatus);
    web, cursor := TakeRaw(mem, cursor, 4, info.webStatus);
    devmap, cursor := TakeRaw(mem, cursor, 4, info.devmapStatus);
    mappings, cursor := BuildMappingStatuses(mem, dataLen, cursor, info.mappings);
    r := Hap6StatusInfo(proxy, web, devmap, mappings);
  }

  // ---------- the broker list ----------

  /** A broker as the translator builds it; no distance means it was read outside the memory. */
  datatype TakenBroker = TakenBroker(address: Text, distance: Option<Raw4>)

  function Peek(mem: seq<byte>, p: nat): Option<Raw4> {
    if p + 4 <= |mem| then Some(mem[p..p + 4]) else None
  }

  /** What the builder makes of an entry at offset `base`: it adds the cursor, which counts from the
      start of the data, to a pointer that was advanced already. */
  function BrokersTaken(mem: seq<byte>, bs: seq<Broker>, base: nat): seq<TakenBroker>
    decreases |bs|
  {
    if bs == [] then [] else
    var nameLen := |TextBytes(bs[0].address)|;
    [TakenBroker(Received(bs[0].address), Peek(mem, base + (base + nameLen)))]
    + BrokersTaken(mem, bs[1..], base + nameLen + 4)
  }

  function BrokersIntended(bs: seq<Broker>): seq<TakenBroker> {
    if bs == [] then []
    else [TakenBroker(Received(bs[0].address), Some(bs[0].distance))] + BrokersIntended(bs[1..])
  }

  /** `pData` is where the builder's pointer stands in the memory. */
  method BuildBrokerList(mem: seq<byte>, pData: nat, dataLen: nat, cursor: nat, ghost bs: seq<Broker>)
    returns (r: seq<TakenBroker>, next: nat)
    requires At(mem, pData, BrokersBytes(bs)) && pData + |BrokersBytes(bs)| == dataLen && cursor == pData
    ensures r == BrokersTaken(mem, bs, pData) && next == dataLen
    decreases dataLen - cursor
  {
    if cursor >= dataLen {
      return [], cursor;
    }
    hide TextBytes, Received, At, Peek;
    ghost var tail := bs[0].distance + BrokersBytes(bs[1..]);
    assert BrokersBytes(bs) == TextBytes(bs[0].address) + tail;
    AtSplit(mem, pData, TextBytes(bs[0].address), tail);
    AtSplit(mem, pData + |TextBytes(bs[0].address)|, bs[0].distance, BrokersBytes(bs[1..]));
    var name, afterName := TakeText(mem, pData, bs[0].address);
    var nameLen := afterName - pData;
    next := cursor + nameLen;
    var distance := Peek(mem, pData + next);
    next := next + 4;
    var others;
    others, next := BuildBrokerList(mem, pData + nameLen + 4, dataLen, next, bs[1..]);
    r := [TakenBroker(name, distance)] + others;
  }

  method TranslateBrokerList(mem: seq<byte>, dataLen: nat, ghost bs: seq<Broker>)
    returns (r: seq<TakenBroker>, cursor: nat)
    requires BrokersBytes(bs) <= mem && dataLen == |BrokersBytes(bs)|
    ensures r == BrokersTaken(mem, bs, 0) && cursor == dataLen
  {
    assert mem[0..] == mem;
    r, cursor := BuildBrokerList(mem, 0, dataLen, 0, bs);
  }

  /** Every address arrives, and so does the distance of the first broker. */
  lemma {:induction false} AddressesArrive(mem: seq<byte>, bs: seq<Broker>, base: nat)
    ensures var r := BrokersTaken(mem, bs, base);
      |r| == |bs| && forall k :: 0 <= k < |bs| ==> SameText(bs[k].address, r[k].address)
    decreases |bs|
  {
    if bs != [] {
      var next := base + |TextBytes(bs[0].address)| + 4;
      AddressesArrive(mem, bs[1..], next);
      forall k | 0 < k < |bs|
        ensures SameText(bs[k].address, BrokersTaken(mem, bs, base)[k].address)
      {
        assert BrokersTaken(mem, bs, base)[k] == BrokersTaken(mem, bs[1..], next)[k - 1];
      }
    }
  }

  lemma HeadDistanceArrives(mem: seq<byte>, bs: seq<Broker>)
    requires bs != [] && BrokersBytes(bs) <= mem
    ensures BrokersTaken(mem, bs, 0)[0].distance == Some(bs[0].distance)
  {
    hide TextBytes;
    var text, rest := TextBytes(bs[0].address), BrokersBytes(bs[1..]);
    assert BrokersBytes(bs) == text + bs[0].distance + rest;
    assert mem[|text|..|text| + 4] == (text + bs[0].distance + rest)[|text|..|text| + 4] by {
      assert mem[..|BrokersBytes(bs)|] == BrokersBytes(bs);
    }
  }

  lemma TakenAt(mem: seq<byte>, bs: seq<Broker>, base: nat, k: nat)
    requires 0 < k < |bs|
    ensures var rest := BrokersTaken(mem, bs[1..], base + |TextBytes(bs[0].address)| + 4);
      |rest| == |bs| - 1 && |BrokersTaken(mem, bs, base)| == |bs| && BrokersTaken(mem, bs, base)[k] == rest[k - 1]
  {
    AddressesArrive(mem, bs[1..], base + |TextBytes(bs[0].address)| + 4);
  }

  /** Where the builder looks for distance k: as far behind the address as the entry lies from the start. */
  lemma {:induction false} DistanceIsLookedForAt(mem: seq<byte>, bs: seq<Broker>, base: nat, k: nat)
    requires k < |bs|
    ensures |BrokersTaken(mem, bs, base)| == |bs|
    ensures var entry := base + |BrokersBytes(bs[..k])|;
      BrokersTaken(mem, bs, base)[k].distance == Peek(mem, entry + entry + |TextBytes(bs[k].address)|)
    decreases |bs|
  {
    AddressesArrive(mem, bs, base);
    hide TextBytes, Peek, Received;
    if k > 0 {
      var next := base + |TextBytes(bs[0].address)| + 4;
      TakenAt(mem, bs, base, k);
      DistanceIsLookedForAt(mem, bs[1..], next, k - 1);
      BrokersFirst(bs[..k]);
      assert bs[..k][1..] == bs[1..][..k - 1];
    }
  }

  /** Past the first entry the last distance is always looked for behind the end of the message, at a
      place that does not depend on what the memory holds there. */
  lemma {:induction false} LastDistanceIsStale(bs: seq<Broker>, base: nat) returns (p: nat)
    requires bs != [] && base >= 4
    ensures p >= base + |BrokersBytes(bs)|
    ensures forall mem :: var r := BrokersTaken(mem, bs, base);
      |r| == |bs| && r[|bs| - 1].distance == Peek(mem, p)
    decreases |bs|
  {
    hide TextBytes, Peek, Received;
    var next := base + |TextBytes(bs[0].address)| + 4;
    if |bs| == 1 {
      p := base + (next - 4);
      BrokersNone();
      BrokersFirst(bs);
      assert bs[1..] == [];
    } else {
      p := LastDistanceIsStale(bs[1..], next);
      BrokersFirst(bs);
    }
  }

  lemma {:induction false} IntendedAreAllThere(bs: seq<Broker>)
    ensures |BrokersIntended(bs)| == |bs|
    ensures forall k :: 0 <= k < |bs| ==> BrokersIntended(bs)[k].distance == Some(bs[k].distance)
  {
    if bs != [] {
      IntendedAreAllThere(bs[1..]);
    }
  }

  /** A memory of the given size that begins with `bytes` and has four octets at `p`, if they are inside
      it at all, that differ from `value`. */
  lemma StaleOctetsDiffer(bytes: seq<byte>, size: nat, p: nat, value: Raw4) returns (mem: seq<byte>)
    requires |bytes| <= size && p >= |bytes|
    ensures |mem| == size && bytes <= mem && Peek(mem, p) != Some(value)
  {
    var fill: byte := if value[0] == 0 then 1 else 0;
    mem := bytes + seq(size - |bytes|, _ => fill);
    if p + 4 <= size {
      assert mem[p..p + 4][0] == fill;
    }
  }

  lemma LaterDistanceMayDiffer(bs: seq<Broker>, size: nat) returns (mem: seq<byte>)
    requires |bs| > 1 && |BrokersBytes(bs)| <= size
    ensures |mem| == size && BrokersBytes(bs) <= mem && BrokersTaken(mem, bs, 0) != BrokersIntended(bs)
  {
    hide TextBytes, Peek, Received, BrokersBytes;
    var base, last := |TextBytes(bs[0].address)| + 4, |bs| - 1;
    BrokersFirst(bs);
    var p := LastDistanceIsStale(bs[1..], base);
    mem := StaleOctetsDiffer(BrokersBytes(bs), size, p, bs[last].distance);
    assert BrokersTaken(mem, bs, 0)[last] == BrokersTaken(mem, bs[1..], base)[last - 1];
    IntendedAreAllThere(bs);
  }

  /** Whatever lies behind the message in a receive buffer of any size, the translation of a broker list is
      the list that was sent: that holds exactly when it has one broker. */
  lemma BrokerListRoundTripsIff(bs: seq<Broker>, size: nat)
    requires bs != [] && |BrokersBytes(bs)| <= size
    ensures (forall mem :: |mem| == size && BrokersBytes(bs) <= mem ==> BrokersTaken(mem, bs, 0) == BrokersIntended(bs))
       <==> |bs| == 1
  {
    hide TextBytes, Peek, Received, BrokersBytes;
    if |bs| == 1 {
      forall mem | |mem| == size && BrokersBytes(bs) <= mem
        ensures BrokersTaken(mem, bs, 0) == BrokersIntended(bs)
      {
        HeadDistanceArrives(mem, bs);
        assert bs[1..] == [];
      }
    } else {
      var mem := LaterDistanceMayDiffer(bs, size);
    }
  }
}
