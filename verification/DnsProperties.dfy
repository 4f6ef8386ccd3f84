/** A decoder that follows sections 3.1 and 4.1.4 of RFC 1035 and section 2 of RFC 2136, and what it
    recovers from the messages of Dns. */
module DnsProperties {
  import opened Bytes
  import opened Dns

  // ---------- the decoder ----------

  /** The name at `pos`, which began at `start`: labels of 1 to 63 octets up to the root or up to a
      pointer, which must lead to before the start. With the labels comes the position after the name. */
  function DecodeName(msg: seq<byte>, start: nat, pos: nat): Option<(seq<Label>, nat)>
    requires start <= pos
    decreases start, |msg| - pos
  {
    if pos >= |msg| then None else
    var n: int := msg[pos];
    if n == 0 then Some(([], pos + 1))
    else if n < 64 then
      if pos + 1 + n > |msg| then None else
      match DecodeName(msg, start, pos + 1 + n)
      case None => None
      case Some((labels, next)) => Some(([msg[pos + 1..pos + 1 + n]] + labels, next))
    else if n >= 192 && pos + 1 < |msg| then
      var target: nat := (n - 192) * 0x100 + msg[pos + 1] as int;
      if target >= start then None else
      match DecodeName(msg, target, target)
      case None => None
      case Some((labels, _)) => Some((labels, pos + 2))
    else None
  }

  function Word16At(msg: seq<byte>, p: nat): int
    requires p + 2 <= |msg|
  {
    msg[p] as int * 0x100 + msg[p + 1] as int
  }

  /** How many octets a name has without compression: a length octet for every label and for the root. */
  function WireLength(labels: seq<Label>): nat {
    if labels == [] then 1 else 1 + |labels[0]| + WireLength(labels[1..])
  }

  /** A name of at most 255 octets, as section 3.1 of RFC 1035 allows it. */
  function DecodeLegalName(msg: seq<byte>, pos: nat): Option<(seq<Label>, nat)> {
    match DecodeName(msg, pos, pos)
    case None => None
    case Some((labels, next)) => if WireLength(labels) > 255 then None else Some((labels, next))
  }

  /** An update with one zone and one record. */
  datatype Update = Update(
    id: int, zone: seq<Label>, name: seq<Label>, rrType: int, rrClass: int, ttl: int, data: seq<byte>)

  function ParseUpdate(msg: seq<byte>): Option<Update> {
    if |msg| < 12 || Word16At(msg, 2) != 0x2800 then None
    else if Word16At(msg, 4) != 1 || Word16At(msg, 6) != 0 || Word16At(msg, 8) != 1 || Word16At(msg, 10) != 0
    then None
    else match DecodeLegalName(msg, 12)
    case None => None
    case Some((zone, p)) =>
      if p + 4 > |msg| || Word16At(msg, p) != 6 || Word16At(msg, p + 2) != 1
      then None
      else match DecodeLegalName(msg, p + 4)
      case None => None
      case Some((name, r)) =>
        if r + 10 > |msg| || r + 10 + Word16At(msg, r + 8) != |msg| then None
        else Some(Update(Word16At(msg, 0), zone, name, Word16At(msg, r), Word16At(msg, r + 2),
                         Word16At(msg, r + 4) * 0x1_0000 + Word16At(msg, r + 6), msg[r + 10..]))
  }

  /** Adding one AAAA record (section 2.5.1 of RFC 2136), or deleting all records of a name (2.5.3). */
  function Meaning(id: word16, domain: seq<byte>, name: seq<byte>, ttl: word32, target: Target): Update
    requires target != BadText
  {
    var labels := Labels(name) + Labels(domain);
    if target.Add?
    then Update(id, Labels(domain), labels, 28, 1, ttl, target.address)
    else Update(id, Labels(domain), labels, 255, 255, 0, [])
  }

  // ---------- names ----------

  ghost predicate At(msg: seq<byte>, p: nat, bytes: seq<byte>) {
    p + |bytes| <= |msg| && msg[p..p + |bytes|] == bytes
  }

  lemma AtSplit(msg: seq<byte>, p: nat, left: seq<byte>, right: seq<byte>)
    requires At(msg, p, left + right)
    ensures At(msg, p, left) && At(msg, p + |left|, right)
  {
    var both := left + right;
    assert both[..|left|] == left && both[|left|..] == right;
    assert msg[p..p + |left|] == msg[p..p + |both|][..|left|];
    assert msg[p + |left|..p + |both|] == msg[p..p + |both|][|left|..];
  }

  lemma Word16Reads(msg: seq<byte>, p: nat, x: word16)
    requires At(msg, p, BigEndian16(x))
    ensures Word16At(msg, p) == x as int
  {
  }

  lemma LabelDecodes(
    msg: seq<byte>, start: nat, pos: nat, l: Label, tail: seq<Label>, next: nat)
    requires start <= pos && 0 < |l| < 64 && At(msg, pos, [|l|]) && At(msg, pos + 1, l)
    requires DecodeName(msg, start, pos + 1 + |l|) == Some((tail, next))
    ensures DecodeName(msg, start, pos) == Some(([l] + tail, next))
  {
  }

  lemma RootDecodes(msg: seq<byte>, start: nat, pos: nat)
    requires start <= pos && At(msg, pos, [0])
    ensures DecodeName(msg, start, pos) == Some(([], pos + 1))
  {
  }

  lemma PointerDecodes(msg: seq<byte>, start: nat, pos: nat, labels: seq<Label>, end: nat)
    requires 12 < start <= pos && At(msg, pos, BigEndian16(0xc00c))
    requires DecodeName(msg, 12, 12) == Some((labels, end))
    ensures DecodeName(msg, start, pos) == Some((labels, pos + 2))
  {
    assert msg[pos] == msg[pos..pos + 2][0] == 192 && msg[pos + 1] == msg[pos..pos + 2][1] == 12;
  }

  lemma {:induction false} DecodeEncoded(
    msg: seq<byte>, start: nat, pos: nat, labels: seq<Label>, tail: seq<Label>, next: nat)
    requires start <= pos && At(msg, pos, EncodeLabels(labels))
    requires forall l :: l in labels ==> 0 < |l| < 64
    requires DecodeName(msg, start, pos + |EncodeLabels(labels)|) == Some((tail, next))
    ensures DecodeName(msg, start, pos) == Some((labels + tail, next))
    decreases |labels|
  {
    hide DecodeName, At;
    if labels == [] {
      assert labels + tail == tail;
    } else {
      var l, rest := labels[0], EncodeLabels(labels[1..]);
      assert EncodeLabels(labels) == [|l|] + (l + rest);
      AtSplit(msg, pos, [|l|], l + rest);
      AtSplit(msg, pos + 1, l, rest);
      DecodeEncoded(msg, start, pos + 1 + |l|, labels[1..], tail, next);
      LabelDecodes(msg, start, pos, l, labels[1..] + tail, next);
      assert [l] + (labels[1..] + tail) == labels + tail;
    }
  }

  lemma {:induction false} DecodedLabelsAreShort(msg: seq<byte>, start: nat, pos: nat)
    requires start <= pos
    ensures match DecodeName(msg, start, pos)
      case Some((labels, _)) => forall l :: l in labels ==> |l| < 64
      case None => true
    decreases start, |msg| - pos
  {
    if pos < |msg| {
      var n: int := msg[pos];
      if 0 < n < 64 && pos + 1 + n <= |msg| {
        DecodedLabelsAreShort(msg, start, pos + 1 + n);
      } else if n >= 192 && pos + 1 < |msg| {
        var target: nat := (n - 192) * 0x100 + msg[pos + 1] as int;
        if target < start {
          DecodedLabelsAreShort(msg, target, target);
        }
      }
    }
  }

  lemma {:induction false} WireLengthAppend(left: seq<Label>, right: seq<Label>)
    ensures WireLength(left + right) == WireLength(left) + WireLength(right) - 1
  {
    if left == [] {
      assert left + right == right;
    } else {
      assert (left + right)[0] == left[0] && (left + right)[1..] == left[1..] + right;
      WireLengthAppend(left[1..], right);
    }
  }

  lemma {:induction false} WireLengthIs(labels: seq<Label>)
    ensures WireLength(labels) == |EncodeLabels(labels)| + 1
  {
    if labels != [] {
      WireLengthIs(labels[1..]);
    }
  }

  /** The encoder's bound of 253 characters keeps every name within 255 octets, whatever its labels. */
  lemma NamesAreLegal(domain: seq<byte>, name: seq<byte>)
    requires |name| + 1 + |domain| <= 253
    ensures WireLength(Labels(domain)) <= 255
    ensures WireLength(Labels(name) + Labels(domain)) <= 255
  {
    hide Labels, EncodeLabels;
    WireLengthIs(Labels(domain));
    WireLengthIs(Labels(name));
    LabelsLength(domain);
    LabelsLength(name);
    WireLengthAppend(Labels(name), Labels(domain));
  }

  ghost predicate ShortLabels(domain: seq<byte>) {
    forall l :: l in Labels(domain) ==> |l| <= 63
  }

  lemma ZoneNameDecodes(msg: seq<byte>, domain: seq<byte>)
    requires At(msg, 12, NameBytes(domain, 0)) && ShortLabels(domain)
    ensures DecodeName(msg, 12, 12) == Some((Labels(domain), 12 + |NameBytes(domain, 0)|))
  {
    hide DecodeName, At, Labels, EncodeLabels;
    var labels := Labels(domain);
    LabelsShort(domain);
    AtSplit(msg, 12, EncodeLabels(labels), [0]);
    var end := 12 + |EncodeLabels(labels)|;
    RootDecodes(msg, 12, end);
    DecodeEncoded(msg, 12, 12, labels, [], end + 1);
    assert labels + [] == labels;
  }

  /** The record's name ends in a pointer to offset 12, where the zone's name is. */
  lemma RecordNameDecodes(msg: seq<byte>, p: nat, name: seq<byte>, zone: seq<Label>, end: nat)
    requires p > 12 && At(msg, p, NameBytes(name, DNS_HEADER_SIZE)) && |name| <= DNS_LABEL_SIZE
    requires DecodeName(msg, 12, 12) == Some((zone, end))
    ensures DecodeName(msg, p, p) == Some((Labels(name) + zone, p + |NameBytes(name, DNS_HEADER_SIZE)|))
  {
    hide DecodeName, At, Labels, EncodeLabels;
    var labels := Labels(name);
    LabelsShort(name);
    AtSplit(msg, p, EncodeLabels(labels), BigEndian16(0xc00c));
    var q := p + |EncodeLabels(labels)|;
    PointerDecodes(msg, p, q, zone, end);
    DecodeEncoded(msg, p, p, labels, zone, q + 2);
  }

  // ---------- whole messages ----------

  lemma Word32Reads(msg: seq<byte>, p: nat, x: word32)
    requires At(msg, p, BigEndian32(x))
    ensures Word16At(msg, p) * 0x1_0000 + Word16At(msg, p + 2) == x as int
  {
    AtSplit(msg, p, BigEndian16(x / 0x1_0000), BigEndian16(x % 0x1_0000));
    Word16Reads(msg, p, x / 0x1_0000);
    Word16Reads(msg, p + 2, x % 0x1_0000);
  }

  /** The fixed part after the record's name reads back field by field. */
  lemma FieldsRead(
    msg: seq<byte>, r: nat, rrType: word16, rrClass: word16, time: word32, size: word16, data: seq<byte>)
    requires At(msg, r, Fields(rrType, rrClass, time, size, data))
    ensures r + 10 + |data| <= |msg|
    ensures Word16At(msg, r) == rrType as int && Word16At(msg, r + 2) == rrClass as int
    ensures Word16At(msg, r + 4) * 0x1_0000 + Word16At(msg, r + 6) == time as int
    ensures Word16At(msg, r + 8) == size as int && At(msg, r + 10, data)
  {
    hide Word16At, BigEndian16, BigEndian32, At;
    var t4 := BigEndian16(size) + data;
    var t3 := BigEndian32(time) + t4;
    var t2 := BigEndian16(rrClass) + t3;
    assert Fields(rrType, rrClass, time, size, data) == BigEndian16(rrType) + t2;
    AtSplit(msg, r, BigEndian16(rrType), t2);
    AtSplit(msg, r + 2, BigEndian16(rrClass), t3);
    AtSplit(msg, r + 4, BigEndian32(time), t4);
    AtSplit(msg, r + 8, BigEndian16(size), data);
    Word16Reads(msg, r, rrType);
    Word16Reads(msg, r + 2, rrClass);
    Word32Reads(msg, r + 4, time);
    Word16Reads(msg, r + 8, size);
    AtFits(msg, r + 10, data);
  }

  lemma AtFits(msg: seq<byte>, p: nat, bytes: seq<byte>)
    requires At(msg, p, bytes)
    ensures p + |bytes| <= |msg|
    ensures p + |bytes| == |msg| ==> msg[p..] == bytes
  {
  }

  lemma RecordTailReads(msg: seq<byte>, r: nat, ttl: word32, target: Target)
    requires target != BadText && At(msg, r, RecordTail(ttl, target)) && r + |RecordTail(ttl, target)| == |msg|
    ensures r + 10 <= |msg| && r + 10 + Word16At(msg, r + 8) == |msg|
    ensures Word16At(msg, r) == if target.Add? then 28 else 255
    ensures Word16At(msg, r + 2) == if target.Add? then 1 else 255
    ensures Word16At(msg, r + 4) * 0x1_0000 + Word16At(msg, r + 6) == if target.Add? then ttl as int else 0
    ensures msg[r + 10..] == if target.Add? then target.address else []
  {
    hide Word16At, At;
    if target.Add? {
      FieldsRead(msg, r, TYPE_AAAA, CLASS_IN, ttl, TYPE_AAAA_SIZE, target.address);
      AtFits(msg, r + 10, target.address);
    } else {
      FieldsRead(msg, r, TYPE_ANY, CLASS_ANY, 0, 0, []);
      AtFits(msg, r + 10, []);
    }
  }

  lemma HeaderReads(msg: seq<byte>, id: word16)
    requires At(msg, 0, HeaderBytes(id))
    ensures |msg| >= 12 && Word16At(msg, 0) == id as int && Word16At(msg, 2) == 0x2800
    ensures Word16At(msg, 4) == Word16At(msg, 8) == 1 && Word16At(msg, 6) == Word16At(msg, 10) == 0
  {
    var header := HeaderBytes(id);
    assert forall k :: 0 <= k < 12 ==> msg[k] == msg[0..12][k] == header[k];
  }

  /** Where the parts of a message are. */
  lemma MessageLayout(id: word16, domain: seq<byte>, name: seq<byte>, ttl: word32, target: Target)
    requires target != BadText
    ensures var msg := MessageBytes(id, domain, name, ttl, target);
      var p := 12 + |NameBytes(domain, 0)|;
      var r := p + 4 + |NameBytes(name, DNS_HEADER_SIZE)|;
      && At(msg, 0, HeaderBytes(id)) && At(msg, 12, NameBytes(domain, 0))
      && At(msg, p, BigEndian16(TYPE_SOA)) && At(msg, p + 2, BigEndian16(CLASS_IN))
      && At(msg, p + 4, NameBytes(name, DNS_HEADER_SIZE)) && At(msg, r, RecordTail(ttl, target))
      && r + |RecordTail(ttl, target)| == |msg|
  {
    hide NameBytes, HeaderBytes, RecordTail, BigEndian16;
    var msg := MessageBytes(id, domain, name, ttl, target);
    var zone, record := NameBytes(domain, 0), NameBytes(name, DNS_HEADER_SIZE);
    var p := 12 + |zone|;
    var t4 := record + RecordTail(ttl, target);
    var t3 := BigEndian16(CLASS_IN) + t4;
    var t2 := BigEndian16(TYPE_SOA) + t3;
    var t1 := zone + t2;
    assert msg == HeaderBytes(id) + t1;
    assert At(msg, 0, msg);
    hide At;
    AtSplit(msg, 0, HeaderBytes(id), t1);
    AtSplit(msg, 12, zone, t2);
    AtSplit(msg, p, BigEndian16(TYPE_SOA), t3);
    AtSplit(msg, p + 2, BigEndian16(CLASS_IN), t4);
    AtSplit(msg, p + 4, record, RecordTail(ttl, target));
  }

  lemma ShortLabelsDecode(id: word16, domain: seq<byte>, name: seq<byte>, ttl: word32, target: Target)
    requires Accepted(domain, name, target) && ShortLabels(domain)
    ensures ParseUpdate(MessageBytes(id, domain, name, ttl, target)) == Some(Meaning(id, domain, name, ttl, target))
  {
    hide DecodeName, NameBytes, HeaderBytes, RecordTail, Labels, Word16At, MessageBytes, At, BigEndian16, WireLength;
    NamesAreLegal(domain, name);
    var msg := MessageBytes(id, domain, name, ttl, target);
    var p := 12 + |NameBytes(domain, 0)|;
    MessageLayout(id, domain, name, ttl, target);
    AtFits(msg, p + 2, BigEndian16(CLASS_IN));
    HeaderReads(msg, id);
    ZoneNameDecodes(msg, domain);
    Word16Reads(msg, p, TYPE_SOA);
    Word16Reads(msg, p + 2, CLASS_IN);
    RecordNameDecodes(msg, p + 4, name, Labels(domain), p);
    RecordTailReads(msg, p + 4 + |NameBytes(name, DNS_HEADER_SIZE)|, ttl, target);
  }

  /** For every request the encoder accepts, the decoder recovers the zone, the name through the
      compression pointer, and the add or delete form, exactly when no label of the domain is longer
      than 63 octets; the encoder checks only the whole length. */
  lemma UpdateDecodesExactly(id: word16, domain: seq<byte>, name: seq<byte>, ttl: word32, target: Target)
    requires Accepted(domain, name, target)
    ensures ParseUpdate(MessageBytes(id, domain, name, ttl, target)) == Some(Meaning(id, domain, name, ttl, target))
       <==> ShortLabels(domain)
  {
    if ShortLabels(domain) {
      ShortLabelsDecode(id, domain, name, ttl, target);
    } else {
      DecodedLabelsAreShort(MessageBytes(id, domain, name, ttl, target), 12, 12);
    }
  }
}
