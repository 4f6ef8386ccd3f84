/** The dynamic DNS update message of dns.c, and an independent decoder for it. */
module Dns {
  import opened Bytes

  const DNS_NAME_SIZE := 253
  const DNS_LABEL_SIZE := 63
  const DNS_HEADER_SIZE := 12
  const DNS_BUFFER_SIZE := 512
  const DOT: byte := 46

  const OPCODE_UPDATE := 5
  const TYPE_SOA: word16 := 6
  const TYPE_AAAA: word16 := 28
  const TYPE_AAAA_SIZE := 16
  const TYPE_ANY: word16 := 255
  const CLASS_IN: word16 := 1
  const CLASS_ANY: word16 := 255

  type Label = seq<byte>

  type Address = a: seq<byte> | |a| == TYPE_AAAA_SIZE witness seq(TYPE_AAAA_SIZE, _ => 0)

  /** The AAAA argument: null, text that is no IPv6 address, or the address the text stands for. */
  datatype Target = DeleteAll | BadText | Add(address: Address)

  datatype RCode = NoError | FormErr

  // ---------- what is written ----------

  function BigEndian16(x: word16): (s: seq<byte>)
    ensures |s| == 2
  {
    [x / 0x100, x % 0x100]
  }

  function BigEndian32(x: word32): (s: seq<byte>)
    ensures |s| == 4
  {
    BigEndian16(x / 0x1_0000) + BigEndian16(x % 0x1_0000)
  }

  /** The labels of a dotted name; empty ones, from leading, trailing or double dots, are dropped. */
  function Labels(name: seq<byte>): seq<Label>
    decreases |name|
  {
    if name == [] then [] else
    var i := IndexOf(name, DOT);
    (if i == 0 then [] else [name[..i]]) + Labels(AfterDot(name))
  }

  function EncodeLabels(labels: seq<Label>): seq<byte> {
    if labels == [] then [] else [|labels[0]| % 0x100] + labels[0] + EncodeLabels(labels[1..])
  }

  function NameBytes(name: seq<byte>, offset: nat): seq<byte>
    requires offset < 0x4000
  {
    EncodeLabels(Labels(name)) + if offset != 0 then BigEndian16(0xc000 + offset) else [0]
  }

  function HeaderBytes(id: word16): (s: seq<byte>)
    ensures |s| == DNS_HEADER_SIZE
  {
    BigEndian16(id) + BigEndian16(OPCODE_UPDATE * 0x800)
    + BigEndian16(1) + BigEndian16(0) + BigEndian16(1) + BigEndian16(0)
  }

  function ZoneBytes(domain: seq<byte>): seq<byte> {
    NameBytes(domain, 0) + BigEndian16(TYPE_SOA) + BigEndian16(CLASS_IN)
  }

  function Fields(rrType: word16, rrClass: word16, time: word32, size: word16, data: seq<byte>): seq<byte> {
    BigEndian16(rrType) + BigEndian16(rrClass) + BigEndian32(time) + BigEndian16(size) + data
  }

  function RecordTail(ttl: word32, target: Target): seq<byte>
    requires target != BadText
  {
    if target.Add? then Fields(TYPE_AAAA, CLASS_IN, ttl, TYPE_AAAA_SIZE, target.address)
    else Fields(TYPE_ANY, CLASS_ANY, 0, 0, [])
  }

  function RecordBytes(name: seq<byte>, ttl: word32, target: Target): seq<byte>
    requires target != BadText
  {
    NameBytes(name, DNS_HEADER_SIZE) + RecordTail(ttl, target)
  }

  /** The message after the two octets of length that precede it on a TCP connection. */
  function MessageBytes(id: word16, domain: seq<byte>, name: seq<byte>, ttl: word32, target: Target): seq<byte>
    requires target != BadText
  {
    HeaderBytes(id) + ZoneBytes(domain) + RecordBytes(name, ttl, target)
  }

  predicate Accepted(domain: seq<byte>, name: seq<byte>, target: Target) {
    |name| + 1 + |domain| <= DNS_NAME_SIZE && |name| <= DNS_LABEL_SIZE && target != BadText
  }

  // ---------- how it is written ----------

  lemma {:induction false} EncodeLabelsAppend(left: seq<Label>, right: seq<Label>)
    ensures EncodeLabels(left + right) == EncodeLabels(left) + EncodeLabels(right)
  {
    if left == [] {
      assert left + right == right;
    } else {
      assert (left + right)[0] == left[0] && (left + right)[1..] == left[1..] + right;
      EncodeLabelsAppend(left[1..], right);
    }
  }

  function AfterDot(name: seq<byte>): (rest: seq<byte>)
    ensures name != [] ==> |rest| < |name|
  {
    var i := IndexOf(name, DOT);
    if i < |name| then name[i + 1..] else []
  }

  lemma LabelsUnfold(name: seq<byte>)
    requires name != []
    ensures var i := IndexOf(name, DOT);
      Labels(name) == (if i == 0 then [] else [name[..i]]) + Labels(AfterDot(name))
  {
  }

  lemma EncodeLabelsUnfold(name: seq<byte>)
    requires name != []
    ensures var i := IndexOf(name, DOT);
      EncodeLabels(Labels(name)) == LabelBytes(name[..i]) + EncodeLabels(Labels(AfterDot(name)))
  {
    hide EncodeLabels, Labels, AfterDot, IndexOf;
    LabelsUnfold(name);
    var i, after := IndexOf(name, DOT), Labels(AfterDot(name));
    if i > 0 {
      EncodeLabelsAppend([name[..i]], after);
      EncodeLabelsOne(name[..i]);
    } else {
      assert [] + after == after && [] + EncodeLabels(after) == EncodeLabels(after);
    }
  }

  lemma EncodeLabelsOne(l: Label)
    ensures EncodeLabels([l]) == [|l| % 0x100] + l
  {
  }

  lemma {:induction false} LabelsLength(name: seq<byte>)
    ensures |EncodeLabels(Labels(name))| <= if name == [] then 0 else |name| + 1
    decreases |name|
  {
    if name != [] {
      hide EncodeLabels, Labels;
      EncodeLabelsUnfold(name);
      LabelsLength(AfterDot(name));
    }
  }

  /** A dotted name. */
  function Joined(labels: seq<Label>): seq<byte> {
    if labels == [] then [] else if |labels| == 1 then labels[0] else labels[0] + [46] + Joined(labels[1..])
  }

  function NonEmpty(labels: seq<Label>): seq<Label> {
    if labels == [] then [] else (if labels[0] == [] then [] else [labels[0]]) + NonEmpty(labels[1..])
  }

  /** The labels between the dots are the labels of the name, empty ones left out. */
  lemma {:induction false} LabelsOfJoined(labels: seq<Label>)
    requires forall l :: l in labels ==> 46 !in l
    ensures Labels(Joined(labels)) == NonEmpty(labels)
  {
    if labels != [] {
      var l, rest := labels[0], labels[1..];
      assert l in labels && forall m :: m in rest ==> m in labels;
      LabelsOfJoined(rest);
      hide Labels;
      if rest == [] {
        LabelsOfOne(l);
      } else {
        LabelsOfFirst(l, Joined(rest));
      }
    }
  }

  lemma LabelsOfOne(l: Label)
    requires 46 !in l
    ensures Labels(l) == if l == [] then [] else [l]
  {
    if l != [] {
      IndexOfIs(l, DOT, |l|);
      assert l[..|l|] == l && AfterDot(l) == [];
    }
  }

  lemma LabelsOfFirst(l: Label, others: seq<byte>)
    requires 46 !in l
    ensures Labels(l + [46] + others) == (if l == [] then [] else [l]) + Labels(others)
  {
    var name := l + [46] + others;
    IndexOfIs(name, DOT, |l|);
    assert name[..|l|] == l && AfterDot(name) == others;
    LabelsUnfold(name);
  }

  lemma {:induction false} LabelsShort(name: seq<byte>)
    ensures forall l :: l in Labels(name) ==> 0 < |l| <= |name|
    decreases |name|
  {
    if name != [] {
      LabelsShort(AfterDot(name));
    }
  }

  /** Writes `bytes` at `p`; what was written from `start` on grows by them. */
  method Write(buffer: array<byte>, ghost start: nat, p: nat, bytes: seq<byte>) returns (p': nat)
    requires start <= p && p + |bytes| <= buffer.Length
    modifies buffer
    ensures p' == p + |bytes|
    ensures buffer[start..p'] == old(buffer[start..p]) + bytes
    ensures forall i :: 0 <= i < p || p' <= i < buffer.Length ==> buffer[i] == old(buffer[i])
  {
    p' := p + |bytes|;
    forall i | 0 <= i < |bytes| {
      buffer[p + i] := bytes[i];
    }
  }

  lemma Associative(a: seq<byte>, b: seq<byte>, c: seq<byte>)
    ensures a + b + c == a + (b + c)
  {
  }

  /** One label, unless it is empty. */
  method WriteLabel(buffer: array<byte>, ghost start: nat, p: nat, text: seq<byte>) returns (p': nat)
    requires start <= p && p + |LabelBytes(text)| <= buffer.Length
    modifies buffer
    ensures p' == p + |LabelBytes(text)|
    ensures buffer[start..p'] == old(buffer[start..p]) + LabelBytes(text)
  {
    p' := p;
    ghost var before := buffer[start..p];
    if |text| > 0 {
      var octet: byte := |text| % 0x100;
      p' := Write(buffer, start, p', [octet]);
      p' := Write(buffer, start, p', text);
      Associative(before, [octet], text);
    }
  }

  function LabelBytes(text: seq<byte>): (s: seq<byte>)
    ensures |s| <= |text| + 1
  {
    if text == [] then [] else [|text| % 0x100] + text
  }

  /** The loop of DNSNameEncode: one length octet and the text for every label that is not empty. */
  method WriteLabels(buffer: array<byte>, ghost start: nat, p: nat, name: seq<byte>) returns (p': nat)
    requires start <= p && p + |name| + 1 <= buffer.Length
    modifies buffer
    ensures p' == p + |EncodeLabels(Labels(name))| <= buffer.Length
    ensures buffer[start..p'] == old(buffer[start..p]) + EncodeLabels(Labels(name))
  {
    hide EncodeLabels, Labels, LabelBytes, AfterDot;
    EncodeLabelsNone();
    LabelsLength(name);
    p' := p;
    ghost var before, all := buffer[start..p], EncodeLabels(Labels(name));
    var rest := name;
    while rest != []
      invariant start <= p' <= buffer.Length && p' == p + |all| - |EncodeLabels(Labels(rest))|
      invariant buffer[start..p'] + EncodeLabels(Labels(rest)) == before + all
      decreases |rest|
    {
      EncodeLabelsUnfold(rest);
      var len := IndexOf(rest, DOT);
      p' := WriteLabel(buffer, start, p', rest[..len]);
      rest := AfterDot(rest);
    }
    assert buffer[start..p'] == before + all;
  }

  method NameEncode(buffer: array<byte>, ghost start: nat, p: nat, name: seq<byte>, offset: nat)
    returns (code: RCode, p': nat)
    requires start <= p && p + |name| + 3 <= buffer.Length && offset < 0x4000
    modifies buffer
    ensures code == NoError <==> |name| <= 253
    ensures code == NoError ==> p' == p + |NameBytes(name, offset)| <= buffer.Length
    ensures code == NoError ==> buffer[start..p'] == old(buffer[start..p]) + NameBytes(name, offset)
    ensures code != NoError ==> buffer[..] == old(buffer[..])
  {
    p' := p;
    if |name| > DNS_NAME_SIZE {
      return FormErr, p';
    }
    hide EncodeLabels, Labels;
    LabelsLength(name);
    p' := WriteLabels(buffer, start, p, name);
    p' := Write(buffer, start, p', if offset != 0 then BigEndian16(0xc000 + offset) else [0]);
    code := NoError;
  }

  lemma NameLength(name: seq<byte>, offset: nat)
    requires offset < 0x4000
    ensures |NameBytes(name, offset)| <= |name| + if offset == 0 then 2 else 3
  {
    hide EncodeLabels, Labels;
    LabelsLength(name);
  }

  lemma MessageLength(id: word16, domain: seq<byte>, name: seq<byte>, ttl: word32, target: Target)
    requires target != BadText
    ensures |ZoneBytes(domain)| <= |domain| + 6 && |NameBytes(name, DNS_HEADER_SIZE)| <= |name| + 3
    ensures |RecordTail(ttl, target)| <= 26
    ensures |MessageBytes(id, domain, name, ttl, target)| <= |domain| + |name| + 47
  {
    hide NameBytes;
    NameLength(domain, 0);
    NameLength(name, DNS_HEADER_SIZE);
  }

  lemma EncodeLabelsNone()
    ensures EncodeLabels(Labels([])) == []
  {
  }

  method WriteHeader(buffer: array<byte>, id: word16) returns (p: nat)
    requires buffer.Length == DNS_BUFFER_SIZE
    modifies buffer
    ensures p == 14 && buffer[2..p] == HeaderBytes(id)
  {
    p := Write(buffer, 2, 2, BigEndian16(id));
    p := Write(buffer, 2, p, BigEndian16(OPCODE_UPDATE * 0x800));
    p := Write(buffer, 2, p, BigEndian16(1));
    p := Write(buffer, 2, p, BigEndian16(0));
    p := Write(buffer, 2, p, BigEndian16(1));
    p := Write(buffer, 2, p, BigEndian16(0));
  }

  method WriteZone(buffer: array<byte>, p: nat, domain: seq<byte>) returns (p': nat)
    requires 2 <= p && p + |domain| + 7 <= buffer.Length && |domain| <= DNS_NAME_SIZE
    modifies buffer
    ensures p' == p + |ZoneBytes(domain)| <= buffer.Length
    ensures buffer[2..p'] == old(buffer[2..p]) + ZoneBytes(domain)
  {
    hide NameBytes, BigEndian16;
    NameLength(domain, 0);
    ghost var before := buffer[2..p];
    var _, q := NameEncode(buffer, 2, p, domain, 0);
    p' := Write(buffer, 2, q, BigEndian16(TYPE_SOA));
    p' := Write(buffer, 2, p', BigEndian16(CLASS_IN));
    assert buffer[2..p'] == before + ZoneBytes(domain);
  }

  method WriteFields(
    buffer: array<byte>, p: nat, rrType: word16, rrClass: word16, time: word32, size: word16, data: seq<byte>)
    returns (p': nat)
    requires p + 10 + |data| <= buffer.Length
    modifies buffer
    ensures p' == p + 10 + |data|
    ensures buffer[p..p'] == Fields(rrType, rrClass, time, size, data) && buffer[..p] == old(buffer[..p])
  {
    hide BigEndian16, BigEndian32;
    p' := Write(buffer, p, p, BigEndian16(rrType));
    p' := Write(buffer, p, p', BigEndian16(rrClass));
    p' := Write(buffer, p, p', BigEndian32(time));
    p' := Write(buffer, p, p', BigEndian16(size));
    p' := Write(buffer, p, p', data);
  }

  /** Type, class, time to live and data of the one record of the update section. */
  method WriteRecord(buffer: array<byte>, p: nat, ttl: word32, target: Target) returns (p': nat)
    requires target != BadText && 2 <= p && p + 26 <= buffer.Length
    modifies buffer
    ensures p' == p + |RecordTail(ttl, target)| <= p + 26
    ensures buffer[2..p'] == old(buffer[2..p]) + RecordTail(ttl, target)
  {
    hide Fields;
    ghost var before := buffer[..p];
    if target.Add? {
      p' := WriteFields(buffer, p, TYPE_AAAA, CLASS_IN, ttl, TYPE_AAAA_SIZE, target.address);
    } else {
      p' := WriteFields(buffer, p, TYPE_ANY, CLASS_ANY, 0, 0, []);
    }
    assert buffer[2..p'] == before[2..] + buffer[p..p'];
  }

  method WriteLength(buffer: array<byte>, len: nat)
    requires 2 <= len <= buffer.Length && len < 0x1_0000
    modifies buffer
    ensures buffer[..len] == BigEndian16(len - 2) + old(buffer[2..len])
  {
    ghost var message := buffer[2..len];
    var _ := Write(buffer, 0, 0, BigEndian16(len - 2));
    assert buffer[..len] == buffer[0..2] + message;
  }

  /** The part of DNSMessageCreate that follows its checks. */
  method WriteMessage(
    buffer: array<byte>, id: word16, domain: seq<byte>, name: seq<byte>, ttl: word32, target: Target)
    returns (len: nat)
    requires buffer.Length == DNS_BUFFER_SIZE && Accepted(domain, name, target)
    modifies buffer
    ensures len == |MessageBytes(id, domain, name, ttl, target)| + 2 <= 301
    ensures buffer[..len] == BigEndian16(len - 2) + MessageBytes(id, domain, name, ttl, target)
  {
    hide NameBytes, HeaderBytes, ZoneBytes, RecordTail, BigEndian16;
    MessageLength(id, domain, name, ttl, target);
    var p := WriteHeader(buffer, id);
    p := WriteZone(buffer, p, domain);
    var _, q := NameEncode(buffer, 2, p, name, DNS_HEADER_SIZE);
    len := WriteRecord(buffer, q, ttl, target);
    assert buffer[2..len] == MessageBytes(id, domain, name, ttl, target);
    WriteLength(buffer, len);
  }

  method MessageCreate(
    buffer: array<byte>, id: word16, domain: seq<byte>, name: seq<byte>, ttl: word32, target: Target)
    returns (code: RCode, len: nat)
    requires buffer.Length == 512
    modifies buffer
    ensures code == NoError <==> Accepted(domain, name, target)
    ensures code == NoError <==> |name| + 1 + |domain| <= 253 && |name| <= 63 && target != BadText
    ensures code == NoError ==>
      && len == |MessageBytes(id, domain, name, ttl, target)| + 2 <= 301
      && buffer[..len] == BigEndian16(len - 2) + MessageBytes(id, domain, name, ttl, target)
    ensures code != NoError ==> buffer[..] == old(buffer[..])
  {
    hide MessageBytes;
    if |name| + 1 + |domain| > DNS_NAME_SIZE || |name| > DNS_LABEL_SIZE || target == BadText {
      return FormErr, 0;
    }
    len := WriteMessage(buffer, id, domain, name, ttl, target);
    code := NoError;
  }
}
