/** The growable FIFO byte buffer and the typed values stored in it. */
module Buffer {
  import opened Bytes

  const INITIAL_ALLOC := 4096
  const MAX_APPEND := 0x10_0000
  const MAX_ALLOC := 0xa0_0000
  const GROWTH := 32768
  const MAX_STRING := 256 * 1024

  /** The three numbers that decide where bytes go. */
  datatype Shape = Shape(alloc: nat, offset: nat, end: nat)

  /** The shape after `len` bytes found room: at the end, after moving the data to the front, or in a larger
      allocation. None when that would exceed the maximum. */
  function Settled(s: Shape, len: nat): Option<Shape>
    requires s.offset <= s.end < s.alloc
  {
    if s.end + len < s.alloc then Some(s.(end := s.end + len))
    else if s.offset > s.alloc / 2 then
      var moved := Shape(s.alloc, 0, s.end - s.offset);
      if moved.end + len < s.alloc then Some(moved.(end := moved.end + len)) else Grown(moved, len)
    else Grown(s, len)
  }

  function Grown(s: Shape, len: nat): Option<Shape> {
    if s.alloc + len + GROWTH > MAX_ALLOC then None else Some(Shape(s.alloc + len + GROWTH, s.offset, s.end + len))
  }

  /** The shape after an append; an empty buffer starts from the front. */
  function After(s: Shape, len: nat): Option<Shape>
    requires s.offset <= s.end < s.alloc
  {
    if len > MAX_APPEND then None
    else Settled(if s.offset == s.end then Shape(s.alloc, 0, 0) else s, len)
  }

  /** How the attempts of the restart loop lead there. */
  lemma AttemptsSettle(s: Shape, len: nat)
    requires s.offset <= s.end < s.alloc
    ensures s.end + len < s.alloc ==> Settled(s, len) == Some(s.(end := s.end + len))
    ensures s.end + len >= s.alloc && s.offset > s.alloc / 2 ==>
      Settled(s, len) == Settled(Shape(s.alloc, 0, s.end - s.offset), len)
    ensures s.end + len >= s.alloc && s.offset <= s.alloc / 2 ==>
      Settled(s, len) == if s.alloc + len + GROWTH > MAX_ALLOC then None
                         else Settled(s.(alloc := s.alloc + len + GROWTH), len)
  {
  }

  /** Bytes that fit are appended without moving anything; an append never shrinks the allocation, and what
      was there stays there or moves to the front. */
  lemma AppendShape(s: Shape, len: nat)
    requires s.offset <= s.end < s.alloc
    ensures match After(s, len)
      case Some(next) =>
        && next.offset <= next.end < next.alloc && s.alloc <= next.alloc
        && next.end - next.offset == s.end - s.offset + len
        && (next.offset == s.offset || next.offset == 0)
        && (next.alloc == s.alloc || next.alloc == s.alloc + len + 32768 <= 0xa0_0000)
      case None => len > 0x10_0000 || s.alloc + len + 32768 > 0xa0_0000
  {
  }

  /** There is room for at most a megabyte at a time: at the end, or at the front of an empty buffer, or after moving
      the data to the front when more than half lies before them, or in a larger allocation of at most 10 MB. */
  lemma RoomIff(s: Shape, len: nat)
    requires s.offset <= s.end < s.alloc
    ensures After(s, len).Some? <==>
      && len <= 0x10_0000
      && (|| (if s.offset == s.end then len else s.end + len) < s.alloc
          || (s.offset > s.alloc / 2 && s.end - s.offset + len < s.alloc)
          || s.alloc + len + 32768 <= 0xa0_0000)
  {
  }

  class Buffer {
    var buf: array<byte>
    var alloc: nat
    var offset: nat
    var end: nat

    ghost predicate Valid()
      reads this
    {
      alloc == buf.Length && offset <= end < alloc
    }

    /** The bytes appended and not yet taken out, oldest first. */
    ghost function Contents(): seq<byte>
      requires Valid()
      reads this, buf
    {
      buf[offset..end]
    }

    constructor ()
      ensures Valid() && fresh(buf) && Contents() == [] && alloc == 4096 && offset == 0
    {
      buf := new byte[INITIAL_ALLOC];
      alloc, offset, end := INITIAL_ALLOC, 0, 0;
    }

    method Clear()
      requires Valid()
      modifies this`offset, this`end
      ensures Valid() && Contents() == []
    {
      offset, end := 0, 0;
    }

    method Length() returns (n: nat)
      requires Valid()
      ensures n == |Contents()|
    {
      n := end - offset;
    }

    ghost function Now(): Shape
      reads this
    {
      Shape(alloc, offset, end)
    }

    /** When `len` more bytes can be stored: there is room at the end, or after moving the data to the
        front, or in a larger allocation that does not exceed the maximum. */
    ghost predicate HasRoom(len: nat)
      requires Valid()
      reads this, buf
    {
      After(Now(), len).Some?
    }

    /** 0 when the data fit, 1 when only growth is left to try, 2 when a compaction comes first. */
    ghost function Attempts(len: nat): nat
      reads this
    {
      if end + len < alloc then 0 else if offset > alloc / 2 then 2 else 1
    }

    method MoveToFront()
      requires Valid()
      modifies this`offset, this`end, buf
      ensures Valid() && Contents() == old(Contents()) && Now() == Shape(alloc, 0, old(end) - old(offset))
    {
      ghost var contents := Contents();
      forall i | 0 <= i < end - offset {
        buf[i] := buf[offset + i];
      }
      assert buf[0..end - offset] == contents;
      end := end - offset;
      offset := 0;
    }

    method Reallocate(newlen: nat)
      requires Valid() && newlen >= alloc
      modifies this`buf, this`alloc
      ensures Valid() && Contents() == old(Contents()) && fresh(buf) && Now() == old(Now()).(alloc := newlen)
    {
      var larger := new byte[newlen];
      forall i | 0 <= i < alloc {
        larger[i] := buf[i];
      }
      assert larger[offset..end] == buf[offset..end];
      buf := larger;
      alloc := newlen;
    }

    /** The restart loop: moves and grows until `len` bytes fit at the end, or gives up. */
    method MakeRoom(len: nat) returns (ok: bool)
      requires Valid()
      modifies this, buf
      ensures Valid() && Contents() == old(Contents()) && (buf == old(buf) || fresh(buf))
      ensures ok <==> Settled(old(Now()), len).Some?
      ensures ok ==> end + len < alloc && Settled(old(Now()), len) == Some(Now().(end := end + len))
    {
      hide Settled;
      while true
        invariant Valid() && Contents() == old(Contents()) && (buf == old(buf) || fresh(buf))
        invariant Settled(Now(), len) == Settled(old(Now()), len)
        decreases Attempts(len)
      {
        AttemptsSettle(Now(), len);
        if end + len < alloc {
          return true;
        }
        if offset > alloc / 2 {
          MoveToFront();
        } else {
          var newlen := alloc + len + GROWTH;
          if newlen > MAX_ALLOC {
            return false;
          }
          Reallocate(newlen);
        }
      }
    }

    /** Makes room for `len` bytes after the contents, or reports that the program must exit. */
    method AppendSpace(len: nat) returns (ok: bool, p: nat)
      requires Valid()
      modifies this, buf
      ensures ok <==> old(HasRoom(len))
      ensures ok ==>
        && Valid() && (buf == old(buf) || fresh(buf))
        && Some(Now()) == After(old(Now()), len)
        && offset <= p == end - len && buf[offset..p] == old(Contents())
    {
      hide Settled;
      if len > MAX_APPEND {
        return false, 0;
      }
      if offset == end {
        offset, end := 0, 0;
      }
      ok := MakeRoom(len);
      p := end;
      if ok {
        end := end + len;
      }
    }

    method Append(data: seq<byte>) returns (ok: bool)
      requires Valid()
      modifies this, buf
      ensures ok <==> old(HasRoom(|data|))
      ensures ok ==> Valid() && (buf == old(buf) || fresh(buf)) && Contents() == old(Contents()) + data
      ensures ok ==> Some(Now()) == After(old(Now()), |data|)
    {
      hide After;
      var p;
      ok, p := AppendSpace(|data|);
      if ok {
        ghost var before := buf[..p];
        CopyInto(buf, p, data);
        assert buf[offset..p] == before[offset..];
        assert buf[offset..end] == buf[offset..p] + buf[p..end];
      }
    }

    method Get(len: nat) returns (data: Option<seq<byte>>)
      requires Valid()
      modifies this`offset
      ensures Valid()
      ensures if len <= |old(Contents())|
              then data == Some(old(Contents())[..len]) && Contents() == old(Contents())[len..]
              else data == None && Contents() == old(Contents())
    {
      if len > end - offset {
        return None;
      }
      ghost var before := Contents();
      data := Some(buf[offset..offset + len]);
      offset := offset + len;
      assert data.value == before[..len] && Contents() == before[len..];
    }

    method Consume(bytes: nat) returns (ok: bool)
      requires Valid()
      modifies this`offset
      ensures Valid()
      ensures ok <==> bytes <= |old(Contents())|
      ensures Contents() == if ok then old(Contents())[bytes..] else old(Contents())
    {
      ok := bytes <= end - offset;
      if ok {
        offset := offset + bytes;
      }
    }

    method ConsumeEnd(bytes: nat) returns (ok: bool)
      requires Valid()
      modifies this`end
      ensures Valid()
      ensures ok <==> bytes <= |old(Contents())|
      ensures Contents() == if ok then old(Contents())[..|old(Contents())| - bytes] else old(Contents())
    {
      ok := bytes <= end - offset;
      if ok {
        end := end - bytes;
      }
    }

    // ---------- typed values ----------

    method PutInt(value: word32) returns (ok: bool)
      requires Valid()
      modifies this, buf
      ensures ok <==> old(HasRoom(4))
      ensures ok ==> Valid() && (buf == old(buf) || fresh(buf)) && Contents() == old(Contents()) + Encode(Int(value))
      ensures ok ==> Some(Now()) == After(old(Now()), 4)
    {
      ok := Append(BigEndian32(value));
    }

    method PutOctet(value: int) returns (ok: bool)
      requires Valid()
      modifies this, buf
      ensures ok <==> old(HasRoom(1))
      ensures ok ==>
        Valid() && (buf == old(buf) || fresh(buf)) && Contents() == old(Contents()) + Encode(Octet(value % 0x100))
    {
      ok := Append([value % 0x100]);
    }

    method PutString(s: seq<byte>) returns (ok: bool)
      requires Valid() && |s| < 0x1_0000_0000
      modifies this, buf
      ensures ok <==> match After(old(Now()), 4) case Some(next) => After(next, |s|).Some? case None => false
      ensures ok ==> Valid() && (buf == old(buf) || fresh(buf)) && Contents() == old(Contents()) + Encode(Str(s))
    {
      hide After, BigEndian32;
      ok := PutInt(|s|);
      if ok {
        ghost var before := Contents();
        ok := Append(s);
        assert ok ==> Contents() == old(Contents()) + (BigEndian32(|s|) + s);
      }
    }

    method GetInt() returns (value: Option<word32>)
      requires Valid()
      modifies this`offset
      ensures Valid()
      ensures match Parse(IntKind, old(Contents()))
        case Some((item, rest)) => value == Some(item.value) && Contents() == rest
        case None => value == None && Contents() == old(Contents())
    {
      var data := Get(4);
      value := if data == None then None else Some(FromBigEndian32(data.value));
    }

    method GetOctet() returns (value: Option<byte>)
      requires Valid()
      modifies this`offset
      ensures Valid()
      ensures match Parse(OctetKind, old(Contents()))
        case Some((item, rest)) => value == Some(item.octet) && Contents() == rest
        case None => value == None && Contents() == old(Contents())
    {
      var data := Get(1);
      value := if data == None then None else Some(data.value[0]);
    }

    method GetString() returns (s: Option<seq<byte>>)
      requires Valid()
      modifies this`offset
      ensures Valid()
      ensures match Parse(StringKind, old(Contents()))
        case Some((item, rest)) => s == Some(item.bytes) && Contents() == rest
        case None => s == None && Contents() == if |old(Contents())| < 4 then old(Contents()) else old(Contents())[4..]
    {
      var len := GetInt();
      if len == None || len.value > MAX_STRING {
        return None;
      }
      ghost var before := old(Contents());
      s := Get(len.value);
      if s != None {
        assert before[4..][..len.value] == before[4..4 + len.value as int];
        assert before[4..][len.value..] == before[4 + len.value as int..];
      }
    }
  }

  // ---------- the layout of typed values ----------

  datatype Item = Int(value: word32) | Octet(octet: byte) | Str(bytes: seq<byte>)

  datatype Kind = IntKind | OctetKind | StringKind

  function BigEndian32(x: word32): (s: seq<byte>)
    ensures |s| == 4
  {
    [x / 0x100_0000, x / 0x1_0000 % 0x100, x / 0x100 % 0x100, x % 0x100]
  }

  function FromBigEndian32(s: seq<byte>): word32
    requires |s| == 4
  {
    FromLittleEndian32([s[3], s[2], s[1], s[0]])
  }

  lemma BigEndian32RoundTrip(x: word32)
    ensures FromBigEndian32(BigEndian32(x)) == x
  {
    LittleEndian32RoundTrip(x);
    assert [BigEndian32(x)[3], BigEndian32(x)[2], BigEndian32(x)[1], BigEndian32(x)[0]] == LittleEndian32(x);
  }

  function KindOf(item: Item): Kind {
    match item case Int(_) => IntKind case Octet(_) => OctetKind case Str(_) => StringKind
  }

  predicate Storable(item: Item) { item.Str? ==> |item.bytes| < 0x1_0000_0000 }

  function Encode(item: Item): seq<byte>
    requires Storable(item)
  {
    match item
    case Int(value) => BigEndian32(value)
    case Octet(b) => [b]
    case Str(s) => BigEndian32(|s|) + s
  }

  /** The number that four octets are, most significant first. */
  function Value32(s: seq<byte>): int
    requires |s| == 4
  {
    ((s[0] as int * 0x100 + s[1] as int) * 0x100 + s[2] as int) * 0x100 + s[3] as int
  }

  lemma BigEndian32Value(x: word32)
    ensures Value32(BigEndian32(x)) == x as int
  {
    assert x / 0x1_0000 == x / 0x100 / 0x100;
    assert x / 0x100_0000 == x / 0x1_0000 / 0x100;
  }

  /** A number is stored most significant octet first, and a string with its length in front. */
  lemma StoredForm(item: Item)
    requires Storable(item)
    ensures var e := Encode(item);
      match item
      case Int(value) => |e| == 4 && Value32(e) == value as int
      case Octet(b) => e == [b]
      case Str(s) => |e| == 4 + |s| && Value32(e[..4]) == |s| && e[4..] == s
  {
    hide BigEndian32, Value32;
    match item
    case Int(value) => BigEndian32Value(value);
    case Octet(_) =>
    case Str(s) =>
      BigEndian32Value(|s|);
      assert Encode(item)[..4] == BigEndian32(|s|);
  }

  /** What a typed get finds at the front of the contents, and what it leaves. */
  function Parse(kind: Kind, s: seq<byte>): Option<(Item, seq<byte>)> {
    match kind
    case IntKind => if |s| < 4 then None else Some((Int(FromBigEndian32(s[..4])), s[4..]))
    case OctetKind => if s == [] then None else Some((Octet(s[0]), s[1..]))
    case StringKind =>
      if |s| < 4 then None else
      var len := FromBigEndian32(s[..4]);
      if len > MAX_STRING || len as int > |s| - 4 then None
      else Some((Str(s[4..4 + len as int]), s[4 + len as int..]))
  }

  /** A typed get returns what the matching put stored, and leaves what follows it, unless it was a
      string beyond the limit, which can be put but not got. */
  lemma ParseEncode(item: Item, rest: seq<byte>)
    requires Storable(item)
    ensures Parse(KindOf(item), Encode(item) + rest) == Some((item, rest))
       <==> (item.Str? ==> |item.bytes| <= 262144)
  {
    var s := Encode(item) + rest;
    match item
    case Int(value) =>
      BigEndian32RoundTrip(value);
      assert s[..4] == BigEndian32(value) && s[4..] == rest;
    case Octet(b) => assert s[1..] == rest;
    case Str(bytes) =>
      var len := |bytes|;
      BigEndian32RoundTrip(len);
      assert s == BigEndian32(len) + (bytes + rest);
      assert s[..4] == BigEndian32(len) && s[4..] == bytes + rest;
      assert s[4..4 + len] == bytes && s[4 + len..] == rest;
  }

  function EncodeAll(items: seq<Item>): seq<byte>
    requires forall i :: 0 <= i < |items| ==> Storable(items[i])
  {
    if items == [] then [] else Encode(items[0]) + EncodeAll(items[1..])
  }

  function ParseAll(kinds: seq<Kind>, s: seq<byte>): Option<(seq<Item>, seq<byte>)>
    decreases |kinds|
  {
    if kinds == [] then Some(([], s)) else
    match Parse(kinds[0], s)
    case None => None
    case Some((item, rest)) =>
      match ParseAll(kinds[1..], rest)
      case None => None
      case Some((items, rest')) => Some(([item] + items, rest'))
  }

  function Kinds(items: seq<Item>): seq<Kind> {
    if items == [] then [] else [KindOf(items[0])] + Kinds(items[1..])
  }

  /** Any list of values put one after the other is returned by the matching list of gets, in order,
      and whatever followed it in the buffer stays. */
  lemma {:induction false} ParseAllEncodeAll(items: seq<Item>, rest: seq<byte>)
    requires forall i :: 0 <= i < |items| ==> Storable(items[i]) && (items[i].Str? ==> |items[i].bytes| <= 262144)
    ensures ParseAll(Kinds(items), EncodeAll(items) + rest) == Some((items, rest))
    decreases |items|
  {
    if items == [] {
      assert EncodeAll(items) + rest == rest;
    } else {
      hide Encode, Parse, KindOf;
      var tail := EncodeAll(items[1..]) + rest;
      assert EncodeAll(items) + rest == Encode(items[0]) + tail;
      ParseEncode(items[0], tail);
      ParseAllEncodeAll(items[1..], rest);
      var kinds := Kinds(items);
      assert kinds[0] == KindOf(items[0]) && kinds[1..] == Kinds(items[1..]);
      assert items == [items[0]] + items[1..];
    }
  }
}
