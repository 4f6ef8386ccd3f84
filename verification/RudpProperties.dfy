/** Whose reply an exchange gets, over whole sessions, and what the timeout does in the long run. */
module RudpProperties {
  import opened Bytes
  import opened Rudp

  // ---------- matching ----------

  /** Two exchanges share a sequence number exactly when they are a multiple of 2^28 apart. */
  lemma SequencesCollideIff(a: nat, b: nat)
    ensures SequenceOf(a) == SequenceOf(b) <==> a % 0x1000_0000 == b % 0x1000_0000
  {
    hide SequenceOf;
    SequenceResidue(a);
    SequenceResidue(b);
    SameResidue(240 + a, 240 + b);
    SameResidue(a, b);
    assert (240 + a) - (240 + b) == a - b;
  }

  lemma SameResidue(x: nat, y: nat)
    ensures x % 0x1000_0000 == y % 0x1000_0000 <==> (x - y) % 0x1000_0000 == 0
  {
    assert x == 0x1000_0000 * (x / 0x1000_0000) + x % 0x1000_0000;
    assert y == 0x1000_0000 * (y / 0x1000_0000) + y % 0x1000_0000;
  }

  lemma RemainderIs(x: nat, q: nat, t: nat)
    requires x == 0x1000_0000 * q + t && t < 0x1000_0000
    ensures x % 0x1000_0000 == t
  {
  }

  /** Taking the low 32 bits first does not change the low 28. */
  lemma LowBits(n: nat)
    ensures n % 0x1_0000_0000 % 0x1000_0000 == n % 0x1000_0000
  {
    var q, r := n / 0x1_0000_0000, n % 0x1_0000_0000;
    var p, t := r / 0x1000_0000, r % 0x1000_0000;
    assert n == 0x1000_0000 * (16 * q + p) + t;
    RemainderIs(n, 16 * q + p, t);
  }

  lemma SequenceResidue(e: nat)
    ensures SequenceOf(e) as int == 0xf000_0000 + (240 + e) % 0x1000_0000
  {
    LowBits(240 + e);
  }

  /** A datagram in the log that carries the number of exchange e was sent by exchange e, as long as
      fewer than 2^28 exchanges came before; from then on it may be an earlier one. */
  lemma NumberNamesExchange(log: seq<Transmission>, e: nat, now: nat, i: nat)
    requires LogMatches(log, e + 1, now) && i < |log| && log[i].datagram.sequence == SequenceOf(e)
    ensures MayAnswer(log[i].exchange, e)
    ensures e < 0x1000_0000 ==> log[i].exchange == e
  {
    hide SequenceOf;
    SequencesCollideIff(log[i].exchange, e);
  }

  /** Every datagram in the log carries the payload of its exchange. */
  ghost predicate Own(log: seq<Transmission>, payloads: seq<seq<byte>>, k: nat) {
    forall i :: 0 <= i < |log| ==>
      log[i].exchange < k && log[i].exchange < |payloads| && log[i].datagram.payload == payloads[log[i].exchange]
  }

  lemma OwnPayloads(log0: seq<Transmission>, log: seq<Transmission>, payloads: seq<seq<byte>>, k: nat)
    requires k < |payloads| && Own(log0, payloads, k) && log0 <= log
    requires forall i :: |log0| <= i < |log| ==> log[i].exchange == k && log[i].datagram.payload == payloads[k]
    ensures Own(log, payloads, k + 1)
  {
    forall i | 0 <= i < |log0|
      ensures log[i] == log0[i]
    {
    }
  }

  lemma OwnAt(log: seq<Transmission>, payloads: seq<seq<byte>>, k: nat, i: nat)
    requires Own(log, payloads, k) && i < |log|
    ensures log[i].exchange < |payloads| && log[i].datagram.payload == payloads[log[i].exchange]
  {
  }

  /** Which exchange the reply of exchange k may belong to. */
  predicate MayAnswer(e: nat, k: nat) { e <= k && e % 0x1000_0000 == k % 0x1000_0000 }

  /** How many datagrams of exchange e are in the log. */
  ghost function Sent(log: seq<Transmission>, e: nat): nat {
    if log == [] then 0 else Sent(log[..|log| - 1], e) + if log[|log| - 1].exchange == e then 1 else 0
  }

  lemma {:induction false} SentGrows(log0: seq<Transmission>, log: seq<Transmission>, e: nat, k: nat)
    requires log0 <= log && forall i :: |log0| <= i < |log| ==> log[i].exchange == k
    ensures Sent(log, e) == Sent(log0, e) + if e == k then |log| - |log0| else 0
    decreases |log|
  {
    if |log0| == |log| {
      assert log0 == log;
    } else {
      SentGrows(log0, log[..|log| - 1], e, k);
    }
  }

  lemma {:induction false} NoneSent(log: seq<Transmission>, e: nat)
    requires forall i :: 0 <= i < |log| ==> log[i].exchange != e
    ensures Sent(log, e) == 0
    decreases |log|
  {
    if log != [] {
      NoneSent(log[..|log| - 1], e);
    }
  }

  /** What exchange k of a session added to the log. */
  lemma SentInExchange(log0: seq<Transmission>, log: seq<Transmission>, payloads: seq<seq<byte>>, k: nat)
    requires Own(log0, payloads, k) && log0 <= log
    requires forall i :: |log0| <= i < |log| ==> log[i].exchange == k
    ensures Sent(log, k) == |log| - |log0|
  {
    NoneSent(log0, k);
    SentGrows(log0, log, k, k);
  }

  /** Reply k answers exchange `asked`, which has the same number and for the first 2^28 exchanges is k itself. */
  ghost predicate Matched(
    network: Network, payloads: seq<seq<byte>>, space: nat, reply: Option<seq<byte>>, k: nat, asked: nat)
    requires k < |payloads|
  {
    && MayAnswer(asked, k)
    && reply == Some(network.Answer(Datagram(0, 0, payloads[asked]), space).payload)
    && (k < 0x1000_0000 ==> asked == k)
  }

  /** A session of any length: every reply is the server's reply to the payload of an exchange with the same
      number. Exactly the first `answered` messages get one: with the first failure the engine is down for good.
      That comes only after a call failed, or after 8 datagrams of one exchange, 3 if no peer was ever heard. */
  method Session(engine: RttEngine, payloads: seq<seq<byte>>, space: nat)
    returns (replies: seq<Option<seq<byte>>>, answered: nat, ghost asked: seq<nat>)
    requires engine.Valid() && engine.network.log == [] && engine.network.exchange == 0
    modifies engine, engine.network
    ensures |replies| == |asked| == |payloads| && answered <= |payloads|
    ensures forall k :: 0 <= k < |payloads| ==> (replies[k] != None <==> k < answered)
    ensures forall k :: 0 <= k < answered ==> Matched(engine.network, payloads, space, replies[k], k, asked[k])
    ensures !old(engine.initiated) ==> answered == 0
    ensures old(engine.initiated) && answered < |payloads| ==>
      || engine.network.failures > old(engine.network.failures)
      || Sent(engine.network.log, answered) == if answered > 0 || old(engine.hasPeer) then 8 else 3
    ensures old(engine.initiated) && answered == |payloads| ==> engine.network.failures == old(engine.network.failures)
  {
    hide SequenceOf, LogMatches, Sent, Matched;
    replies, answered, asked := [], 0, [];
    for k := 0 to |payloads|
      invariant engine.Valid() && |replies| == |asked| == k && answered <= k
      invariant forall j :: 0 <= j < k ==> (replies[j] != None <==> j < answered)
      invariant forall j :: 0 <= j < answered ==> Matched(engine.network, payloads, space, replies[j], j, asked[j])
      invariant engine.initiated <==> old(engine.initiated) && answered == k
      invariant !old(engine.initiated) ==> answered == 0
      invariant engine.initiated ==>
        && engine.network.exchange == k && Own(engine.network.log, payloads, k)
        && (engine.hasPeer <==> k > 0 || old(engine.hasPeer))
        && engine.network.failures == old(engine.network.failures)
      invariant old(engine.initiated) && answered < k ==>
        || engine.network.failures > old(engine.network.failures)
        || Sent(engine.network.log, answered) == if answered > 0 || old(engine.hasPeer) then 8 else 3
    {
      var reply;
      ghost var e;
      reply, e := Step(engine, payloads, space, k);
      if reply != None {
        answered := k + 1;
      }
      replies, asked := replies + [reply], asked + [e];
    }
  }

  /** Exchange k of a session. */
  method Step(engine: RttEngine, payloads: seq<seq<byte>>, space: nat, k: nat)
    returns (reply: Option<seq<byte>>, ghost asked: nat)
    requires engine.Valid() && k < |payloads|
    requires engine.initiated ==> engine.network.exchange == k && Own(engine.network.log, payloads, k)
    modifies engine, engine.network
    ensures engine.Valid() && (engine.initiated <==> reply != None)
    ensures !old(engine.initiated) ==>
      && reply == None && engine.network.log == old(engine.network.log)
      && engine.network.failures == old(engine.network.failures)
    ensures reply != None ==>
      && engine.hasPeer && engine.network.failures == old(engine.network.failures)
      && engine.network.exchange == k + 1 && Own(engine.network.log, payloads, k + 1)
      && Matched(engine.network, payloads, space, reply, k, asked)
    ensures old(engine.initiated) && reply == None ==>
      || engine.network.failures > old(engine.network.failures)
      || Sent(engine.network.log, k) == if old(engine.hasPeer) then 8 else 3
  {
    hide SequenceOf, LogMatches, Sent, Own, Timetable, Skipped;
    asked := k;
    ghost var log0, up := engine.network.log, engine.initiated;
    ghost var answered;
    reply, answered := engine.SendRecv(payloads[k], space);
    ghost var log := engine.network.log;
    if up {
      SentInExchange(log0, log, payloads, k);
    }
    if reply != None {
      NumberNamesExchange(log, k, engine.network.now, answered);
      OwnPayloads(log0, log, payloads, k);
      OwnAt(log, payloads, k + 1, answered);
      asked := log[answered].exchange;
    }
  }

  // ---------- the timeout ----------

  function BackedOff(rto: real, n: nat): real {
    if n == 0 then rto else AdjustedRto(2.0 * BackedOff(rto, n - 1))
  }

  function Doubled(rto: real, n: nat): real {
    if n == 0 then rto else 2.0 * Doubled(rto, n - 1)
  }

  /** n backoffs in a row double the timeout n times, up to the upper limit. */
  lemma {:induction false} BackoffIsExponential(rto: real, n: nat)
    requires TMIN <= rto <= TMAX
    ensures BackedOff(rto, n) == if Doubled(rto, n) > TMAX then TMAX else Doubled(rto, n)
    ensures Doubled(rto, n) >= TMIN
  {
    if n > 0 {
      BackoffIsExponential(rto, n - 1);
    }
  }

  function Decayed(x: real, n: nat): real {
    if n == 0 then x else Decayed(x, n - 1) * 0.875
  }

  lemma {:induction false} SampledAllSnoc(e: Estimate, rtts: seq<real>, rtt: real)
    ensures SampledAll(e, rtts + [rtt]) == Sampled(SampledAll(e, rtts), rtt)
    decreases |rtts|
  {
    if rtts == [] {
      assert [rtt][1..] == [] && [] + [rtt] == [rtt];
    } else {
      assert (rtts + [rtt])[0] == rtts[0] && (rtts + [rtt])[1..] == rtts[1..] + [rtt];
      SampledAllSnoc(Sampled(e, rtts[0]), rtts[1..], rtt);
    }
  }

  /** On a steady round-trip time the smoothed estimate closes in geometrically, while the variance
      term, which the update never decays, climbs to its start plus twice the initial error. */
  lemma {:induction false} SteadySamples(e: Estimate, rtt: real, n: nat)
    ensures var e' := SampledAll(e, seq(n, _ => rtt));
      && e'.srtt - rtt == Decayed(e.srtt - rtt, n)
      && e'.rttvar == e.rttvar + 2.0 * (Abs(e.srtt - rtt) - Abs(Decayed(e.srtt - rtt, n)))
  {
    if n > 0 {
      SteadySamples(e, rtt, n - 1);
      assert seq(n, _ => rtt) == seq(n - 1, _ => rtt) + [rtt];
      SampledAllSnoc(e, seq(n - 1, _ => rtt), rtt);
    }
  }

  /** For any samples: the smoothed estimate stays among them, and the variance term never shrinks. */
  lemma {:induction false} SamplesBound(e: Estimate, rtts: seq<real>, low: real, high: real)
    requires low <= e.srtt <= high
    requires forall k :: 0 <= k < |rtts| ==> low <= rtts[k] <= high
    ensures low <= SampledAll(e, rtts).srtt <= high
    ensures SampledAll(e, rtts).rttvar >= e.rttvar
    decreases |rtts|
  {
    if rtts != [] {
      SamplesBound(Sampled(e, rtts[0]), rtts[1..], low, high);
    }
  }
}
