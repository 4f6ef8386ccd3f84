/** The reliable exchange over UDP: retransmission, reply matching and the round-trip estimator. */
module Rudp {
  import opened Bytes

  // ---------- the estimator, over reals ----------

  const TMIN := 2.0
  const TMAX := 30.0
  const MAXRTT := 3
  const MAXRT := 8

  function AdjustedRto(rto: real): (r: real)
    ensures 2.0 <= r <= 30.0
  {
    if rto < TMIN then TMIN else if rto > TMAX then TMAX else rto
  }

  /** The timeout used is the one closest to the wish between 2 and 30 seconds. */
  lemma AdjustedRtoIsNearest(rto: real, other: real)
    requires 2.0 <= other <= 30.0
    ensures Abs(AdjustedRto(rto) - rto) <= Abs(other - rto)
    ensures Abs(AdjustedRto(rto) - rto) == Abs(other - rto) ==> AdjustedRto(rto) == other
  {
  }

  datatype Estimate = Estimate(srtt: real, rttvar: real)

  function Abs(x: real): real { if x < 0.0 then -x else x }

  /** One sample, in seconds, with gains 1/8 and 1/4. */
  function Sampled(e: Estimate, rtt: real): Estimate {
    var delta := rtt - e.srtt;
    Estimate(e.srtt + delta / 8.0, e.rttvar + Abs(delta) / 4.0)
  }

  function SampledAll(e: Estimate, rtts: seq<real>): Estimate
    decreases |rtts|
  {
    if rtts == [] then e else SampledAll(Sampled(e, rtts[0]), rtts[1..])
  }

  // ---------- messages ----------

  /** `s | 0xf0000000` on 32-bit words: the top four bits are set, the other 28 are kept. */
  function Wire(s: word32): word32 { 0xf000_0000 + s as int % 0x1000_0000 }

  datatype Datagram = Datagram(sequence: word32, timestamp: word32, payload: seq<byte>)

  /** A datagram the client sent, with the exchange it belongs to and the clock in milliseconds. */
  datatype Transmission = Transmission(datagram: Datagram, exchange: nat, time: nat)

  /** The sequence number stamped on exchange number e since initialisation. */
  function SequenceOf(e: nat): word32 { Wire((240 + e) % 0x1_0000_0000) }

  datatype Event = TimedOut | Readable | SelectFailed

  /** The network and the server behind it. Any datagram ever sent may be answered at any time, any
      number of times or never; the answer echoes its sequence number and timestamp. `log` records
      what was sent, `exchange` counts the exchanges begun, and `noise` bounds how often a datagram
      becomes readable. The ghost fields record what the system calls came to: the calls that failed,
      the waits that were started and those that ran out, and every datagram received. */
  class Network {
    const serve: seq<byte> -> seq<byte>
    var log: seq<Transmission>
    var exchange: nat
    var now: nat
    var noise: nat
    ghost var failures: nat
    ghost var timeouts: nat
    ghost var waits: seq<real>
    ghost var inbox: seq<Datagram>

    constructor (serve: seq<byte> -> seq<byte>, noise: nat)
      ensures log == [] && exchange == 0 && this.serve == serve
      ensures failures == timeouts == 0 && waits == [] && inbox == []
    {
      this.serve, log, exchange, now, this.noise := serve, [], 0, 0, noise;
      failures, timeouts, waits, inbox := 0, 0, [], [];
    }

    method BeginExchange()
      modifies this`exchange
      ensures exchange == old(exchange) + 1
    {
      exchange := exchange + 1;
    }

    method Clock() returns (time: nat)
      modifies this`now
      ensures time == now >= old(now)
    {
      var elapsed: int := *;
      now := now + if elapsed < 0 then 0 else elapsed;
      time := now;
    }

    method Send(datagram: Datagram) returns (ok: bool)
      requires exchange > 0
      modifies this`log, this`failures
      ensures log == if ok then old(log) + [Transmission(datagram, exchange - 1, now)] else old(log)
      ensures failures == old(failures) + if ok then 0 else 1
    {
      ok := *;
      if ok {
        log := log + [Transmission(datagram, exchange - 1, now)];
      } else {
        failures := failures + 1;
      }
    }

    /** The time limit of the waiting that begins. */
    method SetTimer(limit: real)
      modifies this`waits
      ensures waits == old(waits) + [limit]
    {
      waits := waits + [limit];
    }

    method Select() returns (event: Event)
      modifies this`noise, this`failures, this`timeouts
      ensures event == Readable ==> noise < old(noise)
      ensures noise <= old(noise)
      ensures failures == old(failures) + if event == SelectFailed then 1 else 0
      ensures timeouts == old(timeouts) + if event == TimedOut then 1 else 0
    {
      var readable: bool := *;
      var failed: bool := *;
      if readable && noise > 0 {
        noise := noise - 1;
        return Readable;
      }
      if failed {
        failures := failures + 1;
        return SelectFailed;
      }
      timeouts := timeouts + 1;
      event := TimedOut;
    }

    /** An answer cut to the space the caller has, or an error. */
    method Receive(space: nat) returns (reply: Option<Datagram>, ghost answered: nat)
      modifies this`inbox, this`failures
      ensures reply.Some? ==> answered < |log| && reply.value == Answer(log[answered].datagram, space)
      ensures inbox == if reply.Some? then old(inbox) + [reply.value] else old(inbox)
      ensures failures == old(failures) + if reply.Some? then 0 else 1
    {
      var i: int := *;
      if 0 <= i < |log| {
        reply, answered := Some(Answer(log[i].datagram, space)), i;
        inbox := inbox + [reply.value];
      } else {
        reply, answered := None, 0;
        failures := failures + 1;
      }
    }

    function Answer(request: Datagram, space: nat): Datagram
    {
      var reply := serve(request.payload);
      Datagram(request.sequence, request.timestamp, if |reply| <= space then reply else reply[..space])
    }
  }

  // ---------- the engine ----------

  class RttEngine {
    const network: Network
    var rtt: real
    var srtt: real
    var rttvar: real
    var rto: real
    var sequence: word32
    var retries: nat
    var hasPeer: bool
    var applyBackoff: bool
    var initiated: bool

    /** Between exchanges: the sequence counter follows the number of exchanges, every datagram sent
        carries the sequence number of its exchange and the clock of its transmission, and the
        timeout is within its limits. */
    ghost predicate Valid()
      reads this, network
    {
      && sequence == (240 + network.exchange) % 0x1_0000_0000
      && LogMatches(network.log, network.exchange, network.now)
      && 2.0 <= rto <= 30.0 && rttvar >= 0.0
      && (initiated ==> retries == 0)
    }

    constructor (network: Network)
      requires network.log == [] && network.exchange == 0
      ensures Valid() && initiated && !hasPeer && this.network == network
      ensures srtt == 0.0 && rttvar == 0.5 && rto == 2.0 && sequence == 240 && !applyBackoff
    {
      this.network := network;
      rtt, srtt, rttvar, rto := 0.0, 0.0, 0.5, TMIN;
      sequence, retries := 240, 0;
      hasPeer, applyBackoff, initiated := false, false, true;
    }

    /** The estimate and the timeout after one sample, given in seconds. */
    ghost predicate IsUpdate(srtt0: real, rttvar0: real, sample: real)
      reads this`srtt, this`rttvar, this`rto
    {
      && srtt == 0.875 * srtt0 + 0.125 * sample
      && rttvar == rttvar0 + 0.25 * (if sample > srtt0 then sample - srtt0 else srtt0 - sample)
      && (srtt + 4.0 * rttvar <= 2.0 ==> rto == 2.0)
      && (2.0 <= srtt + 4.0 * rttvar <= 30.0 ==> rto == srtt + 4.0 * rttvar)
      && (30.0 <= srtt + 4.0 * rttvar ==> rto == 30.0)
    }

    method UpdateEstimate(elapsed: word32)
      modifies this`rtt, this`srtt, this`rttvar, this`rto, this`retries
      ensures Estimate(srtt, rttvar) == Sampled(Estimate(old(srtt), old(rttvar)), elapsed as real / 1000.0)
      ensures IsUpdate(old(srtt), old(rttvar), elapsed as real * 0.001) && retries == 0
    {
      rtt := elapsed as real / 1000.0;
      var delta := rtt - srtt;
      srtt := srtt + delta / 8.0;
      rttvar := rttvar + (if delta < 0.0 then -delta else delta) / 4.0;
      rto := AdjustedRto(srtt + 4.0 * rttvar);
      retries := 0;
    }

    /** During exchange e: the estimator's limits hold and this exchange only sent its own payload. */
    ghost predicate Exchanging(log0: seq<Transmission>, e: nat, payload: seq<byte>)
      reads this`rto, this`rttvar, network`log, network`now
    {
      && LogMatches(network.log, e + 1, network.now)
      && log0 <= network.log
      && (forall i :: |log0| <= i < |network.log| ==>
            network.log[i].exchange == e && network.log[i].datagram.payload == payload)
      && 2.0 <= rto <= 30.0 && rttvar >= 0.0
    }

    /** The wait after a transmission: datagrams with another sequence number are skipped, and none with this
        number is. */
    method AwaitReply(
      wire: word32, ghost payload: seq<byte>, space: nat, ghost log0: seq<Transmission>, ghost e: nat)
      returns (outcome: Outcome, ghost answered: nat)
      requires initiated && Exchanging(log0, e, payload)
      modifies this`rto, this`retries, this`initiated
      modifies network`noise, network`failures, network`timeouts, network`waits, network`inbox
      ensures Exchanging(log0, e, payload)
      ensures retries == old(retries) + if outcome == NoReply then 1 else 0
      ensures initiated <==> outcome != Fatal
      ensures outcome.Reply? ==>
        && answered < |network.log| && network.log[answered].datagram.sequence == wire
        && outcome.datagram == network.Answer(network.log[answered].datagram, space)
      ensures outcome == NoReply ==>
        rto == if !applyBackoff then old(rto) else if old(rto) < 15.0 then 2.0 * old(rto) else 30.0
      ensures outcome != NoReply ==> rto == old(rto)
      ensures network.waits == old(network.waits) + [old(rto)]
      ensures network.timeouts == old(network.timeouts) + if outcome == NoReply then 1 else 0
      ensures network.failures == old(network.failures) + if outcome == Fatal then 1 else 0
      ensures Skipped(old(network.inbox), network.inbox, wire, outcome.Heard())
    {
      hide LogMatches;
      answered := 0;
      network.SetTimer(rto);
      while true
        invariant rto == old(rto) && retries == old(retries) && initiated
        invariant network.waits == old(network.waits) + [rto]
        invariant network.timeouts == old(network.timeouts) && network.failures == old(network.failures)
        invariant Skipped(old(network.inbox), network.inbox, wire, None)
        decreases network.noise
      {
        var event := network.Select();
        match event {
          case TimedOut =>
            if applyBackoff {
              rto := AdjustedRto(2.0 * rto);
            }
            retries := retries + 1;
            return NoReply, answered;
          case SelectFailed =>
            initiated := false;
            return Fatal, answered;
          case Readable =>
            var received;
            received, answered := network.Receive(space);
            if received == None {
              initiated := false;
              return Fatal, answered;
            }
            if received.value.sequence == wire {
              return Reply(received.value), answered;
            }
        }
      }
    }

    /** Stamps the clock on the message and sends it. */
    method Transmit(wire: word32, payload: seq<byte>, ghost log0: seq<Transmission>, ghost e: nat)
      returns (ok: bool)
      requires Exchanging(log0, e, payload) && network.exchange == e + 1 && wire == SequenceOf(e)
      modifies network`log, network`now, network`failures
      ensures Exchanging(log0, e, payload)
      ensures |network.log| == |old(network.log)| + if ok then 1 else 0
      ensures network.failures == old(network.failures) + if ok then 0 else 1
    {
      hide Wire, SequenceOf;
      var time := network.Clock();
      ok := network.Send(Datagram(wire, time % 0x1_0000_0000, payload));
    }

    /** The send loop: one transmission after another until a reply, an error or too many retries. It gives up
        only after a failed call, or after 8 datagrams, 3 if no peer was ever heard; each datagram after the first
        follows a wait that ran out; and the waits keep to the timetable. */
    method SendUntilAnswered(
      wire: word32, payload: seq<byte>, space: nat, ghost log0: seq<Transmission>, ghost e: nat)
      returns (outcome: Outcome, ghost answered: nat)
      requires Exchanging(log0, e, payload) && network.exchange == e + 1 && wire == SequenceOf(e)
      requires initiated && retries == 0 && network.log == log0
      modifies this`rto, this`retries, this`initiated, this`applyBackoff
      modifies network`log, network`now, network`noise
      modifies network`failures, network`timeouts, network`waits, network`inbox
      ensures Exchanging(log0, e, payload)
      ensures outcome != NoReply && (initiated <==> outcome != Fatal)
      ensures |network.log| <= |log0| + if hasPeer then 8 else 3
      ensures network.failures >= old(network.failures)
      ensures outcome == Fatal && network.failures == old(network.failures) ==>
        |network.log| == |log0| + if hasPeer then 8 else 3
      ensures outcome.Reply? ==>
        && answered < |network.log| && network.log[answered].datagram.sequence == wire
        && outcome.datagram == network.Answer(network.log[answered].datagram, space)
        && network.failures == old(network.failures)
        && (applyBackoff <==> old(applyBackoff) || |network.log| >= |log0| + 4)
      ensures network.timeouts - old(network.timeouts) + 1 >= |network.log| - |log0|
      ensures Timetable(old(rto), old(applyBackoff), old(network.waits), network.waits)
      ensures |network.waits| - |old(network.waits)| == |network.log| - |log0|
      ensures Skipped(old(network.inbox), network.inbox, wire, outcome.Heard())
    {
      hide Wire, SequenceOf, LogMatches, Skipped, Timetable, NextWait, Exchanging;
      outcome, answered := NoReply, 0;
      ghost var waits0 := network.waits;
      NothingYet(network.inbox, wire, rto, applyBackoff, waits0);
      while outcome == NoReply
        invariant Exchanging(log0, e, payload)
        invariant initiated <==> outcome != Fatal
        invariant |network.log| == |log0| + retries + if outcome == NoReply then 0 else 1
        invariant retries + (if outcome == NoReply then 0 else 1) <= if hasPeer then MAXRT else MAXRTT
        invariant outcome == Fatal ==> network.failures > old(network.failures)
        invariant outcome != Fatal ==> network.failures == old(network.failures)
        invariant outcome.Reply? ==>
          && answered < |network.log| && network.log[answered].datagram.sequence == wire
          && outcome.datagram == network.Answer(network.log[answered].datagram, space)
        invariant network.timeouts == old(network.timeouts) + retries
        invariant applyBackoff <==> old(applyBackoff) || |network.log| >= |log0| + 4
        invariant Timetable(old(rto), old(applyBackoff), waits0, network.waits)
        invariant |network.waits| - |waits0| == |network.log| - |log0|
        invariant outcome == NoReply ==> rto == NextWait(old(rto), old(applyBackoff), network.waits[|waits0|..])
        invariant Skipped(old(network.inbox), network.inbox, wire, outcome.Heard())
        decreases outcome == NoReply, MAXRT - retries
      {
        if retries == MAXRTT {
          if !hasPeer {
            initiated := false;
            return Fatal, answered;
          }
          applyBackoff := true;
        }
        if retries == MAXRT {
          initiated := false;
          return Fatal, answered;
        }
        var ok := Transmit(wire, payload, log0, e);
        if !ok {
          initiated := false;
          return Fatal, answered;
        }
        ghost var inbox, waits := network.inbox, network.waits;
        outcome, answered := AwaitReply(wire, payload, space, log0, e);
        SkippedAppend(old(network.inbox), inbox, network.inbox, wire, outcome.Heard());
        TimetableAppend(old(rto), old(applyBackoff), waits0, waits, network.waits);
      }
    }

    /** Feeds the estimator with the time since the transmission that a reply answers. */
    method TakeSample(
      reply: Datagram, ghost answered: nat, ghost payload: seq<byte>, ghost log0: seq<Transmission>, ghost e: nat)
      requires Exchanging(log0, e, payload)
      requires answered < |network.log| && reply.timestamp == network.log[answered].datagram.timestamp
      modifies this`rtt, this`srtt, this`rttvar, this`rto, this`retries, network`now
      ensures Exchanging(log0, e, payload) && retries == 0
      ensures IsUpdate(old(srtt), old(rttvar),
                       ((network.now - network.log[answered].time) % 0x1_0000_0000) as real * 0.001)
    {
      hide SequenceOf, LogMatches;
      ghost var before := network.now;
      TimestampAnswered(network.log, e + 1, before, answered);
      var now := network.Clock();
      LogLater(network.log, e + 1, before, now);
      ElapsedSinceSent(now, network.log[answered].time);
      UpdateEstimate((now % 0x1_0000_0000 - reply.timestamp as int) % 0x1_0000_0000);
    }

    lemma EndOfExchange(log0: seq<Transmission>, e: nat, payload: seq<byte>)
      requires Exchanging(log0, e, payload)
      ensures LogMatches(network.log, e + 1, network.now) && 2.0 <= rto <= 30.0 && rttvar >= 0.0
    {
    }

    /** What one exchange did: without a reply a call failed, or 8 datagrams were sent in vain, 3 if no peer was
        ever heard; each datagram after the first follows a wait that ran out; the waits keep to the timetable. */
    twostate predicate Persisted(payload: seq<byte>, new reply: Option<seq<byte>>)
      reads this, network
    {
      var sent := |network.log| - |old(network.log)|;
      && Exchanging(old(network.log), old(network.exchange), payload)
      && sent <= (if old(hasPeer) then 8 else 3)
      && network.failures >= old(network.failures)
      && (reply == None && network.failures == old(network.failures) ==> sent == if old(hasPeer) then 8 else 3)
      && network.timeouts - old(network.timeouts) + 1 >= sent
      && Timetable(old(rto), old(applyBackoff), old(network.waits), network.waits)
      && |network.waits| - |old(network.waits)| == sent
    }

    /** The reply answers the datagram `answered`, which carries this exchange's number; nothing received before it
        carries that number; and the estimator is fed the time since that very transmission. */
    twostate predicate Answered(space: nat, new reply: Option<seq<byte>>, answered: nat)
      reads this, network
    {
      var number := SequenceOf(old(network.exchange));
      if reply == None then !initiated && Skipped(old(network.inbox), network.inbox, number, None)
      else
        && initiated && hasPeer && network.failures == old(network.failures)
        && (applyBackoff <==> old(applyBackoff) || |network.log| >= |old(network.log)| + 4)
        && answered < |network.log| && network.log[answered].datagram.sequence == number
        && Skipped(old(network.inbox), network.inbox, number,
                   Some(network.Answer(network.log[answered].datagram, space)))
        && reply == Some(network.Answer(network.log[answered].datagram, space).payload)
        && IsUpdate(old(srtt), old(rttvar),
                    ((network.now - network.log[answered].time) % 0x1_0000_0000) as real * 0.001)
    }

    /** The number stamped on the next message. */
    method TakeNumber(ghost payload: seq<byte>) returns (wire: word32)
      requires Valid()
      modifies this`sequence, network`exchange
      ensures wire == SequenceOf(old(network.exchange))
      ensures network.exchange == old(network.exchange) + 1
      ensures sequence == (240 + network.exchange) % 0x1_0000_0000
      ensures Exchanging(network.log, old(network.exchange), payload)
    {
      hide Wire, SequenceOf, LogMatches;
      LogGrows(network.log, network.exchange, network.now);
      NextSequence(network.exchange);
      network.BeginExchange();
      wire := Wire(sequence);
      sequence := (sequence as int + 1) % 0x1_0000_0000;
    }

    /** From the number stamped on the message to the sample taken from its reply. */
    method Exchange(payload: seq<byte>, space: nat)
      returns (reply: Option<seq<byte>>, ghost answered: nat)
      requires Valid() && initiated
      modifies this, network
      ensures Valid() && network.exchange == old(network.exchange) + 1
      ensures Persisted(payload, reply) && Answered(space, reply, answered)
    {
      hide SequenceOf, LogMatches, Timetable, IsUpdate, Skipped, Exchanging;
      reply, answered := None, 0;
      ghost var e, log0 := network.exchange, network.log;
      var wire := TakeNumber(payload);
      var outcome;
      outcome, answered := SendUntilAnswered(wire, payload, space, log0, e);
      if outcome == Fatal {
        EndOfExchange(log0, e, payload);
        return;
      }
      TakeSample(outcome.datagram, answered, payload, log0, e);
      EndOfExchange(log0, e, payload);
      reply := Some(outcome.datagram.payload);
      hasPeer := true;
      retries := 0;
    }

    /** One exchange, if the engine is up: an engine that failed once sends nothing more. */
    method SendRecv(payload: seq<byte>, space: nat)
      returns (reply: Option<seq<byte>>, ghost answered: nat)
      requires Valid()
      modifies this, network
      ensures Valid()
      ensures !old(initiated) ==>
        && reply == None && !initiated && network.log == old(network.log) && network.exchange == old(network.exchange)
        && network.failures == old(network.failures)
      ensures old(initiated) ==>
        && network.exchange == old(network.exchange) + 1
        && Persisted(payload, reply) && Answered(space, reply, answered)
    {
      hide Persisted, Answered, Valid;
      reply, answered := None, 0;
      if initiated {
        reply, answered := Exchange(payload, space);
      }
    }
  }

  datatype Outcome = Reply(datagram: Datagram) | NoReply | Fatal {
    function Heard(): Option<Datagram> { if Reply? then Some(datagram) else None }
  }

  /** What was received since `before` carries another number than `wire`, up to the reply, which is the last. */
  ghost predicate Skipped(before: seq<Datagram>, inbox: seq<Datagram>, wire: word32, reply: Option<Datagram>) {
    && before <= inbox
    && (reply.Some? ==> |before| < |inbox| && inbox[|inbox| - 1] == reply.value)
    && forall i :: |before| <= i < |inbox| - (if reply.Some? then 1 else 0) ==> inbox[i].sequence != wire
  }

  lemma SkippedAppend(
    before: seq<Datagram>, middle: seq<Datagram>, inbox: seq<Datagram>, wire: word32, reply: Option<Datagram>)
    requires Skipped(before, middle, wire, None) && Skipped(middle, inbox, wire, reply)
    ensures Skipped(before, inbox, wire, reply)
  {
    assert forall i :: |before| <= i < |middle| ==> inbox[i] == middle[i];
  }

  /** The limit of the wait after those of this exchange so far: twice the last one, up to 30 seconds, when
      backing off, which begins with the fourth wait and then goes on for good. */
  function NextWait(first: real, backingOff: bool, waits: seq<real>): real {
    if waits == [] then first
    else
      var last := waits[|waits| - 1];
      if !backingOff && |waits| < 4 then last else if last < 15.0 then 2.0 * last else 30.0
  }

  /** The limits of the waits of one exchange, which are those added to `before`. */
  ghost predicate Timetable(first: real, backingOff: bool, before: seq<real>, waits: seq<real>) {
    && before <= waits
    && (|before| < |waits| ==> waits[|before|] == first)
    && forall k :: |before| < k < |waits| ==>
         waits[k] == if !backingOff && k < |before| + 4 then waits[k - 1]
                     else if waits[k - 1] < 15.0 then 2.0 * waits[k - 1] else 30.0
  }

  lemma TimetableAppend(first: real, backingOff: bool, before: seq<real>, waits: seq<real>, longer: seq<real>)
    requires Timetable(first, backingOff, before, waits)
    requires longer == waits + [NextWait(first, backingOff, waits[|before|..])]
    ensures Timetable(first, backingOff, before, longer)
    ensures NextWait(first, backingOff, longer[|before|..]) ==
      var last := NextWait(first, backingOff, waits[|before|..]);
      if !backingOff && |longer| < |before| + 4 then last else if last < 15.0 then 2.0 * last else 30.0
  {
    assert longer[|before|..] == waits[|before|..] + [NextWait(first, backingOff, waits[|before|..])];
  }

  lemma NothingYet(inbox: seq<Datagram>, wire: word32, first: real, backingOff: bool, waits: seq<real>)
    ensures Skipped(inbox, inbox, wire, None) && Timetable(first, backingOff, waits, waits)
    ensures NextWait(first, backingOff, waits[|waits|..]) == first
  {
  }

  lemma NextSequence(e: nat)
    ensures Wire((240 + e) % 0x1_0000_0000) == SequenceOf(e)
    ensures ((240 + e) % 0x1_0000_0000 + 1) % 0x1_0000_0000 == (240 + (e + 1)) % 0x1_0000_0000
  {
  }

  lemma LogGrows(log: seq<Transmission>, exchanges: nat, now: nat)
    requires LogMatches(log, exchanges, now)
    ensures LogMatches(log, exchanges + 1, now)
  {
    hide SequenceOf;
  }

  lemma LogLater(log: seq<Transmission>, exchanges: nat, now: nat, later: nat)
    requires now <= later && LogMatches(log, exchanges, now)
    ensures LogMatches(log, exchanges, later)
  {
    hide SequenceOf;
  }

  lemma TimestampAnswered(log: seq<Transmission>, exchanges: nat, now: nat, i: nat)
    requires LogMatches(log, exchanges, now) && i < |log|
    ensures log[i].datagram.timestamp == log[i].time % 0x1_0000_0000
  {
  }

  lemma ElapsedSinceSent(now: nat, time: nat)
    ensures (now % 0x1_0000_0000 - time % 0x1_0000_0000) % 0x1_0000_0000 == (now - time) % 0x1_0000_0000
  {
  }

  /** Every transmission carries its exchange's sequence number and its time, and is in the past. */
  ghost predicate LogMatches(log: seq<Transmission>, exchanges: nat, now: nat) {
    forall i :: 0 <= i < |log| ==>
      && log[i].exchange < exchanges
      && log[i].datagram.sequence == SequenceOf(log[i].exchange)
      && log[i].time <= now
      && log[i].datagram.timestamp == log[i].time % 0x1_0000_0000
  }
}
