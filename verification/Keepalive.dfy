/** The keepalive: when the link is declared dead, and how the interval between pings moves. */
module Keepalive {
  import opened Bytes

  const INITIAL_KEEPALIVE := 5.0
  const MAXIMAL_CYCLES := 5

  datatype Verdict = Fine | Fatal | NotInitialised

  // ---------- the link, as a function of one event ----------

  datatype Link = Link(stillUp: bool, doit: bool, count: nat, gotRead: bool, gotWrite: bool, timeouts: nat)

  /** Traffic seen on the tunnel between calls, or a call: whether a ping reply (or an error) was read,
      whether the next event is due, and whether a ping could be sent. */
  datatype Event = SawRead | SawWrite | Poll(pingReply: bool, due: bool, pingSent: bool)

  function Flags(l: Link, pingReply: bool): Link {
    var l1 := if l.gotRead || pingReply then l.(timeouts := 0, count := l.count + 1, gotRead := false) else l;
    if l1.gotWrite then l1.(doit := false, gotWrite := false) else l1
  }

  /** Up means a recent write, more than two reads since the last event, and no timeout pending. */
  predicate Up(l: Link) { !l.doit && l.count > 2 && l.timeouts == 0 }

  function DueEvent(l: Link, pingSent: bool): Link {
    if Up(l) then l.(doit := true, count := 0, stillUp := false)
    else l.(doit := true, count := 0, stillUp := false, timeouts := l.timeouts + 1,
            gotWrite := l.gotWrite || pingSent)
  }

  function Step(l: Link, e: Event): (Link, Verdict) {
    match e
    case SawRead => (l.(gotRead := true), Fine)
    case SawWrite => (l.(gotWrite := true), Fine)
    case Poll(pingReply, due, pingSent) =>
      var l1 := Flags(l, pingReply);
      if !due then (l1, Fine) else
      var l2 := DueEvent(l1, pingSent);
      (l2, if l2.timeouts == MAXIMAL_CYCLES then Fatal else Fine)
  }

  const INITIAL := Link(false, true, 0, false, false, 0)

  // ---------- the interval, over reals ----------

  function Trim(value: real, lower: real, higher: real): real {
    if value <= lower then lower else if value >= higher then higher else value
  }

  function Scaled(interval: real, factor: real): real { interval * factor }

  /** The interval after an adjustment, without fast handover: small changes inside the upper zone,
      growth by the major factor outside it as long as at most one timeout is pending. */
  function Adjust(current: real, maximal: int, major: real, minor: real, coin: bool, timeouts: nat): real {
    var top := maximal as real;
    var zone := top * 0.75;
    var inZone :=
      if current < zone then current else Trim(Scaled(current, ZoneFactor(current, maximal, minor, coin)), zone, top);
    if inZone < zone
    then Trim(Scaled(inZone, if timeouts < 2 then 1.0 + major else 1.0), INITIAL_KEEPALIVE, top)
    else inZone
  }

  /** Away from the ends of the zone, and up or down by chance in between. */
  function ZoneFactor(current: real, maximal: int, minor: real, coin: bool): real {
    if current == maximal as real then 1.0 - minor
    else if current == maximal as real * 0.75 then 1.0 + minor
    else if coin then 1.0 - minor else 1.0 + minor
  }

  function MajorFuzz(draw: nat): (f: real)
    ensures f == (40 + draw % 40) as real / 100.0 && 0.4 <= f <= 0.8
  {
    Trim((draw % 40) as real / 100.0 + 0.40, 0.40, 0.80)
  }

  function MinorFuzz(draw: nat): (f: real)
    ensures f == (3 + draw % 4) as real / 100.0 && 0.03 <= f <= 0.07
  {
    Trim((draw % 4) as real / 100.0 + 0.03, 0.03, 0.07)
  }

  // ---------- the time of the next event ----------

  /** The test of the clock, which compares seconds with microseconds when the seconds are equal. */
  predicate Due(nextSec: int, nextUsec: int, nowSec: int) {
    if nowSec == nextSec then nowSec >= nextUsec else nowSec > nextSec
  }

  /** The conversion of a float to an int drops the fraction. */
  function Truncated(x: real): (n: int)
    ensures x >= 0.0 ==> n as real <= x < n as real + 1.0
    ensures x <= 0.0 ==> n as real - 1.0 < x <= n as real
  { if x >= 0.0 then x.Floor else -(-x).Floor
  }

  lemma FractionVanishes(x: real)
    ensures Truncated(x - Truncated(x) as real) == 0
  {
  }

  // ---------- the object ----------

  class NetKeepAlive {
    var init: bool
    var stillUp: bool
    var doit: bool
    var count: nat
    var gotRead: bool
    var gotWrite: bool
    var consecutiveTimeout: nat
    var maximalKeepalive: int
    var currentKeepalive: real
    var minorFuzz: real
    var majorFuzz: real
    var nextSec: int
    var nextUsec: int

    ghost function State(): Link
      reads this
    {
      Link(stillUp, doit, count, gotRead, gotWrite, consecutiveTimeout)
    }

    /** What holds between calls. */
    ghost predicate Valid()
      reads this
    {
      init && !stillUp && 0.4 <= majorFuzz <= 0.8 && 0.03 <= minorFuzz <= 0.075
    }

    constructor (maximalKeepalive: int, nowSec: int, nowUsec: int)
      ensures Valid() && State() == INITIAL && nextSec == nowSec + 5 && nextUsec == nowUsec
      ensures this.maximalKeepalive == maximalKeepalive && currentKeepalive == 5.0
      ensures majorFuzz == 0.60 && minorFuzz == 0.075
    {
      this.maximalKeepalive, currentKeepalive := maximalKeepalive, INITIAL_KEEPALIVE;
      majorFuzz, minorFuzz := 0.60, 0.075;
      nextSec, nextUsec := nowSec + Truncated(INITIAL_KEEPALIVE), nowUsec;
      consecutiveTimeout, stillUp, doit, count := 0, false, true, 0;
      gotRead, gotWrite, init := false, false, true;
    }

    method GotRead()
      requires Valid()
      modifies this`gotRead
      ensures Valid() && State() == Step(old(State()), SawRead).0
    {
      if init {
        gotRead := true;
      }
    }

    method GotWrite()
      requires Valid()
      modifies this`gotWrite
      ensures Valid() && State() == Step(old(State()), SawWrite).0
    {
      if init {
        gotWrite := true;
      }
    }

    /** The cast in the code applies to the fraction before it is multiplied, so the microseconds of the
        next event are always zero. */
    method AdjustNextEvent(coin: bool, nowSec: int)
      modifies this`currentKeepalive, this`nextSec, this`nextUsec
      ensures nextSec == nowSec + Truncated(currentKeepalive) && nextUsec == 0
      ensures currentKeepalive
           == Adjust(old(currentKeepalive), maximalKeepalive, majorFuzz, minorFuzz, coin, consecutiveTimeout)
    {
      hide Scaled;
      var minorMinimum, majorMinimum := INITIAL_KEEPALIVE, maximalKeepalive as real * 0.75;
      if currentKeepalive >= majorMinimum {
        var fuzzFactor;
        if currentKeepalive == maximalKeepalive as real {
          fuzzFactor := 1.0 - minorFuzz;
        } else if currentKeepalive == majorMinimum {
          fuzzFactor := 1.0 + minorFuzz;
        } else {
          fuzzFactor := if coin then 1.0 - minorFuzz else 1.0 + minorFuzz;
        }
        assert fuzzFactor == ZoneFactor(currentKeepalive, maximalKeepalive, minorFuzz, coin);
        currentKeepalive := Trim(Scaled(currentKeepalive, fuzzFactor), majorMinimum, maximalKeepalive as real);
      }
      if currentKeepalive < majorMinimum {
        var fuzzFactor := 1.0;
        if consecutiveTimeout < 2 {
          fuzzFactor := 1.0 + majorFuzz;
        }
        currentKeepalive := Trim(Scaled(currentKeepalive, fuzzFactor), minorMinimum, maximalKeepalive as real);
      }
      nextSec := nowSec + Truncated(currentKeepalive);
      nextUsec := Truncated(currentKeepalive - Truncated(currentKeepalive) as real) * 1_000_000;
      FractionVanishes(currentKeepalive);
    }

    /** The flags raised since the last call are taken in and lowered. */
    method NoteTraffic(pingReply: bool)
      modifies this`gotRead, this`gotWrite, this`consecutiveTimeout, this`count, this`doit
      ensures State() == Flags(old(State()), pingReply)
    {
      if pingReply {
        gotRead := true;
      }
      if gotRead {
        consecutiveTimeout := 0;
        count := count + 1;
        gotRead := false;
      }
      if gotWrite {
        doit := false;
        gotWrite := false;
      }
    }

    /** The link is judged, and pinged when it is not known to be up. */
    method JudgeLink(pingSent: bool)
      requires !stillUp
      modifies this`stillUp, this`gotWrite, this`consecutiveTimeout, this`count, this`doit
      ensures stillUp == Up(old(State()))
      ensures State().(stillUp := false) == DueEvent(old(State()), pingSent)
    {
      if !doit && count > 0 {
        stillUp := true;
      }
      if consecutiveTimeout != 0 {
        stillUp := false;
      }
      if count == 2 || count == 1 {
        stillUp := false;
      }
      if doit {
        stillUp := false;
      }
      if !stillUp {
        if pingSent {
          gotWrite := true;
        }
        consecutiveTimeout := consecutiveTimeout + 1;
      }
      doit := true;
      count := 0;
    }

    /** `nowSec` and `laterSec` are the clock at its two readings. */
    method Do(pingReply: bool, pingSent: bool, nowSec: int, laterSec: int, coin: bool, majorDraw: nat, minorDraw: nat)
      returns (verdict: Verdict)
      requires !init || Valid()
      modifies this
      ensures init == old(init) && maximalKeepalive == old(maximalKeepalive)
      ensures !init ==> verdict == NotInitialised && State() == old(State())
      ensures init ==>
        && Valid()
        && (State(), verdict) == Step(old(State()), Poll(pingReply, Due(old(nextSec), old(nextUsec), nowSec), pingSent))
      ensures init && Due(old(nextSec), old(nextUsec), nowSec) ==>
        && nextSec == laterSec + Truncated(currentKeepalive) && nextUsec == 0
        && currentKeepalive
           == Adjust(old(currentKeepalive), maximalKeepalive, old(majorFuzz), old(minorFuzz), coin, consecutiveTimeout)
        && majorFuzz == (40 + majorDraw % 40) as real / 100.0 && minorFuzz == (3 + minorDraw % 4) as real / 100.0
      ensures !init || !Due(old(nextSec), old(nextUsec), nowSec) ==>
        && currentKeepalive == old(currentKeepalive) && nextSec == old(nextSec) && nextUsec == old(nextUsec)
        && majorFuzz == old(majorFuzz) && minorFuzz == old(minorFuzz)
      ensures old(nextUsec) == 0 ==> nextUsec == 0
    {
      hide Adjust, MajorFuzz, MinorFuzz, Flags, DueEvent, Truncated;
      if !init {
        return NotInitialised;
      }
      FlagsKeepDown(State(), pingReply);
      NoteTraffic(pingReply);
      verdict := Fine;
      if Due(nextSec, nextUsec, nowSec) {
        FatalMeansDown(State(), pingSent);
        JudgeLink(pingSent);
        AdjustNextEvent(coin, laterSec);
        majorFuzz := MajorFuzz(majorDraw);
        minorFuzz := MinorFuzz(minorDraw);
        if consecutiveTimeout == MAXIMAL_CYCLES {
          return Fatal;
        }
        stillUp := false;
      }
    }
  }

  lemma FlagsKeepDown(l: Link, pingReply: bool)
    ensures Flags(l, pingReply).stillUp == l.stillUp
  {
  }

  lemma FatalMeansDown(l: Link, pingSent: bool)
    ensures DueEvent(l, pingSent).timeouts == MAXIMAL_CYCLES ==> !Up(l)
  {
  }
}
