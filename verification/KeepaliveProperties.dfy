/** When a keepalive run ends, and where its interval settles. */
module KeepaliveProperties {
  import opened Bytes
  import opened Keepalive

  // ---------- the clock ----------

  /** The event's time, in seconds and microseconds, has come. */
  predicate Reached(nextSec: int, nextUsec: int, nowSec: int, nowUsec: int) {
    nowSec > nextSec || (nowSec == nextSec && nowUsec >= nextUsec)
  }

  /** The code never looks at the clock's microseconds: in the event's own second it compares the clock's
      seconds with the event's microseconds. By any clock past its first 1,000,000 seconds an event is never
      late, and early, by less than a second, exactly in its own second before its microseconds; an event
      without microseconds, as all but the first are, is in time. */
  lemma DueIsInTimeIff(nextSec: int, nextUsec: int, nowSec: int, nowUsec: int)
    requires 0 <= nextUsec < 1_000_000 && 0 <= nowUsec < 1_000_000
    ensures var due, reached := Due(nextSec, nextUsec, nowSec), Reached(nextSec, nextUsec, nowSec, nowUsec);
      && ((due <==> reached) <==> nowSec != nextSec || (nowSec >= nextUsec <==> nowUsec >= nextUsec))
      && (nowSec >= 1_000_000 ==> (reached ==> due))
      && (nowSec >= 1_000_000 ==> ((due <==> reached) <==> nowSec != nextSec || nowUsec >= nextUsec))
      && (due ==> (nextSec - nowSec) * 1_000_000 + (nextUsec - nowUsec) < 1_000_000)
      && (nowSec >= 0 && nextUsec == 0 ==> (due <==> reached))
  {
  }

  // ---------- the verdict over a run ----------

  /** What an observer notes of the events of a run: whether a read was seen since the last call; since the
      last due event, the number of calls that saw a read and whether there was a write or a ping; since the
      last call that saw a read, the number of due events and whether the first of them came with a write
      and at least three such calls. */
  datatype History = History(unread: bool, readCalls: nat, wrote: bool, dues: nat, firstUp: bool, everRead: bool)

  const START := History(false, 0, false, 0, false, false)

  predicate SeesRead(h: History, e: Event) { e.Poll? && (h.unread || e.pingReply) }

  function ReadsAt(h: History, e: Event): nat { h.readCalls + if SeesRead(h, e) then 1 else 0 }

  /** A due event that finds the link up. */
  predicate FindsUp(h: History, e: Event) { e.Poll? && e.due && h.wrote && ReadsAt(h, e) >= 3 }

  function Observe(h: History, e: Event): History {
    match e
    case SawRead => h.(unread := true, everRead := true)
    case SawWrite => h.(wrote := true)
    case Poll(pingReply, due, pingSent) =>
      var dues := if SeesRead(h, e) then 0 else h.dues;
      History(
        unread := false,
        readCalls := if due then 0 else ReadsAt(h, e),
        wrote := if due then !FindsUp(h, e) && pingSent else h.wrote,
        dues := if due then dues + 1 else dues,
        firstUp := if due && dues == 0 then FindsUp(h, e) else h.firstUp && !SeesRead(h, e),
        everRead := h.everRead || pingReply)
  }

  function ObserveAll(h: History, events: seq<Event>): History
    decreases |events|
  {
    if events == [] then h else ObserveAll(Observe(h, events[0]), events[1..])
  }

  function StepAll(l: Link, events: seq<Event>): Link
    decreases |events|
  {
    if events == [] then l else StepAll(Step(l, events[0]).0, events[1..])
  }

  /** No call so far declared the link dead. */
  predicate Alive(l: Link, events: seq<Event>)
    decreases |events|
  {
    events == [] || (Step(l, events[0]).1 != Fatal && Alive(Step(l, events[0]).0, events[1..]))
  }

  /** How many due events it takes, counted from the last call that saw a read. */
  function Deadline(firstUp: bool): nat { if firstUp then 6 else 5 }

  /** The link's flags and counters say what the observer noted. */
  ghost predicate Agree(l: Link, h: History) {
    && !l.stillUp
    && l.gotRead == h.unread
    && l.count == h.readCalls
    && (l.gotWrite || !l.doit <==> h.wrote)
    && (h.readCalls > 0 ==> h.dues == 0)
    && (h.dues == 0 ==> !h.firstUp)
    && l.timeouts == h.dues - (if h.firstUp then 1 else 0)
    && (!h.everRead ==> !h.unread && h.readCalls == 0 && !h.firstUp)
  }

  /** The observer's note of the next event keeps the agreement and the verdict. */
  ghost predicate StaysInAgreement(l: Link, h: History, e: Event) {
    && Agree(Step(l, e).0, Observe(h, e))
    && (h.dues < Deadline(h.firstUp) ==>
          (Step(l, e).1 == Fatal <==> e.Poll? && e.due && Observe(h, e).dues == Deadline(Observe(h, e).firstUp)))
    && (h.dues < Deadline(h.firstUp) && Step(l, e).1 != Fatal ==>
          Observe(h, e).dues < Deadline(Observe(h, e).firstUp))
  }

  lemma TrafficKeepsAgreement(l: Link, h: History, e: Event)
    requires Agree(l, h) && !e.Poll?
    ensures StaysInAgreement(l, h, e)
  {
    hide Flags, DueEvent;
  }

  /** A call that is not due only takes in the flags. */
  lemma IdleCallKeepsAgreement(l: Link, h: History, e: Event)
    requires Agree(l, h) && e.Poll? && !e.due
    ensures StaysInAgreement(l, h, e)
  {
    hide DueEvent;
  }

  /** A due event takes in the flags and judges the link. */
  lemma DueCallKeepsAgreement(l: Link, h: History, e: Event)
    requires Agree(l, h) && e.Poll? && e.due
    ensures StaysInAgreement(l, h, e)
  {
    hide Flags, DueEvent;
    FlagsSay(l, h, e);
    DueSays(Flags(l, e.pingReply), e.pingSent);
  }

  /** What the flags are after a call took them in. */
  lemma FlagsSay(l: Link, h: History, e: Event)
    requires Agree(l, h) && e.Poll?
    ensures var m := Flags(l, e.pingReply);
      && !m.stillUp && !m.gotRead && !m.gotWrite && m.count == ReadsAt(h, e) && (!m.doit <==> h.wrote)
      && m.timeouts == (if SeesRead(h, e) then 0 else l.timeouts)
  {
  }

  lemma DueSays(m: Link, pingSent: bool)
    requires !m.gotWrite
    ensures var n := DueEvent(m, pingSent);
      && n.doit && n.count == 0 && !n.stillUp && n.gotRead == m.gotRead
      && n.timeouts == m.timeouts + (if Up(m) then 0 else 1)
      && (n.gotWrite <==> !Up(m) && pingSent)
  {
  }

  lemma StepKeepsAgreement(l: Link, h: History, e: Event)
    requires Agree(l, h)
    ensures StaysInAgreement(l, h, e)
  {
    hide StaysInAgreement, Agree;
    if !e.Poll? {
      TrafficKeepsAgreement(l, h, e);
    } else if e.due {
      DueCallKeepsAgreement(l, h, e);
    } else {
      IdleCallKeepsAgreement(l, h, e);
    }
  }

  lemma {:induction false} RunsAgree(l: Link, h: History, events: seq<Event>)
    requires Agree(l, h)
    ensures Agree(StepAll(l, events), ObserveAll(h, events))
    ensures h.dues < Deadline(h.firstUp) && Alive(l, events) ==>
      ObserveAll(h, events).dues < Deadline(ObserveAll(h, events).firstUp)
    decreases |events|
  {
    hide Agree, Observe, Step, Deadline;
    if events != [] {
      StepKeepsAgreement(l, h, events[0]);
      RunsAgree(Step(l, events[0]).0, Observe(h, events[0]), events[1..]);
    }
  }

  /** In every run that is still alive the timeout counter is below five, and the next event is fatal
      exactly when it is a due event and the fifth since the last call that saw a read, or the sixth if the
      first one found the link up; without any read it is the fifth. */
  lemma FatalExactlyAtDeadline(events: seq<Event>, e: Event)
    requires Alive(INITIAL, events)
    ensures var l, h' := StepAll(INITIAL, events), Observe(ObserveAll(START, events), e);
      && l.timeouts < 5
      && (Step(l, e).1 == Fatal <==> e.Poll? && e.due && h'.dues == Deadline(h'.firstUp))
      && (!h'.everRead ==> !h'.firstUp)
  {
    RunsAgree(INITIAL, START, events);
    StepKeepsAgreement(StepAll(INITIAL, events), ObserveAll(START, events), e);
  }

  /** In every run a due event finds the link up, and sends no ping, exactly when since the previous due
      event there was a write or a ping and at least three calls saw a read. */
  lemma FirstUpMeansTraffic(events: seq<Event>, e: Event)
    requires e.Poll? && e.due
    ensures Up(Flags(StepAll(INITIAL, events), e.pingReply)) <==> FindsUp(ObserveAll(START, events), e)
  {
    RunsAgree(INITIAL, START, events);
  }

  // ---------- the interval ----------

  ghost predicate InZone(current: real, maximal: int) {
    maximal as real * 0.75 <= current <= maximal as real
  }

  /** In the upper zone the interval moves away from the ends, and up or down by chance in between, by the minor
      fuzz, and not beyond the zone. */
  lemma StepInZone(current: real, maximal: int, major: real, minor: real, coin: bool, timeouts: nat)
    requires maximal >= 0 && current >= maximal as real * 0.75
    ensures var top := maximal as real;
      var moved :=
        if current == top || (current != top * 0.75 && coin) then current * (1.0 - minor) else current * (1.0 + minor);
      Adjust(current, maximal, major, minor, coin, timeouts)
      == if moved <= top * 0.75 then top * 0.75 else if moved >= top then top else moved
  {
  }

  /** Below the zone it grows by the major fuzz unless two timeouts are pending, and is kept between five seconds
      and the maximum. */
  lemma StepBelowZone(current: real, maximal: int, major: real, minor: real, coin: bool, timeouts: nat)
    requires current < maximal as real * 0.75
    ensures var moved := if timeouts < 2 then current * (1.0 + major) else current;
      Adjust(current, maximal, major, minor, coin, timeouts)
      == if moved <= 5.0 then 5.0 else if moved >= maximal as real then maximal as real else moved
  {
  }

  /** Once in the upper zone the interval stays there, whatever the fuzz. */
  lemma ZoneIsKept(current: real, maximal: int, major: real, minor: real, coin: bool, timeouts: nat)
    requires maximal >= 0 && InZone(current, maximal)
    ensures InZone(Adjust(current, maximal, major, minor, coin, timeouts), maximal)
  {
  }

  /** With a maximum of at most six seconds the first adjustment leads into the zone. */
  lemma SmallMaximum(maximal: int, major: real, minor: real, coin: bool, timeouts: nat)
    requires 0 <= maximal <= 6
    ensures InZone(Adjust(5.0, maximal, major, minor, coin, timeouts), maximal)
  {
  }

  lemma ProductIsNotNegative(x: real, y: real)
    requires x >= 0.0 && y >= 0.0
    ensures x * y >= 0.0
  {
  }

  lemma Distributes(x: real, y: real, z: real)
    ensures x * (y + z) == x * y + x * z
  {
  }

  lemma ScaledGrows(current: real, major: real)
    requires current >= 0.0 && major >= 0.4
    ensures Scaled(current, 1.0 + major) >= current * 1.4
  {
    ProductIsNotNegative(current, major - 0.4);
    Distributes(current, 1.4, major - 0.4);
    assert 1.4 + (major - 0.4) == 1.0 + major;
  }

  /** Below the zone the interval never decreases; it grows by at least 1.4 unless timeouts hold it. */
  lemma GrowsTowardsZone(current: real, maximal: int, major: real, minor: real, coin: bool, timeouts: nat)
    requires maximal >= 7 && major >= 0.4
    requires 5.0 <= current < maximal as real * 0.75
    ensures var next := Adjust(current, maximal, major, minor, coin, timeouts);
      && current <= next <= maximal as real
      && (timeouts < 2 ==> next >= current * 1.4 || next == maximal as real)
      && (timeouts >= 2 ==> next == current)
  {
    if timeouts < 2 {
      ScaledGrows(current, major);
      hide Scaled;
    }
  }

  datatype Draw = Draw(major: real, minor: real, coin: bool, timeouts: nat)

  function AdjustAll(current: real, maximal: int, draws: seq<Draw>): real
    decreases |draws|
  {
    if draws == [] then current else
    var d := draws[0];
    AdjustAll(Adjust(current, maximal, d.major, d.minor, d.coin, d.timeouts), maximal, draws[1..])
  }

  /** How many of the adjustments came with fewer than two timeouts pending. */
  function Calm(draws: seq<Draw>): nat {
    if draws == [] then 0 else (if draws[0].timeouts < 2 then 1 else 0) + Calm(draws[1..])
  }

  function Grown(x: real, k: nat): real
    decreases k
  {
    if k == 0 then x else Grown(x * 1.4, k - 1)
  }

  lemma {:induction false} GrownMonotone(x: real, y: real, k: nat)
    requires x <= y
    ensures Grown(x, k) <= Grown(y, k)
    decreases k
  {
    if k > 0 {
      GrownMonotone(x * 1.4, y * 1.4, k - 1);
    }
  }

  lemma {:induction false} StaysInZone(current: real, maximal: int, draws: seq<Draw>)
    requires maximal >= 0 && InZone(current, maximal)
    ensures InZone(AdjustAll(current, maximal, draws), maximal)
    decreases |draws|
  {
    if draws != [] {
      var d := draws[0];
      ZoneIsKept(current, maximal, d.major, d.minor, d.coin, d.timeouts);
      StaysInZone(Adjust(current, maximal, d.major, d.minor, d.coin, d.timeouts), maximal, draws[1..]);
    }
  }

  /** After any adjustments, k of them without two pending timeouts, the interval is in the zone or has
      grown by 1.4 to the power k, and it is never below where it was unless the zone was reached. */
  lemma {:induction false} IntervalConverges(current: real, maximal: int, draws: seq<Draw>)
    requires maximal >= 7 && 5.0 <= current <= maximal as real
    requires forall i :: 0 <= i < |draws| ==> draws[i].major >= 0.4
    ensures var last := AdjustAll(current, maximal, draws);
      && 5.0 <= last <= maximal as real
      && (last < maximal as real * 0.75 ==> last >= Grown(current, Calm(draws)) && last >= current)
    decreases |draws|
  {
    hide Adjust;
    if current >= maximal as real * 0.75 {
      StaysInZone(current, maximal, draws);
    } else if draws != [] {
      var d := draws[0];
      var next := Adjust(current, maximal, d.major, d.minor, d.coin, d.timeouts);
      GrowsTowardsZone(current, maximal, d.major, d.minor, d.coin, d.timeouts);
      IntervalConverges(next, maximal, draws[1..]);
      if next < maximal as real * 0.75 {
        GrownMonotone(if d.timeouts < 2 then current * 1.4 else current, next, Calm(draws[1..]));
      } else {
        StaysInZone(next, maximal, draws[1..]);
      }
    }
  }
}
