/** The communications manager with its poster, sender, receiver and manager threads, as a state
    machine whose steps are the atomic pieces of each thread's loop. */
module CommunicationsMgr {
  import opened Bytes

  const MAX_QUEUE_ITEMS := 512
  const INITERRORS_THRESHOLD := 3

  type Message = seq<byte>

  datatype Status = Disconnected | PendingConnection | Connected | FatalError

  /** Where the sender thread stands. A thread that broke off after taking a token still holds it. */
  datatype Sender = NoSender | Waiting | GotToken | Writing(front: Message) | SenderExited(held: nat)

  datatype Receiver = NoReceiver | Receiving | ReceiverExited

  /** Where the manager thread stands: at the top of its loop, in _CleanupInstance (joining the
      threads, then clearing), before and in Initialize (entered, waiting for the peer, launching the
      threads), or about to report the connection. */
  datatype Manager =
    | Top | JoinSender | JoinReceiver | Clear | Begin
    | Initializing | Connecting | LaunchSender | LaunchReceiver | Announce

  /** `posting` counts posts of this connection epoch that have pushed but not yet released the
      semaphore, `strayed` those that pushed before the last reset, and `leaked` the releases the
      latter made since. `accepted` and `sent` are this epoch's messages, `inits` the outcomes of all
      initialisations, and `crashed` says that the sender's assertion on the queue failed. */
  datatype State = State(
    status: Status, queue: seq<Message>, semaphore: nat, posting: nat, strayed: nat, leaked: nat,
    sender: Sender, receiver: Receiver, manager: Manager, servent: bool, errors: nat,
    accepted: seq<Message>, sent: seq<Message>, inits: seq<bool>, crashed: bool)

  const INITIAL := State(
    Disconnected, [], 0, 0, 0, 0, NoSender, NoReceiver, Top, false, 0, [], [], [], false)

  datatype Action =
    | Post(message: Message) | Release | StrayRelease
    | Take | CanReadFails | PeerBusy | Front | WriteDone | WriteFails | SenderStops
    | ReceiveFails | ReceiverStops
    | Manage(initOk: bool)

  /** One atomic step; a step that is not possible changes nothing. */
  function Apply(s: State, a: Action): State {
    if s.crashed then s else
    match a
    case Post(m) =>
      if s.status == Connected && |s.queue| < MAX_QUEUE_ITEMS
      then s.(queue := s.queue + [m], posting := s.posting + 1, accepted := s.accepted + [m])
      else s
    case Release =>
      if s.posting > 0 then s.(posting := s.posting - 1, semaphore := s.semaphore + 1) else s
    case StrayRelease =>
      if s.strayed > 0
      then s.(strayed := s.strayed - 1, leaked := s.leaked + 1, semaphore := s.semaphore + 1)
      else s
    case Take =>
      if s.sender == Waiting && s.semaphore > 0
      then s.(semaphore := s.semaphore - 1, sender := GotToken, crashed := s.queue == [])
      else s
    case CanReadFails =>
      if s.sender == GotToken then s.(status := Disconnected, sender := SenderExited(1)) else s
    case PeerBusy =>
      if s.sender == GotToken then s.(semaphore := s.semaphore + 1, sender := Waiting) else s
    case Front =>
      if s.sender == GotToken && s.queue != [] then s.(sender := Writing(s.queue[0])) else s
    case WriteDone =>
      if s.sender.Writing? && s.queue != []
      then s.(queue := s.queue[1..], sent := s.sent + [s.sender.front], sender := Waiting)
      else s
    case WriteFails =>
      if s.sender.Writing? then s.(status := Disconnected, sender := SenderExited(1)) else s
    case SenderStops =>
      if s.sender == Waiting && s.manager == JoinSender then s.(sender := SenderExited(0)) else s
    case ReceiveFails =>
      if s.receiver == Receiving then s.(status := Disconnected, receiver := ReceiverExited) else s
    case ReceiverStops =>
      if s.receiver == Receiving && s.manager == JoinReceiver then s.(receiver := ReceiverExited) else s
    case Manage(initOk) => ManagerStep(s, initOk)
  }

  function ManagerStep(s: State, initOk: bool): State {
    match s.manager
    case Top => if s.status == Disconnected then s.(manager := JoinSender) else s
    case JoinSender =>
      if s.sender == NoSender || s.sender.SenderExited? then s.(sender := NoSender, manager := JoinReceiver) else s
    case JoinReceiver =>
      if s.receiver != Receiving then s.(receiver := NoReceiver, manager := Clear) else s
    case Clear =>
      s.(servent := false, queue := [], semaphore := 0, strayed := s.strayed + s.posting, posting := 0,
         leaked := 0, accepted := [], sent := [], manager := Begin)
    case Begin => s.(status := PendingConnection, manager := Initializing)
    case Initializing => s.(servent := true, manager := Connecting)
    case Connecting =>
      if initOk then s.(manager := LaunchSender)
      else s.(errors := s.errors + 1, inits := s.inits + [false], manager := Top,
              status := if s.errors + 1 > INITERRORS_THRESHOLD then FatalError else Disconnected)
    case LaunchSender => s.(sender := Waiting, manager := LaunchReceiver)
    case LaunchReceiver => s.(receiver := Receiving, manager := Announce)
    case Announce => s.(errors := 0, inits := s.inits + [true], status := Connected, manager := Top)
  }

  function Run(s: State, schedule: seq<Action>): State
    decreases |schedule|
  {
    if schedule == [] then s else Run(Apply(s, schedule[0]), schedule[1..])
  }

  // ---------- what every reachable state satisfies ----------

  function Held(sender: Sender): nat {
    match sender
    case GotToken => 1
    case Writing(_) => 1
    case SenderExited(n) => n
    case _ => 0
  }

  function FailuresInARow(inits: seq<bool>): nat {
    if inits == [] || inits[|inits| - 1] then 0 else 1 + FailuresInARow(inits[..|inits| - 1])
  }

  predicate Running(sender: Sender) { sender == Waiting || sender == GotToken || sender.Writing? }

  /** The sender thread has been joined but its queue and semaphore are still there. */
  predicate CleaningUp(manager: Manager) { manager == JoinReceiver || manager == Clear }

  /** Messages and tokens. */
  ghost predicate QueueInvariant(s: State) {
    && |s.queue| <= MAX_QUEUE_ITEMS
    && s.accepted == s.sent + s.queue
    && (!s.crashed && !CleaningUp(s.manager) ==> s.semaphore + Held(s.sender) + s.posting == |s.queue| + s.leaked)
    && (s.sender == GotToken && !s.crashed ==> s.queue != [])
    && (s.sender.Writing? ==> s.queue != [] && s.sender.front == s.queue[0])
  }

  /** Which threads exist and which status is set at each place of the manager. */
  ghost predicate ManagerInvariant(s: State) {
    && (s.manager in {JoinReceiver, Clear, Begin, Initializing, Connecting, LaunchSender} ==> s.sender == NoSender)
    && (s.manager in {Clear, Begin, Initializing, Connecting, LaunchSender, LaunchReceiver} ==> s.receiver == NoReceiver)
    && (s.manager in {JoinSender, JoinReceiver, Clear, Begin} ==> s.status == Disconnected)
    && (s.manager in {Initializing, Connecting, LaunchSender} ==> s.status == PendingConnection)
    && (s.manager in {LaunchReceiver, Announce} ==> s.status in {PendingConnection, Disconnected})
    && (s.manager == Top ==> s.status != PendingConnection)
    && (s.manager in {Begin, Initializing} ==> !s.servent)
    && (s.status == FatalError ==> s.manager == Top && s.sender == NoSender && s.receiver == NoReceiver)
    && s.errors == FailuresInARow(s.inits)
    && s.errors <= INITERRORS_THRESHOLD + 1
    && (s.errors == INITERRORS_THRESHOLD + 1 <==> s.status == FatalError)
  }

  ghost predicate Invariant(s: State) {
    QueueInvariant(s) && ManagerInvariant(s)
  }

  lemma PosterKeepsQueueInvariant(s: State, a: Action)
    requires Invariant(s) && (a.Post? || a.Release? || a.StrayRelease?)
    ensures QueueInvariant(Apply(s, a))
  {
    hide ManagerInvariant, ManagerStep;
    if a.Post? {
      assert s.queue != [] ==> (s.queue + [a.message])[0] == s.queue[0];
    }
  }

  lemma SenderKeepsQueueInvariant(s: State, a: Action)
    requires Invariant(s)
    requires a.Take? || a.CanReadFails? || a.PeerBusy? || a.Front? || a.WriteDone? || a.WriteFails? || a.SenderStops?
    ensures QueueInvariant(Apply(s, a))
  {
    hide ManagerStep;
    assert s.sender.Writing? ==> s.queue == [s.queue[0]] + s.queue[1..];
  }

  lemma ManagerKeepsQueueInvariant(s: State, initOk: bool)
    requires Invariant(s) && !s.crashed
    ensures QueueInvariant(ManagerStep(s, initOk))
  {
    hide FailuresInARow;
  }

  lemma ApplyKeepsQueueInvariant(s: State, a: Action)
    requires Invariant(s)
    ensures QueueInvariant(Apply(s, a))
  {
    hide QueueInvariant, ManagerInvariant, ManagerStep;
    if s.crashed {
      return;
    }
    match a
    case Post(_) => PosterKeepsQueueInvariant(s, a);
    case Release => PosterKeepsQueueInvariant(s, a);
    case StrayRelease => PosterKeepsQueueInvariant(s, a);
    case ReceiveFails => ReceiverKeepsQueueInvariant(s, a);
    case ReceiverStops => ReceiverKeepsQueueInvariant(s, a);
    case Manage(initOk) => ManagerKeepsQueueInvariant(s, initOk);
    case _ => SenderKeepsQueueInvariant(s, a);
  }

  lemma ReceiverKeepsQueueInvariant(s: State, a: Action)
    requires Invariant(s) && (a.ReceiveFails? || a.ReceiverStops?)
    ensures QueueInvariant(Apply(s, a))
  {
    hide ManagerInvariant, ManagerStep;
  }

  /** Outside the manager thread only an error changes the status, and no thread starts. */
  lemma OthersKeepManagerInvariant(s: State, a: Action)
    requires Invariant(s) && !a.Manage?
    ensures ManagerInvariant(Apply(s, a))
  {
    hide QueueInvariant, ManagerStep, FailuresInARow;
  }

  lemma ManagerKeepsManagerInvariant(s: State, initOk: bool)
    requires Invariant(s)
    ensures ManagerInvariant(ManagerStep(s, initOk))
  {
    hide QueueInvariant, FailuresInARow;
    FailuresAfter(s.inits, false);
    FailuresAfter(s.inits, true);
  }

  lemma FailuresAfter(inits: seq<bool>, ok: bool)
    ensures FailuresInARow(inits + [ok]) == if ok then 0 else 1 + FailuresInARow(inits)
  {
    assert (inits + [ok])[..|inits|] == inits;
  }

  lemma ApplyKeepsManagerInvariant(s: State, a: Action)
    requires Invariant(s)
    ensures ManagerInvariant(Apply(s, a))
  {
    hide QueueInvariant, ManagerInvariant, ManagerStep;
    if a.Manage? {
      ManagerKeepsManagerInvariant(s, a.initOk);
    } else {
      OthersKeepManagerInvariant(s, a);
    }
  }

  /** Every run, from every interleaving of the four threads: accepted messages are the sent ones
      followed by the queue, tokens are accounted for, and the manager's threads match its place. */
  lemma {:induction false} RunKeepsInvariant(s: State, schedule: seq<Action>)
    requires Invariant(s)
    ensures Invariant(Run(s, schedule))
    decreases |schedule|
  {
    if schedule != [] {
      ApplyKeepsQueueInvariant(s, schedule[0]);
      ApplyKeepsManagerInvariant(s, schedule[0]);
      RunKeepsInvariant(Apply(s, schedule[0]), schedule[1..]);
    }
  }

  /** The assertions of Initialize hold whenever it is entered, and the fatal state means exactly that
      the last four initialisations failed. */
  lemma ReconnectsAreClean(schedule: seq<Action>)
    ensures var s := Run(INITIAL, schedule);
      && (s.manager == Initializing ==>
            s.status == PendingConnection && !s.servent && s.sender == NoSender && s.receiver == NoReceiver)
      && (s.status == FatalError <==> FailuresInARow(s.inits) == 4)
      && FailuresInARow(s.inits) <= 4
      && s.accepted == s.sent + s.queue
      && |s.queue| <= 512
  {
    RunKeepsInvariant(INITIAL, schedule);
  }

  /** The fatal state is never left. */
  lemma {:induction false} FatalIsForever(s: State, schedule: seq<Action>)
    requires Invariant(s) && s.status == FatalError
    ensures Run(s, schedule).status == FatalError && Run(s, schedule).inits == s.inits
    decreases |schedule|
  {
    if schedule != [] {
      ApplyKeepsQueueInvariant(s, schedule[0]);
      ApplyKeepsManagerInvariant(s, schedule[0]);
      FatalIsForever(Apply(s, schedule[0]), schedule[1..]);
    }
  }

  // ---------- the sender's assertion ----------

  /** When the sender takes a token its assertion fails exactly when as many releases strayed into this
      connection as there are tokens and posts under way; every message then is sent already. */
  lemma AssertionFailsExactly(s: State)
    requires Invariant(s) && !s.crashed && s.sender == Waiting && s.semaphore > 0
    ensures Apply(s, Take).crashed <==> s.leaked == s.semaphore + s.posting
  {
  }

  /** No reset happens while a post is between its push and its release. */
  ghost predicate NoPostAcrossReset(s: State, schedule: seq<Action>)
    decreases |schedule|
  {
    schedule != [] ==>
      && (s.manager == Clear && schedule[0].Manage? ==> s.posting == 0)
      && NoPostAcrossReset(Apply(s, schedule[0]), schedule[1..])
  }

  lemma CalmStep(s: State, a: Action)
    requires Invariant(s) && !s.crashed && s.strayed == s.leaked == 0
    requires s.manager == Clear && a.Manage? ==> s.posting == 0
    ensures var s' := Apply(s, a); !s'.crashed && s'.strayed == s'.leaked == 0
  {
  }

  lemma {:induction false} CalmRun(s: State, schedule: seq<Action>)
    requires Invariant(s) && !s.crashed && s.strayed == s.leaked == 0
    requires NoPostAcrossReset(s, schedule)
    ensures var s' := Run(s, schedule); !s'.crashed && s'.strayed == s'.leaked == 0
    decreases |schedule|
  {
    hide Apply, QueueInvariant, ManagerInvariant;
    if schedule != [] {
      CalmStep(s, schedule[0]);
      ApplyKeepsQueueInvariant(s, schedule[0]);
      ApplyKeepsManagerInvariant(s, schedule[0]);
      CalmRun(Apply(s, schedule[0]), schedule[1..]);
    }
  }

  /** As long as no reset falls between the push and the release of a post, the sender always finds a
      message for its token, and semaphore, token and posts under way add up to the queue. */
  lemma SenderAlwaysFindsMessage(schedule: seq<Action>)
    requires NoPostAcrossReset(INITIAL, schedule)
    ensures var s := Run(INITIAL, schedule);
      && !s.crashed
      && |s.queue| <= 512
      && (!CleaningUp(s.manager) ==> s.semaphore + Held(s.sender) + s.posting == |s.queue|)
  {
    CalmRun(INITIAL, schedule);
    RunKeepsInvariant(INITIAL, schedule);
  }

  lemma {:induction false} RunAppend(s: State, left: seq<Action>, right: seq<Action>)
    ensures Run(s, left + right) == Run(Run(s, left), right)
    decreases |left|
  {
    hide Apply;
    if left == [] {
      assert left + right == right;
    } else {
      assert (left + right)[0] == left[0] && (left + right)[1..] == left[1..] + right;
      RunAppend(Apply(s, left[0]), left[1..], right);
    }
  }

  lemma RunOne(s: State, a: Action)
    ensures Run(s, [a]) == Apply(s, a)
  {
  }

  /** A run from the start to `s`, extended by one step. */
  lemma Extend(schedule: seq<Action>, a: Action) returns (longer: seq<Action>)
    ensures Run(INITIAL, longer) == Apply(Run(INITIAL, schedule), a)
  {
    longer := schedule + [a];
    RunAppend(INITIAL, schedule, [a]);
    RunOne(Run(INITIAL, schedule), a);
  }

  /** The manager's first ten steps, up to reporting the connection. */
  lemma BeforeAnnounce() returns (schedule: seq<Action>)
    ensures Run(INITIAL, schedule) == INITIAL.(
      manager := Announce, status := PendingConnection, sender := Waiting, receiver := Receiving, servent := true)
  {
    schedule := [];
    for i := 0 to 9
      invariant Run(INITIAL, schedule) == INITIAL.(
        manager := [Top, JoinSender, JoinReceiver, Clear, Begin, Initializing, Connecting, LaunchSender,
                    LaunchReceiver, Announce][i],
        status := if i < 5 then Disconnected else PendingConnection,
        servent := i >= 6,
        sender := if i >= 8 then Waiting else NoSender,
        receiver := if i >= 9 then Receiving else NoReceiver)
    {
      schedule := Extend(schedule, Manage(true));
    }
  }

  lemma FirstConnection() returns (schedule: seq<Action>)
    ensures Run(INITIAL, schedule) == INITIAL.(
      status := Connected, sender := Waiting, receiver := Receiving, servent := true, inits := [true])
  {
    hide Run;
    schedule := BeforeAnnounce();
    schedule := Extend(schedule, Manage(true));
  }

  lemma PostAcrossReset() returns (schedule: seq<Action>)
    ensures Run(INITIAL, schedule) == INITIAL.(manager := Begin, strayed := 1, inits := [true])
  {
    hide Run;
    schedule := FirstConnection();
    schedule := Extend(schedule, Post([1]));
    schedule := Extend(schedule, ReceiveFails);
    schedule := Extend(schedule, Manage(true));
    schedule := Extend(schedule, SenderStops);
    schedule := Extend(schedule, Manage(true));
    schedule := Extend(schedule, Manage(true));
    schedule := Extend(schedule, Manage(true));
  }

  /** The condition is needed: a post that pushes before a disconnection and releases after the reset
      gives the next sender thread a token for an empty queue. */
  lemma PostAcrossResetCrashes() returns (schedule: seq<Action>)
    ensures Run(INITIAL, schedule).crashed
  {
    hide Run;
    schedule := PostAcrossReset();
    schedule := Extend(schedule, StrayRelease);
    schedule := Extend(schedule, Manage(true));
    schedule := Extend(schedule, Manage(true));
    schedule := Extend(schedule, Manage(true));
    schedule := Extend(schedule, Manage(true));
    schedule := Extend(schedule, Take);
  }
}
