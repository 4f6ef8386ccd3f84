/** Two ways a reconnection goes wrong, and exactly when: a receiver failure that is forgotten, and a
    stray token that makes the sender's assertion fail. */
module CommunicationsProperties {
  import opened Bytes
  import opened CommunicationsMgr

  // ---------- the forgotten receiver ----------

  /** The manager believes in a connection that has no receiver. */
  predicate Forgotten(s: State) { s.manager == Top && s.status == Connected && s.receiver != Receiving }

  /** The manager reports the connection although the receiver has failed already. */
  predicate Forgets(s: State, a: Action) {
    !s.crashed && a.Manage? && s.manager == Announce && s.receiver == ReceiverExited
  }

  /** The sender thread gives up after an error. */
  predicate SenderFails(s: State, a: Action) {
    !s.crashed && ((a == CanReadFails && s.sender == GotToken) || (a == WriteFails && s.sender.Writing?))
  }

  /** What else every reachable state satisfies: the receiver was started before the connection is
      reported, the queue is empty until then, and a connected manager has a sender. */
  ghost predicate ThreadInvariant(s: State) {
    && (s.manager == Announce ==> s.receiver != NoReceiver)
    && (!s.crashed && s.manager in {Begin, Initializing, Connecting, LaunchSender, LaunchReceiver, Announce} ==>
          s.queue == [] && s.posting == 0)
    && (!s.crashed && s.manager in {LaunchReceiver, Announce} ==> s.sender == Waiting)
    && (!s.crashed && s.status == Connected ==> Running(s.sender))
  }

  ghost predicate Sound(s: State) { Invariant(s) && ThreadInvariant(s) }

  lemma ApplyKeepsSound(s: State, a: Action)
    requires Sound(s)
    ensures Sound(Apply(s, a))
  {
    ApplyKeepsQueueInvariant(s, a);
    ApplyKeepsManagerInvariant(s, a);
    ApplyKeepsThreadInvariant(s, a);
  }

  lemma ApplyKeepsThreadInvariant(s: State, a: Action)
    requires Sound(s)
    ensures ThreadInvariant(Apply(s, a))
  {
    hide FailuresInARow;
  }

  lemma {:induction false} RunKeepsSound(s: State, schedule: seq<Action>)
    requires Sound(s)
    ensures Sound(Run(s, schedule))
    decreases |schedule|
  {
    hide Sound, Apply;
    if schedule != [] {
      ApplyKeepsSound(s, schedule[0]);
      RunKeepsSound(Apply(s, schedule[0]), schedule[1..]);
    }
  }

  /** One step: the manager forgets the receiver, or had forgotten it and the sender does not fail. */
  lemma ForgottenStep(s: State, a: Action)
    requires Sound(s)
    ensures Forgotten(Apply(s, a)) <==> Forgets(s, a) || (Forgotten(s) && !SenderFails(s, a))
  {
    hide QueueInvariant, FailuresInARow;
  }

  ghost predicate NoSenderFailure(schedule: seq<Action>, first: nat) {
    forall j :: first <= j < |schedule| ==> !SenderFails(Run(INITIAL, schedule[..j]), schedule[j])
  }

  ghost predicate ForgetsAt(schedule: seq<Action>, k: nat)
    requires k < |schedule|
  {
    Forgets(Run(INITIAL, schedule[..k]), schedule[k])
  }

  /** For every run: it ends with a forgotten receiver exactly when at some point the manager reported the
      connection after the receiver had failed, and the sender has not failed since. */
  lemma {:induction false} ForgottenExactly(schedule: seq<Action>)
    ensures Forgotten(Run(INITIAL, schedule))
       <==> exists k :: 0 <= k < |schedule| && ForgetsAt(schedule, k) && NoSenderFailure(schedule, k + 1)
    decreases |schedule|
  {
    if schedule != [] {
      hide Apply, Run, Forgotten, Forgets, SenderFails, Sound;
      var n := |schedule| - 1;
      var front, last := schedule[..n], schedule[n];
      var s := Run(INITIAL, front);
      assert schedule == front + [last];
      RunAppend(INITIAL, front, [last]);
      RunOne(s, last);
      SoundRun(front);
      ForgottenStep(s, last);
      ForgottenExactly(front);
      assert forall j :: 0 <= j <= n ==> schedule[..j] == front[..j];
      assert ForgetsAt(schedule, n) <==> Forgets(s, last);
      forall k | 0 <= k < n
        ensures ForgetsAt(schedule, k) <==> ForgetsAt(front, k)
        ensures NoSenderFailure(schedule, k + 1) <==> NoSenderFailure(front, k + 1) && !SenderFails(s, last)
      {
        SenderFailureUnfold(schedule, k + 1);
      }
      assert NoSenderFailure(schedule, n + 1);
    } else {
      assert Run(INITIAL, schedule) == INITIAL;
    }
  }

  lemma SenderFailureUnfold(schedule: seq<Action>, first: nat)
    requires 0 < |schedule| && first < |schedule|
    ensures var n := |schedule| - 1;
      NoSenderFailure(schedule, first) <==>
        NoSenderFailure(schedule[..n], first) && !SenderFails(Run(INITIAL, schedule[..n]), schedule[n])
  {
    hide Run, SenderFails;
    var n := |schedule| - 1;
    assert forall j :: 0 <= j < n ==> schedule[..n][..j] == schedule[..j];
  }

  lemma SoundRun(schedule: seq<Action>)
    ensures Sound(Run(INITIAL, schedule))
  {
    RunKeepsSound(INITIAL, schedule);
  }

  /** Without tokens and without new posts nothing makes the manager reconnect. */
  lemma {:induction false} IdleStaysForgotten(s: State, schedule: seq<Action>)
    requires Sound(s) && Forgotten(s) && s.sender == Waiting
    requires s.semaphore == 0 && s.posting == 0 && s.strayed == 0
    requires forall a :: a in schedule ==> !a.Post?
    ensures Forgotten(Run(s, schedule))
    decreases |schedule|
  {
    if schedule != [] {
      assert schedule[0] in schedule;
      IdleStep(s, schedule[0]);
      ApplyKeepsSound(s, schedule[0]);
      IdleStaysForgotten(Apply(s, schedule[0]), schedule[1..]);
    }
  }

  lemma IdleStep(s: State, a: Action)
    requires Forgotten(s) && s.sender == Waiting && !a.Post?
    requires s.semaphore == 0 && s.posting == 0 && s.strayed == 0
    ensures Forgotten(Apply(s, a)) && Apply(s, a).sender == Waiting
    ensures var s' := Apply(s, a); s'.semaphore == 0 && s'.posting == 0 && s'.strayed == 0
  {
  }

  /** With a post it can be brought to reconnect: from every state with a forgotten receiver some steps
      lead to the disconnected status. */
  lemma {:induction false} ForgottenCanReconnect(s: State) returns (steps: seq<Action>)
    requires Sound(s) && Forgotten(s) && !s.crashed
    ensures Run(s, steps).status == Disconnected
    decreases if s.sender == Waiting then 1 else 0, if s.semaphore > 0 then 0 else 1, |s.queue| == 0, s.posting
  {
    var a := if s.sender == GotToken then CanReadFails
             else if s.sender.Writing? then WriteFails
             else if s.queue == [] then Post([])
             else if s.semaphore > 0 then Take
             else Release;
    ApplyKeepsSound(s, a);
    var next := Apply(s, a);
    if next.status == Disconnected {
      OneStep(s, a);
      steps := [a];
    } else {
      steps := ForgottenCanReconnect(next);
      FirstStep(s, a, steps);
      steps := [a] + steps;
    }
  }

  lemma FirstStep(s: State, a: Action, steps: seq<Action>)
    ensures Run(s, [a] + steps) == Run(Apply(s, a), steps)
    ensures NoPostAcrossReset(s, [a] + steps)
       <==> (s.manager == Clear && a.Manage? ==> s.posting == 0) && NoPostAcrossReset(Apply(s, a), steps)
  {
    hide Apply;
    assert ([a] + steps)[0] == a && ([a] + steps)[1..] == steps;
  }

  /** The condition can be met: a run in which the receiver fails too early. */
  lemma EarlyFailureIsForgotten() returns (schedule: seq<Action>)
    ensures Forgotten(Run(INITIAL, schedule)) && !Run(INITIAL, schedule).crashed
  {
    hide Run;
    schedule := BeforeAnnounce();
    schedule := Extend(schedule, ReceiveFails);
    schedule := Extend(schedule, Manage(true));
  }

  // ---------- the stray token ----------

  /** Where the sender stands in its round. */
  function Ahead(sender: Sender): nat { if sender == Waiting then 2 else if sender == GotToken then 1 else 0 }

  /** With a sender at work a stray release, made or still to come, can make its assertion fail: it only
      has to send everything first. */
  lemma {:induction false} SenderMeetsStrayToken(s: State) returns (steps: seq<Action>)
    requires Sound(s) && !s.crashed && Running(s.sender) && s.strayed + s.leaked > 0
    ensures Run(s, steps).crashed && NoPostAcrossReset(s, steps)
    decreases |s.queue|, s.posting + s.strayed, Ahead(s.sender)
  {
    var a := if s.sender == GotToken then Front
             else if s.sender.Writing? then WriteDone
             else if s.semaphore > 0 then Take
             else if s.posting > 0 then Release
             else StrayRelease;
    StrayStep(s, a);
    ApplyKeepsSound(s, a);
    hide Apply, Sound;
    if Apply(s, a).crashed {
      OneStep(s, a);
      steps := [a];
    } else {
      steps := SenderMeetsStrayToken(Apply(s, a));
      FirstStep(s, a, steps);
      steps := [a] + steps;
    }
  }

  lemma OneStep(s: State, a: Action)
    ensures Run(s, [a]) == Apply(s, a)
    ensures NoPostAcrossReset(s, [a]) <==> (s.manager == Clear && a.Manage? ==> s.posting == 0)
  {
    hide Apply;
    assert [a][1..] == [];
  }

  lemma StrayStep(s: State, a: Action)
    requires Sound(s) && !s.crashed && Running(s.sender) && s.strayed + s.leaked > 0
    requires match s.sender
      case GotToken => a == Front
      case Writing(_) => a == WriteDone
      case _ => a == if s.semaphore > 0 then Take else if s.posting > 0 then Release else StrayRelease
    ensures var s' := Apply(s, a);
      && Running(s'.sender) && s'.strayed + s'.leaked > 0
      && (|| |s'.queue| < |s.queue|
          || (s'.queue == s.queue && s'.posting + s'.strayed < s.posting + s.strayed)
          || (s'.queue == s.queue && s'.posting + s'.strayed == s.posting + s.strayed
              && Ahead(s'.sender) < Ahead(s.sender)))
  {
    hide FailuresInARow;
  }

  /** How far the manager is from starting the sender thread. */
  function Distance(manager: Manager): nat {
    match manager
    case Top => 8 case JoinSender => 7 case JoinReceiver => 6 case Clear => 5
    case Begin => 4 case Initializing => 3 case Connecting => 2 case LaunchSender => 1
    case _ => 0
  }

  /** The sender's assertion can still fail without any further post across a reset: a stray release is yet to
      come and there will be a sender, or one has come and there is or will be a sender before the next reset. */
  predicate AtRisk(s: State) {
    || (s.strayed > 0 && s.status != FatalError)
    || (s.leaked > 0 && (Running(s.sender) || s.manager in {Begin, Initializing, Connecting, LaunchSender}))
  }

  /** The step that leads on from a state at risk without a sender. */
  function TowardsSender(s: State): Action {
    if s.manager == JoinReceiver && s.receiver == Receiving then ReceiverStops
    else if s.manager == Clear && s.posting > 0 then Release
    else Manage(true)
  }

  /** From any state at risk the manager first starts a sender thread, if there is none. */
  lemma {:induction false} RiskCanCrash(s: State) returns (steps: seq<Action>)
    requires Sound(s) && !s.crashed && AtRisk(s)
    ensures Run(s, steps).crashed && NoPostAcrossReset(s, steps)
    decreases Distance(s.manager), s.receiver == Receiving, s.posting
  {
    if Running(s.sender) {
      steps := SenderMeetsStrayToken(s);
    } else {
      var a := TowardsSender(s);
      ReconnectStep(s);
      ApplyKeepsSound(s, a);
      hide Apply, Sound;
      steps := RiskCanCrash(Apply(s, a));
      FirstStep(s, a, steps);
      steps := [a] + steps;
    }
  }

  lemma ReconnectStep(s: State)
    requires Sound(s) && !s.crashed && AtRisk(s) && !Running(s.sender)
    ensures var a := TowardsSender(s);
      var s' := Apply(s, a);
      && (s.manager == Clear && a.Manage? ==> s.posting == 0)
      && !s'.crashed && AtRisk(s')
      && (|| Distance(s'.manager) < Distance(s.manager)
          || (s'.manager == s.manager && s.receiver == Receiving && s'.receiver != Receiving)
          || (s'.manager == s.manager && s'.receiver == s.receiver && s'.posting < s.posting))
  {
    hide QueueInvariant, FailuresInARow;
  }

  /** Without a post across a reset a state that is not at risk stays so, and its sender finds a message. */
  lemma SafeStep(s: State, a: Action)
    requires Sound(s) && !s.crashed && !AtRisk(s)
    requires s.manager == Clear && a.Manage? ==> s.posting == 0
    ensures !Apply(s, a).crashed && !AtRisk(Apply(s, a))
  {
    hide FailuresInARow;
  }

  lemma {:induction false} SafeRun(s: State, steps: seq<Action>)
    requires Sound(s) && !s.crashed && !AtRisk(s) && NoPostAcrossReset(s, steps)
    ensures !Run(s, steps).crashed
    decreases |steps|
  {
    if steps != [] {
      SafeStep(s, steps[0]);
      ApplyKeepsSound(s, steps[0]);
      hide Apply, Sound, AtRisk;
      SafeRun(Apply(s, steps[0]), steps[1..]);
    }
  }

  /** For every run that has not crashed: the sender's assertion can still fail, without any further post
      across a reset, exactly when the state the run ends in is at risk. */
  lemma StrayedMayCrashIff(schedule: seq<Action>)
    requires !Run(INITIAL, schedule).crashed
    ensures var s := Run(INITIAL, schedule);
      (exists steps :: NoPostAcrossReset(s, steps) && Run(s, steps).crashed) <==> AtRisk(s)
  {
    hide Run, Sound, AtRisk, NoPostAcrossReset;
    var s := Run(INITIAL, schedule);
    SoundRun(schedule);
    if AtRisk(s) {
      var steps := RiskCanCrash(s);
      assert NoPostAcrossReset(s, steps) && Run(s, steps).crashed;
    } else {
      forall steps | NoPostAcrossReset(s, steps)
        ensures !Run(s, steps).crashed
      {
        SafeRun(s, steps);
      }
    }
  }
}
