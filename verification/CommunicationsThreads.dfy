/** The code of the manager, sender and posting threads over their shared fields, each running while the
    others interleave with it. Every method leaves the fields in a state that the machine of
    CommunicationsMgr reaches by the steps recorded in `trace`. Posts that straddle a reset are left to
    CommunicationsMgr, which shows what they break. */
module CommunicationsThreads {
  import opened Bytes
  import opened CommunicationsMgr

  datatype Thread = ManagerThread | SenderThread | ReceiverThread | PosterThread

  function ThreadOf(a: Action): Thread {
    match a
    case Manage(_) => ManagerThread
    case Post(_) => PosterThread
    case Release => PosterThread
    case StrayRelease => PosterThread
    case ReceiveFails => ReceiverThread
    case ReceiverStops => ReceiverThread
    case _ => SenderThread
  }

  // ---------- traces ----------

  lemma {:induction false} NoPostAcrossResetOne(s: State, trace: seq<Action>, a: Action)
    requires NoPostAcrossReset(s, trace)
    requires Run(s, trace).manager == Clear && a.Manage? ==> Run(s, trace).posting == 0
    ensures NoPostAcrossReset(s, trace + [a])
    decreases |trace|
  {
    hide Apply;
    if trace == [] {
      assert (trace + [a])[1..] == [];
    } else {
      assert (trace + [a])[0] == trace[0] && (trace + [a])[1..] == trace[1..] + [a];
      NoPostAcrossResetOne(Apply(s, trace[0]), trace[1..], a);
    }
  }

  /** What a step of another thread cannot change under a thread's feet. */
  ghost predicate Undisturbed(mine: Thread, s: State, s': State) {
    match mine
    case ManagerThread =>
      && s'.manager == s.manager && s'.errors == s.errors && s'.inits == s.inits && s'.servent == s.servent
      && (s'.status == s.status || s'.status == Disconnected)
      && (s.sender == NoSender ==> s'.sender == NoSender)
      && (s.receiver == NoReceiver ==> s'.receiver == NoReceiver)
      && (s.sender.SenderExited? ==> s'.sender == s.sender)
      && (s.receiver == ReceiverExited ==> s'.receiver == s.receiver)
    case SenderThread =>
      Running(s.sender) ==>
        && s'.sender == s.sender && s'.sent == s.sent && s.queue <= s'.queue && s.accepted <= s'.accepted
        && s.semaphore <= s'.semaphore && (s.manager == JoinSender ==> s'.manager == JoinSender)
    case PosterThread => s'.posting == s.posting
    case ReceiverThread => s.receiver == Receiving ==> s'.receiver == Receiving
  }

  lemma OthersDoNotDisturb(mine: Thread, s: State, a: Action)
    requires Invariant(s) && ThreadOf(a) != mine
    requires s.manager == Clear && a.Manage? ==> s.posting == 0
    ensures Undisturbed(mine, s, Apply(s, a))
  {
    hide QueueInvariant, FailuresInARow;
  }

  lemma UndisturbedTransitive(mine: Thread, s: State, s': State, s'': State)
    requires Undisturbed(mine, s, s') && Undisturbed(mine, s', s'')
    ensures Undisturbed(mine, s, s'')
  {
  }

  lemma CalmTraces(trace: seq<Action>)
    requires NoPostAcrossReset(INITIAL, trace)
    ensures var s := Run(INITIAL, trace); Invariant(s) && !s.crashed && s.strayed == s.leaked == 0
  {
    RunKeepsInvariant(INITIAL, trace);
    CalmRun(INITIAL, trace);
  }

  lemma ManageIsManagerStep(s: State, initOk: bool)
    requires !s.crashed
    ensures Apply(s, Manage(initOk)) == ManagerStep(s, initOk)
  {
  }

  // ---------- the other process ----------

  datatype Probe = ProbeFailed | DataWaiting | NothingWaiting

  datatype Records = Records(probes: seq<Probe>, took: seq<Message>, refused: nat)

  /** The other process behind the pipe, whose choices decide what the threads meet. The ghost fields record
      them: whether it answered a connection attempt, what each probe of the pipe found, which messages it took
      and how many writes failed or were cut short. */
  class Peer {
    ghost var answers: seq<bool>
    ghost var probes: seq<Probe>
    ghost var took: seq<Message>
    ghost var refused: nat

    constructor ()
      ensures answers == [] && probes == [] && took == [] && refused == 0
    {
      answers, probes, took, refused := [], [], [], 0;
    }

    ghost function Seen(): Records
      reads this
    {
      Records(probes, took, refused)
    }

    method Answer() returns (ok: bool)
      modifies this`answers
      ensures answers == old(answers) + [ok]
    {
      ok := *;
      answers := answers + [ok];
    }

    method CanRead() returns (probe: Probe)
      modifies this`probes
      ensures probes == old(probes) + [probe]
    {
      probe := *;
      probes := probes + [probe];
    }

    method Take(m: Message) returns (written: bool)
      modifies this`took, this`refused
      ensures took == if written then old(took) + [m] else old(took)
      ensures refused == old(refused) + if written then 0 else 1
    {
      written := *;
      if written {
        took := took + [m];
      } else {
        refused := refused + 1;
      }
    }
  }

  // ---------- the shared object ----------

  class CommunicationsManager {
    const peer: Peer
    var status: Status
    var senderEnabled: bool
    var queue: seq<Message>
    var semaphore: nat
    var posting: nat
    var servent: bool
    var sender: Sender
    var receiver: Receiver
    var errorCount: nat
    var manager: Manager
    ghost var accepted: seq<Message>
    ghost var sent: seq<Message>
    ghost var inits: seq<bool>
    ghost var trace: seq<Action>

    ghost function Now(): State
      reads this
    {
      State(status, queue, semaphore, posting, 0, 0, sender, receiver, manager, servent, errorCount,
            accepted, sent, inits, false)
    }

    ghost predicate Valid()
      reads this
    {
      && Now() == Run(INITIAL, trace)
      && NoPostAcrossReset(INITIAL, trace)
      && (senderEnabled <==> status == Connected)
    }

    constructor (peer: Peer)
      ensures Valid() && trace == [] && this.peer == peer && status == Disconnected && manager == Top
    {
      this.peer := peer;
      status, senderEnabled, servent := Disconnected, false, false;
      queue, semaphore, posting := [], 0, 0;
      sender, receiver, manager, errorCount := NoSender, NoReceiver, Top, 0;
      accepted, sent, inits, trace := [], [], [], [];
    }

    lemma Facts()
      requires Valid()
      ensures Invariant(Now())
    {
      CalmTraces(trace);
    }

    lemma CountsFailures()
      requires Valid()
      ensures errorCount == FailuresInARow(inits)
    {
      Facts();
    }

    lemma SentAreAccepted()
      requires Valid()
      ensures sent <= accepted
    {
      Facts();
    }

    /** Records that the fields have just made step `a`. */
    method Record(ghost s: State, ghost a: Action)
      requires s == Run(INITIAL, trace) && NoPostAcrossReset(INITIAL, trace)
      requires Now() == Apply(s, a) && (senderEnabled <==> status == Connected)
      requires s.manager == Clear && a.Manage? ==> s.posting == 0
      modifies this`trace
      ensures Valid() && trace == old(trace) + [a] && Now() == old(Now())
    {
      hide Apply;
      NoPostAcrossResetOne(INITIAL, trace, a);
      RunAppend(INITIAL, trace, [a]);
      RunOne(s, a);
      trace := trace + [a];
    }

    /** The new status; the queue takes messages only while connected. */
    method SetState(state: Status)
      modifies this`status, this`senderEnabled
      ensures status == state && (senderEnabled <==> state == Connected)
    {
      status := state;
      senderEnabled := status == Connected;
    }

    /** The check and the push of PostMessage. */
    method Push(m: Message) returns (pushed: bool)
      requires Valid()
      modifies this
      ensures Valid() && trace == old(trace) + [Post(m)] && Now() == Apply(old(Now()), Post(m))
      ensures pushed <==> old(status) == Connected && |old(queue)| < 512
      ensures queue == if pushed then old(queue) + [m] else old(queue)
    {
      ghost var s := Now();
      pushed := senderEnabled && |queue| < MAX_QUEUE_ITEMS;
      if pushed {
        queue, posting, accepted := queue + [m], posting + 1, accepted + [m];
      }
      Record(s, Post(m));
    }

    method ReleaseLock()
      requires Valid() && posting > 0
      modifies this
      ensures Valid() && trace == old(trace) + [Release] && Now() == Apply(old(Now()), Release)
    {
      ghost var s := Now();
      posting, semaphore := posting - 1, semaphore + 1;
      Record(s, Release);
    }

    /** One step of the sender thread, other than its exits. The queue assertion holds at Take. */
    method SenderStep(a: Action)
      requires Valid()
      requires match a
        case Take => sender == Waiting && semaphore > 0
        case PeerBusy => sender == GotToken
        case Front => sender == GotToken
        case WriteDone => sender.Writing?
        case _ => false
      modifies this
      ensures Valid() && trace == old(trace) + [a] && Now() == Apply(old(Now()), a)
      ensures manager == old(manager) && accepted == old(accepted) && inits == old(inits)
      ensures semaphore == old(semaphore) + if a == Take then -1 else if a == PeerBusy then 1 else 0
      ensures if a == WriteDone then old(queue) == [old(sender).front] + queue && sent == old(sent) + [old(sender).front]
              else sent == old(sent) && queue == old(queue)
      ensures match a
        case Take => sender == GotToken && queue != []
        case Front => queue != [] && sender == Writing(queue[0])
        case _ => sender == Waiting
    {
      hide Run, NoPostAcrossReset, Invariant;
      QueueIsReady(a);
      ghost var s := Now();
      match a {
        case Take =>
          semaphore := semaphore - 1;
          assert |queue| > 0;
          sender := GotToken;
        case PeerBusy =>
          semaphore := semaphore + 1;
          sender := Waiting;
        case Front =>
          sender := Writing(queue[0]);
        case WriteDone =>
          queue, sent := queue[1..], sent + [sender.front];
          sender := Waiting;
      }
      Record(s, a);
    }

    /** The sender finds a message for its token, and it is still the one it found when it is done. */
    lemma QueueIsReady(a: Action)
      requires Valid()
      ensures a == Take && sender == Waiting && semaphore > 0 ==> queue != []
      ensures sender == GotToken ==> queue != []
      ensures sender.Writing? ==> queue != [] && queue[0] == sender.front
    {
      CalmTraces(trace);
      if a == Take {
        CalmStep(Now(), a);
      }
    }

    /** The sender thread leaves its loop: after an error, or because it should stop. */
    method SenderExit(a: Action)
      requires Valid()
      requires match a
        case CanReadFails => sender == GotToken
        case WriteFails => sender.Writing?
        case SenderStops => sender == Waiting && manager == JoinSender
        case _ => false
      modifies this
      ensures Valid() && trace == old(trace) + [a] && Now() == Apply(old(Now()), a)
      ensures receiver == old(receiver) && manager == old(manager)
      ensures sender == SenderExited(if a == SenderStops then 0 else 1)
      ensures accepted == old(accepted) && sent == old(sent) && queue == old(queue) && inits == old(inits)
      ensures a != SenderStops ==> status == Disconnected
    {
      hide Run, NoPostAcrossReset;
      ghost var s := Now();
      if a != SenderStops {
        SetState(Disconnected);
      }
      sender := SenderExited(if a == SenderStops then 0 else 1);
      Record(s, a);
    }

    method ReceiverExit(a: Action)
      requires Valid() && receiver == Receiving
      requires a == ReceiveFails || (a == ReceiverStops && manager == JoinReceiver)
      modifies this
      ensures Valid() && trace == old(trace) + [a] && Now() == Apply(old(Now()), a)
      ensures receiver == ReceiverExited && manager == old(manager) && inits == old(inits)
      ensures a == ReceiveFails ==> status == Disconnected
    {
      ghost var s := Now();
      if a == ReceiveFails {
        SetState(Disconnected);
      }
      receiver := ReceiverExited;
      Record(s, a);
    }

    /** The manager's steps until both threads are joined. */
    method TearDown(ghost initOk: bool)
      requires Valid() && (manager == Top || manager == JoinSender || manager == JoinReceiver)
      modifies this
      ensures Valid() && trace == old(trace) + [Manage(initOk)] && Now() == Apply(old(Now()), Manage(initOk))
      ensures inits == old(inits) && manager == match old(manager)
        case Top => if old(status) == Disconnected then JoinSender else Top
        case JoinSender => if old(sender) == NoSender || old(sender).SenderExited? then JoinReceiver else JoinSender
        case _ => if old(receiver) != Receiving then Clear else JoinReceiver
    {
      hide Run, NoPostAcrossReset, Apply;
      ghost var s := Now();
      ManageIsManagerStep(s, initOk);
      if manager == Top {
        if status == Disconnected {
          manager := JoinSender;
        }
      } else if manager == JoinSender {
        if sender == NoSender || sender.SenderExited? {
          sender, manager := NoSender, JoinReceiver;
        }
      } else if receiver != Receiving {
        receiver, manager := NoReceiver, Clear;
      }
      Record(s, Manage(initOk));
    }

    /** The end of CleanupInstance: no servent, no messages, a new semaphore. */
    method ClearAll(ghost initOk: bool)
      requires Valid() && manager == Clear && posting == 0
      modifies this
      ensures Valid() && trace == old(trace) + [Manage(initOk)] && Now() == Apply(old(Now()), Manage(initOk))
      ensures manager == Begin && queue == [] && semaphore == 0 && !servent && inits == old(inits)
    {
      hide Run, NoPostAcrossReset, Apply;
      ghost var s := Now();
      ManageIsManagerStep(s, initOk);
      servent := false;
      Reset();
      accepted, sent, manager := [], [], Begin;
      Record(s, Manage(initOk));
    }

    /** The manager's steps from there to the start of the threads. */
    method BuildUp(ghost initOk: bool)
      requires Valid()
      requires manager == Begin || manager == Initializing || manager == LaunchSender || manager == LaunchReceiver
      modifies this
      ensures Valid() && trace == old(trace) + [Manage(initOk)] && Now() == Apply(old(Now()), Manage(initOk))
      ensures inits == old(inits) && manager == match old(manager)
        case Begin => Initializing
        case Initializing => Connecting
        case LaunchSender => LaunchReceiver
        case _ => Announce
    {
      hide Run, NoPostAcrossReset, Apply;
      ghost var s := Now();
      ManageIsManagerStep(s, initOk);
      if manager == Begin {
        SetState(PendingConnection);
        manager := Initializing;
      } else if manager == Initializing {
        servent, manager := true, Connecting;
      } else if manager == LaunchSender {
        sender, manager := Waiting, LaunchReceiver;
      } else {
        receiver, manager := Receiving, Announce;
      }
      Record(s, Manage(initOk));
    }

    /** The peer answered, or did not. */
    method Connect(initOk: bool)
      requires Valid() && manager == Connecting
      modifies this
      ensures Valid() && trace == old(trace) + [Manage(initOk)] && Now() == Apply(old(Now()), Manage(initOk))
      ensures manager == if initOk then LaunchSender else Top
      ensures inits == if initOk then old(inits) else old(inits) + [false]
      ensures !initOk ==> status == if FailuresInARow(inits) >= 4 then FatalError else Disconnected
    {
      hide Run, NoPostAcrossReset, Apply;
      ghost var s := Now();
      CountsFailures();
      FailuresAfter(inits, false);
      ManageIsManagerStep(s, initOk);
      if initOk {
        manager := LaunchSender;
      } else {
        errorCount := errorCount + 1;
        SetState(if errorCount > INITERRORS_THRESHOLD then FatalError else Disconnected);
        inits, manager := inits + [false], Top;
      }
      Record(s, Manage(initOk));
    }

    method ReportConnected(ghost initOk: bool)
      requires Valid() && manager == Announce
      modifies this
      ensures Valid() && trace == old(trace) + [Manage(initOk)] && Now() == Apply(old(Now()), Manage(initOk))
      ensures manager == Top && status == Connected && inits == old(inits) + [true]
    {
      hide Run, NoPostAcrossReset, Apply;
      ghost var s := Now();
      ManageIsManagerStep(s, initOk);
      errorCount := 0;
      SetState(Connected);
      inits, manager := inits + [true], Top;
      Record(s, Manage(initOk));
    }

    /** A step of the manager thread. */
    method ManagerMoves(initOk: bool)
      requires Valid() && (manager == Clear ==> posting == 0)
      modifies this
      ensures Valid() && trace == old(trace) + [Manage(initOk)] && Now() == Apply(old(Now()), Manage(initOk))
    {
      hide Run, NoPostAcrossReset, Apply;
      match manager {
        case Connecting => Connect(initOk);
        case Announce => ReportConnected(initOk);
        case Begin => BuildUp(initOk);
        case Initializing => BuildUp(initOk);
        case LaunchSender => BuildUp(initOk);
        case LaunchReceiver => BuildUp(initOk);
        case Clear => ClearAll(initOk);
        case _ => TearDown(initOk);
      }
    }

    /** Empties the send queue and makes a new semaphore. */
    method Reset()
      modifies this`queue, this`semaphore
      ensures queue == [] && semaphore == 0
    {
      while queue != [] {
        queue := queue[1..];
      }
      semaphore := 0;
    }

    predicate Possible(a: Action)
      reads this
    {
      match a
      case Post(_) => true
      case Release => posting > 0
      case StrayRelease => false
      case Take => sender == Waiting && semaphore > 0
      case CanReadFails => sender == GotToken
      case PeerBusy => sender == GotToken
      case Front => sender == GotToken
      case WriteDone => sender.Writing?
      case WriteFails => sender.Writing?
      case SenderStops => sender == Waiting && manager == JoinSender
      case ReceiveFails => receiver == Receiving
      case ReceiverStops => receiver == Receiving && manager == JoinReceiver
      case Manage(_) => manager == Clear ==> posting == 0
    }

    method Do(a: Action)
      requires Valid() && Possible(a)
      modifies this
      ensures Valid() && trace == old(trace) + [a] && Now() == Apply(old(Now()), a)
    {
      match a {
        case Post(m) => var _ := Push(m);
        case Release => ReleaseLock();
        case CanReadFails => SenderExit(a);
        case WriteFails => SenderExit(a);
        case SenderStops => SenderExit(a);
        case ReceiveFails => ReceiverExit(a);
        case ReceiverStops => ReceiverExit(a);
        case Manage(initOk) => ManagerMoves(initOk);
        case StrayRelease => assert false;
        case _ => SenderStep(a);
      }
    }

    /** Any number of steps of any other threads. */
    method Others(mine: Thread)
      requires Valid()
      modifies this
      ensures Valid() && old(trace) <= trace && Undisturbed(mine, old(Now()), Now())
    {
      hide Apply, Run, NoPostAcrossReset, Undisturbed;
      Same(mine, Now());
      var n: int := *;
      for i := 0 to if n < 0 then 0 else n
        invariant Valid() && old(trace) <= trace && Undisturbed(mine, old(Now()), Now())
      {
        var a: Action := *;
        if ThreadOf(a) != mine && Possible(a) {
          ghost var s := Now();
          Facts();
          Do(a);
          OthersDoNotDisturb(mine, s, a);
          UndisturbedTransitive(mine, old(Now()), s, Now());
        }
      }
    }

    /** What the running sender thread can rely on while it is not looking. */
    method OthersThanSender()
      requires Valid() && Running(sender)
      modifies this
      ensures Valid() && old(trace) <= trace
      ensures sender == old(sender) && sent == old(sent) && old(queue) <= queue && old(accepted) <= accepted
      ensures old(semaphore) <= semaphore && (old(manager) == JoinSender ==> manager == JoinSender)
    {
      hide Run, NoPostAcrossReset;
      Others(SenderThread);
    }

    /** What the manager thread can rely on while it is not looking. */
    method OthersThanManager()
      requires Valid()
      modifies this
      ensures Valid() && old(trace) <= trace && manager == old(manager) && inits == old(inits)
      ensures status == old(status) || status == Disconnected
      ensures (old(sender) == NoSender || old(sender).SenderExited?) ==> sender == old(sender)
      ensures old(receiver) != Receiving ==> receiver == old(receiver) || manager == LaunchReceiver
    {
      hide Run, NoPostAcrossReset;
      Others(ManagerThread);
    }

    lemma Same(mine: Thread, s: State)
      ensures Undisturbed(mine, s, s)
    {
    }

    // ---------- the threads ----------

    /** A message is accepted exactly when the manager is connected and the queue has room, and then it goes to
        the end of the queue and the semaphore is raised once; a refused message changes nothing. */
    method PostMessage(m: Message) returns (accept: bool)
      requires Valid()
      modifies this
      ensures Valid() && old(trace) + [Post(m)] <= trace
      ensures accept <==> old(status) == Connected && |old(queue)| < 512
      ensures accept ==> trace[|trace| - 1] == Release
      ensures !accept ==> queue == old(queue) && semaphore == old(semaphore) && accepted == old(accepted)
    {
      hide Run, NoPostAcrossReset;
      accept := Push(m);
      if accept {
        Others(PosterThread);
        ReleaseLock();
      }
    }

    /** One time round the sender's loop. A token there is makes the sender probe the pipe, and what it finds
        decides: a message goes out exactly when nothing waits to be read and the peer takes it. */
    method SenderRound() returns (round: Round)
      requires Valid() && sender == Waiting
      modifies this, peer`probes, peer`took, peer`refused
      ensures Valid() && old(trace) <= trace && old(accepted) <= accepted
      ensures sender == if round == Failed then SenderExited(1) else Waiting
      ensures round == Failed ==> status == Disconnected
      ensures round != Failed ==> semaphore + (if round == Sent then 1 else 0) >= old(semaphore)
      ensures round == Idle <==> old(semaphore) == 0
      ensures round == Idle ==> trace == old(trace) && sent == old(sent)
      ensures Met(old(peer.Seen()), peer.Seen(), round)
      ensures round != Sent ==> sent == old(sent)
      ensures round == Sent ==>
        old(queue) != [] && sent == old(sent) + [old(queue)[0]] && peer.took == old(peer.took) + [old(queue)[0]]
    {
      hide Run, NoPostAcrossReset, Apply, Valid;
      if semaphore == 0 {
        return Idle;
      }
      SenderStep(Take);
      OthersThanSender();
      var probe := peer.CanRead();
      match probe {
        case ProbeFailed =>
          SenderExit(CanReadFails);
          round := Failed;
        case DataWaiting =>
          SenderStep(PeerBusy);
          round := Busy;
        case NothingWaiting =>
          var ok := SendFront();
          round := if ok then Sent else Failed;
      }
    }

    /** Sends the message at the head of the queue, which stays there until it is sent. */
    method SendFront() returns (ok: bool)
      requires Valid() && sender == GotToken
      modifies this, peer`took, peer`refused
      ensures Valid() && old(trace) <= trace && sender == if ok then Waiting else SenderExited(1)
      ensures old(queue) != [] && old(accepted) <= accepted
      ensures sent == if ok then old(sent) + [old(queue)[0]] else old(sent)
      ensures old(queue) <= if ok then [old(queue)[0]] + queue else queue
      ensures peer.took == old(peer.took) + sent[|old(sent)|..]
      ensures peer.refused == old(peer.refused) + if ok then 0 else 1
      ensures if ok then semaphore >= old(semaphore) else status == Disconnected
    {
      hide Run, NoPostAcrossReset, Apply, Valid;
      SenderStep(Front);
      var pMsg := queue[0];
      OthersThanSender();
      assert pMsg == queue[0];
      ok := peer.Take(pMsg);
      if ok {
        SenderStep(WriteDone);
      } else {
        SenderExit(WriteFails);
      }
    }

    /** The sender thread, for a number of rounds: it never finds its queue empty, and it sends the accepted
        messages in their order, which are the ones the peer takes. Each token there is at the start costs it at
        most one round; it ends by itself only after a probe or a write failed, or when the manager waits for it, and
        then at once. */
    method SenderWork(rounds: nat)
      requires Valid() && sender == Waiting
      modifies this, peer`probes, peer`took, peer`refused
      ensures Valid() && old(trace) <= trace
      ensures old(sent) <= sent <= accepted && old(accepted) <= accepted
      ensures Tally(old(peer.Seen()), peer.Seen(), old(sent), sent)
      ensures rounds > 0 && old(manager) == JoinSender ==> sender == SenderExited(0) && peer.Seen() == old(peer.Seen())
      ensures sender == Waiting || sender == SenderExited(1) || (sender == SenderExited(0) && manager == JoinSender)
      ensures sender == SenderExited(1) ==>
        && status == Disconnected
        && (peer.refused > old(peer.refused) || ProbeFailed in peer.probes[|old(peer.probes)|..])
      ensures sender == Waiting ==>
        |peer.probes| - |old(peer.probes)| >= if rounds < old(semaphore) then rounds else old(semaphore)
    {
      hide Run, NoPostAcrossReset, Apply, Valid, Tally;
      SentAreAccepted();
      TallyNone(peer.Seen(), sent);
      ghost var records0, sent0 := peer.Seen(), sent;
      for i := 0 to rounds
        invariant Valid() && old(trace) <= trace && sender == Waiting
        invariant old(sent) <= sent <= accepted && old(accepted) <= accepted
        invariant Tally(records0, peer.Seen(), sent0, sent) && peer.refused == old(peer.refused)
        invariant |peer.probes| >= |old(peer.probes)|
        invariant old(manager) == JoinSender ==> i == 0 && manager == JoinSender && peer.Seen() == old(peer.Seen())
        invariant semaphore + |peer.probes| - |old(peer.probes)| >= old(semaphore)
        invariant |peer.probes| - |old(peer.probes)| >= if i < old(semaphore) then i else old(semaphore)
      {
        OthersThanSender();
        SentAreAccepted();
        if manager == JoinSender {
          SenderExit(SenderStops);
          TallyOrder(records0, peer.Seen(), sent0, sent);
          return;
        }
        ghost var records, sent1 := peer.Seen(), sent;
        var round := SenderRound();
        SentAreAccepted();
        TallyRound(records0, records, peer.Seen(), sent0, sent1, sent, round);
        if round == Failed {
          return;
        }
      }
      TallyOrder(records0, peer.Seen(), sent0, sent);
    }

    /** What is left of a round of the sender once it has a token: it probes the pipe, or writes. */
    method FinishRound()
      requires Valid() && (sender == GotToken || sender.Writing?)
      modifies this, peer`probes, peer`took, peer`refused
      ensures Valid() && old(trace) <= trace && manager == old(manager) && inits == old(inits)
      ensures sender == Waiting || sender == SenderExited(1)
      ensures old(sent) <= sent && peer.took == old(peer.took) + sent[|old(sent)|..]
      ensures old(peer.probes) <= peer.probes && peer.refused >= old(peer.refused)
      ensures sender == SenderExited(1) <==>
        peer.refused > old(peer.refused) || ProbeFailed in peer.probes[|old(peer.probes)|..]
    {
      hide Run, NoPostAcrossReset, Apply, Valid;
      if sender == GotToken {
        var probe := peer.CanRead();
        match probe {
          case ProbeFailed => SenderExit(CanReadFails);
          case DataWaiting => SenderStep(PeerBusy);
          case NothingWaiting => SenderStep(Front);
        }
      }
      if sender.Writing? {
        var ok := peer.Take(sender.front);
        if ok {
          SenderStep(WriteDone);
        } else {
          SenderExit(WriteFails);
        }
      }
    }

    /** The sender thread finishes what it is doing and stops. */
    method AwaitSender()
      requires Valid() && manager == JoinSender
      modifies this, peer`probes, peer`took, peer`refused
      ensures Valid() && old(trace) <= trace && manager == JoinSender && inits == old(inits)
      ensures sender == NoSender || sender.SenderExited?
    {
      hide Run, NoPostAcrossReset, Apply, Valid;
      Others(ManagerThread);
      if sender == GotToken || sender.Writing? {
        FinishRound();
      }
      if sender == Waiting {
        SenderExit(SenderStops);
      }
    }

    /** Stops both threads, drops the servent and empties the queue. */
    method CleanupInstance()
      requires Valid() && manager == JoinSender
      modifies this, peer`probes, peer`took, peer`refused
      ensures Valid() && old(trace) <= trace && manager == Begin && inits == old(inits)
      ensures sender == NoSender && receiver == NoReceiver
      ensures queue == [] && semaphore == 0 && !servent
    {
      hide Run, NoPostAcrossReset, Apply, Valid;
      AwaitSender();
      TearDown(true);
      OthersThanManager();
      if receiver == Receiving {
        ReceiverExit(ReceiverStops);
      }
      TearDown(true);
      OthersThanManager();
      FinishPosts();
      ClearAll(true);
      Facts();
    }

    /** Posts under way release the semaphore before it is replaced. */
    method FinishPosts()
      requires Valid() && manager == Clear
      modifies this
      ensures Valid() && old(trace) <= trace && manager == Clear && posting == 0 && inits == old(inits)
    {
      hide Run, NoPostAcrossReset;
      while posting > 0
        invariant Valid() && old(trace) <= trace && manager == Clear && inits == old(inits)
        decreases posting
      {
        ReleaseLock();
      }
    }

    lemma EnteredCleanly()
      requires Valid() && manager == Initializing
      ensures status == PendingConnection && !servent && sender == NoSender && receiver == NoReceiver
    {
      Facts();
    }

    /** Creates the servent, waits for the peer and, if that answers, starts the threads. */
    method Initialize() returns (ok: bool)
      requires Valid() && manager == Initializing
      modifies this, peer`answers
      ensures Valid() && old(trace) <= trace && inits == old(inits)
      ensures peer.answers == old(peer.answers) + [ok]
      ensures if ok then manager == Announce else manager == Connecting
    {
      hide Run, NoPostAcrossReset, Apply, Valid;
      EnteredCleanly();
      assert status == PendingConnection && !servent && sender == NoSender && receiver == NoReceiver;
      BuildUp(true);
      OthersThanManager();
      ok := peer.Answer();
      if !ok {
        return;
      }
      Connect(true);
      OthersThanManager();
      BuildUp(true);
      OthersThanManager();
      BuildUp(true);
      OthersThanManager();
    }

    /** The reconnection in the manager's loop: one initialisation, whose outcome is what the peer answered. */
    method Reconnect() returns (ok: bool)
      requires Valid() && manager == Top && status == Disconnected
      modifies this, peer
      ensures Valid() && old(trace) <= trace && manager == Top
      ensures inits == old(inits) + [ok] && peer.answers == old(peer.answers) + [ok]
      ensures status == if ok then Connected else if FailuresInARow(inits) >= 4 then FatalError else Disconnected
    {
      hide Run, NoPostAcrossReset, Apply, Valid, FailuresInARow;
      TearDown(true);
      CleanupInstance();
      BuildUp(true);
      ok := Initialize();
      if ok {
        ReportConnected(true);
      } else {
        Connect(false);
      }
    }

    /** The manager thread, for a number of rounds. Whenever it finds the status Disconnected it initialises
        once, and the outcomes are the peer's answers; as long as they are failures every round adds one, until
        the fourth in a row ends the loop in the fatal state. The fatal state means exactly that. */
    method Work(rounds: nat)
      requires Valid() && manager == Top
      modifies this, peer
      ensures Valid() && old(trace) <= trace && manager == Top
      ensures status == FatalError <==> FailuresInARow(inits) == 4
      ensures old(status) == FatalError ==> trace == old(trace)
      ensures old(inits) <= inits && peer.answers == old(peer.answers) + inits[|old(inits)|..]
      ensures |inits| <= |old(inits)| + rounds
      ensures rounds > 0 && old(status) == Disconnected ==> |inits| > |old(inits)|
      ensures old(status) == Disconnected && AllFailed(inits, |old(inits)|) ==>
        status == FatalError || (|inits| == |old(inits)| + rounds && rounds < 4)
    {
      hide Run, NoPostAcrossReset, Apply, Valid, FailuresInARow, AllFailed;
      var i := 0;
      ghost var inits0 := inits;
      while i < rounds && status != FatalError
        invariant i <= rounds && Valid() && old(trace) <= trace && manager == Top
        invariant old(status) == FatalError ==> status == FatalError && trace == old(trace)
        invariant i == 0 ==> status == old(status)
        invariant inits0 <= inits && peer.answers == old(peer.answers) + inits[|inits0|..]
        invariant |inits| <= |inits0| + i && (i > 0 && old(status) == Disconnected ==> |inits| > |inits0|)
        invariant old(status) == Disconnected && AllFailed(inits, |inits0|) ==>
          && |inits| == |inits0| + i
          && (status == Disconnected || status == FatalError)
      {
        if status == Disconnected {
          ghost var before := inits;
          var ok := Reconnect();
          assert inits[|inits0|..] == before[|inits0|..] + [ok];
          AllFailedSnoc(before, |inits0|, ok);
        }
        if status != FatalError {
          OthersThanManager();
        }
        i := i + 1;
      }
      Facts();
      FailuresAtEnd(inits, |inits0|);
    }
  }

  // ---------- what the sender meets ----------

  /** What a time round the sender's loop came to. */
  datatype Round = Idle | Busy | Sent | Failed

  /** What the peer's records say of a round. */
  ghost predicate Met(r: Records, r': Records, round: Round) {
    match round
    case Idle => r' == r
    case Busy => r' == r.(probes := r.probes + [DataWaiting])
    case Sent => r'.probes == r.probes + [NothingWaiting] && |r'.took| == |r.took| + 1 && r'.refused == r.refused
    case Failed =>
      || r' == r.(probes := r.probes + [ProbeFailed])
      || r' == r.(probes := r.probes + [NothingWaiting], refused := r.refused + 1)
  }

  ghost function Count(p: Probe, probes: seq<Probe>): nat {
    if probes == [] then 0
    else Count(p, probes[..|probes| - 1]) + if probes[|probes| - 1] == p then 1 else 0
  }

  /** Since `r` the peer took exactly what was sent, in this order, and every probe that found nothing waiting was
      followed by a message sent or refused. */
  ghost predicate Tally(r: Records, r': Records, sent: seq<Message>, sent': seq<Message>) {
    && r.probes <= r'.probes && sent <= sent'
    && r'.took == r.took + sent'[|sent|..]
    && |sent'| - |sent| + r'.refused - r.refused == Count(NothingWaiting, r'.probes[|r.probes|..])
  }

  lemma TallyNone(r: Records, sent: seq<Message>)
    ensures Tally(r, r, sent, sent)
  {
    assert r.probes[|r.probes|..] == [] && sent[|sent|..] == [];
  }

  lemma TallyOrder(r: Records, r': Records, sent: seq<Message>, sent': seq<Message>)
    requires Tally(r, r', sent, sent')
    ensures r.probes <= r'.probes
  {
  }

  lemma TallyRound(
    r0: Records, r: Records, r': Records, sent0: seq<Message>, sent: seq<Message>, sent': seq<Message>, round: Round)
    requires Tally(r0, r, sent0, sent) && Met(r, r', round)
    requires if round == Sent then sent <= sent' && |sent'| == |sent| + 1 && r'.took == r.took + [sent'[|sent|]]
             else sent' == sent
    ensures Tally(r0, r', sent0, sent')
    ensures round == Failed ==> r'.refused > r.refused || ProbeFailed in r'.probes[|r0.probes|..]
  {
    if round != Idle {
      var p := r'.probes[|r.probes|];
      var later := r'.probes[|r0.probes|..];
      assert later[..|later| - 1] == r.probes[|r0.probes|..] && later[|later| - 1] == p;
      assert sent'[|sent0|..] == sent[|sent0|..] + sent'[|sent|..];
    }
  }

  // ---------- failures ----------

  /** Every initialisation from number n on failed. */
  ghost predicate AllFailed(inits: seq<bool>, n: nat) { forall k :: n <= k < |inits| ==> !inits[k] }

  lemma AllFailedSnoc(inits: seq<bool>, n: nat, ok: bool)
    requires n <= |inits|
    ensures AllFailed(inits + [ok], n) <==> AllFailed(inits, n) && !ok
  {
    assert (inits + [ok])[|inits|] == ok;
    assert forall k :: 0 <= k < |inits| ==> (inits + [ok])[k] == inits[k];
  }

  /** Failures up to the end are failures in a row. */
  lemma {:induction false} FailuresAtEnd(inits: seq<bool>, n: nat)
    requires n <= |inits|
    ensures AllFailed(inits, n) ==> FailuresInARow(inits) >= |inits| - n
    decreases |inits|
  {
    if n < |inits| {
      FailuresAtEnd(inits[..|inits| - 1], n);
    }
  }
}
