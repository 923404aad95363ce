/** What becomes of the runners that only ask: for shutdown or for the status. */
module ProtocolReaders {
  import opened Messages
  import opened ControllerModel
  import opened ControllerInvariants
  import opened ShutdownRuns
  import opened StatusReplies
  import opened RunnerModel
  import opened ProtocolModel
  import opened ProtocolPlaces
  import opened ProtocolInvariant

  /** Everything that a shutdown runner is ever sent. */
  function AnswerTo(s: State, p: int): seq<RpcMessage> {
    if !s.keepRunning && s.requester == p then [FinalAck] else []
  }

  ghost predicate ShutdownPlaced(s: State, r: Progress, p: int) {
    && To(s.sent, p) == AnswerTo(s, p)
    && match r.phase
       case Idle => r.read == 0
       case Awaiting => r.read == 0
       case Done => r.read == |AnswerTo(s, p)| == 1
       case _ => false
  }

  /** A status runner's request is on its way, or it was sent one whole reply. */
  ghost predicate StatusPlaced(s: State, server: seq<RpcMessage>, r: Progress, p: int) {
    var asks, replies := InTransit(server, p, STATUS_REQ), To(s.sent, p);
    match r.phase
    case Idle => asks == |replies| == r.read == 0
    case Awaiting => (asks == 1 && |replies| == r.read == 0) || (asks == 0 && Closes(replies) && r.read < |replies|)
    case Done => asks == 0 && Closes(replies) && r.read == |replies|
    case _ => false
  }

  ghost predicate ReaderPlaced(role: Role, s: State, server: seq<RpcMessage>, r: Progress, p: int) {
    match role
    case Shutdown => ShutdownPlaced(s, r, p)
    case Status => StatusPlaced(s, server, r, p)
    case Execute(_, _) => true
  }

  ghost predicate ReadersPlaced(u: Setup, y: System)
    requires y.runners.Keys == u.roles.Keys
  {
    forall p :: p in u.roles ==> ReaderPlaced(u.roles[p], y.ctl, y.server, y.runners[p], p)
  }

  // -------- runner steps --------

  lemma OthersAfterSend(role: Role, s: State, server: seq<RpcMessage>, r: Progress, p: int, m: RpcMessage)
    requires ReaderPlaced(role, s, server, r, p) && m.senderPid != p
    ensures ReaderPlaced(role, s, server + [m], r, p)
  {
    TransitAppend(server, m, p);
  }

  lemma BeginReader(role: Role, s: State, server: seq<RpcMessage>, r: Progress, p: int)
    requires ReaderPlaced(role, s, server, r, p) && r.phase == Idle
    ensures ReaderPlaced(role, s, server + [Request(p, role)], r.(phase := Awaiting), p)
  {
    TransitAppend(server, Request(p, role), p);
  }

  lemma ReceiveReader(role: Role, s: State, server: seq<RpcMessage>, r: Progress, p: int)
    requires ReaderPlaced(role, s, server, r, p) && r.phase == Awaiting && r.read < |To(s.sent, p)|
    ensures ReaderPlaced(role, s, server, Progress(OnReply(role, To(s.sent, p)[r.read]), r.read + 1), p)
  {
  }

  // -------- the controller step --------

  lemma ToAll(sent: seq<Envelope>, p: int)
    requires forall i :: 0 <= i < |sent| ==> sent[i].to == p
    ensures To(sent, p) == Bodies(sent)
  {
    if sent != [] {
      var n := |sent| - 1;
      ToAll(sent[..n], p);
      assert Bodies(sent) == Bodies(sent[..n]) + [sent[n].msg];
    }
  }

  predicate OnlyAsks(u: Setup, p: int) { p in u.roles && !u.roles[p].Execute? }

  /** Permissions go to execute runners. */
  lemma DoneSendsOthers(u: Setup, s: State, id: int, p: int)
    requires AllOwned(u, s.waiting) && OnlyAsks(u, p)
    ensures To(DoneOnce(u.cfg, s, id).sent, p) == To(s.sent, p)
  {
    hide Choose, IndexOfCommand;
    var f := Finish(s, id);
    if f.waiting != [] && f.runningCount < u.cfg.limit {
      var j := f.waiting[PickIndex(u.cfg, f)];
      assert Owned(u, j);
      ToNext(f.sent, AckFor(u.cfg, j), p);
    }
  }

  /** What processing one message sends to a runner that only asks. */
  lemma ProcessSends(u: Setup, s: State, m: RpcMessage, p: int)
    requires ValidConfig(u.cfg) && WorkConserving(u.cfg, s) && AllOwned(u, s.waiting)
    requires Genuine(u, m) && OnlyAsks(u, p)
    ensures To(Process(u.cfg, s, m).sent, p)
         == To(s.sent, p) + if m.kind == STATUS_REQ && m.senderPid == p then Bodies(StatusReply(u.cfg, s, p)) else []
  {
    hide To, DoneOnce, HandleDone, StatusReply, WorkConserving, Remember;
    match m.kind
    case SUBMIT => ToNext(s.sent, AckFor(u.cfg, JobOf(m)), p);
    case DONE =>
      DonePromotesOnce(u.cfg, s, m);
      DoneSendsOthers(u, s, m.commandId, p);
    case STATUS_REQ =>
      var reply := StatusReply(u.cfg, s, m.senderPid);
      StatusReadsBack(u.cfg, s, m.senderPid);
      ToConcat(s.sent, reply, p);
      if m.senderPid == p { ToAll(reply, p); } else { ToNobody(reply, p); }
    case _ =>
  }

  /** The same for handling it: a refusal goes to an execute runner, and the final
      acknowledgement to the last requester. */
  lemma HandleSends(u: Setup, s: State, m: RpcMessage, p: int)
    requires ValidConfig(u.cfg) && WorkConserving(u.cfg, s) && AllOwned(u, s.waiting) && s.keepRunning
    requires Genuine(u, m) && OnlyAsks(u, p)
    ensures var t := Handle(u.cfg, s, m);
            To(t.sent, p) == To(s.sent, p)
                           + (if m.kind == STATUS_REQ && m.senderPid == p then Bodies(StatusReply(u.cfg, s, p)) else [])
                           + AnswerTo(t, p)
  {
    hide To, Process, StatusReply, WorkConserving;
    if MustRefuse(s, m) {
      ToNext(s.sent, RefusalFor(u.cfg, m), p);
    } else {
      ProcessFlags(u.cfg, s, m);
      ProcessSends(u, s, m, p);
      var q := Process(u.cfg, s, m);
      if MustStop(q) { ToNext(q.sent, Envelope(q.requester, FinalAck), p); }
    }
  }

  lemma ReadPlacesShutdown(u: Setup, s: State, m: RpcMessage, r: Progress, p: int)
    requires ValidConfig(u.cfg) && WorkConserving(u.cfg, s) && AllOwned(u, s.waiting) && s.keepRunning
    requires Genuine(u, m) && p in u.roles && u.roles[p] == Shutdown && ShutdownPlaced(s, r, p)
    ensures ShutdownPlaced(Handle(u.cfg, s, m), r, p)
  {
    hide Handle, To, WorkConserving;
    HandleSends(u, s, m, p);
  }

  lemma ReadPlacesStatus(u: Setup, s: State, server: seq<RpcMessage>, r: Progress, p: int)
    requires ValidConfig(u.cfg) && WorkConserving(u.cfg, s) && AllOwned(u, s.waiting)
    requires s.keepRunning && RequesterKnown(u, s)
    requires server != [] && Genuine(u, server[0])
    requires p in u.roles && u.roles[p] == Status && StatusPlaced(s, server, r, p)
    ensures StatusPlaced(Handle(u.cfg, s, server[0]), server[1..], r, p)
  {
    hide Handle, To, WorkConserving, StatusReply, ReadsAs;
    var m := server[0];
    HandleSends(u, s, m, p);
    HandleFlags(u, s, m);
    StoppedIsAsked(u.cfg, s, m);
    TransitHead(server, p);
    StatusCloses(u.cfg, s, p);
  }

  lemma StatusCloses(cfg: Config, s: State, p: int)
    ensures Closes(Bodies(StatusReply(cfg, s, p)))
  {
    StatusReadsBack(cfg, s, p);
  }

  lemma StoppedIsAsked(cfg: Config, s: State, m: RpcMessage)
    requires ValidConfig(cfg) && WorkConserving(cfg, s) && s.keepRunning
    ensures !Handle(cfg, s, m).keepRunning ==> Handle(cfg, s, m).shuttingDown
  {
    hide Process;
    ProcessFlags(cfg, s, m);
  }

  lemma ReadKeepsReaders(u: Setup, y: System)
    requires SysInv(u, y) && ReadersPlaced(u, y) && Enabled(y, ReadOne)
    ensures ReadersPlaced(u, Apply(u, y, ReadOne))
  {
    hide Handle, To, Placed, StatusPlaced, ShutdownPlaced, Conserving, Registered;
    var m := y.server[0];
    forall p | p in u.roles
      ensures ReaderPlaced(u.roles[p], Handle(u.cfg, y.ctl, m), y.server[1..], y.runners[p], p)
    {
      match u.roles[p]
      case Shutdown => ReadPlacesShutdown(u, y.ctl, m, y.runners[p], p);
      case Status => ReadPlacesStatus(u, y.ctl, y.server, y.runners[p], p);
      case _ =>
    }
  }

  lemma SendKeepsReaders(u: Setup, y: System, m: RpcMessage, r: Progress)
    requires y.runners.Keys == u.roles.Keys && m.senderPid in u.roles && ReadersPlaced(u, y)
    requires ReaderPlaced(u.roles[m.senderPid], y.ctl, y.server + [m], r, m.senderPid)
    ensures ReadersPlaced(u, y.(server := y.server + [m], runners := y.runners[m.senderPid := r]))
  {
    hide ReaderPlaced;
    forall p | p in u.roles && p != m.senderPid
      ensures ReaderPlaced(u.roles[p], y.ctl, y.server + [m], y.runners[p], p)
    {
      OthersAfterSend(u.roles[p], y.ctl, y.server, y.runners[p], p, m);
    }
  }

  lemma StepKeepsReaders(u: Setup, y: System, step: Step)
    requires SysInv(u, y) && ReadersPlaced(u, y) && Enabled(y, step)
    ensures ReadersPlaced(u, Apply(u, y, step))
  {
    hide StatusPlaced, ShutdownPlaced, Placed, Inv, JobsOwned, AllGenuine;
    match step
    case Begin(p) =>
      BeginReader(u.roles[p], y.ctl, y.server, y.runners[p], p);
      SendKeepsReaders(u, y, Request(p, u.roles[p]), y.runners[p].(phase := Awaiting));
    case Complete(p) =>
      assert Executes(u, p);
      var phase := y.runners[p].phase;
      SendKeepsReaders(u, y, DoneMessage(p, phase.userId, phase.commandId), y.runners[p].(phase := Done));
    case Receive(p) => ReceiveReader(u.roles[p], y.ctl, y.server, y.runners[p], p);
    case ReadOne => ReadKeepsReaders(u, y);
  }

  lemma {:induction false} RunKeepsReaders(u: Setup, y: System, steps: seq<Step>)
    requires SysInv(u, y) && ReadersPlaced(u, y) && IsRun(u, y, steps)
    ensures SysInv(u, After(u, y, steps)) && ReadersPlaced(u, After(u, y, steps))
    decreases |steps|
  {
    hide SysInv, ReaderPlaced;
    if steps != [] {
      StepKeepsReaders(u, y, steps[0]);
      StepKeepsInv(u, y, steps[0]);
      RunKeepsReaders(u, Apply(u, y, steps[0]), steps[1..]);
    }
  }

  lemma StartReaders(u: Setup)
    requires ValidSetup(u)
    ensures ReadersPlaced(u, NobodyStarted(u))
  {
  }
}
