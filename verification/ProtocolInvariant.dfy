/** The inductive invariant of the distributed system. */
module ProtocolInvariant {
  import opened Messages
  import opened Sums
  import opened ControllerModel
  import opened ControllerInvariants
  import opened ShutdownRuns
  import opened RunnerModel
  import opened ProtocolModel
  import opened ProtocolPlaces
  import opened StatusReplies

  predicate Executes(u: Setup, p: int) {
    p in u.roles && u.roles[p].Execute?
  }

  /** Every execute runner is in one of its situations. */
  ghost predicate AllPlaced(u: Setup, s: State, server: seq<RpcMessage>, runners: map<int, Progress>)
    requires runners.Keys == u.roles.Keys
  {
    forall p :: Executes(u, p) ==> Placed(s, server, runners[p], p, u.roles[p].userId)
  }

  /** A shutdown request that was sent is known to the controller or on its way. */
  ghost predicate RequestsArrive(u: Setup, y: System)
    requires y.runners.Keys == u.roles.Keys
  {
    forall p :: p in u.roles && u.roles[p] == Shutdown && y.runners[p].phase != Idle ==>
      y.ctl.shuttingDown || InTransit(y.server, p, SHUTDOWN_REQ) > 0
  }

  ghost predicate OnlyExecutorsExecute(u: Setup, y: System) {
    forall p :: p in y.runners && y.runners[p].phase.Executing? ==> Executes(u, p)
  }

  ghost predicate ReadsWereSent(y: System) {
    forall p :: p in y.runners ==> y.runners[p].read <= |To(y.ctl.sent, p)|
  }

  ghost predicate JobsOwned(u: Setup, s: State) {
    AllOwned(u, s.waiting) && AllOwned(u, s.running) && AllOwned(u, s.finished)
  }

  ghost predicate RequesterKnown(u: Setup, s: State) {
    s.shuttingDown ==> s.requester in u.roles && u.roles[s.requester] == Shutdown
  }

  ghost predicate SysInv(u: Setup, y: System) {
    && ValidSetup(u) && y.runners.Keys == u.roles.Keys
    && Inv(u.cfg, y.ctl) && JobsOwned(u, y.ctl) && RequesterKnown(u, y.ctl)
    && AllGenuine(u, y.server)
    && AllPlaced(u, y.ctl, y.server, y.runners)
    && RequestsArrive(u, y)
    && OnlyExecutorsExecute(u, y)
    && ReadsWereSent(y)
  }

  lemma StartInv(u: Setup)
    requires ValidSetup(u)
    ensures SysInv(u, NobodyStarted(u))
  {
  }

  // -------- runner steps --------

  lemma TransitAppend(server: seq<RpcMessage>, m: RpcMessage, p: int)
    ensures forall kind :: InTransit(server + [m], p, kind) == InTransit(server, p, kind) + SentBy(p, kind)(m)
  {
    forall kind { SumAppend(server, m, SentBy(p, kind)); }
  }

  /** A new message from m.senderPid, whose phase changes to phase, keeps the others placed. */
  lemma PlacesAfterSend(u: Setup, s: State, server: seq<RpcMessage>, runners: map<int, Progress>,
                        m: RpcMessage, r: Progress)
    requires runners.Keys == u.roles.Keys && m.senderPid in u.roles && AllPlaced(u, s, server, runners)
    requires Executes(u, m.senderPid) ==> Placed(s, server + [m], r, m.senderPid, u.roles[m.senderPid].userId)
    ensures AllPlaced(u, s, server + [m], runners[m.senderPid := r])
  {
    forall p | Executes(u, p) && p != m.senderPid
      ensures Placed(s, server + [m], runners[p], p, u.roles[p].userId)
    {
      TransitAppend(server, m, p);
    }
  }

  lemma RequestsAfterSend(u: Setup, y: System, m: RpcMessage, phase: Phase)
    requires y.runners.Keys == u.roles.Keys && m.senderPid in u.roles && RequestsArrive(u, y)
    requires u.roles[m.senderPid] == Shutdown ==> m.kind == SHUTDOWN_REQ
    ensures RequestsArrive(u, y.(server := y.server + [m],
                                 runners := y.runners[m.senderPid := y.runners[m.senderPid].(phase := phase)]))
  {
    forall p | p in u.roles && u.roles[p] == Shutdown && (y.runners[p].phase != Idle || p == m.senderPid)
      ensures y.ctl.shuttingDown || InTransit(y.server + [m], p, SHUTDOWN_REQ) > 0
    {
      TransitAppend(y.server, m, p);
    }
  }

  lemma BeginPlaces(s: State, server: seq<RpcMessage>, r: Progress, p: int, role: Role)
    requires role.Execute? && r.phase == Idle && Placed(s, server, r, p, role.userId)
    ensures Placed(s, server + [Request(p, role)], r.(phase := Awaiting), p, role.userId)
  {
    TransitAppend(server, Request(p, role), p);
  }

  lemma BeginKeepsInv(u: Setup, y: System, p: int)
    requires SysInv(u, y) && Enabled(y, Begin(p))
    ensures SysInv(u, Apply(u, y, Begin(p)))
  {
    var m := Request(p, u.roles[p]);
    if Executes(u, p) { BeginPlaces(y.ctl, y.server, y.runners[p], p, u.roles[p]); }
    PlacesAfterSend(u, y.ctl, y.server, y.runners, m, y.runners[p].(phase := Awaiting));
    RequestsAfterSend(u, y, m, Awaiting);
    assert AllGenuine(u, y.server + [m]);
  }

  lemma CompletePlaces(s: State, server: seq<RpcMessage>, r: Progress, p: int, w: int)
    requires r.phase.Executing? && Placed(s, server, r, p, w)
    ensures Placed(s, server + [DoneMessage(p, w, p)], r.(phase := Done), p, w)
    ensures r.phase == Executing(w, p)
  {
    TransitAppend(server, DoneMessage(p, w, p), p);
  }

  lemma CompleteKeepsInv(u: Setup, y: System, p: int)
    requires SysInv(u, y) && Enabled(y, Complete(p))
    ensures SysInv(u, Apply(u, y, Complete(p)))
  {
    assert Executes(u, p);
    var w := u.roles[p].userId;
    var m := DoneMessage(p, w, p);
    CompletePlaces(y.ctl, y.server, y.runners[p], p, w);
    PlacesAfterSend(u, y.ctl, y.server, y.runners, m, y.runners[p].(phase := Done));
    RequestsAfterSend(u, y, m, Done);
    assert AllGenuine(u, y.server + [m]);
  }

  lemma ReceivePlaces(s: State, server: seq<RpcMessage>, r: Progress, p: int, role: Role)
    requires role.Execute? && r.phase == Awaiting && r.read < |To(s.sent, p)| && Placed(s, server, r, p, role.userId)
    ensures Placed(s, server, Progress(OnReply(role, To(s.sent, p)[r.read]), r.read + 1), p, role.userId)
  {
  }

  lemma ReceiveKeepsInv(u: Setup, y: System, p: int)
    requires SysInv(u, y) && Enabled(y, Receive(p))
    ensures SysInv(u, Apply(u, y, Receive(p)))
  {
    if Executes(u, p) { ReceivePlaces(y.ctl, y.server, y.runners[p], p, u.roles[p]); }
    var y' := Apply(u, y, Receive(p));
    assert AllPlaced(u, y'.ctl, y'.server, y'.runners);
  }

  // -------- the controller step --------

  lemma PromoteOwned(u: Setup, s: State)
    requires JobsOwned(u, s) && s.waiting != []
    ensures JobsOwned(u, Promote(u.cfg, s))
  {
    assert Owned(u, s.waiting[PickIndex(u.cfg, s)]);
  }

  lemma DoneOwned(u: Setup, s: State, m: RpcMessage)
    requires ValidConfig(u.cfg) && WorkConserving(u.cfg, s) && JobsOwned(u, s)
    ensures JobsOwned(u, HandleDone(u.cfg, s, m))
  {
    var f := Finish(s, m.commandId);
    assert JobsOwned(u, f);
    DonePromotesOnce(u.cfg, s, m);
    if f.waiting != [] && f.runningCount < u.cfg.limit { PromoteOwned(u, f); }
  }

  lemma HandleOwned(u: Setup, s: State, m: RpcMessage)
    requires ValidConfig(u.cfg) && WorkConserving(u.cfg, s) && JobsOwned(u, s) && Genuine(u, m)
    ensures JobsOwned(u, Handle(u.cfg, s, m))
  {
    HandleIsProcess(u.cfg, s, m);
    if m.kind == SUBMIT {
      assert Owned(u, JobOf(m));
    } else if m.kind == DONE {
      DoneOwned(u, s, m);
    }
  }

  lemma HandleFlags(u: Setup, s: State, m: RpcMessage)
    requires ValidConfig(u.cfg) && WorkConserving(u.cfg, s) && RequesterKnown(u, s) && Genuine(u, m)
    ensures RequesterKnown(u, Handle(u.cfg, s, m))
    ensures Handle(u.cfg, s, m).shuttingDown <==> s.shuttingDown || m.kind == SHUTDOWN_REQ
  {
    HandleIsProcess(u.cfg, s, m);
    ProcessFlags(u.cfg, s, m);
  }

  lemma FinalAckPlaces(u: Setup, s: State, server: seq<RpcMessage>, r: Progress, p: int)
    requires RequesterKnown(u, s) && Executes(u, p) && Placed(s, server, r, p, u.roles[p].userId)
    ensures Placed(TryFinish(s), server, r, p, u.roles[p].userId)
  {
    if MustStop(s) {
      PlacedAfterOthers(s, [Envelope(s.requester, FinalAck)], server, r, p, u.roles[p].userId);
    }
  }

  lemma FlagsDoNotPlace(s: State, m: RpcMessage, server: seq<RpcMessage>, r: Progress, p: int, w: int)
    requires Placed(s, server, r, p, w)
    ensures Placed(HandleShutdownReq(s, m), server, r, p, w)
  {
  }

  lemma ProcessPlaces(u: Setup, s: State, server: seq<RpcMessage>, runners: map<int, Progress>, p: int)
    requires ValidConfig(u.cfg) && WorkConserving(u.cfg, s) && JobsOwned(u, s) && runners.Keys == u.roles.Keys
    requires server != [] && Genuine(u, server[0]) && AllPlaced(u, s, server, runners) && Executes(u, p)
    ensures Placed(Process(u.cfg, s, server[0]), server[1..], runners[p], p, u.roles[p].userId)
  {
    hide Placed, WorkConserving, AllOwned, HandleSubmit, HandleDone, StatusReply, ReadsAs;
    var m, r, w := server[0], runners[p], u.roles[p].userId;
    match m.kind
    case SUBMIT =>
      PlacedAfterSubmit(u, s, server, r, p, w);
    case DONE =>
      assert Executes(u, m.senderPid);
      PlacedAfterDone(u, s, server, r, runners[m.senderPid], p, w);
    case STATUS_REQ =>
      StatusReadsBack(u.cfg, s, m.senderPid);
      PlacedAfterOthers(s, StatusReply(u.cfg, s, m.senderPid), server, r, p, w);
      PlacedAfterHead(HandleStatusReq(u.cfg, s, m), server, r, p, w);
    case SHUTDOWN_REQ =>
      PlacedAfterHead(s, server, r, p, w);
      FlagsDoNotPlace(s, m, server[1..], r, p, w);
    case _ =>
  }

  lemma HandlePlaces(u: Setup, s: State, server: seq<RpcMessage>, runners: map<int, Progress>)
    requires ValidConfig(u.cfg) && WorkConserving(u.cfg, s) && JobsOwned(u, s) && RequesterKnown(u, s)
    requires runners.Keys == u.roles.Keys
    requires server != [] && Genuine(u, server[0]) && AllPlaced(u, s, server, runners)
    ensures AllPlaced(u, Handle(u.cfg, s, server[0]), server[1..], runners)
  {
    var m := server[0];
    forall p | Executes(u, p)
      ensures Placed(Handle(u.cfg, s, m), server[1..], runners[p], p, u.roles[p].userId)
    {
      if MustRefuse(s, m) {
        PlacedAfterRefusal(u, s, server, runners[p], p, u.roles[p].userId);
      } else {
        ProcessPlaces(u, s, server, runners, p);
        ProcessFlags(u.cfg, s, m);
        FinalAckPlaces(u, Process(u.cfg, s, m), server[1..], runners[p], p);
      }
    }
  }

  lemma MoreWasSent(a: seq<Envelope>, b: seq<Envelope>, p: int)
    requires a <= b
    ensures To(a, p) <= To(b, p)
  {
    assert b == a + b[|a|..];
    ToConcat(a, b[|a|..], p);
  }

  lemma ReadKeepsRequests(u: Setup, y: System, ctl: State)
    requires y.runners.Keys == u.roles.Keys && RequestsArrive(u, y) && y.server != []
    requires ctl.shuttingDown <==> y.ctl.shuttingDown || y.server[0].kind == SHUTDOWN_REQ
    ensures RequestsArrive(u, y.(ctl := ctl, server := y.server[1..]))
  {
    forall p | p in u.roles && u.roles[p] == Shutdown && y.runners[p].phase != Idle && !ctl.shuttingDown
      ensures InTransit(y.server[1..], p, SHUTDOWN_REQ) > 0
    {
      TransitHead(y.server, p);
    }
  }

  lemma ReadKeepsInv(u: Setup, y: System)
    requires SysInv(u, y) && Enabled(y, ReadOne)
    ensures SysInv(u, Apply(u, y, ReadOne))
  {
    var ctl := Handle(u.cfg, y.ctl, y.server[0]);
    HandleKeepsInv(u.cfg, y.ctl, y.server[0]);
    HandleOwned(u, y.ctl, y.server[0]);
    HandleFlags(u, y.ctl, y.server[0]);
    HandlePlaces(u, y.ctl, y.server, y.runners);
    ReadKeepsRequests(u, y, ctl);
    HandleGrows(u.cfg, y.ctl, y.server[0]);
    forall p { MoreWasSent(y.ctl.sent, ctl.sent, p); }
  }

  lemma StepKeepsInv(u: Setup, y: System, step: Step)
    requires SysInv(u, y) && Enabled(y, step)
    ensures SysInv(u, Apply(u, y, step))
  {
    match step
    case Begin(p) => BeginKeepsInv(u, y, p);
    case Receive(p) => ReceiveKeepsInv(u, y, p);
    case Complete(p) => CompleteKeepsInv(u, y, p);
    case ReadOne => ReadKeepsInv(u, y);
  }

  lemma {:induction false} RunKeepsSysInv(u: Setup, y: System, steps: seq<Step>)
    requires SysInv(u, y) && IsRun(u, y, steps)
    ensures SysInv(u, After(u, y, steps))
    decreases |steps|
  {
    if steps != [] {
      StepKeepsInv(u, y, steps[0]);
      RunKeepsSysInv(u, Apply(u, y, steps[0]), steps[1..]);
    }
  }
}
