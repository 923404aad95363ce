/** The histories of the controller are what went in and out: accepted jobs are the
    admitted SUBMIT messages, authorized jobs are the ACK messages sent. */
module Histories {
  import opened Messages
  import opened ControllerModel
  import opened ControllerInvariants

  // -------- admission --------

  /** The submissions among msgs up to the first shutdown request, as jobs. Like AcksOf it
      is spelled out field by field, so that the claims about messages do not rest on how
      the controller builds a job or a reply. */
  function Admitted(msgs: seq<RpcMessage>): seq<Job> {
    if msgs == [] || msgs[0].kind == SHUTDOWN_REQ then []
    else if msgs[0].kind == SUBMIT
    then [Job(msgs[0].commandId, msgs[0].userId, msgs[0].senderPid)] + Admitted(msgs[1..])
    else Admitted(msgs[1..])
  }

  lemma AdmittedOne(m: RpcMessage)
    ensures Admitted([m]) == if m.kind == SUBMIT then [Job(m.commandId, m.userId, m.senderPid)] else []
  {
    assert [m][1..] == [];
  }

  lemma HandleAdmits(cfg: Config, s: State, m: RpcMessage)
    requires ValidConfig(cfg) && WorkConserving(cfg, s)
    ensures var t := Handle(cfg, s, m);
            && t.accepted == s.accepted + (if s.shuttingDown then [] else Admitted([m]))
            && t.shuttingDown == (s.shuttingDown || m.kind == SHUTDOWN_REQ)
  {
    hide StartWaiting, Remember, StatusReply, Admitted, Choose, IndexOfCommand, RemoveAt;
    AdmittedOne(m);
    if m.kind == DONE { DonePromotesOnce(cfg, s, m); }
  }

  lemma AdmittedNext(m: RpcMessage, rest: seq<RpcMessage>)
    ensures Admitted([m] + rest) == Admitted([m]) + if m.kind == SHUTDOWN_REQ then [] else Admitted(rest)
  {
    assert [m][1..] == [] && ([m] + rest)[1..] == rest;
  }

  /** A run accepts exactly the submissions before the first shutdown request, in order. */
  lemma {:induction false} RunAdmits(cfg: Config, s: State, msgs: seq<RpcMessage>)
    requires Inv(cfg, s) && s.keepRunning
    ensures Run(cfg, s, msgs).accepted == s.accepted + if s.shuttingDown then [] else Admitted(msgs)
    decreases |msgs|
  {
    hide Handle, Admitted, Conserving, Registered;
    if msgs == [] {
      NothingAdmitted();
    } else {
      var t := Handle(cfg, s, msgs[0]);
      HandleAdmits(cfg, s, msgs[0]);
      HandleKeepsInv(cfg, s, msgs[0]);
      AdmittedNext(msgs[0], msgs[1..]);
      assert msgs == [msgs[0]] + msgs[1..];
      if t.keepRunning { RunAdmits(cfg, t, msgs[1..]); }
    }
  }

  lemma NothingAdmitted()
    ensures Admitted([]) == []
  {
  }

  // -------- acknowledgements --------

  /** The ACK messages among those sent, in order. */
  function AcksIn(sent: seq<Envelope>): seq<Envelope> {
    if sent == [] then [] else
      var n := |sent| - 1;
      if sent[n].msg.kind == ACK then AcksIn(sent[..n]) + [sent[n]] else AcksIn(sent[..n])
  }

  lemma {:induction false} AcksInMore(sent: seq<Envelope>, more: seq<Envelope>)
    ensures AcksIn(sent + more) == AcksIn(sent) + AcksIn(more)
    decreases |more|
  {
    if more == [] {
      assert sent + more == sent;
    } else {
      var n := |more| - 1;
      assert (sent + more)[..|sent + more| - 1] == sent + more[..n];
      AcksInMore(sent, more[..n]);
    }
  }

  lemma {:induction false} NoAcksIn(sent: seq<Envelope>)
    requires forall i :: 0 <= i < |sent| ==> sent[i].msg.kind != ACK
    ensures AcksIn(sent) == []
  {
    if sent != [] { NoAcksIn(sent[..|sent| - 1]); }
  }

  /** What each authorized job's runner is told: its own user and command. */
  function AcksOf(cfg: Config, jobs: seq<Job>): seq<Envelope> {
    seq(|jobs|, i requires 0 <= i < |jobs| =>
      Envelope(jobs[i].runnerPid, RpcMessage(ACK, cfg.pid, jobs[i].userId, jobs[i].commandId, Blank)))
  }

  ghost predicate AcksSent(cfg: Config, s: State) {
    AcksIn(s.sent) == AcksOf(cfg, s.acked)
  }

  lemma AuthorizeAcks(cfg: Config, s: State, j: Job)
    requires AcksSent(cfg, s)
    ensures AcksSent(cfg, Authorize(cfg, s, j))
  {
    AcksInMore(s.sent, [AckFor(cfg, j)]);
    assert AcksIn([AckFor(cfg, j)]) == [AckFor(cfg, j)];
    assert AcksOf(cfg, s.acked + [j]) == AcksOf(cfg, s.acked) + [AckFor(cfg, j)];
  }

  lemma SendingNoAcks(cfg: Config, s: State, more: seq<Envelope>)
    requires AcksSent(cfg, s) && forall i :: 0 <= i < |more| ==> more[i].msg.kind != ACK
    ensures AcksSent(cfg, s.(sent := s.sent + more))
  {
    AcksInMore(s.sent, more);
    NoAcksIn(more);
  }

  lemma StatusHasNoAcks(cfg: Config, to: int, run: seq<Job>, wait: seq<Job>)
    ensures var msgs := StatusMessages(cfg, to, run, wait);
            forall i :: 0 <= i < |msgs| ==> msgs[i].msg.kind != ACK
  {
  }

  lemma DoneAcks(cfg: Config, s: State, id: int)
    requires AcksSent(cfg, s)
    ensures AcksSent(cfg, DoneOnce(cfg, s, id))
  {
    hide AcksIn, AcksOf, Authorize, PickIndex;
    var f := Finish(s, id);
    if f.waiting != [] && f.runningCount < cfg.limit {
      var i := PickIndex(cfg, f);
      var draws := if Random(cfg) then f.draws + 1 else f.draws;
      AuthorizeAcks(cfg, f.(waiting := RemoveAt(f.waiting, i), draws := draws), f.waiting[i]);
    }
  }

  lemma ProcessAcks(cfg: Config, s: State, m: RpcMessage)
    requires ValidConfig(cfg) && WorkConserving(cfg, s) && AcksSent(cfg, s)
    ensures AcksSent(cfg, Process(cfg, s, m))
  {
    hide AcksIn, AcksOf, Authorize, DoneOnce, HandleDone, StatusMessages, WorkConserving;
    match m.kind
    case SUBMIT =>
      var j := JobOf(m);
      AuthorizeAcks(cfg, s.(ring := Remember(s.ring, j.userId), accepted := s.accepted + [j]), j);
    case DONE =>
      DonePromotesOnce(cfg, s, m);
      DoneAcks(cfg, s, m.commandId);
    case STATUS_REQ =>
      StatusHasNoAcks(cfg, m.senderPid, s.running, Snapshot(cfg, s));
      SendingNoAcks(cfg, s, StatusReply(cfg, s, m.senderPid));
    case _ =>
  }

  lemma HandleAcks(cfg: Config, s: State, m: RpcMessage)
    requires ValidConfig(cfg) && WorkConserving(cfg, s) && AcksSent(cfg, s)
    ensures AcksSent(cfg, Handle(cfg, s, m))
  {
    hide AcksIn, AcksOf, Process, WorkConserving;
    if MustRefuse(s, m) {
      SendingNoAcks(cfg, s, [RefusalFor(cfg, m)]);
    } else {
      ProcessAcks(cfg, s, m);
      var p := Process(cfg, s, m);
      if MustStop(p) { SendingNoAcks(cfg, p, [Envelope(p.requester, FinalAck)]); }
    }
  }

  /** In every run the ACK messages sent are exactly one for each authorized job, in the
      order of authorization, to the runner that submitted it. */
  lemma {:induction false} RunAcks(cfg: Config, s: State, msgs: seq<RpcMessage>)
    requires Inv(cfg, s) && AcksSent(cfg, s)
    ensures AcksSent(cfg, Run(cfg, s, msgs))
    decreases |msgs|
  {
    hide Handle, AcksSent, Conserving, Registered;
    if msgs != [] && s.keepRunning {
      HandleAcks(cfg, s, msgs[0]);
      HandleKeepsInv(cfg, s, msgs[0]);
      RunAcks(cfg, Handle(cfg, s, msgs[0]), msgs[1..]);
    }
  }

  // -------- the controller from outside --------

  lemma AcksOfPrefix(cfg: Config, a: seq<Job>, b: seq<Job>)
    requires a <= b
    ensures AcksOf(cfg, a) <= AcksOf(cfg, b)
  {
  }

  /** First come, first served, in terms of messages only: with any policy but random and
      fair, the ACK messages answer a prefix of the admitted submissions in order. */
  lemma FirstComeFirstServed(cfg: Config, msgs: seq<RpcMessage>)
    requires ValidConfig(cfg) && !Random(cfg) && !Fair(cfg)
    ensures AcksIn(Run(cfg, Initial, msgs).sent) <= AcksOf(cfg, Admitted(msgs))
  {
    hide Run, AcksIn, AcksOf, Admitted;
    InitialInv(cfg);
    InitialAcks(cfg);
    RunAcks(cfg, Initial, msgs);
    RunAdmits(cfg, Initial, msgs);
    RunKeepsOrder(cfg, Initial, msgs);
    var e := Run(cfg, Initial, msgs);
    assert e.accepted == [] + Admitted(msgs) == Admitted(msgs);
    AcksOfPrefix(cfg, e.acked, e.accepted);
  }

  lemma InitialAcks(cfg: Config)
    ensures AcksSent(cfg, Initial)
  {
  }

  /** Under fair, the same for the submissions of each user. */
  lemma FairPerUser(cfg: Config, msgs: seq<RpcMessage>, u: int)
    requires ValidConfig(cfg) && Fair(cfg)
    ensures var e := Run(cfg, Initial, msgs);
            && AcksIn(e.sent) == AcksOf(cfg, e.acked)
            && Of(e.acked, u) <= Of(Admitted(msgs), u)
  {
    hide Run, AcksIn, AcksOf, Admitted, Of;
    InitialInv(cfg);
    InitialAcks(cfg);
    RunAcks(cfg, Initial, msgs);
    RunAdmits(cfg, Initial, msgs);
    InitialUserOrder();
    RunKeepsUserOrder(cfg, Initial, msgs);
    var e := Run(cfg, Initial, msgs);
    assert e.accepted == [] + Admitted(msgs) == Admitted(msgs);
    assert UserInOrder(e, u);
  }

  lemma InitialUserOrder()
    ensures InOrderPerUser(Initial)
  {
  }
}
