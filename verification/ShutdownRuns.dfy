/** What a shutdown request fixes: no more admissions, a known remaining order, one
    final acknowledgement. */
module ShutdownRuns {
  import opened Messages
  import opened FairPolicy
  import opened ControllerModel
  import opened ControllerInvariants
  import opened FairRuns

  // -------- the remaining order --------

  /** The order in which the waiting jobs would be authorized if none were added. */
  function Order(cfg: Config, s: State): seq<Job> {
    if Fair(cfg) then FairOrder(s.waiting, s.ring, s.last) else s.waiting
  }

  ghost predicate SentinelWaits(s: State) {
    exists i :: 0 <= i < |s.waiting| && s.waiting[i].userId == -1
  }

  /** A status reply lists the whole order, except under the fair policy when a job of
      user -1 waits: then it lists what comes before that user's first turn. */
  lemma SnapshotIsOrder(cfg: Config, s: State)
    ensures Snapshot(cfg, s) <= Order(cfg, s)
    ensures Snapshot(cfg, s) == Order(cfg, s) <==> !Fair(cfg) || !SentinelWaits(s)
  {
    var order := FairOrder(s.waiting, s.ring, s.last);
    FairOrderPermutes(s.waiting, s.ring, s.last);
    if Fair(cfg) && SentinelWaits(s) {
      var i :| 0 <= i < |s.waiting| && s.waiting[i].userId == -1;
      assert s.waiting[i] in multiset(s.waiting);
      assert s.waiting[i] in order;
    } else if |BeforeSentinel(order)| < |order| {
      assert order[|BeforeSentinel(order)|] in multiset(s.waiting);
    }
  }

  function Submission(pid: int, userId: int): RpcMessage {
    RpcMessage(SUBMIT, pid, userId, pid, Blank)
  }

  lemma RunNext(cfg: Config, s: State, m: RpcMessage, rest: seq<RpcMessage>)
    requires s.keepRunning
    ensures Run(cfg, s, [m] + rest) == Run(cfg, Handle(cfg, s, m), rest)
  {
    hide Handle;
    assert ([m] + rest)[0] == m && ([m] + rest)[1..] == rest;
  }

  /** Two submissions are enough for the list to be empty while a job waits: with one slot
      the job of user 1 runs, and the job of user -1 is not listed. */
  lemma SentinelHidesJobs(cfg: Config)
    requires Fair(cfg) && cfg.limit == 1
    ensures var s := Run(cfg, Initial, [Submission(6, 1), Submission(7, -1)]);
            && s.running == [Job(6, 1, 6)] && s.waiting == [Job(7, -1, 7)]
            && Snapshot(cfg, s) == [] && Order(cfg, s) == [Job(7, -1, 7)]
  {
    var a, b := Submission(6, 1), Submission(7, -1);
    RunNext(cfg, Initial, a, [b]);
    RunNext(cfg, Handle(cfg, Initial, a), b, []);
    assert [a] + [b] == [a, b] && [b] + [] == [b];
    var j := Job(7, -1, 7);
    assert RemoveAt([j], 0) == [];
    var order := FairOrder([j], [1, -1], 1);
    assert order == [j];
  }

  lemma EffectFollowsOrder(cfg: Config, s: State, t: State, e: Effect)
    requires HasEffect(cfg, s, t, e) && (e.Quiet? || e.Serve?) && !Random(cfg)
    ensures |s.acked| <= |t.acked| && Order(cfg, s) == Acks(s, t) + Order(cfg, t)
    ensures t.accepted == s.accepted && t.ring == s.ring
  {
    if e.Serve? {
      assert Acks(s, t) == [s.waiting[e.index]];
    }
  }

  lemma OrderChain(a: seq<Job>, b: seq<Job>, c: seq<Job>, s: State, t: State, e: State)
    requires Grows(s, t) && Grows(t, e)
    requires a == Acks(s, t) + b && b == Acks(t, e) + c
    ensures a == Acks(s, e) + c
  {
    assert e.acked[..|t.acked|] == t.acked;
    assert Acks(s, e) == Acks(s, t) + Acks(t, e);
  }

  /** Once shutting down, nothing is admitted and the authorizations follow the order
      that was fixed when the shutdown began, whatever messages arrive. */
  lemma {:induction false} OrderIsFixed(cfg: Config, s: State, msgs: seq<RpcMessage>)
    requires Inv(cfg, s) && s.shuttingDown && !Random(cfg)
    ensures var e := Run(cfg, s, msgs);
            && Grows(s, e) && e.accepted == s.accepted && e.ring == s.ring
            && Order(cfg, s) == Acks(s, e) + Order(cfg, e)
    decreases |msgs|
  {
    if msgs == [] || !s.keepRunning {
      assert Acks(s, s) + Order(cfg, s) == Order(cfg, s);
    } else {
      var t := Handle(cfg, s, msgs[0]);
      var e := Run(cfg, t, msgs[1..]);
      var effect := HandleEffect(cfg, s, msgs[0]);
      StaysShuttingDown(cfg, s, msgs[0]);
      HandleKeepsInv(cfg, s, msgs[0]);
      EffectGrows(cfg, s, t, effect);
      EffectFollowsOrder(cfg, s, t, effect);
      OrderIsFixed(cfg, t, msgs[1..]);
      OrderChain(Order(cfg, s), Order(cfg, t), Order(cfg, e), s, t, e);
    }
  }

  lemma StaysShuttingDown(cfg: Config, s: State, m: RpcMessage)
    requires ValidConfig(cfg) && WorkConserving(cfg, s) && s.shuttingDown
    ensures Handle(cfg, s, m).shuttingDown
  {
    if m.kind == DONE { DonePromotesOnce(cfg, s, m); }
  }

  /** After a shutdown request the status reply predicts the future exactly: later
      authorizations are a prefix of its Scheduled list, and all of it once drained. */
  lemma SnapshotPredicts(cfg: Config, s: State, msgs: seq<RpcMessage>)
    requires Inv(cfg, s) && s.shuttingDown && !Random(cfg)
    requires Fair(cfg) ==> !SentinelWaits(s)
    ensures var e := Run(cfg, s, msgs);
            && Grows(s, e) && e.accepted == s.accepted
            && Acks(s, e) <= Snapshot(cfg, s)
            && (e.waiting == [] ==> Acks(s, e) == Snapshot(cfg, s))
  {
    OrderIsFixed(cfg, s, msgs);
    SnapshotIsOrder(cfg, s);
  }

  // -------- the final acknowledgement --------

  /** The sender of the most recent SHUTDOWN_REQ, -1 when there is none. */
  function LastRequester(seen: seq<RpcMessage>): int {
    if seen == [] then -1
    else if seen[|seen| - 1].kind == SHUTDOWN_REQ then seen[|seen| - 1].senderPid
    else LastRequester(seen[..|seen| - 1])
  }

  ghost predicate Requested(seen: seq<RpcMessage>) {
    exists i :: 0 <= i < |seen| && seen[i].kind == SHUTDOWN_REQ
  }

  ghost predicate NoFinalAck(sent: seq<Envelope>) {
    forall i :: 0 <= i < |sent| ==> sent[i].msg != FinalAck
  }

  /** Before the controller stops no final acknowledgement was sent; when it stops the
      last message sent is the only one, addressed to the last requester. */
  ghost predicate AcksShutdownOnce(s: State, seen: seq<RpcMessage>) {
    && (s.shuttingDown <==> Requested(seen))
    && s.requester == LastRequester(seen)
    && (s.keepRunning ==> NoFinalAck(s.sent))
    && (!s.keepRunning ==>
          && |s.sent| >= 1
          && s.sent[|s.sent| - 1] == Envelope(LastRequester(seen), FinalAck)
          && NoFinalAck(s.sent[..|s.sent| - 1]))
  }

  lemma ProcessSendsNoFinalAck(cfg: Config, s: State, m: RpcMessage)
    requires ValidConfig(cfg) && WorkConserving(cfg, s) && NoFinalAck(s.sent)
    ensures NoFinalAck(Process(cfg, s, m).sent)
  {
    hide Choose, Snapshot, StatusMessages, Remember, IndexOfCommand, RemoveAt;
    match m.kind
    case DONE => DonePromotesOnce(cfg, s, m);
    case STATUS_REQ => StatusIsNoFinalAck(cfg, m.senderPid, s.running, Snapshot(cfg, s));
    case _ =>
  }

  lemma StatusIsNoFinalAck(cfg: Config, to: int, run: seq<Job>, wait: seq<Job>)
    ensures NoFinalAck(StatusMessages(cfg, to, run, wait))
  {
    assert NoFinalAck(StatusLines(cfg, to, run));
    assert NoFinalAck(StatusLines(cfg, to, wait));
  }

  lemma RequestsNext(seen: seq<RpcMessage>, m: RpcMessage)
    ensures Requested(seen + [m]) <==> Requested(seen) || m.kind == SHUTDOWN_REQ
    ensures LastRequester(seen + [m]) == if m.kind == SHUTDOWN_REQ then m.senderPid else LastRequester(seen)
  {
    assert (seen + [m])[..|seen|] == seen;
    if Requested(seen) {
      var i :| 0 <= i < |seen| && seen[i].kind == SHUTDOWN_REQ;
      assert (seen + [m])[i].kind == SHUTDOWN_REQ;
    }
    if m.kind == SHUTDOWN_REQ {
      assert (seen + [m])[|seen|].kind == SHUTDOWN_REQ;
    }
  }

  lemma ProcessFlags(cfg: Config, s: State, m: RpcMessage)
    requires ValidConfig(cfg) && WorkConserving(cfg, s)
    ensures var p := Process(cfg, s, m);
            && p.shuttingDown == (s.shuttingDown || m.kind == SHUTDOWN_REQ)
            && p.requester == (if m.kind == SHUTDOWN_REQ then m.senderPid else s.requester)
            && p.keepRunning == s.keepRunning
  {
    if m.kind == DONE { DonePromotesOnce(cfg, s, m); }
  }

  lemma HandleAcksShutdownOnce(cfg: Config, s: State, m: RpcMessage, seen: seq<RpcMessage>)
    requires ValidConfig(cfg) && WorkConserving(cfg, s) && s.keepRunning && AcksShutdownOnce(s, seen)
    ensures AcksShutdownOnce(Handle(cfg, s, m), seen + [m])
  {
    RequestsNext(seen, m);
    if !MustRefuse(s, m) {
      ProcessFlags(cfg, s, m);
      ProcessSendsNoFinalAck(cfg, s, m);
      var p := Process(cfg, s, m);
      assert (p.sent + [Envelope(p.requester, FinalAck)])[..|p.sent|] == p.sent;
    }
  }

  /** How many of the messages a run handles before it stops. */
  function Consumed(cfg: Config, s: State, msgs: seq<RpcMessage>): (n: nat)
    ensures n <= |msgs|
    decreases |msgs|
  {
    if msgs == [] || !s.keepRunning then 0 else 1 + Consumed(cfg, Handle(cfg, s, msgs[0]), msgs[1..])
  }

  lemma {:induction false} RunAcksShutdownOnce(cfg: Config, s: State, msgs: seq<RpcMessage>, seen: seq<RpcMessage>)
    requires Inv(cfg, s) && AcksShutdownOnce(s, seen)
    ensures AcksShutdownOnce(Run(cfg, s, msgs), seen + msgs[..Consumed(cfg, s, msgs)])
    decreases |msgs|
  {
    hide Handle, Conserving, Registered, AcksShutdownOnce;
    if msgs == [] || !s.keepRunning {
      assert seen + msgs[..0] == seen;
    } else {
      var t := Handle(cfg, s, msgs[0]);
      HandleKeepsInv(cfg, s, msgs[0]);
      HandleAcksShutdownOnce(cfg, s, msgs[0], seen);
      RunAcksShutdownOnce(cfg, t, msgs[1..], seen + [msgs[0]]);
      SeenNext(seen, msgs, Consumed(cfg, t, msgs[1..]));
    }
  }

  lemma SeenNext(seen: seq<RpcMessage>, msgs: seq<RpcMessage>, n: nat)
    requires n < |msgs|
    ensures seen + [msgs[0]] + msgs[1..][..n] == seen + msgs[..n + 1]
  {
  }

  /** Over a whole run of the controller: it stops only when asked and drained, every
      accepted job has then finished exactly as often as it was accepted, and the last
      requester alone gets the one final acknowledgement. */
  lemma ShutdownExact(cfg: Config, msgs: seq<RpcMessage>)
    requires ValidConfig(cfg)
    ensures var s := Run(cfg, Initial, msgs);
            && AcksShutdownOnce(s, msgs[..Consumed(cfg, Initial, msgs)])
            && (!s.keepRunning <==> s.shuttingDown && s.running == [] && s.waiting == [])
            && (!s.keepRunning ==> multiset(s.accepted) == multiset(s.finished))
  {
    RunKeepsInv(cfg, Initial, msgs);
    RunAcksShutdownOnce(cfg, Initial, msgs, []);
    assert [] + msgs[..Consumed(cfg, Initial, msgs)] == msgs[..Consumed(cfg, Initial, msgs)];
  }

  // -------- who is answered --------

  /** The final acknowledgement was sent to p. */
  ghost predicate Answered(s: State, p: int) {
    exists i :: 0 <= i < |s.sent| && s.sent[i] == Envelope(p, FinalAck)
  }

  /** In every run, p is answered exactly if the controller has stopped and p was the last
      to ask. */
  lemma AnsweredExactly(cfg: Config, msgs: seq<RpcMessage>, p: int)
    requires ValidConfig(cfg)
    ensures var s := Run(cfg, Initial, msgs);
            Answered(s, p) <==> !s.keepRunning && p == LastRequester(msgs[..Consumed(cfg, Initial, msgs)])
  {
    hide Run, Consumed;
    ShutdownExact(cfg, msgs);
  }

  function Ask(p: int): RpcMessage {
    RpcMessage(SHUTDOWN_REQ, p, 0, 0, Blank)
  }

  lemma StartsAlone(cfg: Config, pid: int, userId: int)
    requires cfg.limit > 0
    ensures var j := Job(pid, userId, pid);
            var s := Handle(cfg, Initial, Submission(pid, userId));
            && s.running == [j] && s.runningCount == 1 && s.waiting == [] && s.keepRunning
            && s.sent == [AckFor(cfg, j)]
  {
  }

  /** While a job runs, a request only replaces the one before. */
  lemma AskReplaces(cfg: Config, s: State, p: int)
    requires s.runningCount > 0
    ensures Handle(cfg, s, Ask(p)) == s.(shuttingDown := true, requester := p)
  {
  }

  lemma LastDoneStops(cfg: Config, s: State, j: Job)
    requires s.running == [j] && s.runningCount == 1 && s.waiting == [] && s.shuttingDown
    ensures var t := Handle(cfg, s, RpcMessage(DONE, j.runnerPid, j.userId, j.commandId, Blank));
            !t.keepRunning && t.sent == s.sent + [Envelope(s.requester, FinalAck)]
  {
    assert IndexOfCommand(s.running, j.commandId) == Some(0);
    assert RemoveAt(s.running, 0) == [];
  }

  lemma RunOfFour(cfg: Config, a: RpcMessage, b: RpcMessage, c: RpcMessage, d: RpcMessage)
    requires var s := Handle(cfg, Initial, a);
             var t := Handle(cfg, s, b);
             s.keepRunning && t.keepRunning && Handle(cfg, t, c).keepRunning
    ensures Run(cfg, Initial, [a, b, c, d]) == Handle(cfg, Handle(cfg, Handle(cfg, Handle(cfg, Initial, a), b), c), d)
  {
    hide Handle, Run;
    var s := Handle(cfg, Initial, a);
    var t := Handle(cfg, s, b);
    var v := Handle(cfg, t, c);
    RunNext(cfg, Initial, a, [b, c, d]);
    RunNext(cfg, s, b, [c, d]);
    RunNext(cfg, t, c, [d]);
    RunNext(cfg, v, d, []);
    RunOfNone(cfg, Handle(cfg, v, d));
    assert [a] + [b, c, d] == [a, b, c, d] && [b] + [c, d] == [b, c, d] && [c] + [d] == [c, d] && [d] + [] == [d];
  }

  lemma RunOfNone(cfg: Config, s: State)
    ensures Run(cfg, s, []) == s
  {
  }

  /** A requester that is never answered: 5 asks while a job runs, then 6 asks, then the
      job ends and the controller stops. */
  lemma RequesterForgotten(cfg: Config)
    requires ValidConfig(cfg)
    ensures var s := Run(cfg, Initial, [Submission(7, 1), Ask(5), Ask(6), RpcMessage(DONE, 7, 1, 7, Blank)]);
            !s.keepRunning && Answered(s, 6) && forall i :: 0 <= i < |s.sent| ==> s.sent[i].to != 5
  {
    hide Handle, Run;
    var s := Handle(cfg, Initial, Submission(7, 1));
    StartsAlone(cfg, 7, 1);
    AskReplaces(cfg, s, 5);
    AskReplaces(cfg, s.(shuttingDown := true, requester := 5), 6);
    LastDoneStops(cfg, s.(shuttingDown := true, requester := 6), Job(7, 1, 7));
    RunOfFour(cfg, Submission(7, 1), Ask(5), Ask(6), RpcMessage(DONE, 7, 1, 7, Blank));
    var e := Run(cfg, Initial, [Submission(7, 1), Ask(5), Ask(6), RpcMessage(DONE, 7, 1, 7, Blank)]);
    assert e.sent == [AckFor(cfg, Job(7, 1, 7)), Envelope(6, FinalAck)];
    assert e.sent[1] == Envelope(6, FinalAck);
  }
}
