/** What every message keeps, for every policy and every message, including DONE
    messages with unknown or repeated identifiers. */
module ControllerInvariants {
  import opened Messages
  import opened FairPolicy
  import opened ControllerModel

  /** Slots are counted exactly, never exceeded, and never idle while a job waits. */
  ghost predicate WorkConserving(cfg: Config, s: State) {
    && s.runningCount == |s.running|
    && |s.running| <= cfg.limit
    && (s.waiting != [] ==> |s.running| == cfg.limit)
  }

  /** No job is lost or duplicated: an accepted job waits, runs or has finished. */
  ghost predicate Conserving(s: State) {
    && multiset(s.accepted) == multiset(s.waiting) + multiset(s.running) + multiset(s.finished)
    && multiset(s.acked) == multiset(s.running) + multiset(s.finished)
  }

  /** The user ring lists the submitting users in first-seen order; the last served
      user is the owner of the last authorized job. */
  ghost predicate Registered(s: State) {
    && s.ring == Users(s.accepted)
    && (s.acked != [] ==> s.last == s.acked[|s.acked| - 1].userId)
  }

  /** The controller has stopped exactly when it is asked to and has nothing left. */
  ghost predicate StopsExactly(s: State) {
    !s.keepRunning <==> MustStop(s)
  }

  ghost predicate Inv(cfg: Config, s: State) {
    && ValidConfig(cfg)
    && WorkConserving(cfg, s)
    && Conserving(s)
    && Registered(s)
    && StopsExactly(s)
  }

  // -------- one message --------

  lemma FinishKeeps(cfg: Config, s: State, id: int)
    requires ValidConfig(cfg) && WorkConserving(cfg, s)
    ensures var f := Finish(s, id);
            && f.runningCount == |f.running| <= cfg.limit
            && (f.waiting != [] ==> f.runningCount >= cfg.limit - 1)
    ensures Conserving(s) ==> Conserving(Finish(s, id))
  {
    match IndexOfCommand(s.running, id)
    case None =>
    case Some(i) => RemoveAtMultiset(s.running, i);
  }

  /** At most one job is promoted per message. */
  lemma StartWaitingOnce(cfg: Config, f: State)
    requires ValidConfig(cfg) && f.runningCount == |f.running| <= cfg.limit
    requires f.waiting != [] ==> f.runningCount >= cfg.limit - 1
    ensures StartWaiting(cfg, f)
         == if f.waiting != [] && f.runningCount < cfg.limit then Promote(cfg, f) else f
    ensures WorkConserving(cfg, StartWaiting(cfg, f))
  {
  }

  lemma PromoteConserves(cfg: Config, s: State)
    requires s.waiting != [] && Conserving(s)
    ensures Conserving(Promote(cfg, s))
  {
    RemoveAtMultiset(s.waiting, PickIndex(cfg, s));
  }

  /** DONE without the promotion loop: finish, then promote at most one job. */
  function DoneOnce(cfg: Config, s: State, id: int): State {
    var f := Finish(s, id);
    if f.waiting != [] && f.runningCount < cfg.limit then Promote(cfg, f) else f
  }

  lemma DonePromotesOnce(cfg: Config, s: State, m: RpcMessage)
    requires ValidConfig(cfg) && WorkConserving(cfg, s)
    ensures HandleDone(cfg, s, m) == DoneOnce(cfg, s, m.commandId)
    ensures WorkConserving(cfg, HandleDone(cfg, s, m))
  {
    FinishKeeps(cfg, s, m.commandId);
    StartWaitingOnce(cfg, Finish(s, m.commandId));
  }

  lemma ProcessWorkConserving(cfg: Config, s: State, m: RpcMessage)
    requires ValidConfig(cfg) && WorkConserving(cfg, s)
    ensures WorkConserving(cfg, Process(cfg, s, m)) && Process(cfg, s, m).keepRunning == s.keepRunning
  {
    if m.kind == DONE { DonePromotesOnce(cfg, s, m); }
  }

  lemma SubmitConserves(cfg: Config, s: State, m: RpcMessage)
    requires Conserving(s)
    ensures Conserving(HandleSubmit(cfg, s, m))
  {
  }

  lemma ProcessConserves(cfg: Config, s: State, m: RpcMessage)
    requires ValidConfig(cfg) && WorkConserving(cfg, s) && Conserving(s)
    ensures Conserving(Process(cfg, s, m))
  {
    hide StartWaiting, StatusReply, DoneOnce, Finish, Remember, WorkConserving;
    if m.kind == SUBMIT {
      SubmitConserves(cfg, s, m);
    } else if m.kind == DONE {
      hide Conserving;
      DonePromotesOnce(cfg, s, m);
      DoneConserves(cfg, s, m.commandId);
    }
  }

  lemma DoneConserves(cfg: Config, s: State, id: int)
    requires ValidConfig(cfg) && WorkConserving(cfg, s) && Conserving(s)
    ensures Conserving(DoneOnce(cfg, s, id))
  {
    var f := Finish(s, id);
    FinishKeeps(cfg, s, id);
    if f.waiting != [] { PromoteConserves(cfg, f); }
  }

  /** What one message does to the queues and histories that scheduling depends on. */
  datatype Effect = Quiet | Queue(job: Job) | Start(job: Job) | Serve(index: nat)

  ghost predicate HasEffect(cfg: Config, s: State, t: State, e: Effect) {
    && s.sent <= t.sent
    && match e
       case Quiet =>
         && t.ring == s.ring && t.accepted == s.accepted && t.waiting == s.waiting
         && t.acked == s.acked && t.last == s.last
       case Queue(j) =>
         && t.ring == Remember(s.ring, j.userId) && t.accepted == s.accepted + [j] && t.waiting == s.waiting + [j]
         && t.acked == s.acked && t.last == s.last
       case Start(j) =>
         && s.waiting == [] == t.waiting
         && t.ring == Remember(s.ring, j.userId) && t.accepted == s.accepted + [j]
         && t.acked == s.acked + [j] && t.last == j.userId
       case Serve(i) =>
         && s.waiting != [] && i == PickIndex(cfg, s)
         && t.ring == s.ring && t.accepted == s.accepted && t.waiting == RemoveAt(s.waiting, i)
         && t.acked == s.acked + [s.waiting[i]] && t.last == s.waiting[i].userId
  }

  /** Every message has exactly one of four effects; it dispatches at most one job. */
  lemma HandleEffect(cfg: Config, s: State, m: RpcMessage) returns (e: Effect)
    requires ValidConfig(cfg) && WorkConserving(cfg, s)
    ensures HasEffect(cfg, s, Handle(cfg, s, m), e)
    ensures s.shuttingDown ==> e.Quiet? || e.Serve?
  {
    e := Quiet;
    if m.kind == SUBMIT && !s.shuttingDown {
      e := if s.runningCount < cfg.limit then Start(JobOf(m)) else Queue(JobOf(m));
    } else if m.kind == DONE {
      e := DoneEffect(cfg, s, m);
    }
  }

  lemma DoneEffect(cfg: Config, s: State, m: RpcMessage) returns (e: Effect)
    requires ValidConfig(cfg) && WorkConserving(cfg, s)
    ensures HasEffect(cfg, s, HandleDone(cfg, s, m), e)
    ensures HasEffect(cfg, s, TryFinish(HandleDone(cfg, s, m)), e)
    ensures e.Quiet? || e.Serve?
  {
    DonePromotesOnce(cfg, s, m);
    var f := Finish(s, m.commandId);
    e := if f.waiting != [] && f.runningCount < cfg.limit then Serve(PickIndex(cfg, f)) else Quiet;
  }

  lemma EffectRegisters(cfg: Config, s: State, t: State, e: Effect)
    requires Registered(s) && HasEffect(cfg, s, t, e)
    ensures Registered(t)
  {
    hide Users, PickIndex, RemoveAt;
    if e.Queue? || e.Start? { UsersNext(s.accepted, e.job); }
  }

  /** Only the outcome of a shutdown is added to what the handler did. */
  lemma HandleIsProcess(cfg: Config, s: State, m: RpcMessage)
    ensures var h := Handle(cfg, s, m);
            && (MustRefuse(s, m) ==> h == s.(sent := h.sent))
            && (!MustRefuse(s, m) ==> h == Process(cfg, s, m).(sent := h.sent, keepRunning := h.keepRunning))
  {
  }

  lemma HandleKeepsInv(cfg: Config, s: State, m: RpcMessage)
    requires Inv(cfg, s) && s.keepRunning
    ensures Inv(cfg, Handle(cfg, s, m))
  {
    var e := HandleEffect(cfg, s, m);
    EffectRegisters(cfg, s, Handle(cfg, s, m), e);
    HandleIsProcess(cfg, s, m);
    if !MustRefuse(s, m) {
      ProcessWorkConserving(cfg, s, m);
      ProcessConserves(cfg, s, m);
      TryFinishStopsExactly(Process(cfg, s, m));
    }
  }

  lemma TryFinishStopsExactly(p: State)
    requires p.keepRunning
    ensures StopsExactly(TryFinish(p))
  {
  }

  lemma InitialInv(cfg: Config)
    requires ValidConfig(cfg)
    ensures Inv(cfg, Initial)
  {
  }

  /** Every state of every run satisfies the invariant. */
  lemma {:induction false} RunKeepsInv(cfg: Config, s: State, msgs: seq<RpcMessage>)
    requires Inv(cfg, s)
    ensures Inv(cfg, Run(cfg, s, msgs))
    decreases |msgs|
  {
    if msgs != [] && s.keepRunning {
      HandleKeepsInv(cfg, s, msgs[0]);
      RunKeepsInv(cfg, Handle(cfg, s, msgs[0]), msgs[1..]);
    }
  }

  // -------- histories only grow --------

  ghost predicate Grows(s: State, e: State) {
    && s.acked <= e.acked && s.accepted <= e.accepted && s.ring <= e.ring && s.sent <= e.sent
  }

  lemma EffectGrows(cfg: Config, s: State, t: State, e: Effect)
    requires HasEffect(cfg, s, t, e)
    ensures Grows(s, t) && |t.acked| <= |s.acked| + 1
  {
  }

  lemma HandleGrows(cfg: Config, s: State, m: RpcMessage)
    requires ValidConfig(cfg) && WorkConserving(cfg, s)
    ensures Grows(s, Handle(cfg, s, m))
  {
    var e := HandleEffect(cfg, s, m);
    EffectGrows(cfg, s, Handle(cfg, s, m), e);
  }

  lemma {:induction false} RunGrows(cfg: Config, s: State, msgs: seq<RpcMessage>)
    requires Inv(cfg, s)
    ensures Grows(s, Run(cfg, s, msgs))
    decreases |msgs|
  {
    if msgs != [] && s.keepRunning {
      HandleGrows(cfg, s, msgs[0]);
      HandleKeepsInv(cfg, s, msgs[0]);
      RunGrows(cfg, Handle(cfg, s, msgs[0]), msgs[1..]);
    }
  }

  /** A waiting user is on the ring, so the fair scan always finds one to serve. */
  lemma WaitingRegistered(s: State, u: int)
    requires Conserving(s) && Registered(s) && Waits(s.waiting, u)
    ensures u in s.ring
  {
    var i :| 0 <= i < |s.waiting| && s.waiting[i].userId == u;
    assert s.waiting[i] in multiset(s.accepted);
    var k :| 0 <= k < |s.accepted| && s.accepted[k] == s.waiting[i];
    UsersAreThoseWaiting(s.accepted);
  }

  // -------- order --------

  /** The jobs of one user, in order. */
  function Of(q: seq<Job>, u: int): seq<Job> {
    if q == [] then []
    else if q[|q| - 1].userId == u then Of(q[..|q| - 1], u) + [q[|q| - 1]]
    else Of(q[..|q| - 1], u)
  }

  lemma OfNext(q: seq<Job>, j: Job, u: int)
    ensures Of(q + [j], u) == if j.userId == u then Of(q, u) + [j] else Of(q, u)
  {
    assert (q + [j])[..|q|] == q;
  }

  /** Removing the first job of its user removes the head of that user's jobs. */
  lemma {:induction false} OfRemoveFirst(q: seq<Job>, i: nat, u: int)
    requires i < |q| && forall k :: 0 <= k < i ==> q[k].userId != q[i].userId
    ensures Of(q, u) == (if q[i].userId == u then [q[i]] else []) + Of(RemoveAt(q, i), u)
    decreases |q|
  {
    var n := |q| - 1;
    if i == n {
      assert RemoveAt(q, i) == q[..n];
      NoneOf(q[..n], q[n].userId);
    } else {
      OfRemoveFirst(q[..n], i, u);
      assert RemoveAt(q, i)[..n - 1] == RemoveAt(q[..n], i);
    }
  }

  lemma {:induction false} NoneOf(q: seq<Job>, u: int)
    requires forall k :: 0 <= k < |q| ==> q[k].userId != u
    ensures Of(q, u) == []
  {
    if q != [] { NoneOf(q[..|q| - 1], u); }
  }

  /** First come, first served: authorized then waiting jobs are the submissions in order. */
  ghost predicate InOrder(s: State) {
    s.acked + s.waiting == s.accepted
  }

  /** The same for the jobs of one user. */
  ghost predicate UserInOrder(s: State, u: int) {
    Of(s.acked, u) + Of(s.waiting, u) == Of(s.accepted, u)
  }

  ghost predicate InOrderPerUser(s: State) {
    forall u :: UserInOrder(s, u)
  }

  lemma EffectKeepsOrder(cfg: Config, s: State, t: State, e: Effect)
    requires !Random(cfg) && !Fair(cfg) && InOrder(s) && HasEffect(cfg, s, t, e)
    ensures InOrder(t)
  {
  }

  lemma {:induction false} RunKeepsOrder(cfg: Config, s: State, msgs: seq<RpcMessage>)
    requires Inv(cfg, s) && !Random(cfg) && !Fair(cfg) && InOrder(s)
    ensures InOrder(Run(cfg, s, msgs))
    decreases |msgs|
  {
    if msgs != [] && s.keepRunning {
      HandleKeepsInv(cfg, s, msgs[0]);
      var e := HandleEffect(cfg, s, msgs[0]);
      EffectKeepsOrder(cfg, s, Handle(cfg, s, msgs[0]), e);
      RunKeepsOrder(cfg, Handle(cfg, s, msgs[0]), msgs[1..]);
    }
  }

  lemma QueueKeepsUserOrder(acked: seq<Job>, waiting: seq<Job>, accepted: seq<Job>, j: Job, u: int)
    requires Of(acked, u) + Of(waiting, u) == Of(accepted, u)
    ensures Of(acked, u) + Of(waiting + [j], u) == Of(accepted + [j], u)
  {
    hide Of;
    OfNext(accepted, j, u);
    OfNext(waiting, j, u);
  }

  lemma StartKeepsUserOrder(acked: seq<Job>, accepted: seq<Job>, j: Job, u: int)
    requires Of(acked, u) + Of([], u) == Of(accepted, u)
    ensures Of(acked + [j], u) + Of([], u) == Of(accepted + [j], u)
  {
    assert Of([], u) == [];
    hide Of;
    OfNext(accepted, j, u);
    OfNext(acked, j, u);
  }

  /** The fair policy serves the oldest job of some user. */
  lemma FairPickIsOldest(cfg: Config, s: State)
    requires Fair(cfg) && s.waiting != []
    ensures forall k :: 0 <= k < PickIndex(cfg, s) ==> s.waiting[k].userId != s.waiting[PickIndex(cfg, s)].userId
  {
  }

  lemma EffectKeepsUserOrder(cfg: Config, s: State, t: State, e: Effect, u: int)
    requires Fair(cfg) && UserInOrder(s, u) && HasEffect(cfg, s, t, e)
    ensures UserInOrder(t, u)
  {
    hide Of, PickIndex;
    match e
    case Quiet =>
    case Queue(j) => QueueKeepsUserOrder(s.acked, s.waiting, s.accepted, j, u);
    case Start(j) => StartKeepsUserOrder(s.acked, s.accepted, j, u);
    case Serve(i) =>
      FairPickIsOldest(cfg, s);
      ServeKeepsUserOrder(s.acked, s.waiting, i, u);
  }

  lemma ServeKeepsUserOrder(acked: seq<Job>, waiting: seq<Job>, i: nat, u: int)
    requires i < |waiting| && forall k :: 0 <= k < i ==> waiting[k].userId != waiting[i].userId
    ensures Of(acked + [waiting[i]], u) + Of(RemoveAt(waiting, i), u) == Of(acked, u) + Of(waiting, u)
  {
    hide Of, RemoveAt;
    OfNext(acked, waiting[i], u);
    OfRemoveFirst(waiting, i, u);
  }

  lemma {:induction false} RunKeepsUserOrder(cfg: Config, s: State, msgs: seq<RpcMessage>)
    requires Inv(cfg, s) && Fair(cfg) && InOrderPerUser(s)
    ensures InOrderPerUser(Run(cfg, s, msgs))
    decreases |msgs|
  {
    if msgs != [] && s.keepRunning {
      HandleKeepsInv(cfg, s, msgs[0]);
      var e := HandleEffect(cfg, s, msgs[0]);
      forall u { EffectKeepsUserOrder(cfg, s, Handle(cfg, s, msgs[0]), e, u); }
      RunKeepsUserOrder(cfg, Handle(cfg, s, msgs[0]), msgs[1..]);
    }
  }

  // -------- the random policy --------

  /** Under random, a promotion takes the waiting job at the next drawn number modulo the
      number of waiting jobs; every other message draws nothing. */
  lemma RandomPromotes(cfg: Config, s: State, m: RpcMessage)
    requires Inv(cfg, s) && cfg.policy == "random"
    ensures var t := Handle(cfg, s, m);
            if |t.waiting| < |s.waiting| then
              var i := cfg.rand(s.draws) % |s.waiting|;
              && t.acked == s.acked + [s.waiting[i]] && t.waiting == RemoveAt(s.waiting, i)
              && t.draws == s.draws + 1 && t.last == s.waiting[i].userId
            else t.draws == s.draws
  {
    hide Conserving, Registered, StatusReply, Remember, IndexOfCommand, RemoveAt;
    HandleIsProcess(cfg, s, m);
    if m.kind == DONE { DonePromotesOnce(cfg, s, m); }
  }

  // -------- what finishes --------

  /** A DONE finishes the first running job with its identifier, in its place, and nothing
      if there is none; no other message finishes a job. */
  lemma DoneFinishes(cfg: Config, s: State, m: RpcMessage, i: nat)
    requires Inv(cfg, s) && m.kind == DONE && i < |s.running| && s.running[i].commandId == m.commandId
    requires forall k :: 0 <= k < i ==> s.running[k].commandId != m.commandId
    ensures var t := Handle(cfg, s, m);
            && t.finished == s.finished + [s.running[i]] && s.acked <= t.acked
            && t.running == (s.running[..i] + s.running[i + 1..]) + t.acked[|s.acked|..]
  {
    hide Conserving, Registered, Choose;
    FirstCommand(s.running, m.commandId, i);
    HandleIsProcess(cfg, s, m);
    DonePromotesOnce(cfg, s, m);
  }

  lemma OthersFinishNothing(cfg: Config, s: State, m: RpcMessage)
    requires Inv(cfg, s)
    requires m.kind != DONE || forall k :: 0 <= k < |s.running| ==> s.running[k].commandId != m.commandId
    ensures var t := Handle(cfg, s, m);
            && t.finished == s.finished && s.acked <= t.acked && t.running == s.running + t.acked[|s.acked|..]
            && (m.kind == DONE ==> t.running == s.running && t.waiting == s.waiting && t.acked == s.acked)
  {
    hide Conserving, Registered, Choose, StatusReply, Remember;
    HandleIsProcess(cfg, s, m);
    if m.kind == DONE {
      assert IndexOfCommand(s.running, m.commandId) == None;
      DonePromotesOnce(cfg, s, m);
    }
  }

  /** q without its first j. */
  function Without(q: seq<Job>, j: Job): seq<Job> {
    if q == [] then [] else if q[0] == j then q[1..] else [q[0]] + Without(q[1..], j)
  }

  /** acked with the finished jobs left out, one after the other. */
  function Left(acked: seq<Job>, finished: seq<Job>): seq<Job> {
    if finished == [] then acked else
      Without(Left(acked, finished[..|finished| - 1]), finished[|finished| - 1])
  }

  /** Every finished job is there to be left out. */
  ghost predicate AllThere(acked: seq<Job>, finished: seq<Job>) {
    finished != [] ==>
      var most, j := finished[..|finished| - 1], finished[|finished| - 1];
      AllThere(acked, most) && j in Left(acked, most)
  }

  /** The running jobs are the authorized ones that have not finished, in the order of
      authorization. */
  ghost predicate RunningInOrder(s: State) {
    AllThere(s.acked, s.finished) && s.running == Left(s.acked, s.finished)
  }

  lemma {:induction false} WithoutAt(q: seq<Job>, i: nat)
    requires i < |q| && forall k :: 0 <= k < i ==> q[k] != q[i]
    ensures Without(q, q[i]) == q[..i] + q[i + 1..]
  {
    if i > 0 {
      WithoutAt(q[1..], i - 1);
      assert q[..i] + q[i + 1..] == [q[0]] + (q[1..][..i - 1] + q[1..][i..]);
    }
  }

  lemma {:induction false} WithoutAppend(q: seq<Job>, x: Job, j: Job)
    requires j in q
    ensures Without(q + [x], j) == Without(q, j) + [x]
  {
    assert (q + [x])[0] == q[0] && (q + [x])[1..] == q[1..] + [x];
    if q[0] != j {
      assert j in q[1..];
      WithoutAppend(q[1..], x, j);
    }
  }

  lemma {:induction false} LeftAppend(acked: seq<Job>, x: Job, finished: seq<Job>)
    requires AllThere(acked, finished)
    ensures AllThere(acked + [x], finished) && Left(acked + [x], finished) == Left(acked, finished) + [x]
  {
    if finished != [] {
      var most, j := finished[..|finished| - 1], finished[|finished| - 1];
      LeftAppend(acked, x, most);
      WithoutAppend(Left(acked, most), x, j);
    }
  }

  lemma LeftNext(acked: seq<Job>, finished: seq<Job>, j: Job)
    requires AllThere(acked, finished) && j in Left(acked, finished)
    ensures AllThere(acked, finished + [j]) && Left(acked, finished + [j]) == Without(Left(acked, finished), j)
  {
    assert (finished + [j])[..|finished|] == finished;
  }

  lemma RunningAppend(s: State, t: State)
    requires RunningInOrder(s) && t.finished == s.finished && s.acked <= t.acked <= s.acked + t.acked[|s.acked|..]
    requires |t.acked| <= |s.acked| + 1 && t.running == s.running + t.acked[|s.acked|..]
    ensures RunningInOrder(t)
  {
    if |t.acked| == |s.acked| + 1 {
      LeftAppend(s.acked, t.acked[|s.acked|], s.finished);
      assert t.acked == s.acked + [t.acked[|s.acked|]];
    } else {
      assert t.acked == s.acked && t.running == s.running;
    }
  }

  lemma FinishInOrder(s: State, t: State, i: nat)
    requires RunningInOrder(s) && i < |s.running|
    requires forall k :: 0 <= k < i ==> s.running[k].commandId != s.running[i].commandId
    requires s.acked <= t.acked && |t.acked| <= |s.acked| + 1 && t.finished == s.finished + [s.running[i]]
    requires t.running == (s.running[..i] + s.running[i + 1..]) + t.acked[|s.acked|..]
    ensures RunningInOrder(t)
  {
    WithoutAt(s.running, i);
    LeftNext(s.acked, s.finished, s.running[i]);
    var f := s.(finished := t.finished, running := s.running[..i] + s.running[i + 1..]);
    assert RunningInOrder(f);
    RunningAppend(f, t);
  }

  lemma HandleKeepsRunningOrder(cfg: Config, s: State, m: RpcMessage)
    requires Inv(cfg, s) && RunningInOrder(s)
    ensures RunningInOrder(Handle(cfg, s, m))
  {
    hide Handle, RunningInOrder, Conserving, Registered;
    var e := HandleEffect(cfg, s, m);
    var t := Handle(cfg, s, m);
    EffectGrows(cfg, s, t, e);
    var i := IndexOfCommand(s.running, m.commandId);
    if m.kind == DONE && i.Some? {
      DoneFinishes(cfg, s, m, i.value);
      FinishInOrder(s, t, i.value);
    } else {
      OthersFinishNothing(cfg, s, m);
      RunningAppend(s, t);
    }
  }

  lemma InitialRunningOrder()
    ensures RunningInOrder(Initial)
  {
  }

  lemma {:induction false} RunKeepsRunningOrder(cfg: Config, s: State, msgs: seq<RpcMessage>)
    requires Inv(cfg, s) && RunningInOrder(s)
    ensures RunningInOrder(Run(cfg, s, msgs))
    decreases |msgs|
  {
    hide Handle, RunningInOrder, Conserving, Registered;
    if msgs != [] && s.keepRunning {
      HandleKeepsInv(cfg, s, msgs[0]);
      HandleKeepsRunningOrder(cfg, s, msgs[0]);
      RunKeepsRunningOrder(cfg, Handle(cfg, s, msgs[0]), msgs[1..]);
    }
  }

  // -------- refusals --------

  /** During shutdown a submission changes nothing but the messages sent, by one refusal to
      its sender that names its user and command. */
  lemma RefusalAnswers(cfg: Config, s: State, m: RpcMessage)
    requires m.kind == SUBMIT && s.shuttingDown
    ensures var refusal := RpcMessage(SHUTDOWN_ACK, cfg.pid, m.userId, m.commandId, Blank);
            Handle(cfg, s, m) == s.(sent := s.sent + [Envelope(m.senderPid, refusal)])
  {
  }
}
