/** The controller on values: its state, what it does with one message, and runs. */
module ControllerModel {
  import opened Messages
  import opened FairPolicy

  /** What stays fixed while a controller runs. rand(k) is the k-th number that the
      random policy draws. */
  datatype Config = Config(limit: int, policy: string, pid: int, rand: nat -> nat)

  predicate ValidConfig(cfg: Config) {
    cfg.limit > 0 && cfg.pid > 0
  }

  predicate Fair(cfg: Config) { cfg.policy == "fair" }
  predicate Random(cfg: Config) { cfg.policy == "random" }

  /** The controller's variables, the messages it has sent, and three histories: the
      submissions it took in, the jobs it authorized and the jobs it saw finish. */
  datatype State = State(
    runningCount: int,
    keepRunning: bool,
    shuttingDown: bool,
    requester: int,
    last: int,
    ring: seq<int>,
    waiting: seq<Job>,
    running: seq<Job>,
    draws: nat,
    sent: seq<Envelope>,
    accepted: seq<Job>,
    acked: seq<Job>,
    finished: seq<Job>)

  const Initial: State := State(0, true, false, -1, -1, [], [], [], 0, [], [], [], [])

  function JobOf(m: RpcMessage): Job {
    Job(m.commandId, m.userId, m.senderPid)
  }

  // -------- replies --------

  function AckFor(cfg: Config, j: Job): Envelope {
    Envelope(j.runnerPid, RpcMessage(ACK, cfg.pid, j.userId, j.commandId, Blank))
  }

  function RefusalFor(cfg: Config, m: RpcMessage): Envelope {
    Envelope(m.senderPid, RpcMessage(SHUTDOWN_ACK, cfg.pid, m.userId, m.commandId, Blank))
  }

  /** The message that ends a shutdown carries nothing but its kind. */
  const FinalAck: RpcMessage := RpcMessage(SHUTDOWN_ACK, 0, 0, 0, Blank)

  function StatusLines(cfg: Config, to: int, jobs: seq<Job>): (r: seq<Envelope>)
    ensures |r| == |jobs|
    ensures forall i :: 0 <= i < |jobs| ==>
              r[i] == Envelope(to, RpcMessage(STATUS_RESP, cfg.pid, 0, 0, JobLine(jobs[i].userId, jobs[i].commandId)))
  {
    seq(|jobs|, i requires 0 <= i < |jobs| =>
      Envelope(to, RpcMessage(STATUS_RESP, cfg.pid, 0, 0, JobLine(jobs[i].userId, jobs[i].commandId))))
  }

  /** The jobs a status reply lists as scheduled, in the order it lists them. */
  function Snapshot(cfg: Config, s: State): seq<Job> {
    if Fair(cfg) then BeforeSentinel(FairOrder(s.waiting, s.ring, s.last)) else s.waiting
  }

  function StatusMessages(cfg: Config, to: int, run: seq<Job>, wait: seq<Job>): seq<Envelope> {
    [Envelope(to, RpcMessage(STATUS_RESP, cfg.pid, 0, 0, ExecutingHeader))]
    + StatusLines(cfg, to, run)
    + [Envelope(to, RpcMessage(STATUS_RESP, cfg.pid, 0, 0, ScheduledHeader))]
    + StatusLines(cfg, to, wait)
    + [Envelope(to, RpcMessage(STATUS_END, cfg.pid, 0, 0, Blank))]
  }

  function StatusReply(cfg: Config, s: State, to: int): seq<Envelope> {
    StatusMessages(cfg, to, s.running, Snapshot(cfg, s))
  }

  /** The reply is written piece by piece. */
  lemma StatusMessagesPieces(cfg: Config, to: int, run: seq<Job>, wait: seq<Job>, o: seq<Envelope>)
    ensures o + [Envelope(to, RpcMessage(STATUS_RESP, cfg.pid, 0, 0, ExecutingHeader))]
              + StatusLines(cfg, to, run)
              + [Envelope(to, RpcMessage(STATUS_RESP, cfg.pid, 0, 0, ScheduledHeader))]
              + StatusLines(cfg, to, wait)
              + [Envelope(to, RpcMessage(STATUS_END, cfg.pid, 0, 0, Blank))]
         == o + StatusMessages(cfg, to, run, wait)
  {
    Append5(o, [Envelope(to, RpcMessage(STATUS_RESP, cfg.pid, 0, 0, ExecutingHeader))],
            StatusLines(cfg, to, run),
            [Envelope(to, RpcMessage(STATUS_RESP, cfg.pid, 0, 0, ScheduledHeader))],
            StatusLines(cfg, to, wait),
            [Envelope(to, RpcMessage(STATUS_END, cfg.pid, 0, 0, Blank))]);
  }

  lemma Append5<T>(o: seq<T>, a: seq<T>, b: seq<T>, c: seq<T>, d: seq<T>, e: seq<T>)
    ensures o + a + b + c + d + e == o + (a + b + c + d + e)
  {
    assert o + a + b == o + (a + b);
    assert o + (a + b) + c == o + (a + b + c);
    assert o + (a + b + c) + d == o + (a + b + c + d);
  }

  // -------- handlers --------

  function Remember(ring: seq<int>, u: int): seq<int> {
    if u in ring then ring else ring + [u]
  }

  /** Authorize a job: it runs, it was served last, and its runner is told. */
  function Authorize(cfg: Config, s: State, j: Job): State {
    s.(running := s.running + [j], runningCount := s.runningCount + 1, last := j.userId,
       sent := s.sent + [AckFor(cfg, j)], acked := s.acked + [j])
  }

  /** The position that the policy serves next. */
  function Choose(cfg: Config, q: seq<Job>, ring: seq<int>, last: int, draws: nat): (i: nat)
    requires q != []
    ensures i < |q|
  {
    if Random(cfg) then cfg.rand(draws) % |q|
    else if Fair(cfg) then FairIndex(q, ring, last)
    else 0
  }

  function PickIndex(cfg: Config, s: State): (i: nat)
    requires s.waiting != []
    ensures i < |s.waiting|
  {
    Choose(cfg, s.waiting, s.ring, s.last, s.draws)
  }

  /** Move the job chosen by the policy from waiting to running. */
  function Promote(cfg: Config, s: State): State
    requires s.waiting != []
  {
    var i := PickIndex(cfg, s);
    var draws := if Random(cfg) then s.draws + 1 else s.draws;
    Authorize(cfg, s.(waiting := RemoveAt(s.waiting, i), draws := draws), s.waiting[i])
  }

  function StartWaiting(cfg: Config, s: State): (r: State)
    ensures r.keepRunning == s.keepRunning
    decreases |s.waiting|
  {
    if s.runningCount < cfg.limit && s.waiting != [] then StartWaiting(cfg, Promote(cfg, s)) else s
  }

  lemma AuthorizeSetsLast(cfg: Config, s: State, l: int, j: Job)
    ensures Authorize(cfg, s.(last := l), j) == Authorize(cfg, s, j)
  {
  }

  lemma StartWaitingStep(cfg: Config, s: State)
    requires s.runningCount < cfg.limit && s.waiting != []
    ensures StartWaiting(cfg, s) == StartWaiting(cfg, Promote(cfg, s))
    ensures |Promote(cfg, s).waiting| < |s.waiting|
  {
  }

  function HandleSubmit(cfg: Config, s: State, m: RpcMessage): State {
    var j := JobOf(m);
    var s' := s.(ring := Remember(s.ring, j.userId), accepted := s.accepted + [j]);
    if s.runningCount < cfg.limit then Authorize(cfg, s', j) else s'.(waiting := s.waiting + [j])
  }

  /** Take a finished job off the running queue; an unknown identifier changes nothing. */
  function Finish(s: State, commandId: int): State {
    match IndexOfCommand(s.running, commandId)
    case None => s
    case Some(i) =>
      s.(running := RemoveAt(s.running, i), finished := s.finished + [s.running[i]],
         runningCount := if s.runningCount > 0 then s.runningCount - 1 else s.runningCount)
  }

  function HandleDone(cfg: Config, s: State, m: RpcMessage): State {
    StartWaiting(cfg, Finish(s, m.commandId))
  }

  function HandleStatusReq(cfg: Config, s: State, m: RpcMessage): State {
    s.(sent := s.sent + StatusReply(cfg, s, m.senderPid))
  }

  function HandleShutdownReq(s: State, m: RpcMessage): State {
    s.(shuttingDown := true, requester := m.senderPid)
  }

  predicate MustStop(s: State) {
    s.shuttingDown && s.runningCount == 0 && s.waiting == []
  }

  function TryFinish(s: State): State {
    if MustStop(s) then s.(sent := s.sent + [Envelope(s.requester, FinalAck)], keepRunning := false) else s
  }

  /** What the handler for the message's kind does. */
  function Process(cfg: Config, s: State, m: RpcMessage): State {
    match m.kind
    case SUBMIT => HandleSubmit(cfg, s, m)
    case DONE => HandleDone(cfg, s, m)
    case STATUS_REQ => HandleStatusReq(cfg, s, m)
    case SHUTDOWN_REQ => HandleShutdownReq(s, m)
    case _ => s
  }

  predicate MustRefuse(s: State, m: RpcMessage) {
    m.kind == SUBMIT && s.shuttingDown
  }

  function Handle(cfg: Config, s: State, m: RpcMessage): State {
    if MustRefuse(s, m) then s.(sent := s.sent + [RefusalFor(cfg, m)])
    else TryFinish(Process(cfg, s, m))
  }

  /** A run takes messages in order and stops when the controller stops. */
  function Run(cfg: Config, s: State, msgs: seq<RpcMessage>): State
    decreases |msgs|
  {
    if msgs == [] || !s.keepRunning then s else Run(cfg, Handle(cfg, s, msgs[0]), msgs[1..])
  }

  lemma {:induction false} RunAppend(cfg: Config, s: State, a: seq<RpcMessage>, b: seq<RpcMessage>)
    ensures Run(cfg, s, a + b) == Run(cfg, Run(cfg, s, a), b)
    decreases |a|
  {
    if a == [] {
      assert a + b == b;
    } else if s.keepRunning {
      assert (a + b)[1..] == a[1..] + b;
      RunAppend(cfg, Handle(cfg, s, a[0]), a[1..], b);
    }
  }
}
