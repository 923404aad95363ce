/** The whole system: one controller, any finite set of runner processes, a shared FIFO
    to the controller and a private FIFO to every runner. FIFOs keep order and lose
    nothing. Every step is one action of one process. */
module ProtocolModel {
  import opened Messages
  import opened Sums
  import opened ControllerModel
  import opened RunnerModel

  /** The runner processes of a scenario, by pid, and a list of these pids. */
  datatype Setup = Setup(cfg: Config, roles: map<int, Role>, pids: seq<int>)

  ghost predicate ValidSetup(u: Setup) {
    && ValidConfig(u.cfg)
    && NoDuplicates(u.pids)
    && (forall p :: p in u.pids <==> p in u.roles)
  }

  /** How far a runner has come, and how many replies it has read. */
  datatype Progress = Progress(phase: Phase, read: nat)

  /** server holds the messages that the controller has not read yet. */
  datatype System = System(ctl: State, server: seq<RpcMessage>, runners: map<int, Progress>)

  datatype Step = Begin(pid: int) | Receive(pid: int) | Complete(pid: int) | ReadOne

  /** Everything ever written to the private FIFO of p. */
  function To(sent: seq<Envelope>, p: int): (r: seq<RpcMessage>)
    ensures |r| <= |sent|
  {
    if sent == [] then [] else
      var n := |sent| - 1;
      if sent[n].to == p then To(sent[..n], p) + [sent[n].msg] else To(sent[..n], p)
  }

  lemma ToNext(sent: seq<Envelope>, e: Envelope, p: int)
    ensures To(sent + [e], p) == if e.to == p then To(sent, p) + [e.msg] else To(sent, p)
  {
    assert (sent + [e])[..|sent|] == sent;
  }

  lemma {:induction false} ToConcat(a: seq<Envelope>, b: seq<Envelope>, p: int)
    ensures To(a + b, p) == To(a, p) + To(b, p)
    decreases |b|
  {
    if b == [] {
      assert a + b == a;
    } else {
      var n := |b| - 1;
      assert (a + b)[..|a + b| - 1] == a + b[..n];
      ToConcat(a, b[..n], p);
    }
  }

  lemma {:induction false} ToNobody(sent: seq<Envelope>, p: int)
    requires forall i :: 0 <= i < |sent| ==> sent[i].to != p
    ensures To(sent, p) == []
  {
    if sent != [] { ToNobody(sent[..|sent| - 1], p); }
  }

  predicate Enabled(y: System, step: Step) {
    match step
    case Begin(p) => p in y.runners && y.runners[p].phase == Idle
    case Receive(p) =>
      p in y.runners && y.runners[p].phase == Awaiting && y.runners[p].read < |To(y.ctl.sent, p)|
    case Complete(p) => p in y.runners && y.runners[p].phase.Executing?
    case ReadOne => y.ctl.keepRunning && y.server != []
  }

  function Apply(u: Setup, y: System, step: Step): System
    requires y.runners.Keys == u.roles.Keys && Enabled(y, step)
  {
    match step
    case Begin(p) =>
      y.(runners := y.runners[p := y.runners[p].(phase := Awaiting)],
         server := y.server + [Request(p, u.roles[p])])
    case Receive(p) =>
      var r := y.runners[p];
      var phase := OnReply(u.roles[p], To(y.ctl.sent, p)[r.read]);
      y.(runners := y.runners[p := Progress(phase, r.read + 1)])
    case Complete(p) =>
      var phase := y.runners[p].phase;
      y.(runners := y.runners[p := y.runners[p].(phase := Done)],
         server := y.server + [DoneMessage(p, phase.userId, phase.commandId)])
    case ReadOne =>
      y.(ctl := Handle(u.cfg, y.ctl, y.server[0]), server := y.server[1..])
  }

  function NobodyStarted(u: Setup): (y: System)
    ensures y.runners.Keys == u.roles.Keys
  {
    System(Initial, [], map p | p in u.roles :: Progress(Idle, 0))
  }

  ghost predicate IsRun(u: Setup, y: System, steps: seq<Step>)
    decreases |steps|
  {
    steps == [] ||
    (y.runners.Keys == u.roles.Keys && Enabled(y, steps[0]) && IsRun(u, Apply(u, y, steps[0]), steps[1..]))
  }

  ghost function After(u: Setup, y: System, steps: seq<Step>): System
    requires IsRun(u, y, steps)
    decreases |steps|
  {
    if steps == [] then y else After(u, Apply(u, y, steps[0]), steps[1..])
  }

  // -------- where a submission is --------

  function OfRunner(p: int): Job -> nat { (j: Job) => if j.runnerPid == p then 1 else 0 }
  function SentBy(p: int, kind: MsgType): RpcMessage -> nat {
    (m: RpcMessage) => if m.senderPid == p && m.kind == kind then 1 else 0
  }

  /** Number of unread messages of one kind from p. */
  function InTransit(server: seq<RpcMessage>, p: int, kind: MsgType): nat {
    Sum(server, SentBy(p, kind))
  }

  function Held(q: seq<Job>, p: int): nat {
    Sum(q, OfRunner(p))
  }

  /** The exhaustive list of situations of an execute runner p of user w: where its one
      submission is and which messages are on their way. */
  ghost predicate Placed(s: State, server: seq<RpcMessage>, r: Progress, p: int, w: int) {
    var submits, dones := InTransit(server, p, SUBMIT), InTransit(server, p, DONE);
    var waits, runs, ends := Held(s.waiting, p), Held(s.running, p), Held(s.finished, p);
    var replies := To(s.sent, p);
    match r.phase
    case Idle => submits == dones == waits == runs == ends == r.read == |replies| == 0
    case Awaiting =>
      && dones == ends == r.read == 0
      && (|| (submits == 1 && waits == runs == |replies| == 0)
          || (waits == 1 && submits == runs == |replies| == 0)
          || (runs == 1 && submits == waits == 0 && |replies| == 1
              && replies[0].kind == ACK && replies[0].userId == w && replies[0].commandId == p)
          || (submits == waits == runs == 0 && |replies| == 1 && replies[0].kind != ACK && s.shuttingDown))
    case Executing(user, id) =>
      user == w && id == p && submits == dones == waits == ends == 0 && runs == 1 && |replies| == r.read == 1
    case Done =>
      submits == waits == 0 && |replies| == r.read == 1 && dones == runs && runs + ends == 1
    case Refused =>
      submits == dones == waits == runs == ends == 0 && |replies| == r.read == 1 && s.shuttingDown
  }

  /** A job that a runner of the scenario submitted. */
  ghost predicate Owned(u: Setup, j: Job) {
    && j.commandId == j.runnerPid && j.runnerPid in u.roles
    && u.roles[j.runnerPid].Execute? && u.roles[j.runnerPid].userId == j.userId
  }

  ghost predicate AllOwned(u: Setup, q: seq<Job>) {
    forall i :: 0 <= i < |q| ==> Owned(u, q[i])
  }

  /** A message that a runner of the scenario sends. */
  ghost predicate Genuine(u: Setup, m: RpcMessage) {
    && m.senderPid in u.roles
    && match u.roles[m.senderPid]
       case Execute(w, _) =>
         m == Request(m.senderPid, u.roles[m.senderPid]) || m == DoneMessage(m.senderPid, w, m.senderPid)
       case _ => m == Request(m.senderPid, u.roles[m.senderPid])
  }

  ghost predicate AllGenuine(u: Setup, server: seq<RpcMessage>) {
    forall i :: 0 <= i < |server| ==> Genuine(u, server[i])
  }
}
