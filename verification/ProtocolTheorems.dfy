/** Safety in every reachable state, a bound on every run, and orderly drain. */
module ProtocolTheorems {
  import opened Messages
  import opened Sums
  import opened ControllerModel
  import opened ControllerInvariants
  import opened RunnerModel
  import opened ShutdownRuns
  import opened ProtocolModel
  import opened ProtocolPlaces
  import opened ProtocolInvariant
  import opened ProtocolReaders

  ghost predicate Reachable(u: Setup, y: System) {
    exists steps :: IsRun(u, NobodyStarted(u), steps) && After(u, NobodyStarted(u), steps) == y
  }

  lemma ReachableInv(u: Setup, y: System)
    requires ValidSetup(u) && Reachable(u, y)
    ensures SysInv(u, y)
  {
    var steps :| IsRun(u, NobodyStarted(u), steps) && After(u, NobodyStarted(u), steps) == y;
    StartInv(u);
    RunKeepsSysInv(u, NobodyStarted(u), steps);
  }

  // -------- the controller's share of a run --------

  /** The messages that the controller reads in a run, in order. */
  ghost function MessagesRead(u: Setup, y: System, steps: seq<Step>): seq<RpcMessage>
    requires IsRun(u, y, steps)
    decreases |steps|
  {
    if steps == [] then [] else
      var rest := MessagesRead(u, Apply(u, y, steps[0]), steps[1..]);
      if steps[0].ReadOne? then [y.server[0]] + rest else rest
  }

  /** However runners interleave, the controller goes through a run on the messages it
      reads; so all that holds of controller runs holds in the system. */
  lemma {:induction false} SystemRunsController(u: Setup, y: System, steps: seq<Step>)
    requires IsRun(u, y, steps)
    ensures After(u, y, steps).ctl == Run(u.cfg, y.ctl, MessagesRead(u, y, steps))
    decreases |steps|
  {
    hide Handle;
    if steps != [] {
      var z := Apply(u, y, steps[0]);
      SystemRunsController(u, z, steps[1..]);
      if steps[0].ReadOne? {
        var m, rest := y.server[0], MessagesRead(u, z, steps[1..]);
        assert ([m] + rest)[0] == m && ([m] + rest)[1..] == rest;
      }
    }
  }

  // -------- safety --------

  /** Runners between reading their ACK and sending DONE. */
  ghost function ExecutingPids(y: System): set<int> {
    set p | p in y.runners && y.runners[p].phase.Executing?
  }

  ghost function PidsOf(q: seq<Job>): set<int> {
    set i | 0 <= i < |q| :: q[i].runnerPid
  }

  lemma {:induction false} PidsAtMost(q: seq<Job>)
    ensures |PidsOf(q)| <= |q|
  {
    if q != [] {
      var n := |q| - 1;
      PidsAtMost(q[..n]);
      assert PidsOf(q) == PidsOf(q[..n]) + {q[n].runnerPid};
    }
  }

  lemma SubsetSize(a: set<int>, b: set<int>)
    requires a <= b
    ensures |a| <= |b|
  {
    assert b == a + (b - a);
  }

  /** No awaiting runner has an ACK to read. */
  ghost predicate NoAckPending(u: Setup, y: System) {
    forall p :: Executes(u, p) && p in y.runners && y.runners[p].phase == Awaiting ==>
      forall i :: 0 <= i < |To(y.ctl.sent, p)| ==> To(y.ctl.sent, p)[i].kind != ACK
  }

  /** Never do more than limit runners execute; every execute runner is answered at most
      once; when the controller has stopped nobody executes or is about to. */
  lemma SystemSafety(u: Setup, y: System)
    requires ValidSetup(u) && Reachable(u, y)
    ensures |ExecutingPids(y)| <= u.cfg.limit
    ensures forall p :: Executes(u, p) ==> |To(y.ctl.sent, p)| <= 1
    ensures !y.ctl.keepRunning ==> ExecutingPids(y) == {} && NoAckPending(u, y)
  {
    hide Conserving, Registered;
    ReachableInv(u, y);
    forall p | p in ExecutingPids(y)
      ensures p in PidsOf(y.ctl.running)
    {
      assert Executes(u, p);
      var i := HeldSomewhere(y.ctl.running, p);
    }
    PidsAtMost(y.ctl.running);
    SubsetSize(ExecutingPids(y), PidsOf(y.ctl.running));
  }

  // -------- every run is finite --------

  function Weight(phase: Phase): (w: nat)
    ensures w <= 4
  {
    match phase
    case Idle => 4
    case Awaiting => 2
    case Executing(_, _) => 2
    case _ => 0
  }

  function WeightOf(runners: map<int, Progress>): int -> nat {
    (p: int) => if p in runners then Weight(runners[p].phase) else 0
  }

  lemma AtMostFour(runners: map<int, Progress>, p: int)
    ensures WeightOf(runners)(p) <= 4
  {
  }

  function ReadsOf(runners: map<int, Progress>): int -> nat {
    (p: int) => if p in runners then runners[p].read else 0
  }

  function SentTo(sent: seq<Envelope>): int -> nat {
    (p: int) => |To(sent, p)|
  }

  lemma {:induction false} SentToRunners(ps: seq<int>, sent: seq<Envelope>)
    requires NoDuplicates(ps)
    ensures Sum(ps, SentTo(sent)) <= |sent|
  {
    if sent == [] {
      SumBound(ps, SentTo(sent), 0);
    } else {
      var n := |sent| - 1;
      SentToRunners(ps, sent[..n]);
      if sent[n].to in ps {
        SumChange(ps, sent[n].to, SentTo(sent[..n]), SentTo(sent));
      } else {
        SumSame(ps, SentTo(sent), SentTo(sent[..n]));
      }
    }
  }

  /** Work that can still cause messages, and messages still to be read. */
  function Work(u: Setup, y: System): nat {
    Sum(u.pids, WeightOf(y.runners)) + |y.server|
  }

  function Replies(u: Setup, y: System): int {
    |y.ctl.sent| - Sum(u.pids, ReadsOf(y.runners))
  }

  /** More than one message of the controller can produce. */
  function Factor(u: Setup): nat { |u.pids| + 5 }

  function Measure(u: Setup, y: System): int {
    Work(u, y) * Factor(u) + Replies(u, y)
  }

  lemma ReadsAreSent(u: Setup, y: System)
    requires ValidSetup(u) && y.runners.Keys == u.roles.Keys && ReadsWereSent(y)
    ensures Replies(u, y) >= 0
  {
    SumAtMost(u.pids, ReadsOf(y.runners), SentTo(y.ctl.sent));
    SentToRunners(u.pids, y.ctl.sent);
  }

  lemma MeasureIsNatural(u: Setup, y: System)
    requires SysInv(u, y)
    ensures Measure(u, y) >= 0
  {
    ReadsAreSent(u, y);
    NoWorkMore(0, Work(u, y), Factor(u));
  }

  lemma RunnerMoves(u: Setup, runners: map<int, Progress>, p: int, r: Progress)
    requires ValidSetup(u) && runners.Keys == u.roles.Keys && p in u.roles
    ensures Sum(u.pids, WeightOf(runners[p := r])) + Weight(runners[p].phase)
         == Sum(u.pids, WeightOf(runners)) + Weight(r.phase)
    ensures Sum(u.pids, ReadsOf(runners[p := r])) + runners[p].read == Sum(u.pids, ReadsOf(runners)) + r.read
  {
    SumChange(u.pids, p, WeightOf(runners), WeightOf(runners[p := r]));
    SumChange(u.pids, p, ReadsOf(runners), ReadsOf(runners[p := r]));
  }

  /** Jobs held once per runner are at most as many as the runners. */
  lemma {:induction false} HeldOnce(q: seq<Job>, ps: set<int>)
    requires forall i :: 0 <= i < |q| ==> q[i].runnerPid in ps && Held(q, q[i].runnerPid) <= 1
    ensures |q| == |PidsOf(q)| && PidsOf(q) <= ps
  {
    if q != [] {
      var n := |q| - 1;
      forall i | 0 <= i < n
        ensures q[..n][i].runnerPid in ps && Held(q[..n], q[..n][i].runnerPid) <= 1
      {
        assert q[..n][i] == q[i];
      }
      HeldOnce(q[..n], ps);
      if q[n].runnerPid in PidsOf(q[..n]) {
        var i :| 0 <= i < n && q[..n][i].runnerPid == q[n].runnerPid;
        SumMember(q[..n], i, OfRunner(q[n].runnerPid));
      }
      assert PidsOf(q) == PidsOf(q[..n]) + {q[n].runnerPid};
    }
  }

  lemma {:induction false} SetOfList(ps: seq<int>)
    requires NoDuplicates(ps)
    ensures |set p | p in ps| == |ps|
  {
    if ps != [] {
      var n := |ps| - 1;
      SetOfList(ps[..n]);
      assert (set p | p in ps) == (set p | p in ps[..n]) + {ps[n]};
    }
  }

  lemma InOnePlace(s: State, server: seq<RpcMessage>, r: Progress, p: int, w: int)
    requires Placed(s, server, r, p, w)
    ensures Held(s.waiting + s.running, p) <= 1
  {
    SumConcat(s.waiting, s.running, OfRunner(p));
  }

  /** Waiting and running jobs together are at most as many as the runners. */
  lemma JobsAtMostRunners(u: Setup, y: System)
    requires ValidSetup(u) && y.runners.Keys == u.roles.Keys
    requires JobsOwned(u, y.ctl) && AllPlaced(u, y.ctl, y.server, y.runners)
    ensures |y.ctl.waiting| + |y.ctl.running| <= |u.pids|
  {
    var q := y.ctl.waiting + y.ctl.running;
    forall i | 0 <= i < |q|
      ensures q[i].runnerPid in u.roles.Keys && Held(q, q[i].runnerPid) <= 1
    {
      assert Owned(u, q[i]);
      var p := q[i].runnerPid;
      assert Executes(u, p);
      InOnePlace(y.ctl, y.server, y.runners[p], p, u.roles[p].userId);
    }
    HeldOnce(q, u.roles.Keys);
    SubsetSize(PidsOf(q), u.roles.Keys);
    RosterSize(u);
  }

  lemma RosterSize(u: Setup)
    requires ValidSetup(u)
    ensures |u.roles.Keys| == |u.pids|
  {
    SetOfList(u.pids);
    assert forall p :: p in (set q | q in u.pids) <==> p in u.roles.Keys;
    assert u.roles.Keys == set q | q in u.pids;
  }

  lemma StatusSize(cfg: Config, to: int, run: seq<Job>, wait: seq<Job>)
    ensures |StatusMessages(cfg, to, run, wait)| == |run| + |wait| + 3
  {
  }

  lemma SnapshotSize(cfg: Config, s: State)
    ensures |Snapshot(cfg, s)| <= |s.waiting|
  {
  }

  lemma SentPerMessage(cfg: Config, s: State, m: RpcMessage)
    requires ValidConfig(cfg) && WorkConserving(cfg, s)
    ensures |Handle(cfg, s, m).sent| <= |s.sent| + 4 + |s.waiting| + |s.running|
  {
    hide StartWaiting, Choose, Remember, IndexOfCommand, StatusMessages, Snapshot;
    StatusSize(cfg, m.senderPid, s.running, Snapshot(cfg, s));
    SnapshotSize(cfg, s);
    if m.kind == DONE { DonePromotesOnce(cfg, s, m); }
  }

  lemma Smaller(a: nat, b: nat, k: nat, x: int, y: int)
    requires b < a && y < x + k
    ensures b * k + y < a * k + x
  {
    var d := a - b - 1;
    assert d * k >= 0;
    assert a * k == b * k + k + d * k by { assert a == b + 1 + d; }
  }

  lemma NotLarger(a: nat, b: nat, k: nat, x: int, y: int)
    requires b <= a && y < x
    ensures b * k + y < a * k + x
  {
    var d := a - b;
    assert d * k >= 0;
    assert a * k == b * k + d * k by { assert a == b + d; }
  }

  lemma SendDecreases(u: Setup, y: System, p: int, phase: Phase, m: RpcMessage)
    requires ValidSetup(u) && y.runners.Keys == u.roles.Keys && p in u.roles
    requires Weight(phase) + 2 == Weight(y.runners[p].phase)
    ensures var r := y.runners[p].(phase := phase);
            Measure(u, y.(server := y.server + [m], runners := y.runners[p := r])) < Measure(u, y)
  {
    var z := y.(server := y.server + [m], runners := y.runners[p := y.runners[p].(phase := phase)]);
    RunnerMoves(u, y.runners, p, z.runners[p]);
    Smaller(Work(u, y), Work(u, z), Factor(u), Replies(u, y), Replies(u, z));
  }

  lemma ReceiveDecreases(u: Setup, y: System, p: int, phase: Phase)
    requires ValidSetup(u) && y.runners.Keys == u.roles.Keys && p in u.roles
    requires Weight(phase) <= Weight(y.runners[p].phase)
    ensures Measure(u, y.(runners := y.runners[p := Progress(phase, y.runners[p].read + 1)])) < Measure(u, y)
  {
    var z := y.(runners := y.runners[p := Progress(phase, y.runners[p].read + 1)]);
    RunnerMoves(u, y.runners, p, z.runners[p]);
    NotLarger(Work(u, y), Work(u, z), Factor(u), Replies(u, y), Replies(u, z));
  }

  lemma ReadDecreases(u: Setup, y: System, ctl: State)
    requires y.server != [] && |ctl.sent| < |y.ctl.sent| + Factor(u)
    ensures Measure(u, y.(ctl := ctl, server := y.server[1..])) < Measure(u, y)
  {
    var z := y.(ctl := ctl, server := y.server[1..]);
    Smaller(Work(u, y), Work(u, z), Factor(u), Replies(u, y), Replies(u, z));
  }

  lemma ControllerDecreases(u: Setup, y: System)
    requires SysInv(u, y) && y.server != []
    ensures Measure(u, y.(ctl := Handle(u.cfg, y.ctl, y.server[0]), server := y.server[1..])) < Measure(u, y)
  {
    JobsAtMostRunners(u, y);
    SentPerMessage(u.cfg, y.ctl, y.server[0]);
    ReadDecreases(u, y, Handle(u.cfg, y.ctl, y.server[0]));
  }

  lemma RunnerDecreases(u: Setup, y: System, step: Step)
    requires ValidSetup(u) && y.runners.Keys == u.roles.Keys && Enabled(y, step) && !step.ReadOne?
    ensures Measure(u, Apply(u, y, step)) < Measure(u, y)
  {
    match step
    case Begin(p) => SendDecreases(u, y, p, Awaiting, Request(p, u.roles[p]));
    case Complete(p) =>
      SendDecreases(u, y, p, Done, DoneMessage(p, y.runners[p].phase.userId, y.runners[p].phase.commandId));
    case Receive(p) => ReceiveDecreases(u, y, p, OnReply(u.roles[p], To(y.ctl.sent, p)[y.runners[p].read]));
    case ReadOne =>
  }

  /** Every step makes the measure smaller. */
  lemma StepDecreases(u: Setup, y: System, step: Step)
    requires SysInv(u, y) && Enabled(y, step)
    ensures Measure(u, Apply(u, y, step)) < Measure(u, y)
  {
    if step.ReadOne? { ControllerDecreases(u, y); } else { RunnerDecreases(u, y, step); }
  }

  lemma {:induction false} RunLength(u: Setup, y: System, steps: seq<Step>)
    requires SysInv(u, y) && IsRun(u, y, steps)
    ensures |steps| <= Measure(u, y)
    decreases |steps|
  {
    MeasureIsNatural(u, y);
    if steps != [] {
      StepKeepsInv(u, y, steps[0]);
      StepDecreases(u, y, steps[0]);
      RunLength(u, Apply(u, y, steps[0]), steps[1..]);
    }
  }

  /** A scenario of n runners ends after at most 4*n*(n+5) steps, in every interleaving. */
  lemma RunsAreFinite(u: Setup, steps: seq<Step>)
    requires ValidSetup(u) && IsRun(u, NobodyStarted(u), steps)
    ensures |steps| <= 4 * |u.pids| * (|u.pids| + 5)
  {
    var y := NobodyStarted(u);
    StartInv(u);
    RunLength(u, y, steps);
    forall i | 0 <= i < |u.pids| ensures WeightOf(y.runners)(u.pids[i]) <= 4
    {
      AtMostFour(y.runners, u.pids[i]);
    }
    SumBound(u.pids, WeightOf(y.runners), 4);
    NoWorkMore(Work(u, y), 4 * |u.pids|, Factor(u));
  }

  lemma NoWorkMore(a: nat, b: nat, k: nat)
    requires a <= b
    ensures a * k <= b * k
  {
    assert (b - a) * k >= 0;
  }

  // -------- drain --------

  /** Some shutdown runner has sent its request. */
  ghost predicate ShutdownAsked(u: Setup, y: System) {
    exists p :: p in u.roles && p in y.runners && u.roles[p] == Shutdown && y.runners[p].phase != Idle
  }

  /** While a job runs and every message was read, its runner can move. */
  lemma RunningMoves(u: Setup, y: System) returns (step: Step)
    requires SysInv(u, y) && y.ctl.running != [] && y.server == []
    ensures Enabled(y, step) && (step.Receive? || step.Complete?)
  {
    hide Conserving, Registered, AllGenuine, ReadsWereSent, OnlyExecutorsExecute;
    var j := y.ctl.running[0];
    var q := j.runnerPid;
    assert Owned(u, j);
    assert Executes(u, q);
    SumMember(y.ctl.running, 0, OfRunner(q));
    step := if y.runners[q].phase == Awaiting then Receive(q) else Complete(q);
  }

  /** While the controller is alive after a shutdown request, something can happen that
      does not depend on new runners arriving. */
  lemma NeverStuck(u: Setup, y: System) returns (step: Step)
    requires SysInv(u, y) && ShutdownAsked(u, y) && y.ctl.keepRunning
    ensures Enabled(y, step) && !step.Begin?
  {
    hide Conserving, Registered, AllPlaced, AllGenuine, ReadsWereSent, OnlyExecutorsExecute;
    if y.server != [] { return ReadOne; }
    var p :| p in u.roles && p in y.runners && u.roles[p] == Shutdown && y.runners[p].phase != Idle;
    assert y.ctl.shuttingDown;
    assert y.ctl.running != [];
    step := RunningMoves(u, y);
  }

  lemma StaysAsked(u: Setup, y: System, step: Step)
    requires y.runners.Keys == u.roles.Keys && Enabled(y, step) && ShutdownAsked(u, y)
    ensures ShutdownAsked(u, Apply(u, y, step))
  {
    var p :| p in u.roles && p in y.runners && u.roles[p] == Shutdown && y.runners[p].phase != Idle;
    assert p in Apply(u, y, step).runners;
  }

  /** From every such state the controller can be run to its end. */
  lemma {:induction false} CanDrain(u: Setup, y: System) returns (steps: seq<Step>)
    requires SysInv(u, y) && ShutdownAsked(u, y)
    ensures IsRun(u, y, steps) && !After(u, y, steps).ctl.keepRunning
    decreases Measure(u, y)
  {
    if !y.ctl.keepRunning { return []; }
    var step := NeverStuck(u, y);
    StepKeepsInv(u, y, step);
    StaysAsked(u, y, step);
    MeasureIsNatural(u, Apply(u, y, step));
    StepDecreases(u, y, step);
    var rest := CanDrain(u, Apply(u, y, step));
    steps := [step] + rest;
    assert steps[1..] == rest;
  }

  lemma {:induction false} CountedAsHeld(q: seq<Job>, j: Job)
    ensures multiset(q)[j] <= Held(q, j.runnerPid)
  {
    if q != [] {
      var n := |q| - 1;
      CountedAsHeld(q[..n], j);
      assert q == q[..n] + [q[n]];
    }
  }

  /** Nothing can happen any more unless a new runner starts. */
  ghost predicate AtRest(y: System) {
    forall step :: Enabled(y, step) ==> step.Begin?
  }

  /** A run that has come to rest after a shutdown request has stopped the controller,
      and every accepted job has finished, exactly once. */
  lemma Drained(u: Setup, y: System)
    requires ValidSetup(u) && Reachable(u, y) && ShutdownAsked(u, y)
    requires AtRest(y)
    ensures !y.ctl.keepRunning && y.ctl.waiting == [] && y.ctl.running == []
    ensures forall j :: j in y.ctl.accepted ==>
              multiset(y.ctl.accepted)[j] == 1 && multiset(y.ctl.finished)[j] == 1
  {
    hide Placed;
    ReachableInv(u, y);
    if y.ctl.keepRunning {
      var step := NeverStuck(u, y);
      assert false;
    }
    forall j | j in y.ctl.accepted
      ensures multiset(y.ctl.accepted)[j] == 1 && multiset(y.ctl.finished)[j] == 1
    {
      assert multiset(y.ctl.accepted) == multiset(y.ctl.finished);
      assert j in multiset(y.ctl.accepted);
      assert j in y.ctl.finished;
      FinishedOnce(u, y.ctl, y.server, y.runners, j);
    }
  }

  lemma FinishedOnce(u: Setup, s: State, server: seq<RpcMessage>, runners: map<int, Progress>, j: Job)
    requires runners.Keys == u.roles.Keys && AllPlaced(u, s, server, runners)
    requires AllOwned(u, s.finished) && j in s.finished
    ensures multiset(s.finished)[j] == 1
  {
    var i :| 0 <= i < |s.finished| && s.finished[i] == j;
    assert Owned(u, j);
    assert Executes(u, j.runnerPid);
    assert Placed(s, server, runners[j.runnerPid], j.runnerPid, u.roles[j.runnerPid].userId);
    CountedAsHeld(s.finished, j);
  }

  // -------- rest, with or without shutdown --------

  lemma NothingRunsAtRest(u: Setup, y: System)
    requires SysInv(u, y) && AtRest(y)
    ensures y.ctl.running == [] && y.ctl.waiting == []
    ensures y.ctl.keepRunning ==> y.server == [] && !y.ctl.shuttingDown
  {
    hide AllPlaced, AllGenuine, Conserving, Registered, JobsOwned;
    assert Enabled(y, ReadOne) ==> false;
    if y.ctl.keepRunning && y.ctl.running != [] {
      var step := RunningMoves(u, y);
      assert false;
    }
  }

  lemma ExecuteAtRest(s: State, server: seq<RpcMessage>, r: Progress, p: int, w: int)
    requires Placed(s, server, r, p, w) && r.phase != Idle && !r.phase.Executing?
    requires r.phase == Awaiting ==> r.read == |To(s.sent, p)|
    requires server == [] && s.waiting == [] && s.running == [] && !s.shuttingDown
    ensures r.phase == Done && Held(s.finished, p) == 1
  {
  }

  lemma ReachableReaders(u: Setup, y: System)
    requires ValidSetup(u) && Reachable(u, y)
    ensures SysInv(u, y) && ReadersPlaced(u, y)
  {
    var steps :| IsRun(u, NobodyStarted(u), steps) && After(u, NobodyStarted(u), steps) == y;
    StartInv(u);
    StartReaders(u);
    RunKeepsReaders(u, NobodyStarted(u), steps);
  }

  lemma ReadAllAtRest(y: System, p: int)
    requires AtRest(y) && p in y.runners
    ensures !y.runners[p].phase.Executing?
    ensures y.runners[p].phase == Awaiting ==> y.runners[p].read >= |To(y.ctl.sent, p)|
  {
    assert Enabled(y, Receive(p)) ==> false;
    assert Enabled(y, Complete(p)) ==> false;
  }

  /** At rest, a shutdown runner that began is over exactly if the controller has stopped
      and this runner was the last to ask; a status runner exactly if its request was read. */
  lemma AskersAtRest(u: Setup, y: System, p: int)
    requires ValidSetup(u) && Reachable(u, y) && AtRest(y)
    requires p in u.roles && p in y.runners && y.runners[p].phase != Idle
    ensures u.roles[p] == Shutdown ==>
              (y.runners[p].phase == Done <==> !y.ctl.keepRunning && y.ctl.requester == p)
    ensures u.roles[p] == Status ==>
              (y.runners[p].phase == Done <==> InTransit(y.server, p, STATUS_REQ) == 0)
  {
    hide SysInv, To, Reachable;
    ReachableReaders(u, y);
    ReadAllAtRest(y, p);
    assert ReaderPlaced(u.roles[p], y.ctl, y.server, y.runners[p], p);
  }

  /** Progress without any shutdown: when a run has come to rest with the controller alive,
      every message was read and every runner that began is over; the execute runners'
      submissions have finished, each once. */
  lemma EverybodyServed(u: Setup, y: System)
    requires ValidSetup(u) && Reachable(u, y) && AtRest(y) && y.ctl.keepRunning
    ensures y.server == [] && y.ctl.waiting == [] && y.ctl.running == []
    ensures forall p :: p in u.roles && p in y.runners && y.runners[p].phase != Idle ==>
              y.runners[p].phase == Done && u.roles[p] != Shutdown
              && (u.roles[p].Execute? ==> Held(y.ctl.finished, p) == 1)
  {
    hide Placed, Conserving, Registered, JobsOwned, AllGenuine, Reachable;
    ReachableInv(u, y);
    NothingRunsAtRest(u, y);
    forall p | p in u.roles && p in y.runners && y.runners[p].phase != Idle
      ensures y.runners[p].phase == Done && u.roles[p] != Shutdown
      ensures u.roles[p].Execute? ==> Held(y.ctl.finished, p) == 1
    {
      ReadAllAtRest(y, p);
      AskersAtRest(u, y, p);
      if Executes(u, p) { ExecutorServed(u, y, p); }
    }
  }

  lemma ExecutorServed(u: Setup, y: System, p: int)
    requires SysInv(u, y) && AtRest(y) && Executes(u, p) && y.runners[p].phase != Idle
    requires y.server == [] && y.ctl.waiting == [] && y.ctl.running == [] && !y.ctl.shuttingDown
    ensures y.runners[p].phase == Done && Held(y.ctl.finished, p) == 1
  {
    hide Placed, Inv, JobsOwned, AllGenuine;
    ReadAllAtRest(y, p);
    ExecuteAtRest(y.ctl, y.server, y.runners[p], p, u.roles[p].userId);
  }

  /** At rest, an execute runner that began is over exactly if its submission was read, and
      it is done exactly if that submission has finished, once. */
  lemma ExecutorsAtRest(u: Setup, y: System, p: int)
    requires ValidSetup(u) && Reachable(u, y) && AtRest(y)
    requires Executes(u, p) && p in y.runners && y.runners[p].phase != Idle
    ensures y.runners[p].phase == Done || y.runners[p].phase == Refused <==> InTransit(y.server, p, SUBMIT) == 0
    ensures y.runners[p].phase == Done <==> Held(y.ctl.finished, p) == 1
  {
    hide Conserving, Registered, JobsOwned, AllGenuine, Reachable, To;
    ReachableInv(u, y);
    NothingRunsAtRest(u, y);
    ReadAllAtRest(y, p);
    assert Placed(y.ctl, y.server, y.runners[p], p, u.roles[p].userId);
  }

  // -------- a submission that is never answered --------

  lemma RunOn(u: Setup, y: System, step: Step, rest: seq<Step>)
    requires y.runners.Keys == u.roles.Keys && Enabled(y, step) && IsRun(u, Apply(u, y, step), rest)
    ensures IsRun(u, y, [step] + rest) && After(u, y, [step] + rest) == After(u, Apply(u, y, step), rest)
  {
    assert ([step] + rest)[1..] == rest;
  }

  /** 5 asks for shutdown, and 7 submits before the controller has read that. */
  function TwoRunners(cfg: Config): Setup {
    Setup(cfg, map[5 := Shutdown, 7 := Execute(1, "ls")], [5, 7])
  }

  lemma StopsAtOnce(cfg: Config)
    ensures var s := Handle(cfg, Initial, Ask(5));
            !s.keepRunning && s.sent == [Envelope(5, FinalAck)]
  {
  }

  lemma OnlyToFive()
    ensures To([Envelope(5, FinalAck)], 5) == [FinalAck] && To([Envelope(5, FinalAck)], 7) == []
  {
    assert [Envelope(5, FinalAck)][..0] == [];
  }

  /** Refusals do not keep every runner from waiting for ever: the controller stops with
      the submission of 7 unread. */
  lemma SubmissionForgotten(cfg: Config)
    requires ValidConfig(cfg)
    ensures var u := TwoRunners(cfg);
            var steps := [Begin(5), Begin(7), ReadOne, Receive(5)];
            && ValidSetup(u) && IsRun(u, NobodyStarted(u), steps)
            && var y := After(u, NobodyStarted(u), steps);
               AtRest(y) && y.runners[7].phase == Awaiting && To(y.ctl.sent, 7) == []
  {
    var u := TwoRunners(cfg);
    var y0 := NobodyStarted(u);
    var y1 := Apply(u, y0, Begin(5));
    var y2 := Apply(u, y1, Begin(7));
    assert y2.server == [Ask(5), Request(7, u.roles[7])];
    StopsAtOnce(cfg);
    OnlyToFive();
    hide Handle, To;
    var y3 := Apply(u, y2, ReadOne);
    var y4 := Apply(u, y3, Receive(5));
    assert y4.runners == map[5 := Progress(Done, 1), 7 := Progress(Awaiting, 0)];
    RunOn(u, y3, Receive(5), []);
    RunOn(u, y2, ReadOne, [Receive(5)]);
    RunOn(u, y1, Begin(7), [ReadOne, Receive(5)]);
    RunOn(u, y0, Begin(5), [Begin(7), ReadOne, Receive(5)]);
    assert [Receive(5)] + [] == [Receive(5)] && [ReadOne] + [Receive(5)] == [ReadOne, Receive(5)];
    assert [Begin(7)] + [ReadOne, Receive(5)] == [Begin(7), ReadOne, Receive(5)];
    assert [Begin(5)] + [Begin(7), ReadOne, Receive(5)] == [Begin(5), Begin(7), ReadOne, Receive(5)];
  }
}
