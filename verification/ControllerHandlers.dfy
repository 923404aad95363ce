/** The controller as it runs: fields, two linked queues and a growing array of users,
    updated in place. Every handler is tied to the value model. */
module ControllerHandlers {
  import opened Messages
  import opened FairPolicy
  import opened JobQueues
  import opened ControllerModel
  import opened ServerRuns

  /** Default limit 4 and policy fcfs; a positive first argument is the limit, a second
      argument the policy, cut to the 31 characters its field can hold. */
  method Configure(limitArg: Option<int>, policyArg: Option<string>, pid: int, rand: nat -> nat)
    returns (cfg: Config)
    requires pid > 0
    ensures ValidConfig(cfg) && cfg.pid == pid && cfg.rand == rand
    ensures cfg.limit == if limitArg.Some? && limitArg.value > 0 then limitArg.value else 4
    ensures Fair(cfg) <==> policyArg == Some("fair")
    ensures Random(cfg) <==> policyArg == Some("random")
    ensures policyArg == None ==> cfg.policy == "fcfs"
  {
    var parallelLimit := 4;
    var policy := "fcfs";
    if limitArg.Some? && limitArg.value > 0 { parallelLimit := limitArg.value; }
    if policyArg.Some? {
      var p := policyArg.value;
      policy := if |p| <= 31 then p else p[..31];
    }
    cfg := Config(parallelLimit, policy, pid, rand);
  }

  class Controller {
    const cfg: Config
    const waitingQueue: JobQueue
    const runningQueue: JobQueue
    var runningCount: int
    var keepRunning: bool
    var isShuttingDown: bool
    var shutdownRequesterPid: int
    var lastScheduledUser: int
    /** Length is the allocated capacity; the first fairUserCount entries are in use. */
    var fairUsers: array<int>
    var fairUserCount: nat
    /** How many numbers rand has produced. */
    var draws: nat
    /** Everything written to runner FIFOs, in order. */
    var outbox: seq<Envelope>
    ghost var accepted: seq<Job>
    ghost var acked: seq<Job>
    ghost var finished: seq<Job>

    ghost var Repr: set<object>

    ghost predicate Valid()
      reads this, Repr
    {
      && this in Repr && waitingQueue in Repr && runningQueue in Repr && fairUsers in Repr
      && waitingQueue.nodes <= Repr && runningQueue.nodes <= Repr
      && waitingQueue != runningQueue && waitingQueue.nodes !! runningQueue.nodes
      && waitingQueue.Valid() && runningQueue.Valid()
      && fairUserCount <= fairUsers.Length
    }

    ghost function Ring(): seq<int>
      reads this, fairUsers
      requires fairUserCount <= fairUsers.Length
    {
      fairUsers[..fairUserCount]
    }

    ghost function View(): State
      reads this, waitingQueue, runningQueue, fairUsers
      requires fairUserCount <= fairUsers.Length
    {
      State(runningCount, keepRunning, isShuttingDown, shutdownRequesterPid, lastScheduledUser, Ring(),
            waitingQueue.Contents(), runningQueue.Contents(), draws, outbox, accepted, acked, finished)
    }

    constructor (cfg: Config)
      ensures Valid() && fresh(Repr) && this.cfg == cfg && View() == Initial
      ensures runningCount == fairUserCount == draws == 0 && keepRunning && !isShuttingDown
      ensures shutdownRequesterPid == lastScheduledUser == -1 && outbox == []
    {
      this.cfg := cfg;
      runningCount, keepRunning, isShuttingDown := 0, true, false;
      shutdownRequesterPid, lastScheduledUser := -1, -1;
      fairUsers := new int[0];
      fairUserCount := 0;
      waitingQueue := new JobQueue();
      runningQueue := new JobQueue();
      draws, outbox := 0, [];
      accepted, acked, finished := [], [], [];
      new;
      Repr := {this, waitingQueue, runningQueue, fairUsers};
    }

    /** Add a user to the ring unless present, doubling the array when it is full. */
    method RememberFairUser(userId: int)
      requires Valid()
      modifies this`fairUsers, this`fairUserCount, this`Repr, fairUsers
      ensures Valid() && fresh(Repr - old(Repr))
      ensures Ring() == Remember(old(Ring()), userId)
      ensures fairUsers.Length == old(fairUsers.Length)
           || fairUsers.Length == if old(fairUsers.Length) == 0 then 8 else 2 * old(fairUsers.Length)
    {
      for i := 0 to fairUserCount
        invariant Repr == old(Repr) && fairUsers == old(fairUsers) && Ring() == old(Ring()) && |Ring()| == fairUserCount
        invariant userId !in Ring()[..i]
      {
        if fairUsers[i] == userId { return; }
      }
      if fairUserCount == fairUsers.Length {
        var newCapacity := if fairUsers.Length == 0 then 8 else fairUsers.Length * 2;
        var newUsers := new int[newCapacity];
        for i := 0 to fairUserCount
          invariant Repr == old(Repr) && fairUsers == old(fairUsers) && fairUserCount == old(fairUserCount)
          invariant Ring() == old(Ring())
          invariant newUsers[..i] == Ring()[..i]
        {
          newUsers[i] := fairUsers[i];
        }
        fairUsers := newUsers;
        Repr := Repr + {newUsers};
      }
      fairUsers[fairUserCount] := userId;
      fairUserCount := fairUserCount + 1;
    }

    /** Put a job on the running queue, take a slot, and tell its runner. */
    method AuthorizeJob(job: Job)
      requires Valid()
      modifies Repr
      ensures Valid() && fresh(Repr - old(Repr))
      ensures View() == Authorize(cfg, old(View()), job)
    {
      hide JobQueue.Valid, JobQueue.Contents;
      runningQueue.Enqueue(job);
      Repr := Repr + runningQueue.nodes;
      runningCount := runningCount + 1;
      lastScheduledUser := job.userId;
      outbox := outbox + [AckFor(cfg, job)];
      acked := acked + [job];
    }

    /** Take the job that the policy serves next off the waiting queue. */
    method DequeueByPolicy() returns (job: Job)
      requires Valid() && waitingQueue.Contents() != []
      modifies this`draws, this`lastScheduledUser, waitingQueue, waitingQueue.nodes
      ensures Valid() && waitingQueue.nodes == old(waitingQueue.nodes)
      ensures var q := old(waitingQueue.Contents());
              var i := Choose(cfg, q, old(Ring()), old(lastScheduledUser), old(draws));
              job == q[i] && waitingQueue.Contents() == RemoveAt(q, i)
      ensures draws == if Random(cfg) then old(draws) + 1 else old(draws)
      ensures cfg.policy == "random" ==>
                var q := old(waitingQueue.Contents());
                var i := cfg.rand(old(draws)) % |q|;
                job == q[i] && waitingQueue.Contents() == RemoveAt(q, i) && draws == old(draws) + 1
      ensures cfg.policy != "random" && cfg.policy != "fair" ==>
                job == old(waitingQueue.Contents())[0] && waitingQueue.Contents() == old(waitingQueue.Contents())[1..]
      ensures cfg.policy == "fair" ==>
                job.userId == NextFairUser(Users(old(waitingQueue.Contents())), old(Ring()), old(lastScheduledUser))
    {
      hide JobQueue.Valid, JobQueue.Contents, RemoveAt, FairIndex;
      var next: Option<Job>;
      if cfg.policy == "random" {
        next := waitingQueue.DequeueRandom(cfg.rand(draws));
        draws := draws + 1;
      } else if cfg.policy == "fair" {
        next, lastScheduledUser := waitingQueue.DequeueFair(fairUsers[..fairUserCount], lastScheduledUser);
      } else {
        next := waitingQueue.Dequeue();
      }
      job := next.value;
    }

    method PromoteNext()
      requires Valid() && waitingQueue.Contents() != []
      modifies Repr
      ensures Valid() && fresh(Repr - old(Repr))
      ensures View() == Promote(cfg, old(View()))
    {
      hide Choose, RemoveAt, JobQueue.Valid, JobQueue.Contents;
      ghost var s := View();
      var nextJob := DequeueByPolicy();
      ghost var taken := s.(waiting := RemoveAt(s.waiting, PickIndex(cfg, s)),
                            draws := if Random(cfg) then s.draws + 1 else s.draws);
      assert View() == taken.(last := lastScheduledUser);
      AuthorizeSetsLast(cfg, taken, lastScheduledUser, nextJob);
      AuthorizeJob(nextJob);
    }

    method StartWaitingJobs()
      requires Valid()
      modifies Repr
      ensures Valid() && fresh(Repr - old(Repr))
      ensures View() == StartWaiting(cfg, old(View()))
    {
      ghost var goal := StartWaiting(cfg, View());
      while runningCount < cfg.limit && waitingQueue.size != 0
        invariant Valid() && fresh(Repr - old(Repr))
        invariant StartWaiting(cfg, View()) == goal
        decreases |View().waiting|
      {
        StartWaitingStep(cfg, View());
        PromoteNext();
      }
    }

    /** Record a submission: in the history and on the user ring. */
    method NoteSubmission(job: Job)
      requires Valid()
      modifies this`accepted, this`fairUsers, this`fairUserCount, this`Repr, fairUsers
      ensures Valid() && fresh(Repr - old(Repr))
      ensures View() == old(View()).(ring := Remember(old(Ring()), job.userId), accepted := old(accepted) + [job])
    {
      accepted := accepted + [job];
      RememberFairUser(job.userId);
    }

    method QueueJob(job: Job)
      requires Valid()
      modifies Repr
      ensures Valid() && fresh(Repr - old(Repr))
      ensures View() == old(View()).(waiting := old(View()).waiting + [job])
    {
      hide JobQueue.Valid, JobQueue.Contents;
      waitingQueue.Enqueue(job);
      Repr := Repr + waitingQueue.nodes;
    }

    method HandleSubmit(msg: RpcMessage)
      requires Valid()
      modifies Repr
      ensures Valid() && fresh(Repr - old(Repr))
      ensures View() == ControllerModel.HandleSubmit(cfg, old(View()), msg)
    {
      var job := Job(msg.commandId, msg.userId, msg.senderPid);
      NoteSubmission(job);
      if runningCount < cfg.limit {
        AuthorizeJob(job);
      } else {
        QueueJob(job);
      }
    }

    /** Take the job with a command identifier off the running queue, if it is there. */
    method FinishJob(commandId: int)
      requires Valid()
      modifies this`runningCount, this`finished, runningQueue, runningQueue.nodes
      ensures Valid()
      ensures View() == Finish(old(View()), commandId)
    {
      hide JobQueue.Valid, JobQueue.Contents, RemoveAt, IndexOfCommand;
      var finishedJob := runningQueue.RemoveByCommandId(commandId);
      if finishedJob.Some? {
        finished := finished + [finishedJob.value];
        if runningCount > 0 { runningCount := runningCount - 1; }
      }
    }

    method HandleDone(msg: RpcMessage)
      requires Valid()
      modifies Repr
      ensures Valid() && fresh(Repr - old(Repr))
      ensures View() == ControllerModel.HandleDone(cfg, old(View()), msg)
    {
      FinishJob(msg.commandId);
      StartWaitingJobs();
    }

    method WriteStatusMessage(to: int, kind: MsgType, payload: Payload)
      modifies this`outbox
      ensures outbox == old(outbox) + [Envelope(to, RpcMessage(kind, cfg.pid, 0, 0, payload))]
    {
      outbox := outbox + [Envelope(to, RpcMessage(kind, cfg.pid, 0, 0, payload))];
    }

    method WriteStatusJobs(to: int, jobs: seq<Job>)
      modifies this`outbox
      ensures outbox == old(outbox) + StatusLines(cfg, to, jobs)
    {
      for i := 0 to |jobs|
        invariant outbox == old(outbox) + StatusLines(cfg, to, jobs)[..i]
      {
        WriteStatusMessage(to, STATUS_RESP, JobLine(jobs[i].userId, jobs[i].commandId));
      }
    }

    method RunningSnapshot() returns (run: seq<Job>)
      requires Valid()
      ensures run == runningQueue.Contents()
    {
      if runningQueue.size <= 0 { return []; }
      var runArr := new Job[runningQueue.size];
      var runCount := runningQueue.CopyToArray(runArr, runningQueue.size);
      return runArr[..runCount];
    }

    method WaitingSnapshot() returns (wait: seq<Job>)
      requires Valid()
      ensures var q := waitingQueue.Contents();
              wait == if Fair(cfg) then BeforeSentinel(FairOrder(q, Ring(), lastScheduledUser)) else q
    {
      assert waitingQueue.size == |waitingQueue.Contents()|;
      hide FairOrder, BeforeSentinel, JobQueue.Valid, JobQueue.Contents;
      if waitingQueue.size <= 0 { return []; }
      var waitArr := new Job[waitingQueue.size];
      if cfg.policy == "fair" {
        ghost var order := FairOrder(waitingQueue.Contents(), Ring(), lastScheduledUser);
        assert order[..|order|] == order;
        var ring := fairUsers[..fairUserCount];
        var waitCount := waitingQueue.CopyFairToArray(waitArr, waitingQueue.size, lastScheduledUser, ring);
        return waitArr[..waitCount];
      } else {
        var waitCount := waitingQueue.CopyToArray(waitArr, waitingQueue.size);
        return waitArr[..waitCount];
      }
    }

    method WriteStatusReply(to: int, run: seq<Job>, wait: seq<Job>)
      modifies this`outbox
      ensures outbox == old(outbox) + StatusMessages(cfg, to, run, wait)
    {
      hide StatusLines;
      StatusMessagesPieces(cfg, to, run, wait, outbox);
      WriteStatusMessage(to, STATUS_RESP, ExecutingHeader);
      WriteStatusJobs(to, run);
      WriteStatusMessage(to, STATUS_RESP, ScheduledHeader);
      WriteStatusJobs(to, wait);
      WriteStatusMessage(to, STATUS_END, Blank);
    }

    method HandleStatusReq(msg: RpcMessage)
      requires Valid()
      modifies this`outbox
      ensures Valid() && View() == ControllerModel.HandleStatusReq(cfg, old(View()), msg)
    {
      hide StatusMessages;
      var run := RunningSnapshot();
      var wait := WaitingSnapshot();
      WriteStatusReply(msg.senderPid, run, wait);
    }

    method HandleShutdownReq(msg: RpcMessage)
      requires Valid()
      modifies this`isShuttingDown, this`shutdownRequesterPid
      ensures Valid() && View() == ControllerModel.HandleShutdownReq(old(View()), msg)
    {
      isShuttingDown := true;
      shutdownRequesterPid := msg.senderPid;
    }

    method TryFinishShutdown() returns (stop: bool)
      requires Valid()
      modifies this`outbox, this`keepRunning
      ensures Valid() && View() == TryFinish(old(View()))
      ensures stop <==> MustStop(old(View()))
      ensures var ack := RpcMessage(SHUTDOWN_ACK, 0, 0, 0, Blank);
              stop ==> outbox == old(outbox) + [Envelope(old(shutdownRequesterPid), ack)]
      ensures stop <==> old(isShuttingDown) && old(runningCount) == 0 && old(waitingQueue.Contents()) == []
    {
      var empty := waitingQueue.IsEmpty();
      if !isShuttingDown || runningCount != 0 || !empty { return false; }
      outbox := outbox + [Envelope(shutdownRequesterPid, FinalAck)];
      keepRunning := false;
      return true;
    }

    method ProcessMessage(msg: RpcMessage)
      requires Valid()
      modifies Repr
      ensures Valid() && fresh(Repr - old(Repr))
      ensures View() == Process(cfg, old(View()), msg) && keepRunning == old(keepRunning)
    {
      if msg.kind == SUBMIT { HandleSubmit(msg); return; }
      if msg.kind == DONE { HandleDone(msg); return; }
      if msg.kind == STATUS_REQ { HandleStatusReq(msg); return; }
      if msg.kind == SHUTDOWN_REQ { HandleShutdownReq(msg); return; }
    }

    /** Handle one message; the result says whether the main loop should stop. */
    method HandleMessage(msg: RpcMessage) returns (stop: bool)
      requires Valid()
      modifies Repr
      ensures Valid() && fresh(Repr - old(Repr))
      ensures View() == Handle(cfg, old(View()), msg)
      ensures old(keepRunning) ==> (stop <==> !keepRunning)
      ensures msg.kind == SUBMIT && old(isShuttingDown) ==>
                View() == old(View()).(sent := old(outbox) +
                  [Envelope(msg.senderPid, RpcMessage(SHUTDOWN_ACK, cfg.pid, msg.userId, msg.commandId, Blank))])
    {
      if msg.kind == SUBMIT && isShuttingDown {
        outbox := outbox + [RefusalFor(cfg, msg)];
        return false;
      }
      ProcessMessage(msg);
      stop := TryFinishShutdown();
    }

    /** The main loop: each session is what one opening of the server FIFO delivers until
        end of file. Sessions are read until the controller stops or none is left; what
        remains unread of the last session is lost. */
    method Serve(sessions: seq<seq<RpcMessage>>)
      requires Valid() && keepRunning
      modifies Repr
      ensures Valid() && fresh(Repr - old(Repr))
      ensures View() == Run(cfg, old(View()), Flatten(sessions))
      ensures keepRunning ==> View() == HandleAll(cfg, old(View()), Flatten(sessions))
    {
      AllSessionsHandled(cfg, View(), sessions);
      ghost var goal := Run(cfg, View(), Flatten(sessions));
      var k := 0;
      assert sessions[0..] == sessions;
      while keepRunning && k < |sessions|
        invariant k <= |sessions| && Valid() && fresh(Repr - old(Repr))
        invariant Run(cfg, View(), Flatten(sessions[k..])) == goal
      {
        assert Flatten(sessions[k..]) == sessions[k] + Flatten(sessions[k + 1..]);
        RunAppend(cfg, View(), sessions[k], Flatten(sessions[k + 1..]));
        ServeSession(sessions[k]);
        k := k + 1;
      }
    }

    method ServeSession(msgs: seq<RpcMessage>)
      requires Valid() && keepRunning
      modifies Repr
      ensures Valid() && fresh(Repr - old(Repr))
      ensures View() == Run(cfg, old(View()), msgs)
    {
      ghost var goal := Run(cfg, View(), msgs);
      var i, stop := 0, false;
      assert msgs[0..] == msgs;
      while i < |msgs| && !stop
        invariant i <= |msgs| && Valid() && fresh(Repr - old(Repr)) && (stop <==> !keepRunning)
        invariant Run(cfg, View(), msgs[i..]) == goal
        decreases |msgs| - i
      {
        assert msgs[i..][1..] == msgs[i + 1..];
        stop := HandleMessage(msgs[i]);
        i := i + 1;
      }
    }
  }
}
