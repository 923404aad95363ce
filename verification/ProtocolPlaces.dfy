/** Reading one message keeps every execute runner in one of its situations. */
module ProtocolPlaces {
  import opened Messages
  import opened Sums
  import opened ControllerModel
  import opened ControllerInvariants
  import opened ProtocolModel

  lemma TransitHead(server: seq<RpcMessage>, p: int)
    requires server != []
    ensures forall kind :: InTransit(server, p, kind)
                        == InTransit(server[1..], p, kind) + SentBy(p, kind)(server[0])
  {
    forall kind { SumHead(server, SentBy(p, kind)); }
  }

  /** A job that is held is somewhere on the queue. */
  lemma HeldSomewhere(q: seq<Job>, p: int) returns (i: nat)
    requires Held(q, p) > 0
    ensures i < |q| && q[i].runnerPid == p
  {
    i := SumPositive(q, OfRunner(p));
  }

  lemma PlacedAfterRefusal(u: Setup, s: State, server: seq<RpcMessage>, r: Progress, p: int, w: int)
    requires server != [] && server[0].kind == SUBMIT && Genuine(u, server[0]) && s.shuttingDown
    requires Placed(s, server, r, p, w)
    ensures Placed(s.(sent := s.sent + [RefusalFor(u.cfg, server[0])]), server[1..], r, p, w)
  {
    TransitHead(server, p);
    ToNext(s.sent, RefusalFor(u.cfg, server[0]), p);
  }

  lemma PlacedAfterSubmit(u: Setup, s: State, server: seq<RpcMessage>, r: Progress, p: int, w: int)
    requires server != [] && server[0].kind == SUBMIT && Genuine(u, server[0])
    requires p in u.roles && u.roles[p].Execute? && u.roles[p].userId == w
    requires Placed(s, server, r, p, w)
    ensures Placed(HandleSubmit(u.cfg, s, server[0]), server[1..], r, p, w)
  {
    TransitHead(server, p);
    if s.runningCount < u.cfg.limit {
      PlacedAfterStart(u, s, server, r, p, w);
    } else {
      SumAppend(s.waiting, JobOf(server[0]), OfRunner(p));
    }
  }

  lemma PlacedAfterStart(u: Setup, s: State, server: seq<RpcMessage>, r: Progress, p: int, w: int)
    requires server != [] && server[0].kind == SUBMIT && Genuine(u, server[0])
    requires p in u.roles && u.roles[p].Execute? && u.roles[p].userId == w
    requires Placed(s, server, r, p, w) && s.runningCount < u.cfg.limit
    ensures Placed(HandleSubmit(u.cfg, s, server[0]), server[1..], r, p, w)
  {
    TransitHead(server, p);
    SumAppend(s.running, JobOf(server[0]), OfRunner(p));
    ToNext(s.sent, AckFor(u.cfg, JobOf(server[0])), p);
  }

  /** A DONE message in transit belongs to a running job, which it finishes. */
  lemma DoneFinds(u: Setup, s: State, server: seq<RpcMessage>, r: Progress, p: int, w: int) returns (i: nat)
    requires Placed(s, server, r, p, w) && InTransit(server, p, DONE) > 0 && AllOwned(u, s.running)
    ensures IndexOfCommand(s.running, p) == Some(i) && i < |s.running| && s.running[i].runnerPid == p
  {
    var k := HeldSomewhere(s.running, p);
    assert s.running[k].commandId == p;
    i := IndexOfCommand(s.running, p).value;
    assert Owned(u, s.running[i]);
  }

  lemma PlacedAfterFinish(s: State, server: seq<RpcMessage>, r: Progress, i: nat, p: int, w: int)
    requires server != [] && server[0].kind == DONE
    requires i < |s.running| && IndexOfCommand(s.running, server[0].commandId) == Some(i)
    requires s.running[i].runnerPid == server[0].senderPid
    requires Placed(s, server, r, p, w)
    ensures Placed(Finish(s, server[0].commandId), server[1..], r, p, w)
  {
    TransitHead(server, p);
    SumRemove(s.running, i, OfRunner(p));
    SumAppend(s.finished, s.running[i], OfRunner(p));
  }

  lemma PlacedAfterPromote(u: Setup, s: State, server: seq<RpcMessage>, r: Progress, p: int, w: int)
    requires s.waiting != [] && AllOwned(u, s.waiting)
    requires p in u.roles && u.roles[p].Execute? && u.roles[p].userId == w
    requires Placed(s, server, r, p, w)
    ensures Placed(Promote(u.cfg, s), server, r, p, w)
  {
    var i := PickIndex(u.cfg, s);
    var j := s.waiting[i];
    assert Owned(u, j);
    SumRemove(s.waiting, i, OfRunner(p));
    SumAppend(s.running, j, OfRunner(p));
    ToNext(s.sent, AckFor(u.cfg, j), p);
  }

  /** Messages to others do not matter. */
  lemma PlacedAfterOthers(s: State, sent: seq<Envelope>, server: seq<RpcMessage>, r: Progress, p: int, w: int)
    requires Placed(s, server, r, p, w)
    requires forall i :: 0 <= i < |sent| ==> sent[i].to != p
    ensures Placed(s.(sent := s.sent + sent), server, r, p, w)
  {
    ToConcat(s.sent, sent, p);
    ToNobody(sent, p);
  }

  lemma PlacedAfterDone(u: Setup, s: State, server: seq<RpcMessage>, r: Progress, rp: Progress, p: int, w: int)
    requires ValidConfig(u.cfg) && WorkConserving(u.cfg, s)
    requires server != [] && server[0].kind == DONE && Genuine(u, server[0])
    requires AllOwned(u, s.waiting) && AllOwned(u, s.running)
    requires p in u.roles && u.roles[p].Execute? && u.roles[p].userId == w
    requires Placed(s, server, r, p, w)
    requires Placed(s, server, rp, server[0].senderPid, server[0].userId)
    ensures Placed(HandleDone(u.cfg, s, server[0]), server[1..], r, p, w)
  {
    var m := server[0];
    TransitHead(server, m.senderPid);
    var i := DoneFinds(u, s, server, rp, m.senderPid, m.userId);
    PlacedAfterFinish(s, server, r, i, p, w);
    DonePromotesOnce(u.cfg, s, m);
    var f := Finish(s, m.commandId);
    if f.waiting != [] && f.runningCount < u.cfg.limit {
      PlacedAfterPromote(u, f, server[1..], r, p, w);
    }
  }

  lemma PlacedAfterHead(s: State, server: seq<RpcMessage>, r: Progress, p: int, w: int)
    requires server != [] && server[0].senderPid != p && Placed(s, server, r, p, w)
    ensures Placed(s, server[1..], r, p, w)
  {
    TransitHead(server, p);
  }
}
