/** What the fair policy guarantees over whole runs. */
module FairRuns {
  import opened Messages
  import opened FairPolicy
  import opened ControllerModel
  import opened ControllerInvariants

  // -------- moving around the ring --------

  /** Serving v brings everybody behind v closer, by the distance of v. */
  lemma DistanceAfter(ring: seq<int>, last: int, v: int, u: int)
    requires NoDuplicates(ring) && v in ring && u in ring
    ensures Distance(ring, v, u)
         == if Distance(ring, last, v) < Distance(ring, last, u)
            then Distance(ring, last, u) - Distance(ring, last, v)
            else Distance(ring, last, u) - Distance(ring, last, v) + |ring|
  {
  }

  lemma IndexAppend(ring: seq<int>, x: int, u: int)
    requires x !in ring
    ensures IndexOf(ring + [x], u) == if u == x then |ring| else IndexOf(ring, u)
  {
    var longer := ring + [x];
    var i, k := IndexOf(ring, u), IndexOf(longer, u);
    if u == x {
      assert longer[|ring|] == u;
    } else if i >= 0 {
      assert longer[i] == u && longer[k] == ring[k];
    } else {
      assert u !in longer;
    }
  }

  /** Registering a new user does not change who comes before whom. */
  lemma DistanceAppend(ring: seq<int>, last: int, x: int, u: int, w: int)
    requires x !in ring && u in ring && w in ring
    requires Distance(ring, last, u) < Distance(ring, last, w)
    ensures Distance(ring + [x], last, u) < Distance(ring + [x], last, w)
  {
    IndexAppend(ring, x, u);
    IndexAppend(ring, x, w);
    IndexAppend(ring, x, last);
  }

  /** The jobs authorized between two states of a run. */
  function Acks(s: State, e: State): seq<Job>
    requires |s.acked| <= |e.acked|
  {
    e.acked[|s.acked|..]
  }

  // -------- one dispatch --------

  /** Every promotion serves the waiting user that comes first after the last one. */
  lemma PromoteServesNearest(cfg: Config, s: State)
    requires Fair(cfg) && s.waiting != [] && Conserving(s) && Registered(s)
    ensures var v := s.waiting[PickIndex(cfg, s)].userId;
            && v in s.ring && Waits(s.waiting, v)
            && forall w {:trigger Waits(s.waiting, w)} :: Waits(s.waiting, w) && w != v ==>
                 w in s.ring && Distance(s.ring, s.last, v) < Distance(s.ring, s.last, w)
  {
    UsersAreThoseWaiting(s.accepted);
    UsersAreThoseWaiting(s.waiting);
    forall w | Waits(s.waiting, w) ensures w in s.ring { WaitingRegistered(s, w); }
    NextFairUserNearest(Users(s.waiting), s.ring, s.last, NextFairUser(Users(s.waiting), s.ring, s.last));
  }

  lemma PromoteServesBefore(cfg: Config, s: State, u: int)
    requires Fair(cfg) && Conserving(s) && Registered(s) && Waits(s.waiting, u)
    ensures var v := s.waiting[PickIndex(cfg, s)].userId;
            && NoDuplicates(s.ring) && u in s.ring && v in s.ring
            && (v != u ==> Distance(s.ring, s.last, v) < Distance(s.ring, s.last, u))
  {
    UsersAreThoseWaiting(s.accepted);
    PromoteServesNearest(cfg, s);
  }

  lemma PromoteAlternates(cfg: Config, s: State)
    requires Fair(cfg) && s.waiting != [] && Conserving(s) && Registered(s)
    requires s.waiting[PickIndex(cfg, s)].userId == s.last
    ensures forall i :: 0 <= i < |s.waiting| ==> s.waiting[i].userId == s.last
  {
    PromoteServesNearest(cfg, s);
    forall i | 0 <= i < |s.waiting|
      ensures s.waiting[i].userId == s.last
    {
      assert Waits(s.waiting, s.waiting[i].userId);
      assert Distance(s.ring, s.last, s.last) == |s.ring|;
    }
  }

  /** A user with two dispatches in a row had no competitor at the second: then nobody
      else is waiting. This includes jobs started directly by a submission. */
  lemma Alternation(cfg: Config, s: State, m: RpcMessage)
    requires Inv(cfg, s) && s.keepRunning && Fair(cfg) && s.acked != []
    requires var h := Handle(cfg, s, m);
             && |h.acked| == |s.acked| + 1
             && h.acked[|s.acked|].userId == s.acked[|s.acked| - 1].userId
    ensures forall i :: 0 <= i < |s.waiting| ==> s.waiting[i].userId == s.acked[|s.acked| - 1].userId
  {
    var e := HandleEffect(cfg, s, m);
    EffectAlternates(cfg, s, Handle(cfg, s, m), e);
  }

  lemma EffectAlternates(cfg: Config, s: State, t: State, e: Effect)
    requires Fair(cfg) && Conserving(s) && Registered(s) && s.acked != [] && HasEffect(cfg, s, t, e)
    requires |t.acked| == |s.acked| + 1 && t.acked[|s.acked|].userId == s.last
    ensures forall i :: 0 <= i < |s.waiting| ==> s.waiting[i].userId == s.last
  {
    if e.Serve? { PromoteAlternates(cfg, s); }
  }

  // -------- bounded overtaking --------

  ghost predicate DistinctUsers(h: seq<Job>) {
    forall i, j :: 0 <= i < j < |h| ==> h[i].userId != h[j].userId
  }

  /** Every owner of a job in h is on the ring and comes after u, going round from last. */
  ghost predicate AllAfter(ring: seq<int>, last: int, u: int, h: seq<Job>)
    requires u in ring
  {
    forall i :: 0 <= i < |h| ==>
      h[i].userId in ring && Distance(ring, last, u) < Distance(ring, last, h[i].userId)
  }

  ghost predicate Passed(s: State, u: int, h: seq<Job>) {
    u in s.ring && AllAfter(s.ring, s.last, u, h)
  }

  lemma ServePasses(cfg: Config, s: State, t: State, u: int, h: seq<Job>)
    requires Fair(cfg) && Conserving(s) && Registered(s) && Waits(s.waiting, u)
    requires Passed(s, u, h) && DistinctUsers(h)
    requires HasEffect(cfg, s, t, Serve(PickIndex(cfg, s))) && t.last != u
    ensures Passed(t, u, h + [s.waiting[PickIndex(cfg, s)]]) && DistinctUsers(h + [s.waiting[PickIndex(cfg, s)]])
  {
    PromoteServesBefore(cfg, s, u);
    PassOne(s.ring, s.last, s.waiting[PickIndex(cfg, s)], u, h);
  }

  lemma PassOne(ring: seq<int>, last: int, j: Job, u: int, h: seq<Job>)
    requires NoDuplicates(ring) && u in ring && j.userId in ring && j.userId != u
    requires Distance(ring, last, j.userId) < Distance(ring, last, u)
    requires AllAfter(ring, last, u, h) && DistinctUsers(h)
    ensures AllAfter(ring, j.userId, u, h + [j]) && DistinctUsers(h + [j])
  {
    var v := j.userId;
    DistanceAfter(ring, last, v, u);
    DistanceAfter(ring, last, v, v);
    forall k | 0 <= k < |h|
      ensures h[k].userId != v
      ensures Distance(ring, v, u) < Distance(ring, v, h[k].userId)
    {
      DistanceAfter(ring, last, v, h[k].userId);
    }
  }

  lemma WaitsAfterRemoval(q: seq<Job>, i: nat, u: int)
    requires i < |q| && Waits(q, u) && q[i].userId != u
    ensures Waits(RemoveAt(q, i), u)
  {
    var k :| 0 <= k < |q| && q[k].userId == u;
    assert RemoveAt(q, i)[if k < i then k else k - 1].userId == u;
  }

  lemma RegisterPasses(s: State, x: int, u: int, h: seq<Job>)
    requires Passed(s, u, h)
    ensures Passed(s.(ring := Remember(s.ring, x)), u, h)
  {
    if x !in s.ring {
      forall i | 0 <= i < |h|
        ensures Distance(s.ring + [x], s.last, u) < Distance(s.ring + [x], s.last, h[i].userId)
      {
        DistanceAppend(s.ring, s.last, x, u, h[i].userId);
      }
    }
  }

  /** No job of u is authorized between s and e. */
  ghost predicate NotServed(s: State, e: State, u: int) {
    forall i :: |s.acked| <= i < |e.acked| ==> e.acked[i].userId != u
  }

  lemma EffectPasses(cfg: Config, s: State, t: State, e: Effect, u: int, h: seq<Job>)
    requires Fair(cfg) && Conserving(s) && Registered(s) && HasEffect(cfg, s, t, e)
    requires Waits(s.waiting, u) && Passed(s, u, h) && DistinctUsers(h) && NotServed(s, t, u)
    ensures Waits(t.waiting, u)
    ensures |s.acked| <= |t.acked| && Passed(t, u, h + Acks(s, t)) && DistinctUsers(h + Acks(s, t))
  {
    match e
    case Serve(i) =>
      assert t.acked[|s.acked|] == s.waiting[i];
      assert Acks(s, t) == [s.waiting[i]];
      WaitsAfterRemoval(s.waiting, i, u);
      ServePasses(cfg, s, t, u, h);
    case Queue(j) =>
      WaitsAppend(s.waiting, j, u);
      RegisterPasses(s, j.userId, u, h);
      assert h + Acks(s, t) == h;
    case Quiet =>
      assert h + Acks(s, t) == h;
    case Start(_) =>
  }

  lemma WaitsAppend(q: seq<Job>, j: Job, u: int)
    requires Waits(q, u)
    ensures Waits(q + [j], u)
  {
    var k :| 0 <= k < |q| && q[k].userId == u;
    assert (q + [j])[k].userId == u;
  }

  lemma SplitRun(s: State, t: State, e: State, u: int, h: seq<Job>)
    requires Grows(s, t) && Grows(t, e)
    ensures NotServed(s, e, u) ==> NotServed(s, t, u) && NotServed(t, e, u)
    ensures (h + Acks(s, t)) + Acks(t, e) == h + Acks(s, e)
  {
    assert e.acked[..|t.acked|] == t.acked;
  }

  lemma {:induction false} RunPasses(cfg: Config, s: State, msgs: seq<RpcMessage>, u: int, h: seq<Job>)
    requires Inv(cfg, s) && Fair(cfg)
    requires Waits(s.waiting, u) && Passed(s, u, h) && DistinctUsers(h)
    requires NotServed(s, Run(cfg, s, msgs), u)
    ensures var e := Run(cfg, s, msgs);
            Grows(s, e) && Waits(e.waiting, u) && DistinctUsers(h + Acks(s, e))
    decreases |msgs|
  {
    var e := Run(cfg, s, msgs);
    RunGrows(cfg, s, msgs);
    if msgs == [] || !s.keepRunning {
      assert h + Acks(s, s) == h;
    } else {
      var t := Handle(cfg, s, msgs[0]);
      var effect := HandleEffect(cfg, s, msgs[0]);
      EffectGrows(cfg, s, t, effect);
      HandleKeepsInv(cfg, s, msgs[0]);
      RunGrows(cfg, t, msgs[1..]);
      SplitRun(s, t, e, u, h);
      EffectPasses(cfg, s, t, effect, u, h);
      RunPasses(cfg, t, msgs[1..], u, h + Acks(s, t));
    }
  }

  /** While a user waits without being served, no other user is served twice, however
      many messages arrive and however many new users register. */
  lemma BoundedOvertaking(cfg: Config, s: State, msgs: seq<RpcMessage>, u: int)
    requires Inv(cfg, s) && Fair(cfg) && Waits(s.waiting, u) && NotServed(s, Run(cfg, s, msgs), u)
    ensures var e := Run(cfg, s, msgs); Grows(s, e) && Waits(e.waiting, u) && DistinctUsers(Acks(s, e))
  {
    WaitingRegistered(s, u);
    RunPasses(cfg, s, msgs, u, []);
    assert [] + Acks(s, Run(cfg, s, msgs)) == Acks(s, Run(cfg, s, msgs));
  }

  // -------- quantitative bound --------

  lemma {:induction false} OfConcat(a: seq<Job>, b: seq<Job>, u: int)
    ensures Of(a + b, u) == Of(a, u) + Of(b, u)
    decreases |b|
  {
    if b == [] {
      assert a + b == a;
    } else {
      var n := |b| - 1;
      assert a + b == (a + b[..n]) + [b[n]] && b == b[..n] + [b[n]];
      OfConcat(a, b[..n], u);
      OfNext(a + b[..n], b[n], u);
    }
  }

  lemma OfPrefix(h: seq<Job>, k: nat, u: int)
    requires k <= |h|
    ensures Of(h[..k], u) <= Of(h, u)
  {
    assert h == h[..k] + h[k..];
    OfConcat(h[..k], h[k..], u);
  }

  /** n dispatches for every turn after the first. */
  function Turns(n: nat, k: nat): nat
    requires k >= 1
  {
    if k == 1 then 0 else n + Turns(n, k - 1)
  }

  /** d dispatches until the first turn of a user, n until each further one. */
  function Budget(d: nat, n: nat, k: nat): nat
    requires k >= 1
  {
    d + Turns(n, k)
  }

  lemma {:induction false} BudgetIs(d: nat, n: nat, k: nat)
    requires k >= 1
    ensures Budget(d, n, k) == d + (k - 1) * n
  {
    if k > 1 {
      BudgetIs(d, n, k - 1);
      assert (k - 1) * n == (k - 2) * n + n;
    }
  }

  /** The k-th dispatch of u in h comes within the budget, unless h is shorter. */
  ghost predicate ServedWithin(h: seq<Job>, u: int, budget: nat, k: nat) {
    if k == 0 then true
    else if budget == 0 then false
    else if h == [] then true
    else ServedWithin(h[1..], u, budget - 1, if h[0].userId == u then k - 1 else k)
  }

  lemma {:induction false} ServedWithinMore(h: seq<Job>, u: int, budget: nat, more: nat, k: nat)
    requires ServedWithin(h, u, budget, k) && budget <= more
    ensures ServedWithin(h, u, more, k)
  {
    if k > 0 && h != [] {
      ServedWithinMore(h[1..], u, budget - 1, more - 1, if h[0].userId == u then k - 1 else k);
    }
  }

  lemma {:induction false} ServedWithinCounts(h: seq<Job>, u: int, budget: nat, k: nat)
    requires ServedWithin(h, u, budget, k) && budget <= |h|
    ensures |Of(h[..budget], u)| >= k
  {
    if k > 0 {
      var v := h[0];
      ServedWithinCounts(h[1..], u, budget - 1, if v.userId == u then k - 1 else k);
      assert h[..budget] == [v] + h[1..][..budget - 1];
      OfConcat([v], h[1..][..budget - 1], u);
      OfNext([], v, u);
      assert [] + [v] == [v];
    }
  }

  lemma ServeBringsCloser(cfg: Config, s: State, t: State, u: int)
    requires Fair(cfg) && Conserving(s) && Registered(s) && Waits(s.waiting, u)
    requires HasEffect(cfg, s, t, Serve(PickIndex(cfg, s)))
    ensures u in s.ring
    ensures t.last != u ==> Distance(t.ring, t.last, u) < Distance(s.ring, s.last, u)
    ensures t.last == u ==> Distance(t.ring, t.last, u) == |t.ring|
  {
    PromoteServesBefore(cfg, s, u);
    DistanceAfter(s.ring, s.last, t.last, u);
  }

  lemma {:induction false} ManyWait(q: seq<Job>, u: int)
    requires |Of(q, u)| >= 1
    ensures Waits(q, u)
  {
    var n := |q| - 1;
    if q[n].userId != u {
      ManyWait(q[..n], u);
      var i :| 0 <= i < n && q[..n][i].userId == u;
      assert q[i].userId == u;
    }
  }

  /** Dispatches allowed until the k-th service of u. */
  function BudgetOf(s: State, u: int, k: nat): nat
    requires k >= 1 && u in s.ring
  {
    Budget(Distance(s.ring, s.last, u), |s.ring|, k)
  }

  ghost predicate Timely(s: State, e: State, u: int, k: nat) {
    && k >= 1 && u in s.ring && |s.acked| <= |e.acked|
    && ServedWithin(Acks(s, e), u, BudgetOf(s, u, k), k)
  }

  /** Along a run in which no user registers, waiting jobs are served in time. */
  lemma {:induction false} RunIsTimely(cfg: Config, s: State, msgs: seq<RpcMessage>, u: int, k: nat)
    requires Inv(cfg, s) && Fair(cfg) && 1 <= k <= |Of(s.waiting, u)|
    requires Run(cfg, s, msgs).ring == s.ring
    ensures Timely(s, Run(cfg, s, msgs), u, k)
    decreases |msgs|, 1
  {
    if msgs == [] || !s.keepRunning {
      ManyWait(s.waiting, u);
      WaitingRegistered(s, u);
    } else {
      var t := Handle(cfg, s, msgs[0]);
      var effect := HandleEffect(cfg, s, msgs[0]);
      HandleKeepsInv(cfg, s, msgs[0]);
      StepIsTimely(cfg, s, t, effect, msgs[1..], u, k);
    }
  }

  lemma {:induction false} StepIsTimely(cfg: Config, s: State, t: State, effect: Effect,
                                            later: seq<RpcMessage>, u: int, k: nat)
    requires Inv(cfg, s) && Inv(cfg, t) && Fair(cfg) && 1 <= k <= |Of(s.waiting, u)|
    requires HasEffect(cfg, s, t, effect) && Run(cfg, t, later).ring == s.ring
    ensures Timely(s, Run(cfg, t, later), u, k)
    decreases |later|, 3
  {
    EffectGrows(cfg, s, t, effect);
    RunGrows(cfg, t, later);
    RingUnchanged(s, t, Run(cfg, t, later));
    EffectOnWaitingOf(cfg, s, t, effect, u);
    if effect.Serve? {
      ManyWait(s.waiting, u);
      ServeBringsCloser(cfg, s, t, u);
      TurnIsTimely(cfg, s, t, s.waiting[effect.index], later, u, k);
    } else {
      RunIsTimely(cfg, t, later, u, k);
    }
  }

  lemma {:induction false} TurnIsTimely(cfg: Config, s: State, t: State, v: Job, later: seq<RpcMessage>, u: int, k: nat)
    requires Inv(cfg, t) && Fair(cfg) && k >= 1 && |Of(t.waiting, u)| >= if v.userId == u then k - 1 else k
    requires Run(cfg, t, later).ring == t.ring && t.acked <= Run(cfg, t, later).acked
    requires u in s.ring && t.ring == s.ring && t.acked == s.acked + [v]
    requires v.userId != u ==> Distance(t.ring, t.last, u) < Distance(s.ring, s.last, u)
    requires v.userId == u ==> Distance(t.ring, t.last, u) == |t.ring|
    ensures Timely(s, Run(cfg, t, later), u, k)
    decreases |later|, 2
  {
    hide Conserving, Registered, Of, Run;
    if v.userId != u {
      RunIsTimely(cfg, t, later, u, k);
      OtherTurnIsTimely(s, t, Run(cfg, t, later), v, u, k);
    } else if k > 1 {
      RunIsTimely(cfg, t, later, u, k - 1);
      OwnTurnIsTimely(s, t, Run(cfg, t, later), v, u, k);
    } else {
      OwnTurnIsTimely(s, t, Run(cfg, t, later), v, u, k);
    }
  }

  lemma OtherTurnIsTimely(s: State, t: State, e: State, v: Job, u: int, k: nat)
    requires u in s.ring && t.ring == s.ring && t.acked == s.acked + [v] && t.acked <= e.acked && v.userId != u
    requires Distance(t.ring, t.last, u) < Distance(s.ring, s.last, u) && Timely(t, e, u, k)
    ensures Timely(s, e, u, k)
  {
    assert e.acked[..|t.acked|] == t.acked;
    assert Acks(s, e)[0] == v && Acks(s, e)[1..] == Acks(t, e);
    ServedWithinMore(Acks(t, e), u, BudgetOf(t, u, k), BudgetOf(s, u, k) - 1, k);
  }

  lemma OwnTurnIsTimely(s: State, t: State, e: State, v: Job, u: int, k: nat)
    requires k >= 1 && u in s.ring && t.ring == s.ring && v.userId == u
    requires t.acked == s.acked + [v] && t.acked <= e.acked
    requires Distance(t.ring, t.last, u) == |t.ring|
    requires k > 1 ==> Timely(t, e, u, k - 1)
    ensures Timely(s, e, u, k)
  {
    assert e.acked[..|t.acked|] == t.acked;
    assert Acks(s, e)[0] == v && Acks(s, e)[1..] == Acks(t, e);
    if k > 1 { ServedWithinMore(Acks(t, e), u, BudgetOf(t, u, k - 1), BudgetOf(s, u, k) - 1, k - 1); }
  }

  lemma RingUnchanged(s: State, t: State, e: State)
    requires Grows(s, t) && Grows(t, e) && e.ring == s.ring
    ensures t.ring == s.ring
  {
  }

  /** Only serving u takes a job of u off the queue. */
  lemma EffectOnWaitingOf(cfg: Config, s: State, t: State, e: Effect, u: int)
    requires Fair(cfg) && HasEffect(cfg, s, t, e)
    ensures |Of(t.waiting, u)| >= |Of(s.waiting, u)| - if e.Serve? && t.last == u then 1 else 0
  {
    match e
    case Queue(j) => OfNext(s.waiting, j, u);
    case Serve(i) => OfRemoveFirst(s.waiting, i, u);
    case _ =>
  }

  /** If no new user registers, the k-th waiting job of u is among the next
      d + (k-1)*n dispatches, for the distance d of u and n registered users; that is
      at most k*n dispatches. */
  lemma FairBound(cfg: Config, s: State, msgs: seq<RpcMessage>, u: int, k: nat)
    requires Inv(cfg, s) && Fair(cfg) && InOrderPerUser(s)
    requires 1 <= k <= |Of(s.waiting, u)| && Run(cfg, s, msgs).ring == s.ring
    ensures u in s.ring && Grows(s, Run(cfg, s, msgs))
    ensures var budget := Distance(s.ring, s.last, u) + (k - 1) * |s.ring|;
            var h := Acks(s, Run(cfg, s, msgs));
            && 1 <= budget <= k * |s.ring|
            && (|h| >= budget ==> |Of(h[..budget], u)| >= k && Of(h[..budget], u)[k - 1] == Of(s.waiting, u)[k - 1])
  {
    hide Run, Of, Conserving, Registered;
    var e := Run(cfg, s, msgs);
    RunIsTimely(cfg, s, msgs, u, k);
    RunGrows(cfg, s, msgs);
    RunKeepsUserOrder(cfg, s, msgs);
    var d, n := Distance(s.ring, s.last, u), |s.ring|;
    BudgetIs(d, n, k);
    assert k * n == (k - 1) * n + n && (k - 1) * n >= 0;
    var budget, h := Budget(d, n, k), Acks(s, e);
    if |h| >= budget {
      ServedWithinCounts(h, u, budget, k);
      ServedAreThoseWaiting(s, e, u);
      OfPrefix(h, budget, u);
      assert (Of(h, u) + Of(e.waiting, u))[k - 1] == Of(h[..budget], u)[k - 1];
    }
  }

  /** The jobs of u authorized since s, then those still waiting, start with the jobs
      of u that were waiting in s. */
  lemma ServedAreThoseWaiting(s: State, e: State, u: int)
    requires Grows(s, e) && UserInOrder(s, u) && UserInOrder(e, u)
    ensures Of(s.waiting, u) <= Of(Acks(s, e), u) + Of(e.waiting, u)
  {
    var h, newly := Acks(s, e), e.accepted[|s.accepted|..];
    assert e.acked == s.acked + h && e.accepted == s.accepted + newly;
    OfConcat(s.acked, h, u);
    OfConcat(s.accepted, newly, u);
    var a, w := Of(s.acked, u), Of(s.waiting, u);
    CancelPrefix(a, Of(h, u), Of(e.waiting, u), w, Of(newly, u));
  }

  lemma CancelPrefix<T>(a: seq<T>, x: seq<T>, y: seq<T>, w: seq<T>, z: seq<T>)
    requires a + x + y == a + w + z
    ensures x + y == w + z
  {
    assert a + x + y == a + (x + y) && a + w + z == a + (w + z);
    assert (a + (x + y))[|a|..] == x + y;
    assert (a + (w + z))[|a|..] == w + z;
  }
}
