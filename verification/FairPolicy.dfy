/** The fair policy on values: which user is served next, and the whole order in
    which a frozen queue would be served. */
module FairPolicy {
  import opened Messages

  ghost predicate Waits(q: seq<Job>, u: int) {
    exists i :: 0 <= i < |q| && q[i].userId == u
  }

  /** The distinct users of a queue, in order of first appearance. */
  function Users(q: seq<Job>): (r: seq<int>)
    ensures |r| <= |q|
    ensures q != [] ==> r != []
  {
    if q == [] then [] else
      var n := |q| - 1;
      var r := Users(q[..n]);
      if q[n].userId in r then r else r + [q[n].userId]
  }

  lemma {:induction false} UsersAreThoseWaiting(q: seq<Job>)
    ensures NoDuplicates(Users(q))
    ensures forall u :: u in Users(q) <==> Waits(q, u)
  {
    if q != [] {
      var n := |q| - 1;
      UsersAreThoseWaiting(q[..n]);
      assert q == q[..n] + [q[n]];
      assert forall u :: Waits(q, u) <==> Waits(q[..n], u) || q[n].userId == u;
    }
  }

  /** Index of the oldest job of user u. */
  function FirstOf(q: seq<Job>, u: int): (i: nat)
    requires Waits(q, u)
    ensures i < |q| && q[i].userId == u
    ensures forall k :: 0 <= k < i ==> q[k].userId != u
  {
    if q[0].userId == u then 0 else 1 + FirstOf(q[1..], u)
  }

  /** Index of the first occurrence of u in a user ring, -1 when absent. */
  function IndexOf(ring: seq<int>, u: int): (i: int)
    ensures -1 <= i < |ring|
    ensures i == -1 <==> u !in ring
    ensures i >= 0 ==> ring[i] == u
    ensures forall k :: 0 <= k < i ==> ring[k] != u
  {
    if ring == [] then -1
    else if ring[0] == u then 0
    else
      var i := IndexOf(ring[1..], u);
      if i == -1 then -1 else i + 1
  }

  function NextUser(active: seq<int>, last: int): int {
    if active == [] then -1 else
      var l := IndexOf(active, last);
      if l == -1 || l == |active| - 1 then active[0] else active[l + 1]
  }

  /** The ring position reached by going offset places past position l. */
  function RingSlot(l: int, offset: nat, n: nat): (idx: nat)
    requires -1 <= l < n && 1 <= offset <= n
    ensures idx < n
  {
    if l + offset < n then l + offset else l + offset - n
  }

  /** Try the ring positions that follow l circularly, from the given offset. */
  function ScanRing(active: seq<int>, ring: seq<int>, l: int, offset: nat): int
    requires active != [] && -1 <= l < |ring| && 1 <= offset
    decreases |ring| + 1 - offset
  {
    if offset > |ring| then active[0] else
      var idx := RingSlot(l, offset, |ring|);
      if ring[idx] in active then ring[idx] else ScanRing(active, ring, l, offset + 1)
  }

  function NextFairUser(active: seq<int>, ring: seq<int>, last: int): int {
    if active == [] then -1
    else if ring == [] then NextUser(active, last)
    else ScanRing(active, ring, IndexOf(ring, last), 1)
  }

  lemma {:induction false} ScanRingActive(active: seq<int>, ring: seq<int>, l: int, offset: nat)
    requires active != [] && -1 <= l < |ring| && 1 <= offset
    ensures ScanRing(active, ring, l, offset) in active
    decreases |ring| + 1 - offset
  {
    if offset <= |ring| {
      ScanRingActive(active, ring, l, offset + 1);
    }
  }

  lemma NextFairUserActive(active: seq<int>, ring: seq<int>, last: int)
    requires active != []
    ensures NextFairUser(active, ring, last) in active
  {
    if ring != [] {
      ScanRingActive(active, ring, IndexOf(ring, last), 1);
    }
  }

  // -------- distance around the ring --------

  /** How many positions after the last served user u comes, going round: 1 .. |ring|. */
  function Distance(ring: seq<int>, last: int, u: int): (d: int)
    requires u in ring
    ensures 1 <= d <= |ring|
  {
    var l, p := IndexOf(ring, last), IndexOf(ring, u);
    if l < p then p - l else p - l + |ring|
  }

  /** The modular index of the scan is the wrapped position. */
  lemma RingIndex(l: int, offset: nat, n: nat)
    requires -1 <= l < n && 1 <= offset <= n
    ensures (l + offset + n) % n == RingSlot(l, offset, n)
  {
    var x := l + offset;
    if x < n {
      ModOfShift(x, n, 1);
    } else {
      ModOfShift(x - n, n, 2);
    }
  }

  lemma ModOfShift(r: nat, n: nat, k: nat)
    requires r < n
    ensures (r + k * n) % n == r
  {
    var m := r + k * n;
    assert m == (m / n) * n + m % n;
    DivisionUnique(m / n, m % n, k, r, n);
  }

  lemma DivisionUnique(q: int, r: int, k: int, s: int, n: int)
    requires 0 <= r < n && 0 <= s < n && q * n + r == k * n + s
    ensures r == s
  {
    if k != q { MultipleOutOfRange(k - q, n); }
    assert (k - q) * n == k * n - q * n == r - s;
  }

  lemma MultipleOutOfRange(d: int, n: int)
    requires n > 0 && d != 0
    ensures d * n >= n || d * n <= -n
  {
    if d >= 1 {
      assert (d - 1) * n >= 0;
    } else {
      assert (-d - 1) * n >= 0;
    }
  }

  /** The distance is the one number of steps up to a full round after which one meets u,
      from the last served user or, if that one is unknown, from before the start. */
  lemma DistanceWalks(ring: seq<int>, last: int, u: int, k: nat)
    requires NoDuplicates(ring) && u in ring && 1 <= k <= |ring|
    ensures k == Distance(ring, last, u) <==> ring[(IndexOf(ring, last) + k + |ring|) % |ring|] == u
  {
    var l, p := IndexOf(ring, last), IndexOf(ring, u);
    RingIndex(l, k, |ring|);
    SamePlace(ring, RingSlot(l, k, |ring|), p);
  }

  lemma SamePlace(ring: seq<int>, i: nat, k: nat)
    requires NoDuplicates(ring) && i < |ring| && k < |ring|
    ensures ring[i] == ring[k] <==> i == k
  {
  }

  /** In a ring without repetitions a distance determines the user. */
  lemma DistanceInjective(ring: seq<int>, last: int, u: int, v: int)
    requires NoDuplicates(ring) && u in ring && v in ring
    requires Distance(ring, last, u) == Distance(ring, last, v)
    ensures u == v
  {
    assert ring[IndexOf(ring, u)] == u && ring[IndexOf(ring, v)] == v;
  }

  /** The modular scan serves the active user that comes first after the last one. */
  lemma {:induction false} ScanRingNearest(active: seq<int>, ring: seq<int>, last: int, offset: nat)
    requires NoDuplicates(ring) && active != [] && 1 <= offset
    requires forall v :: v in active ==> v in ring
    requires forall v :: v in active ==> offset <= Distance(ring, last, v)
    ensures offset <= |ring|
    ensures var u := ScanRing(active, ring, IndexOf(ring, last), offset);
            u in active && forall v :: v in active && v != u ==> Distance(ring, last, u) < Distance(ring, last, v)
    decreases |ring| + 1 - offset
  {
    var l := IndexOf(ring, last);
    assert offset <= Distance(ring, last, active[0]);
    var x := ring[RingSlot(l, offset, |ring|)];
    assert Distance(ring, last, x) == offset;
    forall v | v in active && v != x
      ensures offset < Distance(ring, last, v)
    {
      if Distance(ring, last, v) == offset { DistanceInjective(ring, last, v, x); }
    }
    if x !in active {
      ScanRingNearest(active, ring, last, offset + 1);
    }
  }

  /** From the first active user on the ring, the scan does not care about users elsewhere. */
  lemma {:induction false} ScanRingAny(active: seq<int>, ring: seq<int>, last: int, offset: nat)
    requires NoDuplicates(ring) && ring != [] && active != [] && 1 <= offset
    requires forall v :: v in active && v in ring ==> offset <= Distance(ring, last, v)
    ensures var u := ScanRing(active, ring, IndexOf(ring, last), offset);
            && u in active
            && (u !in ring ==> u == active[0] && forall v :: v in active ==> v !in ring)
            && (u in ring ==> forall v :: v in active && v in ring && v != u ==>
                                Distance(ring, last, u) < Distance(ring, last, v))
    decreases |ring| + 1 - offset
  {
    if offset <= |ring| {
      var l := IndexOf(ring, last);
      var x := ring[RingSlot(l, offset, |ring|)];
      assert Distance(ring, last, x) == offset;
      forall v | v in active && v in ring && v != x ensures offset < Distance(ring, last, v) {
        if Distance(ring, last, v) == offset { DistanceInjective(ring, last, v, x); }
      }
      if x !in active { ScanRingAny(active, ring, last, offset + 1); }
    }
  }

  /** With any ring, the chosen user is the nearest of the active users on it, and the first
      active user if none is on it. */
  lemma NextFairUserAnyRing(active: seq<int>, ring: seq<int>, last: int)
    requires NoDuplicates(ring) && ring != [] && active != []
    ensures var u := NextFairUser(active, ring, last);
            && u in active
            && (u in ring <==> exists v :: v in active && v in ring)
            && (u !in ring ==> u == active[0])
            && (u in ring ==> forall v :: v in active && v in ring && v != u ==>
                                Distance(ring, last, u) < Distance(ring, last, v))
  {
    ScanRingAny(active, ring, last, 1);
  }

  /** With every active user registered, the chosen user is the unique active user at
      the smallest distance after the last one served. */
  lemma NextFairUserNearest(active: seq<int>, ring: seq<int>, last: int, u: int)
    requires NoDuplicates(ring) && active != []
    requires forall v :: v in active ==> v in ring
    ensures u == NextFairUser(active, ring, last) <==>
            u in active && forall v :: v in active && v != u ==> Distance(ring, last, u) < Distance(ring, last, v)
  {
    assert active[0] in active;
    ScanRingNearest(active, ring, last, 1);
  }

  /** Without a ring, the active users themselves are the ring. */
  lemma NextUserIsScan(active: seq<int>, last: int)
    requires active != []
    ensures NextUser(active, last) == NextFairUser(active, active, last)
  {
    assert active[RingSlot(IndexOf(active, last), 1, |active|)] in active;
  }

  lemma NextUserNearest(active: seq<int>, last: int, u: int)
    requires NoDuplicates(active) && active != []
    ensures u == NextUser(active, last) <==>
            u in active && forall v :: v in active && v != u ==> Distance(active, last, u) < Distance(active, last, v)
  {
    NextUserIsScan(active, last);
    NextFairUserNearest(active, active, last, u);
  }

  // -------- serving a queue --------

  /** The job that the fair policy removes next. */
  function FairIndex(q: seq<Job>, ring: seq<int>, last: int): (i: nat)
    requires q != []
    ensures i < |q| && q[i].userId == NextFairUser(Users(q), ring, last)
    ensures forall k :: 0 <= k < i ==> q[k].userId != q[i].userId
  {
    NextFairUserActive(Users(q), ring, last);
    UsersAreThoseWaiting(q);
    FirstOf(q, NextFairUser(Users(q), ring, last))
  }

  /** The order in which repeated fair removals empty a queue. */
  function FairOrder(q: seq<Job>, ring: seq<int>, last: int): (r: seq<Job>)
    ensures |r| == |q|
    decreases |q|
  {
    if q == [] then [] else
      var i := FairIndex(q, ring, last);
      [q[i]] + FairOrder(RemoveAt(q, i), ring, q[i].userId)
  }

  lemma {:induction false} FairOrderPermutes(q: seq<Job>, ring: seq<int>, last: int)
    ensures multiset(FairOrder(q, ring, last)) == multiset(q)
    decreases |q|
  {
    if q != [] {
      var i := FairIndex(q, ring, last);
      RemoveAtMultiset(q, i);
      FairOrderPermutes(RemoveAt(q, i), ring, q[i].userId);
    }
  }

  /** The longest prefix that holds no job of user -1. */
  function BeforeSentinel(s: seq<Job>): (r: seq<Job>)
    ensures |r| <= |s| && r == s[..|r|]
    ensures forall j :: j in r ==> j.userId != -1
    ensures |r| < |s| ==> s[|r|].userId == -1
  {
    if s == [] || s[0].userId == -1 then [] else [s[0]] + BeforeSentinel(s[1..])
  }

  lemma {:induction false} BeforeSentinelIs(s: seq<Job>, k: nat)
    requires k <= |s|
    requires forall i :: 0 <= i < k ==> s[i].userId != -1
    requires k < |s| ==> s[k].userId == -1
    ensures BeforeSentinel(s) == s[..k]
  {
    if k > 0 {
      BeforeSentinelIs(s[1..], k - 1);
    }
  }

  ghost predicate NoSentinel(s: seq<Job>) {
    forall i :: 0 <= i < |s| ==> s[i].userId != -1
  }

  /** Serving one more job moves the head of the remaining order to the served jobs. */
  lemma ServeNext(served: seq<Job>, j: Job, tail: seq<Job>)
    ensures served + ([j] + tail) == (served + [j]) + tail
    ensures (served + ([j] + tail))[|served|] == j
    ensures NoSentinel(served) && j.userId != -1 ==> NoSentinel(served + [j])
  {
  }

  lemma PredictedPrefix(served: seq<Job>, tail: seq<Job>, limit: nat)
    requires |served| <= limit <= |served + tail|
    requires NoSentinel(served)
    requires |served| < limit ==> (served + tail)[|served|].userId == -1
    ensures BeforeSentinel((served + tail)[..limit]) == served
  {
    BeforeSentinelIs((served + tail)[..limit], |served|);
  }

  // -------- the marker array of the predictor --------

  /** The jobs among the first n whose marker is not set, in order. */
  ghost function Unused(c: seq<Job>, used: seq<bool>, n: nat): (r: seq<Job>)
    requires n <= |c| == |used|
    ensures |r| <= n
  {
    if n == 0 then []
    else if used[n - 1] then Unused(c, used, n - 1)
    else Unused(c, used, n - 1) + [c[n - 1]]
  }

  lemma {:induction false} NoneUsed(c: seq<Job>, used: seq<bool>, n: nat)
    requires n <= |c| == |used| && forall i :: 0 <= i < n ==> !used[i]
    ensures Unused(c, used, n) == c[..n]
  {
    if n > 0 {
      NoneUsed(c, used, n - 1);
    }
  }

  lemma {:induction false} UnusedFrame(c: seq<Job>, used: seq<bool>, i: nat, n: nat)
    requires n <= i < |c| == |used|
    ensures Unused(c, used[i := true], n) == Unused(c, used, n)
  {
    if n > 0 {
      UnusedFrame(c, used, i, n - 1);
    }
  }

  /** Setting a marker removes exactly that job from the unused ones. */
  lemma {:induction false} UnusedMark(c: seq<Job>, used: seq<bool>, i: nat, n: nat)
    requires i < n <= |c| == |used| && !used[i]
    ensures var f, all := |Unused(c, used, i)|, Unused(c, used, n);
            && f < |all| && all[f] == c[i] && all[..f] == Unused(c, used, i)
            && Unused(c, used[i := true], n) == RemoveAt(all, f)
  {
    if n == i + 1 {
      UnusedFrame(c, used, i, i);
    } else {
      UnusedMark(c, used, i, n - 1);
    }
  }

  lemma UsersNext(q: seq<Job>, j: Job)
    ensures Users(q + [j]) == if j.userId in Users(q) then Users(q) else Users(q) + [j.userId]
  {
    assert (q + [j])[..|q|] == q;
  }
}
