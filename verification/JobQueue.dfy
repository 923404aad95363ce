/** The singly linked job queue and the fair selectors, over arrays and nodes. */
module JobQueues {
  import opened Messages
  import opened FairPolicy

  class JobNode {
    const job: Job
    var next: JobNode?

    constructor (job: Job)
      ensures this.job == job && next == null
    {
      this.job := job;
      next := null;
    }
  }

  ghost function JobsOf(nodes: seq<JobNode>): (c: seq<Job>)
    ensures |c| == |nodes|
    ensures forall i :: 0 <= i < |nodes| ==> c[i] == nodes[i].job
  {
    seq(|nodes|, i requires 0 <= i < |nodes| => nodes[i].job)
  }

  lemma JobsOfRemoveAt(nodes: seq<JobNode>, i: nat)
    requires i < |nodes|
    ensures JobsOf(RemoveAt(nodes, i)) == RemoveAt(JobsOf(nodes), i)
  {
  }

  // The selectors only read their arrays, so they take them as values.

  method UserExists(users: seq<int>, userId: int) returns (found: bool)
    ensures found <==> userId in users
  {
    for i := 0 to |users|
      invariant userId !in users[..i]
    {
      if users[i] == userId { return true; }
    }
    return false;
  }

  /** First position of userId, -1 when absent. */
  method FindUser(users: seq<int>, userId: int) returns (idx: int)
    ensures idx == IndexOf(users, userId)
  {
    for i := 0 to |users|
      invariant forall k :: 0 <= k < i ==> users[k] != userId
    {
      if users[i] == userId { return i; }
    }
    return -1;
  }

  method ChooseNextUser(users: seq<int>, lastUserId: int) returns (u: int)
    ensures u == NextUser(users, lastUserId)
    ensures |users| == 0 ==> u == -1
    ensures |users| > 0 ==> u == NextFairUser(users, users, lastUserId)
  {
    if |users| > 0 { NextUserIsScan(users, lastUserId); }
    if |users| == 0 { return -1; }
    var lastIdx := FindUser(users, lastUserId);
    if lastIdx == -1 || lastIdx == |users| - 1 { return users[0]; }
    return users[lastIdx + 1];
  }

  method ChooseNextFairUser(activeUsers: seq<int>, fairUsers: seq<int>, lastUserId: int) returns (u: int)
    ensures u == NextFairUser(activeUsers, fairUsers, lastUserId)
  {
    if |activeUsers| == 0 { return -1; }
    if |fairUsers| == 0 {
      u := ChooseNextUser(activeUsers, lastUserId);
      return;
    }
    var fairUserCount := |fairUsers|;
    var lastIdx := FindUser(fairUsers, lastUserId);
    var offset := 1;
    while offset <= fairUserCount
      invariant 1 <= offset <= fairUserCount + 1
      invariant ScanRing(activeUsers, fairUsers, lastIdx, 1) == ScanRing(activeUsers, fairUsers, lastIdx, offset)
    {
      RingIndex(lastIdx, offset, fairUserCount);
      var idx := (lastIdx + offset + fairUserCount) % fairUserCount;
      var found := UserExists(activeUsers, fairUsers[idx]);
      if found { return fairUsers[idx]; }
      offset := offset + 1;
    }
    return activeUsers[0];
  }

  class JobQueue {
    var head: JobNode?
    var tail: JobNode?
    var size: int
    /** The nodes reached from head by next, in order. */
    ghost var spine: seq<JobNode>
    /** Every node this queue has ever held. */
    ghost var nodes: set<JobNode>

    ghost predicate Valid()
      reads this, nodes
    {
      && (forall i :: 0 <= i < |spine| ==> spine[i] in nodes)
      && size == |spine|
      && (spine == [] ==> head == null && tail == null)
      && (spine != [] ==> head == spine[0] && tail == spine[|spine| - 1] && tail.next == null)
      && (forall i {:trigger spine[i].next} :: 0 <= i < |spine| - 1 ==> spine[i].next == spine[i + 1])
    }

    /** A list that ends has no cycle: no node occurs twice on the spine. */
    lemma Acyclic()
      requires Valid()
      ensures NoDuplicates(spine)
    {
      forall i, j | 0 <= i < j < |spine|
        ensures spine[i] != spine[j]
      {
        DistinctNodes(i, j);
      }
    }

    lemma {:induction false} DistinctNodes(i: nat, j: nat)
      requires Valid() && i < j < |spine|
      ensures spine[i] != spine[j]
      decreases |spine| - j
    {
      assert spine[i].next == spine[i + 1];
      if j + 1 < |spine| {
        DistinctNodes(i + 1, j + 1);
      }
    }

    ghost function NodeAt(i: nat): JobNode?
      reads this
    {
      if i < |spine| then spine[i] else null
    }

    ghost function Contents(): seq<Job>
      reads this
    {
      JobsOf(spine)
    }

    constructor ()
      ensures Valid() && Contents() == [] && nodes == {}
    {
      head := null;
      tail := null;
      size := 0;
      spine := [];
      nodes := {};
    }

    method Enqueue(job: Job)
      requires Valid()
      modifies this, nodes
      ensures Valid() && fresh(nodes - old(nodes))
      ensures Contents() == old(Contents()) + [job]
    {
      Acyclic();
      var node := new JobNode(job);
      if tail == null {
        head := node;
        tail := node;
      } else {
        tail.next := node;
        tail := node;
      }
      size := size + 1;
      spine := spine + [node];
      nodes := nodes + {node};
    }

    method Dequeue() returns (out: Option<Job>)
      requires Valid()
      modifies this
      ensures Valid() && nodes == old(nodes)
      ensures old(Contents()) == [] ==> out == None && Contents() == []
      ensures old(Contents()) != [] ==>
                out == Some(old(Contents()[0])) && Contents() == old(Contents()[1..])
    {
      if head == null { return None; }
      out := Some(head.job);
      head := head.next;
      if head == null { tail := null; }
      spine := spine[1..];
      size := size - 1;
    }

    /** Splice node curr, at position i, out of the list. */
    method Unlink(prev: JobNode?, curr: JobNode, ghost i: nat)
      requires Valid() && i < |spine| && curr == spine[i]
      requires prev == if i == 0 then null else spine[i - 1]
      modifies this, nodes
      ensures Valid() && nodes == old(nodes)
      ensures Contents() == RemoveAt(old(Contents()), i)
    {
      Acyclic();
      if prev == null {
        head := curr.next;
      } else {
        prev.next := curr.next;
      }
      if tail == curr { tail := prev; }
      size := size - 1;
      ghost var was := spine;
      spine := RemoveAt(was, i);
      JobsOfRemoveAt(was, i);
    }

    /** Remove the job at index drawn % size, for a number drawn by rand. */
    method DequeueRandom(drawn: nat) returns (out: Option<Job>)
      requires Valid()
      modifies this, nodes
      ensures Valid() && nodes == old(nodes)
      ensures old(Contents()) == [] ==> out == None && Contents() == []
      ensures old(Contents()) != [] ==>
                var i := drawn % |old(Contents())|;
                out == Some(old(Contents())[i]) && Contents() == RemoveAt(old(Contents()), i)
    {
      if head == null { return None; }
      var targetIdx := drawn % size;
      if targetIdx == 0 {
        out := Dequeue();
        return;
      }
      var prev, curr := head, head.next;
      var i := 1;
      while i < targetIdx && curr != null
        invariant 1 <= i <= targetIdx < |spine|
        invariant prev == spine[i - 1] && curr == spine[i]
      {
        prev := curr;
        curr := curr.next;
        i := i + 1;
      }
      out := Some(curr.job);
      Unlink(prev, curr, i);
    }

    /** The distinct users with queued jobs, in order of first appearance. */
    method ActiveUsers() returns (active: seq<int>)
      requires Valid()
      ensures active == Users(Contents())
    {
      ghost var q := Contents();
      active := [];
      var curr := head;
      ghost var i := 0;
      while curr != null
        invariant i <= |spine| && curr == NodeAt(i)
        invariant active == Users(q[..i])
        decreases |spine| - i
      {
        assert q[..i + 1][..i] == q[..i];
        var known := UserExists(active, curr.job.userId);
        if !known { active := active + [curr.job.userId]; }
        curr := curr.next;
        i := i + 1;
      }
      assert q[..i] == q;
    }

    method DequeueFair(fairUsers: seq<int>, lastUserId: int) returns (out: Option<Job>, newLast: int)
      requires Valid()
      modifies this, nodes
      ensures Valid() && nodes == old(nodes)
      ensures old(Contents()) == [] ==> out == None && newLast == lastUserId && Contents() == []
      ensures old(Contents()) != [] ==>
                var q := old(Contents());
                var i := FairIndex(q, fairUsers, lastUserId);
                out == Some(q[i]) && newLast == q[i].userId && Contents() == RemoveAt(q, i)
    {
      if head == null { return None, lastUserId; }
      var users := ActiveUsers();
      UsersAreThoseWaiting(Contents());
      NextFairUserActive(users, fairUsers, lastUserId);
      newLast := ChooseNextFairUser(users, fairUsers, lastUserId);
      out := RemoveFirstOf(newLast);
    }

    /** The jobs that n fair removals in a row take, each telling the next who was served. */
    method DequeueFairTimes(n: nat, fairUsers: seq<int>, lastUserId: int) returns (served: seq<Job>)
      requires Valid() && n <= |Contents()|
      modifies this, nodes
      ensures Valid() && nodes == old(nodes)
      ensures served == FairOrder(old(Contents()), fairUsers, lastUserId)[..n]
      ensures |Contents()| == |old(Contents())| - n
    {
      hide FairIndex;
      ghost var order := FairOrder(Contents(), fairUsers, lastUserId);
      served := [];
      var last := lastUserId;
      while |served| < n
        invariant Valid() && nodes == old(nodes)
        invariant |served| <= n && |Contents()| == |old(Contents())| - |served|
        invariant order == served + FairOrder(Contents(), fairUsers, last)
      {
        ghost var rest, prev := Contents(), last;
        var job;
        job, last := DequeueFair(fairUsers, last);
        ServeNext(served, job.value, FairOrder(Contents(), fairUsers, last));
        served := served + [job.value];
      }
    }

    /** Remove the oldest job of a user that has one. */
    method RemoveFirstOf(targetUser: int) returns (out: Option<Job>)
      requires Valid() && Waits(Contents(), targetUser)
      modifies this, nodes
      ensures Valid() && nodes == old(nodes)
      ensures var q := old(Contents());
              var i := FirstOf(q, targetUser);
              out == Some(q[i]) && Contents() == RemoveAt(q, i)
    {
      var prev: JobNode? := null;
      var curr := head;
      ghost var target := FirstOf(Contents(), targetUser);
      ghost var i := 0;
      while curr != null
        invariant Valid() && spine == old(spine)
        invariant i <= target && curr == NodeAt(i)
        invariant prev == if i == 0 then null else spine[i - 1]
        decreases |spine| - i
      {
        if curr.job.userId == targetUser {
          out := Some(curr.job);
          Unlink(prev, curr, i);
          return;
        }
        prev := curr;
        curr := curr.next;
        i := i + 1;
      }
      return None;
    }

    method RemoveByCommandId(commandId: int) returns (out: Option<Job>)
      requires Valid()
      modifies this, nodes
      ensures Valid() && nodes == old(nodes)
      ensures match IndexOfCommand(old(Contents()), commandId)
              case None => out == None && Contents() == old(Contents())
              case Some(i) =>
                out == Some(old(Contents())[i]) && Contents() == RemoveAt(old(Contents()), i)
    {
      var prev: JobNode? := null;
      var curr := head;
      ghost var q := Contents();
      ghost var i := 0;
      while curr != null
        invariant Valid() && spine == old(spine)
        invariant i <= |spine| && curr == NodeAt(i)
        invariant prev == if i == 0 then null else spine[i - 1]
        invariant forall k :: 0 <= k < i ==> q[k].commandId != commandId
        decreases |spine| - i
      {
        if curr.job.commandId == commandId {
          FirstCommand(q, commandId, i);
          out := Some(curr.job);
          Unlink(prev, curr, i);
          return;
        }
        prev := curr;
        curr := curr.next;
        i := i + 1;
      }
      return None;
    }

    method IsEmpty() returns (b: bool)
      requires Valid()
      ensures b <==> Contents() == []
    {
      b := size == 0;
    }

    /** Copy at most maxSize jobs, in queue order, to the front of an array. */
    method CopyToArray(a: array?<Job>, maxSize: int) returns (copied: nat)
      requires Valid()
      requires a != null ==> maxSize <= a.Length || |Contents()| <= a.Length
      modifies a
      ensures a == null || maxSize <= 0 ==> copied == 0
      ensures a != null && maxSize > 0 ==>
                && copied == (if maxSize < |Contents()| then maxSize else |Contents()|)
                && a[..] == Contents()[..copied] + old(a[copied..])
    {
      if a == null || maxSize <= 0 { return 0; }
      copied := 0;
      var curr := head;
      while curr != null && copied < maxSize
        invariant copied <= |spine| && copied <= maxSize
        invariant curr == NodeAt(copied)
        invariant forall k :: 0 <= k < copied ==> a[k] == Contents()[k]
        invariant forall k :: copied <= k < a.Length ==> a[k] == old(a[k])
      {
        a[copied] := curr.job;
        copied := copied + 1;
        curr := curr.next;
      }
    }

    /** Copy at most maxSize jobs in the order the fair policy would serve them. The
        order is found on markers; the queue is only read. */
    method CopyFairToArray(a: array?<Job>, maxSize: int, lastUserId: int, fairUsers: seq<int>)
      returns (copied: nat)
      requires Valid()
      requires a != null ==> maxSize <= a.Length || |Contents()| <= a.Length
      modifies a
      ensures a == null || maxSize <= 0 ==> copied == 0
      ensures a != null && maxSize > 0 ==>
                var n := if maxSize < |Contents()| then maxSize else |Contents()|;
                var r := BeforeSentinel(FairOrder(Contents(), fairUsers, lastUserId)[..n]);
                copied == |r| && a[..] == r + old(a[copied..])
    {
      assert size == |Contents()|;
      hide FairOrder, BeforeSentinel, Valid;
      if a == null || maxSize <= 0 || size <= 0 { return 0; }
      var jobs := new Job[size];
      var count := CopyToArray(jobs, size);
      assert jobs[..] == Contents();
      copied := PredictFair(jobs[..], a, if maxSize < size then maxSize else size, lastUserId, fairUsers);
    }
  }

  /** Replay the fair policy on a copy of the queue, marking the jobs already taken. */
  method PredictFair(jobs: seq<Job>, a: array<Job>, limit: nat, lastUserId: int, fairUsers: seq<int>)
    returns (copied: nat)
    requires limit <= |jobs| && limit <= a.Length
    modifies a
    ensures var r := BeforeSentinel(FairOrder(jobs, fairUsers, lastUserId)[..limit]);
            copied == |r| && a[..] == r + old(a[copied..])
  {
    hide FairOrder, Unused, BeforeSentinel;
    var used := seq(|jobs|, _ => false);
    NoneUsed(jobs, used, |jobs|);
    copied := 0;
    var currentLastUser := lastUserId;
    ghost var rest, tail := jobs, FairOrder(jobs, fairUsers, lastUserId);
    ghost var order, was := tail, a[..];
    ghost var served: seq<Job> := [];
    while copied < limit
      invariant |used| == |jobs| && copied == |served| <= limit
      invariant rest == Unused(jobs, used, |jobs|) && |rest| == |jobs| - copied
      invariant tail == FairOrder(rest, fairUsers, currentLastUser) && order == served + tail
      invariant NoSentinel(served)
      invariant a[..] == served + was[copied..]
    {
      var targetUser, targetIdx, left := NextUnused(jobs, used, fairUsers, currentLastUser);
      ServeNext(served, jobs[targetIdx], FairOrder(left, fairUsers, targetUser));
      if targetUser == -1 {
        PredictedPrefix(served, tail, limit);
        return;
      }
      a[copied] := jobs[targetIdx];
      used := used[targetIdx := true];
      rest, tail := left, FairOrder(left, fairUsers, targetUser);
      WriteNext(served, jobs[targetIdx], was);
      served := served + [jobs[targetIdx]];
      currentLastUser := targetUser;
      copied := copied + 1;
    }
    PredictedPrefix(served, tail, limit);
  }

  lemma WriteNext<T>(a: seq<T>, x: T, was: seq<T>)
    requires |a| < |was|
    ensures (a + was[|a|..])[|a| := x] == (a + [x]) + was[|a| + 1..]
  {
  }

  /** One round of the predictor: the next user among the unmarked jobs and the first
      unmarked job of that user. */
  method NextUnused(jobs: seq<Job>, used: seq<bool>, fairUsers: seq<int>, lastUserId: int)
    returns (targetUser: int, targetIdx: int, ghost left: seq<Job>)
    requires |jobs| == |used| && Unused(jobs, used, |jobs|) != []
    ensures 0 <= targetIdx < |jobs| && jobs[targetIdx].userId == targetUser
    ensures left == Unused(jobs, used[targetIdx := true], |jobs|)
    ensures |left| == |Unused(jobs, used, |jobs|)| - 1
    ensures FairOrder(Unused(jobs, used, |jobs|), fairUsers, lastUserId)
         == [jobs[targetIdx]] + FairOrder(left, fairUsers, targetUser)
  {
    var users := UnusedUsers(jobs, used);
    targetUser := ChooseNextFairUser(users, fairUsers, lastUserId);
    ghost var rest := Unused(jobs, used, |jobs|);
    ghost var f := FairIndex(rest, fairUsers, lastUserId);
    targetIdx := FindUnused(jobs, used, targetUser, f);
    UnusedMark(jobs, used, targetIdx, |jobs|);
    left := RemoveAt(rest, f);
  }

  /** The first unmarked job of a user; the f-th unmarked job is the first of that user. */
  method FindUnused(jobs: seq<Job>, used: seq<bool>, targetUser: int, ghost f: nat) returns (targetIdx: int)
    requires |jobs| == |used|
    requires var all := Unused(jobs, used, |jobs|);
             && f < |all| && all[f].userId == targetUser
             && forall k :: 0 <= k < f ==> all[k].userId != targetUser
    ensures 0 <= targetIdx < |jobs| && !used[targetIdx] && jobs[targetIdx].userId == targetUser
    ensures |Unused(jobs, used, targetIdx)| == f
  {
    for i := 0 to |jobs|
      invariant forall k :: 0 <= k < |Unused(jobs, used, i)| ==> Unused(jobs, used, i)[k].userId != targetUser
    {
      if !used[i] && jobs[i].userId == targetUser {
        UnusedMark(jobs, used, i, |jobs|);
        return i;
      }
    }
    return -1;
  }

  method UnusedUsers(jobs: seq<Job>, used: seq<bool>) returns (active: seq<int>)
    requires |jobs| == |used|
    ensures active == Users(Unused(jobs, used, |jobs|))
  {
    active := [];
    for i := 0 to |jobs|
      invariant active == Users(Unused(jobs, used, i))
    {
      if !used[i] {
        UsersNext(Unused(jobs, used, i), jobs[i]);
        var known := UserExists(active, jobs[i].userId);
        if !known { active := active + [jobs[i].userId]; }
      }
    }
  }
}
