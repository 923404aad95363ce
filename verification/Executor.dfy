/** Running a pipeline: descriptors of parent and children, pipes, and reaping. */
module Executor {
  import opened Messages
  import opened ParserModel
  import opened Processes

  predicate StandardOpen(t: Table) { {0, 1, 2} <= t.Keys }

  // -------- what each child should start with --------

  function StdIn(t: Table, base: nat, i: nat, stage: Stage): Desc
    requires StandardOpen(t)
  {
    if stage.input.Some? then File(stage.input.value, Reading)
    else if i > 0 then ReadEnd(base + i - 1)
    else t[0]
  }

  function StdOut(t: Table, base: nat, n: nat, i: nat, stage: Stage): Desc
    requires StandardOpen(t)
  {
    if stage.output.Some? then File(stage.output.value, Writing)
    else if i < n - 1 then WriteEnd(base + i)
    else t[1]
  }

  function StdErr(t: Table, stage: Stage): Desc
    requires StandardOpen(t)
  {
    if stage.error.Some? then File(stage.error.value, Writing) else t[2]
  }

  /** The descriptors of stage i of n: those of the parent, with the three standard
      ones replaced. */
  function Wired(t: Table, base: nat, n: nat, i: nat, stage: Stage): Table
    requires StandardOpen(t)
  {
    t[0 := StdIn(t, base, i, stage)][1 := StdOut(t, base, n, i, stage)][2 := StdErr(t, stage)]
  }

  /** A file where the stage names one, the neighbouring pipe where it does not, and the
      parent's own descriptor at either end of the pipeline and everywhere else. */
  lemma WiredMeans(t: Table, base: nat, n: nat, i: nat, stage: Stage)
    requires StandardOpen(t) && i < n
    ensures var fds := Wired(t, base, n, i, stage);
            && fds.Keys == t.Keys && (forall fd :: fd in t && !(0 <= fd <= 2) ==> fds[fd] == t[fd])
            && (stage.input.Some? ==> fds[0] == File(stage.input.value, Reading))
            && (stage.output.Some? ==> fds[1] == File(stage.output.value, Writing))
            && (stage.error.Some? ==> fds[2] == File(stage.error.value, Writing))
            && (stage.input == None ==> fds[0] == if i == 0 then t[0] else ReadEnd(base + i - 1))
            && (stage.output == None ==> fds[1] == if i == n - 1 then t[1] else WriteEnd(base + i))
            && (stage.error == None ==> fds[2] == t[2])
  {
  }

  // -------- the child --------

  /** The parent's descriptor fd, unless that is -1, next to its table t. */
  function With(t: Table, fd: int, d: Desc): Table {
    if fd == -1 then t else t[fd := d]
  }

  /** A descriptor of the parent that is not in t. */
  predicate Extra(t: Table, fd: int) { fd == -1 || (fd !in t && fd > 2) }

  /** Which ends of pipes the parent holds when it forks stage i of n. */
  predicate HoldsEnds(t: Table, n: nat, i: nat, prevReadFd: int, r: int, w: int) {
    && i < n && StandardOpen(t)
    && Extra(t, prevReadFd) && Extra(t, r) && Extra(t, w)
    && (prevReadFd == -1 <==> i == 0) && (r == -1 <==> i == n - 1) && (w == -1 <==> i == n - 1)
    && (i < n - 1 ==> r != w && r != prevReadFd && w != prevReadFd)
  }

  /** The table of the parent when it forks stage i. */
  function AtFork(t: Table, base: nat, i: nat, prevReadFd: int, r: int, w: int): Table
    requires i == 0 ==> prevReadFd == -1
  {
    With(With(Between(t, base, i, prevReadFd), r, ReadEnd(base + i)), w, WriteEnd(base + i))
  }

  /** The table of the parent before stage i. */
  function Between(t: Table, base: nat, i: nat, prevReadFd: int): Table
    requires i == 0 ==> prevReadFd == -1
  {
    if prevReadFd == -1 then t else t[prevReadFd := ReadEnd(base + i - 1)]
  }

  /** The standard descriptors of stage i before redirections. */
  function Connected(t: Table, base: nat, n: nat, i: nat): Table
    requires StandardOpen(t)
  {
    t[0 := if i > 0 then ReadEnd(base + i - 1) else t[0]][1 := if i < n - 1 then WriteEnd(base + i) else t[1]]
  }

  /** Send a standard descriptor to a file, if there is one. */
  method Redirect(child: Descriptors, name: Option<string>, access: Access, target: int) returns (ok: bool)
    requires StandardOpen(child.fds) && 0 <= target <= 2
    modifies child
    ensures ok ==> child.fds == match name
                                case None => old(child.fds)
                                case Some(f) => old(child.fds)[target := File(f, access)]
    ensures child.failures == if ok then old(child.failures) else old(child.failures) + 1
  {
    if name == None { return true; }
    var fd := child.Open(name.value, access);
    if fd == -1 { return false; }
    var done := child.Dup2(fd, target);
    child.Close(fd);
    return done;
  }

  /** Connect the ends of pipes, and close the copies of the parent's descriptors. */
  method Connect(child: Descriptors, n: nat, i: nat, prevReadFd: int, r: int, w: int, ghost t: Table, ghost base: nat)
    returns (ok: bool)
    requires HoldsEnds(t, n, i, prevReadFd, r, w) && child.fds == AtFork(t, base, i, prevReadFd, r, w)
    modifies child
    ensures ok ==> child.fds == Connected(t, base, n, i)
    ensures child.failures == if ok then old(child.failures) else old(child.failures) + 1
  {
    if prevReadFd != -1 {
      ok := child.Dup2(prevReadFd, 0);
      if !ok { return; }
    }
    if i < n - 1 {
      ok := child.Dup2(w, 1);
      if !ok { return; }
    }
    if prevReadFd != -1 { child.Close(prevReadFd); }
    if r != -1 { child.Close(r); }
    if w != -1 { child.Close(w); }
    ok := true;
  }

  /** What stage i of n does from fork on: connect its pipes, apply its redirections, and
      start its program. It starts exactly if there is a program and no call fails. */
  method RunChild(child: Descriptors, stage: Stage, n: nat, i: nat, prevReadFd: int, r: int, w: int,
                  ghost t: Table, ghost base: nat)
    returns (image: Image)
    requires HoldsEnds(t, n, i, prevReadFd, r, w) && child.fds == AtFork(t, base, i, prevReadFd, r, w)
    modifies child
    ensures image == NoImage || image == Exec(stage.argv, Wired(t, base, n, i, stage))
    ensures image.Exec? <==> stage.argv != [] && child.failures == old(child.failures)
    ensures image.Exec? ==>
              && image.argv == stage.argv && image.fds.Keys == t.Keys
              && (forall fd :: fd in t && !(0 <= fd <= 2) ==> image.fds[fd] == t[fd])
              && (stage.input.Some? ==> image.fds[0] == File(stage.input.value, Reading))
              && (stage.output.Some? ==> image.fds[1] == File(stage.output.value, Writing))
              && (stage.error.Some? ==> image.fds[2] == File(stage.error.value, Writing))
              && (stage.input == None ==> image.fds[0] == if i == 0 then t[0] else ReadEnd(base + i - 1))
              && (stage.output == None ==> image.fds[1] == if i == n - 1 then t[1] else WriteEnd(base + i))
              && (stage.error == None ==> image.fds[2] == t[2])
  {
    var ok := Connect(child, n, i, prevReadFd, r, w, t, base);
    if !ok || stage.argv == [] { return NoImage; }
    ok := Redirect(child, stage.input, Reading, 0);
    if !ok { return NoImage; }
    ok := Redirect(child, stage.output, Writing, 1);
    if !ok { return NoImage; }
    ok := Redirect(child, stage.error, Writing, 2);
    if !ok { return NoImage; }
    assert child.fds == Wired(t, base, n, i, stage);
    WiredMeans(t, base, n, i, stage);
    hide Wired, Connected, AtFork;
    image := child.Execvp(stage.argv);
  }

  // -------- the parent --------

  /** A child of stage i: it starts its program, wired as it should be, exactly if there is
      one and none of its calls fails; otherwise it exits with 1. */
  predicate ChildOf(t: Table, base: nat, stages: seq<Stage>, i: nat, c: Child)
    requires StandardOpen(t) && i < |stages|
  {
    if stages[i].argv != [] && c.failures == 0
    then c.image == Exec(stages[i].argv, Wired(t, base, |stages|, i, stages[i]))
    else c.image == NoImage && c.ending == Exit(1)
  }

  ghost predicate ChildrenOf(t: Table, base: nat, stages: seq<Stage>, created: seq<Child>)
    requires StandardOpen(t)
  {
    && |created| <= |stages|
    && forall i :: 0 <= i < |created| ==> ChildOf(t, base, stages, i, created[i])
  }

  /** Descriptor fd of child i refers to d when its program starts. */
  predicate HoldsAtExec(created: seq<Child>, i: nat, fd: int, d: Desc) {
    i < |created| && created[i].image.Exec? && fd in created[i].image.fds && created[i].image.fds[fd] == d
  }

  /** Among all children, only stage k holds the write end of its pipe, as its output, and
      only stage k + 1 the read end, as its input, unless a redirection replaces it. */
  ghost predicate EndsHeldOnce(base: nat, stages: seq<Stage>, created: seq<Child>)
    requires |created| <= |stages|
  {
    forall pipe: nat, i: nat, fd: int :: pipe >= base ==>
      && (HoldsAtExec(created, i, fd, WriteEnd(pipe))
          <==> fd == 1 && base + i == pipe && i < |stages| - 1 && i < |created|
               && created[i].image.Exec? && stages[i].output == None)
      && (HoldsAtExec(created, i, fd, ReadEnd(pipe))
          <==> fd == 0 && base + i == pipe + 1 && i < |created|
               && created[i].image.Exec? && stages[i].input == None)
  }

  lemma WiredHoldsOnce(t: Table, base: nat, stages: seq<Stage>, created: seq<Child>)
    requires StandardOpen(t) && NoPipeFrom(t, base) && ChildrenOf(t, base, stages, created)
    ensures EndsHeldOnce(base, stages, created)
  {
    forall pipe: nat, i: nat, fd: int | pipe >= base
      ensures HoldsAtExec(created, i, fd, WriteEnd(pipe))
          <==> fd == 1 && base + i == pipe && i < |stages| - 1 && i < |created|
               && created[i].image.Exec? && stages[i].output == None
      ensures HoldsAtExec(created, i, fd, ReadEnd(pipe))
          <==> fd == 0 && base + i == pipe + 1 && i < |created|
               && created[i].image.Exec? && stages[i].input == None
    {
      if i < |created| { assert ChildOf(t, base, stages, i, created[i]); }
    }
  }

  predicate AllSucceeded(created: seq<Child>) {
    forall i :: 0 <= i < |created| ==> created[i].ending == Exit(0)
  }

  /** Wait once for each of count children and ignore how they end. */
  method WaitIgnoring(p: Parent, count: nat)
    requires p.Valid() && |p.unreaped| == count
    modifies p`unreaped, p`failedWaits
    ensures p.Valid() && p.failedWaits >= old(p.failedWaits)
    ensures p.failedWaits == old(p.failedWaits) ==> p.unreaped == {}
  {
    for j := 0 to count
      invariant p.Valid() && p.failedWaits >= old(p.failedWaits)
      invariant |p.unreaped| >= count - j
      invariant p.failedWaits == old(p.failedWaits) ==> |p.unreaped| == count - j
    {
      var _, who := p.Wait();
    }
  }

  /** Wait once for each of count children; -1 when one of them failed or a wait failed. */
  method WaitForAll(p: Parent, count: nat, ghost created: seq<Child>) returns (r: int)
    requires p.Valid() && |p.unreaped| == count == |created|
    requires |created| <= |p.children| && created == p.children[|p.children| - count..]
    requires forall k :: k in p.unreaped <==> |p.children| - count <= k < |p.children|
    modifies p`unreaped, p`failedWaits
    ensures p.Valid() && p.failedWaits >= old(p.failedWaits)
    ensures p.failedWaits == old(p.failedWaits) ==> p.unreaped == {}
    ensures r == 0 || r == -1
    ensures r == 0 <==> AllSucceeded(created) && p.failedWaits == old(p.failedWaits)
  {
    var anyChildFailed := false;
    ghost var first := |p.children| - count;
    for i := 0 to count
      invariant p.Valid() && p.failedWaits == old(p.failedWaits)
      invariant |p.unreaped| == count - i && p.unreaped <= old(p.unreaped)
      invariant anyChildFailed ==> !AllSucceeded(created)
      invariant !anyChildFailed ==>
                  forall k :: first <= k < |p.children| && k !in p.unreaped ==> p.children[k].ending == Exit(0)
    {
      var status, who := p.Wait();
      if status == None { return -1; }
      assert created[who - first] == p.children[who];
      if status.value != Exit(0) { anyChildFailed := true; }
    }
    r := if anyChildFailed then -1 else 0;
  }

  /** fork: the child goes its own way on a copy of the table. */
  method Fork(p: Parent, stages: seq<Stage>, i: nat, prevReadFd: int, r: int, w: int, ghost t: Table, ghost base: nat)
    returns (forked: bool)
    requires p.Valid() && HoldsEnds(t, |stages|, i, prevReadFd, r, w)
    requires p.own.fds == AtFork(t, base, i, prevReadFd, r, w)
    modifies p`children, p`unreaped, p`failures
    ensures p.Valid() && p.failures == if forked then old(p.failures) else old(p.failures) + 1
    ensures !forked ==> p.children == old(p.children) && p.unreaped == old(p.unreaped)
    ensures forked ==>
              && |p.children| == |old(p.children)| + 1 && old(p.children) <= p.children
              && ChildOf(t, base, stages, i, p.children[|old(p.children)|])
              && p.unreaped == old(p.unreaped) + {|old(p.children)|} && |p.unreaped| == |old(p.unreaped)| + 1
  {
    forked := p.Forks();
    if forked {
      var child := new Descriptors(p.own.fds);
      var image := RunChild(child, stages[i], |stages|, i, prevReadFd, r, w, t, base);
      var ending: Ending := *;
      p.Started(Child(image, if image == NoImage then Exit(1) else ending, child.failures));
    }
  }

  /** The parent gives up: it closes the ends it holds and waits for the children. */
  method GiveUp(p: Parent, childrenCreated: nat, n: nat, i: nat, prevReadFd: int, r: int, w: int,
                ghost t: Table, ghost base: nat)
    requires p.Valid() && |p.unreaped| == childrenCreated
    requires i == 0 ==> prevReadFd == -1
    requires HoldsEnds(t, n, i, prevReadFd, r, w) || (Extra(t, prevReadFd) && r == w == -1)
    requires p.own.fds == AtFork(t, base, i, prevReadFd, r, w)
    modifies p`unreaped, p`failedWaits, p.own`fds
    ensures p.Valid() && p.own.fds == t && p.failedWaits >= old(p.failedWaits)
    ensures p.failedWaits == old(p.failedWaits) ==> p.unreaped == {}
  {
    if r != -1 { p.own.Close(r); }
    if w != -1 { p.own.Close(w); }
    if prevReadFd != -1 { p.own.Close(prevReadFd); }
    WaitIgnoring(p, childrenCreated);
  }

  /** pipe, except for the last stage, which needs none. */
  method NextPipe(p: Parent, n: nat, i: nat, prevReadFd: int, ghost t: Table, ghost base: nat)
    returns (ok: bool, r: int, w: int)
    requires p.Valid() && i < n && StandardOpen(t) && Extra(t, prevReadFd) && (prevReadFd == -1 <==> i == 0)
    requires p.own.fds == Between(t, base, i, prevReadFd) && p.pipes == base + i
    modifies p`pipes, p`failures, p.own`fds
    ensures p.Valid() && p.failures == if ok then old(p.failures) else old(p.failures) + 1
    ensures p.own.fds == AtFork(t, base, i, prevReadFd, r, w)
    ensures ok ==> HoldsEnds(t, n, i, prevReadFd, r, w)
    ensures ok && i < n - 1 ==> p.pipes == base + i + 1
    ensures !ok ==> i < n - 1 && r == w == -1
  {
    ok, r, w := true, -1, -1;
    if i < n - 1 { ok, r, w := p.Pipe(); }
  }

  /** Closing the ends that the child has taken over leaves the read end for the next. */
  lemma EndsClosed(t: Table, base: nat, n: nat, i: nat, prevReadFd: int, r: int, w: int)
    requires HoldsEnds(t, n, i, prevReadFd, r, w)
    ensures var held := AtFork(t, base, i, prevReadFd, r, w);
            var rest := if prevReadFd == -1 then held else held - {prevReadFd};
            && (prevReadFd != -1 ==> prevReadFd in held)
            && (if i < n - 1 then w in rest && rest - {w} == Between(t, base, i + 1, r) else rest == t)
  {
  }

  /** One turn of the stage loop: pipe, fork, and close what the child has taken over; or
      give up at the first failure. */
  method StartStage(p: Parent, stages: seq<Stage>, i: nat, prevReadFd: int, ghost t: Table, ghost base: nat)
    returns (ok: bool, nextReadFd: int)
    requires p.Valid() && i < |stages| && StandardOpen(t) && |p.unreaped| == i
    requires Extra(t, prevReadFd) && (prevReadFd == -1 <==> i == 0)
    requires p.own.fds == Between(t, base, i, prevReadFd) && p.pipes == base + i
    modifies p, p.own`fds
    ensures p.Valid() && p.failedWaits >= old(p.failedWaits)
    ensures p.failures == if ok then old(p.failures) else old(p.failures) + 1
    ensures ok ==>
              && p.failedWaits == old(p.failedWaits)
              && |p.children| == |old(p.children)| + 1 && old(p.children) <= p.children
              && ChildOf(t, base, stages, i, p.children[|old(p.children)|])
              && p.unreaped == old(p.unreaped) + {|old(p.children)|} && |p.unreaped| == i + 1
              && Extra(t, nextReadFd) && (nextReadFd == -1 <==> i == |stages| - 1)
              && p.own.fds == Between(t, base, i + 1, nextReadFd)
              && (i < |stages| - 1 ==> p.pipes == base + i + 1)
    ensures !ok ==> p.children == old(p.children) && p.own.fds == t
    ensures !ok && p.failedWaits == old(p.failedWaits) ==> p.unreaped == {}
  {
    hide AtFork, ChildOf;
    var n := |stages|;
    var made, readFd, writeFd := NextPipe(p, n, i, prevReadFd, t, base);
    var forked := false;
    if made { forked := Fork(p, stages, i, prevReadFd, readFd, writeFd, t, base); }
    if !forked {
      GiveUp(p, i, n, i, prevReadFd, readFd, writeFd, t, base);
      return false, -1;
    }
    EndsClosed(t, base, n, i, prevReadFd, readFd, writeFd);
    if prevReadFd != -1 { p.own.Close(prevReadFd); }
    if i < n - 1 {
      p.own.Close(writeFd);
      nextReadFd := readFd;
    } else {
      nextReadFd := -1;
    }
    ok := true;
  }

  /** The parent's part of the pipeline: all of the children, with every pipe closed; or,
      exactly if pipe or fork fails, some of them, and every one waited for. */
  method StartAll(p: Parent, stages: seq<Stage>) returns (ok: bool)
    requires p.Valid() && p.unreaped == {} && StandardOpen(p.own.fds) && stages != []
    modifies p, p.own
    ensures p.Valid() && p.own.fds == old(p.own.fds) && p.failedWaits >= old(p.failedWaits)
    ensures old(p.children) <= p.children
    ensures var created := p.children[|old(p.children)|..];
            && ChildrenOf(old(p.own.fds), old(p.pipes), stages, created)
            && (ok <==> |created| == |stages|)
            && p.failures == (if ok then old(p.failures) else old(p.failures) + 1)
            && (ok ==> p.failedWaits == old(p.failedWaits) && |p.unreaped| == |stages|
                       && forall k :: k in p.unreaped <==> |old(p.children)| <= k < |p.children|)
            && (!ok && p.failedWaits == old(p.failedWaits) ==> p.unreaped == {})
  {
    hide ChildOf;
    var n := |stages|;
    ghost var t, base, first := p.own.fds, p.pipes, |p.children|;
    ghost var created: seq<Child> := [];
    var prevReadFd := -1;
    for i := 0 to n
      invariant p.Valid() && p.failedWaits == old(p.failedWaits) && p.failures == old(p.failures)
      invariant |created| == i && p.children == old(p.children) + created
      invariant |p.unreaped| == i && forall k :: k in p.unreaped <==> first <= k < |p.children|
      invariant ChildrenOf(t, base, stages, created)
      invariant Extra(t, prevReadFd) && (prevReadFd == -1 <==> i == 0 || i == n)
      invariant p.own.fds == Between(t, base, i, prevReadFd)
      invariant i < n ==> p.pipes == base + i
    {
      var started, nextReadFd := StartStage(p, stages, i, prevReadFd, t, base);
      if !started { return false; }
      created := created + [p.children[first + i]];
      prevReadFd := nextReadFd;
    }
    ok := true;
  }

  /** The children of a pipeline after its parent has met failures in pipe or fork: one for
      each stage exactly if there was none, each wired, and every end of a pipe held once. */
  ghost predicate Pipeline(t: Table, base: nat, stages: seq<Stage>, created: seq<Child>, failures: nat)
    requires StandardOpen(t)
  {
    && ChildrenOf(t, base, stages, created) && EndsHeldOnce(base, stages, created)
    && failures == if |created| == |stages| then 0 else 1
  }

  /** Run a pipeline, None being a command that could not be parsed. */
  method ExecutePipeline(p: Parent, cmd: Option<seq<Stage>>) returns (r: int)
    requires p.Valid() && p.unreaped == {} && StandardOpen(p.own.fds)
    modifies p, p.own
    ensures p.Valid() && p.own.fds == old(p.own.fds)
    ensures p.failedWaits == old(p.failedWaits) ==> p.unreaped == {}
    ensures old(p.children) <= p.children && p.failures >= old(p.failures)
    ensures var stages := if cmd.Some? then cmd.value else [];
            var created := p.children[|old(p.children)|..];
            && Pipeline(old(p.own.fds), old(p.pipes), stages, created, p.failures - old(p.failures))
            && (r == 0 || r == -1)
            && (r == 0 <==> stages != [] && |created| == |stages| && AllSucceeded(created)
                            && p.failedWaits == old(p.failedWaits))
            && (r == 0 ==> forall i :: 0 <= i < |stages| ==> created[i].image.Exec?)
    ensures var stages := if cmd.Some? then cmd.value else [];
            var created := p.children[|old(p.children)|..];
            forall i :: 0 <= i < |created| ==>
              && (created[i].image.Exec? <==> stages[i].argv != [] && created[i].failures == 0)
              && (created[i].image == NoImage ==> created[i].ending == Exit(1))
    ensures var stages := if cmd.Some? then cmd.value else [];
            var created, t := p.children[|old(p.children)|..], old(p.own.fds);
            forall i :: 0 <= i < |created| && created[i].image.Exec? ==>
              var fds := created[i].image.fds;
              && created[i].image.argv == stages[i].argv && fds.Keys == t.Keys
              && (forall fd :: fd in t && !(0 <= fd <= 2) ==> fds[fd] == t[fd])
              && (stages[i].input.Some? ==> fds[0] == File(stages[i].input.value, Reading))
              && (stages[i].output.Some? ==> fds[1] == File(stages[i].output.value, Writing))
              && (stages[i].error.Some? ==> fds[2] == File(stages[i].error.value, Writing))
              && (stages[i].input == None ==> fds[0] == if i == 0 then t[0] else ReadEnd(old(p.pipes) + i - 1))
              && (stages[i].output == None ==>
                    fds[1] == if i == |stages| - 1 then t[1] else WriteEnd(old(p.pipes) + i))
              && (stages[i].error == None ==> fds[2] == t[2])
  {
    if cmd == None || |cmd.value| <= 0 { return -1; }
    ghost var t, base, first := p.own.fds, p.pipes, |p.children|;
    var started := StartAll(p, cmd.value);
    ghost var created := p.children[first..];
    WiredHoldsOnce(t, base, cmd.value, created);
    forall i | 0 <= i < |created| ensures ChildOf(t, base, cmd.value, i, created[i]) {}
    if !started { return -1; }
    r := WaitForAll(p, |cmd.value|, created);
  }
}
