/** Processes as the pipeline executor sees them: descriptor tables, pipes, children and
    their endings. A call that can fail may fail at any time, and then it is counted. */
module Processes {
  import opened Messages

  datatype Access = Reading | Writing

  /** What a descriptor refers to. Pipes are numbered in the order of their creation. */
  datatype Desc = Inherited(id: int) | ReadEnd(pipe: nat) | WriteEnd(pipe: nat) | File(name: string, access: Access)

  type Table = map<int, Desc>

  datatype Ending = Exit(code: int) | Signaled

  /** A program with the descriptors it starts with, or nothing when the child has
      exited before that. */
  datatype Image = Exec(argv: seq<string>, fds: Table) | NoImage

  /** failures counts the calls of the child that failed. */
  datatype Child = Child(image: Image, ending: Ending, failures: nat)

  /** The pipes from base on do not exist yet. */
  predicate NoPipeFrom(t: Table, base: nat) {
    forall fd :: fd in t ==> !(t[fd].ReadEnd? && t[fd].pipe >= base) && !(t[fd].WriteEnd? && t[fd].pipe >= base)
  }

  /** The lowest number from n on that is not used. */
  function LowestFree(used: set<int>, n: nat): (fd: nat)
    ensures fd >= n && fd !in used
    ensures forall k :: n <= k < fd ==> k in used
    decreases |set k | k in used && k >= n|
  {
    if n !in used then n else
      assert (set k | k in used && k >= n) == (set k | k in used && k >= n + 1) + {n};
      LowestFree(used, n + 1)
  }

  class Descriptors {
    var fds: Table
    /** Calls of dup2, open and exec that failed. */
    var failures: nat

    /** fork gives the child a copy of the table. */
    constructor (fds: Table)
      ensures this.fds == fds && failures == 0
    {
      this.fds := fds;
      failures := 0;
    }

    method Dup2(from: int, to: int) returns (ok: bool)
      requires from in fds
      modifies this
      ensures fds == if ok then old(fds)[to := old(fds)[from]] else old(fds)
      ensures failures == if ok then old(failures) else old(failures) + 1
    {
      ok := *;
      if ok {
        fds := fds[to := fds[from]];
      } else {
        failures := failures + 1;
      }
    }

    method Close(fd: int)
      requires fd in fds
      modifies this`fds
      ensures fds == old(fds) - {fd}
    {
      fds := fds - {fd};
    }

    /** The lowest free descriptor, or -1. */
    method Open(name: string, access: Access) returns (fd: int)
      modifies this
      ensures fd == -1 ==> fds == old(fds) && failures == old(failures) + 1
      ensures fd != -1 ==> fd == LowestFree(old(fds).Keys, 0) && fds == old(fds)[fd := File(name, access)]
      ensures fd != -1 ==> failures == old(failures)
    {
      var ok: bool := *;
      fd := -1;
      if ok {
        fd := LowestFree(fds.Keys, 0);
        fds := fds[fd := File(name, access)];
      } else {
        failures := failures + 1;
      }
    }

    /** Start a program, which keeps the descriptors; an exec that returns has failed. */
    method Execvp(argv: seq<string>) returns (image: Image)
      modifies this`failures
      ensures image == NoImage || image == Exec(argv, fds)
      ensures failures == if image.Exec? then old(failures) else old(failures) + 1
    {
      var ok: bool := *;
      if ok { return Exec(argv, fds); }
      failures := failures + 1;
      return NoImage;
    }
  }

  /** The process that starts children and waits for them. */
  class Parent {
    const own: Descriptors
    var pipes: nat
    var children: seq<Child>
    var unreaped: set<nat>
    var failedWaits: nat
    /** Calls of pipe and fork that failed. */
    var failures: nat

    /** A process that has inherited some open descriptors. */
    constructor (open: set<int>)
      ensures Valid() && fresh(own) && own.fds == map fd | fd in open :: Inherited(fd)
      ensures pipes == 0 && children == [] && unreaped == {} && failedWaits == failures == 0
    {
      own := new Descriptors(map fd | fd in open :: Inherited(fd));
      pipes, children, unreaped, failedWaits, failures := 0, [], {}, 0, 0;
    }

    ghost predicate Valid()
      reads this, own
    {
      (forall k :: k in unreaped ==> k < |children|) && NoPipeFrom(own.fds, pipes)
    }

    /** Two descriptors for a new pipe, the lowest free ones, or none. */
    method Pipe() returns (ok: bool, r: int, w: int)
      requires Valid()
      modifies this`pipes, this`failures, own`fds
      ensures Valid()
      ensures failures == if ok then old(failures) else old(failures) + 1
      ensures !ok ==> own.fds == old(own.fds) && pipes == old(pipes) && r == w == -1
      ensures ok ==> r == LowestFree(old(own.fds).Keys, 0) && w == LowestFree(old(own.fds).Keys + {r}, 0)
      ensures ok ==> pipes == old(pipes) + 1
      ensures ok ==> own.fds == old(own.fds)[r := ReadEnd(old(pipes))][w := WriteEnd(old(pipes))]
    {
      ok := *;
      r, w := -1, -1;
      if ok {
        r := LowestFree(own.fds.Keys, 0);
        w := LowestFree(own.fds.Keys + {r}, 0);
        own.fds := own.fds[r := ReadEnd(pipes)][w := WriteEnd(pipes)];
        pipes := pipes + 1;
      } else {
        failures := failures + 1;
      }
    }

    /** Whether fork makes a child. */
    method Forks() returns (ok: bool)
      requires Valid()
      modifies this`failures
      ensures Valid() && failures == if ok then old(failures) else old(failures) + 1
    {
      ok := *;
      if !ok { failures := failures + 1; }
    }

    /** A new child is known with what becomes of it. */
    method Started(child: Child)
      requires Valid()
      modifies this`children, this`unreaped
      ensures Valid() && children == old(children) + [child]
      ensures unreaped == old(unreaped) + {old(|children|)} && |unreaped| == old(|unreaped|) + 1
    {
      unreaped := unreaped + {|children|};
      children := children + [child];
    }

    /** Reap any one child that has not been reaped, of which there must be one; None when
        the call is interrupted. */
    method Wait() returns (r: Option<Ending>, ghost who: nat)
      requires Valid() && unreaped != {}
      modifies this`unreaped, this`failedWaits
      ensures Valid()
      ensures r == None ==> unreaped == old(unreaped) && failedWaits == old(failedWaits) + 1
      ensures r.Some? ==>
                && who in old(unreaped) && r.value == children[who].ending
                && unreaped == old(unreaped) - {who} && |unreaped| == old(|unreaped|) - 1
                && failedWaits == old(failedWaits)
    {
      who := 0;
      var interrupted: bool := *;
      if interrupted {
        failedWaits := failedWaits + 1;
        return None, 0;
      }
      var k :| k in unreaped;
      unreaped := unreaped - {k};
      return Some(children[k].ending), k;
    }
  }
}
