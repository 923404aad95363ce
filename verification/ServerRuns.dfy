/** What the controller's main loop amounts to: which of the delivered messages it handles,
    and that openings of the server FIFO do not matter. */
module ServerRuns {
  import opened Messages
  import opened ControllerModel
  import opened ShutdownRuns

  /** The messages of all sessions, one session after the other. */
  function Flatten<T>(ss: seq<seq<T>>): seq<T> {
    if ss == [] then [] else ss[0] + Flatten(ss[1..])
  }

  lemma FlattenOne<T>(s: seq<T>)
    ensures Flatten<T>([]) == [] && Flatten([s]) == s
  {
    assert [s][1..] == [];
  }

  lemma {:induction false} FlattenConcat<T>(a: seq<seq<T>>, b: seq<seq<T>>)
    ensures Flatten(a + b) == Flatten(a) + Flatten(b)
    decreases |a|
  {
    if a == [] {
      assert a + b == b;
    } else {
      assert (a + b)[0] == a[0] && (a + b)[1..] == a[1..] + b;
      FlattenConcat(a[1..], b);
      assert a[0] + (Flatten(a[1..]) + Flatten(b)) == (a[0] + Flatten(a[1..])) + Flatten(b);
    }
  }

  /** Every message of every session has its place among all. */
  lemma FlattenAt<T>(ss: seq<seq<T>>, i: nat, k: nat)
    requires i < |ss| && k < |ss[i]|
    ensures |Flatten(ss[..i])| + k < |Flatten(ss)|
    ensures Flatten(ss)[|Flatten(ss[..i])| + k] == ss[i][k]
  {
    hide Flatten;
    assert ss == ss[..i] + ([ss[i]] + ss[i + 1..]);
    FlattenConcat(ss[..i], [ss[i]] + ss[i + 1..]);
    FlattenConcat([ss[i]], ss[i + 1..]);
    FlattenOne(ss[i]);
  }

  /** Serving the sessions a and b is serving a, then b. */
  lemma ServingConcat(cfg: Config, s: State, a: seq<seq<RpcMessage>>, b: seq<seq<RpcMessage>>)
    ensures Run(cfg, s, Flatten(a + b)) == Run(cfg, Run(cfg, s, Flatten(a)), Flatten(b))
  {
    FlattenConcat(a, b);
    RunAppend(cfg, s, Flatten(a), Flatten(b));
  }

  /** Handle every message, whether or not the controller has stopped. */
  function HandleAll(cfg: Config, s: State, msgs: seq<RpcMessage>): State
    decreases |msgs|
  {
    if msgs == [] then s else HandleAll(cfg, Handle(cfg, s, msgs[0]), msgs[1..])
  }

  /** A run handles messages from the front, goes on while the controller is alive, and
      leaves none unhandled unless the controller has stopped. */
  lemma {:induction false} RunHandles(cfg: Config, s: State, msgs: seq<RpcMessage>)
    ensures var n := Consumed(cfg, s, msgs);
            && Run(cfg, s, msgs) == HandleAll(cfg, s, msgs[..n])
            && (n == |msgs| || !Run(cfg, s, msgs).keepRunning)
            && forall k :: 0 <= k < n ==> HandleAll(cfg, s, msgs[..k]).keepRunning
    decreases |msgs|
  {
    hide Handle;
    if msgs != [] && s.keepRunning {
      var t, rest := Handle(cfg, s, msgs[0]), msgs[1..];
      RunHandles(cfg, t, rest);
      var n := Consumed(cfg, s, msgs);
      assert msgs[..n][1..] == rest[..n - 1];
      forall k | 0 <= k < n ensures HandleAll(cfg, s, msgs[..k]).keepRunning {
        if k > 0 {
          assert msgs[..k][1..] == rest[..k - 1] && msgs[..k][0] == msgs[0];
        }
      }
    }
  }

  /** If the controller is alive after its sessions, it has handled every message of every
      session. */
  lemma AllSessionsHandled(cfg: Config, s: State, sessions: seq<seq<RpcMessage>>)
    ensures var e := Run(cfg, s, Flatten(sessions));
            e.keepRunning ==> e == HandleAll(cfg, s, Flatten(sessions))
  {
    var msgs := Flatten(sessions);
    RunHandles(cfg, s, msgs);
    assert msgs[..|msgs|] == msgs;
  }
}
