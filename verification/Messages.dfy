/** The data that travels between runners and the controller, and the jobs the
    controller keeps. */
module Messages {
  datatype Option<+T> = None | Some(value: T)

  datatype MsgType =
    | SUBMIT | STATUS | SHUTDOWN | ACK | DONE
    | STATUS_REQ | STATUS_RESP | STATUS_END
    | SHUTDOWN_REQ | SHUTDOWN_ACK

  /** What the payload text says, before it is formatted. */
  datatype Payload =
    | Blank
    | Command(text: string)
    | ExecutingHeader
    | ScheduledHeader
    | JobLine(userId: int, commandId: int)

  datatype RpcMessage = RpcMessage(
    kind: MsgType, senderPid: int, userId: int, commandId: int, payload: Payload)

  /** A message together with the pid whose private FIFO it is written to. */
  datatype Envelope = Envelope(to: int, msg: RpcMessage)

  datatype Job = Job(commandId: int, userId: int, runnerPid: int)

  function RemoveAt<T>(s: seq<T>, i: nat): (r: seq<T>)
    requires i < |s|
    ensures |r| == |s| - 1
    ensures forall k :: 0 <= k < i ==> r[k] == s[k]
    ensures forall k :: i <= k < |r| ==> r[k] == s[k + 1]
  {
    s[..i] + s[i + 1..]
  }

  lemma RemoveAtMultiset<T>(s: seq<T>, i: nat)
    requires i < |s|
    ensures multiset(s) == multiset(RemoveAt(s, i)) + multiset{s[i]}
  {
    assert s == s[..i] + [s[i]] + s[i + 1..];
  }

  predicate NoDuplicates<T(==)>(s: seq<T>) {
    forall i, j :: 0 <= i < j < |s| ==> s[i] != s[j]
  }

  /** Position of the first job with a command identifier. */
  function IndexOfCommand(q: seq<Job>, commandId: int): (r: Option<nat>)
    ensures r == None <==> forall k :: 0 <= k < |q| ==> q[k].commandId != commandId
    ensures r.Some? ==> r.value < |q| && q[r.value].commandId == commandId
    ensures r.Some? ==> forall k :: 0 <= k < r.value ==> q[k].commandId != commandId
  {
    if q == [] then None
    else if q[0].commandId == commandId then Some(0)
    else match IndexOfCommand(q[1..], commandId)
         case None =>
           assert forall k :: 0 < k < |q| ==> q[k] == q[1..][k - 1];
           None
         case Some(i) =>
           assert forall k :: 0 < k < |q| ==> q[k] == q[1..][k - 1];
           Some(i + 1)
  }

  lemma FirstCommand(q: seq<Job>, commandId: int, i: nat)
    requires i < |q| && q[i].commandId == commandId
    requires forall k :: 0 <= k < i ==> q[k].commandId != commandId
    ensures IndexOfCommand(q, commandId) == Some(i)
  {
  }
}
