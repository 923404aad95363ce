/** A runner process: what it sends, which replies it waits for, and when it is over. */
module RunnerModel {
  import opened Messages

  const PAYLOAD_SIZE := 480

  datatype Role = Execute(userId: int, command: string) | Shutdown | Status

  /** Awaiting: the request is sent and a reply is being read. Executing: authorized,
      with the user and command identifiers of the ACK. */
  datatype Phase = Idle | Awaiting | Executing(userId: int, commandId: int) | Done | Refused

  function PayloadText(command: string): string {
    if |command| < PAYLOAD_SIZE then command else command[..PAYLOAD_SIZE - 1]
  }

  function Request(pid: int, role: Role): RpcMessage {
    match role
    case Execute(u, c) => RpcMessage(SUBMIT, pid, u, pid, Command(PayloadText(c)))
    case Shutdown => RpcMessage(SHUTDOWN_REQ, pid, 0, 0, Blank)
    case Status => RpcMessage(STATUS_REQ, pid, 0, 0, Blank)
  }

  /** What reading one reply does to an awaiting runner. An execute runner reads once;
      the others read on until their closing message. */
  function OnReply(role: Role, reply: RpcMessage): Phase {
    match role
    case Execute(_, _) => if reply.kind == ACK then Executing(reply.userId, reply.commandId) else Refused
    case Shutdown => if reply.kind == SHUTDOWN_ACK then Done else Awaiting
    case Status => if reply.kind == STATUS_END then Done else Awaiting
  }

  function DoneMessage(pid: int, userId: int, commandId: int): RpcMessage {
    RpcMessage(DONE, pid, userId, commandId, Blank)
  }

  /** The phase reached by reading a list of replies. */
  function AfterReplies(role: Role, replies: seq<RpcMessage>): Phase {
    if replies == [] then Awaiting
    else
      var phase := OnReply(role, replies[0]);
      if phase == Awaiting then AfterReplies(role, replies[1..]) else phase
  }

  /** Ask for shutdown and read until a SHUTDOWN_ACK; how many replies were read and
      whether the acknowledgement was among them. */
  method RunShutdown(pid: int, replies: seq<RpcMessage>) returns (sent: seq<RpcMessage>, read: nat, acknowledged: bool)
    ensures sent == [Request(pid, Shutdown)] == [RpcMessage(SHUTDOWN_REQ, pid, 0, 0, Blank)]
    ensures acknowledged <==> AfterReplies(Shutdown, replies) == Done
    ensures read <= |replies| && (acknowledged ==> read > 0 && replies[read - 1].kind == SHUTDOWN_ACK)
    ensures forall i :: 0 <= i < (if acknowledged then read - 1 else read) ==> replies[i].kind != SHUTDOWN_ACK
  {
    sent := [RpcMessage(SHUTDOWN_REQ, pid, 0, 0, Blank)];
    read := 0;
    assert replies[0..] == replies;
    while read < |replies|
      invariant read <= |replies|
      invariant AfterReplies(Shutdown, replies) == AfterReplies(Shutdown, replies[read..])
      invariant forall i :: 0 <= i < read ==> replies[i].kind != SHUTDOWN_ACK
    {
      assert replies[read..][1..] == replies[read + 1..];
      read := read + 1;
      if replies[read - 1].kind == SHUTDOWN_ACK { return sent, read, true; }
    }
    acknowledged := false;
  }
}
