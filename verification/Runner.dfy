/** The execute runner with everything it runs: protocol, parser and pipeline. */
module Runner {
  import opened Messages
  import opened Parser
  import opened Processes
  import opened Executor
  import opened RunnerModel

  /** Submit a command, read one reply, and only if it is an ACK run the command and report
      it finished, whether or not it could be parsed and run. The replies are what the
      private FIFO delivers before end of file. */
  method RunExecute(p: Parent, pid: int, userId: int, command: string, replies: seq<RpcMessage>)
    returns (sent: seq<RpcMessage>, status: int)
    requires p.Valid() && p.unreaped == {} && StandardOpen(p.own.fds)
    modifies p, p.own
    ensures p.Valid() && p.own.fds == old(p.own.fds) && old(p.children) <= p.children && p.failures >= old(p.failures)
    ensures var role := Execute(userId, command);
            var phase := AfterReplies(role, replies);
            && sent == [Request(pid, role)]
                       + (if phase.Executing? then [DoneMessage(pid, phase.userId, phase.commandId)] else [])
            && (status == 0 <==> phase.Executing?)
    ensures var text := if |command| <= 479 then command else command[..479];
            var granted := |replies| > 0 && replies[0].kind == ACK;
            && sent == [RpcMessage(SUBMIT, pid, userId, pid, Command(text))]
                       + (if granted
                          then [RpcMessage(DONE, pid, replies[0].userId, replies[0].commandId, Blank)]
                          else [])
            && status == if granted then 0 else 1
    ensures var stages := ParserModel.Parse(if |command| <= 479 then command else command[..479]);
            var created := p.children[|old(p.children)|..];
            if |replies| > 0 && replies[0].kind == ACK && stages.Some?
            then Pipeline(old(p.own.fds), old(p.pipes), stages.value, created, p.failures - old(p.failures))
            else created == []
    ensures p.failedWaits == old(p.failedWaits) ==> p.unreaped == {}
    ensures var stages := ParserModel.Parse(PayloadText(command));
            var created := p.children[|old(p.children)|..];
            if AfterReplies(Execute(userId, command), replies).Executing? && stages.Some?
            then Pipeline(old(p.own.fds), old(p.pipes), stages.value, created, p.failures - old(p.failures))
            else created == []
  {
    assert PayloadText(command) == if |command| <= 479 then command else command[..479];
    var payload := if |command| < PAYLOAD_SIZE then command else command[..PAYLOAD_SIZE - 1];
    sent := [RpcMessage(SUBMIT, pid, userId, pid, Command(payload))];
    if |replies| > 0 && replies[0].kind == ACK {
      var cmd := ParseCommand(payload);
      if cmd != null {
        var stages := cmd.Stages(ParserModel.Parse(payload).value);
        var _ := ExecutePipeline(p, Some(stages));
      }
      sent := sent + [RpcMessage(DONE, pid, replies[0].userId, replies[0].commandId, Blank)];
      status := 0;
    } else {
      status := 1;
    }
  }
}
