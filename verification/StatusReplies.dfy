/** A status reply as its reader sees it. */
module StatusReplies {
  import opened Messages
  import FairPolicy
  import opened ControllerModel
  import opened RunnerModel

  /** The users and commands that the job lines at the start of a list of messages name. */
  function LeadingLines(msgs: seq<Envelope>): seq<(int, int)> {
    if msgs == [] || !msgs[0].msg.payload.JobLine? then [] else
      [(msgs[0].msg.payload.userId, msgs[0].msg.payload.commandId)] + LeadingLines(msgs[1..])
  }

  function Names(jobs: seq<Job>): seq<(int, int)> {
    if jobs == [] then [] else [(jobs[0].userId, jobs[0].commandId)] + Names(jobs[1..])
  }

  lemma {:induction false} LinesReadBack(cfg: Config, to: int, jobs: seq<Job>, e: Envelope, rest: seq<Envelope>)
    requires !e.msg.payload.JobLine?
    ensures LeadingLines(StatusLines(cfg, to, jobs) + ([e] + rest)) == Names(jobs)
    ensures |Names(jobs)| == |jobs|
    decreases |jobs|
  {
    var all := StatusLines(cfg, to, jobs) + ([e] + rest);
    if jobs != [] {
      LinesReadBack(cfg, to, jobs[1..], e, rest);
      assert StatusLines(cfg, to, jobs)[1..] == StatusLines(cfg, to, jobs[1..]);
      assert all[1..] == StatusLines(cfg, to, jobs[1..]) + ([e] + rest);
    }
  }

  /** Reading a reply gives back two lists under their headers, and the closing message
      comes exactly once, at the end. */
  ghost predicate ReadsAs(msgs: seq<Envelope>, run: seq<(int, int)>, wait: seq<(int, int)>) {
    && |msgs| == |run| + |wait| + 3
    && msgs[0].msg.payload == ExecutingHeader && LeadingLines(msgs[1..]) == run
    && msgs[1 + |run|].msg.payload == ScheduledHeader && LeadingLines(msgs[2 + |run|..]) == wait
    && Closes(Bodies(msgs))
  }

  /** The closing message comes exactly once, at the end. */
  ghost predicate Closes(replies: seq<RpcMessage>) {
    replies != [] && forall i :: 0 <= i < |replies| ==> (replies[i].kind == STATUS_END <==> i == |replies| - 1)
  }

  lemma StatusReadsBack(cfg: Config, s: State, to: int)
    ensures ReadsAs(StatusReply(cfg, s, to), Names(s.running), Names(Snapshot(cfg, s)))
    ensures forall i :: 0 <= i < |StatusReply(cfg, s, to)| ==> StatusReply(cfg, s, to)[i].to == to
  {
    hide Snapshot, StatusLines, LeadingLines, Names;
    var run, wait := s.running, Snapshot(cfg, s);
    var header := Envelope(to, RpcMessage(STATUS_RESP, cfg.pid, 0, 0, ScheduledHeader));
    var end := Envelope(to, RpcMessage(STATUS_END, cfg.pid, 0, 0, Blank));
    var msgs, a, b := StatusReply(cfg, s, to), StatusLines(cfg, to, run), StatusLines(cfg, to, wait);
    LinesReadBack(cfg, to, run, header, b + [end]);
    LinesReadBack(cfg, to, wait, end, []);
    assert [end] + [] == [end];
    assert msgs[1..] == a + ([header] + (b + [end]));
    assert msgs[2 + |run|..] == b + [end];
  }

  function Bodies(msgs: seq<Envelope>): (r: seq<RpcMessage>)
    ensures |r| == |msgs| && forall i :: 0 <= i < |r| ==> r[i] == msgs[i].msg
  {
    seq(|msgs|, i requires 0 <= i < |msgs| => msgs[i].msg)
  }

  lemma {:induction false} ReadsToTheEnd(replies: seq<RpcMessage>)
    requires Closes(replies)
    ensures AfterReplies(Status, replies) == Done
    decreases |replies|
  {
    if |replies| > 1 { ReadsToTheEnd(replies[1..]); }
  }

  /** A status runner that is sent a status reply is over after its last message. */
  lemma StatusRunnerEnds(cfg: Config, s: State, to: int)
    ensures AfterReplies(Status, Bodies(StatusReply(cfg, s, to))) == Done
  {
    StatusReadsBack(cfg, s, to);
    ReadsToTheEnd(Bodies(StatusReply(cfg, s, to)));
  }

  /** Every message is a STATUS_RESP but the last, which is the STATUS_END, and names only
      the controller beside its text; with any policy but fair, the waiting jobs are listed
      as they wait. */
  lemma StatusFields(cfg: Config, s: State, to: int)
    ensures var reply := StatusReply(cfg, s, to);
            && (forall i :: 0 <= i < |reply| ==>
                  reply[i] == Envelope(to, RpcMessage(if i == |reply| - 1 then STATUS_END else STATUS_RESP,
                                                      cfg.pid, 0, 0, reply[i].msg.payload)))
            && (cfg.policy != "fair" ==> ReadsAs(reply, Names(s.running), Names(s.waiting)))
  {
    StatusReadsBack(cfg, s, to);
    hide ReadsAs, Names, FairPolicy.FairOrder;
  }
}
