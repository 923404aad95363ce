# Verified model of the command runner

The original is a small job system for one machine. A *controller* process reads fixed-size
messages from a public FIFO and decides which submitted command may run; at most
`parallel_limit` commands run at a time, and the rest wait in a linked queue that is served
first come first served (`fcfs`), at random (`random`) or by user (`fair`). A *runner* process
submits one command, waits for permission on a private FIFO, parses the command line, runs it
as a pipeline of child processes, and reports that it is done. A shutdown request stops
admission; the controller ends when everything accepted has finished.

The model follows the program's own structure.

- `Messages`, `FairPolicy`: messages and jobs; the fair choice of the next user and the order
  in which a frozen queue is served, as functions on sequences.
- `JobQueues`: the linked queue as a class with `head`, `tail`, `next` and `size`, its five
  removals by splicing, and the predictor that finds the fair order on an array of markers.
- `ControllerModel`, `ControllerHandlers`: what the controller does with one message, once as a
  function on states and once as a class that updates fields, queues and the growing user array;
  every method of the class is tied to the function.
- `ControllerInvariants`, `FairRuns`, `ShutdownRuns`, `Histories`, `StatusReplies`,
  `ServerRuns`: properties of all controller runs, for arbitrary message sequences (also
  duplicate, unknown and unexpected ones).
- `RunnerModel`, `ProtocolModel`, `ProtocolPlaces`, `ProtocolInvariant`, `ProtocolReaders`,
  `ProtocolTheorems`, `Sums`: the distributed system of one controller, any number of runners,
  the shared FIFO and the private FIFOs, as a transition system with arbitrary interleaving.
- `ParserModel`, `Parser`: the command language as a cursor scan on strings, and the parser as
  it works on a character buffer that is cut in place.
- `ParserLanguage`, `ParserRoundTrip`, `ParserCompact`, `ParserCharacters`: a cursor-free
  description of the same language, printing, the shortest way to print, and the language in
  terms of characters and numbers alone.
- `Processes`, `Executor`, `Runner`: descriptor tables, pipes, children, the pipeline executor,
  and an execute runner that puts protocol, parser and executor together.

Assumptions. FIFOs are lossless and keep order, every runner of a scenario has its own pid
(`command_id` is the pid), and allocation succeeds. `rand` is a sequence of arbitrary numbers fixed
before the run. In the executor, `pipe`, `fork`, `open`, `dup2`, `exec` and `wait` may each fail at
any call, and each failure is counted, so that the contracts say what happens when none occurs;
descriptors 0, 1 and 2 are open at the start.

Findings about the code:

- The status reply under `fair` stops at the first turn of user -1, because the predictor uses -1
  as "no user" while the real removal does not. The exact condition is `ShutdownRuns.SnapshotIsOrder`;
  `ShutdownRuns.SentinelHidesJobs` is a run that shows it.
- Only the most recent shutdown requester gets the final acknowledgement, although the
  documentation (README.md:115) reads as if each one did; an earlier requester waits for ever. The
  exact condition is `ShutdownRuns.AnsweredExactly`, for the whole system
  `ProtocolTheorems.AskersAtRest`; `ShutdownRuns.RequesterForgotten` is a run that shows it.
- The refusal during shutdown is meant to keep new runners from waiting for ever
  (src/controller/controller_handlers.c:34-35), but a submission that is still unread when the
  controller stops is neither accepted nor refused. The exact condition is
  `ProtocolTheorems.ExecutorsAtRest`; `ProtocolTheorems.SubmissionForgotten` is a run that shows it.
- A leading bar and two adjacent bars are not errors; empty pieces disappear, and stages after
  the sixteenth are not even checked (`ParserLanguage.LeadingBar`, `ParserLanguage.DoubledBar`,
  `ParserLanguage.OnlySixteenStages`).

## Model

| member | source | states |
|---|---|---|
| `FairPolicy.UsersAreThoseWaiting` | src/controller/scheduler.c:282-291 | the active-user list built from a queue has no repetitions and contains exactly the users with a queued job |
| `FairPolicy.RingIndex` | src/controller/scheduler.c:242-243 | the modular index of the circular scan is the plain wrapped position, also when the last user is absent (-1) |
| `FairPolicy.NextFairUserNearest` | src/controller/scheduler.c:223-250 | a user is chosen if and only if it is active and strictly nearest after the last served user going round the ring; so the first-active-user fallback is never needed when the ring covers the active users |
| `FairPolicy.NextFairUserAnyRing` | src/controller/scheduler.c:223-250 | with any ring, the nearest of the active users that are on it, and the first active user if and only if none is |
| `FairPolicy.DistanceWalks` | src/controller/scheduler.c:234-247 | the distance of a user is the one number of steps up to a full round after which the modular index meets that user |
| `FairPolicy.FairOrderPermutes` | src/controller/scheduler.c:262-320 | the order of repeated fair removals contains every queued job exactly once |
| `FairPolicy.UnusedMark` | src/controller/scheduler.c:498-513 | setting one marker removes exactly that job from the unmarked ones and keeps the others in order |
| `JobQueues.UserExists` | src/controller/scheduler.c:173-181 | true if and only if the user is in the list |
| `FairPolicy.NextUserIsScan` | src/controller/scheduler.c:191-211 | choosing without a ring is the circular scan with the active users themselves as the ring, repetitions or not |
| `FairPolicy.NextUserNearest` | src/controller/scheduler.c:191-211 | so a user is chosen without a ring if and only if it is active and strictly nearest after the last served user, going round the active list |
| `JobQueues.ChooseNextUser` | src/controller/scheduler.c:191-211 | the loop finds the user that the circular scan over the active users themselves finds, -1 if there is none |
| `JobQueues.ChooseNextFairUser` | src/controller/scheduler.c:223-250 | the scan by modular index chooses the user that the policy on values chooses, for every ring, including the empty one |
| `JobQueues.JobQueue.DistinctNodes` | src/controller/scheduler.c:66-163 | no node occurs twice on the list, so the list has no cycle and every splice is local |
| `JobQueues.JobQueue.Enqueue` | src/controller/scheduler.c:66-91 | appends one job at the tail; head, tail, size and links stay consistent |
| `JobQueues.JobQueue.Dequeue` | src/controller/scheduler.c:102-120 | removes and returns the oldest job; a queue that becomes empty has no tail; nothing on an empty queue |
| `JobQueues.JobQueue.Unlink` | src/controller/scheduler.c:147-160 | splicing out the node at position i removes exactly that job, repairs head and tail, and keeps the rest in order |
| `JobQueues.JobQueue.DequeueRandom` | src/controller/scheduler.c:129-163 | removes exactly the job at the drawn number modulo size |
| `JobQueues.JobQueue.DequeueFair` | src/controller/scheduler.c:262-320 | removes exactly the oldest job of the chosen user, which is always found, and remembers that user; nothing on an empty queue |
| `JobQueues.JobQueue.DequeueFairTimes` | src/controller/scheduler.c:262-320 | n fair removals in a row return the first n jobs of the fair order, the same order that the predictor writes |
| `JobQueues.JobQueue.RemoveByCommandId` | src/controller/scheduler.c:330-365 | removes exactly the first job with the identifier and returns it, or changes nothing when there is none |
| `JobQueues.JobQueue.CopyToArray` | src/controller/scheduler.c:417-434 | writes the first min(max, size) jobs in order and leaves the rest of the array and the queue alone |
| `JobQueues.JobQueue.CopyFairToArray` | src/controller/scheduler.c:450-520 | without touching the queue, writes exactly the first min(max, size) jobs that repeated fair removal would take, cut before the first turn of user -1 |
| `JobQueues.PredictFair` | src/controller/scheduler.c:472-515 | the simulation on markers follows the fair order for any queue, ring and last user |
| `ControllerInvariants.HandleEffect` | src/controller/controller_handlers.c:458-481 | every message has one of four effects on queues and histories; in particular it authorizes at most one job, and during shutdown admits none |
| `ControllerInvariants.DonePromotesOnce` | src/controller/controller_handlers.c:110-137 | the promotion loop after DONE runs at most once and never finds the queue empty |
| `ControllerInvariants.HandleKeepsInv` | src/controller/controller_handlers.c:458-481 | every message keeps: running count = running jobs <= limit, a job waits only if all slots are taken, no job lost or duplicated, the ring lists submitting users in first-seen order, the controller has stopped exactly when shutdown is asked for and nothing is left |
| `ControllerInvariants.RunKeepsInv` | src/controller/controller.c:41-56 | the same in every state of every run, for every policy and every message sequence |
| `ControllerInvariants.RunGrows` | src/controller/controller_handlers.c:71-174 | histories, ring and sent messages are only ever extended |
| `ControllerInvariants.WaitingRegistered` | src/controller/controller_handlers.c:71-100 | every waiting user is on the ring |
| `ControllerInvariants.OfRemoveFirst` | src/controller/scheduler.c:293-317 | removing the oldest job of a user keeps the order of every user's jobs |
| `ControllerInvariants.RunKeepsOrder` | src/controller/controller_handlers.c:110-174 | with any policy but random and fair, authorized then waiting jobs are the accepted submissions in order |
| `ControllerInvariants.RunKeepsUserOrder` | src/controller/controller_handlers.c:110-174 | under fair the same holds for the jobs of each user |
| `ControllerInvariants.RandomPromotes` | src/controller/controller_handlers.c:115-116 | under random a promotion authorizes the waiting job at the next drawn number modulo the number of waiting jobs and draws once; a message that promotes none draws nothing |
| `ControllerInvariants.DoneFinishes` | src/controller/controller_handlers.c:210-222 | a DONE finishes the first running job with its identifier and takes it out of its place |
| `ControllerInvariants.OthersFinishNothing` | src/controller/controller_handlers.c:210-222 | a DONE with an unknown identifier changes no queue, and no other message finishes a job |
| `ControllerInvariants.RunKeepsRunningOrder` | src/controller/controller_handlers.c:110-222 | in every run the running jobs are the authorized ones with the finished ones left out, in the order of authorization |
| `ControllerInvariants.RefusalAnswers` | src/controller/controller_handlers.c:39-53 | during shutdown a submission changes nothing and is answered by one SHUTDOWN_ACK to its sender, from the controller, with its user and command |
| `FairRuns.DistanceAfter` | src/controller/scheduler.c:234-247 | serving v reduces by v's distance the distance of all users behind v and moves the others behind |
| `FairRuns.DistanceAppend` | src/controller/controller_handlers.c:71-100 | registering a new user does not change who comes before whom |
| `FairRuns.PromoteServesNearest` | src/controller/controller_handlers.c:110-137 | every promotion serves the waiting user nearest after the last served one |
| `FairRuns.Alternation` | src/controller/controller_handlers.c:148-174 | two dispatches in a row go to one user only if nobody else was waiting at the second, including jobs started directly on submission |
| `FairRuns.BoundedOvertaking` | src/controller/controller_handlers.c:110-137 | in every run, while a user waits without being served, all dispatches go to pairwise distinct users, even while new users register |
| `FairRuns.FairBound` | src/controller/scheduler.c:223-250 | if no user registers, the k-th waiting job of a user at distance d among n users is within the next d + (k-1)n dispatches, at most kn, and it is that very job |
| `ShutdownRuns.SnapshotIsOrder` | src/controller/scheduler.c:495-497 | the Scheduled list is a prefix of the order in which waiting jobs would be authorized, and all of it if and only if the policy is not fair or no job of user -1 waits |
| `ShutdownRuns.SentinelHidesJobs` | src/controller/scheduler.c:495-497 | a run of two submissions, by users 1 and -1 with one slot, after which a job waits and would be served next but the Scheduled list is empty |
| `ShutdownRuns.OrderIsFixed` | src/controller/controller_handlers.c:458-462 | once shutting down nothing is admitted, ring and submissions are frozen, and authorizations follow the order fixed at that moment, whatever arrives |
| `ShutdownRuns.SnapshotPredicts` | src/controller/controller_handlers.c:304-309 | later authorizations are a prefix of what a status request would list as Scheduled now, and the whole list once nothing waits |
| `ShutdownRuns.HandleAcksShutdownOnce` | src/controller/controller_handlers.c:358-383 | no final acknowledgement before the controller stops; when it stops, the last message sent is the only one and goes to the sender of the latest request |
| `ShutdownRuns.ShutdownExact` | src/controller/controller_handlers.c:369-383 | over whole runs: stopped if and only if asked, nothing running, nothing waiting; then accepted and finished jobs agree as multisets, and exactly one final acknowledgement was sent |
| `ShutdownRuns.AnsweredExactly` | src/controller/controller_handlers.c:358-383 | in every run a process is sent the final acknowledgement if and only if the controller has stopped and this process sent the latest shutdown request among the handled messages |
| `ShutdownRuns.RequesterForgotten` | src/controller/controller_handlers.c:358-361 | a run, under every policy and limit, in which 5 and then 6 ask for shutdown while a job runs: the controller stops, 6 is answered, and 5 is never sent anything |
| `Histories.RunAdmits` | src/controller/controller_handlers.c:458-466 | a run accepts exactly the submissions before the first shutdown request, in order, each with its own user, command and sender |
| `Histories.RunAcks` | src/controller/controller_handlers.c:15-29 | in every run the ACK messages sent are one for each authorized job, in the order of authorization, addressed to its runner and naming its user and command |
| `Histories.FirstComeFirstServed` | src/controller/controller_handlers.c:110-174 | with any policy but random and fair, the ACK messages answer a prefix of the admitted SUBMIT messages in order |
| `Histories.FairPerUser` | src/controller/controller_handlers.c:110-174 | under fair, the ACK messages answer for each user a prefix of that user's admitted SUBMIT messages in order |
| `StatusReplies.StatusReadsBack` | src/controller/controller_handlers.c:232-350 | reading a status reply gives back the running jobs and the predicted waiting jobs under their headers; every message goes to the requester and STATUS_END comes once, last |
| `StatusReplies.StatusFields` | src/controller/controller_handlers.c:232-350 | each message is a STATUS_RESP of the controller, the last one the STATUS_END; with any policy but fair the waiting jobs are listed as they wait |
| `StatusReplies.StatusRunnerEnds` | src/runner/runner_cli.c:110-119 | a status runner that reads such a reply is over when it has read that reply |
| `ControllerHandlers.Configure` | src/controller/controller_handlers.c:392-416 | limit 4 and fcfs by default, a positive first argument as limit, the second argument as policy, recognised as fair or random exactly when it is that word in spite of the cut at 31 characters |
| `ControllerHandlers.Controller.RememberFairUser` | src/controller/controller_handlers.c:71-100 | appends a user that is not yet on the ring, keeps the others across growth of the array, which starts at 8 and doubles |
| `ControllerHandlers.Controller.DequeueByPolicy` | src/controller/controller_handlers.c:115-122 | takes the job at the drawn number modulo the queue size under random, a job of the user that the fair scan chooses under fair, and the oldest job under any other policy |
| `ControllerHandlers.Controller.StartWaitingJobs` | src/controller/controller_handlers.c:110-137 | the in-place loop computes the repeated promotion of the value model |
| `ControllerHandlers.Controller.HandleSubmit` | src/controller/controller_handlers.c:148-174 | registers the user, then authorizes the job if a slot is free and queues it otherwise |
| `ControllerHandlers.Controller.HandleDone` | src/controller/controller_handlers.c:210-222 | finishes the job with that identifier if it runs, then promotes |
| `ControllerHandlers.Controller.HandleStatusReq` | src/controller/controller_handlers.c:270-350 | answers with the running jobs and the predicted order of the waiting ones and changes nothing else |
| `ControllerHandlers.Controller.TryFinishShutdown` | src/controller/controller_handlers.c:369-383 | stops exactly when shutdown is asked for and nothing runs or waits, with one SHUTDOWN_ACK, otherwise empty, to the stored requester |
| `ControllerHandlers.Controller.HandleMessage` | src/controller/controller_handlers.c:458-481 | the whole state after one message is that of the value model, the result says whether to stop, and a refusal carries the user and command of the submission |
| `ControllerHandlers.Controller.Serve` | src/controller/controller.c:41-56 | the nested read loops handle the delivered messages in order until the controller stops; if it has not stopped, every message of every session was handled |
| `ServerRuns.FlattenConcat` | src/controller/controller.c:41-56 | the messages of two lists of sessions are those of the first, then those of the second |
| `ServerRuns.FlattenAt` | src/controller/controller.c:41-56 | every message of every session has its place among the messages that are handled |
| `ServerRuns.ServingConcat` | src/controller/controller.c:41-56 | serving sessions a and then sessions b is serving all of them; reopening the FIFO changes nothing |
| `ServerRuns.RunHandles` | src/controller/controller.c:49-53 | a run handles messages from the front, each while the controller is alive, and leaves some unhandled only if it has stopped |
| `ServerRuns.AllSessionsHandled` | src/controller/controller.c:41-56 | a controller that is alive after its sessions has handled every one of their messages |
| `RunnerModel.RunShutdown` | src/runner/runner_cli.c:130-171 | sends one SHUTDOWN_REQ with nothing but its pid and reads up to and including the first SHUTDOWN_ACK |
| `Runner.RunExecute` | src/runner/runner_cli.c:183-255 | sends SUBMIT with at most the first 479 characters of the command; only on an ACK starts the pipeline that this text parses to and sends DONE with the user and command of the ACK, even if the command could not be parsed or run; leaves its descriptors as they were |
| `ProtocolInvariant.PlacesAfterSend` | src/runner/runner_cli.c:183-255 | a message sent by one runner leaves every other runner's submission where it is |
| `ProtocolPlaces.PlacedAfterDone` | src/controller/controller_handlers.c:210-222 | after the controller has read a DONE, each execute runner is still in one of its listed situations |
| `ProtocolInvariant.StepKeepsInv` | src/controller/controller_handlers.c:148-222 | every step of any process keeps the invariant that ties runner phases, messages in transit and both queues together |
| `ProtocolInvariant.RunKeepsSysInv` | src/controller/controller.c:41-56 | the invariant holds after every run of the system |
| `ProtocolTheorems.SystemRunsController` | src/controller/controller.c:41-56 | however processes interleave, the controller goes through a run on the messages it reads |
| `ProtocolTheorems.SystemSafety` | src/controller/controller_handlers.c:148-222 | in every reachable state at most limit runners are between reading ACK and sending DONE, each submission has at most one reply, and once the controller has stopped nobody executes or has an ACK to read |
| `ProtocolTheorems.StepDecreases` | src/runner/runner_cli.c:183-255 | every step lowers a natural-number measure of phases, messages in transit and unread replies |
| `ProtocolTheorems.RunsAreFinite` | src/controller/controller.c:41-56 | with n runners every interleaving ends within 4n(n+5) steps |
| `ProtocolTheorems.NeverStuck` | src/controller/controller_handlers.c:369-383 | while the controller is alive after a shutdown request, some step other than the start of a new runner is possible |
| `ProtocolTheorems.CanDrain` | src/controller/controller_handlers.c:369-383 | from each such state a run to the stop of the controller exists |
| `ProtocolTheorems.Drained` | src/controller/controller_handlers.c:369-383 | a run at rest after a shutdown request has stopped the controller with both queues empty, and every accepted job has finished exactly once |
| `ProtocolReaders.HandleSends` | src/controller/controller_handlers.c:270-383 | a runner that only asks is sent nothing but the whole reply to its status request, and the final acknowledgement if it was the last to ask for shutdown |
| `ProtocolReaders.StepKeepsReaders` | src/runner/runner_cli.c:83-171 | every step of any process keeps, for each status runner, that its request is unread or it was sent exactly one closed reply of which it has read a part, and for each shutdown runner, that it was sent the final acknowledgement exactly if it is owed one |
| `ProtocolTheorems.AskersAtRest` | src/runner/runner_cli.c:83-171 | when no process can move, a shutdown runner that began is over if and only if the controller has stopped and this runner was the last to ask, and a status runner that began is over if and only if its request was read |
| `ProtocolTheorems.EverybodyServed` | src/controller/controller.c:41-56 | progress without shutdown: when no process can move and the controller is alive, nothing is unread, waiting or running, every runner that began is over, and each submission has finished exactly once |
| `ProtocolTheorems.ExecutorsAtRest` | src/runner/runner_cli.c:183-255 | when no process can move, an execute runner that began is over if and only if its submission was read, and done if and only if that submission has finished, once |
| `ProtocolTheorems.SubmissionForgotten` | src/controller/controller_handlers.c:31-53 | a run of a shutdown and an execute runner in which the controller stops with the submission unread and its runner waits for ever |
| `ParserModel.FillMeans` | src/runner/parser.c:121-150 | argv is the first 31 words in order, and of each kind of redirection the last one counts |
| `ParserLanguage.OperatorFound` | src/runner/parser.c:109-119 | what the cursor takes for an operator is what its surroundings say: `2>` exactly when the 2 starts the stage or follows white space and is not a target |
| `ParserLanguage.ScanFromBoundary` | src/runner/parser.c:99-148 | from every position between two items the cursor loop fails if and only if a later operator has no target, and otherwise finds the items that positions alone determine |
| `ParserLanguage.StageLanguage` | src/runner/parser.c:92-152 | a stage is rejected exactly when some operator is followed, after white space, by the end or another operator; every other stage has the arguments and redirections its positions say |
| `ParserLanguage.SplitNoBar` | src/runner/parser.c:179-190 | a text without bars is one piece, none if it is empty |
| `ParserLanguage.SplitConcat` | src/runner/parser.c:179-190 | a bar separates: the pieces of the whole are those of its left side, then those of its right side |
| `ParserLanguage.CommandLanguage` | src/runner/parser.c:160-192 | a command is rejected exactly when one of its first sixteen pieces is malformed; otherwise it has one stage per piece |
| `ParserLanguage.LeadingBar` | src/runner/parser.c:179-190 | a bar in front of a command that still fits changes nothing |
| `ParserLanguage.DoubledBar` | src/runner/parser.c:179-190 | two bars in a row are one bar, for every command that fits |
| `ParserLanguage.OnlySixteenStages` | src/runner/parser.c:180-189 | after sixteen pieces anything may follow, malformed or not, without effect on the result |
| `Parser.Skip` | src/runner/parser.c:26-32 | stops at the first position that holds none of space, tab, newline, vertical tab, form feed and carriage return |
| `Parser.ParseToken` | src/runner/parser.c:61-80 | the maximal token after white space and the position behind it; nothing at the end or at an operator |
| `Parser.CommandStage.Parse` | src/runner/parser.c:92-152 | the cursor loop fills argv with its terminator and the redirection fields as the language says, and fails exactly when it says so |
| `Parser.CopyInput` | src/runner/parser.c:176-177 | the buffer holds the input cut at 1023 characters, with a terminator |
| `Parser.NextPiece` | src/runner/parser.c:179-188 | `strtok_r`: skips bars, terminates the next piece in place, and leaves the rest for the next call |
| `Parser.ParseCommand` | src/runner/parser.c:160-192 | null exactly when the command is rejected, else the stages of the language; its separators, operators and limits are those of `ParserCharacters` |
| `ParserRoundTrip.ScanPrinted` | src/runner/parser.c:99-148 | scanning any printed list of items gives the items back |
| `ParserRoundTrip.StageRoundTrip` | src/runner/parser.c:92-152 | parsing a printed stage gives the stage back |
| `ParserRoundTrip.RoundTrip` | src/runner/parser.c:160-192 | parsing a printed pipeline gives the pipeline back, for every well-formed pipeline within the caps |
| `ParserRoundTrip.ParseIsWellFormed` | src/runner/parser.c:160-192 | every result is a well-formed pipeline: at most 16 stages, at most 31 arguments each, tokens without white space, operators, bars or NUL |
| `ParserRoundTrip.Reparse` | src/runner/parser.c:160-192 | printing any successful parse and parsing it again gives the same result if the printed form fits the buffer |
| `ParserCompact.ScanCompact` | src/runner/parser.c:99-148 | scanning items written with no more white space than they need gives the items back |
| `ParserCompact.CompactIsShortest` | src/runner/parser.c:99-148 | no text that scans to the same items is shorter |
| `ParserCompact.ArrangedIsCheaper` | src/runner/parser.c:121-150 | the arguments and redirections that remain of a list of items can be written in at most the space of the list |
| `ParserCompact.JoinOfSplit` | src/runner/parser.c:179-190 | the pieces joined by single bars are at most as long as the text that was split |
| `ParserCompact.CompactFits` | src/runner/parser.c:160-192 | the compact form of a result is at most as long as the text it was parsed from, so it always fits the buffer |
| `ParserCompact.CompactRoundTrip` | src/runner/parser.c:160-192 | parsing the compact form of a well-formed pipeline gives the pipeline back |
| `ParserCompact.ReparseCompact` | src/runner/parser.c:160-192 | print, then parse, is the identity on every successful parse, of any input |
| `ParserCharacters.SpaceSeparates` | src/runner/parser.c:26-80 | each of the six white-space characters, spelled out, separates two words |
| `ParserCharacters.OthersDoNotSeparate` | src/runner/parser.c:61-80 | no other ordinary character does |
| `ParserCharacters.OperatorsRedirect` | src/runner/parser.c:109-133 | `a<f`, `a>f`, `a 2>f` and `2>f` redirect input, output and error for all words a and f, and `2 >f` redirects output |
| `ParserCharacters.LaterRedirectionWins` | src/runner/parser.c:121-132 | of two redirections of one kind the later target is kept |
| `ParserCharacters.MissingTarget` | src/runner/parser.c:61-80 | a stage that ends in an operator or has two operators in a row is rejected, whatever else it holds |
| `ParserCharacters.NoCommand` | src/runner/parser.c:99-107 | the empty command has no stages and white space alone is a stage of no words |
| `ParserCharacters.ThirtyOneArguments` | src/runner/parser.c:140-145 | of any number of words the first 31 become arguments, the others are dropped |
| `ParserCharacters.SixteenStages` | src/runner/parser.c:180-189 | of any number of stages the first 16 are kept |
| `ParserCharacters.ManyCharacters` | src/runner/parser.c:176-177 | of a word of any length the first 1023 characters are kept |
| `ParserCharacters.NothingBehindNul` | src/runner/parser.c:176-177 | nothing behind a NUL is read |
| `Executor.RunChild` | src/runner/executor.c:74-164 | a child starts its program, with its own arguments, if and only if there is one and none of its dup2, open and exec calls fails; descriptors 0, 1 and 2 are then the file named for each, opened for reading or writing, else the neighbouring pipe or the parent's descriptor, and all others are the parent's original ones |
| `Executor.EndsClosed` | src/runner/executor.c:168-177 | after a child is created the parent keeps only the read end for the next stage, none after the last |
| `Executor.WiredMeans` | src/runner/executor.c:80-159 | a stage reads from its input file, else from the pipe before it, else from where the parent reads; writes to its output file, else to the pipe behind it, else to where the parent writes; its errors go to its error file, else to the parent's; all other descriptors are the parent's |
| `Executor.WiredHoldsOnce` | src/runner/executor.c:74-164 | among all children, the write end of a pipe is held at exec only by its stage as output and the read end only by the next stage as input, if and only if no redirection replaces it |
| `Executor.GiveUp` | src/runner/executor.c:43-72 | on failure of pipe or fork at any stage the parent's table is as it was, each descriptor is closed once, and every created child is waited for unless a wait is interrupted |
| `Executor.StartStage` | src/runner/executor.c:38-178 | one turn of the stage loop: a wired child and only the next read end left, or, exactly if pipe or fork fails, the parent's table as it was and every child waited for |
| `Executor.StartAll` | src/runner/executor.c:38-178 | if no pipe or fork fails, every stage gets a child; otherwise it stops at the first failure; each child starts its program if none of its own calls fails; the parent's table is restored on every path |
| `Executor.WaitForAll` | src/runner/executor.c:180-193 | 0 if and only if every child exited with 0 and no wait was interrupted; each child is reaped once, in any order, and there is always a child left when wait is called |
| `Executor.ExecutePipeline` | src/runner/executor.c:19-194 | every stage gets a child if and only if no pipe or fork fails; each child starts if none of its calls fails, with its files, its pipe ends and otherwise the parent's descriptors, and exits with 1 if it does not start; every pipe end is held once; on every path the parent's table is restored and, unless a wait is interrupted, no child is left; 0 if and only if there is a stage, all stages got a child, all exited with 0, and no wait was interrupted |

## Left out

- FIFO files: creation, opening, closing, `perror` paths, blocking in `open`, and the loss of what is unread when the controller reopens its FIFO after end of file; a send is an append to a sequence. `Controller.Serve` takes what each opening delivers as given.
- Allocation failures, memory release and token ownership; `queue_destroy` and `parser_destroy`.
- Clocks, the log file and its format, printed messages, and the text of status lines (kept as structured payloads); job state and start time, which scheduling never reads.
- `rand`: an arbitrary tape of numbers, no claim about distribution; `atoi` and command-line parsing, so a limit argument is an integer.
- Integer width: counters, sizes and identifiers are unbounded.
- `JobQueues.ChooseNextFairUser`: the arrays that selectors and predictor only read are sequences, as are the predictor's own marker and user arrays; a NULL user array is an array of length zero.
- Branches that need a NULL queue, and those that the invariants rule out (a failed removal from a non-empty queue, a chosen user without a job).
- `Executor.ExecutePipeline`: the contents of files and pipes, truncation by `open`, `fflush`, signals, and what programs do; a child is its descriptor table at exec and an ending. The order of a child's own steps is kept, their interleaving with the parent is not observable in private tables and is not modelled.
- `ProtocolTheorems.RunsAreFinite`: a scenario has a finite set of runners, and a run ends when no process can move; a runner whose message the controller has not read or has not answered then waits for ever (`ProtocolTheorems.AskersAtRest` and `ProtocolTheorems.ExecutorsAtRest` say which). End of file on a private FIFO, which would end the wait of a runner, is not modelled.
- Starvation freedom under `fair` with unboundedly many new users, and any liveness under `random`: the code does not provide them.
- `runner_run_status` as a method: its loop is that of the shutdown runner with another closing message; in the system it is the role Status.
