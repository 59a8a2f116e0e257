# Verified model of the app server's client, transports and maintenance scripts

A Dafny model of the parts of the repository that carry state, interleave, or rewrite text, with the
properties their comments, tests and callers rely on. `dafny verify dfyconfig.toml` checks it all.

| file | what it models |
|---|---|
| `StreamRouting.dfy`, `StreamMachine.dfy`, `StreamInterleaving.dfy`, `StreamTermination.dfy` | delivery of stream events to subscriptions: the router and the registrar as methods over the two tables, then as concurrent tasks that take the two locks step by step, and that these stop |
| `PendingMachine.dfy`, `PendingRequests.dfy`, `RequestOutcomes.dfy` (with `MapSums.dfy`) | the table of pending requests with its closed flag, shared by any number of callers, readers and closers, and how requests end |
| `RustTokens.dfy`, `SourceMask.dfy`, `BraceMatching.dfy` | what comments and literals of Rust look like, the lexer that blanks them, the brace matcher, and the search for the function around a position |
| `WorkflowSteps.dfy`, `WorkflowJournal.dfy` | a workflow document flattened into step views, and the journal folded into them in place |
| `ChunkedInput.dfy`, `CappedLines.dfy` | the two readers of capped lines over a stream cut into arbitrary chunks, and the server's loop over records |
| `StderrTail.dfy` | the sliding window over a child's stderr, and the cut at a UTF-8 character boundary |
| `TwoTierDelivery.dfy` | the lossless and the best-effort channel with the in-process router and the stdio writer |
| `BroadcastResync.dfy` | the bounded broadcast ring, the drain after a lag, and the forwarding task |
| `Redaction.dfy`, `RedactionLaws.dfy`, with `RedactionLoops.dfy` and `RedactedText.dfy` | the two loops that redact bearer tokens and URL queries while the text changes length |
| `ShellQuoting.dfy` | the remote command line, against the word rules of a POSIX shell |
| `SshOptions.dfy` | the reviewed `-o Key=Value` options of the ssh command |
| `PercentEncoding.dfy` | percent-encoding of a query value and the form decoder |
| `LintReport.dfy` | one report row per source location |
| `Wrappers.dfy`, `Text.dfy`, `ByteStrings.dfy` | an option type, white space, ASCII case and decimal numerals, bytes |

## How it is modelled

Code that updates fields, tables or buffers is a class or a method with loops, proved against a function
of the old state; the theorems are then about that function. Protocols are small-step machines: a step is
one lock operation, one access to a flag or table, one poll or one send, and a theorem quantifies over
every list of steps that is enabled from the start. Channels are queues, reads deliver chunks of any
size, and strings are sequences of characters; where bytes matter they are integers below 256.

The registrar's guard on the second lock lives through the whole drain, because it is a temporary of the
`if let` that holds the removed queue (`app-server-client/src/lib.rs:2335-2346`), so the model keeps both
locks there.

## Where the code falls short of what is written about it

* A background subscription closes on a turn-terminal event when the event is sent live
  (`app-server-client/src/lib.rs:2396-2398`) but not when it is drained from the buffer (2337-2341). Whether
  its stream ends up closed is independent of timing if and only if a turn-terminal event never comes
  without a background-terminal one: `StreamInterleaving.BackgroundOutcomeDependsOnTiming`. For a turn
  subscription there is no such dependence.
* `read_capped_line` says that it returns 0 at the end of input (`app-server-transport/src/stdio.rs:56-60`),
  but an empty line also gives 0, and the loop at 240 stops there. `CappedLines.LoopHandlesAllUnlessBlankLine`
  says exactly which streams are still handled in full; `CappedLines.BlankLineEndsTheSession` gives the family
  of inputs that lose a message.
* The forwarding loop promises a snapshot after a lag (`app-server/src/background_api.rs:311-327`). When the sender
  has closed by the time its drain reaches the end, it stops without one. `BroadcastResync.CloseIsCompleteUnlessBehind`
  gives the exact condition over every run: apart from snapshots that could not be read, nothing is missing if and
  only if at the close the loop was neither draining nor more than the ring's capacity behind. Runs that lose events: `BroadcastResync.OverrunAtCloseLosesEvents`
  for every capacity, and `BroadcastResync.CloseDuringDrainLosesEvents` with nothing left to skip.
* The stdio writer ends when the lossless channel is closed and empty, even if best-effort messages are still
  queued (`app-server-transport/src/stdio.rs:214-219`): `TwoTierDelivery.CloseDropsQueuedDelta`.
  `TwoTierDelivery.CloseLosesExactlyTheQueue` says which are lost. Lossless messages never are.

## Model

| member | source | states |
|---|---|---|
| StreamRouting.StreamRouter.RegisterStreamRoute | app-server-client/src/lib.rs:2326-2357 | Uninterrupted registration sends the whole buffer in order, empties it, and installs the route unless a buffered event is background-terminal (for a background subscription) or turn-terminal (for a turn subscription); a dead receiver ends it without a route if there is an event to send |
| StreamRouting.StreamRouter.RouteStreamEvent | app-server-client/src/lib.rs:2376-2413 | Uninterrupted routing sends live when a route exists, and the route stays exactly if the receiver lives and the event is neither turn-terminal nor, for a background subscription, background-terminal; without a route it appends to the buffer and touches nothing else |
| StreamRouting.TurnClosingIgnoresTiming | app-server-client/src/lib.rs:2337-2341 | However many events were drained before the route went live, a turn stream closes exactly on the same histories |
| StreamRouting.BackgroundClosingDependsOnTiming | app-server-client/src/lib.rs:2396-2398 | A background stream closes independently of how many events were drained if and only if turn-terminal events never come without a background-terminal one |
| StreamInterleaving.NextKeepsInv | app-server-client/src/lib.rs:2317-2325 | Every step of every task keeps lock ownership exact, no event lost or reordered, no buffer beside a route, and the registrar's terminal flag right |
| StreamInterleaving.NothingStranded | app-server-client/src/lib.rs:2384-2393 | In every interleaving, channel, half-drained queue, buffer and the router's hand together are exactly what was produced, in order; once registered, an event stays buffered only behind a closing event already received |
| StreamInterleaving.RouteExistsUntilClosed | app-server-client/src/lib.rs:2348-2356 | In every quiet state after registration the route exists if and only if no closing event has been produced |
| StreamInterleaving.BackgroundRouteFollowsEvents | app-server-client/src/lib.rs:2337-2341 | In every settled state a background route exists exactly if no drained event was background-terminal and no event sent live was turn-terminal or background-terminal |
| StreamInterleaving.TurnStreamCloses | app-server-client/src/lib.rs:2314-2316 | In every settled state a turn stream is closed exactly when a turn-terminal event was produced, whenever the consumer registered, and the consumer has then received such an event |
| StreamInterleaving.NoDeadlock | app-server-client/src/lib.rs:2392-2394 | While the router or some registrar is unfinished, some task can take a step |
| StreamTermination.OwnRunsAreBounded | app-server-client/src/lib.rs:2333-2356 | Without events or receivers coming and going, router and registrars together can take only a bounded number of steps |
| StreamTermination.StoppedIsQuiet | app-server-client/src/lib.rs:2392-2394 | Where no task can move, both locks are free, the router waits for events and every registration is complete |
| StreamTermination.TurnConsumerNeverHangs | app-server-client/src/lib.rs:2314-2324 | After any interleaving the tasks stop within a bounded number of steps, and a turn consumer that still listens is then closed exactly if a turn-terminal event was produced, which it has received |
| StreamTermination.FailedSendRemovesRoute | app-server-client/src/lib.rs:2399-2402 | In every run, once the router is through with an event for a receiver that is gone, there is no route to it |
| StreamInterleaving.RouterSection | app-server-client/src/lib.rs:2394-2412 | The router's steps without interruption amount to the router's method: the machine refines the code it splits up |
| StreamInterleaving.RegistrarSection | app-server-client/src/lib.rs:2333-2356 | The registrar's steps without interruption amount to the registrar's method, whether the receiver lives or is gone |
| StreamInterleaving.RegistrarSectionInterrupted | app-server-client/src/lib.rs:2342-2344 | If the receiver goes after k of the buffered events, exactly these were sent, the rest is dropped, and no route is installed |
| StreamInterleaving.EverySplitHappens | app-server-client/src/lib.rs:2335-2346 | For every history and every point in it some run registers exactly there, so the invariants are not vacuous |
| StreamInterleaving.BackgroundOutcomeDependsOnTiming | app-server-client/src/lib.rs:2396-2402 | Two runs of a background subscription over the same events always agree on whether the stream is closed if and only if a turn-terminal event never comes without a background-terminal one |
| PendingRequests.NextKeepsInv | app-server-client/src/child_stdio_transport.rs:323-351 | Every step keeps each request's entry in the table, its channel and its caller's position consistent, for any number of callers, readers and closers |
| PendingRequests.ClearedForGood | app-server-client/src/child_stdio_transport.rs:674-680 | Once some close has cleared the table, it is empty and the flag is up in every later state of every run |
| PendingRequests.RunOnlyAdvances | app-server-client/src/child_stdio_transport.rs:466-471 | Outcomes are final: a request ends at most once, and a channel that carries a response never carries another |
| PendingRequests.AnswersMatch | app-server-client/src/child_stdio_transport.rs:467-470 | A request is answered only by a response that arrived and carries its own id |
| PendingRequests.InternalRunsAreBounded | app-server-client/src/ndjson_transport.rs:119-141 | Without new input all tasks together can take only a bounded number of steps |
| PendingRequests.OnlyTheServerIsAwaited | app-server-client/src/ndjson_transport.rs:87-91 | When no task can move, an unfinished request has its entry in the table, awaits its response, and no close has cleared the table |
| PendingRequests.NoWaiterHangs | app-server-client/src/child_stdio_transport.rs:171-179 | After any interleaving in which some close has begun, the tasks stop within a bounded number of steps and every request then has its outcome |
| PendingRequests.ResponseEndsTheWait | app-server-client/src/child_stdio_transport.rs:466-471 | Once a response has been read while its request waits, the tasks left to themselves end that request: answered under its own id, or cancelled only if some close has begun |
| PendingRequests.OnlyClosersCancel | app-server-client/src/child_stdio_transport.rs:345-350 | In a run without a close no request is cancelled: no sender is lost on the way |
| RequestOutcomes.RefusedWriteFails | app-server-client/src/child_stdio_transport.rs:345-348 | After any run, a request whose write is refused is withdrawn: unless it gives up it ends as failed and without an entry, whether or not a close has begun |
| RequestOutcomes.WrittenRequestWaits | app-server-client/src/child_stdio_transport.rs:350 | On an open connection a written request waits for its response from then on; it never fails, and without a close it is never cancelled |
| RequestOutcomes.StoppedRequestWasWritten | app-server-client/src/ndjson_transport.rs:136-141 | Where the tasks stop, an unfinished request has an action in the run by which it was written, has its entry, and the table was not cleared |
| RequestOutcomes.OpenConnectionAccepts | app-server-client/src/child_stdio_transport.rs:330-348 | In every run without a close or a drop a request fails only through the refusal of its own write, and where the tasks stop it waits in the table unless it is done |
| RequestOutcomes.LateRequestsFail | app-server-client/src/child_stdio_transport.rs:332-336 | A request made after a drop or after a close has raised the flag is turned away and never has an entry |
| RustTokens.BlockCommentEnds | scripts/audit-rust-maintenance.py:152-162 | The depth counter agrees with the nesting of comments: a completed comment has one end, and the scan finds it |
| RustTokens.RawStringEnds | scripts/audit-rust-maintenance.py:168-173 | Prefix and hashes of a raw string are determined by its start, and it ends at the first quote with as many hashes |
| RustTokens.CharLiteralEnds | scripts/audit-rust-maintenance.py:35 | The search finds exactly the literals of one plain, one escaped or one braced character |
| RustTokens.TokenEndIs | scripts/audit-rust-maintenance.py:144-203 | The order of the branches does not matter: at most one kind of token starts at a position, it has one end, and the lexer finds it |
| SourceMask.MaskNonCode | scripts/audit-rust-maintenance.py:132-207 | The text can be cut from left to right into whole tokens and characters at which none starts, and for every such tiling exactly the tokens become spaces, newlines excepted, while everything else stays |
| SourceMask.MaskBlanksTokens | scripts/audit-rust-maintenance.py:144-205 | Whatever the tiling into tokens and other characters, the masked text blanks the tokens and keeps the rest, position by position |
| SourceMask.BlockCommentEnd | scripts/audit-rust-maintenance.py:152-166 | The loop stops at the one position where the comment, with all comments nested in it, is complete, or at the end of the text if it never is |
| SourceMask.StringLiteralEnd | scripts/audit-rust-maintenance.py:181-195 | The loop stops behind the first quote with an even run of backslashes before it, or at the end of the text if there is none |
| SourceMask.LiteralAt | scripts/audit-rust-maintenance.py:144-203 | The result is Some(e) exactly if a comment, string, raw string or character literal, as described by what each looks like, covers the text from the index to e |
| SourceMask.NothingLeftToMask | scripts/audit-rust-maintenance.py:132-133 | No comment, string, raw string or character literal starts anywhere in masked text |
| SourceMask.NoQuoteVisible | scripts/audit-rust-maintenance.py:178-195 | No double quote survives masking |
| SourceMask.NoCharLiteral | scripts/audit-rust-maintenance.py:197-203 | Masking never joins characters into a new character literal, escapes in braces included |
| SourceMask.MaskIsIdempotent | scripts/audit-rust-maintenance.py:132-207 | Masked text keeps its length and newlines, every position is unchanged or a space, and masking it again changes nothing |
| BraceMatching.MatchingBraces | scripts/audit-rust-maintenance.py:210-219 | The stack scan pairs exactly the braces with a balanced interior; stray closing braces are ignored |
| BraceMatching.PairsAreLaminar | scripts/audit-rust-maintenance.py:214-218 | Any two pairs share no brace and are nested or disjoint |
| BraceMatching.InteriorIsBalanced | scripts/audit-rust-maintenance.py:216-218 | Inside a pair no prefix closes more than it opens, and the whole interior opens and closes equally often |
| BraceMatching.NextBodyOpen | scripts/audit-rust-maintenance.py:222-227 | The body brace found is the first one after the start, with no semicolon in between, and none is found otherwise |
| BraceMatching.CfgTestRanges | scripts/audit-rust-maintenance.py:230-236 | The loop keeps, in order, the bodies of exactly the marked items whose body brace is matched |
| BraceMatching.ItemStart | scripts/audit-rust-maintenance.py:241-252 | The text in front of a function begins behind the last `}` or `;` before it |
| BraceMatching.FunctionRanges | scripts/audit-rust-maintenance.py:239-256 | The loop keeps, in order, exactly the hits whose body brace is matched, with the range of that pair, and marks as tests those with a mark in front or inside a test-only item |
| BraceMatching.HitHasRange | scripts/audit-rust-maintenance.py:245-255 | Each hit with a matched body has its range under its name, marked as a test exactly if the text from the beginning of its item carries a mark or its body lies in a test-only item |
| BraceMatching.RangeHasHit | scripts/audit-rust-maintenance.py:246-249 | There are no other ranges: each one is the matched body of a hit of that name |
| BraceMatching.RangesArePairs | scripts/audit-rust-maintenance.py:246-249 | Every function range is a matching pair of braces, and one that starts inside a test-only item is a test |
| BraceMatching.NestedTestCodeIsTest | scripts/audit-rust-maintenance.py:253-255 | Whatever is nested at any depth in a function of a test-only item counts as test code too |
| BraceMatching.OwnerIsInnermost | scripts/audit-rust-maintenance.py:259-261 | The owner of a position lies inside every function range that contains the position |
| WorkflowSteps.ViewList.AppendWorkflowStepViews | app-server/src/background_api.rs:553-580 | The recursive pushes append to the shared list the flattening of the tree and nothing else |
| WorkflowSteps.SuffixIsInjective | app-server/src/background_api.rs:561 | Different paths give different decimal key suffixes |
| WorkflowSteps.PathsInOrder | app-server/src/background_api.rs:560-579 | Paths come in document order: a step before what is below it, and before its later siblings |
| WorkflowSteps.ViewsFollowPaths | app-server/src/background_api.rs:553-580 | The k-th view is determined by the k-th path alone: key, parent key, depth, kind and caption |
| WorkflowSteps.OneViewPerStep | app-server/src/background_api.rs:546-548 | For every document there is exactly one view per reachable step, in document order |
| WorkflowSteps.KeysAreDistinct | app-server/src/background_api.rs:561 | No two views of a document share a step key |
| WorkflowSteps.ParentComesFirst | app-server/src/background_api.rs:565-577 | A view has no parent key exactly at depth zero; otherwise its parent key names an earlier view one level up |
| WorkflowSteps.TopKeys | app-server/src/background_api.rs:548-561 | The i-th top step has the key `step.i`, no parent and depth zero |
| WorkflowSteps.ChildKeys | app-server/src/background_api.rs:561-577 | The i-th step below another has that one's key, a dot and i for its key, names it as its parent, and lies one level deeper |
| WorkflowSteps.ViewsStartPending | app-server/src/background_api.rs:563-575 | Every view starts with the kind and caption of its step, pending, and with nothing only the journal can tell |
| WorkflowSteps.LeafShapes | app-server/src/background_api.rs:583-596 | An agent goes before a log message and both before anything with steps; each has its own text for a caption and nothing below it |
| WorkflowSteps.PhaseShape | app-server/src/background_api.rs:597-610 | Otherwise a phase comes next, with its name and its steps |
| WorkflowSteps.ParallelShape | app-server/src/background_api.rs:611-619 | Then parallel steps, which are counted in the caption |
| WorkflowSteps.PipelineShape | app-server/src/background_api.rs:620-629 | Then a pipeline, which is counted too; a step with none of these keys is unknown and has nothing below it |
| WorkflowSteps.DefaultCaptions | app-server/src/background_api.rs:584-601 | A step without a text of its own is called by its kind |
| WorkflowJournal.KeyTable | app-server/src/background_api.rs:636-640 | The table holds for each key the last view that carries it, and no other key |
| WorkflowJournal.MergeWorkflowStepEvents | app-server/src/background_api.rs:632-692 | The loop over the journal, through the key table built once, applies each event in order to the view its key leads to |
| WorkflowJournal.MergeConcat | app-server/src/background_api.rs:641-648 | Merging one journal after another is merging their concatenation |
| WorkflowJournal.ViewSeesOwnEvents | app-server/src/background_api.rs:642-648 | A view is changed only by the events that carry its key, in their order |
| WorkflowJournal.OrderMattersPerKeyOnly | app-server/src/background_api.rs:641-691 | Journals that agree on the events of each key give the same views: events of different steps commute |
| WorkflowJournal.FoldedIsClosedForm | app-server/src/background_api.rs:649-698 | After any journal a view has its closed form: status and finish time from the last ending event, start time from the first start, the texts from the last event that gave one |
| WorkflowJournal.EndIsFinal | app-server/src/background_api.rs:651-658 | A step that has ended never goes back to running |
| WorkflowJournal.LastEndDecides | app-server/src/background_api.rs:674-688 | The last event that reads `step_completed`, `step_failed` or `step_cancelled` decides status and finish time, and output or error with them |
| WorkflowJournal.FirstStartDecides | app-server/src/background_api.rs:650-659 | As long as no event ends it, a step runs from its first starting event on, and started when that was |
| WorkflowJournal.LastTextDecides | app-server/src/background_api.rs:660-672 | The last starting event with a kind, message or child session that is not blank sets it; a child session only with `agent_started` |
| WorkflowJournal.OtherEventsChangeNothing | app-server/src/background_api.rs:689 | Events with any other text change nothing |
| WorkflowJournal.MergeIsIdempotent | app-server/src/background_api.rs:632-698 | Merging a journal twice is merging it once, for any list of views |
| WorkflowJournal.ReadWorkflowStepViews | app-server/src/background_api.rs:535-551 | The views of a document are its flattening with the journal merged into it |
| WorkflowJournal.EveryStepGetsItsEvents | app-server/src/background_api.rs:546-550 | Every step of every document ends with the closed form of exactly the events that carry its key |
| CappedLines.ReadCappedLine | app-server-transport/src/stdio.rs:61-108 | For every chunking the reader stops behind the next newline, returns the length of the line, keeps the line if it fits, and never buffers more than the cap |
| CappedLines.ReadClientLine | app-server-client/src/child_stdio_transport.rs:689-728 | For every chunking the reader stops behind the next newline; end of input, oversized and the line without one trailing carriage return are told apart exactly; the buffer holds a prefix of the line and never more than the cap, of an oversized line too |
| CappedLines.ReadersAgree | app-server-client/src/child_stdio_transport.rs:689-728 | On the same bytes, cut differently, both readers consume the same, reject the same lines, keep the same content up to the carriage return, and neither buffers more than the cap |
| CappedLines.HandleRecords | app-server-transport/src/stdio.rs:237-262 | The loop handles, in order, the messages on the lines within the cap up to the first empty line or the end |
| CappedLines.EveryLineIsHandled | app-server-transport/src/stdio.rs:237-262 | Of a stream built from lines none of which is empty, the loop handles exactly the lines within the cap that decode, in order |
| CappedLines.LoopHandlesAllUnlessBlankLine | app-server-transport/src/stdio.rs:240-242 | The loop handles every message of the stream if and only if no message follows the first empty line |
| CappedLines.BlankLineEndsTheSession | app-server-transport/src/stdio.rs:72-84 | An empty line in front of a message makes the loop drop that message |
| StderrTail.StderrCapture.Record | app-server-client/src/child_stdio_transport.rs:552-558 | After each chunk the window is the last bytes of all output up to the cap, and `truncated` says exactly whether more was seen |
| StderrTail.ReadStderr | app-server-client/src/child_stdio_transport.rs:541-560 | For every sequence of chunks the captured tail is the last bytes of the whole output, independent of the chunking |
| StderrTail.WindowIsSuffix | app-server-client/src/child_stdio_transport.rs:553-556 | The window is the whole output while that fits, and otherwise exactly its last bytes up to the cap |
| StderrTail.BoundaryIsNear | app-server-client/src/child_stdio_transport.rs:893-896 | In UTF-8 text a character boundary lies at most three bytes ahead |
| StderrTail.BoundaryStartsSuffix | app-server-client/src/child_stdio_transport.rs:897-898 | Cutting UTF-8 text at a boundary leaves the UTF-8 form of a suffix |
| StderrTail.EncodedCharReadsBack | app-server-client/src/child_stdio_transport.rs:893-897 | The bytes of a character have the layout of section 3 of RFC 3629: lead byte by length, and the bits of all bytes give the character back, with no overlong form |
| StderrTail.TruncateUtf8Tail | app-server-client/src/child_stdio_transport.rs:889-899 | The result is the UTF-8 form of a suffix within the limit, at most three bytes short of it, and the whole text if that fits |
| TwoTierDelivery.NextKeepsRouter | app-server-client/src/in_process.rs:225-243 | Every step of sink, router and consumer keeps the queues bounded and ordered and loses no lossless message |
| TwoTierDelivery.RouterDelivers | app-server-client/src/in_process.rs:223-275 | In every run lossless notifications enter the fan-out completely and in order, best-effort ones in order and never made up, and the queue stays within its capacity |
| TwoTierDelivery.ConsumerReceivesInOrder | app-server-client/src/in_process.rs:263-268 | In every run what the consumer has received, followed by what is still queued, is what entered the fan-out, in that order |
| TwoTierDelivery.RouterTakesWhatMustArrive | app-server/src/message_processor.rs:77-101 | At the end every response, request and durable notification has been taken for routing, and every durable notification has entered the fan-out |
| TwoTierDelivery.QueuedDeltaGoesFirst | app-server-client/src/in_process.rs:226-234 | A queued delta is taken before any message produced after it |
| TwoTierDelivery.RouterDrains | app-server-client/src/in_process.rs:225-241 | When the router has seen the end of the lossless channel, every lossless notification has entered the fan-out |
| TwoTierDelivery.ClosedRouterFinishes | app-server-client/src/in_process.rs:225-243 | Once the sink is closed, the router and a live consumer stop within a bounded number of steps, and then every lossless notification has passed through the fan-out |
| TwoTierDelivery.NothingDroppedWithoutPressure | app-server-client/src/in_process.rs:263-268 | In every run in which no bounded queue is full when it is offered something, every best-effort message enters the fan-out, in order |
| TwoTierDelivery.WriterEmitsAllLossless | app-server-transport/src/stdio.rs:211-228 | What the writer has written of the lossless messages is always a prefix of those produced, and all of them once it ends |
| TwoTierDelivery.WriterEmitsWhatMustArrive | app-server/src/message_processor.rs:77-101 | When the writer has ended, every response, request and durable notification is written |
| TwoTierDelivery.LosslessIsWrittenFirst | app-server-transport/src/stdio.rs:214-218 | In every run, when a best-effort message is written all lossless messages produced so far are out |
| TwoTierDelivery.LosslessWaitsItsTurn | app-server-transport/src/stdio.rs:214-218 | A lossless message is written after at most as many polls as lossless messages stood in front of it, and one, whatever is produced meanwhile |
| TwoTierDelivery.ClosedWriterFinishes | app-server-transport/src/stdio.rs:213-219 | After the close the writer polls at most once per queued lossless message and once more, and can stop only when all of them are written |
| TwoTierDelivery.CloseLosesExactlyTheQueue | app-server-transport/src/stdio.rs:213-219 | When the sink closes the writer loses exactly the best-effort messages queued at that moment; if none was refused before, everything is written if and only if none is queued |
| TwoTierDelivery.CloseDropsQueuedDelta | app-server-transport/src/stdio.rs:214-219 | A best-effort message still queued when the sink closes is not written |
| BroadcastResync.BroadcastReceiver.DrainBroadcastBacklog | app-server/src/background_api.rs:31-40 | With the sender quiet the drain ends at the tail, whatever it skips, and tells whether the sender is closed |
| BroadcastResync.NextKeepsInv | app-server/src/background_api.rs:304-346 | Every step keeps outputs ordered by position, and the untold positions in front of the drain or the cursor exactly those lost with an unreadable snapshot |
| BroadcastResync.ForwardingIsInOrderAndComplete | app-server/src/background_api.rs:305-344 | In every run forwarded positions strictly increase, nothing published before a drain ended is forwarded after its snapshot, and while the loop waits the consumer has been told of a position behind the cursor if and only if it was not lost with an unreadable snapshot |
| BroadcastResync.KeepingUpForwardsEveryEvent | app-server/src/background_api.rs:305-310 | A loop that never finds itself overrun sends every event, one by one and in order, never a snapshot, and stops only at the closed end |
| BroadcastResync.GoneConsumerEndsForwarding | app-server/src/background_api.rs:307-309 | A consumer that is gone is sent nothing more, and the first send tried for it ends the loop |
| BroadcastResync.DoomedTellsNothing | app-server/src/background_api.rs:328-333 | Once the sender is closed and the loop lags or drains, it sends nothing more |
| BroadcastResync.CloseIsCompleteUnlessBehind | app-server/src/background_api.rs:311-345 | In every run in which the sender closes and the consumer stays, in whatever phase the close finds the loop, nothing but positions lost with an unreadable snapshot stays untold if and only if the loop was neither draining nor lagging |
| BroadcastResync.ClosedRunsAreBounded | app-server/src/background_api.rs:304-347 | After the close the loop stops within a bounded number of steps |
| BroadcastResync.OverrunAtCloseLosesEvents | app-server/src/background_api.rs:328-333 | For every capacity a burst of one event more, followed by the close, leaves the consumer without any output |
| BroadcastResync.CloseDuringDrainLosesEvents | app-server/src/background_api.rs:37-38 | A close during the drain loses events although nothing is left to skip |
| Redaction.TextBuffer.RedactBearerTokens | app-server-client/src/child_stdio_transport.rs:856-870 | The loop ends although the text may grow; behind every piece that reads `bearer ` in lower case stands `[REDACTED]` and then white space or the end |
| Redaction.TextBuffer.RedactUrlQueries | app-server-client/src/child_stdio_transport.rs:872-887 | The loop ends although the text may grow; behind the first `?` of every word that a `://` has begun stands `[REDACTED]` and then white space or the end |
| Redaction.TokensAreHidden | app-server-client/src/child_stdio_transport.rs:856-870 | No `bearer ` in any ASCII case is followed by anything but the mark, and exactly the texts of this form are left alone |
| Redaction.TokenRedactionIsIdempotent | app-server-client/src/child_stdio_transport.rs:866-868 | Redacting bearer tokens twice is redacting them once |
| RedactionLaws.FirstBearerLaw | app-server-client/src/child_stdio_transport.rs:858-868 | The first `bearer ` keeps everything before it, masks the word behind it, and leaves the rest to be redacted by itself |
| RedactionLaws.CaseDoesNotMatter | app-server-client/src/child_stdio_transport.rs:859-860 | In texts that differ only in ASCII case the same positions hold an occurrence and end a word, and the results differ only in ASCII case |
| Redaction.QueriesAreHidden | app-server-client/src/child_stdio_transport.rs:872-887 | Afterwards the first `?` of every URL is followed by the mark up to the end of the word, and exactly the texts of this form are left alone |
| Redaction.QueryRedactionIsIdempotent | app-server-client/src/child_stdio_transport.rs:883-885 | Redacting URL queries twice is redacting them once |
| RedactionLaws.FirstQueryLaw | app-server-client/src/child_stdio_transport.rs:874-885 | The first `?` of the first URL keeps everything before it, masks the rest of the word, and leaves what follows to be redacted by itself |
| RedactionLaws.FirstUrlLaw | app-server-client/src/child_stdio_transport.rs:879-882 | A URL without a query stays as it is, and what follows is redacted by itself |
| Redaction.TextBuffer.RedactTokensAndQueries | app-server-client/src/child_stdio_transport.rs:842-844 | After both passes neither a token nor a query is in sight: the second pass keeps what the first has achieved |
| Redaction.RedactionHidesBoth | app-server-client/src/child_stdio_transport.rs:842-843 | The composition hides both in every text and leaves alone exactly the texts that show neither |
| Redaction.RedactionIsIdempotent | app-server-client/src/child_stdio_transport.rs:842-843 | Applying both passes twice is applying them once |
| ShellQuoting.QuotedTextIsReadBack | app-server-client/src/ssh_remote.rs:351 | Inside single quotes the replaced text is read as the original text, single quotes included |
| ShellQuoting.ShellWordIsOneWord | app-server-client/src/ssh_remote.rs:350-352 | A shell reads the quoted value as exactly one word, equal to the value, for every value |
| ShellQuoting.RemoteCommandIsReadBack | app-server-client/src/ssh_remote.rs:337-348 | For every directory and executable a shell reads exactly `cd`, the directory, `&&`, `exec`, the executable, `serve`, `--stdio`, or the last four without a directory |
| ShellQuoting.RemoteCommandIsInjective | app-server-client/src/ssh_remote.rs:337-348 | Different configurations give different commands |
| SshOptions.ReviewedKeyIs | app-server-client/src/ssh_remote.rs:242-255 | A name stands for a reviewed key exactly if it is that key's name in some case; no two keys share a name |
| SshOptions.ParseAccepts | app-server-client/src/ssh_remote.rs:51-66 | Exactly the texts made of a reviewed key in any case, an equals sign and a valid value are accepted, and the option has that key and that value |
| SshOptions.ParseRejects | app-server-client/src/ssh_remote.rs:55-59 | A text is rejected for a missing equals sign exactly if it has none, and for its key exactly if the name before the first one is not reviewed |
| SshOptions.DisplayIsReadBack | app-server-client/src/ssh_remote.rs:45-49 | Every accepted option is displayed in a canonical form that parses back to it |
| SshOptions.CanonicalForm | app-server-client/src/ssh_remote.rs:242-255 | Every key is shown in its canonical case |
| SshOptions.PortLimits | app-server-client/src/ssh_remote.rs:268-274 | A decimal number, with or without a plus sign, is a valid port exactly from 1 to 65535 |
| SshOptions.IntervalLimits | app-server-client/src/ssh_remote.rs:275-281 | For the timeout, the interval and the count it is valid exactly up to 86400 |
| SshOptions.OtherLimits | app-server-client/src/ssh_remote.rs:262-286 | No value is empty or holds a control character; names and paths have no other limit, and the yes-no option takes only these words in any case |
| PercentEncoding.PercentEncode | tools/src/encoding.rs:3-15 | The loop over the bytes writes the encoding of the whole input |
| PercentEncoding.EncodingIsReadBack | tools/src/encoding.rs:5-13 | The form decoder gives back every sequence of bytes |
| PercentEncoding.EncodingIsInjective | tools/src/encoding.rs:5-13 | Different inputs have different encodings |
| PercentEncoding.EncoderWritesCanonicalTexts | tools/src/encoding.rs:7-12 | The encoder writes exactly the texts whose escapes are in upper case and used only where needed |
| PercentEncoding.EncodingAlphabet | tools/src/encoding.rs:7-12 | An encoding holds only letters, digits, `-`, `_`, `.`, `~`, `%` and `+` |
| PercentEncoding.PlainTextStays | tools/src/encoding.rs:7-9 | Text of unreserved characters is its own encoding |
| PercentEncoding.OtherBytesAreEscaped | tools/src/encoding.rs:10-11 | A space becomes `+`, and every other byte is escaped with its two digits in upper case |
| LintReport.RanksAreOrdered | scripts/rust-maintenance-report.py:38-46 | Ranks of classification and target name are in a strict total order |
| LintReport.ClassThenTargetDecides | scripts/rust-maintenance-report.py:38-46 | The classes weigh in the listed order, and the target name decides within a class |
| LintReport.Deduplicate | scripts/rust-maintenance-report.py:177-195 | The dictionary loop returns the winner of each location, in the order in which locations first appear |
| LintReport.WinnerIsMinimal | scripts/rust-maintenance-report.py:182-194 | The winner of a location is one of its rows, and none of its rows ranks before it |
| LintReport.WinnerIsEarliest | scripts/rust-maintenance-report.py:193-194 | Among rows of equal rank the earliest is kept |
| LintReport.OneMinimalRowPerLocation | scripts/rust-maintenance-report.py:146-153 | Exactly one row is kept per lint, crate, path, line and column that occurs, and no row of that place goes before it |
| LintReport.KeptOfTwo | scripts/rust-maintenance-report.py:180-195 | Of two rows both are kept unless all five fields of their locations agree; then the one that goes before, or the first |
| LintReport.LocationsGrow | scripts/rust-maintenance-report.py:178-195 | Reading on only adds locations behind those already seen |
| LintReport.RanksDoNotDependOnOrder | scripts/rust-maintenance-report.py:189-192 | Permuting the rows changes neither the locations represented nor the rank kept for each |
| LintReport.CountDoesNotDependOnOrder | scripts/rust-maintenance-report.py:177-195 | Permuting the rows does not change the number of rows kept |
| LintReport.KeepingIsIdempotent | scripts/rust-maintenance-report.py:177-195 | Removing duplicates twice is removing them once |

## Left out

- Sockets, WebSocket framing, process spawning, signals, timeouts and file access: reads are chunk sequences, channels are queues, and I/O errors are not raised.
- The WebSocket transports: they repeat the protocols of the newline-delimited ones.
- The contents of `ndjson_transport.rs` beyond the table protocol: it is a second instance of the machine in `PendingMachine.dfy`; its early check of the flag before a write is the failing write of that machine.
- JSON encoding and decoding: `CappedLines.HandleRecords` takes the decoder, with UTF-8 validation and trimming, as a parameter; a message that cannot be serialised is not part of the writer.
- CappedLines.ReadCappedLine: does not say which prefix of an oversized line stays in the buffer, because that depends on the chunks; only the cap on its length is stated.
- TwoTierDelivery.QueuedDeltaGoesFirst: holds because one poll of a biased select is one step; producers that run between the polls of its two branches are not modelled.
- TwoTierDelivery.RouterDelivers: responses and server requests are taken from the channels like notifications, but the router's waiting for room in the queue of server requests is not modelled, and consumers stay alive.
- BroadcastResync.ForwardingIsInOrderAndComplete: speaks of positions of published events; the contents of events and snapshots, and the snapshot sent before the loop starts, are left out.
- BraceMatching.FunctionRanges: takes the hits of the two patterns, in the order of the text, and the search for a test attribute as parameters; the regular expressions themselves are not modelled.
- SourceMask.MaskNonCode: strings are sequences of Unicode scalar values, as the script's are; reading and decoding of files is left out.
- StreamInterleaving.NothingStranded: one router and one registrar per subscription; ids are never registered twice, and the forwarding of envelopes to the external channel is left out.
- PendingRequests.NoWaiterHangs: a write is assumed to return, with success or failure; a writer that blocks forever is not modelled.
- PendingRequests.NextKeepsInv: request ids are fresh, as random UUIDs are taken to be; the payload of a response is opaque.
- WorkflowSteps.ViewList.AppendWorkflowStepViews: depth and counts are unbounded numbers, and object fields are a map, so duplicate fields of a document have already been resolved.
- WorkflowJournal.MergeWorkflowStepEvents: timestamps are opaque values that are only copied.
- ShellQuoting.RemoteCommandIsReadBack: the shell reader knows words, both quotes, blanks and `&`; other unquoted special characters and expansions inside double quotes make it refuse the text, and the theorem shows that the command never needs them.
- The validation of the ssh target, directory and executable, and the classification of ssh failures: checks on single strings.
- The `key=value` redaction of common lines, `redact_common_line`: its collected ranges may nest and share an end, so the two loops of `Redaction.dfy` do not cover it.
- `classify`, `count_table` and the tables of the lint report, and the finding checks of the audit script: lookups over the results modelled here.
- Typed request methods, dispatch, conversions, bootstrap and diagnostics: plumbing without state of their own.
