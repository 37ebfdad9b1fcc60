# Verification of the agent service

Dafny models of the parts of the service where being wrong is quiet: the turn
protocol of a Session, the event stream, the preview channel, pausing and
resuming a turn, keeping file records in step with a container, and the small
exact algorithms around them. `dafny verify dfyconfig.toml` checks everything.

## What is here

| file | models |
|---|---|
| `SessionProtocol.dfy` | one Session row and its event log as a state machine, with any number of workers, interrupts, dispatches and sweeps interleaved; theorems over every run |
| `SessionRuns.dfy` | runs that attain its bounds and show what its theorems leave open |
| `SessionGate.dfy` | what the protocol lets in: when a batch is accepted, what opens the gate of a Session that waits for an answer, what a worker may do next, what each end of a turn says |
| `SessionHistory.dfy` | what the counts are in whose terms the bounds are stated |
| `SessionLease.dfy` | the lease in time: heartbeats, how late they may be, and what that buys |
| `SessionStore.dfy` | the functions that take those steps, as methods that assign the row's columns |
| `EventStream.dfy` | the polling reader, one connection and any series of broken ones |
| `EventBroker.dfy` | the registries of waiters and subscribers, and the bounded queue of previews |
| `DeltaBuffer.dfy`, `PreviewPayload.dfy`, `Utf8.dfy` | batching streamed text, the repetition detector, cutting previews into payloads |
| `PauseResume.dfy` | which tool calls wait for the client, what the idle event and the tool-use events say of them, how the answers are lined up |
| `Listing.dfy`, `ListingNames.dfy`, `Outputs.dfy` | reading a directory listing, which files it shows as they are, and reconciling file records with it |
| `MountNames.dfy` | where an attached file lands |
| `Accounts.dfy` | key names, listing provider keys, and provisioning an Account in steps that can stop between any two |
| `Ids.dfy` | time-ordered identifiers |
| `Multipart.dfy` | cutting a byte stream into parts |
| `ExecReport.dfy`, `Base64.dfy` | the report of a command run in a container |
| `SecretEnvelope.dfy` | the envelope around a stored secret |
| `UsageWindows.dfy` | asking for usage in bounded windows |
| `Text.dfy`, `Wrappers.dfy` | shared string operations and types |

### How the protocol is modelled

A transaction's first `UPDATE` of the row takes its lock and holds it until the
commit, so each transaction is one step. What it decided earlier, from the copy
of the row its request had loaded, is not part of that step. The engine is
created with `expire_on_commit=False` (`app/db/engine.py:192`), and a flush sends
only the columns that were changed on that copy. So a release writes the copy's
`lock_version` plus one, whatever the row says by then, and leaves out a column
whose new value the copy already had. The model keeps those copies, and emits
events in the two steps the code has: refresh and compare, then append.

`past` in a configuration is history that nothing in the system records. A
release is *stale* if its copy's generation is not the row's, and *torn* if the
generation is right and the status is not.

## What turned out not to hold

Each of these is a proved counterexample next to the exact condition, or the
bound, that does hold.

- **Fencing** (`_emitter`): a late release by an old request or worker puts
  `lock_version` back, so a worker interrupted long ago can pass its generation
  check again and write into a turn that is not its own. In every run, a worker
  writes at most once per time the generation left its own (`StaleWritesBounded`),
  and it leaves at most once and once more per stale release (`Fencing`). Both
  bounds are attained for every number (`FenceBreaksOnStaleRelease`), as is the one
  on claims of a generation (`GenerationsClaimedOnce`). Nothing
  would be written astray if the check and the write were one step
  (`AtomicEmitsStay`).
- **Terminated for good** (`app/services/sessions.py:697`, and `_terminate`): a
  terminated Session stays so at every moment of a run if and only if no turn that
  was running then ends, and no interrupt that saw it running commits
  (`TerminatedIsFinal`); one that does is a stale release, and reopens it
  (`TerminatedBreaksOnStaleRelease`).
- **Releasing frees the Session**: every release leaves the row in the status it
  announces, if and only if it is not a *late unparking*: an interrupt that read a
  parked row and commits when it is no longer idle (`ReleaseFrees`, and
  `RunFrees` along a run). Such an interrupt can leave the row running on a
  generation no worker owns until the lease lapses (`TornReleaseLeavesRunning`),
  or leave the next turn's worker its generation, so that the log says idle and
  the worker writes on (`StaleUnparkingStopsNobody`, and `InterruptStops` for
  exactly when).
- **`lock_version` moves every time a turn ends**: it counts the releases if and
  only if none was stale (`GenerationCountsReleases`).
- **A stream drains the log of a finished Session**: it closes after one page of
  a hundred, read before the status that closes it. It has delivered all there is
  if and only if the rest fitted in that page and was written before it was read
  (`OverClosesAfterOnePage`); a Session terminated between the two reads closes
  the stream with the reason untold (`StreamMissesTheEnd`). Reconnecting drains it.
- **A file that vanishes is one unusable entry** (`app/utils/sandbox.py:1203-1205`):
  its line is begun and never ended, so the next file's line is read as part of
  it. A file is listed as it is if and only if its name is clean and the file
  looked at just before it could be read, unless another file's lines happen to say
  the same (`ListedAsItIs`). After a file that vanished, the next is taken to have
  the size that was printed for the first of those that vanished right before it,
  and is listed, with a hash that is not its own, if and only if one was printed
  and is within the limit (`NamedIff`). Its record follows: archived though the
  file is there, or claiming other bytes (`RecordsFollowTheListing`).
- **No path is misread** (`app/utils/sandbox.py:1186-1188`): a *clean* name is not
  empty, has no space at either end, none of the characters that `splitlines`
  breaks at, and none that `sha256sum` escapes. A directory in which nothing went is
  listed as it is, whole and in order, if and only if every name is clean
  (`ListedWholeIffClean`, `OneFileIffClean`). A name that ends in a space is listed
  as the one without it (`TrailingSpaceLost`). A name with a line separator in it
  lists, besides itself under another name, any entry at all
  (`NameForgesAnEntry`), or makes the whole listing fail (`NameStopsTheListing`);
  nothing else does (`FailsIff`). A name with a newline in it is not skipped, as
  the docstring has it, but is two lines for the loop: two looks at nothing hide the
  next file (`NewlineHidesTheNext`).
- **Output truncation is flagged exactly**: once there is an exit code
  (`FinishedIsExact`). Before that, if and only if the output does not outgrow the
  limit between the look at its length and the look at its bytes (`FlagsExact`);
  one that does comes back cut and unflagged (`CutUnflagged`).
- **A second pass over one listing collects nothing**: only if no path is listed
  with two hashes. The rows are unchanged either way.
- **Repeating an attachment returns the original binding**: if and only if that
  one landed on the name asked for (`AttachTwice`).
- **Each call that waits has a tool-use event**: the idle event lists exactly the
  ids that wait, in the order of the decisions, whatever they are
  (`StopListsWhatWaits`). But what a client learns of a call, its name and input, it
  learns from the tool-use event, and one says that the call waits if and only if
  the turn's first call with its id does (`NoticedIffPending`). A call that waits
  under an id an earlier message of the turn has used for one that does not is
  listed, and has no such event (`ReusedIdHasNoNotice`).
- **Each call gets its own answer**: answers are kept by id, so calls that share
  one get the last of the answers given for it. Each gets the answer given for it
  if and only if calls that share an id are answered alike (`AnswersLandAsGiven`);
  otherwise a refusal can turn into an approval (`SharedIdSharesAnswer`).
- **One key per Account**: two requests that both look before either mints both
  mint. The keys under one name are never more than one and one for each such
  overlap, and can be exactly that many. An Account whose key was minted and lost
  can never be finished, short of revoking the key.
- **base64url decoding undoes encoding**: for every bytes except none at all, which
  the decoder refuses. It has no one spelling: it takes the letters of either
  alphabet and any padding up to what is needed, and drops the last bits that no
  byte takes up. So a token opens if and only if it is one that was sealed, up to
  those (`OnlySealedOpens`); a sealed text whose length is no multiple of three
  always has another (`OneMoreSign`).
- **Usage windows add up**: if the provider's ranges leave one end out. If they
  hold both, what was charged exactly on a boundary is counted twice.

## Model

| member | source | states |
|---|---|---|
| SessionProtocol.StepKeeps | app/services/sessions.py:449-588 | every step of every actor keeps the invariant: numbering, announcements owed, plausible copies, what pays for astray writes, departures and claims, the date of the lease |
| SessionProtocol.LogNumbered | app/db/queries/sessions.py:132-205 | in every reachable state the sequence numbers of the log are exactly 1 to `last_event_seq`, in order |
| SessionProtocol.LogOnlyGrows | app/db/queries/sessions.py:132-205 | no run changes or removes an entry already in the log |
| SessionProtocol.TurnEndsAnnounced | app/services/sessions.py:1550-1579 | in every reachable state the log announces at least one end of turn per release, plus one per worker that has said idle and not yet released |
| SessionProtocol.GenerationCountsReleases | app/db/queries/sessions.py:463-481 | `lock_version` is the number of releases if and only if every release was made from a copy of the current generation |
| SessionProtocol.StaleWritesBounded | app/services/sessions.py:908-939 | in any run whatsoever a worker writes at most one event per time the generation moved away from the one it captured |
| SessionProtocol.Fencing | app/services/sessions.py:908-939 | in every run a worker's astray writes are at most its departures, and those at most the stale releases, and one more if the generation is past its own |
| SessionProtocol.AtomicEmitsStay | app/services/sessions.py:921-936 | if the check and the append were one step, no worker would ever write astray, and with no stale release generations never decrease along the log |
| SessionRuns.FenceBreaksOnStaleRelease | app/services/sessions.py:897-939 | for every n, a run in which one worker departs n times and writes n events outside its generation, and that generation is claimed n times, with n - 1 stale releases and no takeover: every bound attained |
| SessionProtocol.TerminatedStep | app/services/sessions.py:880-905 | a step leaves a terminated Session terminated if and only if it is not the end of a turn, nor an interrupt that saw the Session running |
| SessionProtocol.TerminatedIsFinal | app/services/sessions.py:1519-1547 | a terminated Session stays so throughout a run if and only if no such step is taken in it; and every such step is a stale release |
| SessionProtocol.ReleaseFrees | app/db/queries/sessions.py:463-481 | a release leaves the row in the status it announces if and only if it is not an interrupt that read a parked row and commits when it is not idle |
| SessionProtocol.RunFrees | app/db/queries/sessions.py:463-481 | along any run every release does, if and only if none is such an interrupt |
| SessionProtocol.InterruptStops | app/services/sessions.py:540-574 | an interrupt stops the worker of the current generation, unless it read the row parked exactly one generation earlier |
| SessionRuns.TerminatedBreaksOnStaleRelease | app/services/sessions.py:794-801 | a run in which a terminated Session becomes open to a message again |
| SessionRuns.TornReleaseLeavesRunning | app/services/sessions.py:556-585 | a run whose log ends with idle and whose row is running, claimable by nobody, on a generation never claimed |
| SessionRuns.StaleUnparkingStopsNobody | app/services/sessions.py:556-585 | a run whose log ends with idle while the worker of the row's generation goes on, and writes |
| SessionProtocol.GenerationsClaimedOnce | app/services/sessions.py:973-1000 | in every run a generation (the name of the dispatched task) is claimed at most once, and once more per takeover and stale release; with releases from current copies, once if and only if nothing was taken over |
| SessionGate.GateAnswers | app/db/queries/sessions.py:415-437 | a batch is accepted by an idle Session, or a running one whose lease has lapsed; by a parked one only if it is the answer; by a terminated or deleted one never |
| SessionGate.SendTakes | app/services/sessions.py:478-510 | an accepted batch leaves the row running, unparked, leased for 120 seconds, on its generation, and every event of it in the log under the next numbers |
| SessionGate.UnparkStep | app/db/queries/sessions.py:430-445 | a step takes a parked row out of its parking if and only if it is an answer, or a release that has another reason to give than its copy had |
| SessionGate.ParkedUntilAnswered | app/db/queries/sessions.py:400-407 | a parked Session stays parked at every moment of a run if and only if no such step is taken; until then nothing is accepted |
| SessionGate.ParkStep | app/runtime/engine.py:368-380 | only the end of a turn that stopped to ask parks a Session, unless the row already gave that reason |
| SessionGate.DeletedIsFinal | app/db/queries/sessions.py:416-418 | in every run a deleted Session stays deleted, and is never again claimed, swept or loaded for an interrupt |
| SessionGate.WorkerMay | app/services/sessions.py:855-939 | what a worker can do next, for each place it can be at in its turn: begin or refuse, check, write, end, fail, unwind, and beat 45 seconds after the last time |
| SessionGate.WorkerMoves | app/services/sessions.py:908-939 | where each step takes a worker: every event costs a check that the generation is its own and the row is running, the last event announces idle, and no step moves another worker |
| SessionGate.DoneIsFinal | app/services/sessions.py:897-905 | in every run a worker that is done says and does nothing more |
| SessionGate.RequestsCommitOnce | app/services/sessions.py:532-588 | an interrupt or a failing dispatch commits once, from the row as its request loaded it, and settles no other |
| SessionGate.StepSays | app/services/sessions.py:1519-1579 | what every step of every actor appends to the log: which kinds, from whom, in which order |
| SessionGate.EndsAreExplained | app/services/sessions.py:1519-1579 | in every run, an end of turn that no worker announced comes right after the error or the interrupt that ended it |
| SessionGate.EndGives | app/services/sessions.py:1550-1579 | the reason the row then gives is that of the way the turn ended, unless the copy it was released from already gave it |
| SessionHistory.GenerationStep | app/db/queries/sessions.py:463-481 | the generation moves with a release and nothing else, to one past that of the copy it is released from; it is counted, as stale if the row is on another |
| SessionHistory.ClaimStep | app/db/queries/sessions.py:384-449 | claims are counted by the generation they find, and as takeovers if they find the row running |
| SessionHistory.WorkerCounts | app/services/sessions.py:908-939 | a departure is the row moving off the worker's generation, an astray write one made while the row is elsewhere |
| SessionHistory.AnnouncementsCounted | app/services/sessions.py:1550-1579 | the announcements of a log are its entries that say idle or terminated |
| SessionLease.OnTimeHoldsLease | app/services/sessions.py:1046-1059 | while a worker lives, and its late start and the current delay past its 45 second sleep are under 75 seconds, a lease on the row has not lapsed |
| SessionLease.OnTimeIsExact | app/services/sessions.py:95-96 | for a worker that alone keeps the lease, on time means exactly that it has not lapsed |
| SessionLease.OnlyLateUnparkingWipes | app/db/queries/sessions.py:477-480 | a running row loses its lease to a late unparking whose request read one, and to nothing else |
| SessionLease.PunctualLeaseHolds | app/services/sessions.py:1046-1059 | a run in which a worker on time, or a claim under 75 seconds old, tends every running state has no sweep and no takeover |
| SessionLease.PunctualClaimsOnce | app/services/sessions.py:478-488 | from a new Session, such a run claims each generation at most once, and once more per stale release |
| SessionLease.OneWorkerIsEnough | app/services/sessions.py:855-892 | one worker that lives and is on time throughout tends the run |
| SessionLease.LongTurnTended | app/services/sessions.py:1052-1059 | turns of any length can be tended, with every beat late by all but one of the seconds allowed |
| SessionLease.LateBeatLosesTheLease | app/db/queries/sessions.py:415-429 | one second more, and a Session whose worker lives can be swept or claimed |
| SessionStore.Session.AppendEvent | app/db/queries/sessions.py:132-205 | one append is the protocol's append: the counter moves by one and the entry carries it |
| SessionStore.Session.ReleaseSession | app/db/queries/sessions.py:463-481 | writes the copy's generation plus one, and of the other columns those the copy differs in |
| SessionStore.Session.ClaimSession | app/db/queries/sessions.py:384-449 | takes the row exactly when it is claimable; column by column: a parked row is left as it is unless this is the answer, which takes it; an idle one that is not parked is taken; what is taken is running, without a reason, leased anew |
| SessionStore.Session.ExtendLease | app/db/queries/sessions.py:452-460 | the heartbeat's write is the protocol's, and touches the lease alone |
| SessionStore.Session.PostEvents | app/services/sessions.py:449-529 | an interrupt goes alone, past the gate, or is refused; a parked Session refuses messages and takes answers; what is refused writes nothing |
| SessionStore.Session.SendEvents | app/services/sessions.py:478-529 | a batch is accepted whole or refused with nothing written; accepted, it is the protocol's step |
| SessionStore.Session.DispatchFailed | app/services/sessions.py:511-528 | a failed dispatch ends the turn only if the row, read again under the lock, is still running |
| SessionStore.Session.Ended | app/services/sessions.py:1519-1579 | error event, closing event, release, in that order, for a failure and for a termination |
| SessionStore.Session.CancelSession | app/services/sessions.py:532-588 | an interrupt records itself and releases exactly when its copy was running or parked |
| SessionStore.Session.CheckGeneration | app/services/sessions.py:921-926 | the worker goes on exactly when the row is running on the generation it captured |
| SessionStore.Session.WriteAgentEvent | app/services/sessions.py:927-936 | the append that follows the check is the protocol's unguarded write |
| SessionStore.Session.FinishTurn | app/services/sessions.py:897-905 | collecting outputs and releasing is the protocol's normal end |
| SessionStore.Session.FailTurn | app/services/sessions.py:887-890 | an exception ends the turn as the protocol's failure does |
| SessionStore.Session.RefuseTurn | app/services/sessions.py:794-811 | a turn with no sandbox or version terminates the Session as the protocol does |
| SessionStore.SweptStoreIsSweep | app/worker.py:33-68 | a swept Session is the protocol's: idle, unleased, one generation on, open to the next message |
| SessionStore.ListStuck | app/db/queries/sessions.py:484-517 | at most a hundred rows that are running, not deleted, with no lease or a lapsed one, and held by no other sweeper; none passed over for a later one, and all of them if there are fewer |
| SessionStore.SweepOnce | app/worker.py:33-68 | exactly the rows taken are swept, every other row is untouched, and with room to spare every stranded unlocked row is taken |
| EventStream.PageIsNext | app/db/queries/sessions.py:325-363 | on a numbered log the page after a cursor is the next hundred entries, whole and in order |
| EventStream.StreamEvents | app/services/sessions.py:630-711 | the loop yields what the recursive definition of a connection yields, for any sequence of polls |
| EventStream.ConnectionGoesOn | app/services/sessions.py:665-711 | a pass yields the previews that wait, then the next hundred events of the log, then silence if there are none; and unless the Session is over, the passes after it go on behind the last of those |
| EventStream.BrokenAnywhere | app/services/sessions.py:665-711 | a connection can break behind any item, and what has arrived by then is how it began |
| EventStream.DeltasOneByOne | app/services/sessions.py:665-680 | previews come out in order, each whole, those of messages and thinking and no others |
| EventStream.ConnectionIsSlice | app/services/sessions.py:665-711 | whatever each poll sees, the events of one connection are the next ones of the log |
| EventStream.LastIdFollows | app/services/sessions.py:693-695 | the cursor a client resumes with is moved by events alone, one per event |
| EventStream.ReconnectingReaderSeesTheLog | app/services/sessions.py:630-711 | however connections break, what the client receives is a gapless, duplicate-free slice from its starting point |
| EventStream.OverClosesAfterOnePage | app/services/sessions.py:680-700 | a stream that finds the Session over has delivered the rest of the finished log if and only if that fits one page and was all written when the page was read |
| EventStream.StreamMissesTheEnd | app/services/sessions.py:680-700 | a run terminated between the page and the status of one poll, which closes the stream without its last events |
| EventStream.ReconnectingAdvances | app/services/sessions.py:665-711 | attempts that stay for one poll of the finished log receive a hundred entries each, or all there are |
| EventStream.ReconnectingDrains | app/services/sessions.py:665-711 | so enough of them receive exactly the whole rest of the log |
| EventStream.ReaderFollowsRun | app/services/sessions.py:630-711 | a client polling during any run of the protocol receives the next entries of the log that run ends with |
| EventBroker.RegisteredWhileLive | app/services/event_broker.py:178-202 | through any joins, leaves and closes a session is registered if and only if it has a live member |
| EventBroker.Broker.EntriesAreInUse | app/services/event_broker.py:132-140 | both dictionaries hold a session exactly while someone waits on it, or is subscribed to it |
| EventBroker.NoSilentBell | app/services/event_broker.py:364-390 | the bell is set if and only if the queue is not empty, and the queue holds the frames since the last drain, up to 64 |
| EventBroker.KeptIsSubsequence | app/services/event_broker.py:160-175 | what is drained is a subsequence of what was published |
| EventBroker.LosslessIffUnhurried | app/services/event_broker.py:160-175 | nothing is lost if and only if no more than 64 frames ever arrived between two drains |
| EventBroker.DeltaSubscription.Offer | app/services/event_broker.py:385-390 | a frame is queued and rung for, or dropped without ringing when the queue is full |
| EventBroker.DeltaSubscription.TakeAll | app/services/event_broker.py:160-175 | everything queued is taken in order and the bell is down |
| EventBroker.Broker.Subscribe | app/services/event_broker.py:192-196 | joins the session's set, creating it if need be |
| EventBroker.Broker.Unsubscribe | app/services/event_broker.py:197-202 | leaves the set, and drops it with its last member |
| EventBroker.Broker.BeginWait | app/services/event_broker.py:83-140 | a waiter joins with its bell down |
| EventBroker.Broker.EndWait | app/services/event_broker.py:132-140 | and leaves, however the wait ends |
| EventBroker.Broker.Shut | app/services/event_broker.py:205-215 | both registries are emptied |
| EventBroker.Broker.OnNotify | app/services/event_broker.py:353-361 | every bell waiting on the session is rung |
| EventBroker.Broker.OnDelta | app/services/event_broker.py:364-390 | every subscription of the session is offered the frame, and no other |
| DeltaBuffer.HeardCountsTheEnd | app/runtime/engine.py:467-472 | the detector's count is the longest run of one character that ends the text |
| DeltaBuffer.DegenerateStep | app/runtime/engine.py:472-476 | one more character makes the text degenerate exactly when the count reaches the limit |
| DeltaBuffer.Buffer.CheckRepetition | app/runtime/engine.py:459-476 | raises if and only if everything heard so far with this chunk holds 1024 equal characters in a row |
| DeltaBuffer.Buffer.Add | app/runtime/engine.py:449-457 | the same for a whole add, and otherwise the chunk is buffered under its kind |
| DeltaBuffer.Buffer.Append | app/runtime/engine.py:453-457 | runs stay alternating, the byte count exact, published and buffered text are all that was added |
| DeltaBuffer.Buffer.Flush | app/runtime/engine.py:482-493 | one publish per run, oldest first, after which everything added has been published; if a publish raises, the runs before it are out, and what is missing is exactly that run and those after it |
| DeltaBuffer.Buffer.FlushIfDue | app/runtime/engine.py:478-480 | fewer than 2000 bytes stay buffered, nothing is published early, and nothing is lost but by a publish that raises |
| DeltaBuffer.Buffer.Handle | app/runtime/engine.py:245-271 | one frame: stopped if and only if everything said is now degenerate, raised with what is missing named, or everything kept; nothing waits behind a committed message or a window that is up, never 2000 bytes, and nothing goes out before |
| DeltaBuffer.Reply | app/runtime/engine.py:423-493 | a whole reply is stopped if its text is degenerate, however it is chunked and flushed, or by a publish that raises; otherwise it is not degenerate and each character is published once, in order, under its kind; what is published is always how the reply begins |
| PreviewPayload.CutBetweenCharacters | app/db/queries/sessions.py:304-308 | a cut in front of a byte that continues nothing falls between two characters |
| PreviewPayload.BoundaryNearby | app/db/queries/sessions.py:304-306 | such a byte is never more than three away |
| PreviewPayload.FindCut | app/db/queries/sessions.py:304-306 | walking back finds the last one within the budget, past the start |
| PreviewPayload.WithinPayloadBudget | app/db/queries/sessions.py:285-308 | the pieces are whole characters, none empty or over 6000 bytes, all but the last at least 5997, and together the text |
| PauseResume.ResolveToolset | app/runtime/tools.py:118-126 | each tool of a toolset gets the policy of the last entry naming it, or the default |
| PauseResume.AsksExactly | app/runtime/tools.py:22-38 | a toolset asks about a tool if and only if it has the tool, by name, and the last entry that names it says to ask, or says nothing while the default says to |
| PauseResume.ResolveToolInterrupts | app/runtime/tools.py:104-129 | a native tool needs a decision if and only if some declared toolset asks about it |
| PauseResume.CustomAlwaysWaits | app/runtime/engine.py:154-165 | every custom tool waits for a response or a rejection, whatever the toolsets say of its name |
| PauseResume.WaitingInOrder | app/runtime/engine.py:309-321 | what is pending is the calls at the places of the message that must be asked about, every one, in the order of the message |
| PauseResume.AskedSomewhere | app/runtime/engine.py:309-321 | and every message has such a list of places |
| PauseResume.LastAnswer | app/runtime/engine.py:340-342 | the answer kept for an id is the last event that names it |
| PauseResume.ResumeRefused | app/runtime/engine.py:317-365 | a batch is refused if no message is of the model or its last one has no calls; otherwise if and only if a call that waits is answered with a tool result |
| PauseResume.ResumeIgnoresOrder | app/runtime/engine.py:324-348 | any order of one set of answers with distinct ids resumes the graph in the same way |
| PauseResume.DecisionsAligned | app/runtime/engine.py:309-365 | there is one decision per call of the last message that must be asked about if and only if all are answered; and then decision i carries the answer to the i-th of those calls as the message has them, with its text |
| PauseResume.ResumeAccepted | app/runtime/engine.py:336-365 | the middleware's count and its allowed kinds are met if and only if every call of the last message that must be asked about has an answer that suits it |
| PauseResume.Translate | app/runtime/engine.py:586-608 | one notice per call not announced before, in order, custom or native as its tool is, saying whether a native one is asked about; and every id of the message announced |
| PauseResume.TranslateTurn | app/runtime/engine.py:223-275 | over a turn the client gets one tool-use event per id, from the first call of the turn that has it |
| PauseResume.StopListsWhatWaits | app/runtime/engine.py:366-380 | the idle event lists an id if and only if a call of the last message waits under it, in the order of the decisions: decision i of the next turn answers the i-th |
| PauseResume.StopListsInOrder | app/runtime/engine.py:366-380 | the ids are those of the calls that must be asked about, in the order of the message |
| PauseResume.AnswersLandAsGiven | app/runtime/engine.py:340-348 | a batch with an answer per listed id is decided in full, each call by the last answer under its id: by its own if and only if calls that share an id are answered alike |
| PauseResume.ListedAnswersAccepted | app/runtime/engine.py:336-365 | such a batch is accepted if and only if the last answer under each id suits every call with it; with distinct ids, if and only if each answer suits its call |
| PauseResume.SharedIdSharesAnswer | app/runtime/engine.py:340-342 | two calls under one id, one refused and one allowed, are both allowed |
| PauseResume.ListedIsPending | app/runtime/engine.py:309-321 | over a turn the idle event lists exactly what waits, reused ids or not |
| PauseResume.NoticedIffPending | app/runtime/engine.py:586-608 | what waits has a tool-use event that says so if and only if the turn's first call with its id waits; what such an event says waits does, if no earlier message held a call that does |
| PauseResume.DistinctCallsAgree | app/runtime/engine.py:309-321 | with the ids of a turn distinct, the tool-use events say exactly what the idle event lists |
| PauseResume.ReusedIdHasNoNotice | app/runtime/engine.py:226-227 | a pending call under an id an earlier message used is listed by the idle event and has no tool-use event that says it waits |
| PauseResume.AnnouncedOnce | app/runtime/engine.py:587-591 | a message seen again announces nothing |
| PauseResume.FreshInputWhole | app/runtime/engine.py:295-306 | a turn starts if and only if all its events are messages, and with every one of them |
| PauseResume.FirstEventClassifies | app/models/events.py:417-435 | a batch that got past validation is all answers or all messages, and its first event says which |
| Listing.ListFiles | app/utils/sandbox.py:1206-1219 | the loop keeps, in order, the lines that read as a size, a hash and a path within the limit, and fails on a size that is not a number |
| Listing.Reads | app/utils/sandbox.py:1196-1219 | reading back what the shell printed comes to reading each file by itself, for files that can be read and files that went, in any order, with or without a size, and any names |
| Listing.FailsIff | app/utils/sandbox.py:1206-1214 | the listing fails if and only if some name goes on, after a break that `sha256sum` does not escape, with a size that is no number |
| Listing.HoldsIff | app/utils/sandbox.py:1206-1219 | otherwise it holds an output if and only if the lines of some file say it |
| ListingNames.OneLineIff | app/utils/sandbox.py:1206 | a name is one line to the reader if and only if `sha256sum` escapes every break in it |
| ListingNames.ListedUnbroken | app/utils/sandbox.py:1206-1209 | no path that is listed has a line break of any kind in it |
| ListingNames.NamesItself | app/utils/sandbox.py:1206-1219 | a file's own lines list its path if and only if its name is clean and the size it is taken to have was printed and is within the limit; and then with that size and everything since it as the hash |
| ListingNames.ListedAsItIs | app/utils/sandbox.py:1203-1219 | a readable file within the limit is listed with its own path, size and hash if and only if its name is clean and it is first or the file before it could be read, or another file's lines say the same |
| ListingNames.ListedWholeIffClean | app/utils/sandbox.py:1206-1219 | a directory in which nothing went is listed as it is, whole and in order, if and only if every name is clean |
| ListingNames.OneFileIffClean | app/utils/sandbox.py:1206-1219 | and so a single file |
| ListingNames.NamedIff | app/utils/sandbox.py:1203-1219 | a readable file is named if and only if its name is clean and the size it is taken to have, its own or that of the first to vanish right before it, was printed and is within the limit, or another file's lines say its path; with its own hash if and only if none vanished there |
| ListingNames.CleanAreAlone | app/utils/sandbox.py:1206-1219 | no other file's lines say a path if the other names are clean and name other paths |
| ListingNames.NewlineHidesTheNext | app/utils/sandbox.py:1186-1188 | after a name with a newline and no file under either half, the next file's own line does not list it |
| ListingNames.TrailingSpaceLost | app/utils/sandbox.py:1209 | a name that ends in a space is listed without it |
| ListingNames.NameForgesAnEntry | app/utils/sandbox.py:1186-1188 | for any output whatsoever, a file whose name makes the listing hold it |
| ListingNames.NameStopsTheListing | app/utils/sandbox.py:1206-1212 | a file whose name makes any listing it is in fail |
| ListingNames.RecordsFollowTheListing | app/utils/sandbox.py:1243-1274 | once the records mirror the listing, a file that is there has a live record if and only if it was named, and one that no other file's lines name has its own hash there if and only if none vanished right before it |
| Outputs.Records.GetLive | app/db/queries/files.py:54-83 | the live row of a path, if there is one |
| Outputs.PassTells | app/utils/sandbox.py:1243-1259 | what a pass over a listing comes to, entry by entry: all that was needed arrived, each path is live with its last hash, nothing else changed, and the rows taken are those of the entries that did not match when reached, in order |
| Outputs.Records.DownloadFile | app/utils/sandbox.py:994-1080 | fails if and only if the row does not match and the file never arrives; otherwise one row gets the new hash, or a row is added for a path that had none, or nothing changes |
| Outputs.Records.TakeListed | app/utils/sandbox.py:1243-1259 | succeeds if and only if every entry that did not match when it was reached arrives, and names the first that does not; then each listed path is live with its last listed hash, rows keep their ids, no row is made or changed for a file that did not arrive, and nothing is collected if and only if every entry already matched |
| Outputs.Records.ArchiveGone | app/utils/sandbox.py:1266-1274 | exactly the live rows whose path is not listed are archived |
| Outputs.Records.DiscoverOutputs | app/utils/sandbox.py:1221-1276 | succeeds if and only if all that is needed arrives; the live rows mirror a non-empty listing, ids survive, archived rows are neither lost nor revived even when it fails half way, an empty listing changes nothing, a second pass changes no row |
| Outputs.MirrorsAgain | app/utils/sandbox.py:1243-1276 | a second pass has nothing to take if and only if the listing gives each path one hash |
| MountNames.MountPathExact | app/services/sessions.py:1446-1475 | the request, or the file's name where there is none, is honoured, stripped and otherwise unchanged, if and only if it is a valid path of at most 512 characters |
| MountNames.ValidPathLeadsWhereItSays | app/services/sessions.py:1446-1475 | a path is valid if and only if it has no NUL or backslash and, walked part by part with `..` going up, leads exactly where it says: never out of `uploads/` |
| MountNames.MountPathRefused | app/services/sessions.py:1453-1470 | which refusal a path gets: missing, too long, a forbidden character, absolute, or outside, in that order |
| MountNames.SteppedBeforeSuffix | app/services/sessions.py:1265-1272 | the number goes in front of the last suffix |
| MountNames.SteppedAtEnd | app/services/sessions.py:1270-1271 | and at the end of a name that has none, or has nothing in front of it |
| MountNames.SteppedNameInjective | app/services/sessions.py:1265-1272 | two attempts never try one name |
| MountNames.SteppedNameValid | app/services/sessions.py:1265-1272 | a valid path stepped aside is a valid path |
| MountNames.FreeName | app/services/sessions.py:1297-1306 | the name of the least free attempt; none only when all twenty are taken, so never with fewer than twenty bindings |
| MountNames.FirstFreeIsSound | app/services/sessions.py:1275-1306 | the name found is valid and free, and is the one requested if and only if that is free |
| MountNames.SessionFiles.AttachLiveFile | app/services/sessions.py:1203-1258 | the existing binding, a refusal that changes nothing (a failed transfer among them), or one new binding at the first free name |
| MountNames.SessionFiles.AttachTwice | app/services/sessions.py:1178-1231 | a name nobody has is given as asked; repeating a request returns its binding if and only if that landed on the requested name, and otherwise makes another unless all twenty are taken |
| Accounts.KeyNameReadsBack | app/services/accounts.py:78-106 | splitting a key's name gives back the fields it was made from |
| Accounts.KeyNameInjective | app/services/accounts.py:78-106 | two keys have one name if and only if environment (up to case and padding), organization, Account and generation agree |
| Accounts.KeyNameNeeds | app/services/accounts.py:78-106 | a key has a name if and only if the normalised environment, the organization and the Account are segments and the generation is positive |
| Accounts.ListKeys | app/utils/openrouter_management.py:210-232 | the listing is every key if and only if the provider's pages are a hundred long or one holds everything |
| Accounts.KeysBounded | app/services/accounts.py:159-242 | over every interleaving, the keys under an Account's name and those about to be are at most one and one per overlap |
| Accounts.OverlapsMint | app/services/accounts.py:210-242 | and n overlaps can leave exactly n + 1 keys |
| Accounts.ActiveHasItsKey | app/db/models/accounts.py:42-61 | an active Account has a credential the provider holds under its own name, row and credential agree, and no Organization has two defaults or one idempotency key twice |
| Accounts.LostIsForever | app/services/accounts.py:223-241 | an Account whose key was minted and lost, with nobody at work on it, never gets a credential |
| Accounts.FinishableCanFinish | app/services/accounts.py:193-242 | and any other Account without one can still get it |
| Accounts.RunIsLocal | app/services/accounts.py:159-242 | in every run, what is done for one Account leaves the rows, requests and keys of the others as they were |
| Accounts.ResumeUndoesSuspend | app/services/accounts.py:462-540 | a suspended Account keeps its credential, inactive, and resuming it gives back exactly what it was |
| Accounts.Billing.OneKeyEach | app/services/accounts.py:159-190 | with one request at a time, stopped anywhere, no Account ever has two keys |
| Accounts.Billing.ProvisionCredential | app/services/accounts.py:159-190 | the steps taken for each way minting can end, and an active Account exactly when it is recorded |
| Accounts.Billing.GetByIdempotencyKey | app/db/queries/accounts.py:68-77 | the Account of this Organization made with this key, if there is one; an absent or empty key finds none |
| Accounts.Billing.Repeated | app/services/accounts.py:132-144 | a repeat of a request that named a key, within its Organization, is told that the Account is unfinished, or gets it |
| Accounts.Billing.InsertAndProvision | app/services/accounts.py:145-156 | a row that clashes is refused with nothing written; otherwise it is written, Provisioning, and then provisioned |
| Accounts.Billing.CreateAccount | app/services/accounts.py:109-156 | exactly: an empty name, then a limit of nothing or less, are refused; then a repeated idempotency key returns the Account made with it, or refuses if that is unfinished, with nothing done; then a clash refuses; otherwise the row is made and provisioned |
| Accounts.Billing.GetDefaultAccount | app/db/queries/accounts.py:80-89 | the one default of the Organization, or none |
| Accounts.Billing.FinishDefault | app/services/accounts.py:213-242 | a default with a credential is not touched, one whose key is out there is refused, any other is finished |
| Accounts.Billing.EnsureDefaultAccount | app/services/accounts.py:193-242 | the same for whichever default there is; otherwise one is created, which is then the default, provisioned or not |
| Ids.HexOrder | app/utils/id_generator.py:48-56 | numbers of one width compare as their hexadecimal digits do |
| Ids.HexLast | app/utils/id_generator.py:48-56 | the digits are lower-case, the last one counting the ones |
| Ids.BeforeIsTotal | app/utils/id_generator.py:48-56 | the order ids are compared in is total and strict |
| Ids.HexOfBigEndian | app/utils/id_generator.py:51-56 | the hexadecimal of the big-endian bytes is that of the number |
| Ids.IdOrder | app/utils/id_generator.py:48-56 | ids compare by timestamp and counter whatever their random tails |
| Ids.IdsSortByCreation | app/utils/id_generator.py:28-56 | ids of one prefix are strictly increasing strings in creation order, for any clock |
| Ids.BoundedLead | app/utils/id_generator.py:33-45 | after n calls the id is at most 1023 and n - 1 places ahead of the latest clock |
| Ids.Generator.TimestampAndCounter | app/utils/id_generator.py:28-45 | the globals advance as the specification does |
| Ids.CounterStartIs | app/utils/id_generator.py:28-45 | a counter starts at the ten low bits of the two random bytes, read big-endian |
| Ids.Generator.NewId | app/utils/id_generator.py:48-56 | the bytes written in place spell the specified id, unless the timestamp no longer fits |
| Ids.VersionAndVariant | app/utils/id_generator.py:53-55 | version 7, the variant and the counter are where RFC 9562 puts them |
| Multipart.CutIsExact | app/utils/storage.py:163-182 | the cut concatenates to the bytes, has max(1, ceil(length / 8 MiB)) parts, all full but the last |
| Multipart.Trim | app/utils/storage.py:174-176 | full parts are sent while the buffer holds one, and nothing is lost between parts and buffer |
| Multipart.SendLast | app/utils/storage.py:181-182 | the tail completes the cut, and nothing at all is one empty part |
| Multipart.Receive | app/utils/storage.py:163-176 | what is hashed is what arrived, sent in full parts with less than one left over; and where reading stopped, by the limit, a refused part, the source, or its end |
| Multipart.SaveStream | app/utils/storage.py:106-201 | completed if and only if the source ends, within the limit, and no part or completion is refused, otherwise aborted; too large if and only if the limit is passed with every part filled before taken, the source's error if and only if it raises within the limit with every filled part taken; the parts depend on the bytes alone |
| ExecReport.Parse | app/services/sandboxes.py:530-536 | the loop builds the map in which each key has its last line's value |
| ExecReport.ReportFields | app/services/sandboxes.py:465-473 | every field of a printed report reads back, whatever the command printed |
| ExecReport.ReportRoundTrip | app/services/sandboxes.py:476-548 | each part of the result is what its own line's look at the disk found, byte for byte, and the state is what the exit code means |
| ExecReport.ReportSays | app/services/sandboxes.py:476-527 | in plain numbers: running without an exit code, succeeded on 0, timed out on 124, failed on any other; at most 262144 bytes of each output, flagged when more were counted; the seconds between the times, in milliseconds |
| ExecReport.FinishedIsExact | app/services/sandboxes.py:465-473 | a report with an exit code is a snapshot: the first part of each output, and truncation flagged exactly when there was more |
| ExecReport.FlagsExact | app/services/sandboxes.py:469-472 | a flag is never raised for nothing, and tells the truth if and only if the output did not outgrow the limit between the two looks |
| ExecReport.CutUnflagged | app/services/sandboxes.py:469-472 | a running command's output cut without a flag |
| ExecReport.RunningUntilExitCode | app/services/sandboxes.py:500-507 | the state is running if and only if no exit code was written |
| Base64.BytesOfSextets | app/services/sandboxes.py:539-543 | regrouping bits undoes itself |
| Base64.LetterIs | app/utils/secret_cipher.py:36-51 | each sextet is written as the tables of sections 4 and 5 of RFC 4648 have it |
| Base64.IndexExact | app/utils/secret_cipher.py:40-51 | a character is read as the sextet whose letter it is, in the second alphabet also by the letters of the first, and no other is read |
| Base64.SextetsOfBytes | app/utils/secret_cipher.py:48-51 | decoding loses the bits of the last letter that no byte takes up, and nothing else |
| Base64.DecodesIffSaid | app/utils/secret_cipher.py:48-51 | a text decodes to given bytes if and only if it is well formed, with no more padding than it needs, and its letters less those bits are the encoding of the bytes |
| Base64.PaddedRoundTrip | app/services/sandboxes.py:465-473 | padded base64 decodes to what was encoded |
| SecretEnvelope.UrlRoundTrip | app/utils/secret_cipher.py:36-51 | unpadded base64url decodes to what was encoded if and only if that was not empty |
| SecretEnvelope.TokenSplits | app/utils/secret_cipher.py:135-147 | a token splits into exactly its three components |
| SecretEnvelope.AadInjective | app/utils/secret_cipher.py:80-94 | different organizations or key hashes never share their additional data |
| SecretEnvelope.AadIs | app/utils/secret_cipher.py:71-94 | there is additional data exactly for two values that are not empty, have no space around them and under 2^32 bytes; and it is the domain, a zero, the version and the two, each behind its length |
| SecretEnvelope.EncryptsIff | app/utils/secret_cipher.py:116-137 | a secret is sealed if and only if it is not empty and there is additional data for its pair; as `v1`, nonce and ciphertext |
| SecretEnvelope.OpenRefuses | app/utils/secret_cipher.py:146-155 | a token of other than three parts, then one of another version, is refused for that; any other comes to what its parts do |
| SecretEnvelope.UnsealedRefuses | app/utils/secret_cipher.py:156-171 | then a component that does not decode, a nonce that is not twelve bytes, a pair that has no additional data, and what the cipher refuses, in that order |
| SecretEnvelope.OnlyItsOwnerDecrypts | app/utils/secret_cipher.py:116-171 | under an ideal cipher a token opens for the pair it was sealed for, to its plaintext, and for no other |
| SecretEnvelope.DecodeAlikeIff | app/utils/secret_cipher.py:40-51 | two texts decode to the same bytes if and only if they agree up to alphabet, padding and the bits that no byte takes up |
| SecretEnvelope.OnlySealedOpens | app/utils/secret_cipher.py:139-171 | a token opens to a text for the pair that asks if and only if it is, up to those, one sealed from that text for that pair |
| SecretEnvelope.OneMoreSign | app/utils/secret_cipher.py:48-51 | and so there are others, whenever the sealed length is no multiple of three: with one sign of padding more it opens alike |
| SecretEnvelope.LastBitsUnseen | app/utils/secret_cipher.py:48-51 | and two last letters that are one byte |
| SecretEnvelope.IdealIsPossible | app/utils/secret_cipher.py:97-109 | what is asked of the cipher is not a contradiction |
| UsageWindows.Windows | app/utils/openrouter_analytics.py:283-293 | the windows tile the interval, an empty one widened by a microsecond |
| UsageWindows.TilesMeet | app/utils/openrouter_analytics.py:283-293 | contiguous, none empty, none over thirty days, from the start to the end |
| UsageWindows.TilesPartition | app/utils/openrouter_analytics.py:283-293 | every moment is in exactly one window |
| UsageWindows.TilesCount | app/utils/openrouter_analytics.py:283-293 | there are ceil(length / 30 days) of them |
| UsageWindows.SessionUsage | app/utils/openrouter_analytics.py:84-168 | the total is the usage of the whole interval plus, once more, whatever the provider counts on each boundary between two windows |
| UsageWindows.ProvidersMeasure | app/utils/openrouter_analytics.py:146-166 | that is nothing for half-open ranges, and the charges on the boundaries for closed ones |
| Text.SpacesAre | app/services/sessions.py:1453 | what `strip` takes off: the white space of Unicode and the separators of ASCII |
| Text.BreaksAre | app/utils/sandbox.py:1206 | what `splitlines` breaks at |

## Left out

- SessionLease.PunctualLeaseHolds: a heartbeat that finds the row not running ends for good; the model also allows runs in which it wakes again. The heartbeat is cancelled before a turn's outputs are collected, so that stretch counts as delay.
- SessionStore.Session.PostEvents: the ownership check comes first and is not shown.
- SessionStore.SweepOnce: the pass commits as a whole, so a failure half way, which sweeps nothing, is not shown.
- Accounts.KeysBounded: revoking a key at the provider by hand is not a step.
- Accounts.ListKeys: keys made or revoked between two pages of one listing are not modelled.
- Accounts.KeyNameReadsBack: lower-casing is that of ASCII.
- ExecReport.FinishedIsExact: that nothing is written after the exit code is taken from the launcher; a process the command left behind could still write. An exit code file that exists and is still empty is read as none.
- ExecReport.ReportRoundTrip: outputs are bytes; turning them into text with replacement characters, and base64 input with characters outside the alphabet, are not part of this model.
- Listing.Reads: digits outside ASCII, which pass `isdigit`, are not modelled, nor the cut-off of `head` at the configured number of files. Versions of `sha256sum` that leave a carriage return unescaped are not either.
- MountNames.SessionFiles.AttachLiveFile: the checks on the Session, its sandbox and the file's owner come first in the code; two attachments at once are left to the table's unique constraint.
- Base64.DecodesIffSaid: a sign of padding after whole groups of four is refused, as current Python does; earlier ones let it pass.
- DeltaBuffer.Buffer.Flush: a publish that raises is taken not to have published.
- SecretEnvelope.OnlyItsOwnerDecrypts: AES-GCM is a parameter with ideal properties, and the master key's own decoding is not modelled.
- UsageWindows.SessionUsage: amounts are exact reals, and the checks on each response are not modelled.
- PauseResume.ResumeAccepted: the middleware's own rule (a count, and the kinds each call allows) is taken from its use here.
- Text is a sequence of characters; lone surrogates, which UTF-8 cannot encode, are not modelled.
- Wake-ups, reconnection and self-test of the listener: the stream is proved for any timing, so they only add delay.
- Suspending and resuming an Account against each other: the provider call and the row write are not ordered.
- Exactly-once execution of a dispatched turn, and duplicate or late callbacks: the documentation says they are not promised, and the protocol allows them.
- The graph, the container provider, object storage, the task queue and the database themselves.
- Routers, request models other than the event batch, the web client, migrations, configuration and probes: no algorithmic core.
- Image previews, generated shell scripts other than the two whose output is parsed, and skill packages.
