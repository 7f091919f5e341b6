# MindFS server core: a Dafny model

This project models the parts of the MindFS server whose correctness depends on interleavings, incremental
parsing or algebra, and proves what they promise.

- **The session stream hub** grants chat turns, queues, pops and promotes user messages, buffers a turn's events
  and moves a client from replay to live. `SessionState` gives one function per locked section and `SessionLaws` what
  each of them may and does change; `StreamHub` is the mutable hub, each method proved equal to its function on its own
  session and to leave every other session alone;
  `TurnProtocol`, `TurnRuns`, `QueueConservation`, `StaleDone`, `ReplayMarks` and `ReplayHandoff` are state machines
  over those sections, for any number of submissions, turns, clients and handlers.
- **The agent pool** opens, uses, idle-releases and kills sessions under one mutex and ordered per-group locks.
  `PoolState` and `Pool` are its sections, `PoolProtocol` lets any number of goroutines interleave them with lock
  and unlock steps, `PoolRuns`, `PoolOutcomes` and `PoolLocks` hold the results over whole runs, and `PoolAlone` what an
  undisturbed operation delivers.
- **Command output**: the long-shell marker parser (`ShellScan`, `ShellParser`, `ShellChunking`, `ShellOverlap`,
  `ShellLongCode`, `ShellExit`), the wrap-around byte ring (`ByteRing`), the UTF-8 tail trimmer (`Utf8Tail`) and the limiter
  (`OutputLimiter`).
- **Text and configuration**: the JSON-like passes (`JsonLike`, `JsonLexing`, `JsonQuotes`, `JsonNormal`, `JsonExtents`), the
  managed block (`ManagedBlock`) and the layered configuration merge (`ConfigMerge`).
- **The account store** (`AccountTable`, `AccountOutcomes`, `AccountStore`).

Every object the source updates in place is a class (`StreamHub`, `Pool`, `SessionEntry`, `Ring`, `Limiter`,
`LongShellCommand`, `Store`), and each of its methods is proved against a function; the lemmas are about those
functions. `dafny verify dfyconfig.toml` checks everything.

## Where the code and a stated expectation differ

- Managed-block replacement is last-writer-wins only for clean text: a leftover `\r\n` or a begin marker without
  its end makes two replacements differ from one. `ManagedBlock.LastWriterWinsIff` gives the exact condition. Inputs,
  for the markers in use: every Unix file with a begin marker and no end marker after it (`ProviderOrphanFails`), and
  every file without a begin marker whose only carriage returns are those of one `\r\r\n`, or one `\r` as its last
  byte, behind text that is not blank (`ProviderReturnFails`).
- The long-shell start marker overlaps itself (it starts and ends with two underscores) and the search skips
  overlapping occurrences. For a stream with one start marker line, whether the output starts depends on the cuts if
  and only if another occurrence of the marker reaches into that line's (`ShellOverlap.StartIsCutProofIff`); for every
  command id there is such a stream (`ShellOverlap.OverlapDependsOnCuts`). A marker at the start of a line is clear of
  this (`ShellScan.LineStartIsClear`).
- A pending line of more than 64 KiB without a break is handed out up to the last bytes, which can cut through an end
  marker with much white space around its exit code. For a stream with one end marker, whether the command finishes
  depends on the cuts if and only if the exit-code text is longer than 16 bytes and the marker's line, up to its break,
  longer than 64 KiB (`ShellLongCode.EndIsCutProofIff`).
- A done request for turn A can end a turn that was granted after A but has not installed its id:
  `StaleDone.RepeatedDoneBeforeInstall`. Once the id is installed such requests are invisible
  (`StaleDone.StaleRequestsErase`), and `StaleDone.DoneIsHarmlessIff` is the exact guard.
- The tail trimmer looks for a valid suffix and so keeps something if and only if its input ends in a whole character
  (`Utf8Tail.KeepsTextIff`): a tail that ends in a lead byte and some of its continuation bytes is trimmed to nothing,
  not to the last whole character (`Utf8Tail.LastLeadDecides`). A flush cycle of at most 16 KiB cut inside a character
  is lost: the flush reports nothing and skips nothing (`OutputLimiter.CutCycleIsLost`).
- The last-admin guard counts enabled admins but looks at the role only, so it also refuses to delete, demote or
  disable a disabled admin while one admin is enabled: `AccountTable.LastAdminGuard` and
  `AccountTable.LastAdminUpdateGuard` say exactly when.
- Close locks the group of the session it sees first. One that is opened between that look and the taking is taken
  without its group's lock: `PoolLocks.TakesUnderLockIff` says exactly when each operation holds it.
- Merging configuration layers is associative for all layers; unique names and keys are not needed.

## Model

| member | source | states |
|---|---|---|
| EventCursor.ParseInvertsFormat | server/internal/api/stream_hub_replay.go:41-59 | reading a cursor inverts writing it exactly for the non-negative 64-bit bases, with every 64-bit event number |
| ReplayKeys.ScanIsExact | server/internal/api/stream_hub_replay.go:214-229 | for ids without a colon, the suffix and prefix scan finds exactly the entries of the wanted session, client or both |
| ReplayKeys.KeyInjective | server/internal/api/stream_hub_replay.go:141-144 | two client and session pairs never share a replay key |
| StreamHub.StreamHub.RegisterClient | server/internal/api/stream_hub.go:60-82 | the new connection replaces the old one, which is returned unless it is the same; a node id that is given replaces the client's, none keeps it; no session changes |
| StreamHub.StreamHub.UnregisterClient | server/internal/api/stream_hub.go:88-110 | only the current connection takes its client out of the client and node tables, of every session and of every replay table; a superseded one changes nothing |
| StreamHub.StreamHub.BindSessionClient | server/internal/api/stream_hub.go:112-127 | binds a registered client to this session and no other |
| StreamHub.StreamHub.GetSessionClientIDs | server/internal/api/stream_hub.go:129-150 | the live targets are the bound clients that are not replaying this session (which ones those are: ReplayHandoff.SelectAimsExactly) |
| StreamHub.StreamHub.HasReplayClients | server/internal/api/stream_hub.go:233-243 | true exactly when some client is still replaying this session |
| StreamHub.StreamHub.ClearSessionPending | server/internal/api/stream_hub.go:272-304 | ends the turn only if the identities do not disagree; a queue or an open question keeps the entry, idle and without events; every replay state of the session goes |
| StreamHub.StreamHub.ReplayKeyList | server/internal/api/stream_hub_replay.go:214-229 | the keys the scan collects, no more and no less |
| StreamHub.StreamHub.ClearReplayStates | server/internal/api/stream_hub.go:37-42 | drops this session's replay states and keeps those of all other sessions |
| StreamHub.StreamHub.IsReplayClient | server/internal/api/stream_hub_replay.go:206-212 | whether this client is replaying this session |
| StreamHub.StreamHub.EnqueueSessionMessage | server/internal/api/stream_hub_queue.go:27-63 | appends the stamped message and clears the replay states |
| StreamHub.StreamHub.ReserveOrQueueSessionMessage | server/internal/api/stream_hub_queue.go:35-45 | grants the turn to an idle session, queues behind a running turn, in one section |
| StreamHub.StreamHub.RemoveQueuedSessionMessage | server/internal/api/stream_hub_queue.go:65-83 | removes exactly the messages with the id and keeps the order of the rest |
| StreamHub.StreamHub.UpdateQueuedSessionMessage | server/internal/api/stream_hub_queue.go:85-101 | rewrites the content of the first message with the id in place |
| StreamHub.StreamHub.FreezeQueuedSessionMessages | server/internal/api/stream_hub_queue.go:103-116 | freezes a queue that is not empty and nothing else |
| StreamHub.StreamHub.UnfreezeQueuedSessionMessages | server/internal/api/stream_hub_queue.go:118-134 | unfreezes a frozen queue and nothing else |
| StreamHub.StreamHub.PopQueuedSessionMessage | server/internal/api/stream_hub_queue.go:136-167 | hands out the head of an unfrozen queue, or the message asked for by id, only while no turn runs, and takes the turn in the same section |
| StreamHub.StreamHub.PromoteQueuedSessionMessage | server/internal/api/stream_hub_queue.go:169-195 | moves the message to the front and unfreezes the queue (SessionState.PromoteGrants); refuses an unknown id |
| StreamHub.StreamHub.SetPendingUserAt | server/internal/api/stream_hub_pending.go:52-106 | installs the turn id, empties the buffer, restarts the counter on the new base, clears the replay states |
| StreamHub.StreamHub.IsSessionReplying | server/internal/api/stream_hub_pending.go:108-116 | reads the active flag |
| StreamHub.StreamHub.MarkSessionAwaiting | server/internal/api/stream_hub_pending.go:123-154 | sets or clears the open question; clearing the last reason to exist deletes the entry and its replay states |
| StreamHub.StreamHub.PendingTurnIDMatches | server/internal/api/stream_hub_pending.go:225-240 | false exactly when both sides have an identity and the two differ |
| StreamHub.StreamHub.AppendReplyEvent | server/internal/api/stream_hub_replay.go:14-39 | numbers the event, appends it or puts it in the slot that absorbs it, and fills in the turn's id |
| StreamHub.StreamHub.BeginReplayPending | server/internal/api/stream_hub.go:208-213 | starts the client's replay at mark 0 |
| StreamHub.StreamHub.CollectReplayStep | server/internal/api/stream_hub_replay.go:135-175 | returns the buffered events above the mark in event order and moves the mark, or flips to live |
| SessionState.PromoteGrants | server/internal/api/stream_hub_queue.go:169-195 | a promotion of the first message called so is refused only for a blank id; it unfreezes the queue, and from an idle session the next pop grants that message |
| SessionLaws.PromoteRefuses | server/internal/api/stream_hub_queue.go:173-187 | a blank or unknown id is refused and changes nothing |
| SessionLaws.FieldsMoveOnlyBy | server/internal/api/stream_hub_queue.go:27-195 | which sections may change each field of the pending entry, over all sections |
| SessionLaws.EntryGoesWhen | server/internal/api/stream_hub.go:278-303 | the entry is deleted exactly by a clear of its turn or an answer that leaves no turn, message or question |
| SessionLaws.ReplaysEndOnlyIn | server/internal/api/stream_hub.go:37-42 | which sections send all replays of the session back, and that all others touch at most one client's |
| SessionLaws.BoundMovesOnlyBy | server/internal/api/stream_hub.go:88-127 | a client is bound or unbound only by its own section |
| SessionLaws.SubmissionGoesLast | server/internal/api/stream_hub_queue.go:35-63 | a submission takes an idle session, or goes last in the queue with its content and the clock's id if it brought none |
| SessionLaws.RemovalIsExact | server/internal/api/stream_hub_queue.go:72-79 | removal takes out all messages with the id and no other, in every part of the queue |
| SessionLaws.UpdateRewritesOne | server/internal/api/stream_hub_queue.go:92-97 | the first message with the id has the new content, all else is as it was |
| SessionLaws.FreezeStopsPops | server/internal/api/stream_hub_queue.go:103-158 | freezing works exactly on a non-empty queue, stops the unnamed pop but no named one, and unfreezing undoes it |
| SessionLaws.NamedPopGrants | server/internal/api/stream_hub_queue.go:145-166 | a named pop grants the first message with the trimmed id unless a turn runs |
| SessionLaws.TurnStartsClean | server/internal/api/stream_hub_pending.go:65-94 | an installed turn has its id, text and base, an empty buffer, counter 0 and no open question |
| SessionLaws.QuestionOpensAndCloses | server/internal/api/stream_hub_pending.go:123-154 | asking sets only the question, and answering takes back only that |
| SessionLaws.ClearKeepsWhatWaits | server/internal/api/stream_hub.go:278-303 | a clear ends the turn and drops its text and events, and keeps the queue and the open question |
| SessionLaws.EventIsStored | server/internal/api/stream_hub_replay.go:14-39 | where an event goes, under which number and turn id, and what a slot that absorbs it holds |
| SessionLaws.DrainReportsTheFlip | server/internal/api/stream_hub_replay.go:135-175 | a round reports live exactly when it returns no events, and the client is then not replaying |
| SessionLaws.DrainSelects | server/internal/api/stream_hub_replay.go:141-175 | a round returns exactly the buffered events of the entry's base above the client's mark |
| TurnProtocol.StepKeepsInv | server/internal/api/ws_session_message.go:220-291 | submit, launch, install, check, snapshot, announce, clear, wake-up, send-now, removal and every other hub step each keep the turn invariant |
| TurnRuns.RunKeepsInv | server/internal/api/ws_session_message.go:220-291 | the turn invariant holds in every reachable state |
| TurnRuns.AtMostOneTurn | server/internal/api/stream_hub_queue.go:35-45 | over every run at most one turn is between its grant and its clear, and Active is true exactly while one is, including turns that end before their id was installed |
| TurnRuns.OwnEndAlwaysClears | server/internal/api/appcontext_task_flags.go:57-69 | a turn's own end always passes the identity check and its clear always leaves the session idle |
| TurnRuns.NoLostWakeUp | server/internal/api/ws_session_message.go:268-291 | a non-empty unfrozen queue implies a running turn, or an ended turn or send-now handler that still has its check or pop to do |
| TurnRuns.QuietMeansDrained | server/internal/api/ws_session_message_queue.go:12-20 | when every turn and handler is done, an unfrozen queue is empty |
| TurnRuns.WaitingQueueMoves | server/internal/api/ws_session_queue.go:56-68 | a waiting queue's head can be granted within two enabled steps |
| TurnRuns.SendNowIsGranted | server/internal/api/ws_session_queue.go:46-68 | in every reachable idle state, frozen or not, a send-now of a queued id is followed by an enabled check and pop that grant the first message with that id |
| TurnRuns.FrozenQueueWaits | server/internal/api/stream_hub_queue.go:145-160 | while a frozen queue holds messages and nothing is launched or sent now, nothing is granted from it |
| TurnRuns.TurnsShowTheirMessage | server/internal/api/ws_session_message.go:225-235 | launching unfreezes the queue, and installing shows the turn's own message and id |
| QueueConservation.EveryMessageInOnePlace | server/internal/api/stream_hub_queue.go:47-83 | every accepted message is at all times in exactly one place, once: granted, queued or removed by the user |
| QueueConservation.PopsFollowArrival | server/internal/api/stream_hub_queue.go:136-167 | without send-now, what was popped followed by what waits is in strictly ascending order of arrival |
| QueueConservation.PromoteRotates | server/internal/api/stream_hub_queue.go:169-195 | promotion is a rotation: the others keep their order |
| QueueConservation.BackgroundKeepsQueue | server/internal/api/stream_hub.go:282-303 | no clear, awaiting step, event, new turn or entry deletion drops or moves a queued message |
| StaleDone.StaleRequestsErase | server/internal/api/appcontext_task_flags.go:57-69 | once turn b's id is installed, any number of done requests for other turns, at any stage and in any interleaving, leave the session exactly as it would be without them |
| StaleDone.LateRequestsSendNoFrame | server/internal/api/stream_hub_pending.go:217-240 | a stale request checked after b's id was installed sends no done frame |
| StaleDone.DoneIsHarmlessIff | server/internal/api/stream_hub.go:278-281 | a done request leaves a running turn running if and only if both sides have an identity and the two differ |
| StaleDone.RepeatedDoneBeforeInstall | server/internal/api/stream_hub.go:294-303 | with a message queued, a repeated done for the previous turn ends the turn granted next, as long as that one has not installed its id |
| ReplayMarks.DrainExact | server/internal/api/stream_hub_replay.go:141-175 | a drain round returns exactly the buffered events above the mark, strictly increasing, and moves the mark to the last of them |
| ReplayMarks.AppendKeepsWF | server/internal/api/stream_hub_replay.go:14-39 | an appended or coalesced event takes the next number, above all others in the buffer |
| ReplayMarks.RunKeepsWF | server/internal/api/stream_hub_pending.go:86-94 | along every run buffered cursors are distinct, share the base and lie in 1..counter, and no mark passes the counter |
| ReplayMarks.MarksNeverPassTheCounter | server/internal/api/stream_hub_pending.go:150-153 | the same from an empty session, across new turns, clears and entry deletions |
| ReplayMarks.BatchesNeverRepeat | server/internal/api/stream_hub.go:217-230 | until its replay is restarted or cleared, all batches of a client together are strictly increasing |
| ReplayHandoff.RunKeepsInv | server/internal/api/stream_hub.go:325-334 | in every reachable state an event owed to a client was transmitted, is in a batch or live broadcast under way, or is still to be drained or selected |
| ReplayHandoff.HandoffLosesNothing | server/internal/api/stream_hub.go:208-231 | append and target selection being separate sections, every event buffered at the start of a replay or appended later has been transmitted to the bound client once its broadcast and the drain are done |
| ReplayHandoff.DuesAre | server/internal/api/stream_hub.go:208-231 | what a replay owes its client is the buffer at its start and every event since |
| ReplayHandoff.BufferCarriesTurn | server/internal/api/stream_hub_replay.go:84-122 | the buffer carries exactly the events emitted since it was last emptied, coalesced or not |
| ReplayHandoff.SelectAimsExactly | server/internal/api/stream_hub.go:129-150 | over every run, a broadcast is aimed at exactly the bound clients without a replay state or with a live one |
| ReplayHandoff.NoLiveBeforeFlip | server/internal/api/stream_hub.go:208-231 | as long as a replay has not gone live, no broadcast selected since its start is aimed at its client |
| ReplayHandoff.NothingOvertakes | server/internal/api/stream_hub.go:325-334 | what is delivered live to a client that is still replaying was emitted before its replay started |
| LockOrder.OrderGroups | server/internal/agent/pool_idle.go:106-125 | any list of groups becomes the strictly increasing, duplicate-free order of the same groups |
| LockOrder.OrderIsUnique | server/internal/agent/pool_idle.go:119-124 | there is only one such order, so all callers acquire shared groups in the same order |
| AgentPool.Pool.FirstLook | server/internal/agent/pool.go:88-119 | the first lookup: closed, closing with its gate, found, not configured, or missing with its group |
| AgentPool.Pool.SecondLook | server/internal/agent/pool.go:123-136 | the second lookup under the runtime lock, which does not test closing |
| AgentPool.Pool.InstallSession | server/internal/agent/pool.go:144-168 | adds a fresh entry only to an open pool without one for the key |
| AgentPool.Pool.BeginSessionUse | server/internal/agent/pool.go:173-197 | counts a use of an entry that is not closing and names the entry it counted |
| AgentPool.Pool.EndSessionUse | server/internal/agent/pool.go:184-196 | counts down only the very entry the handle was issued for |
| AgentPool.Pool.TakeSessions | server/internal/agent/pool.go:230-243 | removes exactly the matching entries |
| AgentPool.Pool.CollectIdleGroups | server/internal/agent/pool_idle.go:41-56 | the groups of the eligible entries that are neither closing nor in use |
| AgentPool.Pool.MarkIdle | server/internal/agent/pool_idle.go:60-74 | marks exactly the eligible idle entries of the locked groups and leaves all others as they were |
| AgentPool.Pool.FinishRelease | server/internal/agent/pool_idle.go:76-91 | removes the entry or makes it usable again, if it is still the current one, and opens its gate (PoolOutcomes.ClosedIsGone and FailedCloseStays say which) |
| AgentPool.Pool.BeginShutdown | server/internal/agent/pool.go:255-268 | closes the pool to openers |
| AgentPool.Pool.DropSessions | server/internal/agent/pool.go:280-286 | empties the table |
| AgentPool.MarkOneMore | server/internal/agent/pool_idle.go:62-73 | marking the entries one by one in any order marks the same set |
| PoolInvariant.StepKeepsLockInv | server/internal/agent/pool_idle.go:136-143 | every step keeps the lock table and the goroutines' held lists in agreement, each goroutine's plan strictly increasing, and waiters empty-handed |
| PoolDeadlock.WaitsAbove | server/internal/agent/pool_idle.go:119-138 | a goroutine blocked on a runtime lock waits for one above everything it holds |
| PoolDeadlock.SomeoneCanStep | server/internal/agent/pool.go:94-105 | a state that keeps the invariant with an unfinished goroutine has a goroutine that can step |
| PoolTable.StepKeepsTable | server/internal/agent/pool.go:173-197 | every step keeps entries distinct, in their key's group, and their uses equal to their unreleased handles |
| PoolTable.StepKeepsClose | server/internal/agent/pool_idle.go:60-91 | every step keeps each closing entry in the hands of one releaser that holds its group's lock, and each waiter's gate open or about to be opened |
| PoolRuns.RunIsSafe | server/internal/agent/pool.go:83-169 | all pool invariants hold in every reachable state |
| PoolRuns.NeverStuck | server/internal/agent/pool_idle.go:106-144 | deadlock freedom: for any number of goroutines and groups, every reachable state with an unfinished goroutine has one that can step |
| PoolRuns.ClosingIsLocked | server/internal/agent/pool_idle.go:57-91 | an entry marked closing is being closed by exactly one goroutine, which holds its group's runtime lock |
| PoolRuns.HandedSessionsAreLive | server/internal/agent/pool.go:94-159 | GetOrCreate never hands out a session being idle-closed, at any of its three lookups |
| PoolRuns.OpensOnlyMissingKeys | server/internal/agent/pool.go:120-142 | openSession runs only for a key without an entry, for one goroutine at a time per key |
| PoolRuns.UsesCountHandles | server/internal/agent/pool.go:173-209 | activeUses is the number of unreleased handles issued for that very entry, and closing implies none |
| PoolRuns.ReleaseSparesSessionsInUse | server/internal/agent/pool_idle.go:60-77 | as long as a release pass has an entry to close, no handle issued for that entry is outstanding |
| PoolRuns.ReleaseCountsItsEntryOnce | server/internal/agent/pool.go:184-196 | a handle counts down once, only its own entry, and the counter is never already zero |
| PoolOutcomes.HandedIsUsable | server/internal/agent/pool.go:94-168 | what a step hands out is in the table right then, not closing, and the pool is open |
| PoolOutcomes.ClosedIsGone | server/internal/agent/pool_idle.go:76-83 | over every run, an entry whose session was closed is in no later table and is never handed out again |
| PoolOutcomes.FailedCloseStays | server/internal/agent/pool_idle.go:80-88 | an entry whose close failed stays as it was, not closing, if it is still its key's; all others are untouched |
| PoolOutcomes.TakingIsExact | server/internal/agent/pool.go:212-243 | Close takes its session, KillAgentProcess its agent's, CloseAll all, and nothing else changes |
| PoolOutcomes.ShutdownIsFinal | server/internal/agent/pool.go:254-286 | from CloseAll's first section on nothing is handed out, and once it took the sessions the table stays empty |
| PoolOutcomes.UseIsCounted | server/internal/agent/pool.go:173-184 | a use is counted exactly for a present session that is not closing, and its handle names that entry |
| PoolLocks.WorksUnderItsLocks | server/internal/agent/pool_idle.go:41-74 | at its taking or marking an operation holds exactly the locks of the groups its first section saw |
| PoolLocks.TakesUnderLockIff | server/internal/agent/pool.go:212-228 | KillAgentProcess and CloseAll always hold the lock of what they take; Close exactly if the session was there at its first look |
| PoolLocks.WaitersWait | server/internal/agent/pool.go:94-105 | while an entry is closing, the gate its waiters wait for is not open, however often it was closed in vain before |
| PoolAlone.FirstLookSettles | server/internal/agent/pool.go:88-119 | the first look hands out a present session, waits for one being closed, refuses or goes for the group's lock |
| PoolAlone.OpensAlone | server/internal/agent/pool.go:107-169 | undisturbed, GetOrCreate opens a missing session once, installs and hands it out under a new identity, or leaves nothing behind when opening fails, and gives its lock back |
| PoolAlone.TakesAlone | server/internal/agent/pool.go:212-286 | undisturbed, Close, KillAgentProcess and CloseAll take exactly their sessions and give all locks back |
| PoolAlone.ReleasesAlone | server/internal/agent/pool_idle.go:38-103 | undisturbed, a release pass removes exactly the eligible sessions without uses, or leaves them usable when closing fails, and gives all locks back |
| ByteRing.Ring.Write | server/internal/commandexec/ring.go:16-35 | afterwards the ring holds the last capacity bytes of what it held followed by what was written |
| ByteRing.Ring.Bytes | server/internal/commandexec/ring.go:37-48 | returns the contents in order |
| ByteRing.Ring.Reset | server/internal/commandexec/ring.go:50-56 | empties the ring |
| ByteRing.Ring.SetLimit | server/internal/commandexec/ring.go:58-67 | a positive size keeps the last bytes that fit; others change nothing |
| ByteRing.HistorySuffix | server/internal/commandexec/ring.go:16-66 | after any writes, resets and limit changes the contents are a suffix of what was written since the last reset, of a length that follows from the sizes alone |
| ByteRing.LastBytesWritten | server/internal/commandexec/ring.go:16-56 | without limit changes the ring is the last capacity bytes since the last reset |
| ByteRing.ShortWrite | server/internal/commandexec/ring.go:26-34 | the two copies and the new position realise that for every write shorter than the buffer |
| Utf8Tail.ValidUTF8Tail | server/internal/commandexec/limiter.go:84-96 | returns a suffix that is valid UTF-8, and no valid suffix starts earlier |
| Utf8Tail.TailIsLongest | server/internal/commandexec/limiter.go:84-96 | the specification's suffix is valid and starts no later than any other valid suffix |
| Utf8Tail.DropsAtMostThree | server/internal/commandexec/limiter.go:88-95 | when the input is a suffix of valid UTF-8, at most three bytes are dropped |
| Utf8Tail.KeepsTextIff | server/internal/commandexec/limiter.go:84-96 | the tail is non-empty if and only if one of the last four positions starts a whole character that ends the input |
| Utf8Tail.LastLeadDecides | server/internal/commandexec/limiter.go:88-95 | after any text, a lead byte and continuation bytes at the end leave a tail exactly when they are one whole character |
| Utf8Tail.ValidIffEncoding | server/internal/commandexec/limiter.go:85-88 | valid means: the encoding of a sequence of Unicode scalar values (sections 3 and 4 of RFC 3629) |
| Utf8Tail.ByteLengthIs | server/internal/auth/store_mutate.go:47-49 | the length a password is measured by is that of its UTF-8 encoding |
| OutputLimiter.Limiter.Write | server/internal/commandexec/limiter.go:34-42 | the persisted ring stays the last 64 KiB of all writes and the cycle ring the last 16 KiB of the cycle |
| OutputLimiter.Limiter.Flush | server/internal/commandexec/limiter.go:44-57 | skips what exceeds 16 KiB and hands out the valid tail of the rest; reports a chunk exactly when it skips something or the cycle ends in a whole character; records what it skipped, handed out and trimmed, which with the current cycle adds up to the total |
| OutputLimiter.Limiter.PersistedTail | server/internal/commandexec/limiter.go:59-64 | the longest valid suffix of the last 64 KiB written |
| OutputLimiter.Limiter.TailBytes | server/internal/commandexec/limiter.go:66-71 | the number of persisted bytes: all that was written, up to 64 KiB |
| OutputLimiter.FlushTextIsLongest | server/internal/commandexec/limiter.go:48-56 | a flush skips max(0, cycle - 16 KiB) and its text is the longest valid suffix of what it keeps |
| OutputLimiter.FlushLosesAtMostThree | server/internal/commandexec/limiter.go:48-56 | when the cycle ends a valid text, trimming loses at most three bytes |
| OutputLimiter.FlushTextIff | server/internal/commandexec/limiter.go:48-56 | a flush hands out text if and only if the cycle ends in a whole character |
| OutputLimiter.CutCycleIsLost | server/internal/commandexec/limiter.go:44-57 | a cycle of at most 16 KiB that does not end in a whole character gives an empty chunk with nothing skipped; all its bytes are trimmed |
| ShellScan.SearchMarkerLine | server/internal/commandexec/long_shell_output.go:262-276 | the offset loop returns what the specification finds: the first of the non-overlapping occurrences followed by a line break |
| ShellScan.ClearLineIsFound | server/internal/commandexec/long_shell_output.go:262-276 | the first marker line is found from every earlier offset unless another occurrence reaches into it |
| ShellScan.LineStartIsClear | server/internal/commandexec/long_shell_output.go:262-276 | no other occurrence reaches into a marker that begins a line |
| ShellScan.SearchEnd | server/internal/commandexec/long_shell_output.go:282-296 | the offset loop returns the specification's end marker and exit code, with ok exactly when there is one |
| ShellScan.FirstEnd | server/internal/commandexec/long_shell_output.go:282-296 | the search finds the first end marker with an exit code and misses none |
| ShellScan.ExitCodeOfPrefix | server/internal/commandexec/long_shell_output.go:244-260 | text after the exit code's line break does not matter, and before that break there is no exit code |
| ShellParser.LongShellCommand.ConsumeChunk | server/internal/commandexec/long_shell_output.go:9-64 | the consume loop is the specification's drain of the pending text; what it reports is said by ShellExit.CommandReports |
| ShellParser.LongShellCommand.FinishLocked | server/internal/commandexec/long_shell_output.go:83-101 | finishes once and sends one result |
| ShellParser.LongShellCommand.SeekStart | server/internal/commandexec/long_shell_output.go:20-29 | looks for the start marker line, keeping a marker's length of tail until it arrives |
| ShellParser.LongShellCommand.EmitLines | server/internal/commandexec/long_shell_output.go:50-62 | hands out complete lines, or the overflow of a very long one, or nothing |
| ShellChunking.CommandMarkersOk | server/internal/commandexec/long_shell_command.go:23-24 | the markers made from a base-36 id have no line break and a colon at the end only |
| ShellChunking.FindEndInWindow | server/internal/commandexec/long_shell_output.go:30-49 | any window that has not passed the first end marker shows that marker as soon as its line break has arrived, and none before |
| ShellChunking.EmitStopsBeforeEnd | server/internal/commandexec/long_shell_output.go:120-132 | what is handed out early never reaches into an end marker whose code text is at most 16 bytes or whose line, up to its break, is at most 64 KiB |
| ShellChunking.AfterChunks | server/internal/commandexec/long_shell_output.go:9-64 | after any chunks, what is pending and what was handed out are determined by the bytes that arrived, up to how many leading breaks were trimmed |
| ShellChunking.FinishesOnce | server/internal/commandexec/long_shell_output.go:31-49 | every cut of the stream finishes exactly once with the first end marker's exit code (which number that is: ShellExit.RunReports) and the same output up to leading line breaks |
| ShellChunking.KeepsRunning | server/internal/commandexec/long_shell_output.go:50-62 | without an end marker the command keeps running and output plus pending is the body up to leading line breaks |
| ShellChunking.NeverStarts | server/internal/commandexec/long_shell_output.go:20-25 | without a start marker line nothing is handed out |
| ShellChunking.ChunkingIndependence | server/internal/commandexec/long_shell_output.go:9-64 | two ways of cutting one stream agree on start, finish, exit code and output up to leading line breaks, if its first start marker line is clear of other occurrences and its first end marker cannot be cut through |
| ShellChunking.PendingIsBounded | server/internal/commandexec/long_shell_output.go:116-128 | whatever the stream holds, the text kept back is bounded |
| ShellChunking.LinesAreHandedOut | server/internal/commandexec/long_shell_output.go:50-62 | after any chunks of a running command, what is pending is no longer than an end marker with its code, or is one unfinished line of at most 64 KiB |
| ShellChunking.MarkersAreOwn | server/internal/commandexec/long_shell_command.go:16-24 | commands with different ids have different markers |
| ShellChunking.FinishesWithTheFirst | server/internal/commandexec/long_shell_output.go:83-101 | the first result is the one sent |
| ShellExit.CodeIsNumber | server/internal/commandexec/long_shell_output.go:244-260 | an exit code is read exactly from a number alone on the rest of its line, white space around it or not |
| ShellExit.RunReports | server/internal/commandexec/long_shell_output.go:9-64 | for every cut, the one result is the number printed after the end prefix, or the largest int if it is larger, and the output is the text between the markers up to leading line breaks |
| ShellExit.CommandReports | server/internal/commandexec/long_shell_output.go:31-49 | for every command id and every n of 64 bits, a command whose script prints n reports n |
| ShellOverlap.AlwaysStarts | server/internal/commandexec/long_shell_output.go:9-29 | under every cut the output has started once a clear first marker line and its break have arrived |
| ShellOverlap.ObstructedDependsOnCuts | server/internal/commandexec/long_shell_output.go:262-276 | with an occurrence reaching into the only marker line, cutting right behind that occurrence misses the line and cutting right behind the line's marker finds it |
| ShellOverlap.StartIsCutProofIff | server/internal/commandexec/long_shell_output.go:9-29 | for every stream with one start marker line, all cuts agree on the start if and only if no other occurrence reaches into that line's |
| ShellOverlap.OverlapDependsOnCuts | server/internal/commandexec/long_shell_command.go:23-24 | for every command id there is a stream whose start depends on the cuts |
| ShellLongCode.CutThrough | server/internal/commandexec/long_shell_output.go:120-132 | an end marker that can be cut through: the stream in one chunk finishes the command, cut before the exit code's line break it never finishes |
| ShellLongCode.EndIsCutProofIff | server/internal/commandexec/long_shell_output.go:30-62 | for every stream with a clear start marker line and one end marker, all cuts agree on the finish if and only if the code text is at most 16 bytes or the marker's line at most 64 KiB |
| JsonLike.StripJSONLikeComments | server/internal/api/agent_api_provider_json.go:60-108 | the state-machine loop writes what the specification keeps |
| JsonLexing.StripDropsComments | server/internal/api/agent_api_provider_json.go:60-108 | stripping writes out every token but the comments, strings byte for byte |
| JsonLexing.LexOfStrip | server/internal/api/agent_api_provider_json.go:88-104 | the stripped text has exactly the original's tokens without comments: no comment opener is left outside strings |
| JsonLexing.LexIsFaithful | server/internal/api/agent_api_provider_json.go:60-108 | the tokens of a text write out the text |
| JsonLexing.StripIsIdempotent | server/internal/api/agent_api_provider_json.go:60-108 | stripping twice is stripping once |
| JsonQuotes.ReplaceSingleQuotedStrings | server/internal/api/agent_api_provider_json.go:110-172 | the flag-driven loop writes what the specification rewrites |
| JsonNormal.RequoteKeepsTokens | server/internal/api/agent_api_provider_json.go:110-172 | rewriting keeps every string's extent and leaves no single quote outside double-quoted strings |
| JsonNormal.RequotedSaysTheSame | server/internal/api/agent_api_provider_json.go:146-169 | a rewritten string says what the single-quoted one said, escapes included |
| JsonNormal.RequoteIsIdempotent | server/internal/api/agent_api_provider_json.go:110-172 | rewriting twice is rewriting once |
| JsonNormal.RequoteAddsNoComment | server/internal/api/agent_api_provider_json.go:132-145 | rewriting a text without comments makes no comment |
| JsonNormal.NormalIsFixed | server/internal/api/agent_api_provider_json.go:52-54 | the two passes together are a fixed point of each pass and of both |
| JsonNormal.NormalTokens | server/internal/api/agent_api_provider_json.go:52-54 | the result's tokens are the original's without comments, single-quoted strings rewritten |
| JsonExtents.StringEnds | server/internal/api/agent_api_provider_json.go:71-84 | a string ends at the first of its quotes with an even number of backslashes before it |
| JsonExtents.StringStays | server/internal/api/agent_api_provider_json.go:71-84 | a string stays byte for byte, whatever it holds |
| JsonExtents.LineCommentGoes | server/internal/api/agent_api_provider_json.go:88-95 | a line comment goes and its line feed stays |
| JsonExtents.BlockCommentGoes | server/internal/api/agent_api_provider_json.go:96-104 | a block comment goes up to its first close |
| JsonExtents.PlainTextStays | server/internal/api/agent_api_provider_json.go:105-106 | all other text stays |
| JsonExtents.RewrittenFreesQuotes | server/internal/api/agent_api_provider_json.go:146-169 | a rewritten string has no escaped single quote left |
| ManagedBlock.ReplaceManagedBlock | server/internal/api/agent_api_provider_files.go:158-173 | the method computes the replacement function |
| ManagedBlock.LastWriterWinsIff | server/internal/api/agent_api_provider_files.go:158-173 | replacing twice equals replacing once with the second block, for all pairs of blocks, if and only if what is left outside is blank or has no CRLF and no begin marker |
| ManagedBlock.LastWriterWins | server/internal/api/agent_api_provider_files.go:158-173 | on clean text the last writer wins |
| ManagedBlock.PlainFileIsClean | server/internal/api/agent_api_provider_files.go:159-167 | a file with Unix line ends and at most one begin marker, followed by an end marker, is clean |
| ManagedBlock.RewritingIsIdempotent | server/internal/api/agent_api_provider_files.go:158-173 | writing the same block into such a file again changes nothing |
| ManagedBlock.OutsideIsKept | server/internal/api/agent_api_provider_files.go:165-172 | a later replacement keeps of a plain file's result exactly the text outside its block |
| ManagedBlock.OutsideIsText | server/internal/api/agent_api_provider_files.go:159-167 | for every file: what is kept is its text before its first complete block and its text after it, with CRLF replaced, trimmed of line feeds and joined by an empty line |
| ManagedBlock.ReplaceMeans | server/internal/api/agent_api_provider_files.go:158-173 | for every file and block: the result is that text, an empty line and the block, or the block alone when the text is blank |
| ManagedBlock.UnixLinesAt | server/internal/api/agent_api_provider_files.go:159 | every CRLF becomes a line feed, wherever it stands |
| ManagedBlock.ProviderMarkersOk | server/internal/api/agent_api_provider_apply_providers.go:116 | the markers in use are one line each and neither contains the other |
| ManagedBlock.OrphanMarkerFails | server/internal/api/agent_api_provider_files.go:160-166 | every Unix file with a begin marker and no end marker after it: for some two blocks, two writes differ from one |
| ManagedBlock.DoubleReturnFails | server/internal/api/agent_api_provider_files.go:159 | every file made of non-blank text, two carriage returns and a line feed, and more text, with no begin marker and no other carriage return: replacing CRLF once leaves one, and some two writes differ from one |
| ManagedBlock.LastReturnFails | server/internal/api/agent_api_provider_files.go:171-172 | every non-blank file without a begin marker whose last byte is its only carriage return: the line feeds put behind it make a CRLF, and some two writes differ from one |
| ManagedBlock.ProviderOrphanFails | server/internal/api/agent_api_provider_apply_providers.go:116 | the orphaned begin marker, for the markers in use |
| ManagedBlock.ProviderReturnFails | server/internal/api/agent_api_provider_apply_providers.go:116 | the two kinds of carriage returns, for the markers in use |
| ConfigMerge.MergeConfigLayers | server/internal/agent/config.go:174-196 | the merge method computes the merge function |
| ConfigMerge.MergeAgentLists | server/internal/agent/config.go:183-195 | the index-map loop updates the last entry of a name or appends |
| ConfigMerge.MergeShellLists | server/internal/agent/config_shell.go:9-32 | the override's shells, then the base's with new non-empty keys, for any lower-casing of runes; ConfigMerge.ShellsMergeExactly says which |
| ConfigMerge.MergeIsAssociative | server/internal/agent/config.go:174-196 | three layers merge to the same configuration whichever two are merged first |
| ConfigMerge.AgentsAssociate | server/internal/agent/config.go:183-195 | the agents part of it, order and fields |
| ConfigMerge.ShellsAssociate | server/internal/agent/config_shell.go:9-32 | the shells part of it |
| ConfigMerge.ShellsMergeExactly | server/internal/agent/config_shell.go:9-36 | after the override come, in base order, exactly the base shells whose non-blank command no override shell and no earlier base shell has |
| ConfigMerge.MergeKeepsCommands | server/internal/agent/config_shell.go:9-36 | a command is in the merged list exactly if either layer has it |
| ConfigMerge.LayersKeepCommands | server/internal/agent/config_shell.go:9-36 | the same over any number of layers |
| ConfigMerge.MergedAgent | server/internal/agent/config.go:198-243 | a merged agent is the lower entry, the upper one, or their field-wise merge with the last non-empty value |
| ConfigMerge.EnvEntryErasesNothing | server/internal/agent/config.go:203-241 | an entry with only a name and variables erases nothing of the layers below |
| ConfigMerge.TextFromHighest | server/internal/agent/config.go:198-230 | over any number of layers a text field has the value of the highest layer that gives one; the name is the highest layer's |
| ConfigMerge.ListFromHighest | server/internal/agent/config.go:213-233 | the same for the list fields |
| ConfigMerge.EnvFromHighest | server/internal/agent/config.go:234-241 | the variables are the whole map of the highest layer that sets any |
| ConfigMerge.LayersStack | server/internal/agent/config.go:82-96 | for any number of layers and an agent any of them define, the merged entry is the stack of the entries the layers have for it, and there is none when no layer has one |
| ConfigMerge.MergeOrder | server/internal/agent/config.go:187-194 | agents keep the lower layer's order, new ones follow in the upper layer's order |
| AccountStore.Store.CreateUser | server/internal/auth/store_mutate.go:42-77 | creates the account or returns the first error in the source's order with the table unchanged |
| AccountStore.Store.UpdateUser | server/internal/auth/store_mutate.go:88-142 | applies the four optional changes in order or returns the first error with the table unchanged |
| AccountStore.Store.DeleteUser | server/internal/auth/store_mutate.go:145-168 | deletes the first account with the id unless it is the last enabled admin or the primary |
| AccountStore.Store.TransferPrimary | server/internal/auth/store_mutate.go:24-39 | only an enabled admin becomes primary |
| AccountStore.Store.IndexLocked | server/internal/auth/store_query.go:128-136 | the first account with the trimmed id, or -1 |
| AccountStore.Store.CountAdminsLocked | server/internal/auth/store_query.go:138-146 | the number of enabled admins |
| AccountStore.Store.NameTaken | server/internal/auth/store_mutate.go:59-63 | whether another account has the name under the given case folding |
| AccountTable.RunsStaySound | server/internal/auth/store_mutate.go:24-168 | every run from a sound table keeps an enabled admin, user names distinct under the given case folding, and the primary id naming an account |
| AccountTable.ErrorsChangeNothing | server/internal/auth/store_mutate.go:24-168 | a call that returns an error leaves the table unchanged, and one that succeeds was written |
| AccountTable.CreateMeans | server/internal/auth/store_mutate.go:59-76 | a successful creation adds one enabled account at the end under a name nobody had |
| AccountTable.UpdateMeans | server/internal/auth/store_mutate.go:95-141 | a successful update touches one account only, given fields new, absent fields old |
| AccountTable.LastAdminUpdateGuard | server/internal/auth/store_mutate.go:120-135 | for every account and every change whose name and password parts pass: refused whenever no enabled admin would be left, and although one would be left exactly when a single admin is enabled and the change demotes a disabled admin or makes or keeps this other account a disabled admin |
| AccountTable.LastAdminGuard | server/internal/auth/store_mutate.go:152-154 | for every account: refused whenever no enabled admin would be left, and although one would be left exactly for a disabled admin beside a single enabled one |
| AccountOutcomes.UnknownIsRefused | server/internal/auth/store_query.go:128-136 | update, delete and set-primary of an id nobody has are refused and change nothing |
| AccountOutcomes.CreateOutcome | server/internal/auth/store_mutate.go:42-77 | each error of a creation occurs exactly for its reason, earlier reasons first, and success shows the new account |
| AccountOutcomes.UpdateSucceedsIff | server/internal/auth/store_mutate.go:88-142 | an update succeeds exactly if name and password are acceptable, the last enabled admin is spared and the file was written |
| AccountOutcomes.DeleteMeans | server/internal/auth/store_mutate.go:145-168 | when a deletion succeeds, and that it takes out that account only and keeps the order and the primary id |
| AccountOutcomes.SetPrimaryMeans | server/internal/auth/store_mutate.go:24-39 | it succeeds exactly for an enabled admin, sets the primary id to that account's and changes no account |

## Left out

- WebSocket writes and their per-connection locks, HTTP handlers, processes, PTYs, files, bcrypt, push notifications
  and timers: outcomes are
  parameters of the steps, transmissions a log; the 2-second wait before a clear is any delay before that step.
- Exactly-once delivery: an event can reach a client twice, live and in a batch; the handoff is at least once.
- Replays across a step that clears the client's replay state: the drain ends early by design.
- StreamHub.StreamHub.EnqueueSessionMessage: the queued message's title and time stamp are not modelled; the text, the
  id and the order are.
- StreamHub.StreamHub.SetPendingUserAt: agent, model, mode and time stamp of the pending entry are not modelled.
- StreamHub.StreamHub.MarkSessionAwaiting: that a question is open is modelled, the id of its call is not.
- StreamHub.StreamHub.AppendReplyEvent: the entry's summary and time stamp and the text of a coalesced event are not
  modelled.
- Session titles, root ids, summaries, time stamps, model and agent fields of a pending turn, and the id of the
  question a session waits for: no modelled step reads them.
- Which slot absorbs a coalesced event and what its text becomes, including the 256 KiB cut: the slot is any of
  the same kind, and the event keeps the numbers of what it absorbed.
- The 2000-event limit: the constant is declared and not enforced.
- Command-type sessions, kanban and scheduled turns, sub-session replies, session deletion, and the unfreeze after
  a failed cancel: they bypass the turn discipline.
- ReplayKeys.ScanIsExact: client and session ids contain no colon; the source does not check it.
- ReplayMarks.RunKeepsWF: exchange numbers fit 64 bits and a turn emits fewer than 2^64 events; the counter's wrap
  is in the model and outside the statement.
- Session keys opened for two agents, and a configuration that changes while the pool runs: a key belongs to one
  agent and protocol, and the configuration is fixed.
- lastUsedAt: which sessions are idle long enough is a free choice at every release pass.
- GetOrCreate's refusal of an empty session key, before any section runs.
- A cancelled GetOrCreate: a waiter on a closing session leaves only when its gate opens; leaving earlier frees
  nothing.
- What CloseAll and KillAgentProcess do to the protocol runtimes after taking the sessions.
- nil receivers of the ring and the limiter, and the wrap of 64-bit byte counters.
- Echo stripping of shell control lines: the output is what is handed to it. The Windows scripts and the prompt
  heuristics belong to it.
- White space of more than one byte around an exit code: the parser works on bytes and trims ASCII white space.
- ShellChunking.ChunkingIndependence: asks for a clear start marker line and an end marker that cannot be cut through;
  `ShellOverlap.StartIsCutProofIff` and `ShellLongCode.EndIsCutProofIff` say when the answer depends on the cuts, for
  streams with one such line each; among several obstructed lines or end markers the exact condition is not stated.
- The two regular-expression passes of the JSON normaliser, and JSON parsing itself.
- ManagedBlock.LastWriterWinsIff: blocks start and end with their markers, contain them nowhere else, and have no
  carriage return, as the builders write them.
- Normalisation of a configuration when it is decoded.
- The Unicode case tables: folding of user names and lower-casing of shell keys are parameters, and the results hold
  for every mapping of runes.
- ConfigMerge.LayersStack: asks for distinct agent names within each layer above the lowest.
- Account ids: the digest of the name is a parameter; uniqueness of ids and "the primary is an enabled admin" are
  not kept by the code.
- Authentication, listing, and the migration of old account files.
