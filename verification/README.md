# Proofs about the registry, the transcript stream and the WebSocket tap

A Dafny model of four parts of the repository, with proofs of what each
promises. `dafny verify dfyconfig.toml` checks the whole project.

**The registry replica** (`crates/doc/src/registry.rs`). A last-writer-wins row
table with tombstones, a queue of unacked batches replayed over it for every
read, a compactor that rewrites the unsent part of the queue, server frames,
acks, reconnects and a monotone clock. `Rows` is the merge and the coalescing
of two operations; `History` what runs of operations keep; `Notifications` what
the room makes of a queue (rows and push notifications); `Compaction` why one
fold is invisible and exactly when it is heard; `Compactor` the pass that
folds; `Folds` exactly which operations it folds; `Heads` what it never
touches; `QueueBound` what one compaction leaves of a row; `Offline` how long
the queue can get; `Hlc` the clock, restarts included; `Pending` what pending
operations show of a re-seeded row; `Replica` the class `RegistryDoc`; `Cursor`
a state machine of one replica, one room and the link between them.

**The transcript stream** (`transcript_delta.rs`, `transcript_resume.rs`).
`Frames` applies a frame to a held copy, and `FramesExact` says exactly when
one is accepted; `Diff`, `DiffLeast` and `DiffExact` are the engine's diff,
exactly what it carries and exactly when applying it is right; `Resume`,
`ResumeLeast` and `ResumeExact` the same for the catch-up frame of a client
that kept a copy; `Session` whole runs of resets, diffs, lost updates and
resumes with digests.

**The message writer** (`parts.rs`, `schema.rs`). `Fold` folds agent events
into parts, and `FoldExact` says what the parts show of the events; `Stream`
and `StreamExact` write the differences into document containers; `Utf8` and
`Split` cut an oversized message into entries.

**The WebSocket tap** (`delay_proxy.rs`). `Tap` reads frames as bytes arrive;
`TapExact` says it reports exactly the messages that were sent, however the
bytes were cut (sections 5.2 to 5.5 of RFC 6455).

Code that changes state in place is a class or a method with loops, proved
against a specification function (`RegistryDoc`, `FoldPass`, `TranscriptCopy`,
`DiffTranscript`, `ResumeFrame`, `Client`, `Accumulator`, `SegmentWriter`,
`Splitter`, `Tap`); the properties are lemmas about those functions.

## What the code does that its documentation does not say

- `docs/registry-sync.md:87-88` says that applying any operation again is a
  no-op. `RepushIdempotentIff` gives the exact condition: the row the queue
  left must reject every operation of it. It does if every operation landed
  when it first arrived and nothing revived the row since
  (`RepushIsIdempotent`), where landing means that an update found a live row
  and that an upsert has a field under its own clock. Without either the
  re-push can change the row: an update that found no row lands once another
  device created it (`LateUpdateLands`), an upsert whose fields all carry older
  clocks revives a row that an older delete buried (`BuriedUpsertRevives`), and
  after a delete and a narrower revival an old upsert brings back old fields
  (`RevivalForgetsOldWrites`).
- `crates/doc/src/registry.rs:843-846` says that the compacted queue yields the
  same notifications. `FoldKeepsNoticesIff` gives the exact condition for one
  fold, on the freshness of the row before, of the folded write and of the
  write that absorbs it at the two moments the room applies them. It fails in
  two ways. A row of the run can go stale between the two moments: then a
  notification gets lost (`FoldLosesNotice`) or is sent without cause
  (`FoldAddsNotice`). And `updatedAt` comes from the engine's wall clock
  (`crates/engine/src/sessions.rs:2861`, `2961-2980`, `3032`), which can step
  back: then the later write can be the staler one, and a notification gets
  lost at one and the same moment (`FoldMissesOlderTouch`). A whole pass is
  silent while no waiting write of the session goes stale and none is stale
  while an earlier one is fresh (`Steady`).
- `crates/doc/src/registry.rs:62-63` says that no clock is handed out twice,
  even across a restart. That holds for the newest saved state. The host saves
  with a delay (`crates/engine/src/workspace_host.rs:26-27`), so an older state
  can be loaded, and then a clock and a batch id can come a second time
  (`ReloadReissues`, `ReloadRenames`); `ClocksIncreaseIff` and
  `FirstIdPastLostIff` give the condition.
- `docs/registry-sync.md:94-96` calls the re-seed lossless. Present fields and
  their clocks come back, the clocks of deleted fields and of an earlier
  deletion do not: `SeedForgetsIff` says which later operations the re-seeded
  row accepts and the original would have rejected.
- `docs/registry-sync.md:97-98` says that unpushed writes always replay over
  what the server returns. On a row that the state frame makes the client
  re-seed, reads can change. An update queued first finds no row and is not
  shown; an upsert that the deletion of a field had outdated shows its value
  again (`DeletedFieldResurfaces`); behind a pending delete and revival the
  re-seed brings back old fields. `PendingReadsIff` says exactly when the row
  reads as before, whatever is pending, from the row the queue makes of what
  the frame left; `PendingWritesSurviveIff` says it field by field for pending
  writes of any clocks, `PendingDeleteSurvivesIff` for a queue with a delete.
- `docs/registry-sync.md:84` says that a delete lands if it is newer than the
  row's tombstone clock. For a live row the code compares it with every clock
  of the row, and so does the model.
- The repair of a wiped room relies on the room being behind the client. When
  a wiped room has counted past the old cursor before the client returns, the
  delta does not repair (`WipedRoomOvertakes` is such a run);
  `DeltaRestoresIff` gives the condition on what the room stamped since.
- `diff_transcript` is not exact for every reordering (`SwappedPairsNotExact`),
  nor for an entry that grows its text and changes its duration, origin or
  provider turn in one step (`GrowthHidesOtherChange`); `DiffApplyExactIff`
  gives the condition.
- A flush of a streaming message loses what `update_part_fields` cannot clear:
  a diff a later result takes back, or a part an image replaced under the same
  id. `FlushExactIff`, `FoldKeepsIff` and `LossIsExact` give the condition.

## Model

| member | source | states |
|---|---|---|
| Rows.MaxClock | crates/doc/src/registry.rs:122-130 | the newest of all clocks on the row, tombstone included; none if the row carries none |
| Rows.ChangedIffDifferent | crates/doc/src/registry.rs:174-258 | the merge reports a change if and only if the stored row differs afterwards, a row still missing included |
| Rows.OverwriteTwice | crates/doc/src/registry.rs:325-335 | two field loops in a row equal one field loop over the merged writes with their original clocks |
| Rows.CoalesceParts | crates/doc/src/registry.rs:310-355 | a coalesced operation keeps the row, fits the room's budget, writes exactly the fields of both and every write keeps its original clock |
| Rows.CoalesceExact | crates/doc/src/registry.rs:294-355 | whenever two operations coalesce, the result has exactly the effect of both in order on every row: live, tombstoned or missing |
| Rows.RefusalNecessary | crates/doc/src/registry.rs:301-323 | a pair refused although neither deletes cannot be expressed by any single operation: each one disagrees on some row |
| History.StepKeepsWellFormed | crates/doc/src/registry.rs:90-130 | every reachable row: a tombstone has no fields and no field clocks, every present field has a clock and is not null |
| History.HighWaterNeverFalls | crates/doc/src/registry.rs:122-130 | no operation lowers the newest clock of a row |
| History.HighWaterOverRuns | crates/doc/src/registry.rs:122-130 | no run of operations lowers the newest clock of a row |
| History.DeleteAbsorbed | crates/doc/src/registry.rs:174-207 | a delete that was applied is a no-op when applied again after any later operations |
| History.ReplayedOpIsNoOp | crates/doc/src/registry.rs:174-258 | an operation that was applied is a no-op after any later run that does not revive the row, if it found the row live or carries its own clock |
| History.RepushIsIdempotent | docs/registry-sync.md:87-88 | pushing a whole applied queue again leaves the row unchanged if every operation landed and none after it revived the row; landing: an update found a live row, an upsert has a field under its own clock |
| History.ReapplyNoOpIff | crates/doc/src/registry.rs:174-258 | on any row, missing, live or tombstoned, an operation of any kind changes nothing if and only if the guards of the merge reject all of it |
| History.ReplayNoOpIff | crates/doc/src/registry.rs:174-258 | a list of operations leaves a row unchanged if and only if each of them alone does: changes never cancel out |
| History.RepushIdempotentIff | docs/registry-sync.md:87-88 | pushing a queue again is a no-op if and only if the row it left rejects every operation of it |
| History.LateUpdateLands | docs/registry-sync.md:87-88 | a counterexample without revival: an update that found no row, another device's upsert, the update again |
| History.BuriedUpsertRevives | docs/registry-sync.md:87-88 | a counterexample: an upsert without a field under its own clock, an older delete, the upsert again revives the row |
| History.RevivalForgetsOldWrites | docs/registry-sync.md:87-88 | a counterexample: upsert, delete, narrower upsert, then the first upsert again brings back a stale field |
| History.SeedRestores | crates/doc/src/registry.rs:259-292 | a re-seed applied where the row is missing restores liveness, every present field and its original clock |
| History.SeedForgetsIff | docs/registry-sync.md:94-97 | a re-seeded live row accepts a later operation the original would have rejected if and only if it is a delete newer than every present field but not than the row, or old writes that name a deleted field; it never rejects what the original would accept |
| History.SeededTombstone | crates/doc/src/registry.rs:262-275 | a re-seeded tombstone rejects exactly what the original did |
| History.SeedKeepsOwnRow | crates/doc/src/registry.rs:259-292 | a re-seed applied over the row it was made from changes nothing a reader sees |
| Notifications.NonGatingKeepsView | crates/doc/src/registry.rs:378-389 | a chat operation that does not gate never changes what a session notification sees of the chat |
| Notifications.GatesIff | crates/doc/src/registry.rs:378-389 | the rule is exact: an operation gates if and only if under it some chat looks different to a session notification |
| Notifications.NoticeIff | web/packages/app/src/lib/notifications.ts:43-98 | which notification a change of a session earns: it fails, or starts to wait for input, or else, while recent, completes another turn |
| Notifications.HeldAfter | crates/doc/src/registry.rs:843-846 | in the middle of a single writer's queue the row shows the newest write the room has, whichever part of the queue it had applied before |
| Notifications.PrefixHeld | crates/doc/src/registry.rs:848-852 | a room that applied any prefix of the queue, as before a re-push, is one the notification results cover |
| Notifications.RunFoldsIff | crates/doc/src/registry.rs:837-846 | two touches of one signal, judged at any two times and with update times in any order, send together what the last one alone sends at the second time if and only if the freshness of the three views around them adds up |
| Compaction.FoldKeepsRow | crates/doc/src/registry.rs:833-836 | folding an operation into the row's next one leaves every row as it was, over any server truth |
| Compaction.FoldKeepsNoticesIff | crates/doc/src/registry.rs:836-846 | with every batch applied at its own time, whatever the update times and the times of the room, one fold sends the same notifications if and only if it folds no session row, or the room knew the folded write, or the freshness of the row before, the folded and the absorbing write adds up |
| Compaction.FoldLosesNotice | crates/doc/src/registry.rs:843-846 | a counterexample: the touch that reported a waiting session is folded into one applied a millisecond after it went stale |
| Compaction.FoldAddsNotice | crates/doc/src/registry.rs:843-846 | a counterexample: the run head goes stale between the two times and the folded touch sends a notification of its own |
| Compaction.FoldMissesOlderTouch | crates/engine/src/sessions.rs:2961-2980 | a counterexample at a single moment: the wall clock stepped back, the absorbing touch is stale and the folded one, which would have reported the session, is not |
| Compaction.FoldKeepsNotices | crates/doc/src/registry.rs:836-846 | for a session of one writer, over a room that holds any part of its writes, at any times while no waiting write goes stale and none is stale while an earlier one is fresh: the folded queue sends the same notifications in the same order, and stays such a queue |
| Compaction.FoldKeepsMarks | crates/doc/src/registry.rs:833-842 | for any writer, the order of a session's signals, removals and gating chat operations, repeats removed, is unchanged: no two of different kinds swap |
| Compaction.FoldKeepsSignals | crates/doc/src/registry.rs:841-846 | the sequence of status and completed turn carried by a session's operations, repeats removed, is unchanged |
| Compaction.FoldIsInvisible | crates/doc/src/registry.rs:821-852 | main result of one fold: same rows, same signals, same marks, and a single writer's notifications while its writes are steady in that sense |
| Compaction.DropEmptyTrace | crates/doc/src/registry.rs:924-929 | dropping emptied batches, the others at their times, changes no notification |
| Compaction.ReducedNotices | crates/doc/src/registry.rs:821-852 | what is left of a queue after folding and dropping, each batch at its time, is heard exactly like the whole queue while the session's writes are steady |
| Compactor.Visit | crates/doc/src/registry.rs:874-916 | one step of the pass, loop included, equals the step function whose outcome `Folds.PassFollowsRule` states without it |
| Compactor.FoldPass | crates/doc/src/registry.rs:872-917 | the whole pass equals the function whose outcome `Folds.PassFollowsRule` states without it |
| Folds.PassFollowsRule | crates/doc/src/registry.rs:872-917 | for every queue the pass folds the latest operation left of a row into its next one if and only if both stand alone in their batches, coalesce, and: a session operation continues its run behind the head and passes no gating chat operation, a gating chat operation passes no operation of its session; contents, marks and count follow |
| Compactor.PassIsInvisible | crates/doc/src/registry.rs:821-852 | whatever the pass folds, rows, signals and marks stay, and a single writer's notifications while its writes are steady; multi-operation batches keep every operation in place; a batch that changed content is marked; nothing folded means nothing changed |
| Compactor.SqueezeKeepsMarks | crates/doc/src/registry.rs:833-842 | for every queue, a compaction keeps the order of signals, removals and gating chat operations of every session |
| Heads.HeadsStay | crates/doc/src/registry.rs:837-842 | for every queue, the first operation of each run of one signal stays in place, unchanged, in a batch that is not renamed |
| QueueBound.MergeCovers | crates/doc/src/registry.rs:310-335 | a merged operation covers what its parts cover, and is covered by whatever covers both |
| QueueBound.SessionMergesIff | crates/doc/src/registry.rs:888-902 | with no gating chat operation, a session operation absorbs the previous one if and only if both continue one run behind its head |
| QueueBound.SqueezeFree | crates/doc/src/registry.rs:853-945 | a compaction leaves at most one operation of a row no notification waits for, chats touched without gating included, if the size check accepts what merging can make of the row's queued writes |
| QueueBound.SqueezeSession | crates/doc/src/registry.rs:841-846 | under the same condition on the size check, a compaction leaves at most two operations of each run of one signal, and the sequence of signals as it was |
| QueueBound.BudgetFits | crates/doc/src/registry.rs:357-367 | the byte budget accepts everything merging can make of some writes if the largest writes of all their fields fit it together |
| QueueBound.BudgetRefuses | crates/doc/src/registry.rs:357-367 | the same budget refuses any operation with a field above it |
| Offline.RowBound | crates/doc/src/registry.rs:821-824 | over any offline run, however many writes, at most one operation of a row is queued at any moment, if the row is neither session nor chat, or a chat that was only touched without gating or whose session was not written, and the size check accepts what merging can make of the run's writes of the row |
| Offline.SessionBound | crates/doc/src/registry.rs:841-846 | over any offline run without a gating chat operation and under the same condition on the size check, a session has at most two queued operations for each change of its signal, and its signals are those of its writes |
| Hlc.StringOrderIsClockOrder | crates/doc/src/registry.rs:45-61 | below 10^13 ms and with six-digit counters, string order is the order by time, counter, device |
| Hlc.StringOrderBreaksIff | crates/doc/src/registry.rs:50-53 | from 10^13 ms on string order fails: a fourteen-digit time sorts behind an earlier one if and only if that is at most its leading thirteen digits |
| Hlc.RankIsClockOrder | crates/doc/src/registry.rs:45-61 | the integers that stand for clocks in the replica have the same order |
| Hlc.HlcClock.Next | crates/doc/src/registry.rs:71-84 | time and counter after a reading, as the runs take them, and later than before as a string |
| Hlc.TickIsLeast | crates/doc/src/registry.rs:71-84 | the next clock is the least one that is later than the last and not before the reading |
| Hlc.TickAheadIff | crates/doc/src/registry.rs:71-84 | after a load, the next clock is later than the newest ever handed out if and only if nothing was handed out since the save or the wall clock reads later |
| Hlc.RisesIff | crates/doc/src/registry.rs:62-84 | over any run of readings, regressions and loads of older states, clocks strictly increase if and only if each reading found the newest state or a later time |
| Hlc.ClocksIncreaseIff | crates/doc/src/registry.rs:50-84 | the same for one device's clock strings, below 10^13 ms |
| Hlc.NewestStateSuffices | crates/doc/src/registry.rs:62-84 | a process that loads only its newest state needs no condition, whatever the wall clock reads |
| Hlc.ReloadReissues | crates/doc/src/registry.rs:62-63 | a counterexample: read, load the older state, read again at or behind the saved time gives the same clock twice |
| Replica.OverlayRows | crates/doc/src/registry.rs:993-1014 | the one-pass grouped read lists each live row of a kind exactly once, equal to its own replay, and nothing else |
| Replica.GroupQueue | crates/doc/src/registry.rs:993-1003 | grouping the queue by row keeps each row's operations in queue order |
| Replica.UnsentRowReadsAlike | crates/doc/src/registry.rs:652-696 | after any state frame a row the server did not send, with nothing pending, keeps liveness, fields and clocks |
| Replica.OutcomeIff | crates/doc/src/registry.rs:636-696 | a full state counts as a replacement if and only if the server is not behind and has a row for every row the client had; short of a re-seed nothing is re-seeded |
| Replica.FrameLosesNothing | crates/doc/src/registry.rs:636-696 | the same for the replica as a whole: frame, re-seeds and compaction together lose no such row |
| Replica.PendingReadsIff | docs/registry-sync.md:94-98 | any row a full state makes the client re-seed, server ahead or behind, whatever is pending: it reads as before if and only if the guards of the merge say so of the row the queue makes of what the frame left |
| Replica.PendingWritesSurviveIff | docs/registry-sync.md:97-98 | a live row a full replacement lacks, with pending writes of any clocks and no delete: reads keep everything if and only if, field by field, a leading update that showed wrote what shows anyway and otherwise no older pending write resurfaces; the row reads like its queue without leading updates if and only if none resurfaces |
| Pending.DeletedFieldResurfaces | docs/registry-sync.md:97-98 | a counterexample: a pending upsert at clock 5 of a field deleted at clock 10 is hidden before the frame and shows after the re-seed |
| Replica.PendingDeleteSurvivesIff | docs/registry-sync.md:97-98 | any queue with a delete newer than the row and all before it: reads agree if and only if the row is not revived or every old field that no later write reaches is as it was |
| Replica.PendingRevivalIff | crates/doc/src/registry.rs:262-292 | any re-seeded row with a pending delete and revival of newer writes: the re-seed brings back each old field the revival left out, so reads agree if and only if it wrote them all |
| Replica.PendingUpdateSurvivesIff | docs/registry-sync.md:97-98 | one pending update of any clock is shown if and only if it wrote nothing new |
| Replica.RegistryDoc.constructor | crates/doc/src/registry.rs:479-490 | an empty replica that satisfies the invariant |
| Replica.RegistryDoc.NextHlc | crates/doc/src/registry.rs:776-779 | a clock above every earlier one, whatever the wall clock reads |
| Replica.RegistryDoc.FoldOp | crates/doc/src/registry.rs:557-562 | server truth becomes the replay of the operation for its row and stays as it was for every other |
| Replica.RegistryDoc.Requeue | crates/doc/src/registry.rs:924-942 | emptied batches go, a batch that changed content takes an id never used before, every other one is queued again under its own id |
| Replica.RegistryDoc.CoalesceUnsent | crates/doc/src/registry.rs:853-945 | every batch up to the last in flight is untouched, every row reads the same, the rest is the reduced queue, and no id ever names two operation lists |
| Replica.HeadBatchStays | crates/doc/src/registry.rs:837-842 | the batch of a run head comes out of a compaction as it went in, id included |
| Replica.UnitStays | crates/doc/src/registry.rs:829-832 | so does a batch written as a unit |
| Replica.RegistryDoc.Chunked | crates/doc/src/registry.rs:801-818 | operations are queued in order under fresh ids, in batches that are neither empty nor above the room's limit |
| Replica.ChunksExact | crates/doc/src/registry.rs:801-818 | the batches hold the operations in order, and all but the last are full |
| Replica.DeletesShown | crates/doc/src/registry.rs:959-975 | a row that is named is deleted once under the clock, however often it is named; any other is left alone |
| Replica.RegistryDoc.EnqueueOps | crates/doc/src/registry.rs:781-820 | every row shows the operations on top at once, in flight or local-only alike; in-flight batches stay |
| Replica.RegistryDoc.Write | crates/doc/src/registry.rs:947-957 | one write under a fresh clock, shown at once; with nothing in flight it is a step of an offline run |
| Replica.WriteOffline | crates/doc/src/registry.rs:947-957 | a run of such writes is an offline run, so the bounds of `Offline` are about it |
| Replica.RegistryDoc.DeleteRows | crates/doc/src/registry.rs:959-975 | exactly the named rows are deleted under one fresh clock, shown at once, every other row reads as before; up to the batch limit the deletes are queued together in one batch that stays one |
| Replica.RegistryDoc.ApplyState | crates/doc/src/registry.rs:636-696 | outcome, cursor, server truth and what every row shows after a delta, a full replacement, or a server that fell behind |
| Replica.RegistryDoc.ApplyRows | crates/doc/src/registry.rs:707-719 | rows always land; the cursor moves only to the next position and never across a gap |
| Replica.RegistryDoc.AckBatch | crates/doc/src/registry.rs:733-742 | retires exactly the operations ever pushed under that id, or nothing; the cursor stays |
| Replica.RegistryDoc.TakePushable | crates/doc/src/registry.rs:745-754 | hands out exactly the batches not in flight, in order, each under the only operations its id ever names; no read changes |
| Replica.RegistryDoc.MarkDisconnected | crates/doc/src/registry.rs:757-761 | everything unacked is pushable again; no read changes |
| Replica.RegistryDoc.SetLocalOnly | crates/doc/src/registry.rs:523-552 | entering folds the whole queue and leaves every read unchanged; leaving after local writes queues a re-seed of every row |
| Replica.RegistryDoc.ToSnapshot | crates/doc/src/registry.rs:568-586 | a snapshot that can be loaded again, with nothing in flight |
| Replica.RegistryDoc.FromSnapshot | crates/doc/src/registry.rs:588-632 | a load of any saved state, the newest or not, batches of any length included: keeps rows and reads, resets the cursor of an old epoch, compacts the queue, names new ids above the saved clock, and continues from the saved clock if nothing was folded |
| Replica.FirstIdPastLostIff | crates/doc/src/registry.rs:71-84 | after a load of an older state the first id passes every id lost since if and only if the wall clock reads later than the newest of them |
| Replica.FirstIdAfterLoad | crates/doc/src/registry.rs:588-632 | the same for a replica that was loaded with nothing to compact and then reads its clock |
| Replica.PastLostStays | crates/doc/src/registry.rs:733-761 | once past the lost ids, no id ever names two operation lists, lost ones included |
| Replica.ReloadRenames | crates/doc/src/registry.rs:62-63 | a counterexample: without that, one id can name two operation lists |
| Cursor.NextKeeps | crates/doc/src/registry.rs:698-742 | every step of replica, room and link keeps the cursor invariant |
| Cursor.CursorIntegrity | crates/doc/src/registry.rs:721-742 | over every run of deltas, full states, broadcasts with gaps and acks, each row last changed at or below the cursor equals the server's |
| Cursor.ReconnectRestores | crates/doc/src/registry.rs:700-706 | a delta from the cursor restores full agreement, whatever was missed |
| Cursor.ConnectedKeepsUp | crates/doc/src/registry.rs:707-719 | since any connect on which no frame was lost, once everything under way has arrived the cursor is at the room's latest batch and every row of the room is at the client |
| Cursor.DeltaRepairsIff | docs/registry-sync.md:94-96 | one row under a delta is the room's afterwards if and only if it is stamped above the cursor or was there already |
| Cursor.DeltaRestoresIff | docs/registry-sync.md:94-96 | over every run, wipes included, a reconnect answered by a delta restores agreement if and only if since the last wipe no batch at or below the client's cursor stamped a row that still stands and that the client lacks |
| Cursor.SoundHasUncarried | crates/doc/src/registry.rs:721-742 | before any wipe, and once a full state has followed one, that condition always holds |
| Cursor.WipedRoomOvertakes | docs/registry-sync.md:94-96 | a run from the start on which a wiped room overtakes the cursor and the delta leaves a row missing below it |
| Cursor.OptimisticReadsComeTrue | crates/doc/src/registry.rs:977-1014 | what the overlay shows is what the room holds once it has applied the queue |
| Frames.TranscriptCopy.Apply | crates/doc/src/transcript_delta.rs:280-353 | the copy after a frame equals the function that `FramesExact.DeltaAcceptedIff` characterises, refusals included |
| FramesExact.DeltaAcceptedIff | crates/doc/src/transcript_delta.rs:280-353 | a delta is accepted, and leaves a list, if and only if the surviving entries lead there by upserts that each find their anchor and appends that each find entry and text part and reach the announced length, and the list has the announced count; else it is refused |
| FramesExact.AcceptedCount | crates/doc/src/transcript_delta.rs:344-349 | an accepted delta announces exactly the entries it leaves alone plus those it upserts |
| FramesExact.OtherCountRefused | crates/doc/src/transcript_delta.rs:344-349 | a copy with another number of entries the delta does not mention than the engine had is always refused |
| FramesExact.UnmentionedStays | crates/doc/src/transcript_delta.rs:280-353 | an accepted delta leaves each entry it does not mention as it was and drops only what it removes |
| Frames.UpsertShape | crates/doc/src/transcript_delta.rs:300-324 | an upsert whose anchor is present succeeds, lands right behind the anchor and keeps ids unique |
| Frames.UpsertOther | crates/doc/src/transcript_delta.rs:300-324 | where every other entry stands afterwards; none is lost or changed |
| Frames.UpsertOrder | crates/doc/src/transcript_delta.rs:300-324 | other entries keep their order, and the upserted one stands between its anchor and all that followed it |
| Diff.TryTextAppend | crates/doc/src/transcript_delta.rs:175-210 | the loop over the parts finds what `DiffLeast.AppendFoundIff` says |
| DiffLeast.AppendFoundIff | crates/doc/src/transcript_delta.rs:168-210 | an entry goes as an append if and only if, up to duration, origin and provider turn, it is the old one with some text added to one text or reasoning part; the append carries that text and the new length |
| Diff.DiffTranscript | crates/doc/src/transcript_delta.rs:216-271 | the diff loop equals the function that `DiffLeast.DiffIsLeast` states entry by entry |
| DiffLeast.DiffIsLeast | crates/doc/src/transcript_delta.rs:212-271 | for any two lists: nothing for an entry unchanged behind the same one, the added text for one that only grew there, an upsert for every other, the ids that are gone; a reset if and only if at least half of more than four entries are upserted |
| Diff.AppendIffFaithful | crates/doc/src/transcript_delta.rs:168-210 | applying a text append gives the new entry if and only if nothing else changed and the grown part is the first text part of its id |
| DiffExact.DiffApplyExactIff | crates/doc/src/transcript_delta.rs:216-353 | applying a diff gives back the new transcript if and only if it is a reset, or the entries left in place keep their order and every append is faithful |
| DiffExact.SharedOrderSuffices | crates/doc/src/transcript_delta.rs:212-215 | it is exact whenever shared entries keep their relative order and appends are faithful |
| DiffExact.SwappedPairsNotExact | crates/doc/src/transcript_delta.rs:216-271 | for any four entries, swapping two pairs is a reordering the diff gets wrong |
| DiffExact.GrowthHidesOtherChange | crates/doc/src/transcript_delta.rs:175-210 | for any entry that grows one text and changes its duration, origin or provider turn, the diff loses the change |
| Resume.FromHeld | crates/doc/src/transcript_resume.rs:104-124 | a client can ask to resume if and only if every entry it holds has a digest |
| Resume.WalkUpserts | crates/doc/src/transcript_resume.rs:209-234 | the walk with its consumed marks and head equals the function behind `ResumeLeast.ResumeIsLeast` |
| Resume.SplitTail | crates/doc/src/transcript_resume.rs:182-193 | what the engine still has of the tail, and what it must remove, in tail order |
| Resume.ResumeFrame | crates/doc/src/transcript_resume.rs:154-246 | the catch-up frame, refusals included, equals the function that `ResumeLeast.ResumeIsLeast` states |
| ResumeLeast.ResumeIsLeast | crates/doc/src/transcript_resume.rs:154-246 | from held and current transcript alone: no frame if the prefix before the described tail is not shared, or at least half of more than four entries are missing; else what is gone is removed and exactly the entries not in place are upserted, an entry being in place if and only if the client, after the removals, has it unchanged, behind the same entry and as the first one not yet met |
| ResumeLeast.PrefixGetsNew | crates/doc/src/transcript_resume.rs:201-246 | a client that holds a prefix gets exactly the new entries, or a reset if they are at least half of more than four |
| ResumeLeast.UnchangedGetsNothing | crates/doc/src/transcript_resume.rs:201-246 | a client that holds everything gets an empty delta |
| ResumeExact.SkipStep | crates/doc/src/transcript_resume.rs:218-224 | a skipped entry is exactly the next one the client holds |
| ResumeExact.ResumeIsExact | crates/doc/src/transcript_resume.rs:104-246 | under any inserts, removals, edits and reorderings, whenever a frame is returned, applying it to the held copy succeeds and yields exactly the current transcript |
| ResumeExact.SummaryMatchesIff | crates/doc/src/transcript_resume.rs:127-132 | a summary is accepted if and only if the engine's transcript still starts with the client's prefix |
| Session.DigestFrame | crates/doc/src/transcript_resume.rs:304-337 | the digests attached to a frame, against their specification |
| Session.Client.ApplyUpdateDigests | crates/doc/src/transcript_resume.rs:254-297 | the client's digest map after an update, and exactly when it may still resume |
| Session.Client.Receive | crates/ui/src/state.rs:3581-3594 | digests and held entries after one update, and exactly when the update is refused |
| Session.FrameDigestsAt | crates/doc/src/transcript_resume.rs:300-337 | a delta carries the digest of exactly the entries it changes |
| Session.DeltaKeepsDigests | crates/doc/src/transcript_resume.rs:248-297 | a map with exactly one correct digest per entry stays so under a delta with the engine's digests |
| Session.ExactOrEmpty | crates/doc/src/transcript_resume.rs:248-297 | whatever digests come with an update, all, some or none: the map is exact again if each changed entry came with its digest, and else empty and unusable, never stale |
| Session.ResumeCovers | crates/doc/src/transcript_resume.rs:154-246 | a resume frame removes exactly what is gone and upserts everything that is not held unchanged |
| Session.ClientFollowsEngine | crates/doc/src/transcript_resume.rs:248-337 | over any run of resets, diffs, lost updates and resumes the client holds what the engine last sent, or after a loss what it held before until it reconnects, with exactly one correct digest per entry; it can always resume, and a reconnect gives it the current transcript |
| Fold.Accumulator.Fold | crates/doc/src/parts.rs:396-617 | the parts after one event equal the function whose outcome `FoldExact.FoldShows` states over runs |
| FoldExact.FoldShows | crates/doc/src/parts.rs:396-617 | over any run within a turn in which no image takes another part's place, the parts are one for each event that opens one, in order: streamed text or reasoning up to the next opener, the latest call of a tool, resolved with the error flag and diff of the last result since, the chip of the last lifecycle event since, an input resolved if and only if its resolution came since, each error message |
| FoldExact.ReasoningIsStreamed | crates/doc/src/parts.rs:430-445 | the reasoning parts hold exactly the streamed reasoning, in order |
| FoldExact.BoundaryStartsAnew | crates/doc/src/parts.rs:396-410 | after a turn boundary only what follows it counts |
| Fold.FoldKeepsIff | crates/doc/src/parts.rs:396-617 | an event keeps the id, kind and optional fields of every stored part if and only if it is no reset, takes back no diff and puts no image under another part's id |
| Fold.FoldGrows | crates/doc/src/schema.rs:1455-1457 | such an event only ever grows text at its end |
| Fold.TextIsStreamed | crates/doc/src/parts.rs:383-395 | the text parts hold exactly the streamed text in order, however tool calls and reasoning cut it up |
| Stream.StoredPartReadsBack | crates/doc/src/schema.rs:162-398 | a stored part reads back as itself, but an input under its request id, an unusable image as an error, an unresolved tool without error |
| Stream.ImageReadsBackIff | crates/doc/src/schema.rs:373-397 | an image reads back if and only if it has a path, a name and one of four types; any other becomes an error part |
| Stream.RefreshKeepsShape | crates/doc/src/schema.rs:1641-1711 | whatever part a stored one is refreshed with, id and kind stay, no field is cleared, and no text container comes or goes |
| Stream.SegmentWriter.Begin | crates/doc/src/schema.rs:1469-1500 | a streaming entry without parts |
| Stream.SegmentWriter.Resume | crates/doc/src/schema.rs:1507-1528 | reattaching with the mirror continues from the same state; the runs below contain it |
| Stream.SegmentWriter.Sync | crates/doc/src/schema.rs:1548-1613 | a flush, against its specification: stored parts, mirror and inserted text, failure included |
| Stream.SegmentWriter.Finish | crates/doc/src/schema.rs:1617-1630 | a flush, a terminal status and a duration that is never negative |
| StreamExact.SlotIff | crates/doc/src/schema.rs:1641-1711 | one refreshed part is stored as a fresh write would store it if and only if it kept id and kind and took nothing back |
| StreamExact.FlushExactIff | crates/doc/src/schema.rs:1548-1613 | a flush never fails on what the writer wrote, and leaves what a fresh write would if and only if every written part was refreshed without loss |
| StreamExact.StreamingRefinesFolding | crates/doc/src/schema.rs:1447-1457 | however flushes and reattachments interleave with events, after a flush the entry reads as the fold of all events, the reply text is the streamed text, and every text byte was inserted once |
| StreamExact.LossIsExact | crates/doc/src/schema.rs:1455-1457 | right after a flush, one more event and a flush store the fold if and only if the event keeps what is stored |
| Utf8.BoundarySplits | crates/doc/src/parts.rs:778-781 | valid UTF-8 cut where no character spans the cut leaves two valid texts (RFC 3629, sections 3 and 4) |
| Utf8.ValidIff | crates/doc/src/parts.rs:773-781 | the texts the splitter is about are exactly the encodings of sequences of Unicode scalar values (RFC 3629, section 3) |
| Split.FindPieceEnd | crates/doc/src/parts.rs:777-786 | the inner loop, against its specification |
| Split.GuardNeverActs | crates/doc/src/parts.rs:782-786 | a boundary is always found within the cap: the guard for forward progress is never needed |
| Split.PieceIsLongest | crates/doc/src/parts.rs:777-786 | each piece ends at the last boundary within 256 KiB |
| Split.PieceIdsApart | crates/doc/src/parts.rs:787-791 | the first piece keeps the id of the part and no two pieces share one |
| Split.PiecesExact | crates/doc/src/parts.rs:773-804 | the pieces of a text concatenate to it, each non-empty, valid and within the cap |
| Split.SplitParts | crates/doc/src/parts.rs:747-807 | the splitter, against its specification |
| Split.SplitIsLossless | crates/doc/src/parts.rs:740-812 | joining the entries gives back, in order, each part or the numbered pieces of its kind that concatenate to its text |
| Split.SplitIsBounded | crates/doc/src/parts.rs:742-760 | every entry is within the cap, or zero-byte parts before one oversized part without text; no entry is opened before the next part would not fit |
| Split.SplitAgain | crates/doc/src/parts.rs:809-812 | splitting what a split joined to gives the same entries |
| Tap.ParseHeader | crates/engine-client/src/delay_proxy.rs:432-458 | a header is recognised exactly when all its bytes have arrived |
| Tap.Tap.Feed | crates/engine-client/src/delay_proxy.rs:312-324 | feeding bytes has the effect of feeding them one at a time, the HTTP upgrade included |
| Tap.Tap.FeedFrames | crates/engine-client/src/delay_proxy.rs:326-376 | the same for the frame loop, which takes payload in bulk |
| Tap.PayloadFold | crates/engine-client/src/delay_proxy.rs:359-374 | taking payload in bulk equals taking it byte by byte, mask offset and kept prefix included |
| Tap.UpgradeEnds | crates/engine-client/src/delay_proxy.rs:312-322 | the first blank line ends the upgrade, even when it straddles reads |
| TapExact.CutsAgree | crates/engine-client/src/delay_proxy.rs:258-261 | any two ways of cutting one stream leave the tap in the same state |
| TapExact.FeedChunks | crates/engine-client/src/delay_proxy.rs:312-324 | feeding any list of reads leaves the tap in the state the theorems below are about |
| TapExact.MaskTwice | crates/engine-client/src/delay_proxy.rs:362-366 | what the tap makes of a payload is what a sender masks it to, and doing it twice gives it back (RFC 6455, section 5.3) |
| TapExact.XorIsExclusive | crates/engine-client/src/delay_proxy.rs:362-366 | each bit of the unmasked byte is the sum of the bits of wire and mask byte, modulo two |
| TapExact.WireUnmasked | crates/engine-client/src/delay_proxy.rs:362-366 | wire bytes that differ from the payload in exactly the bits of mask byte i modulo 4 are unmasked to the payload (RFC 6455, section 5.3) |
| TapExact.HeaderParses | crates/engine-client/src/delay_proxy.rs:434-458 | every encoded header parses to its length and mask, in any length form that fits (RFC 6455, section 5.2) |
| TapExact.FrameFold | crates/engine-client/src/delay_proxy.rs:326-383 | the bytes of one frame have exactly the effect of the frame on the message being assembled |
| TapExact.ControlIgnored | crates/engine-client/src/delay_proxy.rs:341-345 | control frames between fragments change nothing (RFC 6455, section 5.5) |
| TapExact.TapReadsMessages | crates/engine-client/src/delay_proxy.rs:258-261 | however a connection is cut, the tap reports exactly the text and binary messages sent: opcode, first 256 bytes unmasked, length (RFC 6455, section 5.4) |
| TapExact.LogIsPrefix | crates/engine-client/src/delay_proxy.rs:326-388 | at any moment the reported messages are the first of those sent |

## Left out

- Registry clocks are integers: only their order matters to the merge, and `Hlc` relates the strings to integers. The clock of a row without any clock is a constant.
- Registry values are opaque apart from null and the strings and numbers the notification rule looks at. The size check on a merged operation (`fits_op_budget`) is a parameter of the replica; `WithinBudget` is one such check, with the bytes of a field as a parameter.
- The two-level table by kind and id is one table by pair. Where the code iterates a hash map, the order of rows is arbitrary here.
- The wall clock is an arbitrary reading; the generation counter, logging and serde encodings are not modelled, nor is the refusal of an unknown snapshot version.
- The room: only the merge it shares with the client and its notification rule. The rule is the one `crates/doc/src/registry.rs` documents, as the app's own copy spells it out, without usage limits and pending sends; `edge/src/push-notify.ts` is not part of this model. Tombstone collection, `gcFloor`, presence and the transport are not modelled. That rule is stated for session rows written by one device, with clocks in order, over rooms that hold nothing newer from another device.
- Offline.RowBound: assumes a row no notification waits for, and what the steady-state writers do: no deletes of the row, each upsert covers the fields written before it with newer clocks, and what merging can make of the run's writes of the row fits the budget (`BudgetFits` says when it does).
- Offline.SessionBound: assumes the same of the session row, and no chat operation that gates its notifications.
- FoldExact.FoldShows: assumes that no image takes the place of another part's id; what such an image does is part of `FoldEvent`, and `FoldKeepsIff` says exactly when it happens.
- Replica.PendingWritesSurviveIff: assumes no pending delete and a server that is not behind; a delete newer than all before it is `PendingDeleteSurvivesIff`, and for any other mixture, or a server that fell behind, only `PendingReadsIff` speaks.
- The typed row builders, `seed_from_workspace`, `read_all` and the Loro workspace document: field lists and a foreign library.
- Digest functions are parameters assumed free of collisions; SHA-256, hexadecimal and JSON encodings are not part of this model.
- Context usage, replay baselines, the opening tail and the bounded history window of a transcript.
- Message parts carry the fields the fold writes. A tool's output, inline diff, sidecar references and live tail, which the fold always leaves empty, are not modelled; fork, harness-switch and completion-notice seams are one kind with an opaque body.
- Loro documents are plain containers: lists of parts and texts that are appended to. Convergence between peers, salvage of malformed entries and commits are not modelled. Tool calls, questions and diff statistics are stored as they are, so their JSON round trip is assumed.
- The line diff behind `diff_stat`, `summarize_tool_output` and the list of what `sanitize_tool_call` strips: the last is an arbitrary function on calls in `StreamExact`.
- Split.SplitParts: the serialized size of a part without text is a parameter.
- Tap.Tap.Feed: the tap's timing, the JSON scan for `id` and `method`, and the pairing of replies with calls are not modelled; lengths wrap at 2^64 as in a build without overflow checks.
- `queue.rs`, `commands.rs`, `rebuild.rs`: mostly single-branch edits and checks.
