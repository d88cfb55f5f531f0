# Models and proofs for idefix-go

This project models the parts of idefix-go that keep state, parse text or rewrite data in
place, and proves what they promise. All files are verified together:
`dafny verify dfyconfig.toml`.

## What is modelled

**The durable event pipeline** (`eventpipe`). A producer unlocks all events of its source,
then loads up to 100 unlocked events at a time, locks each and injects it, fetches new
events from the service, pushes them to storage and saves the cursor. Any number of workers
per stage run the closure that `EventSource.Push` builds.

* `Protocol.dfy` is the pipeline as a state machine over storage, items in flight, feed
  position and producer phase. A step label fixes every choice of the environment: which
  worker moves, what its stage answers, which storage call fails, when the process stops or
  dies. A run is a sequence of labels, so a statement about all runs is a statement about
  all interleavings, failures and restarts.
* `History.dfy` says what the log of a run tells about an event; `Invariant.dfy` has the
  inductive invariant, one lemma per step; `Safety.dfy` draws the conclusions for whole runs,
  and `Contents.dfy` says what becomes of each answer of a stage.
* `Cursors.dfy` says how each step moves the reading position, the stored cursor and the
  pushed events. `CursorSafety.dfy` concludes that no event is skipped, `Replay.dfy` and
  `Rerun.dfy` when an event is pushed and processed again.
* `Runs.dfy` and `Drive.dfy` build runs, with at most two items in flight; `Exclusion.dfy`
  uses them to show exactly when two items of one event are worked on in memory.
* `StageClosure.dfy` is the closure as imperative code, proved to be a run of worker steps.
* `Fifo.dfy` is the queue with lock bits that storage stands for. `Table.dfy`,
  `Backends.dfy` and `Equivalence.dfy` show that the memory back end (a counter) and the
  SQLite back end (max + 1 of the remaining rows) both refine it and when they agree.
  `Histories.dfy` tells queue, cursor and listings by the positions of the operations in a history.
  `MemoryStorage.dfy`, `SqliteStorage.dfy` and `EventsStorage.dfy` are the code.

**Publish/subscribe** (`minips`). `Minips.dfy` has topic lists as slices over backing
arrays, so that removing a channel while ranging over the list shifts the slots that are
still to be visited. `Removal.dfy` says what that leaves, `Topics.dfy` which topics a
publication visits, `Delivery.dfy` what each buffer gets, and `Bus.dfy` what holds in every run.

**Typed values in nested maps** (`normalize`). The decoder and the encoder replace keys of
the map they range over. `DecodeTypes.dfy` and `EncodeTypes.dfy` visit the keys in any order
and may or may not visit inserted ones. `Visits.dfy` is one such loop as a function of the
order, and `Outcomes.dfy` the relation between a nested map and all it can be decoded to, with
one order for each map in it; the loop is proved against this relation for every map.
`Collision.dfy` shows exactly when there is one outcome, and `Normalize.dfy` gives it as a
function of the map when no text before a ':' is repeated.

**Expressions** (`eval`), **chunked upload** (`os.go`) and **error text** (`errors`) are in
`Eval.dfy`, `Upload.dfy` and `Errors.dfy`, over the text functions of `Text.dfy`; `Meaning.dfy`
says what each operator of an expression answers.

## Assumptions

* Stage names and their order are the same in every run of a pipeline, and a stage does not
  change the UID of its event.
* Decoding an encoded pipeline context and encoding it again changes nothing
  (`Protocol.Proper`). Event bodies may change each time they go through storage.
* For the memory back end, no item of a pushed event is being worked on
  (`Protocol.CalmRun`). `Exclusion.DistinctIsCalm` shows that this holds of every run over a
  feed without repeated events, and `Exclusion.MemoryExclusionExactly` that mutual exclusion
  needs such a feed. SQLite needs no such assumption: the insert fails on the primary key and
  the run stops. The theorems on cursors and repeated pushes (`CursorSafety.RunInv`,
  `Replay.PushedTwiceWasInterrupted`) need it for neither back end.
* The memory back end is lost with its manager: in the model no run follows the end of a run
  in memory, and another process is another run over an empty store. SQLite goes on with what
  is stored.
* Deletes may fail, since the closure ignores their error, and a worker may fail at any point
  while the producer goes on. `Safety.NoEventForgotten` names the events this happened to.
* `put` never blocks in the model, so that it has more runs than the code. A statement about
  all runs is not weakened by that. The runs that are shown to exist (`Exclusion`, `Rerun`) put
  an item only while at most one other is in flight (`Drive.Goes`); a stage with one worker
  and a buffer of one, as `eventpipe/event_source.go:63-64` sets them, takes both.
* base64, gzip and duration text are inverse pairs (`Normalize.Lawful`), and the chunk hash
  is injective where content, not only its hash, is claimed (`Upload.Injective`).

## Where the code and its description differ

* `eventpipe/event_source.go:28-30` says that `ContinuationID` is used if no cursor is
  found. The first push of a source stores an empty cursor
  (`eventpipe/storage/storage_sqlite.go:344`, `eventpipe/storage/storage_memory.go:86-89`).
  If the first batch is interrupted after that, the next run, over SQLite, finds the empty
  cursor and asks for events from `Since`, not from `ContinuationID`. `CursorSafety.CursorSafeExactly` gives
  the exact condition under which nothing can be skipped: the position `Since` stands for is
  at most one past the position of `ContinuationID`.
* `eventpipe/README.md:100` promises to resume from the exact point where processing stopped.
  That is so for stored events (`Safety.ResumeAfterCrash`), but not for a batch of which the
  cursor was not saved: its events are pushed again and go through all stages again, even if
  they were completed. `Rerun.ReplayExactly` gives the exact condition for each pushed event,
  `Rerun.InterruptedBatchRunsAgain` a run in SQLite, and `Replay.PushedTwiceWasInterrupted` the
  converse. Over runs that interrupt no batch each event is pushed once
  (`Replay.PushedOnce`) and no completed stage is called again
  (`Replay.CompletedStageNeverRecalled`).
* In memory an event that the service sends twice replaces the stored one and clears its
  lock, so that two items of it can be processed at a time
  (`Exclusion.RepeatedEventOverlaps`, `Exclusion.MemoryExclusionExactly`).
* An error of a worker cancels nothing by itself: an event it holds stays locked, without an
  item, until the next run unlocks it (`Safety.FailureLeavesLocked`). `Safety.NoEventForgotten`
  says exactly which events are in this state.
* `unregisterChannelSafe` removes a channel exactly if it is listed at most once
  (`Removal.UnregisterExactly`); `unregisterChannelFromAll` also if the list ends with it
  (`Removal.UnregisterAllExactly`). With `[c, c, x]` both leave `[c, x]`.
* `Publish` reaches the subscribers of `""` twice exactly for the topic `""` and for a dot
  followed by a well-formed topic (`Topics.VisitedOnceExactly`).
* `Parse` reads back what `Error` prints exactly if the message is not empty and has no
  parenthesis (`Errors.RoundTripExactly`).
* What `DecodeTypes` leaves in a map can depend on the order of iteration, its own or that of a
  map inside. There is one result if and only if some deciding key (a suffixed one, or a plain
  one that no suffixed key replaces) fails whatever the orders inside its value, or every key
  is decoded whatever these orders and the keys that decide one text have one result between
  them (`Collision.OrderFreeExactly`). `k:bytes` next to `k:string` is an input
  (`Collision.TwoKeysCollide`), and so is this map inside another (`Collision.TwoKeysInside`).
* `EncodeTypes` keeps every entry, at every depth, if and only if it sends no plain key to
  another key of its map (`EncodeTypes.EncodeKeepsExactly`); otherwise the entry there is lost
  (`EncodeTypes.ClashLosesEntry`). Decoding gives an encoded map back if and only if no key
  had a ':' (`EncodeTypes.RoundTripExactly`).
* An upload of empty data runs `cat` without files, so that the file gets the standard input
  of the remote shell, and succeeds exactly if that is empty or the file was
  (`Upload.FileWriteInChunks`).

## Model

| member | source | states |
|---|---|---|
| Safety.MutualExclusion | eventpipe/event_source.go:210-224 | In every reachable state an event has at most one active item, and it is stored and locked, whatever the interleaving and after any failure, stop or crash. |
| Safety.StorageCallsFindTheirEvent | eventpipe/event_source.go:133-161 | Worker storage calls always meet their event; the producer only locks events that are stored, unchanged and unlocked. |
| Safety.NoEventForgotten | eventpipe/event_source.go:198-250 | While the producer is in its loop, an event that is locked and not about to be put has no active item if and only if this run lost it: `put` dropped it, its delete failed, or the worker that held it failed, and it was not pushed anew since. |
| Safety.FailureLeavesLocked | eventpipe/event_source.go:120-123 | An error of the worker that holds an event leaves it stored and locked without an item, and the producer where it is. |
| Safety.LostStep | eventpipe/event_source.go:133-161 | Which steps lose an event and which restore it. |
| Safety.ResumeAfterCrash | eventpipe/event_source.go:198-224 | In SQLite, ending a run anywhere, then unlocking all and loading, gives the same queue in the same order with every active item's context stored, so at most the answer of the call in progress is lost. |
| Safety.FlagsAreAPrefix | eventpipe/event_source.go:102-112 | The stages flagged for a stored event are an initial segment without the last stage. |
| Safety.FlagsNeverReset | eventpipe/event_source.go:143-152 | A flag stays set from any state of a run to any later one unless the event is pushed anew. |
| Safety.CompletedStageNotRecalled | eventpipe/event_source.go:107-112 | A stage that completed an event is never called for it again, over all restarts, unless the event is pushed anew. |
| Safety.CalledInOrder | eventpipe/event_source.go:102-123 | A stage is called only for an event that every earlier stage has completed since it was pushed. |
| Safety.StageSeesLastContext | eventpipe/event_source.go:113-120 | A stage gets the pipeline context that was stored last for the event, by this or an earlier run, or an empty one if there is none. |
| Contents.AnswerIsStored | eventpipe/event_source.go:124-161 | In every run, when a stage's answer is committed, the stored event has the body and pipeline context the stage gave, or the body it got and an empty context, and its flag; the item is handed on with the same, to the next stage or to the unlock. |
| Contents.NextCallSeesAnswer | eventpipe/event_source.go:113-143 | The next call for the event, in this run or a later one, gets the context the stage gave, once recoded. |
| Contents.AnswerDecides | eventpipe/event_source.go:133-161 | After an answer the event can only be deleted if the stage asked for removal or the last stage completed it, and can only be stored otherwise. |
| Contents.DeleteTakesOut | eventpipe/event_source.go:133-138 | A delete takes this event out and leaves the others. |
| Contents.UnlockReleases | eventpipe/event_source.go:152-158 | An unlock leaves the event as it is stored, unlocked. |
| Contents.PutShowsStored | eventpipe/event_source.go:216-224 | A loaded event comes to the first stage with the body and context stored for it. |
| Contents.ReloadIs | eventpipe/event_source.go:267-271 | A context read back keeps its flags, and its pipeline context is recoded if there is one. |
| Contents.LoadTakesUnlocked | eventpipe/event_source.go:211-215 | Loading takes an event if and only if it is unlocked and fewer than 100 unlocked ones are before it, in their order. |
| Safety.Conservation | eventpipe/event_source.go:133-161 | Every event ever pushed is stored, or left because a stage that was called asked for removal, or because the last stage completed it after all earlier ones. |
| Safety.MemoryOverwrite | eventpipe/storage/storage_memory.go:96-110 | A push over a stored event in memory keeps every active item's event locked, and keeps the invariant, if and only if no item of that event is active. |
| Exclusion.RepeatedEventOverlaps | eventpipe/storage/storage_memory.go:96-110 | For every feed with a repeated event there is a run in memory, never with more than two items in flight, that ends with two active items of that event. |
| Exclusion.MemoryExclusionExactly | eventpipe/storage/storage_memory.go:96-110 | In memory all runs over a feed keep at most one active item per event, if and only if the feed repeats no event from the start on. |
| Exclusion.DistinctIsCalm | eventpipe/event_source.go:230-247 | In memory, over a feed of distinct events, no push meets an item that is being worked on. |
| Invariant.StepInv | eventpipe/event_source.go:88-250 | Every step of producer, workers, service, failure, stop and crash keeps the invariant. |
| Invariant.LeaveInv | eventpipe/event_source.go:133-161 | An item that leaves with its event unlocked, deleted or given up keeps the invariant for all others. |
| Invariant.CommitInv | eventpipe/event_source.go:143-161 | Storing context and flags keeps the invariant for the item and all others. |
| Invariant.DeleteInv | eventpipe/event_source.go:133-138 | Deleting a finished event keeps the invariant. |
| Invariant.ReachedInv | eventpipe/event_source.go:88-250 | The invariant holds after every run from an empty store over any feed. |
| Cursors.StepMoves | eventpipe/event_source.go:230-247 | A push takes the event at the reading position and moves it on by one; a save puts the stored cursor there; no other step moves either, but for where a run begins to read. |
| CursorSafety.RunInv | eventpipe/event_source.go:204-247 | If an empty cursor stands for at most one past the start, all events up to the stored cursor and up to the local position have been pushed, in every run, also one that could not read its cursor. |
| CursorSafety.CursorSafeExactly | eventpipe/event_source.go:204-247 | The stored cursor never runs ahead of the pushes in any run over any feed if and only if an empty cursor stands for at most one past the start. |
| CursorSafety.FirstPushRun | eventpipe/storage/storage_memory.go:82-90 | A first run stopped after its first push leaves an empty stored cursor and one pushed event. |
| CursorSafety.NothingLost | eventpipe/event_source.go:230-247 | Every feed event between the start and the stored cursor is stored, was removed by a stage, or went through all stages. |
| Replay.PushedTwiceWasInterrupted | eventpipe/event_source.go:230-247 | Over a feed of distinct events, an event pushed twice was in a batch given up after its push, or a run began without reading the stored cursor. |
| Replay.RefusedWasInterrupted | eventpipe/storage/storage_sqlite.go:349-360 | SQLite refuses a push only of an event this happened to. |
| Replay.PushedOnce | eventpipe/event_source.go:230-247 | Over a feed of distinct events, in every run that interrupts no batch, each event is pushed at most once and no push is refused. |
| Replay.CompletedStageNeverRecalled | eventpipe/event_source.go:107-112 | In such runs a completed stage is never called again, over all restarts. |
| Rerun.ReplayExactly | eventpipe/event_source.go:204-247 | In every reachable state, a pushed event can be pushed again and be taken through the stages from the first one, if and only if the back end is SQLite and the event does not lie behind the stored cursor. |
| Rerun.GoAgain | eventpipe/event_source.go:198-247 | In SQLite such an event is pushed and called for again by a run that puts one item at a time. |
| Rerun.InterruptedBatchRunsAgain | eventpipe/event_source.go:236-247 | In SQLite, a process that dies after the first push of a batch of two: a run in which the first stage completes the event and is then called for it again. |
| Rerun.NeverAgain | eventpipe/event_source.go:204-247 | However the run goes on, an event behind the reading position and, for SQLite, behind the stored cursor is not pushed again. |
| History.NoRerun | eventpipe/event_source.go:107-112 | In every legal log a completed stage is called again only after a new push. |
| History.StoredWitness | eventpipe/event_source.go:143-152 | Each completed stage of an event was stored as processed after the event's last push. |
| StageClosure.EventSource.Push | eventpipe/event_source.go:61-170 | A stage is added under its name, or one made of the number of stages; a name in use is refused and nothing changes. |
| StageClosure.GeneratedNamesDiffer | eventpipe/event_source.go:71-73 | Stages without a name never clash with each other. |
| StageClosure.GeneratedNameIs | eventpipe/event_source.go:71-73 | Such a name is "__s" and the number of stages before it. |
| StageClosure.EventSource.RunStage | eventpipe/event_source.go:89-164 | One call of the closure, with any answer and any failing storage call or recoding, leaves the store and item that a run of worker steps of the protocol leaves; and what it stores, hands on and answers is told by the answer of the stage. |
| StageClosure.EventSource.Settle | eventpipe/event_source.go:127-163 | The part after the stage's answer: the event is deleted, or stored with the body, context and flag of the answer and unlocked or handed on, or left as it was on a failure, as the protocol's steps do. |
| Fifo.SelectPartitions | eventpipe/storage/storage_memory.go:199-291 | The locked and the unlocked listing share the queue out between them. |
| Fifo.ListingExactly | eventpipe/storage/storage_memory.go:199-291 | An entry is in a listing by lock bit if and only if it matches and fewer than the limit match before it, 100 for a limit of 0 or less, and it stands at that place. |
| Fifo.UnlockShrinks | eventpipe/events_storage.go:195-201 | Unlocking a locked entry makes the locked listing shorter by one. |
| Table.QueueFind | eventpipe/storage/storage_memory.go:154-197 | The queue of a table holds exactly its items, found by id. |
| Table.QueueAscending | eventpipe/storage/storage_memory.go:174-177 | The queue of a table is in strictly increasing order index. |
| Table.InsertIsPush | eventpipe/storage/storage_memory.go:92-110 | An item with an index above all others is an entry at the end of the queue. |
| Table.UpdatedQueue | eventpipe/storage/storage_memory.go:132-138 | Updating an item changes its entry in place. |
| Table.WithLockQueue | eventpipe/storage/storage_memory.go:293-327 | Locking or unlocking an item sets the bit of its entry in place. |
| Table.RemoveIsDelete | eventpipe/storage/storage_memory.go:143-152 | Removing an item removes its entry and keeps the order of the others. |
| Table.OverwriteIsDeletePush | eventpipe/storage/storage_memory.go:96-110 | Pushing over an item moves it to the end of the queue, unlocked. |
| Backends.MemKeepsValid | eventpipe/storage/storage_memory.go:75-152 | In memory the order indices of a source stay distinct, positive and below its next index. |
| Backends.MemRefines | eventpipe/storage/storage_memory.go:75-327 | Every operation of the memory back end acts on each source's queue as the queue operation does. |
| Backends.MemStatus | eventpipe/storage/storage_memory.go:115-327 | In memory exactly updates, locks and unlocks of missing items are errors. |
| Backends.SqlKeepsValid | eventpipe/storage/storage_sqlite.go:329-431 | In SQLite the order indices of a source stay distinct and positive, and every row has its source. |
| Backends.SqlRefines | eventpipe/storage/storage_sqlite.go:329-431 | Every statement acts on each source's queue as the queue operation does; a repeated push changes no queue. |
| Backends.SqlStatus | eventpipe/storage/storage_sqlite.go:329-431 | In SQLite exactly repeated pushes and updates of missing items are errors. |
| Equivalence.MemRunRefines | eventpipe/storage/storage_memory.go:75-327 | Over every history the memory back end stands for the queue of that history. |
| Equivalence.SqlRunRefines | eventpipe/storage/storage_sqlite.go:329-431 | Over every history the SQLite back end stands for the queue of that history. |
| Equivalence.BackendsAgree | eventpipe/storage/storage_sqlite.go:349-360 | After every history of fresh pushes and any other operations both back ends give the same listings under every limit, and the same cursors. |
| Equivalence.AnswersAgreeExactly | eventpipe/storage/storage_sqlite.go:394-418 | Next to such a history the answers differ exactly for a repeated push and for locking or unlocking a missing item. |
| Equivalence.RepeatedPushAgreesExactly | eventpipe/storage/storage_sqlite.go:357-360 | A repeated push leaves both back ends with the same queue exactly when it repeats the last entry, unlocked and unchanged. |
| Equivalence.MemIndexCounts | eventpipe/storage/storage_memory.go:92-94 | In memory the k-th push to a source gets index k, so none is reused, and GetIndex is the highest ever given. |
| Equivalence.IndexAgreesExactly | eventpipe/storage/storage_sqlite.go:314-327 | GetIndex of SQLite is at most that of memory, and equal exactly if no delete ever took the newest entry. |
| Histories.QueueIs | eventpipe/storage/storage_memory.go:75-327 | After any history an entry is there if and only if the last push or delete of its id is a push; data and context are those of the last push or update; it is locked if and only if the last push, lock or unlock is a lock. |
| Histories.OrderIs | eventpipe/storage/storage_memory.go:92-110 | Entries stand in the order of their last pushes. |
| Histories.MemCursorIs | eventpipe/storage/storage_memory.go:56-90 | In memory the cursor is the one last stored for the source; without one it is empty if anything was pushed to the source, and missing otherwise. |
| Histories.SqlCursorIs | eventpipe/storage/storage_sqlite.go:270-347 | The same for SQLite. |
| Histories.BackendsShow | eventpipe/storage/storage_sqlite.go:270-431 | Both back ends hold the queue and the cursor that the positions of the operations tell. |
| Histories.ListingsAre | eventpipe/storage/storage_memory.go:154-291 | GetItems shows the first entries, GetLocked and GetUnlocked the first locked and unlocked ones, 100 unless the limit is positive. |
| MemoryStorage.MemoryStorage.Push | eventpipe/storage/storage_memory.go:75-113 | The shared item objects change as the push of the back end's value says, with an empty cursor for a new source. |
| MemoryStorage.MemoryStorage.Update | eventpipe/storage/storage_memory.go:115-141 | Data and context of an existing item are replaced in place; a missing one is an error. |
| MemoryStorage.MemoryStorage.Delete | eventpipe/storage/storage_memory.go:143-152 | The item is gone and the rest is unchanged. |
| MemoryStorage.MemoryStorage.Lock | eventpipe/storage/storage_memory.go:293-309 | The lock bit of an existing item is set and nothing else changes. |
| MemoryStorage.MemoryStorage.Unlock | eventpipe/storage/storage_memory.go:311-327 | The lock bit of an existing item is cleared and nothing else changes. |
| MemoryStorage.SortedShowsQueue | eventpipe/storage/storage_memory.go:174-177 | Items in increasing order index, in whatever order they were collected, show the queue. |
| MemoryStorage.ItemsAre | eventpipe/storage/storage_memory.go:180-194 | Each listed item shows source, id, data and context of its entry. |
| MemoryStorage.MemoryStorage.GetItems | eventpipe/storage/storage_memory.go:154-197 | Copies of the first items of the source's queue, 100 for a limit of 0 or less. |
| MemoryStorage.MemoryStorage.GetLocked | eventpipe/storage/storage_memory.go:199-244 | Copies of the first locked items of the queue, in order. |
| MemoryStorage.MemoryStorage.GetUnlocked | eventpipe/storage/storage_memory.go:246-291 | Copies of the first unlocked items of the queue, in order. |
| MemoryStorage.MemoryStorage.GetIndex | eventpipe/storage/storage_memory.go:329-353 | The next index less one, 0 for an unknown source. |
| SqliteStorage.SqliteStorage.GetItems | eventpipe/storage/storage_sqlite.go:433-465 | The first rows of the source by order index. |
| SqliteStorage.SqliteStorage.GetLocked | eventpipe/storage/storage_sqlite.go:467-499 | The first locked rows of the source by order index. |
| SqliteStorage.SqliteStorage.GetUnlocked | eventpipe/storage/storage_sqlite.go:501-533 | The first unlocked rows of the source by order index. |
| EventsStorage.UnlockAllEvents | eventpipe/events_storage.go:190-209 | For either back end, any number of locked items and any failing calls the loop ends, and data, context, order and all other sources are unchanged; without an error no item of the source is locked; if no call fails there is no error. |
| EventsStorage.UnlockSome | eventpipe/events_storage.go:191-206 | One listing and its items: only lock bits of the source go away, as many as were counted, and without an error that is none only if none is locked. |
| EventsStorage.UnlockListed | eventpipe/events_storage.go:196-201 | Unlocking a listing of locked items meets each of them and unlocks exactly those, up to the first error. |
| Topics.ParentIsTheMatch | minips/minips.go:147-166 | The computed parent is the one submatch the splitter expression has on a topic. |
| Topics.VisitsOfWellFormed | minips/minips.go:149-168 | A topic of n non-empty segments visits exactly its n dot-prefixes, longest first, and then "". |
| Topics.VisitedOnceExactly | minips/minips.go:149-168 | No topic is visited twice if and only if the published one is neither "" nor a dot before a well-formed topic. |
| Removal.UnregisterExactly | minips/minips.go:117-132 | The shifting loop leaves the list without the channel if and only if the channel is listed at most once. |
| Removal.UnregisterAllExactly | minips/minips.go:134-145 | Removal from every topic leaves a list without the channel if and only if the channel is listed at most once or last. |
| Removal.UnregisterOne | minips/minips.go:123-127 | A channel listed once is removed and the others keep their order. |
| Removal.DoubledChannelStays | minips/minips.go:117-145 | From [c, c, x] both removals of c leave [c, x]. |
| Delivery.PublishFills | minips/minips.go:170-193 | With open channels only, each gets one copy per registration met as far as it has blocked receivers and room, after what it held, and the count is the total growth of all channels. |
| Delivery.FilledIs | minips/minips.go:183-190 | k attempts on one channel in numbers: blocked receivers first, then the buffer up to its capacity, all after what was there. |
| Delivery.SendAllGrows | minips/minips.go:183-190 | Whatever is closed, a buffer stays within capacity, keeps what it held in order and gets only copies of the element; a closed channel gets nothing. |
| Delivery.ClosedReportsNone | minips/minips.go:170-193 | A list with a closed channel reports no receiver. |
| Bus.RemovalIsExact | minips/minips.go:117-145 | Without repeated registrations, leaving removes exactly the channel, keeps the order of the others and leaves no empty list. |
| Bus.RunKeepsTidy | minips/minips.go:62-87 | Over every run without repeated subscriptions no list is empty, none repeats a channel and none holds a closed one. |
| Bus.PublishInEveryRun | minips/minips.go:149-193 | In every such run no publication meets a closed channel; each channel gets its copies and the count is their number. |
| Bus.MetOncePerTopic | minips/minips.go:183-190 | On such a bus a channel is met once for each visited topic that lists it. |
| Bus.PublishWellFormed | minips/minips.go:149-193 | For a well-formed topic a subscriber gets one copy for each dot-prefix and "" it is subscribed to, as far as it has room. |
| Bus.TwiceSubscribedStaysRegistered | minips/minips.go:83-87 | A channel subscribed twice before another stays registered when it is closed, and the next publication reports no receiver. |
| Minips.Minips.RegisterChannel | minips/minips.go:98-108 | The channel is appended to the topic's list, in place or in a new array, and the other lists keep their slots. |
| Minips.Minips.ShiftSlots | minips/minips.go:125 | Appending the tail over a removed slot shifts it in the same array and leaves the last slot in place. |
| Minips.Minips.UnregisterChannelSafe | minips/minips.go:117-132 | The backing array and the topic map after the loop over the old slice header, for any number of registrations. |
| Minips.Minips.SweepTopic | minips/minips.go:138-144 | The slots and list one topic is left with, when removals shift the array the loop is reading. |
| Minips.Minips.UnregisterChannelFromAll | minips/minips.go:134-145 | All lists after removal from every topic, in any order of topics. |
| Minips.Minips.UnregisterChannel | minips/minips.go:110-115 | The lists after removal from one topic. |
| Minips.Minips.PublishTopic | minips/minips.go:170-193 | Buffers and count after sending down one list, with a closed channel ending it and reporting 0. |
| Minips.Minips.Publish | minips/minips.go:149-168 | Buffers and count after sending to every visited topic in turn; the loop ends for every topic. |
| Minips.Subscriber.Subscribe | minips/minips.go:62-71 | Registers on each topic in turn; a closed subscriber registers nothing and gets an error. |
| Bus.SubscribedIs | minips/minips.go:67-69 | After subscribing, the list of each topic is the old one followed by the channel as many times as the topic was named. |
| Bus.SubscribedTopics | minips/minips.go:67-69 | The topics with a list are those that had one and the named ones. |
| Bus.SubscribedIsRun | minips/minips.go:62-71 | Subscribing to several topics is a run of the bus. |
| Minips.Subscriber.Unsubscribe | minips/minips.go:73-77 | Leaves each topic in turn. |
| Bus.UnsubscribedIs | minips/minips.go:73-77 | Each time a topic is named one removal is done on its list, and other lists stay. |
| Bus.UnsubscribedOnce | minips/minips.go:73-77 | A channel registered once leaves the named topics and no other, and the others keep their order. |
| Bus.UnsubscribedIsRun | minips/minips.go:73-77 | Leaving several topics is a run of the bus. |
| Bus.StepIs | minips/minips.go:62-87 | What each step does to each list of a tidy bus and to the closed channels. |
| Minips.Subscriber.Close | minips/minips.go:83-87 | Leaves every topic and closes the channel, keeping what it buffers; a second close panics after that. |
| Normalize.CleanIsFixed | normalize/normalize.go:33-45 | A nested map without ':' in its keys is decoded to itself. |
| Outcomes.OutcomeIsClean | normalize/normalize.go:142-143 | No key of a decoded map has a ':' at any depth. |
| Outcomes.DecodeTwice | normalize/normalize.go:33-145 | Decoding a second time changes nothing, whatever the orders. |
| Outcomes.DistinctOutcome | normalize/normalize.go:33-145 | If no map repeats the text before the first ':', at any depth, the only outcome is that of a function of the map. |
| Outcomes.SomeOutcome | normalize/normalize.go:33-145 | Every value has an outcome. |
| DecodeTypes.DecodeTokens | normalize/normalize.go:44-141 | The decoders named in the key are applied last first, up to the first error. |
| Normalize.TimeToken | normalize/normalize.go:88-93 | time reads a number of milliseconds: ms becomes the instant of ms * 1,000,000 nanoseconds. |
| Normalize.DurToken | normalize/normalize.go:79-87 | dur reads a duration text; what is not text or not a duration is an error. |
| Normalize.B64Token | normalize/normalize.go:94-101 | b64 decodes text to bytes, and leaves what is not text. |
| Normalize.HexToken | normalize/normalize.go:102-109 | hex decodes text to bytes, and leaves what is not text. |
| Normalize.BytesToken | normalize/normalize.go:110-115 | bytes turns text into bytes; anything else is an error. |
| Normalize.StringToken | normalize/normalize.go:116-121 | string turns bytes into text; anything else is an error. |
| Normalize.GzipToken | normalize/normalize.go:122-136 | gzip decompresses bytes; anything else is an error. |
| Normalize.TransToken | normalize/normalize.go:47-77 | What begins with trans( transposes bytes; anything else is an error. |
| Normalize.UnknownToken | normalize/normalize.go:137-139 | Any other decoder is an error. |
| Normalize.AnyCase | normalize/normalize.go:46-47 | Decoders are named without regard to case. |
| DecodeTypes.VisitKey | normalize/normalize.go:34-144 | A visit replaces the entry by its decoded value under the text before the first ':' and touches nothing else. |
| DecodeTypes.DepthOf | normalize/normalize.go:33-38 | Every value has a depth, so that the bound the recursive loops are given excludes none. |
| DecodeTypes.DecodeTypes | normalize/normalize.go:33-145 | For every nested map and every order of visits in each map, inserted keys included, result and failure are an outcome of the map. |
| Collision.OrderFreeExactly | normalize/normalize.go:33-145 | All orders of visits, of the map and of every map inside, give one result, failure included, if and only if some deciding key fails whatever the orders inside, or all keys decode whatever these orders and the keys that decide one text have one result between them. |
| Collision.InsideCounts | normalize/normalize.go:35-38 | A map under a plain key that nothing replaces brings its dependence on the order along. |
| Visits.LastWins | normalize/normalize.go:142-143 | The value of the deciding key visited last is the one that stays. |
| Collision.ResultsDiverge | normalize/normalize.go:142-143 | Two different results of keys that decide one text: each stays in some outcome. |
| Collision.MayFail | normalize/normalize.go:33-145 | A key that may fail, with no deciding key that must: one outcome is an error and another is not. |
| Visits.SuffixedFirst | normalize/normalize.go:33-145 | If all deciding keys decode, the order with suffixed keys first succeeds. |
| Visits.FinalIsDecided | normalize/normalize.go:142-143 | After all visits each text has the value of a key that decides it. |
| Visits.InOrderTracks | normalize/normalize.go:33-145 | After any visits each entry is an untouched one, or the value of a visited suffixed key, or of a plain key that no suffixed one has replaced. |
| Collision.TwoKeysCollide | normalize/normalize.go:106-118 | For every k, k:bytes and k:string in one map: all keys decode and the result depends on the order. |
| Collision.TwoKeysInside | normalize/normalize.go:35-38 | The same map inside another one that repeats no text: the result depends on the order. |
| EncodeTypes.EntryRoundTrip | normalize/normalize.go:153-199 | Every scalar is decoded from its encoded key and value, times cut to milliseconds, under all options. |
| EncodeTypes.WritesTime | normalize/normalize.go:188-190 | An instant is written under :time as the number of whole milliseconds, ms * 1,000,000 <= ns < (ms + 1) * 1,000,000. |
| EncodeTypes.WritesDur | normalize/normalize.go:185-187 | A duration is written as text under :dur. |
| EncodeTypes.WritesBytes | normalize/normalize.go:166-184 | Bytes are compressed if asked for, long enough and made shorter by it, and written as base64 if asked for; the key says which. |
| EncodeTypes.WritesOthers | normalize/normalize.go:166-195 | Other values are written as they are, under their own key. |
| EncodeTypes.TruncatedIs | normalize/normalize.go:190 | A round trip cuts an instant to the greatest multiple of 1,000,000 ns not after it, keeps the keys of maps, and leaves other values. |
| EncodeTypes.RoundTrip | normalize/normalize.go:153-199 | For every nested map without ':' in its keys, decoding what was encoded gives it back, times cut to milliseconds, and prefixes are distinct so that no order matters. |
| EncodeTypes.RoundTripExactly | normalize/normalize.go:153-199 | Decoding what was encoded can give a nested map back if and only if none of its keys has a ':', and then every order does. |
| EncodeTypes.EncodeKey | normalize/normalize.go:154-195 | A visit moves an entry to its new key; entries with a ':' in the key that are not maps stay. |
| EncodeTypes.EncodeTypes | normalize/normalize.go:153-199 | For every map and every order of visits the result is a function of the map and the options. |
| EncodeTypes.EncodeKeepsExactly | normalize/normalize.go:154-195 | Every entry is kept under its new key, at every depth and no two under one, if and only if no plain key is sent to another key of its map. |
| EncodeTypes.ClashLosesEntry | normalize/normalize.go:190-195 | A plain key whose new name is in the map already takes its place, and that entry is lost. |
| Eval.GetEnvValueWalks | eval/eval.go:124-140 | Looking a key up is walking its dot-separated segments, for every key, and always ends. |
| Meaning.FieldIs | eval/eval.go:139 | A name without dots is the field of that name, or missing. |
| Meaning.NestedFieldIs | eval/eval.go:129-137 | A dotted name descends into a map; in anything else there is nothing. |
| Meaning.NumbersCompare | eval/eval.go:183-225 | Each of the six operators on numbers and truth values matches exactly when the comparison of the two values holds. |
| Meaning.TextsCompare | eval/eval.go:183-225 | Each of the six operators on texts matches exactly when the comparison in dictionary order holds. |
| Meaning.BareIsEq | eval/eval.go:175-181 | A bare value means $eq. |
| Meaning.Incomparable | eval/eval.go:181-272 | Missing fields, maps as operands, values of different kinds and unknown operators give their error codes. |
| Meaning.InIs | eval/eval.go:230-294 | $in is membership and $nin its opposite. |
| Meaning.InErrors | eval/eval.go:274-283 | $in and $nin need a list and a field. |
| Meaning.RegexIs | eval/eval.go:242-264 | $regex matches a pattern against a text, with its error codes. |
| Meaning.ExistsIs | eval/eval.go:354-367 | $exists matches exactly when the field is there. |
| Meaning.ConstantsAre | eval/eval.go:105-108 | $true matches and $false does not, whatever comes with them. |
| Meaning.NotIs | eval/eval.go:338-352 | $not exchanges match and no match and passes errors on. |
| Meaning.OrIs | eval/eval.go:369-404 | $or matches at the first item that matches, fails at the first error, and does not match if no item does. |
| Meaning.AndIs | eval/eval.go:369-404 | $and matches if all items do; otherwise it answers as the first that does not. |
| Meaning.NorIs | eval/eval.go:369-404 | $nor matches if no item does, does not at the first that matches, and fails at the first error. |
| Meaning.UnknownOperator | eval/eval.go:108-113 | A name beginning with $ that is no operator is an error reported with it. |
| Meaning.OneKeyEach | eval/eval.go:93-95 | An expression, and the map of an operator, have one key. |
| Eval.DoubleNegation | eval/eval.go:338-352 | $not of $not E is E, in code and identifier. |
| Eval.NorIsNotOr | eval/eval.go:369-404 | $nor L is $not of $or L, for every L, errors included. |
| Eval.AndIsNotOrNots | eval/eval.go:369-404 | $and is $not of $or over the negated items, with errors, early exits and identifiers. |
| Eval.EvalAppend | eval/eval.go:375-396 | Over two lists in a row the second is looked at only if the first went to its end. |
| Eval.Flatten | eval/eval.go:369-404 | A nested $and or $or of the same kind may be spliced into the outer list. |
| Eval.SameIdentifiersSameOutcome | eval/eval.go:92-122 | Environments that agree on the identifiers of an expression give the same code and identifier. |
| Eval.EvalCtx.Run | eval/eval.go:92-122 | The evaluator with its mutable identifier computes the outcome of the functional one, whose answers the rows of Meaning give operator by operator. |
| Eval.EvalCtx.RunList | eval/eval.go:369-404 | The list loop with its early returns computes the outcome of the functional one. |
| Eval.InLoop | eval/eval.go:274-294 | A match means the element is in the list, no match that it is not; comparing two maps or two lists panics. |
| Upload.ChunksTile | os.go:208-217 | The chunks in their files, read in order of offset, are the data. |
| Upload.ChunkPathInjective | os.go:216 | Chunks at different offsets have different files. |
| Upload.OffsetsAre | os.go:208 | Chunks begin at the multiples of the chunk size and reach the end of the data. |
| Upload.PieceIs | os.go:209-214 | A chunk has the chunk size, or what is left at the end, and the data from its offset on. |
| Upload.NamesAndSizes | os.go:185-216 | The name of a chunk's file, and 512 KiB if no chunk size is given. |
| Upload.SendChunk | os.go:219-239 | A chunk is sent unless a file with its hash is there; success means its hash is there; with working calls there is no mismatch. |
| Upload.SendChunks | os.go:208-240 | Only chunk files change; with working calls all chunks are in place and exactly the missing ones were sent, whatever files an earlier upload left. |
| Upload.Join | os.go:242-262 | Success means the file has the hash of the data; with all chunks in place the file gets exactly the data. |
| Upload.RemoveAll | os.go:264-269 | Only chunk files go, and on success all of them. |
| Upload.FileWriteInChunks | os.go:184-272 | Whatever fails, other files are untouched, and success means that the file has the hash of the data and that either nothing had to change or no chunk file is left; if no call fails and hashing is injective, the upload of non-empty data succeeds from every starting state, sends exactly the missing chunks and removes all of them. |
| Errors.GroupsComplete | errors/errors.go:97-98 | A text has at most one match, and it is found. |
| Errors.ParseExactly | errors/errors.go:96-116 | Parse gives an error value exactly when the text matches the expression with it and the code fits. |
| Errors.RoundTripExactly | errors/errors.go:49-116 | Parse reads back what Error prints if and only if the message is not empty and free of parentheses; code and extra are arbitrary. |
| Errors.IsSurvivesText | errors/errors.go:63-79 | Going through text, with any extra, does not change which errors are the same. |
| Errors.IsExactly | errors/errors.go:63-79 | Two errors are the same exactly if their codes are; any other error exactly if its text is that of an error with this code. |
| Errors.CodesAre | errors/errors.go:105-108 | Exactly the integers of 64 bits are codes. |
| Errors.PrintsAs | errors/errors.go:49-61 | The printed form with and without message and extra text. |
| Errors.ParsesAs | errors/errors.go:96-116 | The parts of a text with and without an extra text. |
| Errors.NotErrors | errors/errors.go:96-102 | Texts that do not begin with a bracket, or lack the space or the numeral, or have a parenthesis in the message, are errors. |
| Text.PrintIntInjective | os.go:216 | Different integers are printed differently. |
| Text.LowerIs | normalize/normalize.go:46 | Capital letters become the small ones, and nothing else changes. |

## Left out

- Safety.MutualExclusion: for the memory back end, runs in which an event is pushed while one of its items is being worked on are left to Exclusion.MemoryExclusionExactly, which shows that they break it.
- Replay.PushedOnce: over feeds that repeat no event; a service that sends an event twice is covered for memory by Exclusion.
- DecodeTypes.DecodeTypes: maps are values, so two keys that share one nested map are not modelled, and what a failed decoding leaves in the map is not stated.
- Upload.FileWriteInChunks: the path is one word for the remote shell and not itself one of the chunk paths; file modes, timeouts and directories are not modelled.
- Minips.Minips.PublishTopic: the receiving side is not modelled; a channel is its buffer, capacity, closed flag and number of blocked receivers.
- Eval.EvalCtx.Run: JSON parsing, the clock values of setBaseEnv and not-a-number are not modelled; numbers are reals and the match of $regex is a parameter.
- EventsStorage.UnlockAllEvents: a call of SQLite that fails changes nothing; a failure of the memory back end's calls does not occur.
- The producer loop appears as steps of the protocol, not as a method, because workers move between its storage calls.
- Two producers of the same source at the same time; the source starts one.
- Timers, contexts, the scheduler of go-pipeline and the size of its buffers, which the order of steps replaces.
- Message encoding: msgpack, parsing of events and the functions around them (encodeMsi, decodeMsi, normalizeMap) are the two recoding functions of the protocol's configuration.
- SQLite connection, migrations, files, transactions that fail half-way and Drop; queries are their effect on rows.
- Wrap-around of the 64-bit next index, and the order index on listed copies, which the Item interface does not show.
- The difference between a nil and an empty byte slice.
- The trans(...) decoder is an unknown function on byte slices, and the slice panic on the bare token "trans(" is not modelled.
- Lower-casing of non-ASCII text, and invalid UTF-8 in regular expressions.
- MQTT connection, login, streams, the command line tools, message hooks, and decoding of binary states and its schema cache.
