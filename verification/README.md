# SessionFlow, modelled and proved in Dafny

SessionFlow stores agent memories in Postgres and copies them into a shared Milvus collection and into
one SQLite FTS file per host, and it indexes session transcripts into Milvus and FTS. This project models
the parts of it where correctness is not visible in any one function, and proves what they promise.
`dafny verify dfyconfig.toml` checks everything.

Each module follows one component. Where the source changes state in place, a class carries the operation
out statement by statement and is proved equal to a function on the whole state; the theorems are about
that function.

- **The memory index.** `MemoryStore` (canonical tables, one committed transaction per operation) and
  `StoreInvariants` (what every transaction keeps), `StoreLaws` (what each write leaves in every column).
  `MemoryFts` (one host's file and its watermarks).
  `IndexProtocol` is the state machine of all servers: every event is one statement, transaction or Milvus
  call, any worker may stop between two of them, and `EventKeeps` shows that every event keeps one
  invariant. `IndexGuarantees` draws from it what holds in every run, and `IndexStrays` and `IndexFileStrays`
  what a reconcile in the middle of one can lose, in Milvus and in a file. `MemoryIndex` is one machine's tick,
  reconcile and rebuild; `IndexConvergence` and `IndexRepair` prove where they lead; `IndexRefinement` shows
  that a tick, its calls failing anywhere, is a run of the protocol, and `IndexSchedule` where the ticks of many
  servers lead in any order. `IndexLaws` says what all that comes to in stored columns: admission, contents, one
  call, a reconcile.
- **Runs over two stores that may stop anywhere.** `SessionStores` (rows, titles, deletes), `Rewrite`
  (strip, redact, re-embed and write in place, with pending FTS writes on disk), `RewriteCourse` (what that makes
  of the text at every point of every run) and `Reembed`. On-disk
  state, memory, Milvus, FTS and backup logs are separate fields, and every effect may be the last one: unless
  `calm` is set, a nondeterministic choice may fail or stop the method there, and its postcondition still
  holds. With `calm` set it must do the whole work.
- **Algorithms.** `Audit` (union-find with path halving), `DedupeCodex` (what may be deleted without losing
  a turn), `Collectors` (bounded heaps), `Antigravity` (the protobuf walker), `CodexTasks` and `CodexIndex`
  (rollouts to rows) with `CodexTalk` (round trips of conversations) and `TurnText` (the byte cut),
  `Paging` (keyset pages between writers), `Passages`
  (overlapping windows) and `PassageTitles`, `MemoryImport` (the idempotent importer) with `ImportShared` (over a
  store that already holds some of the texts) and `ImportLaws` (what each record leaves).

## What the proofs assume

- A hash, an embedding and a doc_id are symbolic: they hold what they were made from, so they are injective.
- A `locked_canonical` lock is held until its Milvus call has returned; a Milvus upsert or delete is atomic
  per key; a Postgres or SQLite transaction is one step; versions start at 1.
- In runs of the protocol no one removes strays or rebuilds; what a removal in the middle of one can do is
  in `IndexStrays` and `IndexFileStrays`.
- `reconcile`, `rebuild` and the ticks after them are taken with no other writer.
- No one else writes the documents of a batch between its read and its upsert (`Rewrite`, `Reembed`);
  deletes by others before any batch are part of `Reembed`.
- The embedder is a fixed function of text and title.

## Where a promise has a condition

- The pending count reaches zero exactly when no acknowledgement is ahead in version but behind in
  generation: `is_acked` compares in row order, `pending` componentwise (`memory_index.py:415-417`,
  `memory_store.py:898-905`, `memory_store.py:926-946`). No run of the protocol makes such an acknowledgement
  (`ReachableConverges`); arbitrary tables can hold one.
- Reconcile then ticks repair everything exactly when no wrong Milvus copy comes after a full batch of 256
  records that stay stuck and the capped scan saw every row that lingers without it (`RepairsIff`); a rebuild
  exactly when the scan saw every stray (`RebuildSyncsIff`).
- A reconcile that read the record list before a record was created can lose that record exactly when it is
  live and acknowledged as it now is, or a worker past its locked write is about to acknowledge it
  (`StrayRemoval`); `RecordLost` is such a run. A file that forgets a record under the same race stays wrong
  about it exactly when an acknowledgement of its current version is left or about to be made, and it is live
  or a worker still carries a version from before its deletion (`FileRemoval`).
- A machine may embed exactly when no model is named and its claim agrees with its server, or the named model and
  the fingerprint that then stands are its server's (`AdmittedIff`).
- A second add under a topic key replaces the record of the first, except when the first was deduplicated by
  content onto a record without the key (`TopicReplaces`).
- A delete of a turn leaves both stores agreeing exactly when the turn's own row is there or Milvus holds
  nothing under it (`DeleteAgreesIff`): Milvus deletes passages only under a turn it finds, FTS always.
- A fresh rewrite's backup covers every row exactly when no carried-over pending delete still finds its row:
  with one, a run in which nothing goes wrong deletes that row and records nothing (`Rewriter.Restart`,
  `CarriedDeleteLoses`).
- A rewrite that was stopped and resumed rewrites some rows again. Its rows are always some number of rewrites
  of the old ones (`PassedRows`), and once is enough when rewriting replays (`DoneText`, `DoneVector`).
- The vectors a rewrite leaves are free of the batch size exactly when each passage gets one title under both
  sizes (`VectorsIff`); the text always is (`RunText`).
- Ten bytes bound a varint: larger values are refused, and `VarintRoundTrip` is an equivalence.
- A second import over a store that already held some of the texts is silent exactly when those records agree
  in type, agent and the other columns (`SecondImportIff`).

## Where the code and its documentation differ

- `_OldestN` and `_NewestN` are documented to equal sort-and-take of what was seen. They do exactly on streams
  in which no doc crosses another (`HeldIsBestIff`), so always with one time per doc; `TwoTimesReturn` is a
  stream on which they do not.
- `_iter_length_delimited` is documented to raise on a short read. It does unless the field cut short is
  fixed-width and its tag is whole (`CutRaisesIff`).
- `tick` is documented to apply every record whose acknowledgement differs; one that is stuck as above is
  passed over.
- A Codex turn index is documented to survive a rewrite of the rollout. When the first task event comes late it
  does exactly when no user message followed a reply inside an open task (`ExtendsIff`).
- A passage title is documented not to end the title slot early. It can exactly when the project's name holds
  the separator (`SeparatorIff`).

## Model

| member | source | states |
|---|---|---|
| `MemoryStore.Store.Change` | memory_store.py:814-848 | One row changes only where a field really differs; then version, change_seq and updated_at move, a snapshot is written and every acknowledgement of the record goes; `unchanged` otherwise, with nothing written. |
| `MemoryStore.Store.MarkSuperseded` | memory_store.py:850-855 | Every target not yet superseded becomes so, in id order; the loop equals the recursive specification. |
| `MemoryStore.Store.Add` | memory_store.py:686-758 | The statement-by-statement add equals the transaction whose promises `AddKeeps` and `AddColumns` state: invalid target, key conflict, replace by topic key, deduplicate, or create. |
| `MemoryStore.Store.Update` | memory_store.py:760-790 | The update equals the transaction whose promises `UpdateKeeps` and `UpdateColumns` state: not found, wrong project, conflict, unchanged or updated. |
| `MemoryStore.Store.Delete` | memory_store.py:792-812 | The delete equals the transaction whose promises `DeleteKeeps` and `DeleteColumns` state; the row stays as a tombstone. |
| `MemoryStore.Store.RecordAck` | memory_store.py:877-896 | An acknowledgement is stored only for an existing record and only over one that is lower in row order; says whether it was. |
| `MemoryStore.Store.ClearAcks` | memory_store.py:907-924 | Exactly the acknowledgements of the named records and consumer go, and the count is how many went. |
| `MemoryStore.Store.Pending` | memory_store.py:926-946 | The records whose acknowledgement is missing or behind, oldest change first, at most `limit`; only the Milvus consumer is behind by generation. |
| `MemoryStore.Store.Everything` | memory_store.py:984-992 | Every record, tombstones included, oldest change first. |
| `MemoryStore.InSequenceLists` | memory_store.py:926-946 | The listing by change_seq holds each of the records once, in strictly rising change_seq. |
| `MemoryStore.Store.ClaimIndexModel` | memory_store.py:1033-1052 | Where no model is named this one is recorded with its fingerprint; a named one stays, and takes the fingerprint only if it has none and is this model. |
| `MemoryStore.Store.BumpGeneration` | memory_store.py:1054-1067 | The generation rises by one; what the caller leaves out is kept. |
| `StoreInvariants.AddKeeps` | memory_store.py:686-758 | From any valid store: add fails exactly when a supersede target is not a live record of the scope or the two keys are held by different records, and then writes nothing; otherwise the named record is live, in scope and holds the content, the other targets end superseded, and hashes, topic keys, logs, change_seq values and cleared acknowledgements stay as they must. |
| `StoreInvariants.UpdateKeeps` | memory_store.py:760-790 | Update fails exactly on a missing or deleted record, another project, or a hash or topic key another live record of the scope holds; otherwise the row takes exactly the named changes, and the whole invariant is kept. |
| `StoreInvariants.DeleteKeeps` | memory_store.py:792-812 | A delete leaves a tombstone one version on, without acknowledgements, and keeps the invariant. |
| `StoreInvariants.SupersedeKeeps` | memory_store.py:850-855 | Marking any set of live records keeps uniqueness, logs and sequence numbers and touches nothing else. |
| `StoreInvariants.ReplaceKeeps` | memory_store.py:717-734 | A topic-key replacement takes the new content, its own supersede targets end superseded, and no two live records clash. |
| `StoreInvariants.RewriteKeeps` | memory_store.py:814-873 | Storing the next version of a row keeps: log exactly 1..version with the last entry equal to the row, change_seq values unique, acknowledgements of the record gone. |
| `StoreInvariants.RivalsAreClashes` | memory_store.py:768-789 | The locked rows an update refuses on are exactly the live records its result would clash with. |
| `StoreLaws.AddColumns` | memory_store.py:686-758 | What an add leaves, in every column: a created record has all it was added with, the topic key included, and the clock where no time is given; a replaced one takes all of it but keeps its identity, its key and its creation time; a deduplicated one is a live record of the scope with the content, and nothing is written; of the rest only the targets change, and only to superseded. A refusal writes nothing and names exactly the unusable targets, or the two holders. |
| `StoreLaws.TopicReplaces` | memory_store.py:717-758 | After a successful add under a topic key, an add of the same scope and key with a content nobody holds replaces the same record, except where the first was deduplicated onto a record without the key: then it creates one. |
| `StoreLaws.AddTwice` | memory_store.py:736-741 | The same add again names the same record and writes nothing. |
| `StoreLaws.UpdateColumns` | memory_store.py:760-848 | Each named column takes its value, a text its hash, and each other one stays; one version on at a later time, without acknowledgements, and no other record changes; or nothing is written because nothing differs, or for exactly the reason given. |
| `StoreLaws.DeleteColumns` | memory_store.py:792-812 | A delete keeps every column but its own marks, and refuses exactly a missing or deleted record or another project. |
| `StoreLaws.ClaimRecords` | memory_store.py:1033-1052 | A claim always ends with a model named, never over another, and says when it sets the fingerprint. |
| `StoreLaws.BumpRecords` | memory_store.py:1054-1067 | A new generation is one more, takes what is named and keeps the rest. |
| `MemoryFts.Index.ApplyRow` | memory_index.py:166-213 | A canonical row is applied with its watermark in one transaction, unless the watermark already holds that version or a later one. |
| `MemoryFts.Index.ForgetRecords` | memory_index.py:223-230 | Rows and watermarks of exactly the named records go. |
| `MemoryFts.Index.Reset` | memory_index.py:158-164 | Every row and watermark goes. |
| `MemoryFts.Index.Watermark` | memory_index.py:215-221 | Whatever deliveries, in any order and however often, made the file, the mark of a record is the highest version among them, and there is none exactly when it was never delivered. |
| `MemoryFts.ApplyAllHoldsNewest` | memory_index.py:166-213 | Whatever the order, delay and repetition of deliveries, each record ends at its newest row: present with its columns, or absent for a tombstone, by the watermark alone and without a lock. |
| `MemoryFts.FileHoldsBest` | memory_index.py:166-213 | After any deliveries the file holds, per record, the first delivery of the highest version. |
| `MemoryFts.ForgetIsOthers` | memory_index.py:223-230 | Forgetting records leaves the file as if only the others had ever been delivered. |
| `IndexProtocol.StepKeeps` | memory_index.py:403-491 | Any next statement of any worker, from any reachable interleaving, keeps the protocol invariant and takes back no record, log entry, stamp or recorded model. |
| `IndexProtocol.EventKeeps` | memory_index.py:403-491 | The same for every event: committed writes, acknowledgement resets, generation bumps, model claims, servers joining and restarting, workers starting, advancing and dying between any two statements. |
| `IndexProtocol.WriteReflects` | memory_index.py:444-472 | The row the locked write stores is the locked version with the embedding of its own text by the model recorded for its generation, and is no older than what Milvus took before. |
| `IndexGuarantees.RunInv` | memory_index.py:403-491 | Every world of every run satisfies the invariant. |
| `IndexGuarantees.AckSound` | memory_index.py:403-491 | In every run an acknowledgement (v, g) means the consumer has taken at least (v, g) and never more than canonical, and holds exactly what its last taken version says. |
| `IndexGuarantees.GuardsAgree` | memory_store.py:877-946 | All stamps ever read of one record form a chain in the product order, so the row comparison in `ack` and `is_acked` agrees with the componentwise test in `pending`. |
| `IndexGuarantees.LateAck` | memory_store.py:877-896 | A late acknowledgement of either consumer never lowers a stored one and ends the pending state exactly when it names the current version, and for Milvus the current generation. |
| `IndexGuarantees.NothingPendingMilvus` | memory_store.py:926-946 | In every run, when nothing is pending Milvus holds exactly the live records at their current version, generation and embedding. |
| `IndexGuarantees.NothingPendingFts` | memory_store.py:926-946 | In every run, when nothing is pending for a host its file holds exactly the live records, column for column. |
| `IndexGuarantees.RunRatchets` | memory_index.py:432-472 | Between any two points of a run the copy of a record never moves back in version or generation, in Milvus or in any file. |
| `IndexGuarantees.DeletedStaysDeleted` | memory_index.py:432-472 | Once a tombstone was applied no delayed worker ever brings the record back, in Milvus or in that file. |
| `IndexGuarantees.RowsStamped` | memory_index.py:403-472 | Whatever edits and model changes fell between embedding and locked write, a Milvus row stamped (v, g) carries version v's columns and the embedding of exactly that text by generation g's model. |
| `IndexGuarantees.ModelsFixed` | memory_store.py:1033-1067 | The model recorded for a generation never changes. |
| `IndexStrays.StrayRemoval` | memory_index.py:624-647 | A Milvus row removed as a stray during a run can leave its live record absent and not pending, in some continuation, exactly when the record is live then and its current version and generation are acknowledged, or carried by a worker that is past the locked write. |
| `IndexStrays.RecordLost` | memory_index.py:624-647 | An instance: a run in which a record is created, indexed and acknowledged after the record list was read; its row is then a stray by that list, and with it gone nothing is pending while Milvus lacks a live record. |
| `IndexStrays.UnackedSweepKeeps` | memory_index.py:645-647 | Where the record has no acknowledgement and no worker is past its locked write, the removal is harmless: the whole protocol invariant holds on, as if Milvus had never taken the record. |
| `IndexFileStrays.FileRemoval` | memory_index.py:653-667 | The same for a host's file, its acknowledgement being reset with the removal or not: some continuation leaves the file wrong about the record with nothing pending exactly when after the removal the current version is acknowledged or about to be, and the record is live, or a worker still carries a version from before its deletion. |
| `IndexGuarantees.AddIsWrite` | memory_store.py:686-758 | Every add is a committed write the protocol admits. |
| `IndexGuarantees.UpdateIsWrite` | memory_store.py:760-790 | Every update is a committed write the protocol admits. |
| `IndexGuarantees.DeleteIsWrite` | memory_store.py:792-812 | Every delete is a committed write the protocol admits. |
| `MemoryIndex.Index.RefreshModelBlock` | memory_index.py:371-381 | Claims the model where that is allowed, and blocks exactly when the model or fingerprint that then stands is not this machine's, which `AdmittedIff` says of the fields stored before. |
| `MemoryIndex.Index.MilvusWrite` | memory_index.py:432-472 | Under the record lock: a tombstone deletes; a changed text or another model writes nothing, the latter sets the block; otherwise exactly the locked row goes in. |
| `MemoryIndex.Index.ApplyMilvus` | memory_index.py:403-430 | One record's Milvus call with the other writers still, for every place it may raise. |
| `MemoryIndex.Index.ApplyFts` | memory_index.py:474-491 | One record's FTS call, for every place it may raise; acknowledged also when the watermark was already there. |
| `MemoryIndex.Index.RunTick` | memory_index.py:592-613 | A tick: the next 256 of each consumer, the file first, Milvus only when not blocked; what each pass took and whether anything was left. |
| `MemoryIndex.Collection.Scan` | memory_index.py:615-622 | All rows, or as many as the scan limit allows. |
| `MemoryIndex.Index.RunReconcile` | memory_index.py:624-670 | Strays go, acknowledgements of exactly the records whose copy shows an error are reset and counted, and the FTS half runs although the Milvus half failed. |
| `MemoryIndex.Index.RunRebuild` | memory_index.py:678-700 | Acknowledgements and dead rows go, then every record is applied again in change_seq order; the record count and each consumer's pending count are reported, Milvus's only when it is not refused. |
| `IndexLaws.AdmittedIff` | memory_index.py:371-381 | A machine is admitted if and only if no model is named and the fingerprint it may claim is none or its server's, or the named model and dimension are its server's and the fingerprint that then stands is none or its server's. |
| `IndexLaws.RefreshRecords` | memory_index.py:371-381 | A refresh names the server's model where none was, never over another, and fills in a fingerprint only for its own model. |
| `IndexLaws.UnnamedConverges` | memory_index.py:371-613 | From every world of every run that names no model, the ticks of an agreeing server record its model and bring both indexes to the live records, column by column. |
| `IndexLaws.SyncedIff` | memory_index.py:440-472 | What it means that the indexes equal canonical: the same live ids, and in each row every column of the record, with the embedding of its text by the server's model at the current generation. |
| `IndexLaws.MatchesColumns` | memory_index.py:440-472 | The same of Milvus in a world of a run, by the recorded model. |
| `IndexLaws.FileMatchesColumns` | memory_index.py:166-213 | The same of a host's file. |
| `IndexLaws.MilvusCallIs` | memory_index.py:403-472 | One Milvus call, in every case and wherever it fails: what it writes in each column, what it acknowledges and what it leaves. |
| `IndexLaws.FtsCallIs` | memory_index.py:474-491 | One FTS call, the same. |
| `IndexLaws.RetriesAre` | memory_index.py:403-452 | Between servers: a worker that finds another text under the lock than it embedded starts over, at most twice, and writes nothing. |
| `IndexLaws.LaggingIff` | memory_index.py:592-613 | A machine lags after a tick exactly when it had found something pending. |
| `IndexLaws.FtsOksAre` | memory_index.py:603-604 | The calls a pass counts are those that did not fail. |
| `IndexLaws.MilvusOksAre` | memory_index.py:606-609 | The same for Milvus. |
| `IndexLaws.ReconcileIs` | memory_index.py:624-670 | A reconcile in stored columns: which rows, marks and acknowledgements go, by what shows as wrong, and that all else stays. |
| `IndexLaws.ReconcileFailsIs` | memory_index.py:624-670 | The same where the Milvus half is refused or fails before or after the strays went: what it leaves alone, and that the file's half is done. |
| `IndexLaws.RebuildRefusedIs` | memory_index.py:678-700 | A rebuild on a refused machine leaves Milvus and its acknowledgements alone and makes the file the live records, all acknowledged. |
| `IndexConvergence.TickKeeps` | memory_index.py:592-613 | A tick whose calls fail anywhere takes exactly the calls that did not fail off the pending records, keeps every other debt owed and breaks no right copy. |
| `IndexConvergence.TicksDrain` | memory_index.py:592-613 | Each failure-free tick takes one batch off each consumer's pending count: the measure of convergence. |
| `IndexConvergence.TicksConverge` | memory_index.py:592-613 | With no writer and no failure, enough ticks leave nothing pending and both indexes equal to the live canonical records. |
| `IndexConvergence.PendingEmptiesIff` | memory_index.py:592-613 | The Milvus pending count reaches zero exactly when no record's acknowledgement is ahead in version but behind in generation. |
| `IndexConvergence.StuckStays` | memory_index.py:415-417 | Such a record stays pending through every tick, since `is_acked` says it is done. |
| `IndexConvergence.ReachableConverges` | memory_index.py:592-613 | From every world of every run no record is stuck, and ticks of one admitted server make Milvus and its file equal to canonical. |
| `IndexSchedule.ScheduleConverges` | memory_index.py:592-613 | From every world of every run and for any number of servers that may claim one model: in any order of their ticks, any of them with failing calls, once the undisturbed ticks cover the Milvus batches and each server's own cover those of its file, Milvus and all the files equal canonical. |
| `IndexRepair.TickMoves` | memory_index.py:592-613 | With stuck records in the way: nothing right goes wrong, a record behind a full batch of stuck ones is never touched, and otherwise progress is made. |
| `IndexRepair.TicksSyncIff` | memory_index.py:592-613 | Ticks alone make the indexes equal to canonical if and only if no wrong Milvus copy stands behind 256 stuck records. |
| `IndexRepair.JammedStarves` | memory_index.py:592-613 | An instance: 256 records acknowledged ahead in version and behind in generation, and one more that no number of ticks brings into Milvus. |
| `IndexRepair.ReconcileSettles` | memory_index.py:624-670 | From arbitrary index contents, acknowledgements and watermarks whose errors show, one reconcile removes every stray and leaves everything wrong owed. |
| `IndexRepair.ReconcileThenTicks` | memory_index.py:624-670 | Self-stabilisation: one reconcile, then ticks, reach both indexes equal to canonical if and only if no record Milvus shows as wrong comes after 256 records that stay stuck. |
| `IndexRepair.ReconcileThenTicksDrain` | memory_index.py:624-670 | With no record left stuck, as many ticks as there are batches of records are enough and nothing stays pending. |
| `IndexRepair.BrokenRepairs` | memory_index.py:624-670 | An instance: an acknowledged record that is in neither index under a watermark that is ahead, and a stray; nothing is pending, and one reconcile with one tick repairs both. |
| `IndexRepair.UnseenStays` | memory_index.py:615-622 | A row that has to go, a stray or an acknowledged tombstone's, and that the capped scan did not return stays in Milvus through the reconcile and every later tick. |
| `IndexRepair.RepairsIff` | memory_index.py:624-670 | One reconcile and ticks reach canonical if and only if the capped scan returned every such row and no wrong record comes after a full batch of stuck ones: both halves of the condition on the state before the call. |
| `IndexRepair.SmallRepairsIff` | memory_index.py:615-670 | A collection within the scan limit is repaired if and only if no wrong record comes after a full batch of stuck ones. |
| `IndexRepair.RebuildSyncs` | memory_index.py:678-700 | From any contents at all, errors showing or not, a rebuild leaves both indexes equal to canonical and nothing pending. |
| `IndexRepair.RebuildSyncsIff` | memory_index.py:678-700 | And the scan being capped, a rebuild reaches canonical if and only if it saw every stray; a tombstone's row needs no scan. |
| `IndexRepair.FileRepairsAlone` | memory_index.py:624-670 | Whatever fails or is refused in Milvus, a reconcile and ticks make this host's file equal to canonical. |
| `IndexRefinement.MilvusCall` | memory_index.py:403-472 | One Milvus call of the machine, stopped where it raises, is a run of one worker of the protocol. |
| `IndexRefinement.FtsCall` | memory_index.py:474-491 | One FTS call of the machine, stopped where it raises, is a run of one worker of the protocol. |
| `IndexRefinement.TickRuns` | memory_index.py:592-613 | A whole tick of one server, its calls failing anywhere, is a run of the protocol from any world with no lock held, so every guarantee above covers it. |
| `IndexRefinement.RunGoesOn` | memory_index.py:592-613 | Ticks of any servers after any run make a longer run. |
| `SessionStores.DeleteAgreesIff` | rag_engine.py:3529-3610 | After a delete of a turn everything under it agrees in both stores exactly when the turn's own row was there or Milvus held nothing under it. |
| `SessionStores.OrphanStays` | rag_engine.py:3529-3610 | An instance: a passage without its turn, equal in both stores, stays in Milvus and goes from FTS. |
| `SessionStores.DeleteTakes` | rag_engine.py:3529-3610 | A delete takes the doc and, with a turn, its passages and nothing else; from Milvus only if the doc is there. |
| `Rewrite.Rewriter.RewriteFtsRow` | rag_engine.py:3247-3292 | Success means the FTS row is the Milvus row's; a failure leaves it old, deleted or new. |
| `Rewrite.Rewriter.DeleteByDocId` | rag_engine.py:3529-3610 | Passages of a turn that is there, the doc's row, then its FTS rows; a stop anywhere leaves a part of that. |
| `Rewrite.Rewriter.RetryOne` | rewrite.py:328-340 | A retried entry that succeeds repairs everything it covers; one that fails stays covered. |
| `Rewrite.Rewriter.RetryFts` | rewrite.py:326-341 | All pending FTS writes are retried in order; what fails again stays on the list, on disk. |
| `Rewrite.RetriesLeave` | rewrite.py:326-341 | The retries take from Milvus what a pending delete finds, with the passages of a turn, and leave every other row. |
| `Rewrite.Rewriter.Backup` | rewrite.py:237-252 | Old documents and vectors reach disk before anything is written over. |
| `Rewrite.Rewriter.LogPending` | rewrite.py:368-376 | Every FTS write of the batch is on the list, on disk, before Milvus changes. |
| `Rewrite.Rewriter.WriteBatch` | rewrite.py:378-385 | With no failure the list is back to what it was before the batch; a failed FTS write leaves its entry; a failed upsert may land any part. |
| `Rewrite.Rewriter.RewriteBatch` | rewrite.py:344-386 | One batch keeps the crash invariant at every effect; finished it has stored what the rules make of the rows as read, dropped the short ones and counted the kept ones. |
| `Rewrite.Rewriter.NextBatch` | rewrite.py:452-476 | A finished batch moves cursor, done and missing by exactly its entries, kept rows and absent rows; a failure or refusal leaves the cursor before it. |
| `Rewrite.Rewriter.Begin` | rewrite.py:427-436 | A fresh run carries pending entries over and starts with empty backups; every guarantee about rows from before the run holds from here when no carried-over delete still finds its row. |
| `Rewrite.Rewriter.Restart` | rewrite.py:326-436 | Begin and one chunk: without a live carried-over delete every lost or changed row has its backup at every effect; with one, and nothing going wrong, that row is gone afterwards with no record of its text or its vector. |
| `Rewrite.CarriedDeleteLoses` | rewrite.py:326-436 | An instance: one row, one pending delete of it, an empty worklist; after the run the row is gone and no backup names it. |
| `Rewrite.Rewriter.PassedRows` | rewrite.py:434-488 | At every effect of a run stopped and resumed anywhere: a row the cursor has passed and that is still there holds its old text rewritten k times, k at least 1, with the vector of the text the last rewrite cleaned under a title its turn's text then had; one that is gone fell short after some number of rewrites. |
| `Rewrite.Rewriter.Batches` | rewrite.py:452-476 | The batch loop of a chunk: it ends at the limit or the end of the worklist unless something failed, and every backup record it adds first names a row that was there. |
| `Rewrite.Rewriter.Run` | rewrite.py:434-488 | At every effect of a chunk each document agrees in both stores or is on the list on disk, and each row's earliest backup record holds its text from before the run; a chunk that reports done leaves no divergence and, where rewriting twice is rewriting once, every worklist row rewritten; one in which nothing goes wrong stops only at its limit or the end and does exactly what the batches specify. |
| `Rewrite.Rewriter.RunAll` | rewrite.py:389-488 | The same over any number of chunks, each stopped anywhere; if nothing goes wrong in the last one the run is done, whatever happened before. |
| `Rewrite.Rewriter.DoneAgrees` | rewrite.py:478-487 | A finished run has no document that differs between the stores, but those that differed before it. |
| `Rewrite.Rewriter.DoneColumns` | rewrite.py:478-487 | Agreement column by column: the same text, issue ids and metadata in both stores, or the doc in neither. |
| `Rewrite.Rewriter.DoneText` | rewrite.py:344-488 | A finished run, whatever stopped it on the way, has each worklist row rewritten once and exactly the short ones dropped, when a cleaned text strips to itself and cleans to itself after the cut. |
| `Rewrite.Rewriter.DoneVector` | rewrite.py:344-488 | Then each rewritten row's vector is of its cleaned text, from before the run or as one rewrite left it, under its turn's title from before or after one. |
| `RewriteCourse.CourseText` | rewrite.py:344-386 | Any number of rewrites of a row is one where rewriting replays, so a row is gone exactly when its first text was too short. |
| `RewriteCourse.TitledNow` | rag_engine.py:1501-1524 | Wherever a run stands, the title a rewrite reads for a passage is that of its turn's old text rewritten some number of times. |
| `RewriteCourse.TextMeans` | rewrite.py:344-386 | What rewriting the text means, said of the rules and the rows alone: which rows go and what the others' text and issue ids are. |
| `Rewrite.BatchText` | rewrite.py:344-386 | A batch leaves every document gone with its turn, rewritten once by the rules, or untouched. |
| `Rewrite.TextCompose` | rewrite.py:452-476 | Batches one after another do to the text what one batch would. |
| `Rewrite.RunText` | rewrite.py:389-488 | Whatever the batch size, a failure-free run leaves the same documents with the same text, issue ids and metadata, for any rules at all. |
| `Rewrite.RunVector` | rag_engine.py:1501-1524 | The vector of each rewritten row is that of its cleaned text under the title its turn had when its batch was read: cleaned in an earlier batch, old in the same or a later one. |
| `Rewrite.VectorsIff` | rag_engine.py:1501-1524 | Two batch sizes leave the same rows, vectors included, if and only if every kept passage whose turn is also on the worklist gets one title under both: its turn is before its batch in both or in neither, or the two titles are equal. |
| `Rewrite.TitlesDependOnBatches` | rag_engine.py:1501-1524 | An instance where they differ: two rows and two batch sizes. |
| `Reembed.Reembedder.AppendBackup` | reembed.py:242-254 | Old vectors reach disk before the upsert; a stop leaves some of them. |
| `Reembed.Reembedder.WriteRows` | reembed.py:461-469 | The rows of a batch end with the embedding of their own text, for a passage under the title its turn's text gives, all other columns as they were; or some of them at a failure, and never unbacked. |
| `Reembed.Reembedder.NextBatch` | reembed.py:455-481 | done + missing equals cursor, in memory and on disk; done rises by exactly the rows still present; a failure leaves the cursor. |
| `Reembed.Reembedder.Run` | reembed.py:437-496 | A chunk, before each batch of which others may delete any docs, keeps at every effect each row as before the run or re-embedded, and each first backup record the vector from before it; no row goes but by those deletes; finished, each row still there has its old columns and the embedding of its old text, for a passage under the title its turn's old text gives. |
| `Reembed.Reembedder.RunAll` | reembed.py:437-496 | Any sequence of stopped, paused and resumed chunks of any sizes, with others deleting docs before any batch of them, ends with those vectors in every row still present, and a last chunk in which nothing goes wrong finishes it. |
| `Reembed.TargetsFixed` | rag_engine.py:1501-1524 | Re-embedding never changes a text a title is read from, so targets do not depend on progress. |
| `Reembed.Reembedder.RowsAre` | reembed.py:437-496 | At every point each row is as it was or embedded again that way, and one the cursor has passed is. |
| `Reembed.UpsertKeeps` | reembed.py:466-469 | An upsert of which any part landed keeps both invariants. |
| `Audit.Forest.Find` | memory_service.py:454-458 | The walk with path halving ends at the element's root and keeps every root; the parents stay acyclic. |
| `Audit.Forest.Join` | memory_service.py:475 | `parent[find(b)] = find(a)` moves exactly the tree of b under the root of a. |
| `Audit.HalvingKeeps` | memory_service.py:455-457 | Pointing an element at its grandparent keeps every root and comes strictly closer to it. |
| `Audit.RootReached` | memory_service.py:454-458 | Following parents from any element reaches its root. |
| `Audit.JoinMatches` | memory_service.py:472-475 | After a join, one root still means connected by the edges so far, both ways. |
| `Audit.WalkKeepsRoot` | memory_service.py:472-475 | Every walk over edges in either direction stays under one root. |
| `Audit.JoinNeighbours` | memory_service.py:473-475 | One record's reports are added, restricted to the project's active ids. |
| `Audit.Clusters` | memory_service.py:468-479 | The clusters are exactly the connected components: two active records share one if and only if a chain of active records leads from one to the other, each reported near its neighbour in the chain or the other way. |
| `Audit.AuditProjects` | memory_service.py:460-479 | The same for every project over one shared parent map. |
| `DedupeCodex.Users` | dedupe_codex.py:121-125 | Each document with a reply maps to whether any Milvus row holds it. |
| `DedupeCodex.DuplicateRows` | dedupe_codex.py:114-140 | With distinct ids: every id returned is of a row given, none twice; a row goes exactly when it repeats a reply that another row's document ends with, that row in Milvus if it is, or when a row with its document comes before it; and every row that goes is said by one that stays, in Milvus if it was. |
| `DedupeCodex.SortKeeps` | dedupe_codex.py:128 | The order is Milvus first, then turn index, then doc_id, and loses no row. |
| `DedupeCodex.NoTurnLost` | dedupe_codex.py:114-140 | For each row a kept row has the same document or one ending in the reply marker and it, in Milvus whenever the row was, even along chains of deleted covering rows. |
| `DedupeCodex.NothingLost` | dedupe_codex.py:114-140 | The same for the rows of a session as given. |
| `DedupeCodex.SecondRunDeletesNothing` | dedupe_codex.py:114-140 | A second pass over what was kept deletes nothing. |
| `DedupeCodex.KeptAreDistinct` | dedupe_codex.py:114-140 | What is kept has no repeats and no assistant-only copy. |
| `DedupeCodex.PlanSession` | dedupe_codex.py:148-182 | A session without a rollout loses exactly those; one on disk nothing until every storable turn of the parse is in Milvus, and then a row exactly when the parse does not yield it and a row of the parse in Milvus covers it; the uncovered ones are counted. |
| `DedupeCodex.CoveredByTexts` | dedupe_codex.py:192-205 | Covered means some covering text holds the whole non-empty reply. |
| `DedupeCodex.CoverStays` | dedupe_codex.py:143-183 | The row that covers a deleted one is itself never deleted. |
| `DedupeCodex.PlanIs` | dedupe_codex.py:148-182 | What is missing, stale and uncovered, each said of the rows and the parse alone. |
| `DedupeCodex.ReplyIs` | dedupe_codex.py:186-189 | The reply of a turn is what follows its first marker, stripped, without the mark of a cut. |
| `DedupeCodex.ReplyOfOther` | dedupe_codex.py:186-189 | Any other document is its own reply. |
| `Antigravity.ReadVarint` | provider_antigravity.py:26-42 | The shift-and-or loop reads the base-128 value, raising past the data and past ten bytes. |
| `Antigravity.VarintRoundTrip` | provider_antigravity.py:26-42 | Decoding inverts encoding exactly for values ten bytes hold, wherever the varint stands; larger ones are refused (Protocol Buffers Encoding, Base 128 Varints). |
| `Antigravity.Resume` | provider_antigravity.py:45-85 | The field iterator yields the next length-delimited field, passing over varint and fixed fields, and raises on group, unknown or cut ones. |
| `Antigravity.FirstFieldReads` | provider_antigravity.py:45-85 | A well-formed length-delimited field is yielded whole and any other is passed over (Protocol Buffers Encoding, Message Structure). |
| `Antigravity.FieldReads` | provider_antigravity.py:45-85 | The same for one field of each kind between any bytes. |
| `Antigravity.CutRaisesIff` | provider_antigravity.py:62-85 | After any well-formed fields, a last field cut short raises if and only if it is not fixed-width or the cut is inside its tag; otherwise the iterator just stops. |
| `Antigravity.CutUnnoticed` | provider_antigravity.py:70-72 | An instance: three of the nine bytes of a 64-bit field. |
| `Antigravity.UnknownRaises` | provider_antigravity.py:84-85 | A group or an unknown wire type raises wherever it stands. |
| `Antigravity.ExtractWorkspaceUri` | provider_antigravity.py:149-165 | The first field 1 inside the first field 9 that has one. |
| `Antigravity.WorkspaceReads` | provider_antigravity.py:149-165 | On well-formed bytes that search sees exactly the field 9 payloads, whatever stands between. |
| `Antigravity.DecodeRecord` | provider_antigravity.py:113-146 | The last field 1 with the last field 2's workspace, or nothing when the frame breaks. |
| `Antigravity.RecordReads` | provider_antigravity.py:113-146 | A record is decided by its field 1s and its field 2s alone, however they interleave with each other and with unknown fields. |
| `Antigravity.RecordRoundTrip` | provider_antigravity.py:113-165 | Decoding inverts encoding for records with fields in any order and unknown fields interleaved on every level. |
| `Antigravity.WalkLengthDelimited` | provider_antigravity.py:88-110 | The whole file, record by record; the walk always ends. |
| `Antigravity.SummariesRead` | provider_antigravity.py:88-110 | A well-framed file never fails, whatever its records hold, and gives each record's own pair, later over earlier. |
| `Antigravity.PutAllIs` | provider_antigravity.py:103-110 | For each id the file says what the last record that names it says, and nothing when none does. |
| `Antigravity.RecordIsolated` | provider_antigravity.py:88-110 | Replacing one record's payload by any bytes of correct framing changes only what that record itself says. |
| `CodexTasks.Task.AddUser` | provider_codex.py:107-111 | Before a reply the message is the request; after one it is a part of its own. |
| `CodexTasks.Task.AddReply` | provider_codex.py:113-116 | A reply part, marked when it answers an in-turn message. |
| `CodexTasks.ParseTasks` | provider_codex.py:133-192 | Entries grouped into numbered tasks, by task events or, without them, by who speaks. |
| `CodexTasks.LongerExtends` | provider_codex.py:133-192 | On an append-only rollout of a fixed kind a longer parse extends the shorter one: same ordinals, parts a prefix, request frozen after a reply, only the last one changes. |
| `CodexTasks.StepExtends` | provider_codex.py:150-191 | One more entry extends the parse. |
| `CodexTasks.OrdinalsArePlaces` | provider_codex.py:145-149 | The ordinals are the places. |
| `CodexTasks.ExtendsIff` | provider_codex.py:124-191 | Appending entries extends the parse if and only if the rollout already had a task event, or none comes, or no user message follows a reply inside an open task. |
| `CodexTasks.KindChangeShifts` | provider_codex.py:124-131 | An instance where it does not: a rollout whose two turns become one when the first task event comes late. |
| `CodexTalk.TalksRoundTrip` | provider_codex.py:133-192 | Reading a rollout written from turns gives back those turns: each under its place, imported ones empty, the others with their request and, in the stored text, every line said after it with a blank line between each two. |
| `CodexTalk.PlainRoundTrip` | provider_codex.py:133-192 | The same without task events, where each answered request is a turn. |
| `CodexTalk.ReplyAdds` | provider_codex.py:113-121 | One more reply is one more paragraph of the stored text, marked where the line before begins as a user's. |
| `CodexTalk.LineIgnored` | provider_codex.py:152-178 | A line without text of either speaker changes nothing. |
| `CodexIndex.FitUnits` | rag_engine.py:1364-1371 | The longest run of whole units the embeddings cover. |
| `CodexIndex.AllFit` | rag_engine.py:1364-1371 | With enough embeddings every unit lands. |
| `CodexIndex.Collection.AddTurns` | rag_engine.py:1284-1396 | New turns go in as whole units up to the last one embedded, then stale rows of the same turns go. |
| `CodexIndex.Collection.ReplaceStaleTurns` | rag_engine.py:1581-1615 | Exactly the other turn rows of each landed session and index go, with their passages. |
| `CodexIndex.EmittedAre` | provider_codex.py:346-388 | A parse emits exactly the replied native turns the cursor does not name. |
| `CodexIndex.PassMirrors` | rag_engine.py:1284-1396 | After a pass whose turns are all stored the session's rows are exactly those of the replied native ones, with the latest text and its passages, and no other row changed. |
| `CodexIndex.PassOverRollout` | provider_codex.py:327-396 | Parse, emit, store and replace over an appended rollout keep that, wherever the longer parse extends the shorter. |
| `CodexIndex.PassesMirror` | provider_codex.py:327-396 | Over any number of passes from a session with no rows, any of them stopped before its cursor was saved, the index mirrors the latest parse after each, as long as no text replaced since the last saved cursor comes back under the cut. |
| `CodexIndex.SavedNeverReturns` | provider_codex.py:346-388 | None can come back where every cursor was saved, for any cut. |
| `CodexIndex.SmoothNeverReturns` | transcript_parser.py:34-47 | None comes back, whatever was saved, under a cut that treats a text between two alike ones like them. |
| `CodexIndex.TruncateIsSmooth` | transcript_parser.py:34-47 | `truncate_turn_text` is such a cut, for every text. |
| `CodexIndex.RolloutMirrors` | provider_codex.py:327-396 | So with the source's own cut the index mirrors the rollout after every pass, whichever cursors were saved. |
| `TurnText.CutFits` | transcript_parser.py:34-47 | The cut never exceeds the byte limit, leaves a text within it alone, and otherwise is a prefix at a character boundary with the mark. |
| `TurnText.CutBetween` | transcript_parser.py:34-47 | A text between two that are cut to the same text is cut to it too, also where a text ends in the literal mark. |
| `TurnText.CutLongest` | transcript_parser.py:34-47 | A cut text keeps as many whole characters as fit beside the mark: one more would not. |
| `TurnText.LengthIs` | transcript_parser.py:43 | The bytes of a text are those of its characters in UTF-8. |
| `CodexIndex.OneRowPerTask` | rag_engine.py:1581-1615 | Exactly one turn row per replied native ordinal, with its latest text, and none for the others. |
| `CodexIndex.RowsOfTask` | rag_engine.py:1284-1396 | Every row the session has for a task: the turn with the cleaned text and one passage for each piece of it, or none at all. |
| `CodexIndex.UnitCounts` | rag_engine.py:1364-1371 | A unit counts as many embeddings as it has rows. |
| `CodexIndex.TotalMore` | rag_engine.py:1364-1371 | And a batch the sum of its units. |
| `Collectors.Collector.Add` | rag_engine.py:2107-2127 | A doc already held is skipped; otherwise it goes in while there is room, or replaces the last one when it comes before it. |
| `Collectors.Collector.Result` | rag_engine.py:2141-2147 | Never more than `limit`; whenever no doc crosses another, the first `limit` docs of the stream in order of time and id, each with its first entry. |
| `Collectors.HeldIsBestIff` | rag_engine.py:2087-2207 | The bounded rule equals sort-and-take at every moment and for every limit if and only if no doc crosses another: no later entry of a doc comes ahead of another doc's first entry that is itself ahead of that doc's first one. |
| `Collectors.HeldIsBest` | rag_engine.py:2087-2207 | For each limit, the bounded rule equals sort-and-take on a stream in which no doc crosses another. |
| `Collectors.OneTimeNeverCrosses` | rag_engine.py:2087-2207 | None does where each doc carries one time. |
| `Collectors.Evicted` | rag_engine.py:2087-2207 | A doc that was evicted does not come back with an entry that crosses no other doc. |
| `Collectors.TwoTimesReturn` | rag_engine.py:2087-2207 | An instance with a crossing: one doc with two times, where the collector and sort-and-take differ. |
| `Collectors.CrossesIff` | rag_engine.py:2087-2207 | What a crossing is, said of the stream: a later entry of a doc that comes before another doc's first entry, which comes before that doc's own first one. |
| `Collectors.RecentListing` | rag_engine.py:1986-2032 | The two-pass listing returns the newest of the matching rows, newest first, ties by id. |
| `Collectors.SecondPass` | rag_engine.py:2022-2028 | Refetching the found rows in chunks, in any order, gives them back sorted. |
| `Paging.List` | memory_store.py:464-490 | One page: the first records that match and come after the cursor, in strictly descending order of time and id, at most `limit`; a next cursor exactly when some are left, naming the last one of the page; refused exactly on a cursor that is malformed or of other filters. |
| `Paging.IssuedCursors` | memory_store.py:347-364 | A cursor that was handed out is accepted later, on any store and with any limit, exactly under the filters it was issued for, and there resumes strictly after the last record of its page; a malformed one is always refused. |
| `Paging.CommitIsLater` | memory_store.py:59-63 | No committed write removes a record or changes when it was created. |
| `Paging.NoRepeats` | memory_store.py:464-490 | With any writes between pages no record is returned twice. |
| `Paging.NothingMissed` | memory_store.py:464-490 | With any writes between pages a record that is there and matches throughout is returned. |
| `Paging.WalkAnswers` | memory_store.py:464-490 | Every record a walk returned matched when its page was read. |
| `Paging.StaticWalk` | memory_store.py:464-490 | On a store nobody writes the walk ends and its pages are the whole filtered descending listing, in the number of pages it takes. |
| `Paging.StaticIsWalk` | memory_store.py:464-490 | Those pages are a walk of the general kind, so what holds between writers holds of them. |
| `Paging.StaticAnswers` | memory_store.py:464-490 | Together they are exactly the records that match, each once, in strictly descending order. |
| `Paging.RestIsNext` | memory_store.py:464-490 | What a page leaves is exactly what the next cursor lists. |
| `Passages.PassageSpans` | passages.py:44-64 | None for a short text, else one span per window, from the first character of its first token to the last of its last. |
| `Passages.EmptySpansGo` | passages.py:51 | The tokens are the spans that are not empty, in order. |
| `Passages.SpanAt` | passages.py:44-64 | Where each span begins and ends: passage i with token 386 i, the last with the last 450 tokens. |
| `Passages.WindowTheorem` | passages.py:44-64 | Over 450 tokens: every window has exactly 450, starts strictly rise, neighbours share at least 64, first and last reach the ends, and there are 1 + ceil((n - 450) / 386). |
| `Passages.RunInOneWindow` | passages.py:44-64 | Any run of up to 64 consecutive tokens lies whole in one window. |
| `Passages.RunInOneSpan` | passages.py:44-64 | And in the character span of one passage. |
| `Passages.BuildPassages` | passages.py:89-105 | One passage per span, with its text, a doc_id that leads back to the turn and the place, the turn's other columns but the replacement flag, and the turn's title. |
| `PassageTitles.SeparatorIff` | passages.py:73-86 | The title can end the prompt's title slot early exactly when the project's own name holds the separator; the question never does. |
| `PassageTitles.SeparatorSlips` | passages.py:73-86 | An instance: a project directory named with the separator. |
| `PassageTitles.QuestionIsLine` | passages.py:67-86 | The question is one line of at most 120 characters with single spaces between its words. |
| `PassageTitles.TitleIgnoresReply` | passages.py:67-86 | A title depends on nothing after the first reply marker. |
| `PassageTitles.WordsJoin` | passages.py:83 | White space between two texts becomes one space, and none beside a blank one; with `OneWord` that fixes the question's line. |
| `PassageTitles.OneWord` | passages.py:83 | A text without white space is one word. |
| `PassageTitles.SpacesAre` | passages.py:83 | The code points that separate words. |
| `PassageTitles.QuestionIs` | passages.py:83 | The question is that line, its separators turned into slashes, and its first 120 characters. |
| `PassageTitles.MessageIs` | passages.py:67-70 | The user's message stands between its mark and the first reply marker. |
| `PassageTitles.NoMessage` | passages.py:67-70 | A text that does not begin as a user's has no question. |
| `PassageTitles.ProjectIs` | passages.py:80-82 | The project is the last part of its path, whatever slashes follow. |
| `PassageTitles.BareProjectIs` | passages.py:80-82 | So is a path of one part. |
| `PassageTitles.NoProject` | passages.py:80-82 | Three roots name no project. |
| `PassageTitles.TitleIs` | passages.py:79-86 | Project and question with a dot between them, the one that is there, or the word for neither. |
| `Passages.DocIdRoundTrip` | passages.py:27-41 | Parent and index read back from a passage doc_id, whatever the parent looks like. |
| `Passages.ParentIff` | passages.py:24-41 | A doc_id is a passage's of a parent if and only if it is the parent, the mark and digits, or has one line feed after them. |
| `Passages.ParentOf` | passages.py:32-41 | And then the digits are its index. |
| `Passages.NumberIs` | passages.py:38-41 | Read in base ten. |
| `Passages.DocIdsDiffer` | passages.py:27-29 | No two passages share a doc_id. |
| `Passages.DeletedRange` | rag_engine.py:3576-3579 | The doc_id range the keyword index deletes for a turn is exactly the ids that start with `<turn>::p`. |
| `MemoryImport.ImportOne` | memory_import.py:92-149 | Per record: skipped, unchanged, updated, imported or merged, with exactly the writes of that branch. |
| `MemoryImport.FirstRun` | memory_import.py:92-149 | Importing into a store that shares nothing with the export leaves old rows untouched and every placed record held by exactly one new live row. |
| `MemoryImport.AgainWritesNothing` | memory_import.py:101-119 | Each record imported again is unchanged and writes nothing. |
| `MemoryImport.SecondImportWritesNothing` | memory_import.py:92-149 | Import idempotence: the whole second import writes nothing, merged duplicates included. |
| `MemoryImport.SharedTextIff` | memory_import.py:101-145 | Where the store already had one record's text, importing it again leaves the store equal exactly when that record had the same type, agent and other columns. |
| `ImportShared.SecondImportIff` | memory_import.py:92-149 | For a whole export over a store that may hold some of its texts: the second import leaves the store equal if and only if every record agrees, which is decided by the store and the export before the first one. |
| `ImportShared.StoreImportIff` | memory_import.py:92-149 | So it is for every store the transactions can have made. |
| `ImportShared.SharedTextWrites` | memory_import.py:101-145 | An instance: one record whose text the store holds as another kind; the second import writes. |
| `ImportShared.AgainOver` | memory_import.py:101-119 | And record by record: one that agrees writes nothing again, one that does not gives its row a new version. |
| `MemoryImport.AddNames` | memory_store.py:686-758 | An add without topic key or targets creates its record, or finds the one with the text and writes nothing. |
| `ImportLaws.ImportIs` | memory_import.py:92-149 | What one record leaves, by its outcome, in every column: a new row, a row rewritten, a row that takes the id, or nothing, and when each of them. |
| `ImportLaws.FindIs` | memory_store.py:501-509 | The record found by an export id is a live one if any holds it. |
| `ImportLaws.SortedIds` | memory_import.py:88-89 | The stored list holds each id once, in code point order. |
| `ImportLaws.LessIs` | memory_import.py:88-89 | Code point order: by the first place two ids differ, or by length. |

## Left out

- HTTP, MCP, watching, the CLI, hosted embedding, reranking, settings, backoff, counters for reports, evaluation and dumps: no property here needs them.
- `boilerplate`, issue patterns, redaction and, in `Rewrite`, truncation: functions given to the model, so every theorem holds for all of them.
- The five `source_*` columns are one column, `memory_id` is a natural number and a UUID that does not parse is not modelled.
- Rows read by `ORDER BY memory_id` where several match: the lowest id is taken; under the proved uniqueness there is at most one.
- A lost or damaged FTS file, which is recreated and rebuilt: `_open` and `_rebuild_fts` are not modelled, and a server joins with an empty file and no acknowledgements of its own.
- MemoryIndex.Index.ApplyMilvus: with no other writer there is no embedding race, so the three tries are in `IndexProtocol.Step` only.
- IndexRepair.ReconcileThenTicks: only errors that show in ids, versions, generations or content hashes, as the code compares nothing else; `RebuildSyncs` needs no such condition.
- IndexSchedule.ScheduleConverges: that every server gets its undisturbed ticks is the hypothesis; the timers that give them are not modelled. Whole ticks follow one another; inside a tick of one server the others are still.
- Rewrite.Rewriter.Begin: worklist, state and backups of a fresh run are set up in one step; a crash between the worklist write and the state write would meet an old cursor with a new worklist.
- Rewrite.Rewriter.Run: one batch size per chunk, a failing checkpoint write counts as a stop, a torn last backup record is not modelled, and `deleted` is not counted.
- Rewrite.Rewriter.RunAll: passages deleted with a dropped turn need not have backup records of their own, which the code does not promise either.
- Rewrite.Rewriter.DoneText: that the rules replay is a hypothesis, since `boilerplate` and redaction are functions given to the model; `PassedRows` holds without it.
- Reembed.Reembedder.Run: rows added by others keep their vectors, the model and fingerprint refusals and the final stamp's content are not modelled, and the float16 rounding of backups is not.
- Audit.AuditProjects: the sorting of clusters, the stale list and the counts; neighbours are stable during an audit.
- DedupeCodex.DuplicateRows: the merge of Milvus and FTS rows before it and the audited deletes after it; a doc_id is a number.
- Collectors.Collector.Add: the tree inside `heapq`; what it promises, the last element first, is what the model's heap promises. One class stands for both collectors.
- Collectors.RecentListing: the collection does not change between the two passes, and the display mapping is left out.
- CodexIndex.PassMirrors: deferral by the embedding budget and dropped turns are hypotheses, because the cursor moves on even when turns were deferred (`provider_ingestion.py:88-90`).
- CodexTasks.ParseTasks: timestamps and branches, which only fill metadata.
- CodexIndex.PassesMirror: one rollout file per session, so several copies of it are not modelled.
- TurnText.CutFits: the limit is at least the length of the mark, as the 65535 of a stored turn is; lone surrogates, which UTF-8 refuses, are not modelled.
- Antigravity.DecodeRecord: the UTF-8 decoder is a parameter and the file URI normalisation after it is left out.
- Paging.List: the SQL of the filters is a predicate, and the base64 and JSON of a cursor are its decoded value or `Malformed`.
- Passages.BuildPassages: columns are strings; digits are the ten ASCII ones.
- MemoryImport.ImportOne: the mapping of raw fields, the JSON comparison of values that are equal but written differently, and the index application after each write.
- `sanitize.apply` and `passage_backfill`: no such invariant holds of them.
