# Veritras: a verified model of the indexing, exception and recovery services

Veritras mirrors the events of two Ethereum contracts (a product registry and a shipment tracker) into a relational
database, watches the mirrored shipments for overdue steps, and offers operator commands that repair databases written
before the mirror existed. This project models those services in Dafny and proves what they promise.

`dafny verify dfyconfig.toml` checks everything; each file holds one module of the same name.

## What is modelled

**The event indexer** (`Chains`, `Nodes`, `Projection`, `IndexerSpec`, `IndexerLaws`, `IndexerSync`,
`IndexerInvariant`, `IndexerSteps`, `IndexerPolls`, `Indexer`, `IndexerAcceptance`, `IndexerTheorems`, `IndexerColumns`,
`IndexerLimits`).
One poll is one transaction: open the cursor, compare its block hash with the node's, rewind to the highest anchor the
node still shows if they differ, fetch a batch, journal and project its events, read the headers again, store anchors,
move the cursor. `Session` holds the tables as fields that the methods reassign; `EventIndexer` holds the committed
tables, the batch size and the health counters. The node is an adversary: every single call may fail, and the chain it
answers from may change between any two calls, also in the middle of a poll.

The central theorem is that the incremental form equals the simple one: in every database any run of polls commits, the
canonical journal is exactly the chain's events between the deployment block and the cursor, and every bound product and
its shipments are the fold of that chain's events over the stored baseline (`JournalIsChain`, `ProductIsFold`,
`RestIsUntouched`). Every tagged history row is the row of a chain event or a row of the start; every chain event has
its row as long as no event id in the journal names two products (`HistoryIsChain`); and at the confirmed target, which
the code reaches only with its coverage check, the tagged rows of the bound products are exactly those of the chain,
under two conditions named below (`CoveredHistoryIsChain`). Path independence follows, up to the cursor for the journal,
the products and the shipments, and at the target for the set of history rows (`SameCoveredHistory`). A committed poll
is described table by table as an opening, a rewind and a batch (`Polled`), and the description is exact: against a node
that stays on one chain a poll commits if and only if that chain recovers the database, and what it recovers to is
advanced by the chain (`PollOnce`).

What the steps compute is also said of the events themselves, without the functions that compute it (`IndexerColumns`):
the holder of a product is the recipient of its last transfer or the handler of its last checkpoint or delivery,
whichever came last on the indexed chain; status, registration columns, metadata address and history rows likewise; and
what an orphaned product is left with. `PollOnce` tells in plain numbers where a committed poll ends: past the recovered
cursor as far as one batch and the confirmed head allow, and no further.

**Exception episodes** (`ExceptionRules`, `ExceptionEpisodes`, `ExceptionWorker`, `ExceptionOutcomes`). The four rules,
and the evaluation that opens, continues, replaces and resolves alert rows, as a state machine over a monotone clock;
with what every condition holds and what becomes of every row, told from the records.

**Identity and legacy reconciliation** (`IdentitySpec`, `IdentityLaws`, `IdentityRuns`, `IdentityColumns`,
`IdentityMerge`, `LegacyHistory`, `PrivateRestore`, `RestoreLimits`). Grouping, conflict checks, winner choice and the
merge, with what every column of every row, binding, reference and alias holds afterwards;
attribution of untagged history to unique logs; application of a reviewed plan and of nothing else; alias resolution;
and what the indexer makes of the repaired tables: whose row its lookup finds, and whether it accepts the attributed
history.

**Historical scans** (`Scan`). The retried, budgeted scan of a confirmed range, and the shrinking scan of the operator
commands, as loops with their termination measures.

**Encodings and transformations** (`Constraints`, `ConstraintForms`, `ProductIds`, `ProductKeys`). The CHECK constraint
rewrite on its syntax tree with an evaluator beside it, and exactly which constraints it identifies; the bytes32 product id with UTF-8 as in section 3 of RFC 3629, in its Python
and its TypeScript form.

**Smaller services** (`Operations`, `Broadcast`, `Anomalies`). The fifteen-bucket request window against the full
request log, the bounded event queues under every interleaving, and journey-time anomalies over exact arithmetic.

## Assumptions

- A block hash determines its whole prefix: `history: Hash -> View` decodes every hash, and a node only shows views it
  decodes to (`Genuine`, `Honest`). An event id (contract, transaction, log index) occurs once per chain, logs of a
  block are ordered, and a transaction lies in one block (`WellFormed`).
- A log query returns exactly the logs of the view it is answered from, and every log lies in the requested range.
- Between two answered calls of one poll that show a block under the same hash, the node did not leave that block. For a
  poll this is asked of the blocks up to its target only (`NoReturn`), for a scan of its target block only
  (`KeepsBlock`): a newest block may come and go. Calls that fail show nothing, so nothing is asked of the time after a
  poll has ended. The closing header reads detect a switch only under this assumption. A run gives every poll a node
  object of its own, so nothing at all is asked across polls.
- Product keys on the chain are lower-case 32-byte hexadecimal, so each is its own canonical form or the refused zero
  key (`CanonicalKeys`, discharged by `ProductKeys.ChainKeysCanonical`).
- There is a single writer; a failed transaction leaves the committed tables as they were. Uniqueness is derived from
  the steps, never taken from a database index, with two exceptions that the source relies on: one row per product id,
  and one record per shipment in a dataset.
- Addresses, hashes and hexadecimal ids are ASCII, so letter case is folded character by character. Digests and hashes
  are injective, and stand for what they digest.
- One configuration (chain id, contracts, start block) per indexer; bindings of other configurations are a fixed set.

## Where the code does less than its comments say

- A rewind deletes history rows by event id, not by product, although the comment above the deletion speaks of this
  product's journal only (backend/app/services/indexer.py:865-873). If two forks carry one event id for two products,
  a rewind of one product can delete the still canonical row of the other. `RewindKeepsRowsExactly` gives the exact
  condition, a check on the journal before the rewind: no affected product has ever journaled the id of a kept
  checkpoint or transfer of another product. `OneProductIsSafe` says that a journal in which every id names one product
  passes it. `RewindMayLoseRow` is a run of three polls, each on a chain its node keeps showing, whose last one replaces
  the newest block, loses such a row and commits.
- The history coverage check compares event ids only (backend/app/services/indexer.py:781-803), so a checkpoint row
  tagged with the id of a registration passes it. `CoverageExact` proves a covered history justified row by row exactly
  when no row is left from the start in one table under the id of an indexed event of another kind, and
  `CoverageMayMissRow` is a poll that passes the check with such a row. No service modelled here writes one, since
  projection and attribution both match by kind; it has to come from outside, as an import or a manual correction does.
- Below the target nothing checks coverage, so a tagged row of the start that no chain event explains survives on a path
  that never met its log and is deleted on a path that met it on a fork and rewound. `RunsMayDiffer` takes two such
  runs of polls to one cursor. At the target they agree (`SameCoveredHistory`).
- Legacy attribution reads an empty stored note as an empty note, the projector stores and compares it as null
  (backend/manage_indexer.py:61 against backend/app/services/indexer.py:734 and 765). `RestoredRowsAccepted` gives the
  exact condition under which the projector accepts a row after a whole restore, `EmptyNoteRejected` a row it rejects.
- The digest of a private recovery plan covers how many history rows were matched, not which log each one gets
  (backend/replay_private_restore.py:239-240). `DigestExactly` says when two databases with one digest are tagged
  alike: exactly when their untagged rows agree in every column the matcher reads. `DigestCountsOnly` exhibits two that
  are not, both with nothing in the way of applying them.
- After a clean identity run, a product lookup can still be ambiguous, since the fallback by display id does not look at
  the chain (backend/app/services/identity.py:89-101). `LookupExactly` gives the exact condition on the database before
  the run: it holds a live row of another chain or registry whose id encodes to the key, and beside it a row of its own
  or another such row. `LookupMayStayAmbiguous` exhibits one.

## Model

| member | source | states |
|---|---|---|
| `Chains.EventsInExact` | backend/app/services/indexer.py:436-473 | the events of a block range are exactly the events the chain carries in it |
| `Chains.StrictUnique` | backend/app/services/indexer.py:466-473 | the order by block, transaction index and log index leaves one way to list a set of events |
| `Chains.SharedHashSharedPrefix` | backend/app/services/indexer.py:820-827 | two chains that agree on the hash of one block agree on everything below it, which is why one matching anchor suffices |
| `Nodes.KindsPartition` | backend/app/services/indexer.py:438-447 | the five log filters together return every event exactly once |
| `Nodes.GatheredSorted` | backend/app/services/indexer.py:445-473 | sorting the answers of the five filters restores the chain's own order |
| `Projection.FoldForgetsBaseline` | backend/app/services/indexer.py:706-745 | status and handler never depend on the baseline, and after a registration nothing does |
| `Projection.BindTargetExactly` | backend/app/services/indexer.py:603-634 | a first binding adopts a row exactly when that row alone claims the key and is neither bound, nor holds untagged history, nor contradicts the log; it creates one exactly when no row claims the key, and is refused otherwise |
| `IndexerLaws.ClaimantsStable` | backend/app/services/indexer.py:603-609 | indexing other products never changes which rows claim an unbound key |
| `IndexerLaws.FirstBindingDictated` | backend/app/services/indexer.py:601-690 | whenever a key is first bound, row and baseline are those the starting database dictates, and no other key uses the row |
| `IndexerLaws.ProjectExtends` | backend/app/services/indexer.py:706-779 | projecting one more event keeps every bound product the fold of its events, its rows complete and justified, its shipments in step, and everything else untouched |
| `IndexerSync.JournalSynced` | backend/app/services/indexer.py:538-588 | journaling a new event, or reviving an orphaned occurrence, appends exactly that event to the canonical list |
| `IndexerSync.JournalAllSynced` | backend/app/services/indexer.py:389-398 | a whole batch is appended in order, no occurrence is deleted and no binding changes |
| `IndexerSync.OrphanCuts` | backend/app/services/indexer.py:832-844 | flipping the canonical flag above the ancestor leaves exactly the events up to it |
| `IndexerSync.ResetTracks` | backend/app/services/indexer.py:845-878 | resetting one product leaves it at its baseline with nothing applied, and every other product as it was |
| `IndexerSync.AffectedKeys` | backend/app/services/indexer.py:841 | a product outside the affected set loses no event in a rewind |
| `IndexerInvariant.FirstCursor` | backend/app/services/indexer.py:344-367 | opening the cursor at the deployment block establishes the invariant |
| `IndexerInvariant.Restored` | backend/app/services/indexer.py:845-890 | resetting an affected product and replaying its canonical rows moves it from the old chain to the new one |
| `IndexerInvariant.ReplayNeverFails` | backend/app/services/indexer.py:853-890 | the replay of a reset product cannot raise |
| `IndexerInvariant.Rewound` | backend/app/services/indexer.py:805-898 | after a rewind the database mirrors the common prefix of the old and the new chain |
| `IndexerInvariant.Advanced` | backend/app/services/indexer.py:384-420 | a batch read from one extending chain leaves the database mirroring that chain, with an anchor at its end and at every block with events |
| `IndexerInvariant.BlockPaired` | backend/app/services/indexer.py:521-536 | deliveries paired over a batch are paired inside every single block |
| `IndexerInvariant.BatchPaired` | backend/app/services/indexer.py:521-536 | so the pairing survives any later cut between blocks |
| `IndexerSteps.BackStepExists` | backend/app/services/indexer.py:832-898 | a rewind to a stored anchor succeeds in whatever order the affected products are restored |
| `IndexerSteps.BackStepMirrors` | backend/app/services/indexer.py:805-898 | and leaves the database mirroring the common prefix |
| `IndexerSteps.RewindKeepsRowsExactly` | backend/app/services/indexer.py:865-873 | a rewind keeps the row of every kept event, in every order of restoration, if and only if no affected product has ever journaled the id of a kept checkpoint or transfer of another product |
| `IndexerSteps.LosingRewind` | backend/app/services/indexer.py:865-873 | where it has, restoring that product last deletes the canonical row |
| `IndexerSteps.OneProductIsSafe` | backend/app/services/indexer.py:865-873 | a journal in which every id names one product meets the condition |
| `IndexerSteps.RewindRemoves` | backend/app/services/indexer.py:865-873 | of the rows that no kept event explains, a rewind removes exactly those under an id an affected product has journaled |
| `IndexerAcceptance.FirstBindingExactly` | backend/app/services/indexer.py:601-690 | whether a registration may bind its product is decided by the starting database alone: its one claimant is free, without untagged history and not contradicted, or nothing claims the key |
| `IndexerAcceptance.BatchExactly` | backend/app/services/indexer.py:389-398 | a batch of new events is journaled to the end exactly when each event comes from its contract, belongs to a product bound, opened by it or met earlier in the batch, and agrees with the row in its slot |
| `IndexerAcceptance.ForwardExactly` | backend/app/services/indexer.py:384-420 | a chain that extends the mirrored one can be followed exactly when its deliveries are paired and its batch is let in |
| `Indexer.Session.BindProduct` | backend/app/services/indexer.py:590-690 | succeeds and writes exactly as the binding step prescribes |
| `Indexer.Session.WriteColumns` | backend/app/services/indexer.py:709-772 | the columns of the product and its binding after an event, and nothing else |
| `Indexer.Session.RecordHistory` | backend/app/services/indexer.py:751-768 | the history row of an event is added, or an existing one must agree up to letter case of addresses and hashes |
| `Indexer.Session.ProjectEvent` | backend/app/services/indexer.py:706-779 | succeeds and writes exactly as the projection step prescribes |
| `Indexer.Session.JournalEvent` | backend/app/services/indexer.py:538-588 | rejects foreign emitters and removed logs, skips canonical occurrences, otherwise journals and projects |
| `Indexer.Session.QueryCanonical` | backend/app/services/indexer.py:879-888 | the canonical rows of a product, each once, in replay order |
| `Indexer.Session.ResetProduct` | backend/app/services/indexer.py:846-878 | product, binding, history and shipments of a product go back to the baseline state |
| `Indexer.Session.ReplayEvents` | backend/app/services/indexer.py:889-890 | the projection of a list of rows, stopping at the first that fails |
| `Indexer.Session.RestoreProduct` | backend/app/services/indexer.py:845-890 | reset followed by the replay of exactly the product's canonical rows |
| `Indexer.Session.FindAncestor` | backend/app/services/indexer.py:806-827 | the highest anchor of the recovery window the node still shows; every higher anchor was seen to differ; on a stable node found whenever there is one |
| `Indexer.Session.RestoreProducts` | backend/app/services/indexer.py:845-890 | whatever the order of the affected set, the tables become those of resetting and replaying the products one after the other, and no replay fails |
| `Indexer.Session.RewindTo` | backend/app/services/indexer.py:832-898 | the tables after a rewind, with the invariant restored; the history stays complete if the journal holds no id of two products |
| `Indexer.Session.Rewind` | backend/app/services/indexer.py:805-898 | rewinds to the highest anchor shown, orphans exactly the rows whose block left the chain, and fails only without such an anchor or on a failing node |
| `IndexerPolls.RewindExact` | backend/app/services/indexer.py:805-844 | a canonical row lies above the highest matching anchor if and only if its block is not on the node's chain |
| `IndexerPolls.StableExact` | backend/app/services/indexer.py:820-843 | the same for the sparse anchors a rewind compares one call at a time |
| `IndexerPolls.OneChain` | backend/app/services/indexer.py:385-404 | equal header reads before and after a batch mean one chain in between |
| `IndexerPolls.Halved` | backend/app/services/indexer.py:463-465 | a failed fetch shrinks the batch, never below one block |
| `IndexerPolls.NextEnd` | backend/app/services/indexer.py:380-384 | there is a next batch exactly when the target is past the cursor; it ends at the target or a full batch past the cursor, whichever is lower |
| `IndexerPolls.PollBounds` | backend/app/services/indexer_health.py:41 | a committed poll ends where one batch and the head less the confirmations allow, never past a confirmed block; a first cursor is opened only on a confirmed deployment block or on block 0 |
| `IndexerPolls.PollCursor` | backend/app/services/indexer.py:344-379 | the cursor after recovery: opened at the deployment block, as it was, or back at an anchor at most the configured depth below |
| `IndexerPolls.RecoversExactly` | backend/app/services/indexer.py:344-379 | a chain recovers the database exactly when the deployment block is confirmed, or the cursor began there, is not ahead of the head and an anchor within the configured depth is on the chain |
| `Indexer.EventIndexer.constructor` | backend/app/services/indexer.py:113-137 | a new worker over an unindexed database satisfies the invariant |
| `Indexer.EventIndexer.FetchKind` | backend/app/services/indexer.py:447-462 | one log filter with a historical read for each registration |
| `Indexer.EventIndexer.GatherLogs` | backend/app/services/indexer.py:445-462 | the five filters over a range, as far as the node kept showing one chain |
| `Indexer.EventIndexer.FetchEvents` | backend/app/services/indexer.py:436-473 | on success exactly the chain's events of the range in order; on failure the batch is halved |
| `Indexer.EventIndexer.CheckHeader` | backend/app/services/indexer.py:390-394 | an event's block hash must be the header of its block, read from the node exactly when the block is not known yet |
| `Indexer.EventIndexer.JournalNext` | backend/app/services/indexer.py:389-395 | one event: header, then journal |
| `Indexer.EventIndexer.JournalBatch` | backend/app/services/indexer.py:388-395 | all events journaled in order with the headers of their blocks collected, each of them read from the node in that time |
| `Indexer.EventIndexer.FetchAndJournal` | backend/app/services/indexer.py:386-398 | on a quiet node a batch is taken exactly when deliveries are paired and every event projects |
| `Indexer.EventIndexer.Confirm` | backend/app/services/indexer.py:399-404 | both closing header reads must match |
| `Indexer.EventIndexer.ReadBatch` | backend/app/services/indexer.py:385-404 | a batch that passes the rechecks is the batch of one chain that carries cursor and end, although the node may switch chains at any call |
| `Indexer.EventIndexer.CloseBatch` | backend/app/services/indexer.py:405-419 | anchors and cursor are written; a batch that reaches the target leaves the history covered or fails |
| `Indexer.EventIndexer.TakeBatch` | backend/app/services/indexer.py:384-420 | read, journal and close one batch, exactly when a quiet node's batch is acceptable |
| `Indexer.EventIndexer.Advance` | backend/app/services/indexer.py:380-420 | the forward half of a poll: nothing to read, or one batch |
| `Indexer.EventIndexer.OpenCursor` | backend/app/services/indexer.py:343-371 | the first poll anchors the deployment block; a changed deployment block is refused |
| `Indexer.EventIndexer.Realign` | backend/app/services/indexer.py:372-379 | a stale head is refused; otherwise the cursor's block is on the chain, or the database is rewound until it is |
| `Indexer.EventIndexer.Recover` | backend/app/services/indexer.py:343-379 | open, then realign |
| `Indexer.EventIndexer.Attempt` | backend/app/services/indexer.py:343-420 | recover, then advance, with the tables between and after both; on a quiet node it succeeds exactly when the chain recovers the database and advances what it recovered to |
| `Indexer.EventIndexer.Transact` | backend/app/services/indexer.py:337-420 | the same from the head read on, with the confirmed target |
| `Indexer.EventIndexer.PollOnce` | backend/app/services/indexer.py:335-434 | a failed poll changes no stored row; a committed one is an opening, at most one rewind and at most one batch of a chain the node showed, which ends a full batch on or at the head less the confirmations, whichever comes first, keeps the invariant, deletes no occurrence, keeps bindings, and leaves the history covered if it reached the target; on a quiet node it commits if and only if the chain recovers and advances the database |
| `Indexer.EventIndexer.Run` | backend/app/services/indexer.py:238-313 | every sequence of polls against any nodes keeps the invariant, all occurrences and all bindings; failed polls change nothing, and without a reorganization no history row changes |
| `IndexerTheorems.JournalIsChain` | backend/app/services/indexer.py:335-434 | an event is canonical if and only if it is on the cursor's chain in (start, last] |
| `IndexerTheorems.JournalSafety` | backend/app/services/indexer.py:551-588 | one canonical occurrence per event id, inside the indexed range, under the anchored hash of its block |
| `IndexerTheorems.DeliveriesPaired` | backend/app/services/indexer.py:521-536 | canonical deliveries and canonical delivered checkpoints name the same transactions and products, after forward batches and rewinds alike |
| `IndexerTheorems.ProductIsFold` | backend/app/services/indexer.py:706-779 | fields, status and handler of a bound product are the fold of its canonical events in chain order from its baseline |
| `IndexerTheorems.HistoryIsChain` | backend/app/services/indexer.py:727-768 | every tagged row belongs to a canonical checkpoint or transfer or stands as at the start; every canonical checkpoint and transfer has its row, unless the journal holds an event id of two products |
| `IndexerTheorems.RestIsUntouched` | backend/app/services/indexer.py:775-779 | shipments keep their plan and follow the status of their product; unbound products and untagged rows are as at the start |
| `IndexerTheorems.OrphanedProduct` | backend/app/services/indexer.py:845-864 | a binding survives the orphaning of its registration, with the product back at its baseline |
| `IndexerTheorems.SameJournal` | backend/app/services/indexer.py:335-434 | two runs that end at one cursor hold the same canonical rows |
| `IndexerTheorems.PathIndependence` | backend/app/services/indexer.py:706-745 | they bind a product to the same row with the same status and handler, and equal in every column if the chain registers it or the row predates indexing |
| `IndexerTheorems.SameHistory` | backend/app/services/indexer.py:727-768 | they hold the same history row for every event |
| `IndexerTheorems.SameCoveredHistory` | backend/app/services/indexer.py:781-803 | if both end covered, they hold the same tagged rows of every product bound on both, no more and no fewer |
| `IndexerTheorems.SameShipments` | backend/app/services/indexer.py:775-779 | they leave the shipments of a product equal |
| `IndexerTheorems.CoverageExact` | backend/app/services/indexer.py:781-803 | a covered history is justified row by row exactly when no row is left from the start in one table under the id of an indexed event of another kind |
| `IndexerTheorems.CoverageSuffices` | backend/app/services/indexer.py:781-803 | so it is if the start held no such row |
| `IndexerTheorems.CoveredHistoryIsChain` | backend/app/services/indexer.py:781-803 | if moreover every journaled id names one product, the tagged rows of the bound products are exactly the rows of the chain's checkpoints and transfers, and no untagged row is left on them |
| `IndexerColumns.HandlerIsLatest` | backend/app/services/indexer.py:738-771 | the holder of a bound product is the recipient of its last transfer or the handler of its last checkpoint or delivery, whichever came last on the indexed chain, and nobody before the first |
| `IndexerColumns.StatusIsLatest` | backend/app/services/indexer.py:738-779 | its status is that of its last checkpoint or delivery, 0 before the first, and its shipments carry it |
| `IndexerColumns.ColumnsAreRegistered` | backend/app/services/indexer.py:709-724 | its other columns are those of its last registration on the indexed chain, column by column, or of the baseline if there is none |
| `IndexerColumns.UriIsLatest` | backend/app/services/indexer.py:709-726 | its metadata address is that of its last registration or update, where empty text is none |
| `IndexerColumns.IdentityColumns` | backend/app/services/indexer.py:692-704 | it carries its key, the chain id and the two contract addresses in lower case |
| `IndexerColumns.OrphanedColumns` | backend/app/services/indexer.py:635-657 | without a registration on the chain an adopted row that claimed one keeps name, manufacturer and date and loses owner, description, metadata, block and transaction; any other adopted row is as at the start; a created one is a bare placeholder |
| `IndexerColumns.FirstBindingColumns` | backend/app/services/indexer.py:635-690 | what a first binding writes on the row it adopts or creates, and on the binding |
| `IndexerColumns.RowColumns` | backend/app/services/indexer.py:727-768 | unless an id names two products, every canonical checkpoint and transfer has a row that says what the event says, in every column |
| `IndexerColumns.RecordedColumns` | backend/app/services/indexer.py:728-753 | a row the projector adds holds the event's own text, and a row that is there is never rewritten |
| `IndexerColumns.RowRefusedExactly` | backend/app/services/indexer.py:754-768 | a projection fails on a row exactly when one stands under the event's id and differs from the event in a column, letter case of addresses and hashes aside |
| `IndexerColumns.TakenFromContracts` | backend/app/services/indexer.py:538-547 | every event of a batch that was taken is a standing log of the registry or the tracker, as its kind demands |
| `IndexerColumns.EmittedExactly` | backend/app/services/indexer.py:538-547 | no other log is refused for its emitter |
| `IndexerColumns.PairedExactly` | backend/app/services/indexer.py:521-536 | a batch is paired exactly when each delivery has a delivered checkpoint of its transaction and product, and the other way round |
| `IndexerColumns.DeliveriesHaveCheckpoints` | backend/app/services/indexer.py:521-536 | so it is for all indexed deliveries and delivered checkpoints |
| `IndexerColumns.CoveredExactly` | backend/app/services/indexer.py:781-803 | the check at the target passes exactly when no bound product has an untagged row, or a tagged one whose id has no canonical journal row |
| `IndexerLimits.CoverageMayMissRow` | backend/app/services/indexer.py:781-803 | a poll that reaches its target and passes the check with a row no event of the chain explains |
| `IndexerLimits.RewindMayLoseRow` | backend/app/services/indexer.py:805-898 | three polls, each on a chain its node keeps showing, the last of which commits a rewind that deletes the canonical row of another product |
| `IndexerLimits.RunsMayDiffer` | backend/app/services/indexer.py:781-803 | two runs of polls to one cursor, below the target of the last poll of each, with different history rows |
| `IndexerLimits.SomeWorld` | backend/app/core/product_id.py:6-27 | the chains of these runs exist, with keys of the deployed encoding |
| `ExceptionRules.Lifecycle` | backend/app/services/analytics.py:173-194 | departure and delivery are the times of the first readable event of their kind |
| `ExceptionRules.FirstTimeExact` | backend/app/services/analytics.py:182-194 | an unreadable timestamp is skipped, not taken as absent |
| `ExceptionRules.ArrivalAnchor` | backend/app/services/exceptions.py:111-125 | the anchor of an arrival exception always exists and is the event that set the departure |
| `ExceptionRules.UncertainExactly` | backend/app/services/exceptions.py:67-164 | evidence is uncertain exactly for a future or unreadable time, or an unknown receiving handler of an undelivered shipment |
| `ExceptionRules.ArrivalOverdueExactly` | backend/app/services/exceptions.py:111-125 | overdue exactly when the planned time has passed and was recorded no later than the departure |
| `ExceptionRules.WaitOverdueExactly` | backend/app/services/exceptions.py:126-141 | due exactly when the latest checkpoint is a stop and its interval has passed |
| `ExceptionRules.InactivityOverdueExactly` | backend/app/services/exceptions.py:126-141 | due exactly when the journey departed, the latest checkpoint is no stop and the interval has passed |
| `ExceptionRules.CustodyOverdueExactly` | backend/app/services/exceptions.py:142-163 | due exactly when the latest transfer is old enough and no later checkpoint is by its recipient |
| `ExceptionRules.Grounded` | backend/app/services/exceptions.py:92-109 | every condition is due, carries its own kind and is anchored in an event of the shipment |
| `ExceptionRules.Persistent` | backend/app/services/exceptions.py:67-164 | with unchanged events and policy a condition stays, with the same fingerprint, at every later time |
| `ExceptionRules.RevisionKeepsEpisodes` | backend/app/services/exceptions.py:96-105 | a new policy revision with the same rules changes no fingerprint |
| `ExceptionEpisodes.RecordLookup` | backend/app/services/exceptions.py:201-212 | what the first pass expects of a shipment is what the rules return for it |
| `ExceptionEpisodes.RefusalExactly` | backend/app/services/exceptions.py:167-192 | an evaluation writes exactly when the indexer is current before and after, at the anchored cursor, and the clock has not gone back; otherwise the first failing check names the reason |
| `ExceptionWorker.EvaluatedOneOpen` | backend/app/services/exceptions.py:194-232 | at most one open row per shipment and kind |
| `ExceptionWorker.EvaluatedTimely` | backend/app/services/exceptions.py:214-241 | triggered, first observed, last observed and resolved times stay in order, none later than the evaluation |
| `ExceptionWorker.Agreement` | backend/app/services/exceptions.py:201-241 | the open rows of a certain shipment are exactly its conditions, with equal fingerprints and current evidence |
| `ExceptionWorker.UncertainFrozen` | backend/app/services/exceptions.py:207-209 | the rows of an uncertain shipment are untouched and none is added |
| `ExceptionWorker.AbsentClosed` | backend/app/services/exceptions.py:233-241 | a shipment that left the dataset has no open row |
| `ExceptionWorker.HistoryKept` | backend/app/services/exceptions.py:210-241 | no row is removed, resolved rows never change, and episode, first observation and acknowledgement of a row are kept |
| `ExceptionWorker.EpisodesStable` | backend/app/services/exceptions.py:207-232 | evaluating again later with the same events and policy only moves the last observation |
| `ExceptionWorker.Evaluator.Active` | backend/app/services/exceptions.py:194-197 | the open rows by shipment and kind |
| `ExceptionWorker.Evaluator.Observe` | backend/app/services/exceptions.py:211-232 | one expected condition: observed again, or resolved and replaced, or opened |
| `ExceptionWorker.Evaluator.ObserveAll` | backend/app/services/exceptions.py:210-232 | all conditions of one shipment |
| `ExceptionWorker.Evaluator.ObserveRecord` | backend/app/services/exceptions.py:199-212 | one record: its conditions observed, or its shipment noted as uncertain |
| `ExceptionWorker.Evaluator.ObserveRecords` | backend/app/services/exceptions.py:198-232 | the first pass: every condition observed, every uncertain shipment noted |
| `ExceptionWorker.Evaluator.CloseRest` | backend/app/services/exceptions.py:233-241 | the second pass resolves what was neither seen nor uncertain, with the reason that `ExceptionOutcomes.ClosedExactly` characterizes |
| `ExceptionWorker.Evaluator.Evaluate` | backend/app/services/exceptions.py:167-262 | the whole evaluation or nothing and a reason; the stored assessment names clock, cursor and number of uncertain shipments |
| `ExceptionWorker.Evaluator.Acknowledge` | backend/app/api/routes/exceptions.py:155-176 | written once, on an open row only |
| `ExceptionWorker.Evaluator.Run` | backend/app/services/exceptions.py:284-294 | over every run of evaluations and acknowledgements rows stay in order and unique, keep their episode and a written acknowledgement, never change once resolved, and the assessment clock never goes back |
| `ExceptionOutcomes.SilentShipment` | backend/app/services/exceptions.py:69-89 | nothing is reported out of scope, before a registration or after a delivery |
| `ExceptionOutcomes.UncertainPlainly` | backend/app/services/exceptions.py:80-150 | evidence is uncertain exactly for an unreadable or future time, or a last transfer to nobody of an undelivered shipment whose custody is followed up |
| `ExceptionOutcomes.DuePlainly` | backend/app/services/exceptions.py:111-163 | each of the four kinds is due exactly as the events, the policy and the clock say, in hours of 3600 seconds |
| `ExceptionOutcomes.ArrivalContent` | backend/app/services/exceptions.py:92-125 | an overdue arrival is dated by the plan and anchored in the first departure |
| `ExceptionOutcomes.CheckpointContent` | backend/app/services/exceptions.py:126-141 | a wait or an inactivity is dated from the latest checkpoint by its own interval and names its location |
| `ExceptionOutcomes.CustodyContent` | backend/app/services/exceptions.py:142-163 | a missing follow-up is dated from the latest transfer and names the recipient |
| `ExceptionOutcomes.RowOutcome` | backend/app/services/exceptions.py:198-241 | what becomes of each row of a shipment in the dataset: untouched, observed again, replaced, cleared or withdrawn |
| `ExceptionOutcomes.AbsentOutcome` | backend/app/services/exceptions.py:233-241 | an open row of a shipment that left the dataset is withdrawn |
| `ExceptionOutcomes.ClosedExactly` | backend/app/services/exceptions.py:214-241 | a row that was open and is closed carries the time of the evaluation, and is replaced, cleared or withdrawn exactly when its condition has another fingerprint, when it is gone and the anchor still among the events, or when the anchor is gone too |
| `ExceptionOutcomes.OpenedExactly` | backend/app/services/exceptions.py:217-229 | a row that is opened starts an episode of a condition that no open row was following |
| `IdentitySpec.LessTotal` | backend/manage_identity.py:148-152 | the tie-break orders any two different ids |
| `IdentitySpec.WinnerUnique` | backend/manage_identity.py:148-153 | a group has one winner |
| `IdentitySpec.PlanUnique` | backend/manage_identity.py:40-173 | database and events determine the plan |
| `IdentityLaws.GroupAfter` | backend/manage_identity.py:192-239 | every changed group keeps its winner alone, every other group is as it was |
| `IdentityLaws.OneLiveClaimant` | backend/manage_identity.py:192-239 | after an applied plan at most one live row of this chain and registry claims a key |
| `IdentityLaws.ReferencesKept` | backend/manage_identity.py:218-222 | no checkpoint, transfer or shipment is lost or changes its columns or tag, and each goes on pointing to a row of the same key |
| `IdentityLaws.ReferencesGathered` | backend/manage_identity.py:218-222 | the winner has exactly the references of its whole group |
| `IdentityLaws.NothingLeftBehind` | backend/manage_identity.py:205-238 | nothing points to a superseded row any more, and its id is an alias of the winner |
| `IdentityLaws.OneShipmentKept` | backend/manage_identity.py:126-135 | one shipment per product stays one shipment per product |
| `IdentityRuns.AliasSoundKept` | backend/manage_identity.py:218-234 | aliases keep leading to live products, and no live product is an alias |
| `IdentityRuns.ResolvedIsLive` | backend/app/services/identity.py:57-74 | whatever the aliases, a resolved product is live and not an alias |
| `IdentityRuns.OneHop` | backend/app/services/identity.py:57-74 | with sound aliases one hop is enough |
| `IdentityRuns.OldIdsResolve` | backend/app/services/identity.py:57-74 | after a merge every id resolves as before, or to the winner its product was merged into |
| `IdentityRuns.ResolveProduct` | backend/app/services/identity.py:57-74 | stopping at the first repeated id gives the answer of following 32 aliases |
| `IdentityRuns.SecondRun` | backend/manage_identity.py:28-241 | reconciling again with the same events finds no conflict and no change |
| `IdentityRuns.ClaimantsSplit` | backend/app/services/identity.py:77-106 | without row conflicts the lookup finds the group of the key and the live rows another chain or registry has claimed under an id of the key |
| `IdentityRuns.LookupExactly` | backend/app/services/identity.py:77-106 | after a clean run the lookup of a key is ambiguous exactly when the starting database held such a row beside a row of the group, or two such rows |
| `IdentityColumns.GroupExactly` | backend/manage_identity.py:41-67 | a group holds the live rows whose id has its key and whose identity columns are empty or the deployment's own |
| `IdentityColumns.RowConflictsExactly` | backend/manage_identity.py:41-69 | a live row that no other chain or registry claims fits no group exactly when its id has no key or its identity columns hold something else |
| `IdentityColumns.WrongEmitterExactly` | backend/manage_identity.py:31-39 | nothing is reconciled against a registration that was removed or that another contract emitted |
| `IdentityColumns.LessExactly` | backend/manage_identity.py:149-152 | ids are compared in code point order: the first difference decides, and a proper prefix comes first |
| `IdentityColumns.WinnerIsFirst` | backend/manage_identity.py:148-153 | the winner is a human id if the group has one, and the first of its sort |
| `IdentityColumns.ConflictedExactly` | backend/manage_identity.py:70-147 | a group is stopped exactly by two registrations, a binding of another scope or key, an alias, a row at odds with the registration or claiming one that is missing, several rows without a registration, with two shipments or with untagged history |
| `IdentityColumns.ChangesExactly` | backend/manage_identity.py:70-165 | a group that nothing stops changes unless it stays unknown or is a single row with its identity columns in place |
| `IdentityColumns.WinnerColumns` | backend/manage_identity.py:206-217 | the winner takes the identity columns, and every column of the row the binding was on if that is another one, indexed exactly if it was registered on the chain; otherwise it keeps its own |
| `IdentityColumns.OtherColumns` | backend/manage_identity.py:205-209 | the other rows of the group are superseded and lose the identity columns only; all other rows stay, and none comes or goes |
| `IdentityColumns.ReferencesFollow` | backend/manage_identity.py:218-222 | every checkpoint, transfer and shipment moves to the winner of its group and changes in nothing else |
| `IdentityColumns.AliasesFollow` | backend/manage_identity.py:223-234 | so do the targets of aliases, and every superseded id becomes an alias of its winner |
| `IdentityColumns.BindingColumns` | backend/manage_identity.py:193-238 | a binding follows its product and keeps status and holder; its baseline becomes the winner's columns exactly if it moves onto a signed draft without a block |
| `RestoreLimits.LookupMayStayAmbiguous` | backend/app/services/identity.py:89-105 | a database that a clean run leaves ambiguous, under the deployed encoding |
| `IdentityMerge.Store.GroupRows` | backend/manage_identity.py:40-69 | the groups by canonical id, and the rows that fit none |
| `IdentityMerge.Store.ChooseWinner` | backend/manage_identity.py:148-153 | the first row, human ids before hexadecimal ones |
| `IdentityMerge.Store.JudgeGroup` | backend/manage_identity.py:70-173 | a group is a conflict, or a change, exactly as its rows, bindings, references and logs say |
| `IdentityMerge.Store.PlanGroup` | backend/manage_identity.py:148-165 | winner, losers, indexed source and identity columns of a merge |
| `IdentityMerge.Store.Review` | backend/manage_identity.py:70-187 | the report holds every conflict and every change, and writes nothing |
| `IdentityMerge.Store.Archive` | backend/manage_identity.py:205-209 | losers are superseded and lose their identity columns |
| `IdentityMerge.Store.RewriteProducts` | backend/manage_identity.py:205-217 | the winner takes the identity and, from an indexed duplicate, all its columns |
| `IdentityMerge.Store.MoveReferences` | backend/manage_identity.py:218-234 | references and aliases of the losers move to the winner |
| `IdentityMerge.Store.Rebind` | backend/manage_identity.py:193-204 | the binding follows, and a winning draft becomes what a later rewind restores |
| `IdentityMerge.Store.ApplyMerge` | backend/manage_identity.py:192-239 | one merge rewrites the tables as prescribed |
| `IdentityMerge.Store.ApplyPlan` | backend/manage_identity.py:192-239 | merging group after group, in any order, is the one rewriting of the whole plan |
| `IdentityMerge.Store.Reconcile` | backend/manage_identity.py:28-241 | all or nothing: applied if and only if asked for and free of conflicts, else no row changes |
| `LegacyHistory.FoundExact` | backend/manage_indexer.py:34-70 | the ids found for a row are those of exactly the logs that explain it |
| `LegacyHistory.AttributableExactly` | backend/manage_indexer.py:34-83 | a row can be tagged exactly when one log explains it, no other does, and no row of its table has that log's id |
| `LegacyHistory.ExplainedExactly` | backend/manage_indexer.py:34-70 | a log explains a row exactly when the key fits and projecting it would accept the row, once an empty note is spelled as none |
| `LegacyHistory.MatchRows` | backend/manage_indexer.py:28-83 | every untagged row is a match or a conflict, never both |
| `LegacyHistory.FindLogs` | backend/manage_indexer.py:34-70 | the logs that explain one row, in log order |
| `LegacyHistory.AttributionSound` | backend/manage_indexer.py:71-101 | a clean attribution tags every untagged row with a log that explains it, injectively and apart from ids in use |
| `LegacyHistory.AttributedRow` | backend/manage_indexer.py:84-101 | afterwards every checkpoint and transfer has a tag, and nothing else has changed |
| `LegacyHistory.AttributionIdempotent` | backend/manage_indexer.py:23-101 | a second attribution finds nothing to do |
| `LegacyHistory.ReconcileHistory` | backend/manage_indexer.py:23-101 | tags all rows or raises and tags none; the report counts the matches and names the conflicts, the same either way |
| `LegacyHistory.SameTagExactly` | backend/manage_indexer.py:34-70 | two clean databases give one row the same log exactly when the row agrees in every column the matcher reads |
| `LegacyHistory.ProjectedOverTag` | backend/app/services/indexer.py:751-768 | projecting the log a row was tagged with finds that row, and accepts it unless its notes are stored as an empty string |
| `RestoreLimits.EmptyNoteRejected` | backend/app/services/indexer.py:730-735 | a cleanly attributed table on which that projection fails, under the deployed encoding |
| `PrivateRestore.Restore.Preview` | backend/replay_private_restore.py:231-238 | both reports over the tagged history in one uncommitted session, or the conflict that stops them |
| `PrivateRestore.Restore.ReconcilePrivate` | backend/replay_private_restore.py:222-264 | ends in the starting database or in the reviewed plan applied; the second only if the approved digest is this plan's, nothing conflicts and the target block is still canonical; what blocks it is named |
| `PrivateRestore.OnePlan` | backend/replay_private_restore.py:239-240 | database, events and context determine the plan, its match count included |
| `PrivateRestore.ApprovalApplies` | backend/replay_private_restore.py:250-262 | approving the digest a review returned applies that plan on a target block that is still canonical, and no other approval does |
| `PrivateRestore.RestoredRowsAccepted` | backend/app/services/indexer.py:751-768 | after a restore the indexer's lookup gives the product a newly tagged row points to, unless another chain's row claims the key, and projecting its log accepts the row unless its notes are stored as an empty string |
| `PrivateRestore.DigestExactly` | backend/replay_private_restore.py:239-240 | two databases with one digest and the same untagged ids are tagged alike exactly when each untagged row reads alike in both |
| `RestoreLimits.DigestCountsOnly` | backend/replay_private_restore.py:239-240 | two databases of one registered product, both ready to be applied, whose transfer gets different logs under the same digest, with the deployed encoding |
| `Scan.PauseBudget` | backend/replay_private_restore.py:93-97 | the pauses of one retry budget add up to fifteen seconds |
| `Scan.DelayExactly` | backend/replay_private_restore.py:93-97 | pauses of one, two, four and then eight seconds |
| `Scan.RetryPause` | backend/replay_private_restore.py:93-97 | a pause that would reach the deadline is not begun |
| `Scan.ReadHeader` | backend/replay_private_restore.py:100-129 | at most five calls, only after retryable failures, with an answer only by the deadline; it gives up only after five calls, a failure that is not retryable, or within a pause of the deadline |
| `Scan.HeaderInTime` | backend/replay_private_restore.py:103-129 | one attempt: nothing is asked at the deadline and an answer after it does not count |
| `Scan.ReadOnce` | backend/replay_private_restore.py:182-214 | contiguous ranges read every block of the interval exactly once |
| `Scan.OneTarget` | backend/replay_private_restore.py:180-217 | the target hash before and after means one chain in between |
| `Scan.ReadRange` | backend/replay_private_restore.py:183-204 | one range fetched and checked against headers, each read once |
| `Scan.CheckHeaders` | backend/replay_private_restore.py:199-204 | succeeds exactly when every event of the batch carries the header hash of its block; every header was read from the node |
| `Scan.ScanRanges` | backend/replay_private_restore.py:182-214 | the ranges cover the interval without gap or overlap, batch sizes stay between one and the initial one, and the loop ends by blocks left, then failures left; it gives up on fetches only after five failures in a row, and never fetches again after that |
| `Scan.ConfirmedEvents` | backend/replay_private_restore.py:157-219 | what is returned is every event of (start, target], once and in order, of the one chain with the target hash; on a quiet node with time and budget it does return |
| `Scan.Recheck` | backend/replay_private_restore.py:215-218 | the closing read of the target decides whether the events are the history of one chain |
| `Scan.ReadRangeOnce` | backend/manage_indexer.py:118-127 | one range of the operator scan; a failed fetch halves the batch |
| `Scan.ShrinkingScan` | backend/manage_indexer.py:116-129 | the loop ends by blocks left, then batch size, with all events of the range; it is given up only at a single block that could not be fetched or a header that did not confirm a batch |
| `Scan.OperatorScan` | backend/manage_indexer.py:104-137 | the events returned are the history of one chain between two equal reads of the target header |
| `Constraints.VisitMeans` | backend/constraint_fingerprint.py:71-104 | the rewritten constraint has the value of the original on every row |
| `Constraints.StripMeans` | backend/constraint_fingerprint.py:46-51 | dropping positions keeps every value |
| `Constraints.VisitTwice` | backend/constraint_fingerprint.py:71-104 | the rewrite is idempotent |
| `Constraints.OneCanonicalForm` | backend/constraint_fingerprint.py:78-102 | the cast over the array and the cast on each element become the same expression |
| `Constraints.MatchedExactly` | backend/constraint_fingerprint.py:69-102 | the flag is set exactly when one of the two forms occurs in the constraint as written |
| `Constraints.SameCanonicalSameMeaning` | backend/constraint_fingerprint.py:54-110 | definitions with equal canonical results denote the same predicate |
| `ConstraintForms.StripExactly` | backend/constraint_fingerprint.py:46-51 | removing positions identifies exactly the expressions that differ in positions only |
| `ConstraintForms.OneFormExactly` | backend/constraint_fingerprint.py:46-104 | two expressions share a canonical form exactly when they differ, anywhere inside them, in positions and in the spelling of arrays of literals only |
| `ConstraintForms.SameCanonicalExactly` | backend/constraint_fingerprint.py:54-110 | so a restored constraint is reported as changed exactly when its flags or more than that changed |
| `ConstraintForms.CanonicalHasNoPositions` | backend/constraint_fingerprint.py:46-51 | no node and no type name of a canonical result carries a position |
| `ConstraintForms.NormalizedExactly` | backend/constraint_fingerprint.py:54-110 | a definition is normalized exactly when it is a check constraint of at most 65536 characters in which one of the two spellings occurs |
| `ConstraintForms.SpellingsExactly` | backend/constraint_fingerprint.py:26-44 | the two spellings part by part: string literals cast to plain varchar, cast to text together or one by one |
| `Constraints.NestedArraysDiffer` | backend/constraint_fingerprint.py:83-92 | without the restriction to literals the rewrite would change values |
| `ProductIds.DecodeEncode` | backend/app/core/product_id.py:13-20 | decoding undoes encoding on every string without surrogates |
| `ProductIds.EncodeDecode` | backend/app/services/identity.py:83-86 | only encodings decode, so shortest forms and valid characters only |
| `ProductIds.EncodeOneExactly` | backend/app/core/product_id.py:13-20 | the bytes of every code point, as RFC 3629 lays them out |
| `ProductIds.AcceptedExactly` | backend/app/core/product_id.py:6-23 | after 0x exactly 64 hexadecimal digits that are not all zero are accepted, of other text exactly what is not empty, has no null character and no surrogate and takes at most 32 bytes, zero bytes following |
| `ProductIds.TextRoundTrip` | backend/app/services/identity.py:81-84 | a text id is recovered by stripping zero bytes and decoding |
| `ProductIds.TextInjective` | backend/app/core/product_id.py:13-20 | two text ids never share their bytes |
| `ProductIds.HexRoundTrip` | backend/app/core/product_id.py:12 | bytes written in hexadecimal parse back, in lower case |
| `ProductIds.HexIdOf` | backend/app/core/product_id.py:9-12 | every 32-byte value but zero is reached by writing it in hexadecimal |
| `ProductIds.CanonicalHexIdempotent` | backend/app/core/product_id.py:26-27 | a canonical id is its own canonical form |
| `ProductIds.Agree` | frontend/src/utils/productId.ts:3-24 | the browser accepts the same strings and produces the same id |
| `ProductIds.LookupExact` | backend/app/services/identity.py:77-101 | the ids asked for are exactly those whose canonical form is the key |
| `ProductKeys.CanonicalTwice` | backend/app/core/product_id.py:26-27 | a stored id and its canonical form canonicalize alike, to a lower-case key |
| `ProductKeys.JournalKeyFixed` | backend/app/services/indexer.py:72-76 | a journaled key is its own canonical form, or the refused zero key |
| `ProductKeys.ChainKeysCanonical` | backend/app/services/indexer.py:551 | with this encoding every chain meets what the indexer assumes of keys |
| `Operations.DropOldest` | backend/app/services/operations.py:13-23 | evicting the oldest bucket changes no window that starts after it |
| `Operations.WindowCovered` | backend/app/services/operations.py:51-55 | no bucket that the last fifteen minutes need has been evicted |
| `Operations.TotalsCount` | backend/app/services/operations.py:24-55 | the totals of a window are the numbers of its requests, of its API requests, of its failed ones, and of those answered within 100, 500 and 2000 milliseconds |
| `Operations.CountCall` | backend/app/services/operations.py:24-31 | what one request adds to each counter |
| `Operations.Monitor.OpenBucket` | backend/app/services/operations.py:21-23 | the bucket of a new minute |
| `Operations.Monitor.CountLast` | backend/app/services/operations.py:24-31 | the request is counted in the bucket of its minute |
| `Operations.Monitor.Request` | backend/app/services/operations.py:19-31 | the request joins the log the buckets answer for |
| `Operations.Monitor.Snapshot` | backend/app/services/operations.py:49-80 | equals the totals over all requests ever recorded in the last fifteen minutes, counted one by one, with nested counters |
| `Broadcast.StoredSound` | backend/app/services/events.py:28-34 | a message stored in a queue with room keeps order and completeness |
| `Broadcast.PutExactly` | backend/app/services/events.py:27-34 | with room a message joins the end of the queue; a queue of 64 loses exactly its oldest message and the new one for a resync at the end |
| `Broadcast.OverflowSound` | backend/app/services/events.py:28-34 | a full queue loses two messages and gains a resync at that point |
| `Broadcast.NoSilentLoss` | backend/app/services/events.py:28-45 | whenever a message was discarded or displaced, a resync enqueued then or later is queued or received |
| `Broadcast.CompleteUntilLoss` | backend/app/services/events.py:28-45 | until then everything published and processed is there, once and in publish order |
| `Broadcast.NoEarlyLoss` | backend/app/services/events.py:15-34 | the first 64 messages are never lost |
| `Broadcast.EventBroadcaster.Subscribe` | backend/app/services/events.py:14-19 | a new empty channel |
| `Broadcast.EventBroadcaster.Unsubscribe` | backend/app/services/events.py:21-25 | removing an unknown channel is harmless |
| `Broadcast.EventBroadcaster.Publish` | backend/app/services/events.py:36-45 | every channel whose loop runs is told, a closed one is passed over, one that stops in between is dropped |
| `Broadcast.EventBroadcaster.RunPut` | backend/app/services/events.py:27-34 | the event loop's next step on a queue of at most 64 messages |
| `Broadcast.EventBroadcaster.Receive` | backend/app/services/events.py:15-19 | the subscriber takes the oldest message |
| `Broadcast.EventBroadcaster.Run` | backend/app/services/events.py:14-45 | every interleaving keeps every channel sound |
| `Anomalies.ScoreBound` | backend/app/services/analytics.py:375-380 | a squared score is at most (n-1)^2/n |
| `Anomalies.OutlierScore` | backend/app/services/analytics.py:375-380 | the bound is reached |
| `Anomalies.NeverHigh` | backend/app/services/analytics.py:387-391 | no cohort of at most ten journeys has a high-severity anomaly |
| `Anomalies.HighExactly` | backend/app/services/analytics.py:373-391 | a high severity is possible exactly in cohorts of eleven or more |
| `Anomalies.FewFlagged` | backend/app/services/analytics.py:379-381 | with a positive threshold z fewer than (n-1)/z^2 journeys exceed it |
| `Anomalies.ReportBound` | backend/app/services/analytics.py:366-398 | so a report on a cohort is that short |
| `Anomalies.ReportNeverHigh` | backend/app/services/analytics.py:373-391 | a report on a cohort of the minimum size holds no high severity, whatever the threshold |
| `Anomalies.SeverityByScore` | backend/app/services/analytics.py:387-391 | high above three standard deviations, medium above two and a half, low otherwise |
| `Anomalies.ReportByScore` | backend/app/services/analytics.py:372-397 | in a cohort with a standard deviation exactly the journeys whose score exceeds the threshold are reported, with the severity of their score and the size of the cohort |
| `Anomalies.SuppressedExactly` | backend/app/services/analytics.py:371-377 | a cohort is passed over exactly when it has fewer than ten journeys or they all took equally long |
| `Anomalies.GroupByRoute` | backend/app/services/analytics.py:367-370 | the journeys of each route, in order |
| `Anomalies.ReportGroup` | backend/app/services/analytics.py:372-397 | one cohort: suppressed if small or without spread, else every exceeding journey with its severity |
| `Anomalies.DetectAnomalies` | backend/app/services/analytics.py:366-398 | what is reported on a route is exactly the report of its cohort, each anomaly once |

## Left out

- Indexer.EventIndexer.FetchKind: the historical registration read is a call that answers or fails; its answer is part of the event's payload, so the comparison of that answer with the log (backend/app/services/indexer.py:475-519) is not modelled.
- Indexer.EventIndexer.Run: thread start and stop, waiting times, retry delays, health text and notifications are not modelled; a stop request is one of the ways a call fails.
- IndexerTheorems.PathIndependence: the columns of a product that exists only because some fork registered it, and that the final chain does not register, depend on the first fork's registration; status, handler, history and shipments do not.
- IndexerTheorems.SameHistory: a row adopted from the start may differ from the chain's in the letter case of addresses and hashes, so the two histories agree up to that. Rows of the start that no chain event explains may differ below the target; `RunsMayDiffer` shows how.
- ExceptionWorker.Evaluator.Evaluate: rows of other scopes, the database query behind the dataset and the policy update route are not modelled.
- ExceptionRules.CustodyOverdueExactly: times are exact reals, so the rounding of intervals to microseconds is not captured.
- IdentityMerge.Store.Review: the wording of each conflict and the order of the report are not modelled, only which rows and groups conflict.
- PrivateRestore.Restore.ReconcilePrivate: writing the plan file is not modelled, and the digest is the plan itself.
- Scan.ReadHeader: the retry budget is modelled for header reads, its only use in the scan; diagnostics and progress records are not.
- Constraints.SameCanonicalSameMeaning: SQL parsing is a parameter; type modifiers are one opaque token, and node kinds the rewrite does not inspect are opaque nodes with children.
- ProductIds.Agree: strings are sequences of code points, so how a browser pairs UTF-16 units is not modelled.
- ProductIds.LookupExact: the database's case folding is taken to be ASCII folding, as its argument is hexadecimal.
- Operations.Monitor.Snapshot: browser metrics, stream counters, uptime and the rounding of the mean are not modelled.
- Anomalies.DetectAnomalies: scores are compared by their squares over exact reals, so no score value is reported, floating-point rounding is not captured, and the routes appear in no particular order; strip and lower-case of route names happen before.
- Web3 connections, ABI decoding, contract calls and the validity checks of configuration addresses: only the answer or the failure of a call is an input.
- Type checks on log positions and timestamps: the types of the model already exclude the malformed values; unreadable event times are modelled in the exception rules.
- Advisory locks, SQL, migrations, timestamps of rows (created, updated, processed): a transaction is a session that is committed whole or dropped.
- Product drafts edited and shipments created through the API between two polls: the tables a poll does not write are fixed at the start of a run.
- The other analytics, exports, the release gate, fixed and live replay, deployment probes, all user interface code and the contracts: they do not touch the tables and protocols modelled here, or their sources are not part of this model.
