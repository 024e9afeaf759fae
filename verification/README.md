# Uniswap V2 pool index: a Dafny model

The system keeps an in-memory index of Uniswap V2 pools. A struct-of-arrays registry holds the pools.
Five kinds of actor change it behind one lock: the block listener, the initializer of newly discovered
pools, the reconciler, the pruner, and outside callers that delete pools. Readers use a view published
through an atomic pointer. Log parsers and two semaphore-bounded worker pools feed it.

How the model is laid out, bottom up:

- `Types.dfy`, `Words.dfy`: integer widths, pool records, big-endian words and addresses.
- `Tables.dfy`, `Slices.dfy`, `Registry.dfy`, `RegistryRuns.dfy`: the registry as rows in physical order
  and as a finite map; the heap class with its seven slices, index map and in-place reserve numbers; any
  sequence of operations on it, and on a copy restored from its view.
- `Logs.dfy`, `Updates.dfy`: the parsers, with map iteration in any order, and the equality of a block's
  batch with a replay of its logs.
- `Fanout.dfy`, `Reserves.dfy`, `Initializer.dfy`: goroutines, semaphore and wait group as a step
  machine; the reserve fetcher and the whitelisting initializer as its two instances.
- `Initializations.dfy`, `Reconciliation.dfy`, `Deletions.dfy`: what the initializer's, reconciler's,
  pruner's and deleters' work does to a table.
- `System.dfy`: the orchestrator as a class, one method per critical section or selection loop.
- `Protocol.dfy`, `Runs.dfy`, `Theorems.dfy`, `Tracking.dfy`: the running system as a step machine in
  which one step is one critical section's work, one atomic store, one lock release or one atomic load;
  what every step keeps; what follows for whole runs.
- `Refinement.dfy`: each method of the class lands where the machine's steps land.
- `Execution.dfy`: whole executions on the heap, any schedule of the processes' turns with what each keeps
  between them, against the machine.

Calls into code outside the repository are parameters. The registrar's lookups and the block list are
finite maps and sets, chosen afresh for each critical section; a missing key is an error answer. Contract
answers are byte strings or failures, chosen per call. The registrar's batch reply is a parameter, and
the step machine assumes of it what the code relies on: a pool registered without error resolves to the ID
that was returned for it. Without that two things can go wrong, and the model says of any reply exactly
when: a pool gets in and is not published (`Initializations.StaleViewExact`), or reserves land on another
pool with no error reported (`Initializations.RowsExact`, `IntendedExact`, `TrustExact`).

Where the code does something other than its own comments or documentation say, the model follows the code:

- The comment at `system.go:568-570` says newer data is never overwritten by the reconciler.
  `Theorems.LostUpdate` gives a run in which it is, `Tracking.LateBlock` and `Theorems.MovedSinceExact`
  say for every state exactly when.
- The comment at `system.go:244` calls the stored number that of the last successfully processed block.
  A block skipped by the bloom test stores its number too (`system.go:264-265`).
- The comment at `reserves/reserves.go:27-30` sets no lower bound on the limit. With a limit of zero a
  non-empty batch never returns (`Fanout.NoCapacityNeverReturns`), and with a negative one the channel
  allocation at `reserves/reserves.go:52` panics; only the initializer refuses both.
- `README.md:83` builds the initializer from one argument; the code takes a concurrency limit as well.

## Model

| member | source | states |
|---|---|---|
| Tables.AddRefines | registry.go:111-163 | an add succeeds exactly when the pool resolves to an ID not yet present and both tokens resolve; then the finite map gains that one binding, with zero reserves, and otherwise stays as it was |
| Tables.UpdateRefines | registry.go:165-180 | an update rewrites the two reserves of the one bound pool and is the identity for an unknown ID |
| Tables.DeleteRefines | registry.go:182-216 | swap-and-pop removes exactly one ID from the finite map, keeps IDs distinct, and shortens the table exactly when the ID was there |
| Registries.Registry.FromViews | registry.go:71-109 | the rebuilt registry holds the snapshot's values in order with reserve objects of its own, and is well formed if and only if the snapshot's IDs are distinct |
| Registries.Registry.AddPool | registry.go:111-163 | keeps slices aligned, index and IDs mutually inverse and reserve objects distinct; the verdict and new rows are the table's; on any failure nothing changes |
| Registries.Registry.UpdatePool | registry.go:165-180 | the in-place write through two pointers changes one row's reserves and no other row; when the second source is the pool's own first reserve object, it has already been overwritten when it is read; for an unknown ID neither source is looked at |
| Registries.Registry.DeletePool | registry.go:182-216 | swap-and-pop over seven slices and the index keeps the registry well formed and deletes exactly that row; an unknown ID changes nothing |
| Registries.Registry.View | registry.go:218-239 | the view lists the rows in physical order and shares no reserve object with anything older |
| Registries.Registry.GetPoolById | registry.go:242-262 | finds the pool exactly when a search of the rows does, with copied reserves |
| Registries.Registry.HasPool | registry.go:264-270 | answers membership of the rows through the index |
| Slices.InverseSwapPop | registry.go:191-205 | the index repair of a swap-and-pop keeps index and ID slice mutually inverse, also when the deleted row is the last |
| Slices.UnsharedSwapPop | registry.go:198-211 | moving the last reserve pointers into the hole keeps all reserve objects pairwise distinct and drops exactly the deleted pool's two |
| RegistryRuns.TableRefinesMap | registry.go:111-270 | over any sequence of adds, updates, deletes and queries, every reply and the final contents are those of a plain finite map |
| RegistryRuns.Run | registry.go:232-233 | over any sequence of operations the heap registry follows its table, and a view taken earlier keeps every value |
| RegistryRuns.RestoredIsEquivalent | registry.go:67-109 | a registry restored from a view gives the same replies as the original under any later operations on both, and never shares a reserve object with it |
| Words.ReadWord | logs/updated_pool_test.go:23-33 | a number below 256^w, right-aligned in w bytes, reads back as itself |
| Words.WriteWord | logs/updated_pool.go:34-35 | what is read from w bytes is below 256^w, and those bytes are the only encoding of it at that width |
| Words.BigEndian | logs/updated_pool.go:34-35 | a byte counts 256 to the number of bytes after it |
| Words.AddressRoundTrip | initializer/pool.go:162-165 | an address in the last 20 bytes of a word reads back whatever the first 12 bytes hold |
| Logs.SyncRoundTrip | logs/updated_pool.go:28-35 | decoding the log a pool emits for two reserves gives those reserves, in that order, for every pair below 2^256 |
| Logs.SyncCanonical | logs/updated_pool.go:26-35 | every accepted log is the encoding of what it decodes to, so the decoder accepts nothing else |
| Logs.SyncWords | logs/updated_pool.go:24-35 | accepted are exactly the logs with the Sync topic alone and 64 bytes, and the first word is the first reserve, the second the second |
| Logs.BatchWords | logs/updated_pool.go:22-43 | the last log of each pool with the Sync topic alone and 64 bytes is in the batch with its two words, and every entry comes from such a log |
| Logs.LatestIsLast | logs/updated_pool.go:22-43 | the overwritten map holds exactly the last valid Sync of each pool |
| Logs.UpdatedInBlock | logs/updated_pool.go:18-63 | the three slices list each pool with a valid Sync once, with its last reserves, in any map order |
| Logs.DiscoverPools | logs/discover_pool.go:10-31 | the result lists exactly the emitters of Swap events, each once |
| Logs.SwapsDiscovered | logs/discover_pool.go:15-21 | an address is discovered if and only if it emitted a log whose first topic is the Swap event, whatever further topics and data the log has |
| Updates.BatchEqualsReplay | system.go:597-620 | for any logs and any map order, applying the parsed batch gives the registry that applying every valid Sync log in log order gives, when no two addresses resolve to one tracked pool |
| Updates.SharedIdBreaksReplay | system.go:599-609 | for any table and any pool in it to which two addresses resolve, some logs and map order leave that pool on different reserves than the replay |
| Updates.ReplayExact | system.go:597-620 | batch and replay agree for all logs and map orders if and only if no two addresses resolve to one tracked pool |
| Updates.ReplayRow | logs/updated_pool.go:20-22 | after a replay each pool keeps its identity and holds its last valid Sync, or the reserves it started with |
| Updates.BlocksEqualReplay | system.go:353-376 | handling blocks one after another, with lookups that may change for untracked pools in between, equals replaying their concatenated logs, so each pool ends on its last valid Sync over all of them |
| Fanout.StepKeepsOk | initializer/pool.go:87-95 | every step keeps slots in use equal to the workers holding one over all calls sharing the semaphore, within capacity, and each result index untouched or settled once |
| Fanout.WaitGroup | initializer/pool.go:85-94 | the wait group never goes negative and opens exactly when every launched goroutine has finished and none is left to launch |
| Fanout.Progress | initializer/pool.go:87-141 | with capacity at least one, some step is possible until every call has returned |
| Fanout.StepDrops | initializer/pool.go:87-141 | every step uses up a natural measure, so no schedule runs for ever |
| Fanout.FanoutIsSequentialMap | initializer/pool.go:85-143 | under every schedule the run is bounded, is stuck exactly when all calls have returned, and a returned call's slices are those of a sequential evaluation |
| Fanout.NoCapacityNeverReturns | reserves/reserves.go:52-65 | with no capacity a call over at least one index never returns, in any run |
| Reserves.ReservesRoundTrip | reserves/reserves.go:110-119 | decoding the three encoded words gives the first two numbers, for every pair below 2^256 and any timestamp |
| Reserves.ReservesCanonical | reserves/reserves.go:110-119 | any accepted answer is the encoding of the decoded pair and some timestamp |
| Reserves.ReservesWords | reserves/reserves.go:110-119 | accepted are exactly the answers of 96 bytes, and the pair is their first two words in order |
| Reserves.FetchRefinesSequential | reserves/reserves.go:40-93 | under every schedule a returned fetch has released all slots, and each index has a nil error exactly when both its reserves are set and decoded from its own answer; a stuck run has returned exactly when the limit is positive or the batch empty |
| Initializer.NewPoolInitializer | initializer/pool.go:47-60 | refuses exactly the limits below one; otherwise every listed factory is in the whitelist under its last entry and nothing else is |
| Initializer.InitRoundTrip | initializer/pool.go:102-136 | for answers that encode a factory, tokens and reserves, the slots are those tokens and reserves with type zero and the factory's fee, unless the factory is not listed |
| Initializer.InitOneContract | initializer/pool.go:97-136 | a nil error comes with both reserves from the pool's own answer, type zero and the fee of its own listed factory; an error leaves every other slot untouched |
| Initializer.AddressCanonical | initializer/pool.go:158-163 | an address is read from exactly 32 bytes, any twelve followed by the address in twenty; anything else, an empty answer included, is refused |
| Initializer.InitOneExact | initializer/pool.go:97-136 | an index has a nil error exactly when it was not cancelled, its factory answer names a listed factory and its token and reserve answers decode; then its slots are those very values, and otherwise the error names the first check that failed |
| Initializer.InitializeRefinesSequential | initializer/pool.go:66-144 | for simultaneous calls on one semaphore, under every schedule, workers stay within the shared limit, a returned call holds no slot, and each index's error, tokens, type, fee and reserves are those of its own answers |
| Initializations.BatchConserves | system.go:461-462 | for any reply of the registrar, every address is reported in an error, or added and reserves set under the ID returned for it, exactly as often as the batch lists it, so batch size minus errors counts the latter; whose reserves those are is the next rows' matter |
| Initializations.RowsExact | system.go:688-706 | for any reply, each ID ends on the row it had, or on the zero-reserve row of the pool that gets in under it, with the reserves of the last admitted pool for which that ID was returned and found |
| Initializations.IntendedExact | system.go:688-706 | for any reply, every pool that gets in ends on its own data and every old pool is as it was if and only if the reserves set last under each ID are those that belong there |
| Initializations.TrustExact | system.go:694-705 | the batch does as intended whatever the reserves are if and only if the registrar returned for every pool that gets in the ID its address resolves to |
| Initializations.MisplacedHappens | system.go:694-705 | a batch with no error reported that overwrites an old pool with the new one's reserves and leaves the new one at zero |
| Initializations.OutcomeExact | system.go:689-710 | a pool gets in exactly when it is the first registered, resolvable and absent candidate for its ID, and counts as a success exactly when the registrar's ID for it is then present |
| Initializations.StaleViewExact | system.go:462-466 | counting no success leaves the registry changed if and only if some pool gets in and none that gets in is found under the ID the registrar returned |
| Initializations.StaleViewHappens | system.go:694-705 | such a batch exists |
| Initializations.HonestBatch | system.go:623-713 | under the registrar's contract old rows stay in place, exactly the first candidates are appended with their own tokens, type, fee and reserves, and successes equal pools added |
| Initializations.ReadyExact | system.go:643-661 | what passes the filter is, in batch order, the pools whose error is nil, each with its own address and the values at its own index |
| Initializations.HonestExact | system.go:668-694 | the registrar's contract over its two slices: an index not marked as refused carries the ID its pool's address resolves to, and no error lies past the batch |
| Initializations.ReplyRead | system.go:689-706 | when each accepted pool resolves to the ID at its own index, a new one with known tokens whose ID no earlier accepted index carries ends under that ID on its own tokens, reserves, type and fee |
| Initializations.RefusalRead | system.go:673-692 | a pool marked as refused at its index is not added and is reported as refused |
| Initializations.DroppedTag | system.go:643-650 | the filter reports exactly the pools whose error is set, as failed initializations |
| Initializations.RefusedTag | system.go:673-686 | the registration loop reports exactly the pools marked as refused, as failed registrations |
| Initializations.AddedTag | system.go:695-706 | the add loop reports exactly the pools that cannot be added, with the reason, and those whose reserves cannot be set, as such |
| Initializations.RejectionExact | registry.go:111-149 | a registered pool is turned away for an unresolved address, an ID already there or taken earlier in the batch, an unresolved first token or an unresolved second one, in that order |
| Initializations.ErrorsInOrder | system.go:637-712 | the filter's errors come first, then the refusals, then those of the add loop |
| Reconciliation.CycleExact | system.go:544-593 | against whatever registry the lock finds, a cycle keeps every pool's place and identity and writes a pool its own fetched reserves exactly under a condition on the two snapshots and the fetch |
| Reconciliation.MovedPoolIsProtected | system.go:561-570 | a pool that either snapshot lacks or whose reserves differ between them is left alone |
| Reconciliation.OverwriteExact | system.go:568-592 | a pool's reserves at the lock are replaced if and only if it is still there, the earlier snapshots agreed and differed from the fetch, and the fetch differs from what is there now |
| Reconciliation.FetchedPair | reserves/reserves.go:70-83 | what a fetched slot stands for is what the answer decodes to, or nothing when the context was cancelled |
| Reconciliation.SelectExact | system.go:544-577 | an update is selected exactly for a pool in both snapshots with the same two reserves, fetched without an error, with something that differs from them in either number |
| Reconciliation.ResolvableInOrder | system.go:517-529 | the fetch batch is, in snapshot order, the pools whose address is known |
| Reconciliation.FetchAligned | system.go:517-531 | after skipping unresolvable pools, the answer found for a pool is the one the chain gave for its own address |
| Reconciliation.CycleConverges | system.go:502-594 | with nothing else running, successfully fetched pools end on the fetched reserves, others are untouched, and a second cycle over the same answers selects nothing |
| Reconciliation.MissingExact | system.go:586-591 | an update is reported as failed exactly when its pool was gone at the lock |
| Deletions.DeleteAllRefines | system.go:797-812 | for any list, duplicates and unknown IDs included, the final map is the initial one without the listed IDs |
| Deletions.DeleteErrorsExact | system.go:805-810 | entry i fails exactly when its ID was absent at first or listed earlier |
| Deletions.DeletionReplyExact | system.go:800-824 | the reply is nil exactly when every listed pool is there and listed once; otherwise entry i is set exactly when its pool was absent or listed earlier |
| Deletions.DeleteOrderIrrelevant | system.go:805-813 | the final map depends only on which IDs are listed |
| Deletions.DeleteOrderShowsInView | registry.go:194-203 | the order of what is left in the view does depend on the list's order |
| Deletions.AllFailedUnchanged | system.go:815-818 | when every entry fails the registry is unchanged, so not republishing is sound |
| Deletions.PruneRemovesSelected | system.go:733-764 | whatever ran since the pruner's snapshot, right after its deletion none of its selected pools is left and every other pool is as it was |
| Deletions.BlockedIdsExact | system.go:744-754 | selected is exactly what is in the snapshot, has a known address, and has it on the block list |
| Deletions.BlockedInOrder | system.go:744-754 | the selection is in snapshot order |
| Deletions.PruneConverges | system.go:744-757 | without interference no pool whose known address is blocked remains and a second pass selects nothing |
| Systems.UniswapV2System.constructor | system.go:177-230 | starts with the published view equal to the registry's |
| Systems.UniswapV2System.UpdateCachedView | system.go:251-255 | afterwards the published view is the registry's, in fresh objects |
| Systems.UniswapV2System.ApplyUpdates | system.go:597-620 | applies the batch entry by entry and never reports an error |
| Systems.UniswapV2System.QueueDiscovered | system.go:379-390 | an address waits afterwards exactly when it did before or is discovered, not blocked and not resolved, and the count is the growth |
| Systems.UniswapV2System.HandleBlock | system.go:372-394 | one block step updates the rows, queues, stores the number and publishes |
| Systems.UniswapV2System.SkipBlock | system.go:264-268 | stores the skipped block's number and nothing else |
| Systems.UniswapV2System.Drain | system.go:428-439 | empties the queue into a list of its members, each once, in any order |
| Systems.HandedOver | system.go:643-668 | the registrar gets one request per index with a nil error, in batch order, with the batch's address and the tokens at that index; the record also carries the type and fee that the add takes |
| Systems.UniswapV2System.ApplyInitializations | system.go:623-713 | filter, one batch registration, adds and updates leave the table and the error list of the specification |
| Systems.UniswapV2System.FinishInitializations | system.go:457-467 | publishes exactly when some pool was added and reserves set under the ID returned for it |
| Systems.UniswapV2System.ResolveAddresses | system.go:517-529 | the fetch batch is the resolvable part of the snapshot, IDs and addresses aligned |
| Systems.UniswapV2System.SelectChanges | system.go:539-577 | the two maps and three aligned slices yield exactly the selected updates |
| Systems.UniswapV2System.ChooseChanges | system.go:533-577 | the second snapshot, read through the pointer, and the first yield exactly the selected updates |
| Systems.UniswapV2System.ApplyReconciliation | system.go:579-593 | overwrites the selected pools, publishes, and reports the ones that are gone |
| Systems.UniswapV2System.SelectBlocked | system.go:744-754 | the selection is the blocked part of the snapshot in view order |
| Systems.UniswapV2System.DeletePool | system.go:775-786 | deletes one pool and republishes exactly when it was there |
| Systems.UniswapV2System.DeletePools | system.go:797-825 | the result is nil exactly when every entry succeeded, and the view is republished exactly when one did |
| Runs.StepKeepsTables | system.go:249-255 | every step of every process keeps IDs unique and the view equal to the registry's, unless the lock holder still owes a view |
| Runs.StepKeepsLedger | system.go:379-467 | each enqueueing is still queued or drained once; each drained address is in flight, applied or dropped; each applied one is counted as a success or reported in an error; and a step drains, applies or drops the whole of one batch or touches none |
| Runs.StepKeepsBlocks | system.go:258-279 | on an increasing stream neither the stored number nor the block behind the view ever decreases, the number is the latest block skipped or applied, and the block behind the view never exceeds it, even between the two stores |
| Runs.StepKeepsProvenance | initializer/pool.go:109-136 | every pool is a restored one up to reserves, or its ID, tokens, type zero and fee come from answers given for its own address in some applied batch, the fee being that of the whitelisted factory it named |
| Protocol.AllUsable | initializer/pool.go:76-83 | whatever the initializer returns, the batch applier meets slices of the right length and no nil reserve |
| Runs.ReachableIsSafe | system.go:177-230 | all of these hold in every state of every interleaving, from an empty or restored registry |
| Theorems.QuietStateIsCoherent | system.go:392-393 | whenever the lock is free, each pool occurs once, the view is the registry's, and the stored number is the latest block handled and covers the view |
| Theorems.ViewsNeverGoBack | system.go:251-279 | from one point of any run to a later one, the block behind the published view and the stored number do not fall |
| Theorems.TakenExact | system.go:258-275 | over any run the blocks taken from the stream are those skipped, failed or parsed, each once and in order |
| Theorems.GivenUp | system.go:511-515 | a reconciler that gives up has changed nothing and can start over |
| Theorems.DiscoveredIsQueued | system.go:379-390 | from a block's logs: an address waits afterwards exactly when it did before, or emitted a Swap and is neither blocked nor known to the registrar |
| Theorems.BatchFate | system.go:425-467 | in any run a drained batch stays whole and alone until the first step that is done with it, which drops all of it or applies all of it, or else it is still in flight at the end |
| Theorems.StepIdentity | registry.go:151-203 | only the initializer brings an ID in, only deletions take one out, and no step changes a pool's tokens, type or fee |
| Theorems.IdentityUntilDeletion | registry.go:194-203 | over any run in which it is never deleted, a pool keeps its tokens, type and fee whatever moves its row |
| Theorems.OverwriteInAnyRun | system.go:580-592 | in any interleaving the reconciler adds, removes and renames nothing, and leaves alone every pool that moved between its snapshots |
| Theorems.CycleRun | system.go:502-594 | from any quiet state an uninterrupted cycle around the fetcher completes: each pool ends, in registry and view, on the reserves that the answer for its own address decodes to, or keeps its own when there is none, and the same cycle again leaves the state as it is |
| Theorems.CycleOnChain | system.go:502-594 | the same for any fetch result that agrees with one answer per address |
| Theorems.PruneInAnyRun | system.go:756-763 | in any interleaving the pruner's step removes exactly its selected pools |
| Theorems.PruneRun | system.go:733-764 | an uninterrupted prune removes every pool whose known address is blocked, from registry and view, leaves every other pool as it was, unresolvable ones included, and the next one selects nothing |
| Theorems.MovedSinceExact | system.go:568-592 | in any interleaving, a pool that moved since the second snapshot keeps its row through the overwrite if and only if it was not selected or the fetch is what it holds already |
| Theorems.LostUpdate | system.go:533-592 | a run of eight steps in which the block lands between the second snapshot and the lock, its reserves stand in registry and view, and the older fetch then replaces them |
| Tracking.LatestConcat | logs/updated_pool.go:20-22 | over concatenated logs a pool's last valid Sync is the second part's, or else the first part's |
| Tracking.BatchSyncs | system.go:597-620 | a batch leaves a pool with the last valid Sync its logs hold for the one address that resolves to it |
| Tracking.StepSyncs | system.go:372-394 | no step but a block's application, or a reconciler write, changes the reserves of a pool that stays |
| Tracking.PoolFollowsItsBlocks | system.go:258-404 | in any interleaving, a pool that stays and that the reconciler leaves alone ends on the last valid Sync of its address over all applied blocks, or on its starting reserves |
| Tracking.StepWrites | system.go:372-594 | a step leaves a pool that stays with the block's last valid Sync that resolves to it, the reconciler's fetch when it selected it, or its row as it was |
| Tracking.LastWriterWins | system.go:372-594 | in any interleaving, a pool that stays ends on the reserves of the last block or reconciler step that wrote it, or on its starting reserves |
| Tracking.AdmittedThenWritten | system.go:623-713 | a pool admitted in any interleaving and never deleted comes from one index of its batch and ends with the tokens, type and fee its own answers name and the reserves of its last writer, or else those its own answer decodes to |
| Tracking.LateBlock | system.go:533-592 | from any quiet state in which the reconciler has chosen, a block that gets the lock first reaches registry and view, and the reconciler then replaces its reserves exactly when the earlier snapshots selected the pool |
| Refinement.ParseSection | logs/updated_pool.go:18-63 | the two parsers on the heap take the machine's parse step, in an order map iteration allows |
| Refinement.BlockFromLogs | system.go:353-394 | from a block's logs, parsers and critical section on the heap take the machine's parse, apply, store and release steps |
| Refinement.SkipSection | system.go:264-268 | a block ruled out by the bloom test is the machine's skip |
| Refinement.BlockSection | system.go:372-394 | the block step on the heap is the machine's apply, store and release, and reserve numbers held elsewhere keep their values and stay outside the registry |
| Refinement.DrainSection | system.go:429-439 | the drain on the heap is the machine's |
| Refinement.InitSection | system.go:457-467 | the initializer's second section on the heap is the machine's apply and release, returns the errors of the specification, and reserve numbers held elsewhere keep their values and stay outside the registry |
| Refinement.FirstSnapshotSection | system.go:506-529 | the first snapshot read through the pointer is the machine's |
| Refinement.SecondSnapshotSection | system.go:533-577 | the second snapshot and comparison choose what the machine's step chooses, with reserve numbers taken from the fetch |
| Refinement.SelectBlockedSection | system.go:738-754 | the pruner's pass over the published view selects what the machine's step selects |
| Refinement.OverwriteSection | system.go:579-593 | the reconciler's section on the heap is the machine's overwrite and release, names the pools that are gone, and reserve numbers held elsewhere keep their values and stay outside the registry |
| Refinement.DeleteSection | system.go:775-786 | a single deletion on the heap is the machine's, its reply says whether the pool was there, and reserve numbers held elsewhere keep their values and stay outside the registry |
| Refinement.DeleteManySection | system.go:797-825 | a batch deletion on the heap, a caller's or the pruner's, is the machine's, with the specification's error slice, and reserve numbers held elsewhere keep their values and stay outside the registry |
| Execution.Act | system.go:258-825 | any turn of any process on the heap, with the variables it keeps between its sections, takes the machine's steps for that turn and tells its caller or the error handler what the specification says, or does nothing when the process is elsewhere |
| Execution.DueIsPossible | system.go:258-825 | a turn passes exactly when the machine, its lock free, cannot take the steps of its action |
| Execution.HearsGone | system.go:585-591 | the reconciler reports exactly the chosen pools that are gone at the lock |
| Execution.HearsDeletedMany | system.go:756-825 | a batch deletion's caller, the pruner included, is told which entries found no pool, and nothing when all did |
| Execution.HearsInit | system.go:460-485 | the initializer reports as many errors as there are pools not counted as successes |
| Execution.RunAll | system.go:177-230 | any schedule of turns on the heap is one valid run of the machine that ends in the same state, every turn's reply is the specification's, and reserve numbers held outside the registry keep their values throughout |
| Execution.RunWhileReading | system.go:232-242 | a reader's copy of the view, taken in any state, reads through any schedule what was published when it was taken |
| Execution.Execute | system.go:177-242 | from any well-formed registry, through any schedule with a reader in its midst, heap and machine end in the same safe state, the reader's copy still shows the machine's view of that moment, and the view by then is of no earlier block |

## Left out

- Fanout.StepKeepsOk: a goroutine's writes to the result slots of its own index are one step; no other goroutine reads or writes that index.
- Systems.UniswapV2System.ApplyInitializations: the seven filtered slices are one slice of records, and the map from filtered to original positions, which the code fills and never reads, is absent.
- Systems.UniswapV2System.FinishInitializations: excludes only inputs on which the code itself fails with an index or nil panic: an error slice shorter than the batch, a value slice without an entry where the error is nil, a nil reserve that the reserve update reads, a reply without an ID for a pool it accepts or with an error past the batch; `Protocol.AllUsable` shows that the repository's own initializer gives none of the first three.
- Systems.UniswapV2System.SelectChanges: a nil fetched reserve next to a nil error is excluded for a pool of the second snapshot, where the code compares it; the repository's own fetcher never gives one (`Reserves.FetchRefinesSequential`).
- Execution.Execute: a turn is a whole critical section or a whole unlocked part, so loads of the view in the midst of a critical section occur in the step machine only; a registrar reply that breaks the registrar's contract is passed over.
- The capacity and sharing of Go slice backing arrays: slices are values here, reserve numbers are objects.
- Ethereum calls, log filtering, retries, contexts and timeouts: each is an answer or a failure given from outside.
- The bloom filter: whether a block is skipped is an input, so nothing is said of Sync events in skipped blocks.
- Metrics, logging, tickers, configuration checks, error texts and error classification; the error handler calls for a failed fetch, a failed client or an ID without an address, which change no state.
- Cancellation while calls are under way: a worker's context state and its own answers are inputs.
