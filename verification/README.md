# A verified model of chain-indexer

chain-indexer follows EVM chains: a poller walks each chain forward tick by tick, hands blocks and decoded logs to a
handler, remembers what it committed in a block store, and undoes work when the chain reorganises. This project models
that poller, its store, the concurrent gatherers it relies on, the contract registry and the ABI merge, and proves what
holds of them for every input, every schedule and every run. `dafny verify dfyconfig.toml` checks all of it.

## How the model is built

* **State.** A `World` is the block store, the history of events and the number of external calls made so far. The
  history holds the handler's calls (`Delivered`, `LogOffered`, `Retracted`) and bookkeeping events that say how the
  poller's own chain moved. `Chain`, `Replay`, `High` and `Owned` read the committed chain, the handler's view
  (overwrite on delivery, erase on retraction), the highest committed number and the committed, not yet retracted
  numbers off the history. `GivenUp` is the baseline of a chain that the last move gave up as a whole.
* **Environment.** The RPC client, the log parser, the handler, the registry and the goroutine scheduler are oracles
  indexed by the number of calls made so far. Any call may fail, and no two calls need to agree.
* **Program.** `Poller.EVMChainPoller`, `StoreImpl.InMemoryStore` and `Registry.InMemoryContractRegistry` are classes
  with the program's loops and fields. Each poller method is proved to do what a function of module `PollerSpec` says;
  the theorems are about those functions and therefore about the methods.
* **Traces.** `Delivered` and `LogOffered` carry the number of calls made when they returned. `Trace` says of every tick
  and every reorg which calls it makes, in which order, how many, with what, and why it ends.
* **Other chains.** `Interleaved` is the same tick with any operations of other chains' pollers before each of its own
  store operations. It is proved to be indistinguishable, for its chain and its handler, from the tick alone, so the
  statements about runs hold for a shared store.
* **Dichotomy.** `Healthy`: above block 0 the store holds exactly the retention window of one hash-linked chain, the
  cursor is the end of that chain, the handler's view agrees with it, and every past event was right when it happened.
  `Stranded`: the cursor names a number that has no record. Every reachable state is one or the other, and the condition
  under which a step goes from the first to the second is exact.

Hypotheses, each stated where it is used:

* `Honest`: a block returned for number n is the null block or has number n, n < 2^64-1 and a non-empty hash, and the
  poller's chain id is not 0. The null block (every field zero) is what `GetBlockByNumber` makes of a JSON `null`
  (pkg/clients/ethereum/handlers.go:33-40). Nothing is said about the chain id of a returned block.
* `NeverCarries`: no returned block carries the id d. Only `TickUnseenElsewhere` needs it, for the chain d it speaks of.
* `Settles`, `Steady`, `NoFailures`: the canonical chain has stopped changing, for good or during one tick; log queries,
  decoding and log handling succeed and no log fetch panics. Only the convergence results need them.
* `HashIdentifies`, `PinsParents`: a committed record whose hash is the canonical one is the canonical record, or at
  least has the canonical parent hash. Only the convergence results need them.
* `LogsHonest`: during one fetch, a successful query returns the block's logs that match its address filter, each once.

## What turned out to be false, and the exact condition

* **A reorg that reports success can leave a dangling cursor.** A search that runs out of depth, or reaches block 0,
  re-saves its deepest orphan as the cursor and then deletes it with the others. `ReconcileResolvesIff` says exactly when
  the cursor still resolves, `BaselineRetractedAndCursorLost` is a run in which it does not, and `StrandedIsAbsorbing`
  says that no later tick changes anything. `RestartHealsIff` says exactly when a restart makes the poller healthy again.
* **A missing block is filed under the fetched block's chain id**, not the configured one. The answer to
  `eth_getBlockByNumber` has no chain id member (pkg/clients/ethereum/types.go:29), so that id is 0: the repair moves the
  cursor of chain 0 and strands the poller. `ReconcileSeenElsewhere` says exactly what any other chain sees of a reorg,
  `RepairIsMisfiled` is a run, and `TickUnseenElsewhere` shows that chains whose id no block carries see nothing.
* **A null answer looks like a reorg at block 0**, and the search's first subtraction wraps to 2^64-1
  (`SearchFromZeroWraps`). A healthy chain is unharmed (`NullAnswerIsHarmless`). For every other start nothing wraps
  (`SearchIsBounded`).
* **A start on the null block is not healthy** (`StartIsHealthyIff`, `NullStart`). The poller is then stuck while block 1
  has a parent (`NullStartIsStuck`), and delivers further null answers as block 0 (`NullFollowsNull`).
* **A number can be retracted that was never delivered.** `UndeliveredIsRetractedIff` says exactly when: it is the
  baseline, and the reorg gives up the whole chain. `BaselineRetractedAndCursorLost` is a run.
* **The range loop of a tick never ends for the tip 2^64-1**, and ends for every other (`RangeLoopEndsIff`).
* **`int(a-b)` orders two ids correctly if and only if** their difference fits 64 signed bits (`CmpIsOrderIff`); ids
  2^63 apart each sort before the other (`CmpCanContradictItself`).
* **`combineAbis` preserves the element list if and only if** there is at most one input or no input is an empty array
  (`CombinePreservesMeaning`, `EmptyArraysBreak`).
* **The capacity hint of `chunkAddresses`** is the number of pieces if and only if len+size-1 fits an int, and is
  negative, hence a panic, exactly in the range `CapacityHintIsCountIff` gives.

Where code and documentation differ, the model follows the code. The configuration offers `ReorgCheckEnabled`
(README.md:65), but nothing reads it: the check is always on, and a depth of 0 means 10. `MaxReorgDepth` is converted to
`uint64`, so a negative depth means no bound. Logs are queried by number and not by hash, so the logs committed for a
block are those the client had for its number when they were fetched.

## Model

| member | source | states |
|---|---|---|
| `Guarantees.CursorTells` | pkg/chainPollers/evm/evmChainPoller.go:112-263 | In every state reachable from a successful start on an unused chain, whatever the oracles answer and other chains do to the store between and during the ticks: the poller is healthy if the cursor resolves and stranded if it does not. |
| `Guarantees.StoreIsOneChain` | pkg/chainPollers/evm/evmChainPoller.go:308-330 | Exact retention window in every reachable state with a resolving cursor: above block 0 the stored numbers are exactly max(baseline, highest-H+1) to the cursor, after rollbacks and re-advances too, each stored record's parent hash is the hash of the stored record before it, and a baseline 0 is never pruned. |
| `Guarantees.HandlerHoldsCommittedChain` | pkg/chainPollers/evm/evmChainPoller.go:216-254 | Handler-trace replay: overwriting on HandleBlock and erasing on HandleReorgBlock gives, above the baseline and up to the cursor, exactly the committed hash-linked chain; every committed number above the cursor has been retracted since. |
| `Guarantees.DeliveriesAndRetractionsAreRight` | pkg/chainPollers/evm/evmChainPoller.go:216-244 | At every call of every run: a block is delivered only as the client returned it two calls before, and only as the successor, by number and parent hash, of the last committed record; a number is retracted only while the handler holds it, or once if it is the baseline of the chain the last move gave up. |
| `Guarantees.UndeliveredIsRetractedIff` | pkg/chainPollers/evm/evmChainPoller.go:455-475 | A reorg retracts a number the handler does not hold if and only if every record down to the baseline is within depth and contradicted, the handler does not hold the baseline, and the client answers below it if asked; the number is then the baseline. |
| `Guarantees.CommitsAreComplete` | pkg/chainPollers/evm/evmChainPoller.go:265-332 | No skipping: every commit follows the delivery of a block with that record's number, hash, parent hash and timestamp, then a log fetch that succeeded, then the acceptance of all it returned, each as the parser decoded it at its own call, in order, with nothing in between; for every set of logs the block had during that fetch, these are as a multiset the ones from the contracts listed then, each once. |
| `Guarantees.OffersAreRight` | pkg/chainPollers/evm/evmChainPoller.go:283-303 | Every log handed over in every run is the next of those fetched for the block delivered last, with that block under the configured chain id, with the value of a successful decoding of that very log at the call before, and with the handler's verdict; all logs before it were accepted. |
| `Guarantees.RecordsAreBlocks` | pkg/chainPollers/evm/evmChainPoller.go:308-314 | Field by field, in every reachable state with a resolving cursor: each stored record from block 1 up has the number, hash, parent hash and timestamp of a block the client returned for its number, under the configured chain id, and above the baseline of the block the handler holds. |
| `Guarantees.FailedBlockIsRetried` | pkg/chainPollers/evm/evmChainPoller.go:216-254 | After a tick that failed on block n the cursor is n-1, and the next tick that gets a tip and a linking block n delivers it before anything else. |
| `Guarantees.RestartHealsIff` | pkg/chainPollers/evm/evmChainPoller.go:119-155 | A stranded poller that is started again has the start block as its cursor, and is healthy if and only if that is not the null block, no other record from block 1 up is left and nothing committed above it is unretracted. |
| `Guarantees.ReconcileSeenElsewhere` | pkg/chainPollers/evm/evmChainPoller.go:455-542 | What another chain d sees of a reorg, exactly: if the search will meet a number missing here that comes back with the id d, then d sees that block saved as its own, cursor included; if not, nothing. |
| `Guarantees.TickUnseenElsewhere` | pkg/chainPollers/evm/evmChainPoller.go:183-263 | No tick, with or without a reorg or a null answer, changes any cursor or record of a chain d whose id no returned block carries; for a client that sets no id this is every d other than 0 and the poller's own. |
| `Guarantees.MisfiledBlockHitsOtherChain` | pkg/chainPollers/evm/evmChainPoller.go:496-514 | If the search will meet a missing number that comes back with the id of another chain, that chain's cursor becomes a record with that block's content and this poller is stranded. |
| `Guarantees.RangeLoopEndsIff` | pkg/chainPollers/evm/evmChainPoller.go:205-210 | On wrapping uint64 arithmetic the loop that lists the numbers up to the tip ends if and only if the tip is below 2^64-1. |
| `Runs.ReconcileResolvesIff` | pkg/chainPollers/evm/evmChainPoller.go:455-476 | A reorg without error leaves a resolving cursor if and only if the search met, within depth and above block 0, a matching record or a missing block that comes back with this chain's id; a reorg with an error leaves the store unchanged. |
| `Runs.OrphansDecide` | pkg/chainPollers/evm/evmChainPoller.go:466-475 | A search that found orphans leaves either a healthy poller whose chain is the prefix up to the ancestor (or the repaired block alone), or a stranded one, and says which. |
| `Runs.NothingToRetract` | pkg/chainPollers/evm/evmChainPoller.go:458-464 | A search that failed or found no orphan leaves the store as it was and the poller healthy. |
| `Runs.NullAnswerIsHarmless` | pkg/chainPollers/evm/evmChainPoller.go:226-237 | A null block in the forward walk ends in an error and leaves this chain healthy. |
| `Runs.ForwardKeeps` | pkg/chainPollers/evm/evmChainPoller.go:216-254 | The walk over the numbers keeps the poller healthy or ends in a reorg; a failure stops right above the committed chain and success ends at the tip. |
| `Runs.TickKeeps` | pkg/chainPollers/evm/evmChainPoller.go:183-263 | Whatever fails during a tick, a healthy poller is afterwards healthy or stranded, and only a reorg can strand it. |
| `Runs.NoCursorNoTick` | pkg/chainPollers/evm/evmChainPoller.go:185-189 | A tick without a resolving cursor changes nothing and asks nobody. |
| `Runs.StrandedIsAbsorbing` | pkg/chainPollers/evm/evmChainPoller.go:185-189 | In particular a stranded poller, and a poller on a closed store, stay as they are at every tick. |
| `Runs.StartIs` | pkg/chainPollers/evm/evmChainPoller.go:112-164 | Start with a resolving cursor changes nothing and asks nobody; otherwise the reply is exactly that of the latest number, of its block and of the save, one or two calls are made, and a failed start leaves store and history alone. |
| `Runs.RestartKeepsHealthy` | pkg/chainPollers/evm/evmChainPoller.go:119-163 | A healthy poller is left exactly as it is by being started again. |
| `Runs.StartIsHealthyIff` | pkg/chainPollers/evm/evmChainPoller.go:119-155 | A successful start of a chain without a resolving cursor makes a record with the start block's number, hash, parent hash and timestamp, under the configured id, the cursor and tells the handler nothing; the poller is healthy if and only if the block is not the null block and no record or unretracted commit of an earlier chain is in its way. |
| `Runs.StartIsHealthy` | pkg/chainPollers/evm/evmChainPoller.go:119-155 | On an unused chain a successful start is healthy if and only if it is not on the null block; the history is the baseline alone. |
| `Runs.OtherKeeps` | pkg/chainPollers/persistence/memory/memory.go:64-118 | Store operations of other chains' pollers keep this poller healthy, or stranded. |
| `Runs.TickAmidKeeps` | pkg/chainPollers/evm/evmChainPoller.go:183-263 | A tick with other chains' operations between its own keeps the poller healthy or stranded, and does nothing when it is stranded. |
| `Runs.RunIsSafe` | pkg/chainPollers/evm/evmChainPoller.go:166-181 | Every finite run of ticks with other chains' store operations between and inside them stays healthy or stranded, and a stranded poller's history never grows again. |
| `Runs.RunIsItsTicks` | pkg/chainPollers/evm/evmChainPoller.go:166-181 | To its own chain and its handler a run is its ticks one after the other with nobody else on the store: same calls, same cursor, same records. |
| `Offers.OffersAre` | pkg/chainPollers/evm/evmChainPoller.go:283-303 | The loop over the logs by call: the i-th log is decoded at call t+2i and handed over at t+2i+1 as decoded; it succeeds if and only if all can be decoded and are accepted, and otherwise stops at the first that is not. |
| `Trace.TickIs` | pkg/chainPollers/evm/evmChainPoller.go:183-263 | A tick asks for the tip once; without an answer or with nothing above the cursor it does nothing; otherwise it walks the numbers above the cursor from the next call on. |
| `Trace.TickDeliversOnce` | pkg/chainPollers/evm/evmChainPoller.go:205-254 | What the handler is told in a tick: exactly one delivery and one commit for each number from the cursor's successor to the tip, in order; up to the failing number if it fails; and no retraction unless the tick meets a reorg. |
| `Trace.WalkIs` | pkg/chainPollers/evm/evmChainPoller.go:216-254 | The walk delivers, processes and commits number after number, each once, one call right after the other, until the tip or an obstacle, which is what it reports: a fetch error, a block that cannot be processed, or a parent hash that is not the last committed hash. |
| `Trace.ProcessedIff` | pkg/chainPollers/evm/evmChainPoller.go:265-333 | A delivered block is committed, with its own content, if and only if its logs arrive, can all be decoded and are all accepted; otherwise it leaves only the offers up to the failing log, and the cause is given with the call it happened at. |
| `Trace.SaveErrorsAreIgnored` | pkg/chainPollers/evm/evmChainPoller.go:316-332 | Whether a block counts as processed does not depend on the store: a failing save changes neither the reply nor the calls made. |
| `Trace.ReorgIs` | pkg/chainPollers/evm/evmChainPoller.go:455-541 | A reorg from where and how its search ended: the exact reply; if it succeeds, the handler is told every number above the stop once, highest first, exactly their records are gone, the cursor is the ancestor, or the deepest orphan if the search ran out, or unmoved if the block was filed elsewhere, and every external call is accounted for; if it fails, nothing is retracted or changed. |
| `Trace.RepairKeepsContent` | pkg/chainPollers/evm/evmChainPoller.go:502-514 | A missing block is saved, and becomes a cursor, with the number, hash, parent hash and timestamp the client returned and the chain id it came with. |
| `Failures.BaselineRetractedAndCursorLost` | pkg/chainPollers/evm/evmChainPoller.go:466-541 | A concrete run: start at 5, block 5 changes its hash, depth 1; one tick retracts block 5, which was never delivered, and leaves a cursor without a record. |
| `Failures.RepairIsMisfiled` | pkg/chainPollers/evm/evmChainPoller.go:502-514 | A concrete run: start at 5, block 5 changes its hash, depth 2; one tick retracts block 5, makes block 4 the cursor of chain 0 and strands the poller. |
| `Failures.NullStart` | pkg/chainPollers/evm/evmChainPoller.go:138-154 | A start on the null block leaves its hashless record as cursor, and is not healthy. |
| `Failures.NullStartIsStuck` | pkg/chainPollers/evm/evmChainPoller.go:226-237 | After such a start a tick changes neither store nor history whenever block 1 is an error or has a parent hash. |
| `Failures.NullFollowsNull` | pkg/chainPollers/evm/evmChainPoller.go:217-253 | After a start on the null block a further null answer links, since both hashes are empty: it is delivered, and the cursor stays on block 0 while the walk goes on. |
| `Interleaved.OthersUnseen` | pkg/chainPollers/persistence/memory/memory.go:64-118 | Any number of operations of other chains leave this chain's view as it was. |
| `Interleaved.TickAlike` | pkg/chainPollers/evm/evmChainPoller.go:183-263 | A tick amid arbitrary operations of other chains makes the same calls to client and handler as a tick alone, and leaves the same cursor and records of its chain. |
| `Interleaved.ForwardAlike` | pkg/chainPollers/evm/evmChainPoller.go:216-254 | The forward walk with other chains' operations between its own makes the same calls and leaves its chain the same. |
| `Interleaved.CommitAlike` | pkg/chainPollers/evm/evmChainPoller.go:316-330 | Operations of other chains before the save and before the prune change nothing for this chain. |
| `Interleaved.SearchAlike` | pkg/chainPollers/evm/evmChainPoller.go:483-541 | The backward search with other chains' operations before each read and save finds the same orphans, ends the same way and leaves its chain the same. |
| `Interleaved.RetractAlike` | pkg/chainPollers/evm/evmChainPoller.go:466-473 | The retraction loop with other chains' operations between its deletions has the same effect on its chain and handler as alone. |
| `Invariant.CursorResolves` | pkg/chainPollers/persistence/memory/memory.go:40-61 | In a healthy state reading the last processed block gives the last committed record. |
| `Invariant.StoreCommit` | pkg/chainPollers/evm/evmChainPoller.go:316-330 | Saving the next record and pruning the one that leaves the window keeps the exact window, including while re-advancing below the highest block. |
| `Invariant.DeliverKeeps` | pkg/chainPollers/evm/evmChainPoller.go:239-244 | Delivering a linking block before it is committed keeps the invariant, whether or not it is committed later. |
| `Invariant.CommitKeeps` | pkg/chainPollers/evm/evmChainPoller.go:308-332 | Committing a delivered, fully processed block keeps the invariant and extends the committed chain by its record. |
| `Invariant.ProcessKeeps` | pkg/chainPollers/evm/evmChainPoller.go:265-333 | Processing a delivered block either commits it or leaves store and chain exactly as they were; the invariant holds either way. |
| `Reorg.SearchShape` | pkg/chainPollers/evm/evmChainPoller.go:483-541 | The backward search in closed form, for a client that may change its answers at every call: the orphans are the stored records above the stop, all contradicted when asked, and each of the four endings is described by what was asked and stored. |
| `Reorg.SearchIsBounded` | pkg/chainPollers/evm/evmChainPoller.go:481-483 | For every start of at least 1 and every int depth no subtraction wraps, at most min(uint64(depth), start-1) blocks are fetched, and there are as many orphans as numbers between stop and start. |
| `Reorg.SearchFromZeroWraps` | pkg/chainPollers/evm/evmChainPoller.go:483-514 | From a block numbered 0, for every client and every depth, the search looks at 2^64-1 and nothing else: it reports the client's error, or saves what the client returns under the id it carries. |
| `Reorg.DepthIsPlain` | pkg/chainPollers/evm/evmChainPoller.go:483 | Below the start the wrapping loop guard is the plain inequality on depth; a negative depth d stands for 2^64+d. |
| `Reorg.SearchMeetsIff` | pkg/chainPollers/evm/evmChainPoller.go:483-536 | The search ends matched or repaired on number q if and only if q is the first number below the start that is missing or agrees, within depth, above 0 and answered. |
| `Reorg.SearchExhaustsIff` | pkg/chainPollers/evm/evmChainPoller.go:483-541 | The search runs out if and only if every number within depth and above 0 is stored and contradicted, and then it stops at max(0, start-1-depth). |
| `Reorg.RetractAllStore` | pkg/chainPollers/evm/evmChainPoller.go:466-473 | The retraction loop deletes exactly the orphans' numbers, touches no cursor, and tells the handler each number once, highest first. |
| `Reorg.RetractionsOk` | pkg/chainPollers/evm/evmChainPoller.go:466-467 | Retracting a descending range keeps the history right: each retraction is allowed at its own moment, after those before it. |
| `Reorg.StoreRewind` | pkg/chainPollers/evm/evmChainPoller.go:531-536 | Moving the cursor back to a stored record and deleting the records above leaves exactly the window up to that record. |
| `Reorg.StoreRepair` | pkg/chainPollers/evm/evmChainPoller.go:496-514 | Saving a block that was missing below the window and deleting the records above leaves a one-block chain. |
| `Reorg.RewindKeeps` | pkg/chainPollers/evm/evmChainPoller.go:466-536 | A reorg that ends on a stored record keeps the invariant; the committed chain becomes its prefix up to that record. |
| `Reorg.RepairKeeps` | pkg/chainPollers/evm/evmChainPoller.go:466-536 | A reorg that ends on a missing block of this chain keeps the invariant; the committed chain starts over from that block. |
| `Reorg.LossStrands` | pkg/chainPollers/evm/evmChainPoller.go:466-541 | A reorg that exhausts its depth, or files its block elsewhere, succeeds and leaves a cursor without a record. |
| `Convergence.ConvergesIff` | pkg/chainPollers/evm/evmChainPoller.go:183-263 | On a settled hash-linked chain with tip above the cursor and no failures: after two ticks, and after any larger number, the poller has caught up if and only if the canonical chain builds on the cursor or a fork point above block 0 is within depth. |
| `Convergence.RunConvergesIff` | pkg/chainPollers/evm/evmChainPoller.go:166-263 | The same for every run with at least two ticks, whatever other chains do to the store between and inside them. |
| `Convergence.TwoTicksSuffice` | pkg/chainPollers/evm/evmChainPoller.go:183-263 | Within reach, two ticks or more bring the cursor to the tip with a canonical committed chain. |
| `Convergence.NoTicksSuffice` | pkg/chainPollers/evm/evmChainPoller.go:183-263 | Out of reach, after every number of ticks the poller is stranded or still below the tip and out of reach. |
| `Convergence.CaughtUpMeans` | pkg/chainPollers/evm/evmChainPoller.go:183-263 | Caught up means: the cursor is the canonical tip, every stored record from block 1 up is the canonical block, and the handler holds the canonical block of every number above the baseline. |
| `Convergence.SearchIsExact` | pkg/chainPollers/evm/evmChainPoller.go:478-537 | Stopping at the first match is sound and complete: with a stored fork point within depth and hashes that pin parent hashes, the search returns exactly the stored blocks from 1 up that disagree with the canonical chain, in descending contiguous order. |
| `Convergence.RecoverableIff` | pkg/chainPollers/evm/evmChainPoller.go:483-541 | The search ends on a usable ancestor if and only if there is a fork point within reach. |
| `Convergence.DetectionFindsOrphans` | pkg/chainPollers/evm/evmChainPoller.go:226-237 | On a chain that is stable during the tick, with depth and cursor at least 1, a parent-hash mismatch gives a non-empty orphan list headed by the cursor's record and the tick reports no error. |
| `Convergence.AgreesDown` | pkg/chainPollers/evm/evmChainPoller.go:520-536 | A hash-linked chain whose last hash is canonical is canonical all the way down, which is why the search may stop there. |
| `Environment.WithDefaults` | pkg/chainPollers/evm/evmChainPoller.go:75-89 | A setting of 0 becomes 10 (depth), 100 (history) or 1000 (addresses) and any other is kept; the search can then always look one block back. |
| `Poller.EVMChainPoller.constructor` | pkg/chainPollers/evm/evmChainPoller.go:60-110 | The poller keeps its store and works with the defaulted configuration. |
| `Poller.EVMChainPoller.Start` | pkg/chainPollers/evm/evmChainPoller.go:112-164 | Start changes store, history and call count, and replies, exactly as specified, error paths included. |
| `Poller.EVMChainPoller.ProcessNextBlock` | pkg/chainPollers/evm/evmChainPoller.go:183-263 | One tick takes the world exactly to the specified one. |
| `Poller.EVMChainPoller.FetchRange` | pkg/chainPollers/evm/evmChainPoller.go:205-254 | The loop over the numbers above the cursor computes the specified forward walk. |
| `Poller.EVMChainPoller.ProcessOne` | pkg/chainPollers/evm/evmChainPoller.go:216-254 | One iteration either ends the walk in its specified final world or leaves exactly the rest of the walk to do. |
| `Poller.EVMChainPoller.BlocksToFetch` | pkg/chainPollers/evm/evmChainPoller.go:205-210 | The numbers to fetch are cursor+1 to tip, in order. |
| `Poller.EVMChainPoller.ProcessBlockLogs` | pkg/chainPollers/evm/evmChainPoller.go:265-333 | Fetching, stamping, offering, saving and pruning compose to the specified step, with its record or error. |
| `Poller.EVMChainPoller.HandleLogs` | pkg/chainPollers/evm/evmChainPoller.go:283-303 | The loop offers the logs in order and stops at the first that cannot be decoded or is refused. |
| `Poller.EVMChainPoller.SaveAndPrune` | pkg/chainPollers/evm/evmChainPoller.go:308-330 | The record is saved and the one that left the window deleted; errors of both are ignored. |
| `Poller.EVMChainPoller.FetchLogsForBlock` | pkg/chainPollers/evm/evmChainPoller.go:378-453 | The logs are those of the specified fetch at the current call count. |
| `Poller.EVMChainPoller.FindOrphanedBlocks` | pkg/chainPollers/evm/evmChainPoller.go:478-542 | The loop with its double save of a missing block ends in the world, orphans and reply of the specified search. |
| `Poller.EVMChainPoller.ReconcileReorg` | pkg/chainPollers/evm/evmChainPoller.go:455-476 | Search, empty-list error and retraction compose to the specified reorg. |
| `Poller.EVMChainPoller.RetractOrphans` | pkg/chainPollers/evm/evmChainPoller.go:466-475 | The loop tells the handler and deletes, orphan by orphan, tolerating missing records and stopping at any other error. |
| `Store.ChainsDoNotInterfere` | pkg/chainPollers/persistence/memory/memory.go:40-118 | Under any interleaving of atomic operations, the callers of one chain get exactly the answers they would get alone. |
| `Store.ChainsDoNotInterfereFrom` | pkg/chainPollers/persistence/memory/memory.go:40-118 | The same from any two stores that look alike to that chain. |
| `Store.OtherChainUnseen` | pkg/chainPollers/persistence/memory/memory.go:64-118 | One operation on one chain changes no cursor and no record of another. |
| `Store.SameViewSteps` | pkg/chainPollers/persistence/memory/memory.go:40-118 | An operation's answer and effect on a chain depend only on what that chain can see. |
| `Store.SavedTwice` | pkg/chainPollers/evm/evmChainPoller.go:510-536 | Saving a repaired block a second time changes nothing. |
| `Store.SaveThenRead` | pkg/chainPollers/persistence/memory/memory.go:64-100 | After saving a record it is read back, it is its chain's last one, and every other read is as before. |
| `Store.DeleteThenRead` | pkg/chainPollers/persistence/memory/memory.go:103-118 | After deleting, the record is not found, a cursor that named it no longer resolves, and every other read is as before; deleting a missing record is a not-found error that changes nothing. |
| `Store.EmptyAndClosed` | pkg/chainPollers/persistence/memory/memory.go:22-136 | A new store finds nothing; a closed store refuses every operation and never changes again. |
| `StoreImpl.DecimalIsInvertible` | pkg/chainPollers/persistence/memory/memory.go:29-37 | Reading a decimal key back gives the number; a key is all digits without a leading zero. |
| `StoreImpl.CursorKeyInjective` | pkg/chainPollers/persistence/memory/memory.go:29-31 | Equal cursor keys mean equal chains. |
| `StoreImpl.RecordKeyInjective` | pkg/chainPollers/persistence/memory/memory.go:34-37 | Equal record keys mean equal chain and number. |
| `StoreImpl.CursorsUpdate` | pkg/chainPollers/persistence/memory/memory.go:78-79 | Writing one string-keyed cursor is writing that chain's cursor and no other. |
| `StoreImpl.BlocksUpdate` | pkg/chainPollers/persistence/memory/memory.go:76-77 | Writing one string-keyed record is writing the record of that chain and number and no other. |
| `StoreImpl.BlocksRemove` | pkg/chainPollers/persistence/memory/memory.go:116 | Removing one string key removes the record of that chain and number and no other. |
| `StoreImpl.InMemoryStore.constructor` | pkg/chainPollers/persistence/memory/memory.go:22-27 | A new store is open and empty. |
| `StoreImpl.InMemoryStore.GetLastProcessedBlock` | pkg/chainPollers/persistence/memory/memory.go:40-61 | Through string keys, the cursor's record of the chain, with the closed, no-cursor and dangling-cursor errors. |
| `StoreImpl.InMemoryStore.SaveBlock` | pkg/chainPollers/persistence/memory/memory.go:64-82 | The record is filed under its own chain and number and becomes that chain's cursor, even backward; closed and nil are errors that change nothing. |
| `StoreImpl.InMemoryStore.GetBlock` | pkg/chainPollers/persistence/memory/memory.go:85-100 | The record of that chain and number, or the right error. |
| `StoreImpl.InMemoryStore.DeleteBlock` | pkg/chainPollers/persistence/memory/memory.go:103-118 | Exactly that record goes and no cursor moves; a missing record is an error. |
| `StoreImpl.InMemoryStore.Close` | pkg/chainPollers/persistence/memory/memory.go:121-136 | Everything is dropped for good, and a second close is an error. |
| `LogFetch.FetchRefinesOneQuery` | pkg/chainPollers/evm/evmChainPoller.go:378-453 | For every contract list, registry list, batch size and completion order: the merged logs are as a multiset those of one unbatched query, each once, and there is an error and no log if and only if some batch failed or the list of batches cannot be allocated. |
| `LogFetch.LowerIs` | pkg/chainPollers/evm/evmChainPoller.go:346 | Lower-casing leaves no letter from A to Z, changes nothing but case, and leaves exactly the texts without such letters alone. |
| `LogFetch.LowerIdentifies` | pkg/chainPollers/evm/evmChainPoller.go:346-350 | Two texts have the same lower case if and only if they are equal up to ASCII case. |
| `LogFetch.InterestingFacts` | pkg/chainPollers/evm/evmChainPoller.go:339-361 | The address list is duplicate-free and holds exactly the registered addresses and the texts without upper case letters that equal a non-empty configured contract up to case; with a lower-case registry no two of its addresses are equal up to case. |
| `LogFetch.InterestingOrder` | pkg/chainPollers/evm/evmChainPoller.go:339-361 | The addresses come in the order in which they are first seen, configured before registered. |
| `LogFetch.ListAllInterestingContracts` | pkg/chainPollers/evm/evmChainPoller.go:339-361 | The two loops over a seen set compute that list. |
| `LogFetch.WantedSplits` | pkg/chainPollers/evm/evmChainPoller.go:392-409 | Splitting a duplicate-free lower-case filter splits the matching logs without loss or overlap. |
| `LogFetch.BatchesAddUp` | pkg/chainPollers/evm/evmChainPoller.go:398-445 | The batches' answers together are the answer to one query for all addresses. |
| `LogFetch.QueryBatches` | pkg/chainPollers/evm/evmChainPoller.go:398-428 | One query per batch, each at its own call. |
| `LogFetch.FetchLogsForInterestingContracts` | pkg/chainPollers/evm/evmChainPoller.go:378-453 | Listing, cutting, scattering and gathering compute the specified fetch for every schedule. |
| `Channels.SchedulePermutes` | pkg/chainPollers/evm/evmChainPoller.go:398-432 | A completion order runs every goroutine exactly once. |
| `Channels.EveryOrder` | pkg/chainPollers/evm/evmChainPoller.go:398-432 | Every permutation is the completion order of some scheduler, so a statement about all schedulers is one about all orders. |
| `Channels.ArrivalOrderIrrelevant` | pkg/chainPollers/evm/evmChainPoller.go:430-445 | For every permutation of the goroutines as completion order: the order changes neither the gathered multiset nor whether something failed. |
| `Channels.ScheduleIrrelevant` | pkg/chainPollers/evm/evmChainPoller.go:430-445 | The same for the order a scheduler picks. |
| `Channels.Collect` | pkg/chainPollers/evm/evmChainPoller.go:409-441 | The result channel holds the successful answers in arrival order, and the error channel is empty if and only if nothing failed. |
| `Channels.CompletionOrder` | pkg/chainPollers/evm/evmChainPoller.go:398-430 | The goroutines finish in the order the scheduler picks. |
| `Chunks.CutFacts` | pkg/chainPollers/evm/evmChainPoller.go:368-374 | The pieces concatenate to the input, none is empty, and all but the last are full. |
| `Chunks.CutCount` | pkg/chainPollers/evm/evmChainPoller.go:367 | The number of pieces is the rounded-up quotient. |
| `Chunks.CapacityHintIsCountIff` | pkg/chainPollers/evm/evmChainPoller.go:367 | On wrapping ints the capacity hint is that number if and only if len+size-1 fits an int, and it is negative exactly in the stated range. |
| `Chunks.ChunkAddresses` | pkg/chainPollers/evm/evmChainPoller.go:363-376 | The counted loop makes those pieces, all but the last of the given size or of 1000 for a non-positive one, unless the capacity hint is negative; then it panics. |
| `Chunks.ChunkRequests` | pkg/clients/ethereum/client.go:403-416 | The RPC client's loop makes the same pieces of size 100, except that it cuts one empty batch from an empty list. |
| `Chunks.Gather` | pkg/clients/ethereum/client.go:440-443 | Appending the pieces one after the other gives their concatenation. |
| `BatchCall.ChunkedBatchCall` | pkg/clients/ethereum/client.go:473-558 | Refines a sequential map: for every interleaving output i is the response to request i, or nothing exactly when that call failed; the length check never fails; one call per request, at most 100 in flight, and one wait per 100 requests rounded up. |
| `BatchCall.RunBatch` | pkg/clients/ethereum/client.go:505-541 | For every interleaving of launches and completions the channel holds true answers to this batch's requests only, one for every call that succeeded, after one call per request. |
| `BatchCall.Fill` | pkg/clients/ethereum/client.go:543-546 | Writing the answers by index fills this batch's slots correctly and touches no other. |
| `BatchCall.ChunkedNativeBatchCall` | pkg/clients/ethereum/client.go:398-452 | The method computes the specified result for every schedule and every sorting algorithm. |
| `BatchCall.NativeResultFacts` | pkg/clients/ethereum/client.go:437-451 | For every completion order and every algorithm that meets the contract of slices.SortFunc: every response of the successful batches exactly once, sorted by id when ids are present, distinct and less than 2^63 apart; a panic if and only if a missing id has to be compared. |
| `BatchCall.NativeIsDeterministic` | pkg/clients/ethereum/client.go:437-451 | With such ids the output depends neither on the completion order nor on the sorting algorithm. |
| `BatchCall.AnswersFollowRequests` | pkg/clients/ethereum/client.go:398-452 | Matching by id as in section 6 of the JSON-RPC 2.0 specification, end to end: if the requests' ids increase and span less than 2^63, and each successful call answers every request of its batch once under its id, then the responses are comparable and the output carries, in request order, exactly the ids of the requests of the batches that succeeded. |
| `BatchCall.ServedIds` | pkg/clients/ethereum/client.go:421-443 | The gathered responses carry exactly the ids of the requests of the successful batches. |
| `BatchCall.CmpIsOrderIff` | pkg/clients/ethereum/client.go:446-448 | The wrapping comparator orders two ids correctly if and only if their difference fits a signed 64-bit number. |
| `BatchCall.CmpCanContradictItself` | pkg/clients/ethereum/client.go:446-448 | Two ids 2^63 apart each compare below the other. |
| `BatchCall.InOrderIsSorted` | pkg/clients/ethereum/client.go:446-448 | On comparable responses, being in the comparator's order is being sorted by id. |
| `BatchCall.SortSorts` | pkg/clients/ethereum/client.go:445-449 | With comparable ids, sorting by that comparator sorts by id. |
| `BatchCall.InsertionSorts` | pkg/clients/ethereum/client.go:445-449 | There is a sorting algorithm that meets the contract: insertion sort. |
| `BatchCall.SortedIsUnique` | pkg/clients/ethereum/client.go:445-449 | Two id-sorted arrangements of the same responses are equal, so the sorting algorithm does not matter. |
| `BatchCall.SendBatches` | pkg/clients/ethereum/client.go:421-436 | One native call per batch. |
| `Registry.InMemoryContractRegistry.constructor` | pkg/chainPollers/contractRegistry/inMemory.go:14-18 | A new registry is empty and has seen no write. |
| `Registry.InMemoryContractRegistry.RegisterContracts` | pkg/chainPollers/contractRegistry/inMemory.go:20-37 | The run of writes grows by this one, whose list has the union's elements each once in any order; it is a new array, and the old one keeps its contents. |
| `Registry.InMemoryContractRegistry.UnregisterContracts` | pkg/chainPollers/contractRegistry/inMemory.go:39-55 | The run of writes grows by this one, whose list is what remains, in order; it is a new array, and the old one keeps its contents. |
| `Registry.InMemoryContractRegistry.ListContracts` | pkg/chainPollers/contractRegistry/inMemory.go:57-62 | A reader gets a fresh copy, which no later write can change, of the list after the writes so far: duplicate-free, and holding exactly the addresses without upper case letters that were registered, in whatever case, after they were last unregistered. |
| `Registry.Listed` | pkg/chainPollers/contractRegistry/inMemory.go:20-37 | Listing a set in some iteration order gives each element once. |
| `Registry.Filtered` | pkg/chainPollers/contractRegistry/inMemory.go:47-53 | The loop keeps what is not to be removed, in order. |
| `Registry.WriteKeepsClean` | pkg/chainPollers/contractRegistry/inMemory.go:20-55 | Every write turns a duplicate-free lower-case list into one with exactly the right elements. |
| `Registry.RunsAreFolds` | pkg/chainPollers/contractRegistry/inMemory.go:20-62 | After every prefix of every run of writes, whatever the iteration orders, the list is duplicate-free, lower case and equal as a set to the fold of unions and differences; neither is assumed of the run. |
| `Registry.RegisteredIff` | pkg/chainPollers/contractRegistry/inMemory.go:20-55 | The fold of the writes holds an address if and only if it has no upper case letter and a write naming it up to case registers it with no later one unregistering it. |
| `Abi.CombinePreservesMeaning` | pkg/contracts/contracts.go:37-50 | Combining array texts gives an array text whose top-level elements (nesting and string literals as in RFC 8259) are the concatenation of the inputs' elements if and only if there is at most one input or none is empty. |
| `Abi.CombineAbis` | pkg/contracts/contracts.go:37-50 | The loop strips, joins and wraps, or returns the error. |
| `Abi.CombineFailsIff` | pkg/contracts/contracts.go:40-43 | Combining fails, with the too-short error, if and only if some text is shorter than two bytes. |
| `Abi.CombinedText` | pkg/contracts/contracts.go:44-49 | For any texts of two bytes or more, arrays or not: the inner part of each stands unchanged in the result, at the sum of the lengths before it, after a bracket if it is the first and a comma if not; the result ends with a bracket and has nothing else. |
| `Abi.JoinPieces` | pkg/contracts/contracts.go:48 | Splitting a comma-join of balanced texts at top-level commas gives the texts' own pieces in order, and the join is balanced. |
| `Abi.PiecesConcat` | pkg/contracts/contracts.go:48 | A comma after a balanced text is a top-level separator. |
| `Abi.EmptyArraysBreak` | pkg/contracts/contracts.go:44-48 | Two empty arrays combine to a text with two empty elements. |

## Left out

- HTTP, JSON encoding, timeouts, retries and subscriptions of the RPC client: `Call`, `batchCall`, `GetLatestBlock`, `GetBlockByNumber` and `GetLogsForAddresses` are oracles.
- The log parser: `DecodeLog` is an oracle that may fail; a log is its address, index and data.
- Request builders and hex types, `unmarshalJsonToAbi`, `GetAbi`, the contract store and the generic helpers of pkg/util: wrappers around other libraries and linear scans.
- The ticker and context cancellation: a run is an arbitrary finite sequence of ticks and other chains' operations.
- Locking: store and registry operations are atomic steps, which is what their mutexes and the atomic pointer give.
- Operations of other chains between the two store operations of Start; they are modelled before it, and between and inside ticks.
- Closing the store while a tick is under way, and a second poller of the same chain on one store.
- Runs that begin on the null block beyond what module Failures says of them, and clients that answer with another number than the one asked for, excluded by `Honest`.
- A panic ends the process; in the model it ends the tick, and runs that go on after it have no counterpart.
- A handler that keeps the block pointer sees its chain id stamped later; the model hands over values.
- Transactions and nonces of blocks, logging, and Unicode case folding (addresses are ASCII text).
- Poller.EVMChainPoller.ProcessNextBlock: a tick whose range loop never ends is modelled as one in which nothing further happens.
- Chunks.ChunkAddresses: slice indices are unbounded integers, which agrees with the program for lists shorter than 2^62.
- BatchCall.ChunkedBatchCall: cuts and runs each batch in one loop, where the program cuts all batches first.
- BatchCall.ChunkedNativeBatchCall: sorts values and not in place; with incomparable ids nothing is said about the order of the output, as slices.SortFunc promises none.
- Abi.CombinePreservesMeaning: array texts are recognised by brackets, commas and string literals; the grammar of scalars is not checked.
