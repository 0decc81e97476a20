# A verified model of CANChain's stateful core

CANChain is a Go node of the Ethereum family. This project models, in Dafny 4.11, the parts of it
whose correctness rests on several data structures or several concurrent parties staying in step,
and proves what they keep over whole runs. `dafny verify dfyconfig.toml` checks everything.

| file | models |
|---|---|
| `Heap.dfy` | the binary heap of Go's `container/heap`, with sift-up and sift-down on sequence values; also used for `sort` and `prque` |
| `TxList.dfy` | `kernel/tx_list.go`: the nonce-sorted map with its lazily kept heap and cache, and the account list with its cost and gas caps |
| `PricedList.dfy` | `kernel/tx_list.go`: the price heap with lazy deletion |
| `PoolSpec.dfy`, `Truncation.dfy`, `Recovery.dfy`, `Settling.dfy`, `Waiting.dfy`, `TxPool.dfy`, `PoolRuns.dfy`, `HeadReset.dfy` | `kernel/tx_pool.go`: adding, replacing, promoting, demoting, removing, evicting, truncating, resetting |
| `ListTable.dfy`, `ListRun.dfy` | `kernel/tx_pool.go`: the two tables of the pool with a list object per account |
| `Retrieve.dfy` | `lcs/retrieve.go`: the retrieval loop, its requesters and the event channel as one transition system, and the request object |
| `Ancestry.dfy`, `HeaderChain.dfy`, `BlockChain.dfy` | `kernel/headerchain.go`, `kernel/blockchain.go`: fork choice, reorganisation, canonical numbers, lookup index, ancestor queries |
| `RandSelect.dfy` | `lcs/randselect.go`: the weighted random selector |
| `ChainIndexer.dfy`, `SectionRace.dfy` | `kernel/chain_indexer.go`: sections that are processed while the chain changes, and two loops that set their number at once |
| `Abi.dfy` | `accounts/abi`: the head and tail codec |
| `Gas.dfy`, `StateTransition.dfy`, `StateProcessor.dfy`, `GasLimit.dfy`, `Config.dfy` | gas bookkeeping, block processing, receipts, the gas limit and the fork configuration |

Conventions. A hash identifies what it is the hash of, so a transaction stands for its own hash and
the lookup of the pool is a set; the sender of a transaction is part of it. Iteration over a Go map
is an arbitrary choice (`:|`); random numbers and a coin that decides a tie are parameters.
Time is an integer parameter, and a missing heartbeat is time zero. A locked Go method is one atomic
step; code that runs beside it without the lock goes access by access. The chain state that the pool
sees is a pair of functions (nonce and balance) and a gas limit. Total difficulties, prices and balances
are unbounded (`big.Int`); where the Go code computes in 64 bits, the model either wraps around
explicitly or proves that nothing does. Objects that Go updates in place are classes; ghost results name
states in between, such as the pool after room was made.

## What is proved

* **Pool.** `TxPools.Run` runs any sequence of additions, removals, price changes, evictions and
  resets (with reinjection) from an empty pool: a transaction is pooled exactly when one, and only one,
  of the two lists of its sender holds it under its own nonce; no nonce is in both; every pooled
  transaction has an entry in the price heap, and can be paid for in the chain state at a nonce that is
  not used up; no queued one is at the pending nonce of its sender or below, so nothing that could be
  executed next is left waiting. So promotion and demotion never meet a refusal
  (`PromoteFresh`, `EnqueueFresh`). Every pending list is a gap-free run of nonces from the state nonce
  to the pending nonce as long as no reset reinjects anything and the last 64-bit nonce is not used;
  below, each step says exactly when it keeps this. The updates that the pool makes to its tables are
  those that list objects with their heaps, caches and caps perform, over whole runs (`ListRuns.Run`).
* **Truncation.** Pending truncation is water-filling to the exact level: the highest common length
  that meets the global limit, never below the account limit.
* **Retrieval.** In every interleaving the three variables of the loop count the requesters exactly;
  the result is decided by the first stop or the first event that ends it, and a retrieval that is not
  stopped from outside succeeds exactly if a requester reports a valid delivery; the loop ends only with
  nothing outstanding; there is no deadlock, and after a stop every run is bounded.
* **Chains.** Over every run the canonical map is the ancestor path of the head, the head has the
  greatest total difficulty, and the lookup index equals a scan of the chain. `GetAncestor` equals the
  walk from parent to parent and charges its budget exactly.
* **Indexer.** Over every interleaving of announcements, changes of the chain and the steps of the
  update loop, where a failed reset goes access by access without the lock: section heads are one
  hash-linked chain, and none is stored at or beyond the count, except exactly after the announcement
  that is named below. The loop of the announcement, split as well, is in `SectionRaces`.
* **Selector, codec, gas, configuration.** The tree refines a flat list with exactly proportional
  shares, also for items whose weight has fallen; unpacking undoes packing, and what is packed is laid
  out word by word as the contract ABI has it; fees are zero-sum, gas is conserved and no call is
  executed twice over a block; the rewind point is the highest compatible height; the gas limit
  converges into its range by exact steps.

## Where a property needs a condition

* **Contiguity and the last nonce.** Behind nonce 2^64 - 1 the pending nonce wraps around to zero.
  Promoting a non-empty executable run keeps a gap-free account gap-free exactly if the run does not
  reach that nonce (`RunPromotes`), and promotion with truncation keeps a gap-free pool gap-free exactly
  if no promoted account does, or nothing of it is left (`SettledGapFree`). `PromoteAccounts`,
  `PromoteExecutables`, `AddTx`, `AddTxs` and `Reset` carry the equivalence, and where every account may
  keep a transaction the condition reads the state before the promotion only (`UnwrappedBefore`);
  `LastNonceRun` is a run that ends with a pending nonce below the state nonce.
* **Contiguity and reinjection.** A gap-free pool that takes back what a reorganisation dropped is
  gap-free after its adjustment exactly if no account is spoiled (`ReinjectionRecovers`, for one account
  `RecoversExactly`). An account is spoiled if its pending nonce fell below the state nonce, by a removal
  or a cut; if a run that reaches the last nonce was promoted and not cut again; or if a run was promoted
  that ends before its old pending list begins, and the first transaction of that list is still there
  and affordable, since demotion looks at the front of a list only. When nothing was truncated, the lists
  after the additions alone decide (`UncutRecovers`). An account of which nothing comes back is not
  spoiled. What is spoiled stays so in the promotion that follows, if that truncates nothing (`GapStays`).
  `ReinjectionGap` is a run: two transactions go back and the pool refuses the second.
* **Refused after room was made.** A full pool gives up its lowest-ranked remote transactions before it
  finds out that the new one may not replace the one with its nonce. A refusal for that reason leaves the
  pool as it was exactly if it was not full or held local transactions only (`RefusedAfterRoom`);
  `RefusedYetDropped` is a run in which a transaction is lost.
* **What a full pool gives up.** A remote transaction is let in if it is dearer than something pooled,
  local ones included, but only remote ones are given up for it. Something cheaper than it is given up
  exactly if some remote transaction in the pool is cheaper (`GivesUpCheaper`); `DearerGivenUp` is a run
  in which a dearer one goes.
* **Nonces at the last value.** A call counts the sender's nonce in 64 bits, so behind the last nonce it
  starts again at zero. A call that is applied again is refused as too low exactly below the last nonce
  (`ReplayRefused`), and `CalledOnce` asks that no call of the account in the block is made for it.
* **Room in a full pool.** Entries of the price heap are dropped, and a transaction that was removed and
  added again before the heap was rebuilt has two (`DroppedTwice`). One more transaction fits in exactly
  if as many entries were found as asked for and no transaction was among them twice (`RoomMade`); `Add`
  says what this means for the capacity.
* **A failed reset of the indexer.** It counts the sections down without the lock. An announcement, taken
  as one step, that truncates the index leaves a head beyond the count exactly if it comes between the
  write of the count and the read of it, with the head at the count still stored (`TruncatedOk`,
  `NewHead`); `StrandHead` carries such a run to its end, from any index of which the announcement cuts
  more than the last section. The count wraps around exactly if there is no checkpoint and an
  announcement between test and load goes back into the first section, and it rises exactly then or if
  announcements between load and write take two sections or more (`CountsDown`).
* **Two loops at once.** With the loop of the announcement going access by access too, a head gets beyond
  the count exactly if one loop writes a lower count between the write and the read of the other, with
  the head at the count still stored (`AccessSound`, `SoundExactly`). Otherwise no head is left when both
  are over, so the count fits the index exactly if it is zero (`RaceEnds`); an announcement that writes
  last leaves a count without heads (`CountWithoutHeads`).
* **Canonical section heads.** With a linked canonical chain, all heads from the checkpoint on are
  canonical exactly if the last one is (`IndexCanonical`). It need not be: blocks that are replaced after
  they were read, with the section before untouched, are stored all the same (`StaleSection`).
* **Gas limits.** Over all gas used, floors and ceilings, the next limit is legal (it moves by less than
  a 1024th and is not below the minimum) exactly for limits from 5120 on whose sum with their 1024th is
  at most 2^64 (`SaneExactly`; `LegalExactly` for limits from 5120 on under any least floor). Higher limits
  come from a genesis or a clique block only: ethash refuses headers above 2^63 - 1
  (lib/consensus/ethash/consensus.go:205-208). A range of limits is kept by every block exactly if its
  ceiling is below the first such limit, or its floor is far enough below (`KeptExactly`). Half as much
  again as the gas used is computed in 64 bits: a sum that does not fit raises nothing (`RisesExactly`).
* **Nested arrays and dynamic arguments.** `Pack` counts a fixed array by its outer size when it
  computes offsets, `UnpackValues` by all its elements. Unpacking gives back what was packed for all
  values of the given types exactly when there is nothing dynamic or the two counts agree
  (`RoundTripExactly`; `NotARoundTrip` names values that are not given back). This is for data shorter
  than 2^63 bytes, which is what a Go slice can hold.
* **Reinjection.** Heads more than 64 numbers apart put nothing back, as the code has it.

## Model

| member | source | states |
|---|---|---|
| `Heap.Up` | kernel/tx_list.go:20-22 | sifting up restores the heap and keeps the elements |
| `Heap.Down` | kernel/tx_list.go:24-30 | sifting down restores the heap and keeps the elements |
| `Heap.Init` | kernel/tx_list.go:85 | heapify turns any sequence into a heap of the same elements |
| `Heap.Push` | kernel/tx_list.go:52 | push keeps the heap and adds exactly the element |
| `Heap.Pop` | kernel/tx_list.go:61 | pop returns a least element and keeps the heap of the rest |
| `Heap.Remove` | kernel/tx_list.go:119 | removing at an index keeps the heap of the other elements |
| `Heap.Sort` | kernel/tx_list.go:154 | sorting gives an ordered permutation |
| `SortedMap.TxSortedMap.Put` | kernel/tx_list.go:49-55 | the map gains or replaces the transaction at its nonce; the nonce heap indexes exactly the keys, the cache is dropped |
| `SortedMap.TxSortedMap.Forward` | kernel/tx_list.go:57-69 | exactly the nonces below the threshold go, returned in ascending order; a cache stays right after its head is sliced off |
| `SortedMap.TxSortedMap.Filter` | kernel/tx_list.go:71-90 | exactly the transactions that satisfy the filter go |
| `SortedMap.TxSortedMap.Cap` | kernel/tx_list.go:92-110 | exactly the lowest `threshold` nonces stay, the rest is returned from the highest down; a cache stays right after its tail is sliced off |
| `SortedMap.TxSortedMap.Remove` | kernel/tx_list.go:112-127 | the nonce goes from map and heap, and the result tells whether it was there |
| `SortedMap.TxSortedMap.Ready` | kernel/tx_list.go:129-142 | exactly the unbroken run from the lowest nonce goes, and nothing if that is above the start |
| `SortedMap.TxSortedMap.Flatten` | kernel/tx_list.go:148-159 | the ascending listing of the map, which is also what the cache holds from then on |
| `SortedMap.SortItems` | kernel/tx_list.go:150-155 | the unique ascending listing of a map |
| `Transactions.ListingIsUnique` | kernel/tx_list.go:148-159 | a set of transactions has one ascending listing, so a listing pins the result down |
| `Transactions.FilterPartitions` | kernel/tx_list.go:203-224 | kept, removed and invalidated parts partition the list |
| `Transactions.BelowIsLowest` | kernel/tx_list.go:57-69 | a threshold cut keeps or takes exactly a lowest part |
| `TxLists.CappedMeansPayable` | kernel/tx_list.go:203-206 | lists whose caps are within the limits hold nothing too dear, so the early exit misses nothing |
| `TxLists.StrictFilter` | kernel/tx_list.go:213-222 | on a strict list what remains is exactly what is below the lowest removed nonce |
| `TxLists.StrictRemove` | kernel/tx_list.go:230-239 | removing from a strict list invalidates exactly the higher nonces |
| `TxLists.TxList.Add` | kernel/tx_list.go:181-197 | inserts unless the price bump rule forbids the replacement; caps keep bounding every listed cost and gas |
| `TxLists.ReplacesExactly` | kernel/tx_list.go:183-188 | a replacement pays more, and with everything below the next unit more than the old price plus the bump in percent: exactly then |
| `TxLists.ReplacementsRise` | kernel/tx_list.go:183-188 | prices rise along replacements, by the full percentage if that is a whole number, and nothing is replaced back |
| `TxLists.TxList.Forward` | kernel/tx_list.go:199-201 | drops exactly the nonces below the threshold |
| `TxLists.TxList.Filter` | kernel/tx_list.go:203-224 | equals a full scan in spite of the early exit; on strict lists everything above the lowest removed nonce goes too; caps are lowered soundly |
| `TxLists.TxList.Cap` | kernel/tx_list.go:226-228 | keeps exactly the lowest nonces |
| `TxLists.TxList.Remove` | kernel/tx_list.go:230-239 | removes a nonce, and on a strict list everything above it, which is returned |
| `TxLists.TxList.Ready` | kernel/tx_list.go:241-243 | takes the run that is executable |
| `TxLists.TxList.Flatten` | kernel/tx_list.go:253-255 | the ascending listing |
| `PricedLists.PriceKeyRanks` | kernel/tx_list.go:262-270 | the heap order is by price and, among equals, highest nonce first |
| `PricedLists.TxPricedList.Put` | kernel/tx_list.go:297-299 | adds one entry and keeps the heap |
| `PricedLists.TxPricedList.Removed` | kernel/tx_list.go:301-314 | counts a stale entry, and rebuilds the heap from the lookup once a quarter is stale |
| `PricedLists.TxPricedList.Cap` | kernel/tx_list.go:316-340 | returns as a set exactly the remote transactions below the threshold and keeps entries for all others |
| `PricedLists.TxPricedList.Underpriced` | kernel/tx_list.go:342-361 | for remote senders, holds exactly when nothing pooled is strictly cheaper, as a scan of the lookup would find |
| `PricedLists.TxPricedList.Discard` | kernel/tx_list.go:363-384 | drops up to `count` entries of remote transactions, none of one that ranks after one that is kept, fewer only if no remote one is left; the heap keeps every other entry of a pooled transaction; nothing goes twice if everything pooled has one entry |
| `PricedLists.RoomMade` | kernel/tx_list.go:363-384 | in a full pool one more fits in after the discarding exactly if all entries asked for were found and no transaction was among them twice |
| `PricedLists.DroppedTwice` | kernel/tx_list.go:297-384 | a transaction that was removed and added again has two entries, and both are dropped in place of another one |
| `PricedLists.PopCheap` | kernel/tx_list.go:320-335 | the popping loop stops at the threshold with all stale entries gone |
| `PricedLists.PopCount` | kernel/tx_list.go:366-379 | the popping loop drops remote entries from the lowest rank up |
| `PoolSpec.PooledExactlyOnce` | kernel/tx_pool.go:489-610 | agreement means: pooled exactly when one of the two lists holds it, and never both |
| `PoolSpec.GapFreeLength` | kernel/tx_pool.go:582-610 | a gap-free list is as long as pending nonce minus state nonce |
| `PoolSpec.RemovedAgree` | kernel/tx_pool.go:693-725 | removing keeps the agreement of lists and lookup |
| `PoolSpec.RemovedGapFree` | kernel/tx_pool.go:693-725 | removing keeps pending nonces gap-free, for every nonce |
| `PoolSpec.RemovedNoncesFall` | kernel/tx_pool.go:713-715 | after a removal the pending nonce is the least of what it was and the nonces that left the list |
| `PoolSpec.CutGapFree` | kernel/tx_pool.go:800-811 | a gap-free list that loses an upper part, with the pending nonce falling to the least nonce lost, stays gap-free |
| `PoolSpec.WrappedStays` | kernel/tx_pool.go:800-811 | no cut makes a list gap-free whose pending nonce has wrapped around, unless nothing of it is left |
| `PoolSpec.MoveAgrees` | kernel/tx_pool.go:755-761 | moving a run from the queue to pending keeps the agreement |
| `PoolSpec.RunContinues` | kernel/tx_pool.go:755-761 | the executable run starts exactly where pending ends |
| `PoolSpec.RunPromotes` | kernel/tx_pool.go:755-761 | promoting a non-empty run keeps an account gap-free exactly if the run does not reach the last 64-bit nonce |
| `PoolSpec.PromotesGapFree` | kernel/tx_pool.go:736-774 | promoting a set of accounts keeps a gap-free pool gap-free exactly if no run among them reaches the last nonce |
| `PoolSpec.DemoteAgree` | kernel/tx_pool.go:873-908 | adjusting an account to the chain state keeps the agreement |
| `PoolSpec.DemoteGapFree` | kernel/tx_pool.go:873-908 | what demotion leaves of a list, with the nonce behind its last, is gap-free exactly if it has no hole |
| `PoolSpec.DemoteUnbroken` | kernel/tx_pool.go:873-908 | a list without holes from the new state nonce on has none after its demotion |
| `PoolSpec.DemoteTwice` | kernel/tx_pool.go:877-902 | forwarding, filtering and moving gapped lists together leave exactly what is still pending |
| `PoolSpec.ResetGapFree` | kernel/tx_pool.go:332-345 | after the move to a new state the pool is gap-free exactly if every list that is left has no hole and every account without one has its state nonce |
| `PoolSpec.GapFreeRecovers` | kernel/tx_pool.go:332-345 | a gap-free pool recovers from any move of the chain state without reinjection, forward or back |
| `Waiting.PromotionCatchesUp` | kernel/tx_pool.go:755-769 | after its promotion an account has nothing queued at its pending nonce or below, and a remote one no more than the cap |
| `Waiting.PromotionTidies` | kernel/tx_pool.go:736-769 | what is promoted or stays queued was queued, and can be paid for at a nonce that is not used up |
| `Waiting.PromotionDrops` | kernel/tx_pool.go:742-773 | what leaves the pool in a promotion cannot be paid for, or is above all that fits under the cap of a remote account |
| `Waiting.SettledCatchUp` | kernel/tx_pool.go:727-871 | promotion with both truncations lets the promoted accounts catch up and nobody fall behind |
| `Waiting.RemovedCaughtUp` | kernel/tx_pool.go:693-725 | a removal, with the pending nonce falling back, leaves nobody behind |
| `Waiting.FiledCaughtUp` | kernel/tx_pool.go:513-549 | of all accounts only the sender of a transaction with a new nonce may have fallen behind |
| `Waiting.DemotionTidies` | kernel/tx_pool.go:873-916 | what demotion leaves pending can be paid for at a nonce that is not used up |
| `Waiting.MovedAffordable` | kernel/tx_pool.go:324-347 | after adjustment and promotion every pooled transaction can be paid for in the new state |
| `Recovery.StaysMeans` | kernel/tx_pool.go:873-908 | what demotion leaves: everything from the state nonce up to the first transaction that is too dear, if the one at the state nonce is there and not too dear |
| `Recovery.RecoversExactly` | kernel/tx_pool.go:332-345 | one account comes out of a reset without a gap exactly if it is not spoiled: pending nonce fallen, last nonce promoted and kept, or a run promoted that ends before an affordable old list that is still there |
| `Recovery.SpoiledUncut` | kernel/tx_pool.go:332-345 | when nothing was cut, the state before the promotion decides |
| `Recovery.SpoiledTears` | kernel/tx_pool.go:332-345 | a spoiled account has no list and a pending nonce that is too low, or the last nonce, or a nonce missing from both lists below a pending one |
| `PoolSpec.UnobjectedIsExecutable` | kernel/tx_pool.go:455-487 | nobody objects exactly if size, value and signature are right, a remote price reaches the limit, the nonce is not used up, the sender can pay, and the gas covers the intrinsic gas within the block limit |
| `PoolSpec.ObjectionIsRight` | kernel/tx_pool.go:455-487 | every one of the nine errors is right about the transaction, and made only when earlier ones do not apply |
| `PoolSpec.RefusalMeans` | kernel/tx_pool.go:490-505 | known exactly if pooled; what a full pool takes from remote senders is dearer than something it holds; what is underpriced is below the limit or, in a full pool, no dearer than anything; no refusal exactly if none of these applies |
| `PoolSpec.FilesAgree` | kernel/tx_pool.go:513-548 | filing or replacing a transaction keeps the agreement |
| `PoolSpec.FilesGapFree` | kernel/tx_pool.go:513-548 | filing or replacing a transaction, of any nonce, keeps pending nonces gap-free |
| `PoolSpec.FilesCount` | kernel/tx_pool.go:513-548 | filing adds one to the number of pooled transactions unless it replaces one |
| `Truncation.WaterFillIsFair` | kernel/tx_pool.go:778-835 | locals and short lists untouched, none cut below the account limit, lists lose their highest nonces, all cut lists share one length that no other remote list exceeds |
| `Truncation.LevelGapFree` | kernel/tx_pool.go:778-835 | cutting lists down to a level, with the nonce fallback, keeps each gap-free account gap-free |
| `Truncation.TotalSplits` | kernel/tx_pool.go:778-781 | the running total is the sum over all accounts in any order |
| `Truncation.CollectSpammers` | kernel/tx_pool.go:784-789 | the priority queue holds exactly the remote accounts over the account limit with their lengths |
| `Truncation.PopSpammer` | kernel/tx_pool.go:792 | pops an account of maximal length |
| `Truncation.SortByHeartbeat` | kernel/tx_pool.go:841-847 | lists the remote accounts with queued transactions in order of their heartbeats |
| `Truncation.CutOrder` | kernel/tx_pool.go:849-869 | accounts are cut from the latest heartbeat on: one is touched only after all later ones are empty |
| `Settling.SettledGapFree` | kernel/tx_pool.go:727-871 | promotion with both truncations leaves a gap-free pool gap-free exactly if no promoted account reaches the last nonce, or nothing of it is left |
| `Settling.UnwrappedBefore` | kernel/tx_pool.go:727-871 | where every account may keep a transaction, the condition of `SettledGapFree` is that no promoted account reaches the last nonce, read before the promotion |
| `Settling.RecoveredAll` | kernel/tx_pool.go:338-345 | after additions, promotion, truncation and demotion the pool is gap-free exactly if no account is spoiled |
| `Settling.GappedExactly` | kernel/tx_pool.go:338-345 | without truncation an account is spoiled exactly by what the lists after the additions show |
| `Settling.TornStays` | kernel/tx_pool.go:346 | what is spoiled stays so in the last promotion, if that truncates nothing |
| `Settling.LastPooled` | kernel/tx_pool.go:736-774 | a run reaches the last nonce only if a pooled transaction has it |
| `TxPools.TxPool.constructor` | kernel/tx_pool.go:162-201 | an empty pool satisfies the invariant and is contiguous |
| `TxPools.TxPool.ValidateTx` | kernel/tx_pool.go:455-487 | the error is the first of the nine objections that applies |
| `TxPools.TxPool.EnqueueTx` | kernel/tx_pool.go:551-571 | files in the queue or refuses by the price bump rule; lookup and heap follow |
| `TxPools.TxPool.PromoteTx` | kernel/tx_pool.go:582-610 | files in pending or refuses and forgets; heartbeat and pending nonce follow |
| `TxPools.TxPool.PromoteFresh` | kernel/tx_pool.go:588-595 | the refusal branch is unreachable for a pooled transaction whose nonce is not pending |
| `TxPools.TxPool.EnqueueFresh` | kernel/tx_pool.go:556-560 | the refusal branch is unreachable for a pooled transaction whose nonce is not queued |
| `TxPools.TxPool.RemoveTx` | kernel/tx_pool.go:693-725 | the exact effect on lists, lookup, pending nonce and heartbeat, keeping the invariant and contiguity |
| `TxPools.TxPool.PromoteAccount` | kernel/tx_pool.go:736-774 | one account: stale and unpayable dropped, the executable run promoted, the rest capped |
| `TxPools.TxPool.PromoteAccounts` | kernel/tx_pool.go:730-774 | every account named is promoted, the others untouched; a contiguous pool stays so exactly if no run reaches the last nonce |
| `TxPools.TxPool.TruncatePending` | kernel/tx_pool.go:778-835 | the two phases of cutting end at the exact level, with the counter equal to the real sum throughout and every pending nonce at the least nonce cut |
| `TxPools.TxPool.LevelPending` | kernel/tx_pool.go:778-835 | truncation of a valid pool is water-filling and keeps the invariant and contiguity |
| `TxPools.TxPool.TruncateQueue` | kernel/tx_pool.go:836-870 | afterwards the queue is within the limit or only local accounts are queued, cut by heartbeat from the top of each list |
| `TxPools.TxPool.PromoteExecutables` | kernel/tx_pool.go:727-871 | promotion, then water-filling, then queue truncation; exactly the accounts that were promoted have a new heartbeat, and pending nonces fall to the least nonce cut; contiguity is kept exactly as `SettledGapFree` says |
| `TxPools.TxPool.DemoteAccount` | kernel/tx_pool.go:874-907 | one account is adjusted to the state: old dropped, unpayable dropped, invalidated or gapped re-queued |
| `TxPools.TxPool.DemoteUnexecutables` | kernel/tx_pool.go:873-908 | every pending list is adjusted to the chain state; emptied accounts lose their heartbeat |
| `TxPools.TxPool.SyncNonces` | kernel/tx_pool.go:342-345 | pending nonces restart behind the last pending transaction |
| `TxPools.TxPool.MakeRoom` | kernel/tx_pool.go:506-511 | in a full pool the lowest-ranked entries of remote transactions are given up and their transactions removed one by one; one more fits in exactly if all entries were found and none was of the same transaction |
| `TxPools.TxPool.CapacityAfter` | kernel/tx_pool.go:502-548 | a pool below its capacity stays within it; a full one that takes a new nonce ends within it exactly if room for one was made, and one that replaces shrinks by what it gave up |
| `TxPools.TxPool.RefusedAfterRoom` | kernel/tx_pool.go:506-519 | a refusal by the price bump rule leaves what room was made, and the pool as it was exactly if it was not full or held local transactions only |
| `TxPools.TxPool.FileTx` | kernel/tx_pool.go:513-548 | replaces in pending or enqueues; a local sender becomes local only when enqueued |
| `TxPools.TxPool.Refuse` | kernel/tx_pool.go:490-505 | known, objectionable, or underpriced in a full pool, in this order, which `RefusalMeans` reads in terms of prices |
| `TxPools.TxPool.Add` | kernel/tx_pool.go:489-549 | refused outright with everything unchanged; or, after room was made in a full pool, filed, or refused by the price bump rule, which leaves the pool as it was exactly if it was not full or all local. A remote transaction that a full pool takes is dearer than something pooled, so the least price does not fall; one it calls underpriced is below the limit or no dearer than anything pooled; what is given up is remote and ranks no higher than any remote one that stays. Keeps the invariant, contiguity, and that everything can be paid for; only the sender of a new nonce may fall behind; the exact capacity afterwards |
| `TxPools.TxPool.PricesAfter` | kernel/tx_pool.go:499-512 | an addition in terms of prices, for every outcome |
| `TxPools.TxPool.GivesUpCheaper` | kernel/tx_pool.go:499-512 | something cheaper than the new transaction is given up for it exactly if some remote transaction in the pool is cheaper |
| `TxPools.TxPool.AddedSolvent` | kernel/tx_pool.go:494-498 | what is let in can be paid for |
| `TxPools.TxPool.AddTx` | kernel/tx_pool.go:628-641 | addition, then promotion of the sender unless something was replaced; the exact condition for contiguity; nobody falls behind, and everything can still be paid for |
| `TxPools.TxPool.AddTxs` | kernel/tx_pool.go:650-669 | each transaction is added to what the one before left, nonces and heartbeats included, then the senders of new ones are promoted; the exact condition for contiguity; nobody falls behind, and everything can still be paid for |
| `TxPools.TxPool.SetGasPrice` | kernel/tx_pool.go:372-381 | exactly the remote transactions below the limit are removed |
| `TxPools.TxPool.Evict` | kernel/tx_pool.go:246-258 | exactly the queued lists of remote accounts without a recent heartbeat go |
| `TxPools.TxPool.Reset` | kernel/tx_pool.go:324-347 | nothing without a state to move to; else reinjection, adjustment, pending nonces, promotion; from a contiguous pool the adjusted one is gap-free exactly if no account is spoiled, and the final one exactly as `SettledGapFree` says, or not at all if an account is spoiled and nothing truncated; after it every pooled transaction can be paid for in the new state and every account has caught up, whatever the pool was like before |
| `TxPools.TxPool.ReinjectionRecovers` | kernel/tx_pool.go:332-345 | after a reinjection into a gap-free pool, the adjusted pool is gap-free exactly if no account is spoiled |
| `TxPools.TxPool.UncutRecovers` | kernel/tx_pool.go:332-345 | the same from the lists after the additions alone, if truncation left the promoted lists alone |
| `TxPools.TxPool.GapStays` | kernel/tx_pool.go:340-346 | a pool that has not recovered stays with a gap in a promotion without truncation |
| `TxPools.Run` | kernel/tx_pool.go:203-270 | over every run: the pool invariant, every pooled transaction can be paid for in the chain state at a nonce that is not used up, and no queued one is at the pending nonce of its sender or below; over every calm run contiguity |
| `PoolRuns.LastNonceRun` | kernel/tx_pool.go:582-610 | from a state nonce of 2^64 - 1, one added transaction makes the pending nonce zero |
| `PoolRuns.ReinjectionGap` | kernel/tx_pool.go:332-345 | a reorganisation back by two nonces puts both transactions back, the second is refused, and exactly a list with a hole is left |
| `PoolRuns.RefusedYetDropped` | kernel/tx_pool.go:506-519 | a full pool of two loses its cheaper transaction to one that it then refuses |
| `PoolRuns.DearerGivenUp` | kernel/tx_pool.go:499-512 | a full pool of a cheap local transaction and a dear remote one gives up the dear one for a third that pays less |
| `HeadResets.MoveHead` | kernel/tx_pool.go:279-347 | from one head to another: exactly the transactions of the old chain that the new one lacks are offered to the pool, each is taken or refused with an error, and the exact condition for contiguity |
| `ListTables.ListTable.Promotable` | kernel/tx_pool.go:737-773 | forwarding, filtering, taking the run and capping a list object leave in the table what promotion stores, with the run listed in order |
| `ListTables.ListTable.Demote` | kernel/tx_pool.go:874-906 | forwarding, filtering and giving up a gapped list object leave in the table what demotion stores, and return what is queued again |
| `ListTables.ListTable.Add` | kernel/tx_pool.go:551-571 | files in the list object of the account, or in a new one, or refuses by the price bump rule; the other lists are untouched |
| `ListTables.ListTable.Remove` | kernel/tx_pool.go:704-724 | removes from one list object, everything above it too on a strict one; the other lists are untouched |
| `ListTables.PoolLists.Promote` | kernel/tx_pool.go:737-773 | on two tables of list objects, exactly the tables that promotion of an account leaves in the pool |
| `ListTables.PoolLists.Demote` | kernel/tx_pool.go:874-906 | on two tables of list objects, exactly the tables that demotion of an account leaves in the pool |
| `ListTables.PoolLists.RemoveTx` | kernel/tx_pool.go:704-724 | on two tables of list objects, exactly the tables that a removal leaves in the pool |
| `ListTables.PoolLists.File` | kernel/tx_pool.go:513-548 | on two tables of list objects, exactly the tables that filing a transaction leaves in the pool |
| `ListTables.PoolLists.CutTop` | kernel/tx_pool.go:800-811 | on a table of list objects, exactly the table that a cut by one leaves in the pool |
| `ListRuns.AppliedConsistent` | kernel/tx_pool.go:489-908 | every operation on the tables keeps them in agreement with the lookup |
| `ListRuns.Run` | kernel/tx_pool.go:489-908 | over every run of such operations two tables of list objects hold exactly what the tables of contents say |
| `Retrieve.UpdateTracks` | lcs/retrieve.go:217-234 | consuming an event keeps flag, peer and counter equal to the numbers of requesters per phase; no underflow, no delivery booked on the wrong requester |
| `Retrieve.HandleKeeps` | lcs/retrieve.go:155-215 | every state function keeps what its state promises about outstanding requesters, and stops with success only on a valid delivery |
| `Retrieve.ReplayPush` | lcs/retrieve.go:240-310 | a report at the end of the channel keeps its events consumable in order, with no two requesters outstanding at one peer |
| `Retrieve.StepKeeps` | lcs/retrieve.go:141-337 | every step of the loop, the requesters, deliveries and stops keeps the invariant |
| `Retrieve.Safety` | lcs/retrieve.go:141-337 | in every run: exact counts, exactly one queued or sent while requesting, no panic, no full verdict channel, every verdict reported as it was given, success only after a valid delivery |
| `Retrieve.ConsumeExactly` | lcs/retrieve.go:155-208 | what an event does, in terms of the requesters: a valid delivery stops with success; after any other the loop waits while one is queued or within its time, else starts one on a soft timeout or an invalid delivery, else waits for late ones, and stops without peers exactly if none is left |
| `Retrieve.ResultExactly` | lcs/retrieve.go:155-208 | in every run the result is success exactly if a valid delivery was taken before any stop, an error from outside exactly if that was the first stop, and a lack of peers exactly if another event was taken before any stop with no requester left |
| `Retrieve.EndsExactly` | lcs/retrieve.go:141-215 | a retrieval that ends without a stop from outside succeeded exactly if some requester reported a valid delivery; otherwise peers have run out |
| `Retrieve.LoopEndsClean` | lcs/retrieve.go:141-153 | the loop ends only with an empty channel and every requester through its last report |
| `Retrieve.QueuedOnce` | lcs/retrieve.go:240-241 | at most one requester at a time waits for the distributor |
| `Retrieve.StoppedDrains` | lcs/retrieve.go:210-215 | after the stop every step lowers what is left |
| `Retrieve.StoppedRunsAreShort` | lcs/retrieve.go:210-215 | so a run after the stop is no longer than what was left |
| `Retrieve.Progress` | lcs/retrieve.go:155-310 | unless the loop is done some participant can move on its own, also when the channel is full |
| `Retrieve.SentReq.constructor` | lcs/retrieve.go:94-103 | the fields of a new request are those of the initial state |
| `Retrieve.SentReq.Update` | lcs/retrieve.go:217-234 | performs the update of the transition system |
| `Retrieve.SentReq.Waiting` | lcs/retrieve.go:236-238 | tells whether anything is outstanding |
| `Retrieve.SentReq.Stop` | lcs/retrieve.go:329-337 | only the first stop sets the result |
| `Retrieve.SentReq.StateRequesting` | lcs/retrieve.go:155-186 | performs the turn of the transition system in this state; a valid delivery stops with success unless stopped before, and any other stop is for a lack of peers with nothing outstanding |
| `Retrieve.SentReq.StateNoMorePeers` | lcs/retrieve.go:188-208 | performs the turn of the transition system in this state; a valid delivery stops with success unless stopped before, and any other stop is for a lack of peers with nothing outstanding |
| `Retrieve.SentReq.StateStopped` | lcs/retrieve.go:210-215 | takes events exactly until nothing is outstanding |
| `Retrieve.SentReq.Deliver` | lcs/retrieve.go:312-327 | accepts one delivery per peer the request was sent to and passes the verdict on |
| `Ancestry.AncestorOfAncestor` | kernel/headerchain.go:229-246 | walking in two parts is walking at once |
| `Ancestry.PathsMeet` | kernel/headerchain.go:125-136 | paths that meet at a number are equal below it |
| `HeaderChains.HeaderChain.constructor` | kernel/headerchain.go:48-83 | a chain of the genesis alone satisfies the invariant |
| `HeaderChains.HeaderChain.ClearFrom` | kernel/headerchain.go:115-123 | removes exactly the canonical entries from a number on |
| `HeaderChains.HeaderChain.Rewrite` | kernel/headerchain.go:125-136 | makes the canonical map the path of a header, ending at the highest common ancestor with the old path |
| `HeaderChains.HeaderChain.MakeCurrent` | kernel/headerchain.go:115-141 | the canonical map is exactly the path of the new current header |
| `HeaderChains.HeaderChain.WriteHeader` | kernel/headerchain.go:97-152 | the greater total difficulty wins, the coin on a tie; sums, maximality and the canonical path are kept |
| `HeaderChains.HeaderChain.GetAncestor` | kernel/headerchain.go:248-277 | a result is exactly the parent walk with its number; it succeeds exactly when the budget covers the steps off the canonical path, and charges exactly those |
| `HeaderChains.HeaderChain.OffPathIs` | kernel/headerchain.go:259-275 | the steps that are charged lead over ancestors that are not canonical, to the first that is or to the end |
| `HeaderChains.Run` | kernel/headerchain.go:97-152 | the invariant over every run from the genesis |
| `Chains.ScanFinds` | kernel/rawdb/accessors_indexes.go:23-38 | the scan finds every transaction of the chain where it is |
| `Chains.ScanIsRight` | kernel/rawdb/accessors_indexes.go:10-21 | every entry of the scan is a place on the chain that holds the transaction |
| `Chains.ScanSplits` | kernel/blockchain.go:1105-1187 | a scan is the scan below a fork and the entries above it |
| `Chains.UpperIsNew` | kernel/blockchain.go:1105-1187 | without repeats, what is above a fork is not below it |
| `Chains.SwapIndex` | kernel/blockchain.go:1176-1187 | adding the new branch and deleting the difference turns the scan of the old chain into that of the new |
| `Chains.TxDifference` | kernel/types/transaction.go:230-245 | the transactions of one list that are not in the other, in order |
| `Chains.WithoutParts` | kernel/types/transaction.go:230-245 | the difference of a concatenation is that of its parts, in order, and a single transaction stays exactly if it is not excluded |
| `Chains.TxsOfParts` | kernel/tx_pool.go:285-320 | the transactions of blocks are those of each block in turn |
| `Chains.NotYetCanonical` | kernel/blockchain.go:821-833 | a block that is preferred is not canonical yet unless it is the head |
| `BlockChains.BlockChain.Insert` | kernel/blockchain.go:394-408 | sets number and head; the header and fast heads follow unless the block was canonical already |
| `BlockChains.BlockChain.WriteTxLookupEntries` | kernel/rawdb/accessors_indexes.go:23-38 | adds the entries of a block |
| `BlockChains.BlockChain.Fork` | kernel/blockchain.go:1128-1165 | collects the two branches above the highest common ancestor; the error branches are unreachable |
| `BlockChains.BlockChain.InsertBranch` | kernel/blockchain.go:1176-1181 | inserts a branch oldest first, with its lookup entries |
| `BlockChains.BlockChain.Reorg` | kernel/blockchain.go:1105-1187 | canonical map and lookup index follow to the new block |
| `BlockChains.BlockChain.Reinject` | kernel/tx_pool.go:280-323 | exactly the transactions of the old chain that the new chain lacks go back, unless the heads are over 64 apart; only a genesis that names the old head as parent passes for a child |
| `BlockChains.BlockChain.Prefers` | kernel/blockchain.go:821-833 | greater total difficulty, then lower number, then preservation, then the coin |
| `BlockChains.BlockChain.TakeOver` | kernel/blockchain.go:834-853 | the block becomes the head with canonical map, index and all three heads |
| `BlockChains.BlockChain.Put` | kernel/blockchain.go:769-772 | stores the block and its total difficulty without disturbing earlier chains |
| `BlockChains.BlockChain.WriteBlockWithState` | kernel/blockchain.go:754-856 | the exact fork choice; path, index, sums and maximality are kept and the head's total difficulty never falls |
| `BlockChains.Run` | kernel/blockchain.go:754-856 | the invariant over every run of sound writes |
| `WeightedCells.PickedOften` | lcs/randselect.go:123-134 | exactly weight-many values pick an item, namely one interval of them |
| `SelectTree.FindBranch` | lcs/randselect.go:75-81 | finds the first branch with room; the panic is unreachable while the node is not full |
| `SelectTree.Insert` | lcs/randselect.go:74-98 | the item lands in the first free cell of the flat list and its index is returned; sums and counts stay exact at every node |
| `SelectTree.SetWeight` | lcs/randselect.go:100-121 | exactly the cell at the index changes and the difference is returned |
| `SelectTree.Choose` | lcs/randselect.go:123-134 | returns the item that a scan of the flat list would pick; the panic is unreachable |
| `SelectTree.Grow` | lcs/randselect.go:37-42 | a new root keeps every item at its index |
| `RandSelect.WeightedRandomSelect.constructor` | lcs/randselect.go:16-18 | a new selector is empty |
| `RandSelect.WeightedRandomSelect.SetWeight` | lcs/randselect.go:28-46 | refines the update of a map from items to weights; indices keep addressing the same items |
| `RandSelect.WeightedRandomSelect.Choose` | lcs/randselect.go:48-63 | terminates though items may change their weight in every round; every round finds the item that its random number falls on, stores the weight it gives and keeps it exactly if that has not fallen or the second number is below it; none means that every item was found without weight |
| `RandSelect.FairShare` | lcs/randselect.go:48-63 | for each item exactly weight-many values in [0, sum) choose it |
| `RandSelect.FairRefusal` | lcs/randselect.go:59-61 | an item whose weight has fallen is found and kept in exactly the share of the cases that its present weight gives it |
| `RandSelect.SteadyOnce` | lcs/randselect.go:48-63 | while no weight changes, the item that the first random number falls on is chosen, so the shares are those of `FairShare` |
| `ChainIndexers.ChainIndexer.constructor` | kernel/chain_indexer.go:61-93 | an indexer that loads a sound index and adds a checkpoint if there is one; the index is kept if it reaches beyond the checkpoint |
| `ChainIndexers.ChainIndexer.SetValidSections` | kernel/chain_indexer.go:356-366 | sets the count and removes exactly the heads from there on |
| `ChainIndexers.ChainIndexer.Rollback` | kernel/chain_indexer.go:178-202 | every section kept above the checkpoint ends at or below the ancestor; the invariant survives exactly if no head is stranded |
| `ChainIndexers.ChainIndexer.NewHead` | kernel/chain_indexer.go:174-225 | the exact counts after a reorganisation and after a normal head, with the checkpoint check; the invariant survives exactly if no head is stranded, and a stranded one is beyond the count; sections become known exactly if more of them are confirmed, up to the checkpoint at least, on a chain that has the checkpoint, and then all that are confirmed |
| `ChainIndexers.ChainIndexer.Capture` | kernel/chain_indexer.go:241-254 | notes the next section and the head before it |
| `ChainIndexers.UnwoundOk` | kernel/chain_indexer.go:356-366 | every access of a failed reset keeps all heads below the count but the one it is about to remove |
| `ChainIndexers.TruncatedOk` | kernel/chain_indexer.go:356-366 | a truncation between two accesses of a failed reset keeps this exactly if it does not come between the write of the count and its read with the head still stored |
| `ChainIndexers.ChainIndexer.Tick` | kernel/chain_indexer.go:300-303 | a failed reset makes its next access, and ends with what is known reduced to what is stored |
| `ChainIndexers.ChainIndexer.ResetFails` | kernel/chain_indexer.go:300-303 | a failing reset that nobody interrupts invalidates everything |
| `ChainIndexers.ChainIndexer.ProcessBlock` | kernel/chain_indexer.go:305-319 | a block is accepted only if it is known and follows the last one |
| `ChainIndexers.ChainIndexer.Commit` | kernel/chain_indexer.go:265-282 | a section is stored exactly when no section was invalidated since it was captured |
| `ChainIndexers.Run` | kernel/chain_indexer.go:174-325 | over every interleaving: all heads linked by a section's length of parents; until an announcement strands a head, no head at or beyond the count and all heads from the checkpoint on there; and a head beyond the count at the announcement that does |
| `ChainIndexers.StrandHead` | kernel/chain_indexer.go:300-366 | from any index of which the announcement cuts more than the last section: a failed reset, an announcement between its write and its read, and the reset ends with no section counted and a head still stored |
| `ChainIndexers.StrandedRun` | kernel/chain_indexer.go:300-366 | the same for an index of two sections |
| `ChainIndexers.LoweredToZero` | kernel/chain_indexer.go:178-196 | reorganisations empty the index exactly if there is no checkpoint and one goes back into the first section |
| `ChainIndexers.CountsDown` | kernel/chain_indexer.go:356-366 | a failed reset counts down with reorganisations between its accesses: exactly when the count wraps around, and exactly when it rises |
| `SectionRaces.AccessSound` | kernel/chain_indexer.go:356-366 | an access of either of two loops keeps all heads below the count, but those about to be removed, exactly if it does not strand one |
| `SectionRaces.SoundExactly` | kernel/chain_indexer.go:356-366 | over every interleaving of the two loops: sound throughout exactly if no access strands a head |
| `SectionRaces.RaceEnds` | kernel/chain_indexer.go:356-366 | when both loops are over and nothing was stranded, no head is left, and the count fits the index exactly if it is zero |
| `SectionRaces.BothStrand` | kernel/chain_indexer.go:356-366 | two loops on an index of two sections or more can strand a head |
| `SectionRaces.CountWithoutHeads` | kernel/chain_indexer.go:356-366 | an announcement that writes last brings back a count of sections without heads |
| `ChainIndexers.CanonBelow` | kernel/chain_indexer.go:305-319 | below a canonical head, from the checkpoint on, every head is canonical |
| `ChainIndexers.IndexCanonical` | kernel/chain_indexer.go:305-319 | all heads from the checkpoint on are canonical exactly if the last one is |
| `ChainIndexers.StaleSection` | kernel/chain_indexer.go:265-271 | a section whose last block is replaced after it was read is stored with a head that is not canonical |
| `Words.ReadsBack` | accounts/abi/unpack.go:21-52 | a number that fits is read back from its bytes, signed or not |
| `Words.FromTo` | accounts/abi/numbers.go:25-27 | reading k bytes gives the number modulo 256^k |
| `Words.ByteAt` | accounts/abi/numbers.go:25-27 | byte i of k is the digit at 256^(k-1-i): the highest comes first |
| `Words.ToFrom` | accounts/abi/unpack.go:21-52 | bytes are what their number is written as |
| `Abi.WordRoundTrip` | accounts/abi/pack.go:16-46 | every elementary value is read back from its word |
| `Abi.WordLayout` | accounts/abi/pack.go:16-62 | numbers stand with the highest byte first, addresses at the end, byte arrays and functions at the beginning of their word, with zeros elsewhere |
| `Abi.OnlyOwnWords` | accounts/abi/unpack.go:54-84 | booleans and functions are read from nothing but the words they are packed to |
| `Abi.WidthIs` | accounts/abi/unpack.go:21-42 | machine integers are as wide as their types, all others are read as whole words |
| `Abi.BytesLayout` | accounts/abi/pack.go:11-14 | a byte string is its length, its bytes and zeros up to the least multiple of 32 that holds them |
| `Abi.SliceLayout` | accounts/abi/type.go:151-163 | a slice of words is its length and its elements in order |
| `Abi.ArrayLayout` | accounts/abi/type.go:151-165 | a fixed array is its elements in order |
| `Abi.OffsetLeads` | accounts/abi/unpack.go:184-213 | an offset leads to its length and its contents |
| `Abi.StaticRoundTrip` | accounts/abi/unpack.go:93-182 | values of fixed size, nested arrays of any dimension included, are read back in place |
| `Abi.DynamicRoundTrip` | accounts/abi/unpack.go:138-213 | dynamic values are read back through their offset |
| `Abi.HeadStands` | accounts/abi/argument.go:185-218 | every head stands where the decoder looks for it |
| `Abi.TailStands` | accounts/abi/argument.go:185-218 | every dynamic offset lands on its own tail |
| `Abi.PackedLayout` | accounts/abi/argument.go:185-218 | everything packed is full words; every head stands where the decoder looks for it, and is the value or an offset that is a multiple of 32; the tails follow in order, each at its offset if the list is aligned |
| `Abi.RoundTrip` | accounts/abi/argument.go:165-218 | unpacking what was packed gives back the arguments |
| `Abi.NotARoundTrip` | accounts/abi/argument.go:191-198 | with something dynamic and a nested array of more elements than its outer size, the first offset points into the heads and the sample is not given back |
| `Abi.RoundTripExactly` | accounts/abi/argument.go:165-218 | for supported types, the codec gives back all values exactly when nothing is dynamic or the two ways of counting the heads agree |
| `Abi.SizesOrder` | accounts/abi/argument.go:155-198 | the two ways of counting agree exactly when every fixed array has as many elements as its outer size |
| `Abi.PackValue` | accounts/abi/type.go:144-168 | packs a value; lists element by element, byte strings filled up with zeros to full words |
| `Abi.Pack` | accounts/abi/argument.go:185-218 | fails exactly on a wrong number or type, else gives all heads and then all tails, in full words for the supported types |
| `Abi.GetArraySize` | accounts/abi/argument.go:155-163 | the product of all dimensions |
| `Abi.GetFullElemSize` | accounts/abi/unpack.go:93-100 | the bytes of one element of a fixed array |
| `Abi.ToGoType` | accounts/abi/unpack.go:138-182 | the value at an index, or none when anything is out of bounds or malformed |
| `Abi.ForEachUnpack` | accounts/abi/unpack.go:102-136 | the elements of a list, or none if one fails |
| `Abi.UnpackValues` | accounts/abi/argument.go:165-179 | the values of the arguments that are not indexed, arrays shifting the later ones |
| `Abi.NonIndexedParts` | accounts/abi/argument.go:49-57 | the arguments that are not indexed are those of each part in turn, in order |
| `Abi.PackAndUnpack` | accounts/abi/argument.go:165-218 | the round trip through both loops, for every aligned list of supported types |
| `Intrinsic.IntrinsicGas` | kernel/state_transition.go:60-86 | equals the exact sum and fails exactly when that exceeds 64 bits |
| `Intrinsic.ExactGasMeans` | kernel/state_transition.go:60-86 | the exact sum: 4 for every zero byte and 68 for every other on top of 53000 for a creation under homestead rules and 21000 otherwise |
| `StateTransitions.GasPool.AddGas` | kernel/gaspool.go:10-16 | adds; the panic on overflow is a precondition that every caller meets |
| `StateTransitions.GasPool.SubGas` | kernel/gaspool.go:18-24 | takes the amount or refuses |
| `StateTransitions.StateTransition.UseGas` | kernel/state_transition.go:111-118 | uses gas or refuses |
| `StateTransitions.StateTransition.BuyGas` | kernel/state_transition.go:120-133 | the sender pays for all gas, the pool gives it, or nothing changes |
| `StateTransitions.StateTransition.PreCheck` | kernel/state_transition.go:135-145 | the first of the four reasons to refuse |
| `StateTransitions.StateTransition.RefundGas` | kernel/state_transition.go:186-197 | gives back the rest and at most half of the use, to sender and pool, without overflow |
| `StateTransitions.StateTransition.TransitionDb` | kernel/state_transition.go:147-184 | exact errors, each with its condition; the machine sees the balances with all the gas paid and, for a call, the sender's nonce one higher and all others equal, for a creation the old nonces; on success the pool lost exactly the gas used and beyond the machine every balance changed by exactly the fee |
| `StateTransitions.CountedMeans` | kernel/state_transition.go:167-173 | a call makes the sender's nonce one higher, or zero after the last, and leaves all others; a creation leaves all |
| `StateTransitions.PreErrorMeans` | kernel/state_transition.go:120-145 | a message is let through exactly if its nonce, when checked, is that of the sender, and sender and pool can afford its gas; every error is right |
| `StateTransitions.FeesBalance` | kernel/state_transition.go:120-197 | buying, refunding and paying the coinbase add up to the fee |
| `StateProcessors.ApplyTransaction` | kernel/state_processor.go:53-82 | refines one step of the ledger and writes the receipt; fails for the signature exactly if no sender could be recovered, and then changes nothing |
| `StateProcessors.Process` | kernel/state_processor.go:28-51 | refines the fold over all transactions; gas taken from the pool is the sum of gas used, the last cumulative amount and within the limit |
| `StateProcessors.NonceRises` | kernel/state_transition.go:147-184 | with a machine that lowers no nonce, no transaction lowers one, and a call passes the nonce it was made for, unless it counts beyond the last nonce |
| `StateProcessors.ReplayRefused` | kernel/state_transition.go:135-145 | a call that checked its nonce is refused when it is applied again, as too low, or after the last nonce as too high |
| `StateProcessors.CalledOnce` | kernel/types/transaction.go:183-200 | the calls of an account in a processed block are made for ever higher nonces, so none is executed twice |
| `StateProcessors.FeesCancel` | kernel/state_transition.go:120-197 | the fees of a block are zero-sum |
| `StateProcessors.Conservation` | kernel/state_processor.go:28-51 | a block changes the total of balances only by what the machine does |
| `StateProcessors.SetReceiptsData` | kernel/blockchain.go:629-659 | fills each receipt in place: transaction, gas as a difference of cumulative amounts, and the place of every log |
| `StateProcessors.GasRecovered` | kernel/blockchain.go:637-648 | for receipts that processing wrote, the gas of each transaction is recovered |
| `Configs.MismatchFrom` | params/config.go:215-247 | a mismatch persists at every height behind its rewind point |
| `Configs.RewindIsLower` | params/config.go:276-291 | a rewind point is strictly lower, or zero |
| `Configs.CompatibleBelow` | params/config.go:215-247 | compatibility holds at every lower height |
| `Configs.CompatibleMeans` | params/config.go:215-291 | for every pair of configurations, compatible exactly when both put the same rules in force at every height up to there |
| `Configs.CheckCompatible` | params/config.go:200-213 | terminates; no error exactly when compatible, else the greatest lower compatible height, or zero; the error names a fork in conflict with its stored and its wanted height, and goes back to right before the earlier |
| `GasLimits.StepIsSmall` | kernel/block_validator.go:69-97 | from such a limit every step is legal, whatever floor and ceiling, and one that rises does not pass the ceiling |
| `GasLimits.AboveCeiling` | kernel/block_validator.go:69-97 | above the ceiling the next limit is the greater of the ceiling and the limit less a 1024th less one, unless the gas used asks for one that is not above the ceiling |
| `GasLimits.BelowFloor` | kernel/block_validator.go:69-97 | below the floor the next limit is the lesser of the floor and the limit plus a 1024th less one, unless the gas used asks for one that is not below the floor |
| `GasLimits.WithinRange` | kernel/block_validator.go:69-97 | within the range the limit moves by exactly the difference of the raise and a 1024th less one, as far as the range goes; it rises or falls exactly then |
| `GasLimits.RisesExactly` | kernel/block_validator.go:69-84 | without floor and ceiling the limit rises exactly if half as much again as the gas used is, in 1024ths, more than a 1024th of the limit less one, and fits into 64 bits |
| `GasLimits.HighLimitsFall` | kernel/block_validator.go:69-97 | from every higher limit a block without gas under the greatest floor wraps around, which is not legal |
| `GasLimits.LegalExactly` | lib/consensus/ethash/consensus.go:213-221 | for limits from 5120 on, over all gas used, ceilings and floors from a given one on: always legal exactly if the sum with the 1024th is at most 2^64 |
| `GasLimits.SaneExactly` | lib/consensus/ethash/consensus.go:213-221 | over all gas used, floors and ceilings: always legal exactly for the limits from 5120 on whose sum with their 1024th is at most 2^64 |
| `GasLimits.StepIsNearer` | kernel/block_validator.go:69-97 | every block brings the limit nearer to the range by exactly a 1024th of it less one, or all the way, and it never leaves the range |
| `GasLimits.KeptExactly` | kernel/block_validator.go:69-97 | no block leaves a range of limits, whatever the limit in it and the gas used, exactly if the range is closed |
| `GasLimits.Converges` | kernel/block_validator.go:69-97 | along any chain from a sane limit the distance to a closed range falls in every block by at least a 1024th of the least limit on the way less one; it is entered after as many blocks as that goes into the distance, and kept |

## Left out

- Networking, RPC, console, wallets, key stores, the database layer, metrics, logging and event feeds: input and output, or thin wrappers.
- LRU caches and locks: reads go to the database, and a locked method is one step. Real interleaving is modelled for the retrieval and the indexer.
- The pool's lists as shared objects: the pool model holds the contents of each list as a map from nonces to transactions; that list objects with their heaps, caches and caps perform its updates is proved in `ListTables` and `ListRuns` beside the pool, not inside it.
- The nodes of the selector tree as shared objects: a node is a value, and a changed child is put back into its parent; the selector itself is a class. 64-bit overflow of a sum of weights is not modelled.
- The journal of local transactions, transaction events, the statistics of the pool, and accounts becoming local by configuration.
- PricedLists.TxPricedList.Removed: the exactness of the stale counter after a transaction is removed and added again before a rebuild, which none of the other results needs.
- TxPools.Run: over whole runs contiguity is claimed for calm steps; the exact conditions are those of the single steps.
- TxPools.TxPool.Reset: whether there is a state to move to is a parameter, and so is what was put back, which `HeadResets.MoveHead` takes from the two heads; the missing head that stands for the current block is left out.
- `insertChain`, `insertSidechain`, `SetHead`, `Rollback`, fast synchronisation and trie garbage collection: they leave other residual states, such as orphaned headers.
- BlockChains.BlockChain.WriteBlockWithState: failures of the database or of committing the state are not modelled; receipts, preimages and logs are left out.
- BlockChains.Run: writes that would repeat a transaction within one chain, reuse a hash for another block or have no difficulty are skipped; the execution of a block rules them out.
- Number arithmetic at 2^64: block numbers are unbounded, and the predecessor of number zero does not exist where Go wraps around.
- ChainIndexers.Run: an announcement is one step of the run; the interleaving of its loop with a failed reset, access by access, is proved for the two loops alone, in `SectionRaces`.
- ChainIndexers.ChainIndexer.NewHead: the cascade to child indexers is left out.
- ChainIndexers.ChainIndexer.constructor: a checkpoint is added before the first step, and no second one; throttling is left out.
- HeaderChains.HeaderChain.constructor: the seed of the coin, the caches and the head that is loaded from the database are left out.
- StateProcessors.ApplyTransaction: logs, the bloom filter, the intermediate root and the contract address of a receipt are left out.
- StateProcessors.Process: the state change of the DAO fork, block rewards and the final state root are left out.
- The distributor of the retrieval is a choice: it gives a requester a peer the request was not sent to, or none. Server statistics and the removal of peers after a hard timeout are left out.
- Abi.RoundTrip: slices of arrays, arrays of dynamic types and empty fixed arrays are outside the domain of the round trip; `Unpack` and `Pack` model them as the code does.
- Abi.ToGoType: fixed byte types wider than a word, on which Go would fail at run time, give no value here. The parser of type names, reflection and mapping to structs are left out.
- The virtual machine, the state database, consensus engines and block rewards: the machine is any function that leaves no more gas than it was given.
- StateProcessors.SetReceiptsData: contract addresses of creations are not derived.
- `lcs/fetcher.go`, `lcs/serverpool.go`, `lcs/freeclient.go`: they depend on timers and floating-point statistics.
