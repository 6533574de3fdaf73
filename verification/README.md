# Verification models for Boba's l2geth core and fraud detector

This project models the parts of the Boba repository whose correctness is hardest to see from the
code, and proves what they are meant to guarantee, for all inputs and for all runs:

- **The transaction pool** (`Heap`, `SortedMap`, `TxLists`, `PricedList`, `PoolState`, `PoolSteps`,
  `Truncation`, `QueueTruncation`, `Batches`, `Promotion`, `Demotion`, `Background`, `Admission`,
  `Seamless`, `TxPool`): binary heaps, the nonce-sorted list with its lazily sorted cache, the per-account
  lists with their cost and gas caps, the price heap with stale entries, and the pool that moves
  transactions between "pending" and "queue". After every operation the lookup table is exactly the
  disjoint union of both, every transaction that leaves has a stated reason, and the two truncations
  are characterised exactly: truncating the pending lists is water-filling with one unique level. While no
  new head arrives, every pending list is a run without gaps up to the account's virtual nonce.
- **The chains** (`Chain`, `HeaderChain`, `BlockChain`): header and block fork choice, the number
  index, the transaction index and the head markers through every reorganisation.
- **The chain indexer** (`ChainIndexer`): sections indexed in the background while the chain is
  reorganised under it, as a step machine with arbitrary interleaving; while the chain stands still,
  every known section gets indexed.
- **Gas and fees** (`Gas`, `StateTransition`): intrinsic gas without wrap-around, the fee flow of a
  message under every combination of forks and in both fee tokens, and gas and money over a block.
- **Codecs** (`VarBytes`, `DerivationPath`): parser and printer inverses.
- **The fraud detector** (`FraudDetector`): a scan that can crash between any two steps and resumes
  from its checkpoint file; left alone, it reaches the tip and raises the alarm exactly if it has to.

`Wrappers`, `Transactions` and `Sums` hold shared definitions.

## How to read it

Objects that the source mutates are classes (`TxSortedMap`, `TxList`, `TxLookup`, `TxPricedList`,
`Pool`, `HeaderChain`, `BlockChain`, `ChainIndexer`, `GasPool`, `StateTransition`, `Source`, `Sink`,
`Detector`), with methods that follow the source's branches and loops. A class
whose objects keep an invariant has a `Valid()` predicate that every method keeps, and most of those have a `Run`
method that states what holds after any sequence of operations. Value-level lemmas carry the reasoning.

Modelling decisions:

- A hash is a free constructor over what it hashes, so it is injective. Sender recovery is a field.
- The pool keeps its account lists by value (`List`); the class `TxList` is proved to perform exactly the
  functions of `List`. Go map iteration and priority-queue ties are nondeterministic choices.
- Database tables are maps. The lookups of headers and difficulties take hash and number, but answer
  from a cache by hash alone; the cached hashes are a parameter. A misnumbered header is therefore
  refused only if its parent's difficulty is not cached (`HeaderChain.HeaderChain.WriteHeader`,
  `HeaderChain.MisnumberedIsStored`). Importing headers and inserting blocks check the numbering first, so
  that whole runs need no such assumption.
- Randomness (the coin of the fork choice), clocks, tips, the EVM, the fee oracle and the L2 node's
  answers are parameters.
- Where the source computes in 64 bits, wrap-around is written out (nonces, used gas, extra gas, of which
  the source takes the low 64 bits) or excluded by proof (intrinsic gas). A panic is an error value.

Where the code differs from its comments, or from what its callers rely on, the model follows the code:

- `truncateQueue` is documented to drop the oldest transactions; it drops accounts with the most recent
  heartbeat first. `QueueTruncation.OldestFirstExactly` says exactly when both orders agree, and
  `QueueTruncation.NewestGoesFirst` is a queue on which they do not.
- A reorganisation to a branch of one block below a higher old head leaves index entries above the new
  head. `BlockChain.Overhang` is the exact condition, `BlockChain.OverhangOccurs` is a run that ends so, and
  `BlockChain.BlockChain.Run` says which entries those are.
- A transaction that occurs twice on one path can lose its lookup entry in a reorganisation.
  `BlockChain.NothingLost` is the exact condition, and `BlockChain.LossOccurs` is a run that ends so.
- Eviction counts the slots of heap entries. A transaction that was removed and added again can have two
  entries, and then less room is made than asked for: `PricedList.DoubledEntry` is a run that ends so,
  and `PricedList.FreedExact` says exactly when the count is right.
- The parser of derivation paths is documented to ignore white space; it ignores it around
  components, not inside numbers (`DerivationPath.InnerSpaceInPath`, `DerivationPath.InnerSpaceRejected`).
- A message from L1 with a price above zero is not charged the L1 part of the fee that the vault is credited
  with; the difference is `StateTransition.Unbilled`. `StateTransition.UnbilledOnlyFromL1` says exactly when it is
  not zero, and `StateTransition.UnbilledOccurs` is such a message. The messages that the node builds from
  L1 have price zero, and for those nothing is unbilled.
- The refund is capped at half the gas used without its L1 share while both forks are active, but not while
  the second is active without the first: `StateTransition.RefundCap` is the exact condition. The refund stays
  within the gas spent exactly under the condition of `StateTransition.RefundWithinSpent`.

## Model

| member | source | states |
|---|---|---|
| Heap.RootIsLeast | l2geth/core/tx_list.go:30-48 | the root of a binary heap ranks no higher than any other entry |
| Heap.Up | l2geth/core/tx_list.go:76-76 | sifting up the one misplaced entry restores the heap and permutes it |
| Heap.Down | l2geth/core/tx_list.go:118-118 | sifting down restores the heap below the start, touches nothing beyond the bound, permutes, and reports exactly whether it moved |
| Heap.Init | l2geth/core/tx_list.go:118-141 | any sequence becomes a heap with the same entries |
| Heap.Push | l2geth/core/tx_list.go:76-76 | a heap with one more entry |
| Heap.Remove | l2geth/core/tx_list.go:158-163 | a heap without the entry at any given position |
| Heap.Pop | l2geth/core/tx_list.go:88-91 | takes an entry that is least among all, and leaves a heap of the rest |
| Heap.Sort | l2geth/core/tx_list.go:135-135 | a sorted permutation |
| SortedMap.ListingUnique | l2geth/core/tx_list.go:203-216 | a set of transactions has only one nonce-sorted listing |
| SortedMap.ListingTake | l2geth/core/tx_list.go:143-147 | cutting a sorted cache at its back leaves the sorted listing of the lowest nonces, and exactly that many |
| SortedMap.ListingSplit | l2geth/core/tx_list.go:94-97 | a sorted cache splits at a nonce into the listings of what lies below and what lies at or above |
| SortedMap.CacheForward | l2geth/core/tx_list.go:94-97 | dropping as many entries at the cache's front as were removed leaves the sorted listing of the rest |
| SortedMap.RootIsLowest | l2geth/core/tx_list.go:88-88 | the index holds each key once and its root is the lowest nonce |
| SortedMap.TxSortedMap.constructor | l2geth/core/tx_list.go:59-64 | starts empty and valid |
| SortedMap.TxSortedMap.Put | l2geth/core/tx_list.go:73-79 | the map gains or replaces one entry; index and cache stay consistent |
| SortedMap.TxSortedMap.PopLowest | l2geth/core/tx_list.go:88-91 | removes the transaction with the lowest nonce of all |
| SortedMap.TxSortedMap.Forward | l2geth/core/tx_list.go:84-98 | keeps exactly the nonces at or above the threshold, returns the others sorted, and keeps a cache valid by slicing |
| SortedMap.TxSortedMap.Filter | l2geth/core/tx_list.go:102-123 | keeps exactly what the filter does not match and returns exactly what it matches |
| SortedMap.DropHighest | l2geth/core/tx_list.go:135-140 | removing from the sorted index's end leaves exactly the lowest nonces |
| SortedMap.TxSortedMap.Cap | l2geth/core/tx_list.go:127-148 | keeps exactly the lowest nonces up to the limit and returns the rest from the highest down |
| SortedMap.TxSortedMap.Remove | l2geth/core/tx_list.go:152-169 | deletes one nonce and says whether it was there |
| SortedMap.TxSortedMap.TakeRun | l2geth/core/tx_list.go:183-189 | drains consecutive nonces from the lowest until the next one is missing |
| SortedMap.TxSortedMap.Ready | l2geth/core/tx_list.go:178-193 | returns and removes the maximal consecutive run from the lowest nonce; nothing exactly if all nonces exceed the start |
| SortedMap.RestAfterRun | l2geth/core/tx_list.go:178-193 | once the run was taken, every nonce left is more than one above the last one taken, or above the start if none was |
| SortedMap.TxSortedMap.Flatten | l2geth/core/tx_list.go:203-216 | returns the sorted contents, from the cache when there is one |
| SortedMap.TxSortedMap.Len | l2geth/core/tx_list.go:196-198 | the number of transactions is the size of the index |
| SortedMap.TxSortedMap.Run | l2geth/core/tx_list.go:73-216 | any sequence of operations leaves the contents a plain map would have, with heap and cache consistent |
| TxLists.AddBounded | l2geth/core/tx_list.go:263-270 | adding keeps the cost and gas caps upper bounds |
| TxLists.FilterBounded | l2geth/core/tx_list.go:290-299 | lowering the caps to the limits keeps them upper bounds of what remains |
| TxLists.SmallerBounded | l2geth/core/tx_list.go:222-230 | removing entries keeps the caps upper bounds |
| TxLists.ShortCircuitExact | l2geth/core/tx_list.go:290-314 | skipping the scan when the caps are within the limits gives the same result as scanning; a strict list is cut before its first unpayable nonce |
| TxLists.StrictStaysContiguous | l2geth/core/tx_list.go:277-336 | forwarding, filtering, capping and removing keep a contiguous strict list contiguous |
| TxLists.TxList.constructor | l2geth/core/tx_list.go:232-238 | an empty list with zero caps |
| TxLists.TxList.Add | l2geth/core/tx_list.go:251-272 | accepts a replacement exactly when it is priced high enough, reports the replaced one, and otherwise changes nothing |
| TxLists.OutbidsByBump | l2geth/core/tx_list.go:252-264 | a replacement raises the price by at least one and by at least the bump, in percent and rounded down |
| TxLists.TxList.Forward | l2geth/core/tx_list.go:277-279 | drops and returns exactly the lower nonces |
| TxLists.TxList.Filter | l2geth/core/tx_list.go:290-314 | returns exactly the unpayable ones, and on a strict list exactly the payable ones after the first of them as invalid |
| TxLists.LowestNonce | l2geth/core/tx_list.go:304-310 | the lowest nonce among the removed |
| TxLists.TxList.Cap | l2geth/core/tx_list.go:318-320 | keeps exactly the lowest nonces |
| TxLists.TxList.Remove | l2geth/core/tx_list.go:325-336 | removes one nonce, and on a strict list returns exactly the later ones as invalid |
| TxLists.TxList.Ready | l2geth/core/tx_list.go:345-347 | takes the executable run |
| PricedList.TxLookup.constructor | l2geth/core/tx_pool.go:1535-1540 | an empty lookup with no slots |
| PricedList.TxLookup.Add | l2geth/core/tx_pool.go:1579-1587 | adds a transaction under its hash; slots stay the sum of the slots of all |
| PricedList.TxLookup.Remove | l2geth/core/tx_pool.go:1590-1598 | removes a hash that is present; slots stay the sum |
| PricedList.RankIsLess | l2geth/core/tx_list.go:373-383 | the heap's comparison, cheapest first and highest nonce first among equals, is a single integer rank |
| PricedList.SlotsNeeded | l2geth/core/tx_pool.go:1600-1603 | a transaction takes as many slots of 32 KB as its size needs, and no more |
| PricedList.TxPricedList.constructor | l2geth/core/tx_list.go:406-411 | an empty price heap over a lookup |
| PricedList.TxPricedList.Put | l2geth/core/tx_list.go:414-416 | exactly one more heap entry, and no more stale ones |
| PricedList.TxPricedList.Removed | l2geth/core/tx_list.go:421-436 | counts stale entries up to a quarter of the heap; beyond that the heap is rebuilt with exactly one entry for each pooled transaction |
| PricedList.CapScan | l2geth/core/tx_list.go:444-461 | pops everything below the threshold, separating remote from kept, and loses no live entry |
| PricedList.TxPricedList.Cap | l2geth/core/tx_list.go:440-467 | drops only remote live transactions below the threshold; no such one stays and none is lost |
| PricedList.TxPricedList.Underpriced | l2geth/core/tx_list.go:471-493 | true exactly for a remote transaction that is no dearer than every pooled one |
| PricedList.DiscardScan | l2geth/core/tx_list.go:501-514 | pops the cheapest until enough slots are counted or nothing is left, no more than needed, and keeps the number of entries of every live transaction |
| PricedList.TxPricedList.Discard | l2geth/core/tx_list.go:497-520 | drops only remote live transactions, none better than a remote one that stays: dearer, or as dear with a lower nonce; until enough slots are counted or no remote is left; the slots freed are those counted if no live transaction has two entries |
| PricedList.FreedExact | l2geth/core/tx_list.go:501-514 | the slots counted for dropped entries are the slots that removing them frees exactly if no transaction is dropped twice |
| PricedList.DistinctDrop | l2geth/core/tx_list.go:501-514 | nothing is dropped twice if no live transaction has two entries |
| PricedList.DoubledEntry | l2geth/core/tx_list.go:414-520 | a transaction removed and added again is dropped twice, and only half of the two slots asked for is freed |
| PricedList.PushAll | l2geth/core/tx_list.go:516-518 | the saved entries return to the heap |
| PoolState.EnqueueKeepsInv | l2geth/core/tx_pool.go:673-699 | putting a transaction on the queue, replacing its slot, keeps the pool invariant |
| PoolState.PromoteKeepsInv | l2geth/core/tx_pool.go:717-753 | moving a transaction to pending, replacing its slot, keeps the pool invariant |
| PoolState.TakePending | l2geth/core/tx_pool.go:906-920 | taking part of a pending list keeps the invariant with the moved ones in transit, and frees their nonces |
| PoolState.TakeQueued | l2geth/core/tx_pool.go:1202-1249 | taking part of a queued list keeps the invariant with the moved ones in transit |
| PoolState.DemoteShrinks | l2geth/core/tx_pool.go:1394-1429 | outdated, unpayable, invalid and gapped transactions, with the rest, make up the old pending list without overlap |
| PoolState.PromoteShrinks | l2geth/core/tx_pool.go:1202-1226 | outdated, unpayable and ready transactions, with the rest, make up the old queued list without overlap |
| Truncation.WaterLevelUnique | l2geth/core/tx_pool.go:1257-1339 | there is at most one level that truncation may end at |
| Truncation.Undershoot | l2geth/core/tx_pool.go:1313-1337 | truncation removes fewer transactions beyond the limit than there are accounts above the level |
| Truncation.CapAllMonotone | l2geth/core/tx_pool.go:1313-1337 | a lower level leaves no more transactions |
| Truncation.CapAllLen | l2geth/core/tx_pool.go:1313-1337 | at a level an account keeps the smaller of its length and the level; locals keep all |
| PoolState.Sanitize | l2geth/core/tx_pool.go:185-220 | workable limits are kept, each of the others becomes its default: 10 percent, 16, 4096, 64 and 1024 |
| TxPool.Pool.constructor | l2geth/core/tx_pool.go:270-320 | an empty valid pool with sane limits |
| TxPool.Pool.SetIfLower | l2geth/core/tx_noncer.go:68-79 | the virtual nonce becomes the minimum, others unchanged |
| TxPool.Pool.EnqueueTx | l2geth/core/tx_pool.go:673-699 | queues a transaction exactly if its list accepts it, replacing its slot in queue and lookup, and otherwise changes nothing |
| TxPool.Pool.PromoteTx | l2geth/core/tx_pool.go:717-753 | makes a transaction pending exactly if its list accepts it, otherwise forgets it; the pool invariant holds again either way, only this account's virtual nonce changes, and an account that promotes is heard of now |
| TxPool.Pool.Forget | l2geth/core/tx_pool.go:897-901 | one hash leaves the lookup, and the price heap still covers the rest |
| TxPool.Pool.RemoveTx | l2geth/core/tx_pool.go:890-935 | exactly this hash leaves the pool, exactly the later pending transactions of its account move to the queue, the account's virtual nonce falls to the removed one if that was pending and lower, and its heartbeat is forgotten exactly with its last pending transaction; no other account loses anything |
| TxPool.Pool.EnqueueAll | l2geth/core/tx_pool.go:913-916 | all demoted transactions reach the queue and none is lost |
| TxPool.Pool.DrainQueued | l2geth/core/tx_pool.go:1202-1219 | leaves the queue without outdated, unpayable and ready transactions, returns the ready ones sorted, and counts those that left the pool |
| TxPool.Pool.PromoteAll | l2geth/core/tx_pool.go:1220-1226 | every ready transaction becomes pending and none is refused; the virtual nonce follows the last of them |
| TxPool.Pool.CapQueued | l2geth/core/tx_pool.go:1229-1239 | a remote queued list is cut to the account limit, and those that left are counted |
| TxPool.Pool.PromoteList | l2geth/core/tx_pool.go:1197-1250 | pending gains exactly the executable run; the queue keeps exactly the payable rest within the limit, all of which has to wait; the virtual nonce becomes the one after the run, if there is one |
| TxPool.Pool.PromoteRun | l2geth/core/tx_pool.go:1202-1226 | pending gains exactly the executable run, the queue keeps exactly the payable rest, and the virtual nonce moves behind the run |
| TxPool.Pool.PromoteExecutables | l2geth/core/tx_pool.go:1192-1252 | pending gains exactly the executable run of each given account and loses nothing; their queues keep exactly the payable rest within the limit, all of which has to wait, and the others are untouched; exactly the accounts that promote are heard of, each at its own time; a transaction leaves only if it is outdated, unpayable or remote with its account's queue full; the virtual nonce of an account that promotes is the one after its run, and no other changes |
| Background.PromoteStep | l2geth/core/tx_pool.go:1197-1250 | turns of accounts add up, and a second turn of an account changes nothing |
| Promotion.RestWaits | l2geth/core/tx_pool.go:1202-1226 | after the ready run was promoted, what stays queued is payable and lies beyond the next nonce |
| Promotion.WaitingIsIdle | l2geth/core/tx_pool.go:1202-1226 | nothing is executable in a list that has to wait, and promotion leaves it as it is |
| Promotion.PromoteLeaves | l2geth/core/tx_pool.go:1202-1249 | a queued transaction that is neither promoted nor kept is outdated, unpayable, or above the limit of a remote account |
| TxPool.Pool.DemoteList | l2geth/core/tx_pool.go:1392-1434 | pending keeps exactly the executable part; exactly the demoted transactions reach the queue |
| PoolSteps.DemoteMeaning | l2geth/core/tx_pool.go:1389-1436 | what stays starts at the account's nonce and is payable; what is neither kept nor demoted is outdated or unpayable |
| Demotion.StaysExactly | l2geth/core/tx_pool.go:1389-1436 | a pending transaction stays exactly if the chain nonce is pending and nothing from there up to it is unpayable; it is queued again exactly if it is payable and current itself but not reached |
| TxPool.Pool.DemoteUnexecutables | l2geth/core/tx_pool.go:1389-1436 | exactly the executable part of each pending list stays, starting at the account's nonce and payable; exactly what was cut off behind it joins the queue; a transaction leaves the pool only if it is outdated or unpayable |
| TxPool.Pool.CapPending | l2geth/core/tx_pool.go:1317-1334 | a pending list loses exactly its highest nonce, to which the virtual nonce falls if it was higher |
| TxPool.Pool.CapRound | l2geth/core/tx_pool.go:1316-1335 | one round lowers the level by exactly one |
| TxPool.Pool.ReduceTo | l2geth/core/tx_pool.go:1288-1336 | rounds stop at the first level within the limit or at the floor |
| TxPool.Pool.TakeOffender | l2geth/core/tx_pool.go:1278-1310 | taking the next largest account levels all offenders down to its size, or to the level that meets the limit |
| TxPool.Pool.Equalize | l2geth/core/tx_pool.go:1276-1311 | after all offenders were taken the pending lists are filled to one level |
| TxPool.Pool.CountAll | l2geth/core/tx_pool.go:1258-1261 | the number of pending transactions |
| TxPool.Pool.TruncatePending | l2geth/core/tx_pool.go:1257-1339 | does nothing within the limit, and otherwise cuts every remote list to the unique water level, each to a nonce prefix; the virtual nonce of an account falls to its lowest nonce cut, if that is lower |
| TxPool.Pool.ByHeartbeat | l2geth/core/tx_pool.go:1351-1358 | each remote queued account once, in heartbeat order |
| TxPool.Pool.DropAccount | l2geth/core/tx_pool.go:1367-1375 | a queued account disappears, pending is unchanged |
| TxPool.Pool.DropTail | l2geth/core/tx_pool.go:1376-1382 | a queued account loses exactly its highest nonces |
| TxPool.Pool.TruncateQueue | l2geth/core/tx_pool.go:1341-1384 | ends exactly at the limit or with only locals left; locals are untouched, at most one account is cut, and every remote account with a later heartbeat is gone; the oldest go first, as documented, exactly if all remote accounts have one heartbeat or the locals alone fill the queue |
| QueueTruncation.OldestFirstExactly | l2geth/core/tx_pool.go:1341-1384 | a cut by latest heartbeat goes oldest first exactly if all remote accounts have one heartbeat or the locals alone fill the queue |
| QueueTruncation.NewestGoesFirst | l2geth/core/tx_pool.go:1341-1384 | of two remote accounts with one transaction each and room for one, the one heard of earlier stays |
| TxPool.Pool.MakeRoom | l2geth/core/tx_pool.go:611-626 | a full pool refuses a remote newcomer exactly if it is no dearer than all; otherwise it evicts |
| TxPool.Pool.Evict | l2geth/core/tx_pool.go:619-625 | what is evicted is remote, no better than any remote that stays (dearer, or as dear with a lower nonce), and needed up to the last one; if no live transaction has two heap entries the newcomer then fits or no remote is left; pending loses slots of remote accounts only, and their virtual nonces fall to the lowest slot lost |
| PoolSteps.ClearedBy | l2geth/core/tx_pool.go:619-625 | removing what the price heap drops makes the room that was asked for, or all there is, if nothing was dropped twice |
| TxPool.Pool.ReplacePending | l2geth/core/tx_pool.go:627-648 | replaces a pending slot exactly if the price is bumped enough |
| TxPool.Pool.Place | l2geth/core/tx_pool.go:627-668 | accepted exactly if it outbids whoever holds its slot; then it takes that slot, over a pending one or else on the queue, and nothing else changes, otherwise nothing changes; a local sender is remembered only when its transaction is queued |
| PoolSteps.PlacedIn | l2geth/core/tx_pool.go:627-668 | the list that decides about a transaction accepts it exactly if it outbids the holder of its slot in the whole pool |
| PoolSteps.SwappedSlots | l2geth/core/tx_pool.go:636-655 | a placed transaction takes up at most its own slots |
| TxPool.Pool.Add | l2geth/core/tx_pool.go:596-668 | known and invalid transactions change nothing; a valid one is refused exactly if a full pool turns it away or its slot is held by one it does not outbid; with room to spare a refusal changes nothing and an acceptance changes one slot of one list; an accepted one owns its slot; whatever else left was evicted from a full pool as cheap, remote and needed; a virtual nonce changes only by falling to the lowest pending slot its account lost to eviction; below the two global limits together nobody is evicted, and from there on a remote newcomer that is no dearer than any is turned away; a local sender is remembered exactly if its transaction ends up queued |
| TxPool.Pool.Validate | l2geth/core/tx_pool.go:534-589 | a transaction that passes has the account's next nonce under the OVM, and is otherwise current, payable and within the block limit |
| Admission.FirstCause | l2geth/core/tx_pool.go:534-589 | a transaction is refused exactly for the first cause in the order of the checks, each stated by itself, and accepted exactly without one |
| Admission.AcceptedIsFit | l2geth/core/tx_pool.go:560-580 | an accepted transaction is fit for the lists, except exactly one that its account cannot pay under the OVM |
| Admission.AcceptedStarts | l2geth/core/state_transition.go:284-330 | an accepted transaction that is its account's next starts in an empty block on that state; after the second fork only its BOBA balance or the gas for L1 can keep it from starting |
| TxPool.Pool.AddTxsLocked | l2geth/core/tx_pool.go:846-858 | why each member of the batch got its answer; everything new was accepted; everything accepted stays, loses its slot to a later one, or is evicted; everything that left the pool or pending gave its slot to an accepted one or was evicted from a pool the batch could fill; each virtual nonce falls to the lowest pending slot its account lost, and with room to spare none is lost and the accounts to promote are exactly those of members that filled a free slot; in any case they include these; a local batch makes exactly such accounts local, and at most those of accepted members |
| Promotion.RecededTwice | l2geth/core/tx_pool.go:906-920 | removals add up: slots, heartbeats and virtual nonces after both are those after one larger removal |
| Batches.PooledStep | l2geth/core/tx_pool.go:849-852 | one more addition keeps all that is said of who is pooled and who left |
| Batches.DirtyStep | l2geth/core/tx_pool.go:849-855 | one more addition keeps the accounts to promote those of members that filled a free slot |
| Batches.LocalStep | l2geth/core/tx_pool.go:651-658 | one more addition keeps the account of who became local |
| TxPool.Pool.SetGasPrice | l2geth/core/tx_pool.go:430-439 | exactly the remote transactions below the new price leave the pool; local accounts keep their pending lists, and virtual nonces fall to the lowest slot lost |
| TxPool.Pool.SetPendingNonces | l2geth/core/tx_pool.go:1084-1088 | each pending account's virtual nonce is the one after its highest pending nonce; all other virtual nonces stay |
| TxPool.Pool.RunReorg | l2geth/core/tx_pool.go:1040-1099 | after the reset, which starts the virtual nonces from the chain, pending gains exactly what is executable, in the dirty accounts or after a new head in all; after a new head exactly the executable part of each list then stays, and the queue is exactly what promotion leaves and demotion cuts off; heartbeats move with promotions; the limits cut pending to the water level and the queue by these heartbeats; virtual nonces follow the pending lists, and a transaction left because it is outdated or unpayable, lost its slot to a reinjected one, or is remote and a limit is reached; an account that ends without pending transactions has the virtual nonce it had before the limits, and without a new head the one it had before; gapless lists stay gapless |
| TxPool.Pool.ApplyLimits | l2geth/core/tx_pool.go:1081-1088 | the limits cut pending to the water level and the queue by heartbeats; then exactly the pending accounts get the virtual nonce after their list |
| Background.NotPending | l2geth/core/tx_pool.go:1084-1088 | without a new head an account that ends without pending transactions keeps its virtual nonce |
| Seamless.RunJoins | l2geth/core/tx_pool.go:1218-1226 | what is executable in a queue continues a gapless pending list exactly where it ends |
| Seamless.PromotedGapless | l2geth/core/tx_pool.go:1192-1252 | promotion keeps every pending list a run without gaps from the chain nonce to the virtual nonce |
| Seamless.RecededGapless | l2geth/core/tx_pool.go:890-935 | so does removal |
| Seamless.CutGapless | l2geth/core/tx_pool.go:1081-1088 | so do the limits |
| TxPool.Pool.Reset | l2geth/core/tx_pool.go:1166-1186 | the chain state is replaced and the virtual nonces start again from it, falling only with pending slots lost to a crowded pool; pending gains nothing but reinjected transactions in slots it had; a reinjected transaction is pooled unless it is invalid, beaten or replaced in its slot, or lost to a crowded pool; a transaction leaves the pool or pending only for a reinjected one in its slot, or if remote from a pool that reinjection could fill |
| Background.NextFromChain | l2geth/core/tx_pool.go:1175-1182 | after a reset no virtual nonce is above the chain's, and each equals it if reinjection could not fill the pool or the account is local |
| TxPool.Pool.Rearrange | l2geth/core/tx_pool.go:1057-1079 | promotion and, after a new head, demotion: pending, queue and heartbeats afterwards are exact |
| Batches.MembersHomed | l2geth/core/tx_pool.go:1179-1182 | every reinjected transaction is pooled or has a reason not to be |
| TxPool.Pool.Truncate | l2geth/core/tx_pool.go:1080-1082 | applying both limits cuts pending to the water level and the queue by heartbeat, drops only remote transactions, of accounts that keep their guaranteed slots or from a full queue, and leaves every list that could run able to run |
| QueueTruncation.LimitsLeave | l2geth/core/tx_pool.go:1257-1384 | what both limits drop is remote, and its account keeps its guaranteed slots or the queue was cut |
| TxPool.Pool.Run | l2geth/core/tx_pool.go:430-1436 | after any sequence of operations the lookup is the disjoint union of pending and queue, no slot is in both, no list is empty, slots are the sum, and the price heap covers all; the run is a sequence of steps each of which does what its operation says; from an empty pool, while no new head arrives and no nonce is the last of 64 bits, every pending list is a run without gaps from the chain nonce to the virtual nonce |
| TxPool.Pool.Step | l2geth/core/tx_pool.go:430-1436 | what each operation does to the pool; without a new head it leaves gapless lists gapless |
| Gas.DivisionGuard | l2geth/core/state_transition.go:123-132 | the division guard rejects exactly when the sum would exceed 64 bits |
| Gas.IntrinsicGas | l2geth/core/state_transition.go:101-135 | the exact charge, or an error exactly when it does not fit in 64 bits |
| Gas.ChargeByByte | l2geth/core/state_transition.go:101-135 | 21000 or 53000, and per byte of data 4 if it is zero, else 16 or 68 |
| Chain.AncestorOfAncestor | l2geth/core/headerchain.go:355-388 | ancestors compose |
| Chain.TreeGrows | l2geth/core/headerchain.go:147-161 | a header on a stored parent keeps the stored headers a tree, with path difficulty as parent's plus its own |
| HeaderChain.HeaderChain.constructor | l2geth/core/headerchain.go:79-116 | starts at the genesis header |
| HeaderChain.HeaderChain.StoreHeader | l2geth/core/headerchain.go:147-164 | stores a header exactly if its parent is stored and either cached or found under the number before; the headers stay a tree exactly if the number follows |
| HeaderChain.MisnumberedIsStored | l2geth/core/headerchain.go:392-405 | with its parent's difficulty cached a misnumbered header is stored |
| HeaderChain.HeaderChain.StaleAbove | l2geth/core/headerchain.go:174-182 | finds exactly the index entries above the new head |
| HeaderChain.HeaderChain.Overwrites | l2geth/core/headerchain.go:184-196 | finds exactly the entries between the fork with the old path and the parent |
| HeaderChain.Rerouted | l2geth/core/headerchain.go:174-199 | deleting the stale and writing the new entries makes the index the new head's path and nothing more |
| HeaderChain.HeaderChain.WriteHeader | l2geth/core/headerchain.go:141-216 | refuses exactly headers whose parent is unknown, or known only under another number and not in memory; the head moves exactly to a header at least as heavy, on a tie by the coin; the chain stays valid, with the index the head's path, unless a misnumbered header got in, and then the headers are no tree and the index is exactly the old one below it with the misplaced entries |
| HeaderChain.HeaderChain.FollowDown | l2geth/core/headerchain.go:184-196 | the entries to overwrite below a header, in order or misnumbered, and exactly when a misnumbered one makes the source fail for want of its parent |
| HeaderChain.HeaderChain.ValidateHeaderChain | l2geth/core/headerchain.go:225-274 | passes exactly batches that are linked, count up by one and start on a stored parent, if the engine agrees |
| HeaderChain.HeaderChain.InsertHeaderChain | l2geth/core/headerchain.go:284-325 | stores everything, or everything before the first header whose parent is unknown or not numbered before it, stores nothing else and forgets nothing |
| HeaderChain.HeaderChain.ImportHeaders | l2geth/core/headerchain.go:225-325 | a batch is stored as a whole exactly if it is linked, counts up by one, starts on a stored parent or from genesis and is verified, and is refused as a whole otherwise |
| HeaderChain.HeaderChain.HeaviestKnown | l2geth/core/headerchain.go:165-168 | no stored header has a higher total difficulty than the head |
| HeaderChain.HeaderChain.Run | l2geth/core/headerchain.go:141-325 | any imports store exactly the accepted batches, among them all that pass on what was stored at the start; then the index is exactly the head's path, difficulties are path sums, and the head is heaviest |
| HeaderChain.HeaderChain.GetAncestor | l2geth/core/headerchain.go:355-388 | nothing above genesis and the start itself for any number; given the header's own number the true ancestor, with the allowance spent exactly by the steps off the canonical path, or nothing if it is too small; given another number, where the headers in memory lead, or the index entry once they run out above the head |
| HeaderChain.Jump | l2geth/core/headerchain.go:368-374 | once on the canonical path the index entry is the ancestor |
| BlockChain.BlockChain.constructor | l2geth/core/blockchain.go:547-575 | starts at genesis with its index and lookup, and nothing above; it is the heaviest and lowest block and all head markers agree |
| BlockChain.BlockChain.WriteHeadBlock | l2geth/core/blockchain.go:635-662 | index, lookup and head after a head write; header and fast heads move only if the block was not canonical |
| BlockChain.BlockChain.WalkDown | l2geth/core/blockchain.go:1968-1986 | reaches the ancestor at the other chain's height collecting exactly the blocks and transactions passed |
| BlockChain.BlockChain.Meet | l2geth/core/blockchain.go:1989-2011 | finds the highest common ancestor, with exactly the transactions of the old branch, and fails only if blocks are missing or roots differ |
| BlockChain.BlockChain.Reinsert | l2geth/core/blockchain.go:2029-2038 | writes the new branch except its last block, adding exactly its transactions |
| BlockChain.BlockChain.RunAbove | l2geth/core/blockchain.go:2045-2053 | the stretch of index entries up to the first hole |
| BlockChain.Purged | l2geth/core/blockchain.go:2039-2044 | deleting the old branch's transactions that were not added again leaves exactly the new path's lookup |
| BlockChain.BlockChain.Reorg | l2geth/core/blockchain.go:1911-2073 | fork point, index, lookup and what remains above, exactly; on failure nothing changed |
| BlockChain.BlockChain.MoveHead | l2geth/core/blockchain.go:1418-1432 | index and lookup are those of the new head's path; nothing remains above exactly if there is no overhang; the highest entry that remains, and that what remains above is unchanged; header and fast head move along unless the index already named the block |
| BlockChain.OverhangAtFork | l2geth/core/blockchain.go:2045-2053 | entries remain above the new head exactly when the old head was higher and the new branch has fewer than two blocks |
| BlockChain.OverhangOccurs | l2geth/core/blockchain.go:2045-2053 | a run from genesis to a heavier one-block branch ends with an index entry above the head |
| BlockChain.HeadLookup | l2geth/core/blockchain.go:2029-2044 | the lookup after a reorganisation is the new path's without exactly the lost transactions |
| BlockChain.NoRepeatsNothingLost | l2geth/core/blockchain.go:2039-2044 | no transaction is lost from the lookup if none occurs twice on the old path |
| BlockChain.LossOccurs | l2geth/core/blockchain.go:2029-2044 | a run in which a transaction occurs twice ends with a wrong lookup |
| BlockChain.BlockChain.WriteBlockWithState | l2geth/core/blockchain.go:1312-1452 | refuses exactly blocks whose parent is unknown or not numbered before them; the head moves exactly to a better block, the index follows, nothing remains above exactly without overhang, the lookup is exact exactly if nothing is lost, and the head stays the heaviest and the lowest of the heaviest; block, header and fast head stay the same |
| BlockChain.BlockChain.InsertBlock | l2geth/consensus/clique/clique.go:311-326 | a block is refused exactly if its parent is not stored under the number before; otherwise it is stored, and becomes the head exactly if it is better; at equal difficulty and height a preserved head stays, otherwise a preserved block wins, otherwise the coin decides |
| BlockChain.BlockChain.Prefer | l2geth/core/blockchain.go:1401-1417 | the fork choice: more total difficulty, then the lower block, then preservation and the coin |
| BlockChain.NotIndexed | l2geth/core/blockchain.go:635-662 | a block that is preferred to the head is not in the index yet, unless it is the head |
| BlockChain.RunMoves | l2geth/core/blockchain.go:2029-2053 | a move of the head keeps every entry of the index on the path of the last head that reached its height |
| BlockChain.NoOverhangTop | l2geth/core/blockchain.go:2045-2053 | without overhangs the highest entry is the head's |
| BlockChain.BlockChain.Run | l2geth/core/blockchain.go:1312-2053 | any insertions store exactly the blocks not refused, among them all that fit on what was stored at the start; the head is the heaviest block and the lowest of those, and header and fast head are the same block; the index has exactly the entries up to a height that the heads determine, each on the path of the last head that reached it, and nothing is above the head exactly if that height is its own; if no move lost a transaction the lookup is exact |
| BlockChain.SameBlocksSameHead | l2geth/core/blockchain.go:1401-1417 | nodes that store the same blocks have heads of equal difficulty and height, and the same head if no other block ties with it, whatever the order of arrival |
| ChainIndexer.LastHeadDecides | l2geth/core/chain_indexer.go:420-427 | if the last stored section head is canonical, so is every stored section from where they are linked |
| ChainIndexer.RunIsCanonical | l2geth/core/chain_indexer.go:395-410 | a hash-linked run that ends on the canonical chain starts from it |
| ChainIndexer.ChainIndexer.constructor | l2geth/core/chain_indexer.go:100-119 | starts with the sections stored in the database, whatever heads a dead process left above them |
| ChainIndexer.ChainIndexer.AddCheckpoint | l2geth/core/chain_indexer.go:127-140 | a checkpoint that is neither older than the last one nor below the stored sections becomes the last section; any other changes nothing |
| ChainIndexer.ChainIndexer.SetValidSections | l2geth/core/chain_indexer.go:469-481 | the heads between the new count and the old are deleted |
| ChainIndexer.ChainIndexer.VerifyLastHead | l2geth/core/chain_indexer.go:420-427 | drops exactly the sections above the checkpoint that are no longer canonical, from the top; what is left from where the sections are linked is all canonical |
| ChainIndexer.ChainIndexer.NewHead | l2geth/core/chain_indexer.go:240-297 | after a reorganisation stored and known sections are exactly those that end at or below the head, but never below the checkpoint; otherwise known sections grow to the confirmed ones exactly if those are more and the checkpoint, if not yet passed, is on the chain; every section added has the required confirmations, and none that has them is missed from the checkpoint on |
| ChainIndexer.ConfirmedMeaning | l2geth/core/chain_indexer.go:275-283 | the sections counted are exactly those whose last block has the required confirmations, unless they are fewer than the checkpoint's |
| ChainIndexer.ChainIndexer.BeginUpdate | l2geth/core/chain_indexer.go:316-333 | a job starts exactly if none is under way and more sections are known than stored, on verified sections and from the last stored head |
| ChainIndexer.ChainIndexer.ResetFails | l2geth/core/chain_indexer.go:390-393 | a failed backend reset drops all sections and fails the job |
| ChainIndexer.ChainIndexer.ProcessHeader | l2geth/core/chain_indexer.go:395-414 | a job accepts a header exactly if it is stored and its parent is the last head |
| ChainIndexer.ChainIndexer.EndUpdate | l2geth/core/chain_indexer.go:345-366 | stores the section exactly if its parent section is unchanged, and otherwise rolls back to canonical sections |
| ChainIndexer.Stored | l2geth/core/chain_indexer.go:347-350 | a finished job whose parent section is still in place extends the linked sections |
| ChainIndexer.ChainIndexer.Run | l2geth/core/chain_indexer.go:127-379 | under any interleaving of heads, checkpoints, jobs and chain changes the stored sections from the last checkpoint on, or from where the database was linked, are hash-linked runs |
| ChainIndexer.ChainIndexer.FinishJob | l2geth/core/chain_indexer.go:385-414 | an undisturbed job reads all headers of its section and ends at its last block |
| ChainIndexer.ChainIndexer.IndexNext | l2geth/core/chain_indexer.go:316-379 | an undisturbed update stores one section more than were verified, and its head is on the chain |
| ChainIndexer.ChainIndexer.IndexAll | l2geth/core/chain_indexer.go:301-379 | while the chain stands still the updates end with all known sections stored, and all that are known to be linked on the chain |
| StateTransition.GasPool.constructor | l2geth/core/state_processor.go:65-65 | the block limit |
| StateTransition.GasPool.AddGas | l2geth/core/gaspool.go:29-35 | gas returned to the block, or a panic exactly if that exceeds 64 bits |
| StateTransition.GasPool.SubGas | l2geth/core/gaspool.go:39-45 | takes gas exactly if there is enough |
| StateTransition.NewTermsSound | l2geth/core/state_transition.go:138-194 | no extra fee or gas outside the OVM or at price zero; the second fork has no separate L1 fee; BOBA payers pay no ETH price |
| StateTransition.BobaBill | l2geth/core/state_transition.go:138-194 | from message and quote: a BOBA payer is debited gas times price times ratio, paid back its unused gas at that rate, and the BOBA vault receives the rest |
| StateTransition.EthBill | l2geth/core/state_transition.go:224-282 | from message and quote: any other sender is debited its gas and, for a sequencer message, the L1 fee or gas of the fork, but no more than it has; unused gas is paid back, and the vault receives the rest and the L1 charge |
| StateTransition.GasForEvm | l2geth/core/state_transition.go:302-345 | the EVM starts with what the intrinsic gas and, after the second fork, the gas for L1 leave of the message's gas, and exactly if they do not exceed it |
| StateTransition.NoOverdraft | l2geth/core/state_transition.go:224-282 | buying gas overdraws nobody, and is refused for want of money exactly if it would |
| StateTransition.NonceOrder | l2geth/core/state_transition.go:284-300 | among an account's messages an earlier nonce is too low and a later one too high; after a call exactly the next one is accepted, so it cannot be repeated |
| StateTransition.NonceExempt | l2geth/core/state_transition.go:286-291 | messages from L1 are never refused for their nonce |
| StateTransition.Included | l2geth/core/state_transition.go:302-384 | on terms that fit a message is part of the block exactly if it starts and can make its first transfer; any other failure of the EVM is settled |
| StateTransition.StateTransition.constructor | l2geth/core/state_transition.go:138-194 | a transition on its terms with no gas bought |
| StateTransition.StateTransition.BuyGas | l2geth/core/state_transition.go:224-282 | which error occurs when; otherwise the fee leaves the sender, clamped to the balance in the OVM, and the gas leaves the block |
| StateTransition.StateTransition.PreCheck | l2geth/core/state_transition.go:284-300 | which nonce or purchase error occurs when, and on an error nothing changed |
| StateTransition.StateTransition.Start | l2geth/core/state_transition.go:305-346 | exactly when and how a message fails to start; otherwise the EVM starts with the gas left after the intrinsic and L1 shares on the prepaid world |
| StateTransition.Refund | l2geth/core/state_transition.go:386-400 | at most the counter, and at most half the gas spent, without the L1 share when both forks are active and it was spent; and all of the counter or of that half |
| StateTransition.RefundCap | l2geth/core/state_transition.go:386-400 | over all runs of a message, every refund is at most half the gas spent without its L1 share exactly unless that share wraps around, or is not left out because the second fork is active without the first, save for a share of one and a single odd amount |
| StateTransition.RefundWithinSpent | l2geth/core/state_transition.go:386-400 | no run is refunded more than it spent, exactly unless intrinsic gas and L1 share exceed 64 bits by little enough |
| StateTransition.StateTransition.RefundGas | l2geth/core/state_transition.go:386-416 | the capped refund joins the unused gas, which is paid back in the fee token and returned to the block unless that panics |
| StateTransition.StateTransition.Settle | l2geth/core/state_transition.go:359-384 | refund to the sender, then the vaults' credits |
| StateTransition.StateTransition.TransitionDb | l2geth/core/state_transition.go:305-384 | which error occurs when; otherwise used gas and pool as 64-bit numbers, the world as the settled run of the prepaid one, and failure is the EVM's; if the extra gas fits in 64 bits, no gas is lost |
| StateTransition.NothingLost | l2geth/core/state_transition.go:419-429 | no used gas is lost to wrap-around exactly if it fits in 64 bits, as it does on terms that fit |
| StateTransition.FitsLeft | l2geth/core/state_transition.go:386-429 | on terms that fit the sender gets back at most the gas of the message |
| StateTransition.FitNeverOverflows | l2geth/core/gaspool.go:29-35 | on terms that fit the gas pool never panics |
| StateTransition.Conservation | l2geth/core/state_transition.go:224-429 | the ETH total changes only by the EVM's effect, the clamped part of the fee, what L1 messages are not billed and lost gas; the BOBA total only by the EVM's effect and lost gas |
| StateTransition.EthAdds | l2geth/core/state_transition.go:359-429 | refund and vault credit add up to the fee and the unbilled part, but for lost gas |
| StateTransition.BobaAdds | l2geth/core/state_transition.go:359-429 | BOBA refund and vault credit add up to the BOBA fee, but for lost gas |
| StateTransition.UnbilledOnlyFromL1 | l2geth/core/state_transition.go:227-244 | sequencer messages and free messages have no unbilled part, and exactly when others have |
| StateTransition.UnbilledOccurs | l2geth/core/state_transition.go:227-244 | a message from L1 at price one leaves seven unbilled, and at price zero nothing |
| StateTransition.BobaPayerMovesNoEth | l2geth/core/state_transition.go:138-194 | no ETH balance moves for a BOBA payer besides what the EVM does |
| StateTransition.ApplyMessage | l2geth/core/state_processor.go:91-180 | which error occurs when; otherwise the gas that left the pool is the gas used, apart from extra gas billed on top, in 64 bits and exactly on terms that fit |
| StateTransition.Process | l2geth/core/state_processor.go:59-85 | a block fails exactly with the error of its first failing message; otherwise the gas used is what left the pool plus the extra gas between the forks, in 64 bits; if all terms fit, the pool ends within the limit and outside that time both add up to it; totals change by the per-message drifts only |
| StateTransition.InSequence | l2geth/core/state_processor.go:59-85 | a block is its first part and then the rest, on the world and with the gas that the first part left |
| StateTransition.DriftOfFit | l2geth/core/state_transition.go:224-429 | on terms that fit the drift of a message is the EVM's effect, the clamp and the unbilled part |
| VarBytes.FromTo | l2geth/common/varbytes.go:121-160 | little-endian numbers read back |
| VarBytes.ToFrom | l2geth/common/varbytes.go:66-118 | bytes read as a little-endian number write back |
| VarBytes.SerializeSize | l2geth/common/varbytes.go:264-283 | the size is the length of the encoding |
| VarBytes.DecodeEncode | l2geth/common/varbytes.go:172-260 | a written integer reads back and leaves the tail intact |
| VarBytes.DecodeUnique | l2geth/common/varbytes.go:172-230 | an accepted integer is exactly the encoding that would have been written |
| VarBytes.EncodeInjective | l2geth/common/varbytes.go:234-260 | no encoding is a prefix of another |
| VarBytes.Format | l2geth/common/varbytes.go:234-260 | one byte up to 0xfc, otherwise the marker 0xfd, 0xfe or 0xff and 2, 4 or 8 bytes, the lowest first |
| VarBytes.BrokenOff | l2geth/common/varbytes.go:172-230 | every proper prefix of an encoding is refused, as ended before the first or the second read, and else as broken off |
| VarBytes.DecodeEncodeBytes | l2geth/common/varbytes.go:322-358 | a string reads back exactly if it is within the limit, and otherwise fails after its length |
| VarBytes.DecodeBytesUnique | l2geth/common/varbytes.go:322-345 | an accepted string is exactly what would have been written and is within the limit |
| VarBytes.DecodeEncodeAll | l2geth/common/varbytes.go:322-358 | strings written back to back read back unchanged with the tail intact, exactly when all are within the limit |
| VarBytes.DecodeAllUnique | l2geth/common/varbytes.go:322-345 | only the written form of a list is read as it |
| VarBytes.Sink.WriteVarInt | l2geth/common/varbytes.go:234-260 | appends the encoding |
| VarBytes.Sink.WriteVarBytes | l2geth/common/varbytes.go:349-358 | appends length and bytes |
| VarBytes.Source.ReadFull | l2geth/common/varbytes.go:66-76 | splits the stream after so many bytes if it has them; otherwise consumes it and tells an empty stream from a short one |
| VarBytes.Source.ReadVarInt | l2geth/common/varbytes.go:172-230 | reads what Decode says and leaves its rest |
| VarBytes.Source.ReadVarBytes | l2geth/common/varbytes.go:322-345 | reads what DecodeBytes says and leaves its rest |
| VarBytes.Transfer | l2geth/common/varbytes.go:322-358 | any list written to and read from a stream arrives unchanged, and fails exactly if a string exceeds the limit |
| DerivationPath.SplitConcat | l2geth/accounts/hd.go:72-72 | splitting at a slash splits both sides |
| DerivationPath.ParseDerivationPath | l2geth/accounts/hd.go:68-118 | the loop computes Parse, with its errors |
| DerivationPath.ParseOne | l2geth/accounts/hd.go:90-112 | one component: hardened suffix, literal, range |
| DerivationPath.ErrorStays | l2geth/accounts/hd.go:90-111 | the first bad component decides the error |
| DerivationPath.ToString | l2geth/accounts/hd.go:122-136 | the loop computes Print |
| DerivationPath.WhiteSpace | l2geth/accounts/hd.go:77-98 | the 25 characters that are trimmed |
| DerivationPath.DecimalIsLiteral | l2geth/accounts/hd.go:101-104 | the decimal form of a number is a literal for it, never an octal one |
| DerivationPath.ReadsSpelled | l2geth/accounts/hd.go:101-104 | digits are read exactly if they are well spelled: all below the base, with single underscores between them or after a prefix; and as the number they stand for |
| DerivationPath.Prefixes | l2geth/accounts/hd.go:101-104 | which letter announces which base |
| DerivationPath.Unprefixed | l2geth/accounts/hd.go:101-104 | a leading zero announces octal digits, anything else is decimal |
| DerivationPath.Signs | l2geth/accounts/hd.go:101-108 | a sign is read and a minus negates |
| DerivationPath.ParsePrintComponent | l2geth/accounts/hd.go:90-134 | a printed component parses back for every 32-bit value |
| DerivationPath.ParsePrint | l2geth/accounts/hd.go:68-136 | the printed form of a path parses back to it, except that the empty path is an error |
| DerivationPath.PrintInjective | l2geth/accounts/hd.go:122-136 | different paths print differently |
| DerivationPath.PrintParseCanonical | l2geth/accounts/hd.go:68-136 | printing what was parsed means the same and is its own canonical form |
| DerivationPath.RelativeToRoot | l2geth/accounts/hd.go:83-85 | a relative path means the default root path followed by it, which is m/44'/60'/0'/0 |
| DerivationPath.PrintedRoot | l2geth/accounts/hd.go:28-31 | the default root path, printed |
| DerivationPath.SpaceIgnored | l2geth/accounts/hd.go:92-100 | white space around components does not matter |
| DerivationPath.NumberSpaceless | l2geth/accounts/hd.go:101-104 | no number literal has white space in it |
| DerivationPath.InnerSpace | l2geth/accounts/hd.go:90-104 | a component that is valid without its white space means the same with it exactly if none is inside the number |
| DerivationPath.InnerSpaceInPath | l2geth/accounts/hd.go:68-118 | a path that is valid without its white space means the same with it exactly if none is inside a number |
| DerivationPath.InnerSpaceRejected | l2geth/accounts/hd.go:90-104 | "12" parses and "1 2" does not, alone and in a path |
| DerivationPath.HardenedOffset | l2geth/accounts/hd.go:95-112 | a hardened component and the number from 2^31 on are interchangeable |
| FraudDetector.PosSplits | boba_community/fraud-detector/fraud-detector.py:246-251 | the roots below a block are a prefix of the chain |
| FraudDetector.LogsSlice | boba_community/fraud-detector/fraud-detector.py:246-251 | a query for a block range returns the contiguous stretch of the chain between its ends |
| FraudDetector.RootCounted | boba_community/fraud-detector/fraud-detector.py:198-200 | the checkpoint is always at the first root of the last root's block, or where the run started |
| FraudDetector.RootProcessed | boba_community/fraud-detector/fraud-detector.py:150-200 | one more root keeps all that holds of a run |
| FraudDetector.Detector.constructor | boba_community/fraud-detector/fraud-detector.py:41-42 | no checkpoint, nothing logged |
| FraudDetector.Detector.Load | boba_community/fraud-detector/fraud-detector.py:71-138 | a start from the file, or from the defaults without one, with nothing compared yet, establishes the invariant |
| FraudDetector.Detector.Begin | boba_community/fraud-detector/fraud-detector.py:232-235 | the scan starts exactly if the tip is above the base |
| FraudDetector.Detector.Fetch | boba_community/fraud-detector/fraud-detector.py:246-251 | the next range follows the last without gap or overlap |
| FraudDetector.Detector.NextBatch | boba_community/fraud-detector/fraud-detector.py:242-254 | catching up takes exactly the next 1000 blocks, or those left below the tip, and ends exactly at the tip |
| FraudDetector.Detector.NextLive | boba_community/fraud-detector/fraud-detector.py:261-272 | the live scan goes up to the tip, and waits exactly while nothing is new |
| FraudDetector.Detector.DoRoot | boba_community/fraud-detector/fraud-detector.py:150-200 | the next root gets the next index and is logged; the flag falls exactly on a mismatch; counter, checkpoint and last match follow |
| FraudDetector.Detector.FinishBatch | boba_community/fraud-detector/fraud-detector.py:256-256 | the next range starts after this one |
| FraudDetector.Detector.OpenCheckpoint | boba_community/fraud-detector/fraud-detector.py:209-210 | the file is opened, and thereby emptied, exactly if nothing mismatched and the checkpoint moved |
| FraudDetector.Detector.WriteCheckpoint | boba_community/fraud-detector/fraud-detector.py:211-212 | only a good checkpoint is written |
| FraudDetector.PassedIsSafe | boba_community/fraud-detector/fraud-detector.py:242-278 | between batches all roots below the next block were compared, and match while the flag stands |
| FraudDetector.Detector.Run | boba_community/fraud-detector/fraud-detector.py:71-278 | for all tips and crashes: no mismatch below a saved checkpoint, every logged index is that of one uninterrupted scan, ranges are contiguous and complete; if no L2 node is asked, the alarm is raised exactly if a root compared in this run differs |
| FraudDetector.Detector.Advance | boba_community/fraud-detector/fraud-detector.py:71-278 | which step follows which, and what it changes |
| FraudDetector.ExactStep | boba_community/fraud-detector/fraud-detector.py:130-175 | one more root keeps the alarm exact |
| FraudDetector.Detector.CatchUpWith | boba_community/fraud-detector/fraud-detector.py:71-278 | a run that is left alone reaches the tip; it then has logged every root below it, raised the alarm exactly if one differs, and without an alarm saved a checkpoint at the last root's block |

## Left out

- TxPool.Pool.RunReorg: the transactions to reinject are given, not computed from the two chains; a reset whose state cannot be read is not modelled; contiguity of pending lists across a reset is not claimed, because reinjection may leave an inner gap.
- TxPool.Pool.Run: event feeds, the journal of local transactions, metrics, lifetimes of queued accounts and locking are not modelled.
- TxPool.Pool.Evict: room is promised only if no live transaction has two entries in the price heap, because the code counts entries.
- StateTransition.Process: receipts, logs, block rewards and the DAO fork are not modelled; a message that fails to compute its L1 fee is not modelled either.
- BlockChain.BlockChain.WriteBlockWithState: assumes that a block whose parent's difficulty is in memory is numbered after that parent, which block verification checks; receipts, state commit and trie garbage collection are not modelled.
- HeaderChain.HeaderChain.WriteHeader: the entry that a header numbered zero would write under the largest number is not modelled.
- HeaderChain.HeaderChain.InsertHeaderChain: assumes that a header whose parent's difficulty is in memory is numbered after it, which validation has checked.
- HeaderChain.HeaderChain.ImportHeaders: assumes that a batch does not start with a second header numbered zero, whose parent the engine does not look for; the same holds of BlockChain.BlockChain.InsertBlock.
- ChainIndexer.ChainIndexer.constructor: the sections in the database are assumed to be hash-linked from some section on, as the indexer left them.
- ChainIndexer.ChainIndexer.Run: assumes that headers above genesis name a parent; child indexers, throttling and the index data itself are not modelled.
- VarBytes.Sink.WriteVarInt: write errors and the pool of borrowed buffers are not modelled.
- FraudDetector.Detector.Run: the batch of an event is its roots in order under the event's block number; the status server and the waiting loops are not modelled; roots before the deployment block are not part of the chain.
- SetHead, fast sync, the freezer and the caches in front of the database, other than the one of difficulties and headers, would need a model of deletion that adds little to what is proved here.
- Signature recovery, RLP encoding, the EVM, the consensus engine, the fee oracle contracts and all RPC code are parameters or absent.
