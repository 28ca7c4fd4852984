# A verified model of the chain core

This project models, in Dafny, the parts of a go-ethereum fork (BNB Smart Chain) where several
data structures have to agree: the transaction pool, the canonical chain and its indexes, the store of
untrusted diff layers, the chain indexer, the event feed, the state transition with its gas accounting, and
the textual form of derivation paths. It proves what each operation keeps and what whole runs guarantee.
`dafny verify dfyconfig.toml` checks all of it.

## How it is built

- **Shared.** `Prelude` has options and 64-bit words.
- **Transaction pool.** `Transactions` has transactions and nonce-keyed maps as values, `BinaryHeap` is
  `container/heap`, `SortedMap` and `TxLists` are `txSortedMap` and `txList`, `Lookup` is `txLookup`, `PricedList` is
  `txPricedList`, `Noncer` is `txNoncer`, `PoolState` states the pool's invariant, `TxPools` is the pool itself,
  `PoolExamples` has pools that miss one of its conditions, `ReorgScheduler` is its background loop and `Reinjection` the
  walk that finds the transactions a change of head gives back. Between taking a transaction out of one list and
  putting it into another an operation holds it *in transit*; the invariant accounts for transit, so it holds at every
  step inside an operation too.
- **Canonical chain.** In `ChainStore` a hash is ideal: it is the block it was computed from, or a bare value. A
  block's chain of ancestors is therefore a function of the block. `ForkChoice`, `BlockChains`, `HeaderChains` and
  `Ancestors` follow the source files of those names; `DiffLayers` is the diff-layer store and `ChainIndexers` the
  indexer, as a machine whose steps may interleave with any change of the canonical index.
- **Feed.** `Feeds` keeps the cases in an array of which the active ones are a prefix, as the source does.
- **Gas.** `IntrinsicGas` is the 64-bit charge, `Ledger` the balances with their total, `StateTransitions` and
  `StateProcessors` the transition and the block loop. The EVM is any balance-conserving step that returns no more gas
  than it was given. `Executability` compares the pool's validation with what makes a transaction run.
- **Paths.** `DerivationPaths` has the parser and the printer as loops and as functions.

Loops of the source are loops here. Where one runs inside an object, it is usually a method over values that the
object's method calls, so that its invariants do not mention the heap.

## Where the code does less than it seems to promise

Each of these is stated exactly, with an if-and-only-if and a concrete input where one is needed to see it.

- `reorg` deletes canonical numbers above the block it made head last, not above the new head
  (core/blockchain.go:2379-2387). If only one block is added and it is lower than the old head, the numbers in between
  keep their old hashes: `BlockChains.NothingAboveIff`, `BlockChains.StaleEntrySurvives`. Up to the head the index is
  right in any case.
- `reorg` unindexes a transaction of the old branch even if a block below the fork point holds it too:
  `BlockChains.IndexIsExactIff`, `BlockChains.ReplayedEntryIsLost`.
- `GetAncestor` answers for the zero hash with a canonical hash that is nobody's ancestor, exactly when the number it is
  asked from has no canonical block: `Ancestors.GetAncestor`, `Ancestors.ZeroHashIsAnswered`.
- `pruneDiffLayer` subtracts on 64 bits, so below height 11 it drops every layer but those numbered within 11 of 2^64:
  `DiffLayers.DiffLayerStore.PruneDiffLayer`.
- A peer may hold one diff layer more than `maxDiffLimit`, since the limit is compared with `>`: `DiffLayers.AddKeeps`.
- `IntrinsicGas` guards the data's share against overflow but not the access list's: `IntrinsicGas.ChargeIsExactIff`,
  `IntrinsicGas.AccessListWraps`.
- The virtual nonce wraps to zero behind a transaction with the last 64-bit nonce. An exact account stays exact if and
  only if that nonce is not among those promoted: `TxPools.TxPool.PromoteReady`, `TxPools.TxPool.PromoteExecutables`,
  `PoolExamples.LastNonceIsLost`, `PoolExamples.LastNonceRun`. Other accounts are not touched by it.
- A change of head settles an account's virtual nonce rightly if and only if what demotion leaves of its pending and
  newly promoted transactions has no gap and not the last nonce: `TxPools.TxPool.SettleAtHead`,
  `TxPools.TxPool.ReorgToHead`. For an exact account a state nonce that does not fall leaves no gap. One that falls
  leaves none if nothing is promoted below the old run, the promoted run reaches it, or a transaction up to it is
  unaffordable, and only then: `TxPools.FallenNonceIff`, `TxPools.FallenSound`. With room for the reinjected transactions
  `TxPools.TxPool.ReorgToHead` and `TxPools.TxPool.RunReorg` state this of the pool before the change and the reset
  itself. `PoolExamples.FallenNonceLeavesGap` and `PoolExamples.FallenNonceRun` miss it.
- Two heap entries for one hash make `Discard` count its slots twice, and a full pool accept more than its slots:
  `TxPools.FreedSlots`, `PoolExamples.TwoEntries`, `PoolExamples.AcceptsBeyondCapacity`, and from an empty pool on
  `PoolExamples.CapacityRun`. Entries are single after every `Reheap`, and with single entries the slot bound holds after
  an `add`.
- A reorg notice inside the section being processed does not stop that section from being stored afterwards; the next
  `verifyLastHead` takes it back (`ChainIndexers.ChainIndexer.FinishSection`, `ChainIndexers.ChainIndexer.VerifyLastHead`).
- The empty derivation path prints as `m`, which does not parse: `DerivationPaths.RoundTrip`.

## Model

| member | source | states |
|---|---|---|
| Transactions.FlatIsSorted | core/tx_list.go:236-263 | the nonce-sorted listing holds exactly the stored transactions, strictly increasing |
| Transactions.FlatUnique | core/tx_list.go:236-263 | it is the only such listing, so a cache that is sorted and complete is the right one |
| SortedMap.PopFirst | core/tx_list.go:99-103 | the heap keeps exactly the map's keys while its least nonce and that transaction leave together |
| SortedMap.PopBelow | core/tx_list.go:95-109 | everything below the threshold leaves, in nonce order, and is a prefix of the sorted listing |
| SortedMap.PopRun | core/tx_list.go:211-229 | the maximal consecutive run from the least nonce leaves, also where its successor wraps at 2^64 |
| SortedMap.Sift | core/tx_list.go:136-153 | a filter removes exactly what meets the criterion, in whatever order the map is walked |
| SortedMap.DropLast | core/tx_list.go:157-178 | capping keeps the first transactions of the listing and reports the others from the highest down |
| SortedMap.CapKeepsFirst | core/tx_list.go:157-178 | what lies below the cut nonce is the prefix of that length of the listing |
| SortedMap.CapIs | core/tx_list.go:157-178 | capping keeps a transaction exactly if fewer than the limit have lower nonces |
| SortedMap.SortNonces | core/tx_list.go:165 | sorting the index gives the nonces of the map in order |
| SortedMap.TxSortedMap.Put | core/tx_list.go:81-90 | the map is updated at the nonce; heap and cache still agree with it |
| SortedMap.TxSortedMap.Forward | core/tx_list.go:95-109 | transactions below the threshold leave in order; the shifted cache is the listing of the rest |
| SortedMap.TxSortedMap.Filter | core/tx_list.go:116-123 | what meets the criterion leaves and the rebuilt heap indexes the rest |
| SortedMap.TxSortedMap.FilterNoReheap | core/tx_list.go:136-153 | the same on the map alone, with the heap left behind for a later rebuild |
| SortedMap.TxSortedMap.Reheap | core/tx_list.go:125-132 | the heap again holds the map's keys once each, least first, and the cache is dropped |
| SortedMap.TxSortedMap.Cap | core/tx_list.go:157-178 | the listing is cut to its first transactions, the cache with it, and the tail is reported |
| SortedMap.TxSortedMap.Remove | core/tx_list.go:182-202 | exactly the given nonce leaves, and the answer says whether it was there |
| SortedMap.TxSortedMap.Ready | core/tx_list.go:211-229 | nothing leaves when the least nonce is above the start, otherwise precisely the maximal run from it |
| SortedMap.TxSortedMap.Flatten | core/tx_list.go:257-263 | the cached or fresh answer is the sorted listing |
| SortedMap.TxSortedMap.LastElement | core/tx_list.go:267-270 | the transaction with the greatest nonce |
| TxLists.OutbidsIff | core/tx_list.go:305-327 | a replacement passes exactly from one above both old fees and from their floored percentage bump on |
| TxLists.ReplacementsClimb | core/tx_list.go:305-327 | a chain of replacements raises both fees by at least one each time |
| TxLists.CapsSkipScan | core/tx_list.go:356-363 | when the caps are within the limits a full scan would drop nothing |
| TxLists.CapsStayBounds | core/tx_list.go:328-407 | every list operation leaves the cost and gas caps bounding every transaction |
| TxLists.FilterPartitions | core/tx_list.go:356-385 | kept, dropped and invalidated are disjoint and make up the old contents |
| TxLists.StrictStaysContiguous | core/tx_list.go:343-407 | a strict list without gaps has none after a filter, removal, cap or forward |
| TxLists.TxList.Add | core/tx_list.go:305-338 | an outbidden or free nonce takes the transaction and raises the caps, otherwise nothing changes |
| TxLists.TxList.Forward | core/tx_list.go:343-345 | the list's contents from the threshold on stay |
| TxLists.TxList.Filter | core/tx_list.go:356-385 | the two removals report exactly the unaffordable and, in a strict list, those above the lowest of them |
| TxLists.TxList.Cap | core/tx_list.go:389-391 | the first transactions stay |
| TxLists.TxList.Remove | core/tx_list.go:396-407 | the nonce leaves and, in a strict list, all above it are reported invalid |
| TxLists.TxList.Ready | core/tx_list.go:416-418 | the run from the least nonce leaves if it starts at or below the given nonce |
| Lookup.TxLookup.Add | core/tx_pool.go:1826-1838 | the hash is known on the chosen side only and the slot count grows by the transaction's slots |
| Lookup.TxLookup.Remove | core/tx_pool.go:1841-1858 | the hash is unknown and the slots are given back; an unknown hash changes nothing |
| Lookup.TxLookup.RemoteToLocals | core/tx_pool.go:1862-1875 | the accounts' remotes become locals, nothing is lost, and the count says how many moved |
| Lookup.Migrate | core/tx_pool.go:1862-1875 | the loop over a map that it shrinks moves each matching entry once |
| Lookup.SlotsHold | core/tx_pool.go:1890-1892 | a transaction takes the fewest slots of 32 kilobytes that hold it |
| PricedList.CheaperIsTransitive | core/tx_list.go:455-479 | the price order is transitive, as a heap needs |
| PricedList.PriceOrderIs | core/tx_list.go:455-479 | the heap's order is by the tip left above the base fee if there is one, then fee cap, then tip cap, and of equals the higher nonce comes first |
| PricedList.CmpFollowsOrder | core/tx_list.go:455-479 | the fee comparison agrees with the heap's order |
| PricedList.DropCheapest | core/tx_list.go:589-617 | the loop ends, conserves live entries between heaps and drops, counts the stale ones it meets, stops at the first drop that frees enough, and drops the cheapest: nothing left urgent is cheaper than a drop that was urgent, nothing left floating is cheaper by fee cap unless it floated only after that drop |
| PricedList.CheapestAreFirst | core/tx_list.go:589-617 | a live transaction with an entry left is no cheaper by fee cap than any drop, or it was urgent and no cheaper there than the drop; an urgent one left and a floating drop are not compared, since the two heaps have different orders |
| PricedList.UnderpricedFor | core/tx_list.go:565-583 | only stale entries are popped, they are counted, and the verdict is that no live entry is cheaper |
| PricedList.SplitByPrice | core/tx_list.go:628-652 | the remotes are split without loss, a fifth floats, and none that floats ranks above one that is urgent |
| PricedList.TxPricedList.Put | core/tx_list.go:532-538 | one entry more for a remote transaction, none for a local one |
| PricedList.TxPricedList.Removed | core/tx_list.go:543-551 | up to a quarter of stale entries only their count changes; beyond it the heaps are rebuilt; every live remote stays tracked |
| PricedList.TxPricedList.Reheap | core/tx_list.go:628-652 | the entries are exactly the remotes, once each, partitioned by price |
| PricedList.TxPricedList.SetBaseFee | core/tx_list.go:656-659 | the base fee is the new one and the heaps hold the remotes once each, partitioned by it, with no stale ones |
| PricedList.TxPricedList.Underpriced | core/tx_list.go:555-561 | true exactly when some remote is live and no live one in either heap is cheaper |
| PricedList.TxPricedList.Discard | core/tx_list.go:589-625 | refuses exactly when unforced and all live slots are too few, and then keeps the live multiset; otherwise drops the cheapest live remotes and would fall short without the last one |
| PoolState.FreePlace | core/tx_pool.go:857-887 | a transaction in transit finds its account and nonce free on both shelves, so the conflict branches are dead |
| PoolState.FoundByNonce | core/tx_pool.go:1047-1093 | a known hash is the transaction its account's list has under its nonce |
| PoolState.TakenFromPending | core/tx_pool.go:1375-1436 | taking transactions off the pending shelf into transit keeps the invariant |
| PoolState.TakenFromQueue | core/tx_pool.go:1375-1436 | the same for the queue |
| PoolState.Enqueued | core/tx_pool.go:804-839 | putting a transaction in transit into the queue keeps the invariant |
| PoolState.Promoted | core/tx_pool.go:857-887 | putting one into the pending list keeps the invariant |
| PoolState.Forgotten | core/tx_pool.go:1841-1858 | forgetting transactions in transit keeps the invariant |
| PoolState.ArrivedQueued | core/tx_pool.go:804-839 | a new transaction takes a free queue place or that of the one it replaces |
| PoolState.ArrivedPending | core/tx_pool.go:757-780 | a new transaction takes the place of the pending one it outbids |
| Noncer.TxNoncer.Get | core/tx_noncer.go:45-55 | the cached nonce or the state's, and caching shows in no later answer |
| Noncer.TxNoncer.Set | core/tx_noncer.go:59-64 | one account's virtual nonce changes |
| Noncer.TxNoncer.SetIfLower | core/tx_noncer.go:68-79 | the virtual nonce becomes the minimum |
| Noncer.TxNoncer.SetAll | core/tx_noncer.go:82-87 | all virtual nonces are replaced, the others fall back to the state |
| Noncer.CutRun | core/tx_pool.go:1064-1081 | a gap-free pending range cut at a nonce, with the virtual nonce lowered, is again exact |
| Noncer.ExtendRun | core/tx_pool.go:1402-1408 | a queued run promoted onto an exact range gives an exact range |
| Noncer.WrapLosesRun | core/tx_pool.go:882 | a promoted run that reaches the last 64-bit nonce wraps the virtual nonce to zero and is not exact; settling survives |
| Noncer.PromotedIff | core/tx_pool.go:1402-1408 | an exact range with a promoted run is exact if and only if the run stops short of the last 64-bit nonce |
| Noncer.ExactIffGapless | core/tx_pool.go:1248-1254 | a range from the state nonce with its last successor set is exact if and only if it has no gap and not the last 64-bit nonce |
| Noncer.HeadMovedOn | core/tx_pool.go:1283-1370 | a state nonce that does not fall leaves a range that demotion makes exact |
| IntrinsicGas.ComputeCharge | core/state_transition.go:119-157 | the guarded 64-bit computation is the charge function; it fails exactly when base and data price exceed a word |
| IntrinsicGas.ChargeIsExactIff | core/state_transition.go:119-157 | the charge is the exact price unless the access list takes it past a word |
| IntrinsicGas.PricesAre | core/state_transition.go:119-157 | as numbers: 21000 for a plain transfer, 4 for a zero byte more, 16 or before Istanbul 68 for another one, 2400 for a listed address, 1900 for a key, 32000 for a creation from Homestead on |
| IntrinsicGas.ChargeIsPrice | core/state_transition.go:119-157 | up to a word the charge is that price, and there is none exactly if base and data alone exceed it |
| IntrinsicGas.AccessListWraps | core/state_transition.go:152-155 | an access list, larger than any real memory, whose price passes a word and that is charged 22184 gas |
| Executability.AdmittedIffRuns | core/tx_pool.go:632-692 | at its account's nonce a transaction passes the pool's validation if and only if it keeps the pool's own limits and a block with room for it could run it: the pool's checks and the state transition's agree |
| Executability.LaterIsAdmitted | core/tx_pool.go:674-677 | a later nonce is admitted exactly if the transaction would be with its nonce as the account's |
| Executability.RefusedForReason | core/tx_pool.go:632-692 | the error names a rule that is broken, and whoever breaks one is refused |
| TxPools.TxPool.EnqueueTx | core/tx_pool.go:804-839 | accepted exactly when it outbids; the rival leaves the lookup and counts as stale, the transaction enters it on the asked side if asked; an account without a heartbeat gets one |
| TxPools.TxPool.PromoteTx | core/tx_pool.go:857-887 | pending takes the transaction, the virtual nonce its successor and the account a heartbeat, or the transaction is forgotten; a replaced or refused one counts as stale |
| TxPools.TxPool.RemoveTx | core/tx_pool.go:1047-1093 | exactly the named hash leaves the lookup although lists are searched by nonce; pending ones above return to the queue and the account's virtual nonce falls to the removed one, nobody else's changes; its heap entry counts as stale exactly if asked, and the heaps are rebuilt only when that exceeds a quarter; exact ranges stay exact |
| TxPools.TxPool.PromoteReady | core/tx_pool.go:1402-1408 | the queued run at the virtual nonce becomes pending and is what is reported, nothing is forgotten or counted stale, promotion is a heartbeat, nothing queued is next in line; an exact account stays exact if and only if the last 64-bit nonce is not promoted |
| TxPools.TxPool.PromoteAccount | core/tx_pool.go:1380-1434 | pending gains exactly the due run, which is reported in nonce order, and the queue keeps exactly the able rest within the limit; only stale, unaffordable or crowded-out transactions are forgotten, and as many entries counted stale; promotion is a heartbeat and a used-up queue has none; an exact account stays exact if and only if the last 64-bit nonce is not due; other accounts are untouched |
| TxPools.TxPool.PromoteExecutables | core/tx_pool.go:1375-1436 | the same of both shelves for every listed account, each by its own due run alone, the report being those runs one after the other without repeats; local accounts lose only stale or unaffordable transactions |
| TxPools.DueIs | core/tx_pool.go:1385-1408 | a queued transaction is due exactly if all nonces from the least able one, which is at most the virtual nonce, up to its own are able: not used, affordable and within the gas limit |
| TxPools.RestIs | core/tx_pool.go:1385-1422 | what stays queued is exactly what is able and not due, of a remote account only those with fewer such below them than the limit |
| TxPools.TxPool.DemoteAccount | core/tx_pool.go:1579-1627 | pending keeps exactly the affordable part from the state nonce on, or nothing if that nonce is missing; of the account's pending transactions exactly the stale and unaffordable are forgotten, the others return to the queue |
| TxPools.TxPool.DemoteUnexecutables | core/tx_pool.go:1577-1628 | the same for all accounts in any order: what is forgotten is exactly what was pending and stale or unaffordable |
| TxPools.KeptIs | core/tx_pool.go:1577-1628 | demotion keeps a pending transaction exactly if the state nonce is pending and nothing from it up to the transaction is unaffordable or beyond the gas limit |
| TxPools.TxPool.SettleNonces | core/tx_pool.go:1248-1254 | every virtual nonce is the successor of the account's last pending one or the state's; an account demotion has been over is exact afterwards if and only if its range has no gap and not the last 64-bit nonce |
| TxPools.FallenNonceIff | core/tx_pool.go:1577-1628 | with a new run below an old one demotion leaves no gap if and only if the new run is empty, reaches the old one, or something up to the old one is unaffordable |
| TxPools.FallenSound | core/tx_pool.go:1213-1254 | for an account whose exact pending run began at the old state nonce, demotion at a lower one leaves a gap-free range if and only if nothing queued is due there, what is due reaches the old run, or something up to its start is unaffordable |
| TxPools.TxPool.DropHighest | core/tx_pool.go:1474-1491 | one account loses its highest pending nonce and nothing else, its virtual nonce falls to it, one entry counts as stale, no other account's nonce changes |
| TxPools.TxPool.Sweep | core/tx_pool.go:1473-1492 | each of several accounts of one size loses its highest nonce |
| TxPools.TxPool.LowerTogether | core/tx_pool.go:1467-1494 | accounts of one size go down together, at most to the bound, and stop within one round of the limit |
| TxPools.TxPool.JoinOffenders | core/tx_pool.go:1462-1495 | the next largest account joins, and those before it go down to its size if the limit asks for it |
| TxPools.TxPool.LevelOffenders | core/tx_pool.go:1451-1495 | the offenders are the largest remote accounts, each once, at one common size, and every account has lost only its highest nonces |
| TxPools.TxPool.LowerToFloor | core/tx_pool.go:1497-1521 | if the limit is still exceeded afterwards, every remote account is within its guaranteed slots |
| TxPools.TxPool.TruncatePending | core/tx_pool.go:1441-1523 | the counter is the true total; the limit holds or all remote accounts are within their slots; every account keeps its lowest nonces; all that lost end at one common size no smaller than any untouched remote; locals keep all; the undershoot is less than the number of offenders, who are listed once each |
| TxPools.TxPool.TruncateQueue | core/tx_pool.go:1526-1568 | the limit is met exactly or only locals remain; what is lost is of the accounts longest without a heartbeat, of the last its highest nonces |
| TxPools.TxPool.EvictIdle | core/tx_pool.go:395-411 | the queues of remote accounts without a heartbeat for longer than the lifetime go whole, all others stay, no virtual nonce changes |
| TxPools.TxPool.MakeRoom | core/tx_pool.go:720-755 | refuses exactly when the pool is full and either too many changes have piled up or a remote transaction is outpriced or worth less than the room it needs; a refusal changes neither shelf nor the lookup; success evicts the cheapest remotes only, with the shelves and virtual nonces that leaves, and, with single heap entries, leaves room |
| TxPools.TxPool.EvictFor | core/tx_pool.go:736-754 | succeeds exactly when forced or when the live entries are worth the room; what leaves is a list of the cheapest live remotes, none more than needed, and the change counter grows by its length; shelves and virtual nonces are as after evicting it |
| TxPools.TxPool.Evict | core/tx_pool.go:747-754 | exactly the given transactions leave, and their slots are freed once each; each account's pending list is cut at its lowest evicted nonce, to which its virtual nonce falls, and everything else known is queued, in whatever order they leave |
| TxPools.FreedSlots | core/tx_pool.go:736-754 | evicting a list frees its counted slots if and only if nothing is listed twice |
| TxPools.TxPool.ReplacePending | core/tx_pool.go:757-780 | the pending rival is replaced exactly when outbid, the nonces of every account staying the same; the new one is remote unless its account is local, and it is a heartbeat |
| TxPools.TxPool.EnqueueNew | core/tx_pool.go:781-785 | the same in the queue, where it is a heartbeat only of an account without one |
| TxPools.TxPool.MarkLocal | core/tx_pool.go:786-791 | the account becomes local and exactly its remotes become locals, counted as stale; nothing known changes |
| TxPools.TxPool.Place | core/tx_pool.go:756-791 | the transaction replaces the pending or queued one it outbids or joins the queue, exactly then; the nonces pending stay the same and only its rival is forgotten; an account becomes local exactly by a local transaction that is queued, and then none of its transactions is remote |
| TxPools.TxPool.Add | core/tx_pool.go:701-799 | known, invalid and roomless transactions get their error and nothing changes, each exactly then; for any other room is made by evicting the cheapest remotes, and it is accepted exactly when it outbids every rival left; both shelves are those the eviction leaves with it put in its place; its account becomes local exactly if it is local and queued, and it is remote exactly if neither it nor its account is local; a fitting remote one without rivals adds one heap entry; a remote one accepted with single heap entries leaves the pool within its slots; exactness is kept |
| TxPools.TxPool.AddAll | core/tx_pool.go:997-1009 | the errors, the states between, the evictions and the refusals for room are those of adding one after the other; the virtual nonces are lowered by the evictions alone; the dirty accounts are exactly those with an accepted transaction that replaced none, and those that become local exactly those with a newly queued local one |
| TxPools.TakesAllFitting | core/tx_pool.go:997-1009 | transactions there is room for, added one after the other, make of the shelves what a fold over them says, and nothing is evicted |
| TxPools.TakingKeepsRuns | core/tx_pool.go:756-791 | such additions leave the pending nonces of every account as they were |
| TxPools.TxPool.Reset | core/tx_pool.go:1283-1370 | the state and noncer are the new head's, the reinjected transactions are added one after the other under its rules, which leaves the virtual nonces at the state's but for evictions, and accounts whose state nonce did not fall can be settled |
| TxPools.TxPool.ResetTo | core/tx_pool.go:1213-1254 | the same; with room for all that is reinjected the shelves are computed from the old ones, and for an exact account with pending transactions whose state nonce falls the condition of `FallenSound` decides over them |
| TxPools.TxPool.SettleAtHead | core/tx_pool.go:1228-1254 | exactly the pending stale and unaffordable transactions are forgotten, the heaps have the new base fee and are rebuilt, and an account is exact afterwards if and only if what demotion leaves of its pending transactions has no gap and not the last nonce |
| TxPools.TxPool.SettleAll | core/tx_pool.go:1229-1254 | after promotion and demotion pending is what demotion leaves of the old pending and the due, known is exactly what was due, able and within the limit, or pending and neither stale nor unaffordable, and the report lists every account's due run |
| TxPools.TxPool.ReorgToHead | core/tx_pool.go:1213-1254 | the same from the shelves the reinjection leaves, and an account is exact if and only if what demotion leaves has no gap and not the last nonce; with room for all that is reinjected, an exact account with pending transactions whose state nonce falls is exact afterwards if and only if, on the old shelves with the reinjected put in, nothing is due, the due run reaches the old one, or something up to it is unaffordable; an exact account whose state nonce does not fall becomes exact again if it has no transaction with the last nonce |
| TxPools.TxPool.TruncateAll | core/tx_pool.go:1255-1261 | both shelves lose highest nonces only, nothing if within their limits, the largest remote accounts and the longest silent queues first; both limits hold as far as locals allow, exact accounts stay exact, and another one can become exact only by losing transactions |
| TxPools.TxPool.PromoteDirty | core/tx_pool.go:1204-1230 | without a change of head both shelves are promoted for the dirty accounts and no others, their due runs are reported and nothing of theirs is next in line |
| TxPools.TxPool.RunReorg | core/tx_pool.go:1198-1262 | both shelves are the truncation of promoted ones: without a change of head pending gains the dirty accounts' due runs and their queues keep the rest, with one pending is what demotion leaves and known is what survives; the due runs are what is reported; the base fee is the new head's; after a head change an account is exact if what demotion leaves has no gap and not the last nonce, and unless truncation cut it only then; with room for the reinjected the condition for a fallen nonce is the one on the old shelves; without a head change an exact account stays exact unless its last nonce is promoted |
| PoolExamples.FallenNonceLeavesGap | core/tx_pool.go:1213-1254 | nonce 5 pending, the state nonce back from 5 to 3 and only nonce 3 reinjected: 3 and 5 are pending and the account is not exact |
| PoolExamples.FallenNonceRun | core/tx_pool.go:1198-1262 | the same from an empty pool on: nonce 5 is added and promoted, then the head changes |
| PoolExamples.LastNonceIsLost | core/tx_pool.go:1380-1434 | the last 64-bit nonce queued at that state nonce: promoting it makes an exact account inexact |
| PoolExamples.LastNonceRun | core/tx_pool.go:1375-1436 | the same from an empty pool on |
| PoolExamples.EnterTwice | core/tx_list.go:532-551 | a transaction that leaves the remotes and comes back before the heaps are rebuilt has two entries |
| PoolExamples.TwoEntries | core/tx_list.go:589-625 | discarding two slots then drops that transaction twice, which takes one slot |
| PoolExamples.AcceptsBeyondCapacity | core/tx_pool.go:720-799 | a full pool with such a transaction accepts a remote one and holds one slot more than its capacity |
| PoolExamples.CapacityRun | core/tx_pool.go:701-799 | from an empty pool of four slots: four accounts fill it, the cheapest transaction is removed and comes back, and the pool then takes a remote one of two slots and holds five |
| ReorgScheduler.ScheduleReorgLoop | core/tx_pool.go:1128-1195 | the loop computes the step machine the claims below are about |
| ReorgScheduler.RunIsSafe | core/tx_pool.go:1128-1195 | runs take channels in order, resets tile the head changes, and every ticket is for a run that serves it, in every reachable state |
| ReorgScheduler.OneRunAtATime | core/tx_pool.go:1139-1151 | at most one launched run is unfinished |
| ReorgScheduler.ReleasedOnlyWhenServed | core/tx_pool.go:1097-1115 | a done channel is closed only after a run with the requester's reset or accounts, or at shutdown |
| ReorgScheduler.ResetsTelescope | core/tx_pool.go:1153-1162 | a reset run's old head is the previous reset run's new head |
| ReorgScheduler.EventsConserved | core/tx_pool.go:1174-1181 | queued events reach the runs once each and in order |
| ReorgScheduler.NobodyWaitsIdle | core/tx_pool.go:1139-1151 | when no run is active and the loop has not returned, none is due and everybody's run has been launched |
| ReorgScheduler.EverybodyIsReleased | core/tx_pool.go:1128-1195 | whatever else happens in between, a requester is released once a run has ended, this has been seen and another run has ended |
| ReorgScheduler.ReturnedAreReleased | core/tx_pool.go:1186-1192 | the shutdown releases everybody still waiting |
| ReorgScheduler.EverybodyHasTicket | core/tx_pool.go:1153-1172 | every request up to the shutdown gets a channel of its own request, in order, and the heads seen are those announced |
| ReorgScheduler.PromotesWhatWasAsked | core/tx_pool.go:1164-1172 | a run promotes exactly the accounts asked for by those who hold its channel |
| Reinjection.Reinject | core/tx_pool.go:1283-1344 | reinjects exactly what is on the old branch and not on the new one; a deep or plain head change reinjects nothing; a missing old head aborts unless the new head is lower, and a missing block on the way always |
| Reinjection.LostIffMissing | core/tx_pool.go:1315-1343 | without replays those are the transactions of the old chain that the new chain lacks |
| ForkChoice.ChoosesHeavier | core/forkchoice.go:77-108 | without a terminal total difficulty the chosen head is never lighter, and of equals never higher |
| ForkChoice.DecidedBy | core/forkchoice.go:77-108 | a terminal total the header reaches decides for it, then the greater total, then the lower number, and of equals the local taste before the draw; without both totals there is no verdict |
| ForkChoice.SwitchesBackIff | core/forkchoice.go:77-108 | two heads can each replace the other exactly when only the random draw tells them apart |
| ChainStore.TrimAbove | core/blockchain.go:2379-2387 | the deletion loop removes exactly the unbroken run of numbers above a head |
| ChainStore.StoreGrows | core/blockchain.go:1452-1468 | a block stored under a stored parent keeps the tree and the total difficulties |
| BlockChains.WalkDown | core/blockchain.go:2280-2305 | gathers the blocks above a number, and succeeds whenever the ancestors are stored |
| BlockChains.FindCommon | core/blockchain.go:2280-2336 | finds the highest common ancestor with the two disjoint branches above it, and fails only on a missing block |
| BlockChains.CollectTxs | core/blockchain.go:2367-2370 | the transactions of a branch |
| BlockChains.HashDifference | core/types/transaction.go:453-468 | the hashes of one list that the other lacks |
| BlockChains.SwitchIsCanonical | core/blockchain.go:2361-2390 | after a reorg and the new head's write the index is the new head's chain up to the head |
| BlockChains.NothingAboveIff | core/blockchain.go:2379-2387 | no number survives above the new head if and only if two blocks were added or the head is not lower |
| BlockChains.StaleEntrySurvives | core/blockchain.go:2379-2387 | an input where one does |
| BlockChains.JoinsIff | core/blockchain.go:2306-2336 | fewer than two blocks are added exactly when the new head or its parent is on the old chain |
| BlockChains.SwitchesTx | core/blockchain.go:2361-2378 | a new-branch transaction is indexed at its last block there, an old-branch-only one is unindexed, others are untouched |
| BlockChains.IndexIsExactIff | core/blockchain.go:2361-2378 | an exact transaction index stays exact if and only if no dropped transaction is also below the fork |
| BlockChains.ReplayedEntryIsLost | core/blockchain.go:2361-2378 | an input where one is: the new head's chain holds a transaction that is no longer indexed |
| BlockChains.Extends | core/blockchain.go:934-955 | a block on top of the head keeps both indexes exact |
| BlockChains.BlockChain.WriteHeadBlock | core/blockchain.go:934-955 | markers, canonical number and transaction entries are those of the block |
| BlockChains.BlockChain.WriteBlockWithState | core/blockchain.go:1450-1468 | stores the block with its parent's total difficulty plus its own, or fails exactly when the parent is unknown |
| BlockChains.BlockChain.Reorg | core/blockchain.go:2267-2390 | on an error nothing has changed; otherwise the indexes are those of the new branch without its head; over a rooted tree it never fails |
| BlockChains.BlockChain.FollowHead | core/blockchain.go:1437-1447 | the block becomes head with a canonical index, and the exactness of both indexes is decided as above |
| BlockChains.BlockChain.WriteBlockAndSetHead | core/blockchain.go:1585-1607 | only an unknown parent fails; the block becomes head exactly as the fork choice says; the index is the head's chain, and the head stays heaviest |
| BlockChains.BlockChain.InsertAll | core/blockchain.go:1585-1607 | after any sequence of insertions the stored blocks are the old ones and exactly those whose parent was known in their turn, the others being the ones refused; the index is the head's chain and the head stays heaviest; if none became head, indexes and markers are unchanged; without replays the transaction index is exact |
| BlockChains.StoredIff | core/blockchain.go:1450-1468 | a block is stored after a sequence if and only if it was before or is inserted at a point where its parent is stored |
| HeaderChains.BatchPath | core/headerchain.go:224-233 | in a linked batch each header's chain is the first one's plus the headers between |
| HeaderChains.StoreBatch | core/headerchain.go:210-262 | all headers are stored with parent total plus difficulty, and the count is of the new ones |
| HeaderChains.CrossLink | core/headerchain.go:163-181 | in any store goes down stored parents to the first canonical header or one numbered zero, writing those passed into the index, and fails exactly when there is none; in a sane store it never fails and meets the index |
| HeaderChains.PileUp | core/headerchain.go:183-194 | the batch is laid into the index at its numbers |
| HeaderChains.PiledIsExact | core/headerchain.go:183-194 | piled onto the current header the index is exact for the last one |
| HeaderChains.SwitchedIsExact | core/headerchain.go:154-194 | switched at a cross link it is exact too, with nothing above, also for a shorter chain |
| HeaderChains.HeaderChain.WriteHeaders | core/headerchain.go:210-262 | an unknown parent or an interrupt stores nothing; otherwise the whole batch is stored and weighed |
| HeaderChains.HeaderChain.Reorg | core/headerchain.go:140-204 | a missing parent leaves the index unchanged; otherwise it is exactly the last header's chain |
| HeaderChains.HeaderChain.WriteHeadersAndSetHead | core/headerchain.go:271-307 | the head moves exactly as the fork choice says unless it is on the index already; the index stays exact for the current header, totals and counts are right, and the current header stays heaviest |
| Ancestors.ExactIsLinked | core/headerchain.go:140-204 | an exact index is parent-linked |
| Ancestors.CanonicalAncestor | core/headerchain.go:447-452 | along a parent-linked index a jump by numbers is a walk by parents |
| Ancestors.GetAncestor | core/headerchain.go:434-466 | along a parent-linked index a non-zero answer is the true ancestor exactly for a non-zero hash; the zero hash is answered exactly when its number has no canonical block; for a header of a rooted store there is an answer exactly when the budget reaches the target or the canonical chain |
| Ancestors.ZeroHashIsAnswered | core/headerchain.go:447-452 | a call with the zero hash that answers with a block of the canonical chain |
| Ancestors.HashFn.Get | core/evm.go:81-112 | below the reference number every answer is the plain walk's, whatever was asked before |
| Ancestors.ReachIsAncestor | core/evm.go:98-109 | what the plain walk finds is the ancestor by parent links |
| Ancestors.ReachIsTotal | core/evm.go:98-109 | with all headers present it finds every one |
| DiffLayers.DiffLayerStore.HandleDiffLayer | core/blockchain.go:2686-2743 | keeps the five maps consistent; a layer is added exactly if its hash is new, its number in range and its peer within the limit |
| DiffLayers.DiffLayerStore.RemoveDiffLayers | core/blockchain.go:2597-2622 | all layers of the peer that sent the invalid one go and no others; the maps stay consistent |
| DiffLayers.DiffLayerStore.PruneDiffLayer | core/blockchain.go:2640-2683 | from height 11 on nothing older than 11 blocks stays; below it the bound wraps and only layers numbered within 11 of 2^64 could; a layer goes exactly if its block is listed under an old number |
| DiffLayers.AddKeeps | core/blockchain.go:2718-2741 | adding a new diff keeps one peer per diff, the inverse maps and the limit plus one |
| DiffLayers.DropKeeps | core/blockchain.go:2597-2683 | dropping any diffs from all maps keeps them consistent |
| DiffLayers.PeersAreDiffs | core/blockchain.go:2602-2610 | deleting a peer is deleting its diffs, since no diff has two peers |
| DiffLayers.BlocksAreDiffs | core/blockchain.go:2664-2674 | deleting stale blocks is deleting their diffs |
| DiffLayers.DeleteDiffs | core/blockchain.go:2611-2621 | the loop deletes each diff and a block left without layers |
| DiffLayers.TakeStale | core/blockchain.go:2644-2663 | breaking off at the first recent number of the sorted list misses no stale one |
| DiffLayers.DropBlocks | core/blockchain.go:2664-2674 | the loop drops the stale blocks and gathers their diffs |
| DiffLayers.TakeFromPeers | core/blockchain.go:2675-2682 | the nested loop takes the diffs from all peers and drops peers left with none |
| ChainIndexers.OneComparisonSuffices | core/chain_indexer.go:419-429 | on a parent-linked index, if one stored section is canonical so is every one before it |
| ChainIndexers.ChainIndexer.SetValidSections | core/chain_indexer.go:479-491 | heads exist exactly below the new count |
| ChainIndexers.ChainIndexer.VerifyLastHead | core/chain_indexer.go:422-429 | on a parent-linked index exactly the canonical sections stay |
| ChainIndexers.ChainIndexer.Sections | core/chain_indexer.go:434-440 | reports only canonical sections and loses none of them |
| ChainIndexers.ChainIndexer.NewHead | core/chain_indexer.go:243-300 | after a reorg notice stored sections end at or below it; otherwise the known sections grow to the confirmed ones |
| ChainIndexers.ChainIndexer.Begin | core/chain_indexer.go:317-337 | a section is taken up from a canonical last head |
| ChainIndexers.ChainIndexer.ReadBlock | core/chain_indexer.go:397-411 | a block is accepted only if canonical then, stored and the child of the last one |
| ChainIndexers.ChainIndexer.FinishSection | core/chain_indexer.go:348-368 | the section is stored exactly if committed and no section was taken back meanwhile, which one head comparison detects |
| ChainIndexers.ChainIndexer.FailReset | core/chain_indexer.go:392-395 | a refused reset gives up all sections |
| ChainIndexers.ChainIndexer.LoadValidSections | core/chain_indexer.go:471-476 | the count in memory becomes that of the database |
| ChainIndexers.ChainIndexer.StartAgain | core/chain_indexer.go:103-122 | a restart forgets all but the database, from which the same sections and heads come back, with none known |
| ChainIndexers.ChainIndexer.Interleave | core/chain_indexer.go:243-440 | any interleaving of notices, updates, reads, queries and restarts is a run of the step machine, after which a head exists exactly for each stored section, all on one parent-linked chain |
| ChainIndexers.StoredByCommits | core/chain_indexer.go:317-368 | over a whole run, whatever is taken back in between, no more sections are added than the backend committed |
| ChainIndexers.StoresUndisturbed | core/chain_indexer.go:317-368 | an update over an index that does not change meanwhile, with a section known beyond the canonical ones and its blocks stored and linked, stores that section with its canonical head |
| Feeds.Deactivated | event/feed.go:228-232 | a swap to the end of the prefix moves one channel from the active to the sent ones |
| Feeds.Deleted | event/feed.go:223-225 | deleting shortens the prefix or the rest, keeping the others |
| Feeds.SentToAll | event/feed.go:128-190 | a finished send has reached every channel once or the channel left first, and the list holds the survivors |
| Feeds.Feed.Subscribe | event/feed.go:72-92 | the channel waits in the inbox |
| Feeds.Feed.Remove | event/feed.go:103-124 | one subscription of the channel goes, from the inbox or the list; it panics exactly when there is none |
| Feeds.Feed.DeleteCase | event/feed.go:223-225 | the list without one index, in place |
| Feeds.Feed.Deactivate | event/feed.go:228-232 | the list with two indexes swapped, in place |
| Feeds.Feed.TrySendAll | event/feed.go:156-165 | whichever channels take the value, the account of active, sent and gone channels stays right |
| Feeds.Feed.WakeUp | event/feed.go:169-181 | the same for a blocking delivery, a subscription or an unsubscription; it panics exactly over a channel that is not there |
| Feeds.Feed.Send | event/feed.go:128-190 | slot 0 stays the removal case, the count is the number of deliveries, every subscriber gets the value once or left first, the final list is a permutation of the survivors, newcomers wait, and it panics exactly when it comes to a stray unsubscription |
| Ledger.TotalMoved | core/evm.go:121-124 | balance changes add their sum to the total |
| Ledger.StateDB.Transfer | core/evm.go:121-124 | conserves the total, also to oneself, and with enough funds overdraws nobody |
| StateTransitions.GasPool.AddGas | core/gaspool.go:29-35 | adds within 64 bits |
| StateTransitions.GasPool.SubGas | core/gaspool.go:39-45 | fails exactly when short, changing nothing |
| StateTransitions.StateTransition.BuyGas | core/state_transition.go:193-213 | passes exactly with the funds and the pool's gas, charges sender and pool, and with a price within the cap leaves no debt |
| StateTransitions.StateTransition.PreCheck | core/state_transition.go:215-261 | passes exactly the messages whose nonce, sender, fees, funds and gas are right, and otherwise names the first of them that is not |
| StateTransitions.StateTransition.RefundGas | core/state_transition.go:372-387 | the gas never exceeds the initial amount, and pool and sender get it back |
| StateTransitions.RefundIsCapped | core/state_transition.go:372-380 | the refund times the quotient is at most the gas used |
| StateTransitions.NoncesAre | core/state_transition.go:336-344 | after a run an account's nonce is what the EVM set, one more for the sender of a call, or what it was |
| StateTransitions.GasUsedIs | core/state_transition.go:346-380 | the gas used is what the run spends less the refund counter, of which at most a fifth of that counts, a half before London |
| StateTransitions.BalancesAre | core/state_transition.go:354-387 | every account's balance after a settlement: its own delta, the sender short of the gas used at its price, the system address credited with that under Parlia and otherwise the coinbase with the effective tip |
| StateTransitions.OneReason | core/state_transition.go:215-310 | a message that cannot run has exactly one reason, the first check it fails |
| StateTransitions.SettlesTotal | core/state_transition.go:276-370 | the total balance changes by the burnt share of the gas used alone |
| StateTransitions.BurnsNothing | core/state_transition.go:354-363 | under Parlia, or before London, nothing is burnt |
| StateTransitions.BurnsBaseFee | core/state_transition.go:354-363 | at the EIP-1559 price the base fee is what is burnt per gas |
| StateTransitions.StateTransition.TransitionDb | core/state_transition.go:276-370 | succeeds exactly under its six conditions and otherwise names the first that fails; then balances and nonces are the settled ones, the sender of a call having the next nonce, the pool is short of the gas used and the total of the burnt share; errors before the purchase change nothing, later ones leave the gas bought |
| StateProcessors.ApplyTransaction | core/state_processor.go:460-483 | there is a receipt exactly under the transition's conditions; its gas is what the run did not leave over, its cumulative gas the gas so far plus its own; balances and nonces are the settled ones, the sender of a call having the next nonce |
| StateProcessors.BurnRate | core/state_transition.go:354-363 | the per-gas burn is uniform over a block in both regimes |
| StateProcessors.NonceCounts | core/state_processor.go:387-439 | over a block the nonce of an account without code grows by one for each of its transactions |
| StateProcessors.SentInOrder | core/state_processor.go:387-439 | and their nonces are consecutive, from the account's own on |
| StateProcessors.NothingRunsTwice | core/state_processor.go:387-439 | so no message runs twice in a block |
| StateProcessors.CallRunsOnce | core/state_transition.go:215-232 | a call that ran cannot run again next, whatever the EVM would do |
| StateProcessors.Process | core/state_processor.go:387-439 | succeeds exactly when the transactions run one after the other all do, with their balances, nonces, gas and receipts; pool plus used gas is the gas limit, receipts hold prefix sums, and the total changes by the burnt price of all gas used |
| DerivationPaths.ParseDerivationPath | accounts/hd.go:68-118 | the loop is the parse function, stopping at the first error |
| DerivationPaths.RelativeIsRooted | accounts/hd.go:68-90 | a relative path parses as the one below m/44'/60'/0'/0 |
| DerivationPaths.BasesAre | accounts/hd.go:101-104 | components are decimal, or binary, octal or hexadecimal by their prefix, and a leading zero alone makes one octal |
| DerivationPaths.ToString | accounts/hd.go:122-136 | the loop is the print function |
| DerivationPaths.ComponentRoundTrip | accounts/hd.go:90-116 | every 32-bit component comes back, hardened or not, at both ends of the range |
| DerivationPaths.RoundTrip | accounts/hd.go:68-136 | every non-empty path comes back from its printed form; the empty one is refused |
| DerivationPaths.ParseIsStable | accounts/hd.go:68-136 | printing what was parsed and parsing again changes nothing |
| DerivationPaths.PrintIsInjective | accounts/hd.go:122-136 | different paths print differently |
| DerivationPaths.PaddingIsIgnored | accounts/hd.go:91-99 | whitespace around a component does not matter |

## Left out

- Pool lists are values in the pool (`TxListState`), each operation of which `TxLists.TxList` implements over heap, map and cache; aliasing between a stored list and a caller's reference is not modelled.
- Hashes are ideal: a hash determines what was hashed. For diff hashes only "a held diff hash stands for one block" is assumed.
- Clocks: the pool's clock moves by `Tick` alone, and heartbeats and the lifetime are in its units; tickers and throttling are not modelled.
- The pool's journal, metrics, logs, event feeds to subscribers, reannouncement and the public wrappers (`AddLocals`, `Content`, `Status`, `SetGasPrice`).
- The stale counter over whole runs: each single operation states by how much it grows.
- Signature recovery, RLP, tries, the EVM, consensus engines and the database are parameters or maps. An EVM that destroys balance (a contract destroyed in favour of itself) is outside the conservation claims.
- Header, block and total-difficulty caches: they are keyed by hash alone, so they agree with the modelled reads by hash and number only for headers whose number was validated.
- Block number 2^64-1 and beyond: numbers are unbounded except where the source wraps (`GetHashFn`, `pruneDiffLayer`, gas, nonces).
- `SetHead`, repair rewinds, receipt and ancient chains, snapshots, state commits and log events of `reorg`.
- The engine's `Finalize` with system transactions, DAO and system-contract upgrades.
- Checkpoints and child indexers of the chain indexer; its backend is an arbitrary outcome of each step.
- HeaderChains.HeaderChain.WriteHeaders: an interrupt leaves entries in the caches that are not on disk, which is not modelled.
- Feeds.Feed.Send: the value the cases carry is not modelled, all carry the same; which ready channel takes it is arbitrary; a delivery is recorded in the ghost multiset at the point where the source sends.
- Feeds.Feed.Subscribe: the run-time check that a channel has the feed's element type.
- ReorgScheduler.ScheduleReorgLoop: the events of one run are a sequence, not a sorted map per account, and the history (runs, closed channels, tickets) is part of the state.
- TxPools.TxPool.AddAll: its log holds which transactions were refused for room, not the price heaps that decided it; `TxPools.TxPool.Add` ties each refusal to the heaps at its call.
- TxPools.TxPool.Reset: takes the reinjected transactions as given; `Reinjection.Reinject` computes their hashes.
- Trusted diff layers, the diff-layer freezer and peer verification.
- Derivation-path iterators and JSON forms; strings are sequences of Unicode characters, not bytes.
