# A verified model of the chain's consensus, allocation and bookkeeping code

The project models parts of a delegated-proof-of-stake chain and of its contract library in Dafny and proves properties
of them. Nothing here runs the original program. `dafny verify dfyconfig.toml` checks everything.

## What is modelled

- **Block header state** (`Irreversible`, `HeaderState`, `HeaderObject`, `DposSafety`, `DposTheorems`, `DposSteps`,
  `DposExamples`). `HeaderState` is the step from one header state to the next as functions on values, `HeaderObject`
  the same as an object updated in place and proved equal to it. `DposSafety` keeps, over whole runs, a record of
  which producers confirmed which block; `DposTheorems` holds the results: what a confirmation counter counts, when a
  block becomes proposed irreversible, what the irreversible number means, when it can drop, and how much two forks
  must overlap; `DposSteps` describes one step of a run field by field; `DposExamples` holds runs from genesis on
  which it drops and on which a vote repeats.
- **Fork database** (`ForkTree`, `ForkWalks`, `ForkRuns`, `ForkDatabase`, `ForkExamples`). The block container is a
  map from ids to states. `ForkTree` says what the container is as a tree, `ForkWalks` what each work loop has
  achieved part-way, `ForkDatabase` is the object, `ForkRuns` the statements over runs, `ForkExamples` a run that
  empties the container.
- **Contract heap** (`HeapBlocks`, `HeapTiling`, `HeapMemory`, `HeapRuns`, `HeapClient`). One `memory` of the
  allocator, in 32-bit words: `HeapBlocks` is the allocator on a list of blocks, `HeapTiling` ties such a list to the
  words of the buffer, `HeapMemory` is the object over the buffer, `HeapRuns` the statements over runs of requests,
  `HeapClient` a client that keeps data in the payloads.
- **128-bit integers and doubles** (`Rounding`, `Doubles`).
- **Ledgers** (`Sums`, `Names`, `Staking`, `Votes`, `RamBilling`, `ResourceLimits`): tables that must agree with a
  sum.
- **Block log** (`ByteStrings`, `BlockLogFiles`, `BlockLog`) and **table cache** (`MultiIndex`).
- **Binary encoding** (`Varints`, `Packing`, `Streams`).
- `Options` holds the one optional value type that the others share, `Division` facts about quotients.

## Premises

- A failed assertion leaves the state as it was, as the chain rolls the transaction back.
- Block ids are a number and a hash; signatures and keys are a flag that says whether the scheduled key signed.
- `DposSafety.Admissible`: a header does not confirm more blocks than there are, so that the unsigned subtraction of
  `block_header_state.cpp` line 156 does not wrap, and a proposed schedule fits the 8-bit counters. What happens without
  the first half is `DposTheorems.RepeatsExactlyOnWrap`, with `DposExamples.WrappedCheckRepeats` as an instance.
- The number of slots in a row that a producer has is any positive number; block numbers are unbounded.
- The head of an emptied fork database, a dangling pointer in the code, is `None`. Ties in its ordered indexes are broken
  in any way.
- A heap has a byte address, and ends below 2^32; requests are 32-bit. What a payer can spend when a token transfer runs is
  a parameter of `Staking` and `Votes`.
- Amounts in `Staking` and `Votes` are unbounded; in `ResourceLimits` the totals are 64-bit.
- Positions in the block log fit 64 bits and a write position is the size of the file.

Where the code departs from what its comments or its callers expect, the model follows the code: `realloc_in_place` never
shrinks a payload's header, its test lets through sizes beyond the address of the heap's end, `merge_contiguous` can walk
past the blocks handed out, the irreversible number can drop after a schedule promotion, pruning can empty the container,
`write` compares sizes as signed 32-bit integers, a block log reset without a first block keeps its old head, and signed
variable-length integers are corrupted beyond 30 bits.
Each of these has the exact condition under which it happens, and a concrete instance where that adds something.

## Model

| member | source | states |
|---|---|---|
| Irreversible.CalcDposLastIrreversible | libraries/chain/block_header_state.cpp:18-29 | Sorting and indexing yields the one number of rank (n-1)/3: it is reached exactly by the levels that at most (n-1)/3 entries lag |
| Irreversible.SortedThirdIsRank | libraries/chain/block_header_state.cpp:26-28 | The entry a third into the sorted numbers has that rank, however the map is listed |
| Irreversible.ThirdRankUnique | libraries/chain/block_header_state.cpp:18-29 | The rank determines the number, whatever order the map is traversed in |
| Irreversible.SupermajorityImplies | libraries/chain/block_header_state.cpp:18-29 | The computed number is some producer's, and more than two thirds of the producers imply it or a later one |
| Irreversible.RaiseOne | libraries/chain/block_header_state.cpp:18-29 | Raising or adding one entry to the largest number cannot lower the result |
| HeaderState.ExhaustedIsNewest | libraries/chain/block_header_state.cpp:196-211 | The counter at which the confirming loop stops is the newest one of the window about to reach zero |
| HeaderObject.BlockHeaderState.LowerCounters | libraries/chain/block_header_state.cpp:196-211 | The in-place loop leaves the counters of the specification and stops at its exhausted entry |
| HeaderObject.BlockHeaderState.SetConfirmed | libraries/chain/block_header_state.cpp:186-219 | The object's confirmation is the specified one, and changes only counters and the proposed number |
| HeaderObject.BlockHeaderState.Rekey | libraries/chain/block_header_state.cpp:97-119 | A map rebuilt for a new schedule keeps the old numbers and gives newcomers the irreversible one |
| HeaderObject.BlockHeaderState.MaybePromotePending | libraries/chain/block_header_state.cpp:90-123 | Promotion happens exactly when the pending schedule's block is irreversible, with the specified new maps |
| HeaderObject.BlockHeaderState.GenerateNext | libraries/chain/block_header_state.cpp:36-88 | The new object is the specified template and the old one is untouched |
| HeaderObject.BlockHeaderState.Apply | libraries/chain/block_header_state.cpp:158-184 | The object after the header's own fields are taken in |
| HeaderObject.BlockHeaderState.Next | libraries/chain/block_header_state.cpp:144-184 | The whole step on objects agrees with the step on values, errors included |
| DposSafety.Reachable | libraries/chain/block_header_state.cpp:144-219 | Over every run: numbers ordered, last-produced marks cover every earlier vote, counters show what is owed |
| DposSafety.CountersStep | libraries/chain/block_header_state.cpp:72-85 | Appending a counter, cutting the list to its limit and counting a header keeps counters equal to what is owed |
| DposSafety.NoRepeat | libraries/chain/block_header_state.cpp:151-157 | An accepted header votes for no block its producer has voted for before, schedule changes or not |
| DposSafety.RememberedStep | libraries/chain/block_header_state.cpp:90-123 | Dropping and re-adding a producer by promotions never forgets a vote that could be repeated |
| DposTheorems.CountersCountDistinctProducers | libraries/chain/block_header_state.cpp:72-85 | In every reachable state a counter is the quorum of its block less its distinct confirmers, from 1 to the quorum |
| DposTheorems.NoProducerCountedTwice | libraries/chain/block_header_state.cpp:154-157 | No two headers of one producer in a run confirm the same block |
| DposTheorems.ProposedNeedsQuorum | libraries/chain/block_header_state.cpp:196-218 | Every change of the proposed number raises it, to a block whose distinct confirmers are exactly the least number above two thirds of the n producers of the schedule it was appended under |
| DposTheorems.QuorumIsProposed | libraries/chain/block_header_state.cpp:196-218 | Conversely a tracked block whose quorum has confirmed it is proposed, or a newer one is |
| DposTheorems.LibBelowProposedBelowHead | libraries/chain/block_header_state.cpp:57-67 | Irreversible, proposed and head number are in order in every reachable state |
| DposTheorems.LibHasSupermajority | libraries/chain/block_header_state.cpp:57-60 | After every step more than two thirds of the implied numbers reach the irreversible one |
| DposTheorems.LibNeverDropsWithoutPromotion | libraries/chain/block_header_state.cpp:57-60 | The irreversible number never drops on a step that does not follow a promotion |
| DposTheorems.LibDropsExactly | libraries/chain/block_header_state.cpp:57-60 | On any step it is kept if and only if at most (m-1)/3 producers other than the block's own lag behind it |
| DposTheorems.LibKeptByPromotion | libraries/chain/block_header_state.cpp:90-123 | It is kept across a promotion when at most (m-1)/3 of the m new producers lag |
| DposExamples.LibCanDrop | libraries/chain/block_header_state.cpp:90-123 | A run of eight headers from genesis over whose last step it drops: a promotion leaves out one of four producers, and of the other three the one that has produced nothing holds the number back |
| DposTheorems.SchedulesWait | libraries/chain/block_header_state.cpp:90-133 | Over every run a schedule other than the first is active only if a block proposed it, with the version after the active one, and that block had become irreversible |
| DposSteps.TurnExactly | libraries/chain/block_header_state.cpp:12-16 | For every slot: it is the turn of producer i of n if and only if the slot is one of the slots that i has in a row in some round |
| DposSteps.ProducersTakeTurns | libraries/chain/block_header_state.cpp:150-151 | Over every run each block is of the one producer whose turn its slot is |
| DposSteps.AcceptedExactly | libraries/chain/block_header_state.cpp:144-184 | In every state, the exact condition under which a header is accepted |
| DposSteps.RefusedByFirst | libraries/chain/block_header_state.cpp:144-184 | A refused header is refused with the error of the first check, in the order of the code, that it fails |
| DposSteps.StepSchedules | libraries/chain/block_header_state.cpp:90-133 | Which schedule is active and which is pending after a step: a pending one becomes active exactly when the irreversible number has reached the block that proposed it |
| DposSteps.MarksMoveOn | libraries/chain/block_header_state.cpp:97-119 | Over every run, the last-produced marks and implied numbers after a step: without a promotion only those of the block's own producer change; with one, producers of the new schedule keep theirs, newcomers get the irreversible number, and all others are dropped |
| DposSteps.TrackedExactly | libraries/chain/block_header_state.cpp:72-85 | Over every run the tracked blocks are exactly those above the last proposed one, up to 1024 of the newest |
| DposTheorems.ForkQuorum | libraries/chain/block_header_state.cpp:74-85 | Under one schedule, a block proposed after the fork is backed by exactly a quorum of scheduled producers |
| DposTheorems.ForksShareAThird | libraries/chain/block_header_state.cpp:12-16 | Two runs from a common state under one schedule of n producers that each propose a post-fork block share more than n/3 of its confirmers |
| DposTheorems.RepeatsExactlyOnWrap | libraries/chain/block_header_state.cpp:154-157 | A header repeats an earlier vote only if the unsigned subtraction wraps, and then exactly if its producer has produced before |
| DposExamples.WrappedCheckRepeats | libraries/chain/block_header_state.cpp:156-157 | A run from genesis and a header for which it does |
| DposTheorems.GenesisIsFresh | libraries/chain/controller.cpp:618-636 | The genesis state starts such runs |
| ForkDatabase.ForkDatabase.constructor | libraries/chain/fork_database.cpp:111-124 | A container with one sane block satisfies the invariant, with that block as head |
| ForkDatabase.ForkDatabase.RemoveBlocks | libraries/chain/fork_database.cpp:213-226 | The queue ends and erases exactly the block and its descendants |
| ForkDatabase.ForkDatabase.Remove | libraries/chain/fork_database.cpp:213-230 | Removal keeps the invariant and leaves a best remaining block as head |
| ForkDatabase.ForkDatabase.ClearLevel | libraries/chain/fork_database.cpp:272-277 | Removing while a block of this height remains leaves nothing at the height and keeps the tree rooted |
| ForkDatabase.ForkDatabase.Prune | libraries/chain/fork_database.cpp:254-278 | Pruning an oldest-level block leaves exactly its proper descendants |
| ForkDatabase.ForkDatabase.AddState | libraries/chain/fork_database.cpp:126-149 | Errors in the code's order; on success the block is in, pruning is applied if due, and the head is best; BFT numbers still grow along the chain exactly if the new one is not below its parent's or pruning has removed one of the two |
| ForkDatabase.ForkDatabase.Settle | libraries/chain/fork_database.cpp:139-148 | The head becomes the best block and the oldest block below its irreversible number is pruned |
| ForkDatabase.ForkDatabase.Add | libraries/chain/fork_database.cpp:151-165 | Adding a signed block: the error of every case, or one step of the run relation with a best head |
| ForkDatabase.ForkDatabase.RaiseChildren | libraries/chain/fork_database.cpp:332-350 | One layer of the walk raises exactly the stored children that are too low, and returns them |
| ForkDatabase.ForkDatabase.SetBftIrreversible | libraries/chain/fork_database.cpp:318-356 | The early-stopping walk ends and gives every descendant max(old, number), and changes no other block |
| ForkDatabase.ForkDatabase.AddConfirmation | libraries/chain/fork_database.cpp:300-309 | Which confirmations are refused and why; an accepted one is one step of the run relation |
| ForkDatabase.ForkDatabase.FetchBranchFrom | libraries/chain/fork_database.cpp:173-210 | Terminates; fails exactly when no meeting point is stored; else two parent-linked branches down to the fork point, ending in one block exactly when one input is an ancestor of the other |
| ForkWalks.WalkDone | libraries/chain/fork_database.cpp:213-226 | A finished removal queue has erased exactly the subtree |
| ForkWalks.SpreadingDone | libraries/chain/fork_database.cpp:318-356 | A walk that stops at blocks it did not raise has still reached every descendant that was too low |
| ForkWalks.FetchDone | libraries/chain/fork_database.cpp:196-206 | Where the two upward walks stop is a common parent, and every other meeting point lies below |
| ForkWalks.PruningDone | libraries/chain/fork_database.cpp:254-278 | What remains after pruning is exactly the proper descendants |
| ForkWalks.PrunesExactly | libraries/chain/fork_database.cpp:139-148 | An add prunes if and only if the lowest stored number is below the irreversible number of the best block, then a block of that number, and keeps exactly its descendants |
| ForkTree.OneAncestorPerHeight | libraries/chain/fork_database.cpp:126-149 | A block has at most one ancestor at each height |
| ForkTree.RaisedKeeps | libraries/chain/fork_database.cpp:318-356 | Raising a subtree keeps the numbers from falling from a block to its child |
| ForkTree.BestExactly | libraries/chain/fork_database.cpp:34-41 | A best block has the highest irreversible number, among those the highest BFT number, and among those the highest block number |
| ForkRuns.AddKeeps | libraries/chain/fork_database.cpp:126-165 | Adding and pruning keep links, roots, order of BFT numbers and sanity of states |
| ForkRuns.RunKeeps | libraries/chain/fork_database.cpp:126-356 | Over every run of adds, confirmations and removals these stay true |
| ForkRuns.HeadSurvivesPruning | libraries/chain/fork_database.cpp:139-148 | The container stays non-empty exactly if the pruned block has a child, and the head stays best if it descends from it |
| ForkExamples.PruningCanEmpty | libraries/chain/fork_database.cpp:139-148 | A run of four signed blocks from genesis, of one producer, that leaves the container empty |
| ForkRuns.BftQuorumIsDistinct | libraries/chain/fork_database.cpp:300-309 | The test on the number of confirmations holds if and only if more than two thirds of the scheduled producers, each counted once, have confirmed a block that is not BFT irreversible yet |
| ForkRuns.ConfirmationExactly | libraries/chain/fork_database.cpp:300-356 | What a confirmation changes: its producer is added, and exactly when more than two thirds have now confirmed and the block is not BFT irreversible yet, it and its descendants rise to its number; nothing else changes |
| ForkRuns.BftNumbersAreEarned | libraries/chain/fork_database.cpp:300-356 | Over every run, a BFT irreversible number is that of a block which more than two thirds of its producers confirmed, unless the run started with it |
| HeapMemory.Memory.constructor | contracts/eosiolib/eosiolib.cpp:246-260 | A fresh heap is tiled by no blocks |
| HeapMemory.Memory.Malloc | contracts/eosiolib/eosiolib.cpp:279-291 | While the 32-bit sum does not wrap: a request that fits becomes a live block at the end, any other changes nothing, tiling and live payloads are kept; when it wraps, which requests are granted all the same, that the offset does not advance, and the one word that is written |
| HeapMemory.Memory.CleanupRemaining | contracts/eosiolib/eosiolib.cpp:372-382 | The rest of the heap becomes one free block, and the heap is fully handed out |
| HeapMemory.Memory.Free | contracts/eosiolib/eosiolib.cpp:366-370 | Exactly the block of the pointer becomes free |
| HeapMemory.Memory.RunSize | contracts/eosiolib/eosiolib.cpp:475-484 | The size found by walking over free headers |
| HeapMemory.Memory.MergeContiguous | contracts/eosiolib/eosiolib.cpp:469-501 | The walk decides, and a failed all-or-nothing merge leaves no trace; otherwise the words that merging and splitting writes, wherever the walk ends; when it ends in time, these are the words of the block list merged and split |
| HeapMemory.Memory.MallocFromFreed | contracts/eosiolib/eosiolib.cpp:293-316 | The coalescing and splitting walk ends with the heap and the answer of first fit |
| HeapMemory.Memory.TryBlock | contracts/eosiolib/eosiolib.cpp:300-309 | One free block of the walk: merged, and taken if it suffices |
| HeapMemory.Memory.ReallocInPlace | contracts/eosiolib/eosiolib.cpp:318-364 | When a payload can be resized in place, other payloads and its own words up to the smaller size being kept: for the last block if the size is at most the address of the heap's end, for any other if the merging walk ends in time; without these, which sizes are granted all the same, and the words that are then written |
| HeapMemory.Memory.GrowIntoFreed | contracts/eosiolib/eosiolib.cpp:355-363 | A payload grows exactly when the heap and the walk have room, and the words written then; when the walk ends in time, it grows into its free neighbours and no payload changes |
| HeapMemory.Memory.GrowLast | contracts/eosiolib/eosiolib.cpp:347-354 | The last payload grows into the heap not handed out, if that has room; the offset and the stored word in any case |
| HeapMemory.ResizeTestExact | contracts/eosiolib/eosiolib.cpp:332-336 | The test is right if and only if the size is at most the address of the heap's end; every larger size passes it |
| HeapRuns.ResizeCanWrap | contracts/eosiolib/eosiolib.cpp:332-336 | A request for 2^32-16 bytes that passes it |
| HeapMemory.WalkStaysInsideExactly | contracts/eosiolib/eosiolib.cpp:475-484 | The merging walk stays inside the blocks handed out if and only if it meets enough room, a live block or the heap's end in time, or a set bit behind them |
| HeapRuns.WalkCanOverrun | contracts/eosiolib/eosiolib.cpp:475-484 | A concrete heap on which it does not |
| HeapBlocks.FirstFitIsComplete | contracts/eosiolib/eosiolib.cpp:293-316 | The answer is the start of the first maximal run of free blocks that can hold the request, and none exactly when there is no such run |
| HeapBlocks.FirstFitTiles | contracts/eosiolib/eosiolib.cpp:293-316 | First fit keeps the total size and the alignment of the blocks |
| HeapBlocks.FirstFitLive | contracts/eosiolib/eosiolib.cpp:293-316 | The live blocks afterwards are the old ones in place and the one handed out |
| HeapBlocks.FirstFitCoalesces | contracts/eosiolib/eosiolib.cpp:293-316 | A search that fails leaves every run of free blocks merged into one |
| HeapBlocks.LiveDisjoint | contracts/eosiolib/eosiolib.cpp:426-432 | Payloads of different live blocks do not overlap |
| HeapRuns.AdjustRoundsUp | contracts/eosiolib/eosiolib.cpp:237-244 | Rounding gives the least aligned size, exactly up to 2^32-4; beyond it wraps to 4 |
| HeapRuns.CapacityTestExact | contracts/eosiolib/eosiolib.cpp:279-284 | The capacity test is right exactly when its sum does not wrap |
| HeapRuns.RunStaysHonest | contracts/eosiolib/eosiolib.cpp:279-382 | Over every run of requests that take effect as Memory promises, every pointer handed out is a live block of at least the size asked for |
| HeapRuns.HandedOutDisjoint | contracts/eosiolib/eosiolib.cpp:279-382 | Payloads handed out are disjoint and inside the tiled part |
| HeapClient.Client.Take | contracts/eosiolib/eosiolib.cpp:279-291 | While the sum of the capacity test does not wrap, a client gets a pointer it does not hold yet, and keeps the contents of all its payloads |
| HeapClient.Client.TakeFreed | contracts/eosiolib/eosiolib.cpp:293-316 | The same from freed blocks, although the walk merges and splits around the live ones |
| HeapClient.Client.GiveBack | contracts/eosiolib/eosiolib.cpp:366-370 | Giving a payload back affects no other |
| HeapClient.Client.Resize | contracts/eosiolib/eosiolib.cpp:318-364 | Whenever the resize in place ends well (for the last block a size up to the address of the heap's end, for others a walk that ends in time), a resized payload keeps its contents up to the smaller size, and no other changes |
| HeapClient.Client.CleanUp | contracts/eosiolib/eosiolib.cpp:372-382 | Handing out the rest touches no contents |
| HeapClient.Client.ServeAll | contracts/eosiolib/eosiolib.cpp:279-382 | Over every sequence of requests, those that wrap a test left out, the heap stays tiled, payloads stay disjoint and large enough, and what they hold is the result of the requests, one after the other |
| HeapClient.LastStoreStays | contracts/eosiolib/eosiolib.cpp:279-382 | Over every such sequence a word that the client stored is still there until it is stored again, cut off by a resize or given back |
| HeapClient.FreshPointer | contracts/eosiolib/eosiolib.cpp:293-316 | First fit never hands out a pointer that is in use |
| Rounding.ClzIsLeadingZeros | libraries/builtins/int_t.h:45-52 | Counting on two halves counts the leading zeros of the whole: the rest are the significant bits |
| Rounding.RoundOff | libraries/builtins/floatuntidf.c:43-61 | The switch, the sticky bit, the parity bit and the increment compute round to nearest, ties to even |
| Rounding.Normalize | libraries/builtins/floatuntidf.c:30-71 | Significand and exponent are the rounded ones, including the carry into one more bit |
| Rounding.RoundedIsNearest | libraries/builtins/floatuntidf.c:26-76 | No value of at most the kept digits, and no negative one, is nearer than the rounded one; ties go to the even one |
| Doubles.Pack | libraries/builtins/floatuntidf.c:72-76 | The two storage words join into the sign, exponent and significand of the double |
| Doubles.FloatUnTiDf | libraries/builtins/floatuntidf.c:26-76 | The result is the finite double nearest to the unsigned integer, even on ties |
| Doubles.FloatTiDf | libraries/builtins/floattidf.c:26-79 | The result is the finite double nearest to the signed integer, even on ties |
| Doubles.ResultIsNearest | libraries/builtins/floattidf.c:26-79 | Against every finite double, subnormal and of either sign |
| Doubles.FixUnsTruncates | libraries/builtins/fixunsdfti.c:15-37 | The conversion back cuts towards zero, gives zero below one and saturates above the range |
| Doubles.RoundTrip | libraries/builtins/fixunsdfti.c:15-37 | There and back is exact up to the format's digits and otherwise off by at most half a unit of the last one, also where the result saturates |
| Doubles.DoubleRoundTrip | libraries/builtins/fixunsdfti.c:15-37 | For 128 bits and doubles: exact up to 53 bits, else within 2^(sd-54) |
| Staking.Ledger.constructor | contracts/noc.system/delegate_bandwidth.cpp:79-81 | Empty tables satisfy the invariant |
| Staking.Ledger.ChangeRow | contracts/noc.system/delegate_bandwidth.cpp:99-121 | The delegation row changes by the delta, vanishes at zero, and is refused below zero |
| Staking.Ledger.ChangeTotals | contracts/noc.system/delegate_bandwidth.cpp:123-151 | The receiver's totals row, and the limits set from it |
| Staking.Ledger.ChangeStake | contracts/noc.system/delegate_bandwidth.cpp:99-151 | Once the row check passes, the checks on the totals never fail, and totals remain the sums of delegations |
| Staking.Ledger.SettleRefund | contracts/noc.system/delegate_bandwidth.cpp:166-208 | A refund covers what it can of a stake and takes in what is unstaked, then waiting anew; its checks never fail |
| Staking.Ledger.Pay | contracts/noc.system/delegate_bandwidth.cpp:153-219 | What enters the delegations is paid in or leaves the refund; fails exactly when the payer lacks the funds |
| Staking.Ledger.ChangeBw | contracts/noc.system/delegate_bandwidth.cpp:83-219 | Goes through exactly when the change is not zero, of one sign, leaves the row not negative and can be paid for; otherwise every table is as before; the system account pays nothing and gets no refund |
| Staking.Ledger.DelegateBw | contracts/noc.system/delegate_bandwidth.cpp:221-232 | Which stakes are accepted, which row and totals grow by how much, who pays how much, and that a stake to oneself first uses the refund, what is left of which keeps its time |
| Staking.Ledger.UndelegateBw | contracts/noc.system/delegate_bandwidth.cpp:234-243 | Exactly what was staked can be unstaked; it leaves the row and the totals, adds to the refund, which waits from now on, and moves no token |
| Staking.Ledger.PayRefund | contracts/noc.system/delegate_bandwidth.cpp:245-262 | A refund is paid once, only after the delay, and whenever the system account has kept the tokens moved into it and has those it delegated itself |
| Staking.Ledger.Run | contracts/noc.system/delegate_bandwidth.cpp:83-262 | Over every run: tokens moved in less tokens paid out, with what the system account delegated without paying, are the delegations plus the open refunds, totals are sums of delegations, and no refund is paid within three days of its owner's last unstake |
| Staking.TotalsStayCovered | contracts/noc.system/delegate_bandwidth.cpp:140-141 | A receiver's totals cannot become negative while no delegation does |
| Staking.ChangesHaveOneSign | contracts/noc.system/delegate_bandwidth.cpp:89-92 | The two checks accept exactly the non-zero changes whose parts do not differ in sign |
| Staking.ChargeBalances | contracts/noc.system/delegate_bandwidth.cpp:166-219 | A change equals what is charged for it plus what the refund falls by |
| Staking.UnstakingIsFree | contracts/noc.system/delegate_bandwidth.cpp:166-219 | Unstaking charges nothing and adds to the refund |
| Staking.UnstakeUndoesStake | contracts/noc.system/delegate_bandwidth.cpp:221-243 | Unstaking what was staked restores the delegations |
| Votes.Voting.Vote | contracts/noc.system/voting.cpp:50-122 | When a vote is accepted, and that it sets the vote and its power, moves the difference out of or into the frozen tokens and its power into the total, and changes nothing else |
| Votes.Voting.VoteStatic | contracts/noc.system/voting.cpp:124-186 | The same for a locked vote: its power and time by type, appended to the others |
| Votes.Voting.QuitStaticVote | contracts/noc.system/voting.cpp:188-237 | The same for taking a locked vote back: only that one is emptied |
| Votes.Voting.VoteByReward | contracts/noc.system/voting.cpp:239-318 | The same for voting a reward, cut to whole stake units: the reward leaves the producer's pool, and no other producer changes |
| Votes.Voting.Claim | contracts/noc.system/voting.cpp:337-413 | The same for paying a reward out, which also needs the system account to have the funds |
| Votes.DropQuit | contracts/noc.system/voting.cpp:288-306 | The two loops leave the locked votes not quit, in order |
| Votes.VoteUnits | contracts/noc.system/voting.cpp:58-75 | A vote changes the row's power by a tenth of the change, and the division by 100000 is exact |
| Votes.LockPower | contracts/noc.system/noc.system.hpp:96-108 | A locked vote's power is a whole number of units for every lock type |
| Votes.StaysBalanced | contracts/noc.system/noc.system.hpp:317-328 | A row and its producer's total that change together keep all totals balanced |
| Votes.RunKeepsTotals | contracts/noc.system/voting.cpp:50-413 | After every run each producer's total times 10000 is the power of all votes for it, so it is never negative |
| Votes.RunConservesPools | contracts/noc.system/voting.cpp:239-413 | Over every run the rewards taken from a producer's pool and what is left of it are what was in it at first, and no pool is overdrawn |
| Votes.RunKeepsFrozen | contracts/noc.system/voting.cpp:50-237 | Over every run no voter spends more frozen tokens than it has |
| Votes.RunKeepsClosed | contracts/noc.system/voting.cpp:50-318 | Over every run the total of a producer that is of genesis, or not active, or whose pawn is below 5000, never rises, except, in the last case, by voted rewards |
| Votes.RunKeepsLocks | contracts/noc.system/voting.cpp:124-237 | Over every run a locked vote stays as it is until its time is over |
| Votes.AcceptedExactly | contracts/noc.system/voting.cpp:50-413 | In every sound state, the exact condition under which each action is accepted, with what a pawn allows by its size |
| Votes.PawnBoundsVotes | contracts/noc.system/voting.cpp:103-113 | The total a pawn allows for votes, by the size of the pawn |
| Votes.PawnBoundsLocks | contracts/noc.system/voting.cpp:152-163 | The total a pawn allows for locked votes |
| Votes.LockTerms | contracts/noc.system/voting.cpp:132-147 | Time and power of a locked vote by type, as one formula |
| Votes.VotedTokens | contracts/noc.system/voting.cpp:50-122 | A vote moves tokens between votes and frozen tokens and makes none |
| Votes.LockedTokens | contracts/noc.system/voting.cpp:124-186 | So does a locked vote |
| Votes.QuitTokens | contracts/noc.system/voting.cpp:188-237 | So does quitting it |
| Votes.RewardedTokens | contracts/noc.system/voting.cpp:239-318 | A voted reward adds exactly its whole units to the voter's tokens |
| RamBilling.Context.Store | libraries/chain/apply_context.cpp:526-550 | When a row is stored, that it then holds the value and has the payer, that no other row changes, and the tables and usage afterwards |
| RamBilling.Context.Update | libraries/chain/apply_context.cpp:552-581 | When a row is rewritten, that it then holds the value and has the payer meant, that no other row changes, and the usage afterwards |
| RamBilling.Context.Remove | libraries/chain/apply_context.cpp:583-603 | When a row is removed, with its table if it was the last |
| RamBilling.RunBillsExactly | libraries/chain/apply_context.cpp:428-603 | After every run each account's usage is the billable size of what it pays for, counts are exact, and a table exists exactly while it has a row |
| RamBilling.TableIffRow | libraries/chain/apply_context.cpp:598-600 | A table object exists exactly while it has a row |
| RamBilling.RunChargesNeedLeave | libraries/chain/apply_context.cpp:469-478 | Over every run an account that gave leave to no operation is billed no more than before |
| RamBilling.RunHoldsLastValue | libraries/chain/apply_context.cpp:526-603 | Over every run a row holds the value of the last store or update of it that was accepted, and is gone after an accepted removal |
| RamBilling.StepRows | libraries/chain/apply_context.cpp:526-603 | The exact condition under which each operation is accepted, and the rows it leaves |
| RamBilling.WithTableKeeps | libraries/chain/apply_context.cpp:428-442 | Creating a table at the payer's expense keeps bills and counts exact |
| RamBilling.StoredKeeps | libraries/chain/apply_context.cpp:526-550 | Storing keeps bills and counts exact |
| RamBilling.UpdatedKeeps | libraries/chain/apply_context.cpp:552-581 | So does updating, with or without a change of payer |
| RamBilling.RemovedKeeps | libraries/chain/apply_context.cpp:583-603 | So does removing |
| RamBilling.RemoveUndoesStore | libraries/chain/apply_context.cpp:526-603 | Removing a row just stored restores rows and tables |
| RamBilling.RemoveRefundsStore | libraries/chain/apply_context.cpp:526-603 | And refunds every account exactly |
| ResourceLimits.Manager.InitializeAccount | libraries/chain/resource_limits.cpp:111-119 | A new account is unlimited and weighs nothing |
| ResourceLimits.Manager.SetAccountLimits | libraries/chain/resource_limits.cpp:244-292 | The last request is what is pending; says exactly when the RAM limit goes down |
| ResourceLimits.Manager.ApplyNext | libraries/chain/resource_limits.cpp:381-388 | One pending entry put in force keeps totals equal to the sums and cannot underflow |
| ResourceLimits.Manager.ProcessAccountLimitUpdates | libraries/chain/resource_limits.cpp:355-392 | Ends with nothing pending and every account at its last requested limits, never underflows, and overflows only if some order of the weights could |
| ResourceLimits.ReplaceStep | libraries/chain/resource_limits.cpp:360-372 | Replacing one limit: never an underflow, and an overflow if and only if a new sum exceeds 64 bits |
| BlockLog.BlockLog.Reset | libraries/chain/block_log.cpp:222-266 | The files start with the header and the first block; a first block of the wrong number leaves an invalid version behind |
| BlockLog.BlockLog.Append | libraries/chain/block_log.cpp:190-215 | Exactly the block that comes next is appended, at the position returned |
| BlockLog.BlockLog.GetBlockPos | libraries/chain/block_log.cpp:292-300 | The stored position of a block is where it starts, other numbers give none; fails exactly when the head is left over from before a reset and covers the number |
| BlockLog.StaleHeadMisleads | libraries/chain/block_log.cpp:222-300 | A log of one block, reset without a first block, on which it fails |
| BlockLog.BlockLog.ReadBlockByNum | libraries/chain/block_log.cpp:279-290 | Every appended block is read back by its number, with the same exception, and the number check never fails |
| BlockLog.BlockLog.ReadHead | libraries/chain/block_log.cpp:302-319 | The last block appended is found from the end of the file |
| BlockLog.BlockLog.ConstructIndex | libraries/chain/block_log.cpp:329-365 | Rebuilding the index changes nothing, and succeeds exactly when a block was appended |
| BlockLog.Rebuild | libraries/chain/block_log.cpp:329-365 | The rebuild reads only the log, ends, and yields the index that the appends wrote; it fails exactly on a log without blocks |
| BlockLogFiles.LogFrom | libraries/chain/block_log.cpp:203-207 | From its start, the log continues with a block, its position and the later blocks |
| BlockLogFiles.IndexEntry | libraries/chain/block_log.cpp:207-207 | Index entry k is the start of block k |
| BlockLogFiles.HeaderLayout | libraries/chain/block_log.cpp:222-266 | The bytes of the header: version, first block number, genesis state, end mark |
| MultiIndex.Table.Emplace | contracts/eosiolib/multi_index.hpp:1657-1699 | A row under a free key is stored; indexes stay exact, the cache agrees, the next key moves past the row's and stays free |
| MultiIndex.Table.Modify | contracts/eosiolib/multi_index.hpp:1834-1887 | A cached row is rewritten under its own key, with the same guarantees |
| MultiIndex.Table.Erase | contracts/eosiolib/multi_index.hpp:2150-2179 | A cached row leaves the database, the indexes and the cache |
| MultiIndex.Table.Find | contracts/eosiolib/multi_index.hpp:1987-1999 | The stored row is returned whether or not it was cached, and is cached afterwards |
| MultiIndex.Table.FindSecondary | contracts/eosiolib/multi_index.hpp:406-454 | The row with the smallest primary key among those with the secondary key, none exactly if there is none |
| MultiIndex.Table.AvailablePrimaryKey | contracts/eosiolib/multi_index.hpp:1382-1399 | A key returned exceeds every stored key; on a fresh view one is returned exactly if the keys leave room below the tags |
| MultiIndex.UpdateChanged | contracts/eosiolib/multi_index.hpp:1871-1886 | Entries whose secondary key changed are rewritten, the others skipped, unknown iterators looked up |
| MultiIndex.UpdatedIndexed | contracts/eosiolib/multi_index.hpp:1871-1886 | Skipping the unchanged keys leaves every index exact |
| MultiIndex.KeyStaysFree | contracts/eosiolib/multi_index.hpp:1682-1683 | The next key stays above every stored key, or is a tag |
| Varints.UnsignedRoundTrip | contracts/eosiolib/varint.hpp:212-242 | Every unsigned 32-bit integer is read back and nothing after it is consumed |
| Varints.VarintAt | contracts/eosiolib/varint.hpp:212-222 | Each byte of an integer: its seven bits, and the eighth on all but the last |
| Varints.VarintLength | contracts/eosiolib/varint.hpp:212-222 | There are no more bytes than needed |
| Varints.SignedRoundTrip | contracts/eosiolib/varint.hpp:449-481 | A signed 32-bit integer is read back if and only if it lies in [-2^30, 2^30); any other comes back with its lowest bit flipped |
| Varints.SignedBytes | contracts/eosiolib/varint.hpp:449-481 | On that range also through the bytes, with any suffix |
| Packing.RoundTrip | contracts/eosiolib/datastream.hpp:598-957 | Unpacking the bytes of any nested value followed by any suffix returns the value and leaves the suffix |
| Packing.InOrder | contracts/eosiolib/datastream.hpp:713-724 | Map entries that arrive in key order are all kept, in order |
| Packing.ReadMapExactly | contracts/eosiolib/datastream.hpp:713-724 | A map read from entries in any order is in key order and holds, for every key, the first entry with it |
| Packing.WireExample | contracts/eosiolib/datastream.hpp:598-724 | The bytes of a nested value |
| Streams.Counter.Put | contracts/eosiolib/datastream.hpp:934-939 | The counting stream counts exactly the bytes of a value, modulo 2^32 |
| Streams.Writer.Write | contracts/eosiolib/datastream.hpp:82-87 | Bytes are appended only if they fit, and in a buffer below 2^31 bytes whenever they do; the test refuses or lets through by the signed comparison |
| Streams.WriteTestExact | contracts/eosiolib/datastream.hpp:83-83 | The signed test is right if and only if room and size are on the same side of 2^31; otherwise a size too large passes or one that fits does not |
| Streams.WriteCanOverrun | contracts/eosiolib/datastream.hpp:83-83 | A write of 2^31 bytes that a buffer of sixteen lets through |
| Streams.Writer.PutVarint | contracts/eosiolib/varint.hpp:212-222 | The loop writes the bytes of the integer, exactly when they fit in a buffer below 2^31 bytes; it never overruns |
| Streams.Writer.Put | contracts/eosiolib/datastream.hpp:598-724 | A value is written only if its bytes fit, whenever they do in a buffer below 2^31 bytes, and leaves the buffer only if it has 2^31 bytes itself |
| Streams.PackBytes | contracts/eosiolib/datastream.hpp:949-957 | For values below 2^31 bytes, and only those, a buffer of the counted size takes exactly the bytes of the value |
| Streams.Reader.GetVarint | contracts/eosiolib/varint.hpp:232-242 | The loop reads the integer at the cursor, or fails at the end of the data |
| Streams.Reader.Get | contracts/eosiolib/datastream.hpp:598-724 | Reading a value is unpacking what lies behind the cursor |
| Streams.PackThenUnpack | contracts/eosiolib/datastream.hpp:905-957 | Through the streams, a value below 2^31 bytes comes back and exactly its bytes are consumed; any other fails to pack |

## Left out

- HeapMemory.Memory.MergeContiguous: a walk past the blocks handed out takes the sizes it meets, in words that no operation wrote, in whole words, where the code goes on at unaligned addresses, so there its answer is not exact; HeapMemory.WalkStaysInsideExactly is the exact condition, and a fully handed-out heap always meets it.
- HeapClient.Client.Take: sizes that wrap the sum of the capacity test are left to HeapMemory.Memory.Malloc and HeapRuns.CapacityTestExact.
- HeapMemory.Memory.MallocFromFreed: covers one `memory`; the choice among several heaps, `sbrk` and the copying `realloc` of the manager are not modelled.
- Streams.Reader.GetVarint: refuses a sixth byte, whose shift C++ leaves undefined.
- Streams.Writer.Put: a write that leaves the buffer ends the run; what it overwrites is not described.
- Doubles.FloatTiDf: takes the magnitude of -2^127 to be 2^127, as two's complement hardware does; C++ leaves that subtraction undefined.
- BlockLog.BlockLog.ConstructIndex: version 2 of the log format; version 1, `open`, `repair_log` and the file modes are not modelled.
- BlockLog.Rebuild: on a log without blocks the code reads past the end of its stream; the failure stands for that.
- ForkDatabase.ForkDatabase.AddState: with `skip_validate_previous` the caller vouches that the parent is stored.
- Votes.Voting.Claim: the size of the reward and the funds of the system account are parameters; the token contract's tables are not modelled.
- Votes.Voting.VoteByReward: the size of a reward, computed from vote ages, is a parameter; vote ages, `freeze`, `unfreeze` and the voter table are not modelled.
- Staking.Ledger.DelegateBw: the payer's balance less what it has frozen or voted is a parameter; the token contract's tables are not modelled.
- Staking.Ledger.ChangeBw: the range checks of asset arithmetic are not modelled.
- RamBilling.Context.Store: iterators are row keys; the RAM limit check at the end of a transaction, secondary-index objects and deferred transactions are not modelled.
- ResourceLimits.Manager.ProcessAccountLimitUpdates: entries are taken in any order, not only by owner; elastic limits and usage averages are not modelled.
- MultiIndex.Table.Modify: one table object alone accesses its rows; serialization of rows and billing are not modelled here.
- Signatures, hashes and key recovery; the controller, snapshots, network, wallet and command line; block rewards and elections; the token contract: outside the model or thin.
