# Verified models of a kernel test-prioritisation toolkit

The repository ranks kernel tests (by line coverage, by call-graph reach, by text distance) and scores the
rankings, and it carries the sources of a memory allocator, of the Redis Cluster bus and of a shell grammar's
scanner. This project models the logic of these parts in Dafny and proves what they are for.

| part | files | main results |
|---|---|---|
| musl allocator | `SizeClasses`, `BoundaryTags`, `FreeLists`, `HeapShape`, `MuslMalloc` | every malloc and free keeps the tiling, the coalescing, the bins and the bin map; live blocks never overlap each other or the allocator's own words; which chunk a request gets; no byte is lost or gained, and bins are queues |
| cluster bus | `ClusterBus`, `ClusterEpochs`, `ClusterVotes`, `ClusterRules`, `ClusterStaleVote`, `ClusterCollisions`, `ClusterSettling`, `ClusterAhead` | epoch bounds, one vote per epoch, the law of the vote count, one winner per epoch, epoch collisions that end and settle, and exactly what each step may change, each over every run |
| slot table | `SlotBitmap`, `ClusterSlots`, `SlotRanges` | owners, bitmaps and counts agree after every command sequence; claims never lower an owner's epoch; the configuration file round-trips |
| coverage orders | `GreedyCover`, `StableOrder`, `CoverageHelper` | the greedy order reaches a 1-(1-1/k)^k share of the best k tests; removing common lines changes no order |
| text distances | `EditDistance`, `PaddedDistance`, `DistanceMap`, `AdaptiveRandom`, `SpreadOrder` | the edit table is the length of a shortest script; the farthest-first order is within twice the best radius |
| call graphs | `CallGraph`, `RelatedMethods`, `CallRecords`, `AdditionalStrategy`, `StrategyLaws`, `StrategyPlan` | from records to exactly the reachable kernel functions; the greedy order with resets, and that it is the only one |
| scanner state | `ScannerCodec` | restoring what was saved gives it back, and exactly when |
| score | `Apfd` | exact range and reversal law of APFD |

`Collections` and `ClusterTypes` hold what several models share. State that the source changes in place is a class with
`modifies` clauses or, for the bus, a state machine whose runs are sequences of steps. Random choices, clocks,
the kernel's answer to a request for memory and the contents of files are parameters or are left open, so every
theorem holds for all of them.

Some properties fail on some inputs of the code. Each has a lemma with a failing input, and a condition, exact
unless said otherwise, under which the code meets it:

- The count of a failover attempt is reset before its epoch is set, so a vote of an earlier attempt can be
  counted for the next one. `ClusterStaleVote.StaleVotesGiveTwoWinners` gives for every number of voters a run with
  two winners in one epoch. `ClusterVotes.ElectionsOk` gives the law of the count for every run: distinct voters
  of the epoch plus such early votes. By `GenuineCount` a winning count is genuine exactly when it has no early vote.
  By `OneWinnerPerEpoch` two winners of one epoch hold at least one early vote between them, or two where the number
  of voters is even, and by `BoundIsExact` no larger number would do.
- A node takes over an epoch that an UPDATE reports for it, even one it never had. So a master whose table is ahead
  can make another move twice (`ClusterAhead.UntruthfulUpdateMovesTwice`), and the bound on moves is for runs whose
  updates report epochs that were reached, which is enough for it. A table that is ahead of a node ignores that
  node's headers (`AheadTableStaysPut`): `ClusterSettling.PingMoves` says that a present header moves a master at its epoch exactly
  when its table is not ahead, and `NotAheadRun` that neither happens from a start in which no table is ahead.
- ADDSLOTS gives slots to a slave too (`ClusterSlots.Cluster.SlaveTakesSlot`), so the assertion in clusterSetMaster
  that the node serves none can fail. `UpdateSlotsConfigWith` says exactly when it holds.
- The size guard of the scanner's `serialize` allows for three bytes ahead of a delimiter where seven are written.
  `ScannerCodec.FitsExactly` says for every state, accepted or refused, when the writing stays within 1024 bytes:
  exactly when no heredoc that is reached brings the load to 1018, 1019 or 1020. `PassedSizeReached` and
  `RefusedTooLate` are the failing inputs, and `FitsInThreeMore` bounds them all.
- Padding hides NULs in the tail of the longer string, so the padded distances can be below the edit distance
  (`PaddedDistance.HiddenNulBreaksOrder`). `OrderedForTails` says that exactly the tails without NUL are safe;
  `EditHammingManhattan` bounds the excess by the hidden NULs on every pair.
- A file that some tests do not list can count as shared (`CoverageHelper.SharedButNotByAll`);
  `SharedIsCoveredByAll` says exactly when what is removed is what every test covers.
- A function with two records keeps callees that no longer list it (`CallGraph.ListsDiverge`); `ListsMirror` says
  exactly when the two lists mirror each other.

Where the code and its comments differ the model follows the code: `clusterDelNodeSlots` says that it returns the
number of deleted slots but counts every loop turn, so its return value is not modelled. The comment on
`clusterHandleConfigEpochCollision` argues that resolution ends because the greatest name never moves; the bound
proved here is sharper, one move for each greater name, and the epochs then differ after all but that many rounds.

## Model

| member | source | states |
|---|---|---|
| SizeClasses.AdjustSizeIsLeastFit | parser/tree-sitter-c/examples/malloc.c:208-222 | the rounded size is the least positive multiple of 32 with room for request and header, and exists exactly up to the ptrdiff_t limit; a zero request gets the smallest chunk; exactly requests above 229360 bytes pass the mmap threshold |
| SizeClasses.BinTabAt | parser/tree-sitter-c/examples/malloc.c:114-119 | the 60-entry table equals its closed form of runs of doubling length |
| SizeClasses.BinIndexByTable | parser/tree-sitter-c/examples/malloc.c:121-137 | bin_index equals the table lookups of the source on every size, including sizes below the alignment that wrap around, and bin_index_up on every size malloc asks it for, from the alignment to the mmap threshold |
| SizeClasses.BinIndexMonotone | parser/tree-sitter-c/examples/malloc.c:121-128 | a larger size never has a smaller bin |
| SizeClasses.BinIndexUpFits | parser/tree-sitter-c/examples/malloc.c:130-137 | any chunk in a bin at or above bin_index_up(n) has at least n bytes, up to the mmap threshold |
| SizeClasses.PretrimRemainder | parser/tree-sitter-c/examples/malloc.c:272-286 | pretrim succeeds only with a non-empty remainder that belongs in the same bin, and the chunk is never smaller than the request |
| BoundaryTags.AbsorbTiled | parser/tree-sitter-c/examples/malloc.c:471-511 | joining neighbouring chunks keeps the regions tiled with agreeing headers and footers |
| BoundaryTags.AbsorbCoalesced | parser/tree-sitter-c/examples/malloc.c:471-511 | a free chunk whose neighbours are in use leaves no two free chunks adjacent |
| BoundaryTags.CarveTiled | parser/tree-sitter-c/examples/malloc.c:288-318 | splitting a chunk keeps the regions tiled |
| BoundaryTags.AddRegionTiled | parser/tree-sitter-c/examples/malloc.c:178-206 | a new region with its two sentinel words keeps the tiling |
| BoundaryTags.ExtendTiled | parser/tree-sitter-c/examples/malloc.c:178-206 | growing the newest region keeps the tiling |
| BoundaryTags.AbsorbBytes | parser/tree-sitter-c/examples/malloc.c:490-511 | joining a stretch of chunks loses no byte and gains none |
| BoundaryTags.CarveBytes | parser/tree-sitter-c/examples/malloc.c:288-318 | neither does splitting one |
| FreeLists.Unlinked | parser/tree-sitter-c/examples/malloc.c:224-232 | the two link writes of unbin take exactly one chunk out of a circular doubly linked bin |
| FreeLists.Appended | parser/tree-sitter-c/examples/malloc.c:514-517 | the four link writes of free put the chunk at the tail of its bin |
| FreeLists.Replaced | parser/tree-sitter-c/examples/malloc.c:291-294 | the link writes of pretrim put the remainder in the place of the head |
| HeapShape.TakenOut | parser/tree-sitter-c/examples/malloc.c:224-232 | taking a chunk out of a bin keeps the order of the others |
| HeapShape.PutLast | parser/tree-sitter-c/examples/malloc.c:514-517 | filing a chunk at the tail keeps the order of the others |
| HeapShape.UnbinCore | parser/tree-sitter-c/examples/malloc.c:224-232 | unbin keeps all heap invariants and the order of the other free chunks; the binmap bit goes exactly when the bin becomes empty |
| HeapShape.FreeCore | parser/tree-sitter-c/examples/malloc.c:471-517 | marking a merged stretch free and binning it keeps all heap invariants, all bytes and the order of the other free chunks |
| HeapShape.PretrimCore | parser/tree-sitter-c/examples/malloc.c:286-300 | the in-place split of a bin head keeps all heap invariants, all bytes and the order of the other free chunks |
| HeapShape.SplitCore | parser/tree-sitter-c/examples/malloc.c:302-318 | the split of trim keeps all heap invariants and all bytes |
| HeapShape.RegionCore | parser/tree-sitter-c/examples/malloc.c:178-206 | adding a region keeps all heap invariants and adds exactly its bytes |
| HeapShape.ExtendCore | parser/tree-sitter-c/examples/malloc.c:178-206 | extending the newest region keeps all heap invariants and adds exactly the new bytes |
| MuslMalloc.Heap.constructor | parser/tree-sitter-c/examples/malloc.c:39-56 | the empty heap is valid |
| MuslMalloc.Heap.Unbin | parser/tree-sitter-c/examples/malloc.c:224-232 | takes one free chunk, and changes no other chunk |
| MuslMalloc.Heap.AllocFwd | parser/tree-sitter-c/examples/malloc.c:234-249 | takes a chunk exactly when it is free |
| MuslMalloc.Heap.AllocRev | parser/tree-sitter-c/examples/malloc.c:251-266 | takes the chunk before exactly when it is free |
| MuslMalloc.Heap.Bin | parser/tree-sitter-c/examples/malloc.c:507-517 | the stretch becomes one free chunk, filed last in the bin for its size |
| MuslMalloc.Heap.MergeBack | parser/tree-sitter-c/examples/malloc.c:490-496 | the stretch grows by the chunk before it exactly when that chunk is free |
| MuslMalloc.Heap.MergeForward | parser/tree-sitter-c/examples/malloc.c:498-504 | the stretch grows by the chunk after it exactly when that chunk is free |
| MuslMalloc.Heap.Merge | parser/tree-sitter-c/examples/malloc.c:490-504 | one round of merging with the free chunks on both sides shrinks the set of free chunks, so free ends |
| MuslMalloc.Heap.Release | parser/tree-sitter-c/examples/malloc.c:451-532 | exactly the given chunk stops being in use; all other used chunks keep place and size; it ends in a free chunk that is filed last in its bin, the other free chunks keep their order, and no byte is lost or gained |
| MuslMalloc.Heap.Free | parser/tree-sitter-c/examples/malloc.c:451-532 | exactly that block stops being live and the heap stays valid; its chunk is filed last, so chunks leave a bin in the order they came; no byte is lost or gained; null changes nothing |
| MuslMalloc.Heap.Trim | parser/tree-sitter-c/examples/malloc.c:302-318 | the chunk ends at exactly the wanted size, the rest goes back, nothing underflows |
| MuslMalloc.Heap.Pretrim | parser/tree-sitter-c/examples/malloc.c:272-300 | splits in place if and only if the bin is 40 or above, three bins above the ideal one or the last with more than the threshold left, and the rest stays in the bin; then the head is used with exactly n bytes and the rest is the head; on refusal nothing changes; the chunk was large enough either way |
| MuslMalloc.Heap.FirstSet | parser/tree-sitter-c/examples/malloc.c:340-352 | the lowest bin with its bit set at or above the start |
| MuslMalloc.Heap.ExpandHeap | parser/tree-sitter-c/examples/malloc.c:162-206 | fresh memory becomes one used chunk of at least n bytes, at the end of the newest region or after the first words of a new one; exactly its bytes are added |
| MuslMalloc.Heap.JoinBack | parser/tree-sitter-c/examples/malloc.c:344-349 | the fresh chunk is joined with the chunk before it exactly when that one is free |
| MuslMalloc.Heap.Join | parser/tree-sitter-c/examples/malloc.c:346-348 | a stretch of used chunks becomes one used chunk of their joint size |
| MuslMalloc.Heap.FromBin | parser/tree-sitter-c/examples/malloc.c:352-358 | takes the head of the bin, which is large enough, and leaves the rest of it at the head exactly where it was split in place |
| MuslMalloc.Heap.FromFresh | parser/tree-sitter-c/examples/malloc.c:342-351 | takes fresh memory together with a free chunk before it; fails exactly when none is granted |
| MuslMalloc.Heap.Obtain | parser/tree-sitter-c/examples/malloc.c:338-363 | one pass over the bins suffices: the chunk is the head of the lowest usable bin, else the one that fresh memory leads to; fails exactly when no usable bin is set and no memory is granted; the heap grows by exactly the granted bytes |
| MuslMalloc.Heap.Malloc | parser/tree-sitter-c/examples/malloc.c:320-367 | a new live block whose chunk has exactly the rounded size and starts where the head of the lowest usable bin did, else where fresh memory leads; all other live blocks unmoved; no byte lost, none gained but granted ones; free chunks keep their order but for the rest of a split; the exact failure condition |
| MuslMalloc.LiveBlocksDisjoint | parser/tree-sitter-c/examples/malloc.c:320-367 | no byte of a live block is in another live block, in a header word or in a link field of a free chunk |
| ClusterEpochs.EpochsBounded | parser/tree-sitter-c/examples/cluster.c:1668-1677 | in every state of every run no configEpoch in a table or in flight exceeds the currentEpoch beside it |
| ClusterEpochs.MaxEpochBounds | parser/tree-sitter-c/examples/cluster.c:946-959 | the maximum over the table is the highest epoch known: it bounds the own epoch and every entry, and is one of them |
| ClusterEpochs.BumpIsFresh | parser/tree-sitter-c/examples/cluster.c:990-1007 | the maximum equals currentEpoch; a bump is skipped exactly when the node already holds it and it is not zero; otherwise the new epoch is above all known ones |
| ClusterEpochs.CollideIsFresh | parser/tree-sitter-c/examples/cluster.c:1055-1070 | a collision step happens exactly for the smaller name at an equal epoch, and its epoch is above all known ones |
| ClusterVotes.GrantEpoch | parser/tree-sitter-c/examples/cluster.c:2594-2694 | a grant is for the request's own epoch, beyond every earlier vote of the voter |
| ClusterVotes.VoteOncePerEpoch | parser/tree-sitter-c/examples/cluster.c:2594-2694 | over any run no master grants two votes in one epoch |
| ClusterVotes.AckOrigin | parser/tree-sitter-c/examples/cluster.c:2568-2580 | a vote in flight was just granted, or was in flight before and not taken |
| ClusterVotes.AttemptKept | parser/tree-sitter-c/examples/cluster.c:2895-2997 | only its own scheduling, request and counted votes change a node's attempt |
| ClusterVotes.NoSecondAck | parser/tree-sitter-c/examples/cluster.c:1997-2009 | in any run, a voter already counted has no second vote for that attempt in flight |
| ClusterVotes.ElectionsOk | parser/tree-sitter-c/examples/cluster.c:1997-2009 | in every state of every run each count, and each count that won, is the number of distinct voters that voted for the node in its epoch plus the votes it counted between the reset and its request |
| ClusterVotes.GenuineCount | parser/tree-sitter-c/examples/cluster.c:2901-2978 | a winning count is the number of distinct voters of its epoch if and only if no early vote is in it, and then at most the number of nodes that voted for the winner in that epoch |
| ClusterVotes.AgreedVoters | parser/tree-sitter-c/examples/cluster.c:2977-2993 | with agreed voters, backers are voters of the epoch and every win is a majority of them with its early votes |
| ClusterVotes.MajoritiesMeet | parser/tree-sitter-c/examples/cluster.c:2977-2993 | two majorities of one voter set share a voter |
| ClusterVotes.NoTwoMajorities | parser/tree-sitter-c/examples/cluster.c:2594-2694 | in any run at all, no two candidates hold grants of size/2+1 voters of one set in one epoch |
| ClusterVotes.OneWinnerPerEpoch | parser/tree-sitter-c/examples/cluster.c:2832-2997 | in any run with agreed voters, two winners of one epoch hold early votes between them: at least one for an odd number of voters, at least two for an even number |
| ClusterVotes.OneWinnerInFairRuns | parser/tree-sitter-c/examples/cluster.c:2832-2997 | if no vote is counted between the reset of a count and the new epoch, no two nodes pass the quorum check with the same election epoch |
| ClusterRules.VotesAsRuled | parser/tree-sitter-c/examples/cluster.c:2594-2694 | a vote is granted if and only if a known slave of a failed master, or one that fails over by hand, asks a master with slots in an epoch it has neither passed nor voted in, with an epoch not below that of the owner of any slot it claims |
| ClusterRules.AttemptAsRuled | parser/tree-sitter-c/examples/cluster.c:1997-2009 | an attempt is reset by its scheduling, takes the next epoch on asking, and counts a vote if and only if it comes from a known master with slots and is not older than the attempt; lastVoteEpoch becomes the epoch of a granted request and changes by nothing else |
| ClusterRules.CurrentAsRuled | parser/tree-sitter-c/examples/cluster.c:1666-1678 | currentEpoch is the greatest that was heard, plus one for each epoch the node makes itself: on asking for votes, on a bump unless it holds the greatest, on a collision |
| ClusterRules.EntryAsRuled | parser/tree-sitter-c/examples/cluster.c:1666-1678 | the epoch kept for a node is the greatest that it, an UPDATE about it or a won election says, except for the new epochs a node makes for itself, an epoch set by hand and forgetting |
| ClusterRules.RoleAsRuled | parser/tree-sitter-c/examples/cluster.c:1837-1869 | a role is what its holder last announced, and a winner is a master |
| ClusterRules.SlotsAsRuled | parser/tree-sitter-c/examples/cluster.c:2794-2829 | of the steps of a node only winning moves slots: exactly those of its master come to it |
| ClusterRules.PacketsAsRuled | parser/tree-sitter-c/examples/cluster.c:2190-2262 | each packet is sent once and leaves the bus once; it tells the epochs of its sender, and the slots and configEpoch of its master where it has one; a request goes to every other node, a vote to the node voted for |
| ClusterRules.FailoverExactly | parser/tree-sitter-c/examples/cluster.c:2854-2997 | an attempt may be scheduled, started or won if and only if the node is a slave whose master has slots and failed, or fails over by hand; votes are asked for once, and more than half of the cluster must have voted |
| ClusterRules.SetByHandExactly | parser/tree-sitter-c/examples/cluster.c:4552-4559 | an epoch may be set by hand if and only if the node knows no other node and has epoch zero |
| ClusterRules.RunsObey | parser/tree-sitter-c/examples/cluster.c:1594-2042 | every step of every run keeps all these rules at every node |
| ClusterRules.WinnerTakesOver | parser/tree-sitter-c/examples/cluster.c:2977-2993 | in any run a winner becomes a master with its master's slots, at the epoch of the election unless it is at a greater one |
| ClusterRules.OwnNeverFalls | parser/tree-sitter-c/examples/cluster.c:4536-4571 | over any run the configEpoch a node has for itself never falls |
| ClusterStaleVote.StaleVotesGiveTwoWinners | parser/tree-sitter-c/examples/cluster.c:2895-2997 | for every positive number n of agreed voters a run in which exactly 2 - n mod 2 steps count an early vote, and two nodes win one epoch, one of them without early votes |
| ClusterStaleVote.BoundIsExact | parser/tree-sitter-c/examples/cluster.c:2832-2997 | for n agreed voters, fewer than b early votes leave one winner of an epoch in every run if and only if b is at most 2 - n mod 2 |
| ClusterCollisions.CalmOwn | parser/tree-sitter-c/examples/cluster.c:1943-1948 | in a run of packets and views among masters, a master's own epoch changes only on hearing that epoch from a greater name, and then grows |
| ClusterCollisions.PingsAreClaims | parser/tree-sitter-c/examples/cluster.c:2190-2262 | from any start among masters, with updates that report epochs that were reached: every packet, however stale, carries an epoch that its sender has claimed |
| ClusterCollisions.LeftBehind | parser/tree-sitter-c/examples/cluster.c:1055-1070 | from any start among masters, with updates that report epochs that were reached: every epoch a master has left was claimed by a master of greater name |
| ClusterCollisions.MovesBounded | parser/tree-sitter-c/examples/cluster.c:1055-1070 | from any start among masters, with updates that report epochs that were reached: a master with g greater names moves at most g times (which is at most 2^g - 1) |
| ClusterCollisions.ResolutionStops | parser/tree-sitter-c/examples/cluster.c:1015-1070 | from any start among masters, with updates that report epochs that were reached: n masters move at most n(n-1)/2 times in all |
| ClusterCollisions.SettledMeansDistinct | parser/tree-sitter-c/examples/cluster.c:1015-1070 | when all have heard all present epochs, no delivery moves anyone if and only if all epochs differ |
| ClusterSettling.PingMoves | parser/tree-sitter-c/examples/cluster.c:1943-1948 | the present header of a greater name at its own epoch moves a master if and only if its table is not ahead of that name |
| ClusterSettling.StillRoundSettles | parser/tree-sitter-c/examples/cluster.c:1943-1948 | a round in which every master hears, with a table not ahead of it, the present epoch of every greater name, and no one moves, ends with all epochs different |
| ClusterSettling.RoundsSettle | parser/tree-sitter-c/examples/cluster.c:1015-1070 | in any such run, however stale the packets beside them, all but n(n-1)/2 of the full rounds end with all epochs different |
| ClusterSettling.SettlesInTime | parser/tree-sitter-c/examples/cluster.c:1015-1070 | more than n(n-1)/2 full rounds pass through a state with all epochs different |
| ClusterSettling.NotAheadRun | parser/tree-sitter-c/examples/cluster.c:2021-2042 | from a start among masters in which no table is ahead, every update reports an epoch that was reached and no table is ever ahead, so all of the above applies |
| ClusterAhead.UntruthfulUpdateMovesTwice | parser/tree-sitter-c/examples/cluster.c:2021-2042 | a run of two masters in which an update reports an epoch that was not reached, and the one with one greater name moves twice |
| ClusterAhead.AheadTableStaysPut | parser/tree-sitter-c/examples/cluster.c:1943-1948 | a run in which a master with a table ahead hears the present header of a greater name at its epoch, and no one moves |
| SlotBitmap.SetBitTest | parser/tree-sitter-c/examples/cluster.c:3499-3510 | setting a bit changes that bit of the map and no other |
| SlotBitmap.ClearBitTest | parser/tree-sitter-c/examples/cluster.c:3499-3517 | clearing a bit changes that bit of the map and no other |
| SlotBitmap.MaskValue | parser/tree-sitter-c/examples/cluster.c:3499-3510 | the masks of the eight bits of a byte are 1, 2, 4, 8, 16, 32, 64 and 128 |
| SlotBitmap.BitmapExt | parser/tree-sitter-c/examples/cluster.c:3499-3503 | bitmaps of one size with the same bits are equal byte for byte |
| ClusterSlots.CountFollowsBits | parser/tree-sitter-c/examples/cluster.c:3537-3570 | setting or clearing a slot bit, set before or not, keeps the count equal to the number of set bits |
| ClusterSlots.AddKeepsTable | parser/tree-sitter-c/examples/cluster.c:3537-3583 | assigning a free slot keeps owners, bits and counts in agreement |
| ClusterSlots.DelKeepsTable | parser/tree-sitter-c/examples/cluster.c:3562-3596 | unassigning keeps the agreement, and the asserted bit is set before |
| ClusterSlots.RecordsDetermined | parser/tree-sitter-c/examples/cluster.c:3537-3596 | the owner table determines every bitmap and count |
| ClusterSlots.HandedConserves | parser/tree-sitter-c/examples/cluster.c:2794-2829 | a takeover gives the heir both slot sets, leaves the old owner none, and touches no other node and no unassigned slot |
| ClusterSlots.ReboundOwners | parser/tree-sitter-c/examples/cluster.c:1529-1566 | each claimed slot ends with the sender or an owner of at least the claimed epoch, no other slot changes, and no owner epoch falls when the sender is known at the claimed epoch |
| ClusterSlots.Cluster.AddSlot | parser/tree-sitter-c/examples/cluster.c:3578-3583 | succeeds exactly on a free slot and changes only that slot |
| ClusterSlots.Cluster.DelSlot | parser/tree-sitter-c/examples/cluster.c:3588-3596 | succeeds exactly on an assigned slot; its assertion holds |
| ClusterSlots.Cluster.Rebind | parser/tree-sitter-c/examples/cluster.c:1559-1560 | delete then add moves one slot to the node |
| ClusterSlots.Cluster.DelNodeSlots | parser/tree-sitter-c/examples/cluster.c:3599-3607 | unassigns exactly the node's slots, although the scan reads the bitmap it is clearing |
| ClusterSlots.Cluster.DelNode | parser/tree-sitter-c/examples/cluster.c:883-911 | the node's slots, migrations and imports are gone, its slaves have no master, all else is as before |
| ClusterSlots.Cluster.ReplaceYourMaster | parser/tree-sitter-c/examples/cluster.c:2794-2829 | a promoted slave takes exactly its master's slots; a master, or a slave without one, changes nothing |
| ClusterSlots.Cluster.TakeClaim | parser/tree-sitter-c/examples/cluster.c:1529-1566 | a claimed slot goes to the sender if and only if it is not its own, not being imported, and has no owner or one of a smaller epoch |
| ClusterSlots.Cluster.RebindClaimed | parser/tree-sitter-c/examples/cluster.c:1506-1566 | the scan rebinds exactly the newer claims and reports the lost slots with keys, and whether the node lost a slot itself, or its master did where it is a slave |
| ClusterSlots.Cluster.SetMaster | parser/tree-sitter-c/examples/cluster.c:3798-3814 | this node becomes a slave; a former master drops all migrations and imports |
| ClusterSlots.Cluster.UpdateSlotsConfigWith | parser/tree-sitter-c/examples/cluster.c:1506-1594 | the whole update: rebound owners; the node becomes a replica of the sender if and only if it, or its master where it is a slave, lost a slot and has none left, and the assertion holds, which it does if and only if the node then serves no slot; a demoted node keeps its keys, any other loses exactly those of the slots it lost; migrations and imports are dropped exactly by a master that is demoted; if no slave served a slot before and the sender is a master, none does after and the assertion holds |
| ClusterSlots.Cluster.SlaveTakesSlot | parser/tree-sitter-c/examples/cluster.c:4113-4159 | ADDSLOTS on a slave leaves a slave that serves a slot |
| ClusterSlots.Cluster.CheckSlots | parser/tree-sitter-c/examples/cluster.c:4113-4140 | accepts exactly distinct in-range slots in the state the command needs |
| ClusterSlots.Cluster.AddDelSlots | parser/tree-sitter-c/examples/cluster.c:4113-4159 | all named slots change or nothing does; the assertion on each change holds |
| ClusterSlots.Cluster.GetMaxEpoch | parser/tree-sitter-c/examples/cluster.c:946-959 | the loop over the node table finds the highest known epoch, in the sense of `MaxEpochBounds` |
| ClusterSlots.Cluster.BumpConfigEpoch | parser/tree-sitter-c/examples/cluster.c:990-1007 | bumps exactly when the own epoch is zero or some known epoch is above it, and then to the next currentEpoch |
| ClusterSlots.Cluster.SetSlotNode | parser/tree-sitter-c/examples/cluster.c:4205-4251 | SETSLOT NODE: the exact refusals; else the slot changes owner, its migration mark ends if no keys remain, its import mark ends and the epoch follows the bump rule if it comes here, and no other node's epoch or role changes |
| ClusterSlots.Cluster.Execute | parser/tree-sitter-c/examples/cluster.c:3578-3607 | what each command, and each received claim, leaves as the owners of all slots |
| ClusterSlots.Cluster.Run | parser/tree-sitter-c/examples/cluster.c:3499-3607 | after any sequence of slot commands and received claims every bit and count agrees with the owner table |
| SlotRanges.ReadShow | parser/tree-sitter-c/examples/cluster.c:231-266 | a printed range, or single slot, reads back as written |
| SlotRanges.ReadAs | parser/tree-sitter-c/examples/cluster.c:257-263 | any token: without a dash a single slot, else the first dash parts start from stop, and each is the number its text begins with |
| SlotRanges.ShownAs | parser/tree-sitter-c/examples/cluster.c:3893-3897 | a single slot is written as its number, more as two numbers with a dash between them, without leading zeros |
| SlotRanges.PrintRanges | parser/tree-sitter-c/examples/cluster.c:3883-3901 | for any number of slots the printer emits ascending disjoint maximal ranges covering exactly the owned slots |
| SlotRanges.DescriptionUnique | parser/tree-sitter-c/examples/cluster.c:3883-3901 | there is only one such list of ranges |
| SlotRanges.LoadNode | parser/tree-sitter-c/examples/cluster.c:231-266 | loading a line assigns exactly its free slots, and fails exactly when a range reaches past the last slot; marks of moving slots assign nothing |
| SlotRanges.SaveLine | parser/tree-sitter-c/examples/cluster.c:3855-3901 | a node's line names exactly its slots |
| SlotRanges.SaveAndLoad | parser/tree-sitter-c/examples/cluster.c:231-266 | writing all lines and loading them in any order rebuilds the same owners, bitmaps and counts |
| GreedyCover.OrderPermutes | liebes/coverage_ana.py:135-161 | the greedy order is a permutation |
| GreedyCover.BestPick | liebes/coverage_ana.py:135-161 | each pick gains at least what any test at all would gain there |
| GreedyCover.GainsNeverIncrease | liebes/coverage_ana.py:135-161 | marginal gains never increase |
| GreedyCover.GreedyShare | liebes/coverage_ana.py:135-161 | the first k tests cover at least 1-(1-1/k)^k of what any k tests cover |
| GreedyCover.GreedyHalf | liebes/coverage_ana.py:135-161 | for every k that share is at least one half |
| GreedyCover.OrderIgnoresCommon | liebes/coverage_ana.py:22-41 | taking lines shared by all tests out of every test leaves the greedy order unchanged, ties included |
| StableOrder.SortedOk | liebes/coverage_ana.py:102-115 | the sorted order is a descending permutation that keeps ties in place |
| StableOrder.LevelHolds | liebes/coverage_ana.py:102-115 | the ties that are kept in place are all elements of one count, each as often as it was given |
| StableOrder.SameComparisonsSameOrder | liebes/coverage_ana.py:102-115 | keys that compare alike sort alike |
| CoverageHelper.GetAdditionalCov | liebes/coverage_ana.py:117-125 | on all inputs the size of the set it counts; at least the number of new lines, and equal to it if and only if no list counted by its length repeats a line |
| CoverageHelper.CombineCov | liebes/coverage_ana.py:127-133 | the result covers exactly the union |
| CoverageHelper.CommonLines | liebes/coverage_ana.py:22-35 | the narrowed map holds exactly the shared lines, and no file without one |
| CoverageHelper.SharedIsCoveredByAll | liebes/coverage_ana.py:22-41 | the shared lines are those every test covers if and only if no file missing in some test holds a line shared by the rest; so whenever all tests list the same files |
| CoverageHelper.SharedButNotByAll | liebes/coverage_ana.py:29-33 | a file that only the first test lists is removed though the other does not cover it |
| CoverageHelper.Helper.CompareTwoCoverages | liebes/coverage_ana.py:76-100 | none for an unknown test, else the two exact differences |
| CoverageHelper.Helper.MostCov | liebes/coverage_ana.py:149-155 | on all inputs the first candidate of the greatest count |
| CoverageHelper.ScanOrderClean | liebes/coverage_ana.py:135-161 | without repeated lines the order of the scans is the greedy order of the line sets |
| CoverageHelper.Helper.AdditionalCov | liebes/coverage_ana.py:135-161 | on all inputs the order of the scans and a permutation; the greedy order whenever no list repeats a line |
| CoverageHelper.Helper.TotalCov | liebes/coverage_ana.py:102-115 | on all inputs sorted stably by the entries of the lists, and so by the covered lines when no list repeats one |
| CoverageHelper.Helper.RemoveCommon | liebes/coverage_ana.py:22-41 | each test loses exactly the shared lines |
| CoverageHelper.RemovalKeepsDifferences | liebes/coverage_ana.py:22-100 | the difference of any two tests survives the removal |
| CoverageHelper.RemovalKeepsOrders | liebes/coverage_ana.py:22-161 | the total order and the additional order survive the removal, ties included |
| EditDistance.ComputeDistance | liebes/tcp_approach/metric_manager.py:57-73 | the filled table ends with the value of the recurrence |
| EditDistance.FullRecurrence | liebes/tcp_approach/metric_manager.py:67-71 | taking the diagonal on equal characters without comparing loses nothing against the three-way minimum |
| EditDistance.DistanceIsShortest | liebes/tcp_approach/metric_manager.py:57-73 | there is a script of that many insertions, deletions and substitutions, and none shorter |
| EditDistance.ScriptsAreLonger | liebes/tcp_approach/metric_manager.py:57-73 | no edit script is shorter than the distance |
| EditDistance.ShortScript | liebes/tcp_approach/metric_manager.py:57-73 | a script exactly as long as the distance |
| EditDistance.Symmetric | liebes/tcp_approach/metric_manager.py:57-73 | the distance is symmetric |
| EditDistance.ZeroMeansEqual | liebes/tcp_approach/metric_manager.py:57-73 | it is zero if and only if the strings are equal |
| EditDistance.Triangle | liebes/tcp_approach/metric_manager.py:57-73 | the triangle inequality |
| PaddedDistance.HammingDistance | liebes/tcp_approach/metric_manager.py:75-85 | the loop counts the differing positions of the padded strings |
| PaddedDistance.ManhattanDistance | liebes/tcp_approach/metric_manager.py:43-55 | the loop sums the code-point gaps of the padded strings |
| PaddedDistance.DistancesCount | liebes/tcp_approach/metric_manager.py:43-85 | Hamming is the number of positions at which the strings padded with zeros differ, Manhattan the number of code points between them at all positions |
| PaddedDistance.EditHammingManhattan | liebes/tcp_approach/metric_manager.py:43-85 | on all strings edit is at most Hamming plus the NULs hidden by padding, and Hamming at most Manhattan |
| PaddedDistance.Ordered | liebes/tcp_approach/metric_manager.py:43-85 | edit <= Hamming <= Manhattan when the longer tail has no NUL |
| PaddedDistance.OrderedForTails | liebes/tcp_approach/metric_manager.py:57-85 | for a tail u: edit is at most Hamming on all pairs in which one string runs on by u, if and only if u has no NUL |
| PaddedDistance.HiddenNulBreaksOrder | liebes/tcp_approach/metric_manager.py:75-85 | one NUL against the empty string has edit distance 1 and padded distances 0 |
| PaddedDistance.ZeroMeansEqualPadded | liebes/tcp_approach/metric_manager.py:43-85 | the padded distances are zero exactly on strings equal up to trailing NULs |
| PaddedDistance.PaddedTriangle | liebes/tcp_approach/metric_manager.py:43-85 | both padded distances obey the triangle inequality |
| DistanceMap.GetDistanceMap | liebes/tcp_approach/adaptive_random_prior.py:138-176 | the table has an entry exactly for each pair of present tests, holding the measurement taken in the order in which the two first occur in the list |
| DistanceMap.LookupSymmetric | liebes/tcp_approach/adaptive_random_prior.py:212-216 | the looked-up distance is symmetric on all names even for an asymmetric measurement; it is the measurement on pairs in the table and 10000 elsewhere |
| AdaptiveRandom.Sample | topic_main.py:32-33 | any k distinct elements |
| AdaptiveRandom.Farthest | topic_main.py:34-46 | the first candidate whose least distance to the chosen tests is greatest |
| AdaptiveRandom.ARP | topic_main.py:20-53 | for every random outcome a permutation in which each pick is farthest within a sample of the right size; fails exactly on no test, or on a second test with an empty sample |
| AdaptiveRandom.FullSamplesAreFarthestFirst | liebes/tcp_approach/adaptive_random_prior.py:183-231 | with samples as large as what remains each pick is farthest of all |
| AdaptiveRandom.DistancesShrink | liebes/tcp_approach/adaptive_random_prior.py:183-231 | the distances of the picks to their prefixes never increase |
| AdaptiveRandom.TwiceOptimal | liebes/tcp_approach/adaptive_random_prior.py:183-231 | if any m centres are within r of all tests, the m-prefix is within 2r of all tests |
| SpreadOrder.SeenIsMetric | liebes/tcp_approach/adaptive_random_prior.py:138-215 | with every test present, the distances read from the table are symmetric and obey the triangle inequality, for edit, Hamming and Manhattan |
| SpreadOrder.SpreadIsTwiceOptimal | liebes/tcp_approach/adaptive_random_prior.py:138-231 | table, lookup and order together: the first k tests are within twice the best radius of any k tests |
| CallGraph.CallGraph.GetOrCreate | liebes/CallGraph.py:36-42 | afterwards the name has a node, no existing node changes, and a new one has no edges and no file |
| CallGraph.CallGraph.LoadFromSource | liebes/CallGraph.py:10-34 | loading records ends in the specified graph, and every edge leads to a node |
| CallGraph.LoadedEdges | liebes/CallGraph.py:10-34 | callers are those of a function's last record, callees those of all records |
| CallGraph.LoadedNodes | liebes/CallGraph.py:10-42 | the nodes are the functions named in any record, each with the file of its own last record |
| CallGraph.ListsMirror | liebes/CallGraph.py:10-34 | the two lists mirror each other if and only if no earlier record names a caller that the last one leaves out |
| CallGraph.ListsDiverge | liebes/CallGraph.py:29-34 | two records of one function leave a callee that does not list its caller |
| CallGraph.SearchDone | liebes/CallGraph.py:185-200 | when the stack is empty the visited set is exactly what the root reaches |
| CallGraph.CallGraph.GetGroundFunc | liebes/CallGraph.py:153-168 | on any graph, cycles included: exactly the reachable leaves; an error exactly on a missing root |
| CallGraph.CallGraph.GetTopFunc | liebes/CallGraph.py:175-183 | exactly the functions whose file path contains the text and that no function lists |
| CallGraph.CallGraph.GetAllCall | liebes/CallGraph.py:185-200 | exactly what the root reaches; nothing for no root or a missing one |
| CallGraph.CallGraph.GetSyscall | liebes/Glibc_CG.py:147-163 | exactly the system calls the root reaches |
| RelatedMethods.GetUsedSyscalls | liebes/tcp_approach/cg_based.py:75-100 | exactly the system calls reachable from a leaf reachable from a top function; an error exactly for a self test without main |
| RelatedMethods.GetRelatedMethods | liebes/tcp_approach/cg_based.py:103-110 | exactly the kernel functions reachable from the handler of such a system call |
| CallRecords.LoadedReach | liebes/CallGraph.py:10-42 | in a loaded graph one function reaches another if and only if the last records lead from it to the other |
| CallRecords.LoadedTop | liebes/CallGraph.py:175-183 | its top functions are those whose last record is of such a file and that no record lists |
| CallRecords.TopFromRecords | liebes/CallGraph.py:175-183 | loading records and asking for the top functions gives exactly those |
| CallRecords.LoadedUses | liebes/tcp_approach/cg_based.py:75-100 | the system calls of a test, in terms of its records |
| CallRecords.RelatedFromRecords | liebes/tcp_approach/cg_based.py:75-110 | from the records of test and kernel: exactly the kernel functions that the records lead to from the handler of a system call reached from a leaf below a top function of the test; an error exactly for a self test whose records do not name main |
| AdditionalStrategy.BestIsFirst | liebes/tcp_approach/cg_based.py:204-210 | the choice has the greatest gain and every earlier test has less |
| AdditionalStrategy.Ranker.Scan | liebes/tcp_approach/cg_based.py:201-210 | the scan finds that choice and its gain |
| AdditionalStrategy.Ranker.PickNext | liebes/tcp_approach/cg_based.py:200-218 | one round picks it, resets or extends the covered set, and removes the first test of that name, which is the one chosen |
| AdditionalStrategy.Ranker.AdditionalStrategy | liebes/tcp_approach/cg_based.py:187-220 | the returned positions are those of the picks by what each test relates to; the list is emptied and the cache holds that relation for the tests and is otherwise as before |
| StrategyLaws.PicksPermute | liebes/tcp_approach/cg_based.py:187-220 | the picked names are a permutation of the tests |
| StrategyLaws.PermutationIffDistinct | liebes/tcp_approach/cg_based.py:187-220 | the returned positions are a permutation if and only if no name occurs twice |
| StrategyLaws.PicksGreedy | liebes/tcp_approach/cg_based.py:200-217 | each pick gains at least what any later pick would have gained in its place |
| StrategyLaws.CoveredIsUnion | liebes/tcp_approach/cg_based.py:212-215 | the covered set is the union of the functions of the tests picked since the last reset |
| StrategyLaws.GainsNeverIncrease | liebes/tcp_approach/cg_based.py:200-217 | between resets gains are positive and never increase |
| StrategyLaws.ResetWhenAllCovered | liebes/tcp_approach/cg_based.py:212-213 | a reset happens if and only if every remaining test's functions are covered |
| StrategyLaws.PicksAreGreedy | liebes/tcp_approach/cg_based.py:200-217 | until a pick adds nothing, the picks are those of the plain greedy order |
| StrategyLaws.ShareBeforeReset | liebes/tcp_approach/cg_based.py:200-217 | up to and with the first reset, the first k picks cover at least 1-(1-1/k)^k of what any k tests relate to |
| StrategyPlan.Prioritise | liebes/tcp_approach/cg_based.py:187-220 | by tests, relation and result alone: each pick adds, to the union since the last pick that added nothing, more than every later pick would, or as much and stands earlier in the list; the result holds the last position of each picked name |
| StrategyPlan.OrderFollowsPlan | liebes/tcp_approach/cg_based.py:187-220 | the same of any result the picks allow |
| StrategyPlan.OneOrder | liebes/tcp_approach/cg_based.py:187-220 | only one sequence of picks, and so only one result, has that property |
| StrategyPlan.OrderShare | liebes/tcp_approach/cg_based.py:200-217 | as long as every pick but the last adds to those before it, the first k returned tests relate to at least 1-(1-1/k)^k of what any k tests relate to |
| ScannerCodec.WordRoundTrip | parser/tree-sitter-bash/src/scanner.c:190-191 | four bytes hold any 32-bit length |
| ScannerCodec.EncodedAs | parser/tree-sitter-bash/src/scanner.c:186-193 | the bytes of a heredoc: three flags of zero or one, the length in four bytes from the least significant on, the delimiter |
| ScannerCodec.DecodeEncode | parser/tree-sitter-bash/src/scanner.c:173-229 | decoding the encoding gives all heredocs back and uses every byte |
| ScannerCodec.PassedSize | parser/tree-sitter-bash/src/scanner.c:179-184 | what passes the guard takes at most 1027 bytes and at most 146 heredocs, so the count byte never wraps |
| ScannerCodec.PassedSizeReached | parser/tree-sitter-bash/src/scanner.c:179-184 | a delimiter of 1018 bytes reaches the bound and is accepted |
| ScannerCodec.FitsInThreeMore | parser/tree-sitter-bash/src/scanner.c:173-196 | 1027 bytes hold whatever is written |
| ScannerCodec.FitsExactly | parser/tree-sitter-bash/src/scanner.c:173-196 | for every state: all that is written, also ahead of a refused heredoc, stays within 1024 bytes if and only if no heredoc that is reached has a load of 1018 to 1020 |
| ScannerCodec.RefusedTooLate | parser/tree-sitter-bash/src/scanner.c:179-195 | a state that is refused after more than 1024 bytes are written |
| ScannerCodec.Scanner.Serialize | parser/tree-sitter-bash/src/scanner.c:173-196 | fails exactly when a byte would go past the end of the buffer; otherwise returns zero exactly when a heredoc fails the guard, else the buffer holds the encoding and its length is returned |
| ScannerCodec.Scanner.Reset | parser/tree-sitter-bash/src/scanner.c:160-171 | all heredocs stay, with flags and delimiters cleared, their leading words and their room kept |
| ScannerCodec.Scanner.Deserialize | parser/tree-sitter-bash/src/scanner.c:198-229 | exactly complete encodings are read; the first heredocs become those read, further ones stay as they were; leading words stay and no delimiter loses room |
| ScannerCodec.RestoredExactly | parser/tree-sitter-bash/src/scanner.c:198-229 | the scanner ends with exactly the saved heredocs if and only if it held no more than were saved |
| ScannerCodec.RoundTrip | parser/tree-sitter-bash/src/scanner.c:173-229 | for every buffer that holds what is written: gives back the glob depth, and the heredocs exactly under that condition; a refused state resets the target |
| Apfd.APFD | liebes/EHelper.py:11-21 | the loop computes the score: one half for no faults or no tests, else the value that m faults in n tests at positions of sum s have by 2mn - 2s + m over 2mn |
| Apfd.LeastPositions | liebes/EHelper.py:14-17 | h fault positions sum to at least h(h+1)/2, with equality if and only if they come first |
| Apfd.ReversePositions | liebes/EHelper.py:14-17 | reversing an order turns the sum s of h positions into h(n+1)-s |
| Apfd.EachHitOnce | liebes/EHelper.py:14-17 | distinct faults in a repeat-free order are each hit once |
| Apfd.ReverseLaw | liebes/EHelper.py:11-21 | the scores of an order and its reverse add up to one if and only if there are as many fault positions as faults |
| Apfd.Range | liebes/EHelper.py:11-21 | for m distinct present faults the score lies between m/2n and 1-m/2n; the upper end is reached exactly when faults come first, the lower exactly when they come last |

## Left out

- Sockets, timers, gossip, pub/sub, key migration, dump and restore, configuration locking and checksums of the cluster: time guards are open step conditions.
- Restart, CLUSTER RESET and reloading of the last vote: the bus theorems are about uninterrupted runs.
- In the bus, a node's view of roles, slots, failures and the voter count changes by Observe steps to any well-formed view, besides what packets and takeovers do; the slot algorithm itself is in `ClusterSlots`.
- 64-bit wrap-around of epochs.
- A sender still in handshake: such a node has a random name, so looking up the sender of a packet does not return it, and the model has no such packets.
- ClusterSlots.Cluster.UpdateSlotsConfigWith: a slave has a recorded master; the source reads the slot count of that master without looking.
- SlotRanges.LoadNode: the migration or import that a token starting with '[' restores is not modelled, nor is writing such tokens, because node names are not text here; numbers have no sign and do not overflow; what the source does after a range passes the last slot is not modelled, the result says that it happens.
- The MIGRATE_TO flag set by clusterNodeSetSlotBit, the return value of clusterDelNodeSlots, and logging.
- The master, replica and link fields of clusterDelNode that do not concern slots, and the recovery work of verifyClusterConfigWithData.
- Locks, atomics and interleavings of the allocator; mmap, mremap, realloc, page reclaim and the disabled de Bruijn branch. A request above the threshold is answered `Mmapped`.
- The allocator's bin map is a set of bin numbers and a header word is a pair of size and flag; bins start linked to themselves rather than on first use, and the loops that retry after another thread's change take one pass.
- MuslMalloc.Heap.Malloc: what the operating system grants is a parameter, any aligned memory outside the heap.
- Reading lcov, JSON, pickle and call-graph text: the models start from the parsed maps and records. The loader of the glibc graph is not modelled, only its search.
- Two call-graph nodes are the same if they have the same name, as they are in a loaded graph; source line numbers are dropped.
- Shell tests in get_userd_syscall, and total_stragety, whose claim is that of `TotalCov`.
- AdditionalStrategy.Ranker.AdditionalStrategy: what each test relates to is a function parameter, so an error inside get_related_methods, stated by `RelatedMethods.GetRelatedMethods`, does not appear in it.
- adaptive_random_prior.py takes its edit distance from an external Levenshtein library, which is not part of this model; `SpreadOrder` uses the table of metric_manager.py, which that file keeps as a comment.
- Candidate strategies of ARP other than min_max, the euclidean, Jaccard, compression and Jensen-Shannon distances.
- Distances and scores are exact reals, not floating point.
- ScannerCodec.Scanner.Serialize: what the source does after writing past the end of a buffer is not modelled; the result says that it happens. The sum in the guard does not wrap at 2^32: that takes a delimiter within about 1030 bytes of 2^32, and STRING_PUSH cannot grow a string past 2^31.
- ScannerCodec.Scanner.Deserialize: returns false where the source would read past the end or fail its assertion; lengths are stored least significant byte first, as on the usual targets.
- The token recognition of the scanner, the learned ranking models, the database, git and log plumbing and the experiment drivers.
