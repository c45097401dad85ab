# Verification of the game server's core

A Dafny model of the algorithms and state machines that the game server rests on, with
proofs of what they promise.  `dafny verify dfyconfig.toml` checks everything.

- **Path finding** (`ShortwayModel`, `ShortwayProof`, `ShortwayTrap`, `ShortwayTie`,
  `Shortway`): the label-correcting search
  over the window of a creature, from the destination back to the origin, with its intrusive
  sorted list and its pruning test.  `ShortwayModel` holds the steps on values,
  `ShortwayProof` the theorem that they find a cheapest path, `ShortwayTrap` and `ShortwayTie`
  when the chain of predecessors ends, and `Shortway` the class of linked nodes that performs
  exactly these steps.
- **Scheduling** (`Containers`, `SchedulerModel`, `Scheduler`): the action lists of the
  creatures and the global heap of wakeups, which may hold stale entries.  An action is
  whatever sequence of clearing, filling, stopping and starting of lists it performs,
  possibly ended by a thrown result.
- **Ring buffer** (`SpscRing`): producer and consumer as a state machine with separate load,
  copy and store steps and counters modulo 2^32.
- **Strings** (`MatchString`, `DynamicStringModel`, `DynamicStrings`): glob matching by edit
  distance, and the table of dynamic strings with its compaction.
- **Player names** (`PlayerIndex`, `PlayerTrie`): the 37-way tree with bucket splitting, on values
  and on linked nodes.
- **Money** (`Money`): coins in nested containers, change and the sale of houses.
- **Creatures on the map** (`CreatureChains`, `CreatureSearch`): the chains of the 16x16 blocks
  and the search cursor over a box.
- **Player data** (`PlayerPoolModel`, `PlayerPool`): the pool of slots as a write-back cache
  used by several threads.
- **Trading** (`TradeModel`, `Trading`): offers, acceptance and the swap.
- **Free fields, levels, streams, cipher** (`FreeField`, `Levels`, `Streams`, `Xtea`).

Where the code is imperative the model is too: classes over arrays, maps and linked nodes,
each method tied to a function on values about which the theorems are proved.

Some promises hold only under a condition, which is part of what is proved:

- A blocked destination has a cost of -1.  Two fields of cost 1 beside it, one diagonal and one
  straight, can then make a way out of it and back that is shorter than nothing.  The search
  still finds the length of a cheapest path, but the chain of predecessors goes on behind the
  destination on a cycle, and with it the walk of a caller that must reach it.  For every window
  and destination this happens if and only if `ShortwayTie.Springs` holds
  (`ShortwayTie.ChainEndsIff`, `ShortwayTrap.CorridorSprings`).
- The name tree returns from an insert if and only if an equal name is stored or fewer than
  ten stored names share all character classes with the new one (`PlayerIndex.InsertEndsIff`,
  `PlayerIndex.EleventhNeverEnds`).
- A player slot can get two owners when the periodic saving locks a slot that has become
  empty through a failed load; it cannot if and only if the slot is not empty by then
  (`PlayerPoolModel.AttachSlotShares`, `PlayerPoolModel.TwoOwners`).  The roll back of that load can have the
  same effect (`PlayerPoolModel.RollbackShares`).
- A login that claims a slot whose data another thread is still loading can lose it when that
  fails; once the data are there it keeps it until claims are given back
  (`PlayerPoolModel.LoginLoses`).
- Accented capitals are not folded to small letters, since characters are signed
  (`Common.SignedLetter`).
- A creature whose new coordinate is zero can end in the chain of another block
  (`CreatureChains.CreatureIndex.NotifyGo`).  The map starts at the sector its configuration
  names, 1000 by default (src/game_data/map/map.cpp:342), so it has no such coordinate.
- A house sale loses the price when the seller's slot cannot be assigned
  (`Money.SellHouse`, `Money.PriceIsLost`).
- Reading a string into a buffer of one byte fails unless the string is empty
  (`Streams.StringRound`).
- Experience that reaches level 500 breaks the bookkeeping (`Levels.SkillLevel.Increase`,
  `Levels.SkillLevel.LastGain`).

## Model

| member | source | states |
|---|---|---|
| `ShortwayProof.SearchIsOptimal` | src/creature/actions/actions.cpp:126-254 | for every destination, also a blocked one: when the open list is empty, the origin has a label exactly if some walkable path inside the window leads to the destination, and then the chain of predecessors up to the destination is such a path of minimum total cost that visits no field twice |
| `ShortwayProof.NoCheaperWay` | src/creature/actions/actions.cpp:126-201 | no path in the window is cheaper than the label of its first field, or than that of the origin, in spite of the pruning test |
| `ShortwayProof.ChainIsWay` | src/creature/actions/actions.cpp:155-157 | following predecessors from any labelled field gives a path of adjacent walkable fields whose cost is exactly the label |
| `ShortwayProof.ChainDescends` | src/creature/actions/actions.cpp:237-251 | labels fall along the predecessor chain up to the destination, so this part of it is acyclic |
| `ShortwayProof.ExpandKeeps` | src/creature/actions/actions.cpp:126-201 | each turn of the main loop expands a field of the window that was never expanded before, with a key at least as large as all earlier ones, and keeps the invariant (sorted duplicate-free list, labels, settled fields) |
| `ShortwayProof.RelaxAllKeeps` | src/creature/actions/actions.cpp:139-200 | relaxing any neighbours of the expanded field keeps the invariant, worsens no label and bounds each neighbour's label by the new way |
| `ShortwayProof.RelaxQueue` | src/creature/actions/actions.cpp:158-198 | re-inserting an improved field keeps the list sorted by key and duplicate-free and adds exactly that field; it is in the list whenever its key says so, so the error branch for a missing node is dead |
| `ShortwayProof.WithoutIsList` | src/creature/actions/actions.cpp:159-175 | a field has a finite key exactly if it is in the list, and unlinking it leaves the others in order |
| `ShortwayProof.ClosedStays` | src/creature/actions/actions.cpp:155-157 | an expanded field other than the destination is never improved again |
| `ShortwayProof.ImprovedIsNew` | src/creature/actions/actions.cpp:155-157 | only a trap beside a blocked destination improves a field that was expanded, and that is the destination, from 0 to -1 |
| `ShortwayProof.Consistent` | src/creature/actions/actions.cpp:177-180 | the heuristic is consistent: a step costs at least what the estimate falls |
| `ShortwayProof.DestinationNotPruned` | src/creature/actions/actions.cpp:134-137 | the pruning test never skips the destination |
| `ShortwayProof.InitialInv` | src/creature/actions/actions.cpp:224-226 | the state from which the main loop starts satisfies the invariant |
| `ShortwayProof.WindowSize` | src/creature/actions/actions.cpp:50-69 | the number of fields that bounds the number of turns |
| `ShortwayProof.SmallCostsFit` | src/creature/actions/actions.cpp:177-180 | costs up to a stated bound make every label and key fit into an int |
| `Shortway.Finder.FillMap` | src/creature/actions/actions.cpp:77-113 | every field of the window gets its cost, or -1 exactly if nothing or no bank lies there, it cannot be passed or entered, or its cost is 0; the border is untouched, and the minimum is the smallest passable cost, or 1000 |
| `Shortway.Finder.ClearMap` | src/creature/actions/actions.cpp:115-124 | labels, keys and predecessors of the window are reset, those of the border are kept |
| `Shortway.Finder.Start` | src/creature/actions/actions.cpp:224-226 | after the reset only the destination is in the list, with length 0 |
| `Shortway.Finder.Unlink` | src/creature/actions/actions.cpp:159-175 | the linked list becomes the list without the node; the result says whether the node was in it |
| `Shortway.Finder.Link` | src/creature/actions/actions.cpp:182-197 | the linked list becomes the list with the node in front of the first key that is not smaller |
| `Shortway.Finder.Expand` | src/creature/actions/actions.cpp:126-201 | on the linked nodes one call performs exactly the modelled expansion |
| `Shortway.Finder.Run` | src/creature/actions/actions.cpp:227-229 | the main loop terminates with an empty list and the invariant |
| `ShortwayTie.ChainEndsIff` | src/creature/actions/actions.cpp:126-229 | for every destination, after the search the chain of predecessors ends there if and only if no trap springs: two fields of cost 1 beside a blocked destination, that no way shorter than nothing outruns and that are not overtaken by a field relaxed later |
| `ShortwayTrap.TrapSprings` | src/creature/actions/actions.cpp:126-229 | a trap gives the destination a predecessor unless the way found is shorter than nothing |
| `ShortwayTrap.ChainEndsIffNoTrap` | src/creature/actions/actions.cpp:126-229 | four or more steps away from the destination this needs no more than that there is a trap |
| `ShortwayTrap.TooLate` | src/creature/actions/actions.cpp:132-157 | a field that would lower the destination is pruned when a way shorter than nothing outruns the trap |
| `ShortwayTrap.PathWaits` | src/creature/actions/actions.cpp:126-201 | at any time of the search each path is matched by the labels, or some field of it waits in the list with a label as good |
| `ShortwayTrap.Admissible` | src/creature/actions/actions.cpp:177-180 | the key of a field never exceeds the cost of a path through it |
| `ShortwayTrap.DestOnCycle` | src/creature/actions/actions.cpp:237-251 | a destination with a predecessor lies on a cycle of predecessors |
| `ShortwayTrap.CorridorSprings` | src/creature/actions/actions.cpp:126-229 | a concrete corridor of 9 by 3 fields in which the way exists and the search ends with a cycle |
| `ShortwayTie.HeadComes` | src/creature/actions/actions.cpp:139-198 | of all relaxed fields with the smallest key the one relaxed last heads the list |
| `ShortwayTie.TieEnds` | src/creature/actions/actions.cpp:126-201 | when the destination is two straight steps away, the first three expansions decide which of two fields of equal key comes first, and with it whether the trap springs |
| `Shortway.Finder.Calculate` | src/creature/actions/actions.cpp:203-254 | for every destination: returns true exactly if origin and destination coincide or the destination lies in the window and is reachable; the steps are the fields of a cheapest path in the coordinates of the world, each beside the one before, cut as MustReach and MaxSteps ask; with MustReach, no trap and enough steps the last one is the destination; when a trap springs and more steps are allowed than the path has they go on behind it until all are used up |
| `Shortway.TrailIsRoute` | src/creature/actions/actions.cpp:236-251 | walking along a chain of predecessors makes single steps, not more than allowed, and ends short of the target only when the steps are used up, or beside it when that is enough |
| `Shortway.RouteMoves` | src/creature/actions/actions.cpp:243-244 | the steps in the coordinates of the world lead from the creature's field to the target as the walk leads from the origin to the destination |
| `Shortway.Arrives` | src/creature/actions/actions.cpp:236-251 | with MustReach, no trap and enough steps the last step is the target |
| `Vectors.Vector.At` | src/common/containers/containers.h:59-124 | growing in either direction keeps every stored value, initializes new ones, changes the range only as far as needed and returns a place inside the storage |
| `Heaps.SiftUpMakesHeap` | src/common/containers/containers.h:167-180 | moving an entry up from a heap broken only there gives a heap of the same entries |
| `Heaps.SiftDownMakesHeap` | src/common/containers/containers.h:199-221 | moving an entry down from a heap broken only there gives a heap of the same entries |
| `Heaps.InsertedIsHeap` | src/common/containers/containers.h:167-180 | insert keeps the heap order and adds exactly one entry |
| `Heaps.WithoutMinIsHeap` | src/common/containers/containers.h:182-225 | deleteMin keeps the heap order and takes exactly the first entry away |
| `Heaps.FirstIsMin` | src/common/containers/containers.h:154-231 | the first entry of a heap has the smallest key |
| `PriorityQueues.PriorityQueue.Insert` | src/common/containers/containers.h:167-180 | over the growing vector, the heap and the multiset of its entries gain exactly the new entry |
| `PriorityQueues.PriorityQueue.DeleteMin` | src/common/containers/containers.h:182-225 | over the vector, exactly the first entry goes; an empty queue stays as it is |
| `PriorityQueues.PriorityQueue.First` | src/creature/creature_main/creature_main.cpp:373-376 | reading index 1 yields an entry with the smallest key of all |
| `SchedulerModel.DoKeeps` | src/creature/actions/actions.cpp:878-970 | no clear, add, stop, start, yield or wait makes a locked living creature lose its entry (NextWakeup, ID) in the queue |
| `SchedulerModel.StartIsLater` | src/creature/actions/actions.cpp:826-949 | a started list is queued strictly after now, at the later of one millisecond and its delay |
| `SchedulerModel.DelayIgnoresLock` | src/creature/actions/actions.cpp:826-876 | setting the lock and the index first does not change the delay that is computed |
| `SchedulerModel.DelayIsRest` | src/creature/actions/actions.cpp:826-876 | by kind of entry: the delay is none exactly if the time of the entry has come, and otherwise what is missing until then (a step waits for the walk time, a wait for that and its own time, an attack for attack and spell time, a use of two objects for the multiuse time) |
| `SchedulerModel.StartIsStarted` | src/creature/actions/actions.cpp:935-949 | starting a list locks and rewinds it and queues one wakeup, for the time of its first entry or for the next millisecond |
| `SchedulerModel.YieldIsStarted` | src/creature/actions/actions.cpp:951-956 | yielding appends a wait of no time and starts the list |
| `SchedulerModel.DoByKind` | src/creature/actions/actions.cpp:878-956 | what each operation does to the creature it is about; all others are left alone |
| `SchedulerModel.DoParks` | src/creature/actions/actions.cpp:878-970 | after any operation a list is as before, or unlocked, or waiting for a later time |
| `SchedulerModel.DoQueuesLater` | src/creature/actions/actions.cpp:878-970 | an operation only adds queue entries with keys after now |
| `SchedulerModel.DoAllKeeps` | src/creature/actions/actions.cpp:711-970 | the same for any sequence of operations that one action performs |
| `SchedulerModel.DoAllParks` | src/creature/actions/actions.cpp:711-970 | no sequence of operations leaves a list running that was parked |
| `SchedulerModel.PostponeKeeps` | src/creature/actions/actions.cpp:723-735 | an entry that has to wait gets a wakeup in the queue at its time, so its creature is attended |
| `SchedulerModel.AfterFailureKeeps` | src/creature/actions/actions.cpp:798-814 | after a thrown result, whatever the handler clears or restarts, no wakeup is lost and new entries lie after now |
| `SchedulerModel.AfterFailureIsWait` | src/creature/actions/actions.cpp:798-806 | a thrown result leaves nothing in the list but a wait, of a second for an exhausted creature and else of no time, and starts it |
| `SchedulerModel.QuietTurn` | src/creature/actions/actions.cpp:711-824 | a turn of a running list performs its next entry exactly if the time of that has come, if the action leaves the list alone; otherwise the creature is woken at that time, and a list that is used up is cleared |
| `SchedulerModel.QuietExecution` | src/creature/actions/actions.cpp:711-824 | a due list whose actions finish and leave it alone is executed up to the first entry whose time has not come, for which a wakeup is queued, or to its end, and then it is cleared |
| `SchedulerModel.PopKeeps` | src/creature/creature_main/creature_main.cpp:373-382 | taking a due entry off the queue, stale or not, leaves at most its own creature unattended |
| `Scheduler.Scheduler.ToDoClear` | src/creature/actions/actions.cpp:878-914 | the list is emptied, rewound and unlocked and no stop is left; the result says whether a pending walk is lost |
| `Scheduler.Scheduler.ToDoStart` | src/creature/actions/actions.cpp:935-949 | locks the list, rewinds it and queues its wakeup; an empty list is not started |
| `Scheduler.Scheduler.ToDoAdd` | src/creature/actions/actions.cpp:916-925 | appends an entry; a locked list is cleared first |
| `Scheduler.Scheduler.ToDoStop` | src/creature/actions/actions.cpp:927-933 | asks a locked list to stop; one that is not locked stays as it is |
| `Scheduler.Scheduler.ToDoYield` | src/creature/actions/actions.cpp:951-956 | a creature that is not locked is locked and queued behind a wait of no time |
| `Scheduler.Scheduler.Turn` | src/creature/actions/actions.cpp:711-824 | one turn performs the current entry if its time has come, with the effect of the action, and goes on exactly if that finished and no stop was asked for; otherwise a wakeup at that time is queued, or the list is cleared when a stop was asked for; a list that is used up is cleared before the idle stimulus; no wakeup is lost |
| `Scheduler.Scheduler.Execute` | src/creature/actions/actions.cpp:711-824 | terminates; is a sequence of such turns, as long as the list runs on and a turn goes on, so it executes a consecutive stretch of the list in order; loses no wakeup and queues only later ones, whatever the actions do or throw |
| `Scheduler.Scheduler.MoveCreatures` | src/creature/creature_main/creature_main.cpp:371-387 | terminates; serves exactly the entries that were due, in nondecreasing key order, each by executing the list of its creature, leaves none due behind and loses no wakeup |
| `Scheduler.Scheduler.Run` | src/creature/creature_main/creature_main.cpp:371-387 | every run of commands, removals and beats keeps: each living locked creature has its wakeup in the queue |
| `SpscRing.RunIsSafe` | src/common/spsc_ring_buffer/spsc_ring_buffer.h:21-60 | in every interleaving of split loads, copies and stores: what was read is a prefix of what was written, a read under way takes at least one byte and no more than its caller has room for, unread bytes are in their cells, occupancy is at most Size - 1, and no cell of a write under way is one of a read under way |
| `SpscRing.RunInv` | src/common/spsc_ring_buffer/spsc_ring_buffer.h:21-60 | every state of a run satisfies the invariant |
| `SpscRing.NextKeeps` | src/common/spsc_ring_buffer/spsc_ring_buffer.h:21-60 | each step of either thread, with stale views of the other position, keeps the invariant |
| `SpscRing.StepIsQueueStep` | src/common/spsc_ring_buffer/spsc_ring_buffer.h:21-60 | each step changes the queue of unread bytes not at all, or appends one whole write, or removes one read from the front, of at least one byte and at most as many as the caller has room for; a refused write touches nothing |
| `SpscRing.FittingWrite` | src/common/spsc_ring_buffer/spsc_ring_buffer.h:22-26 | for every view of the read position: a write goes on exactly if it fits into what is free as far as was seen |
| `SpscRing.FittingRead` | src/common/spsc_ring_buffer/spsc_ring_buffer.h:47-48 | for every view of the write position: a read gives up exactly if nothing unread was seen, and otherwise takes the smaller of that and the room there is |
| `SpscRing.ArgumentsStay` | src/common/spsc_ring_buffer/spsc_ring_buffer.h:21-60 | until a call returns its data and its room are those it was called with |
| `SpscRing.WaitFree` | src/common/spsc_ring_buffer/spsc_ring_buffer.h:21-60 | no thread waits for the other: inside a call it always has a step to take, and each one brings the call nearer to its end |
| `SpscRing.CellIsSlot` | src/common/spsc_ring_buffer/spsc_ring_buffer.h:28-34 | wrapped counters, mask and the split copy address the cell of the unbounded position |
| `SpscRing.SlotsDiffer` | src/common/spsc_ring_buffer/spsc_ring_buffer.h:28-34 | positions less than a buffer apart use different cells |
| `SpscRing.WrappedDifference` | src/common/spsc_ring_buffer/spsc_ring_buffer.h:71-73 | subtracting counters modulo 2^32 gives the true difference |
| `MatchString.MatchString` | src/common/strings/strings.cpp:415-474 | returns true exactly if both strings exist, the string has at most 255 characters and matches the pattern as a case-folded glob |
| `Common.SameLetter` | src/common/utils/utils.cpp:67-73 | two characters fold together exactly if they are equal or the capital and the small form of one letter |
| `Common.SignedLetter` | src/common/utils/utils.cpp:67-73 | of signed characters exactly the letters A to Z are folded |
| `MatchString.ZeroDistanceIsMatch` | src/common/strings/strings.cpp:415-474 | the last cell of the distance table is zero exactly if pattern and string match by cutting the string into pieces |
| `MatchString.MatchIsZero` | src/common/strings/strings.cpp:451-473 | a cutting of the string gives a zero in every row of the table |
| `MatchString.ZeroIsMatch` | src/common/strings/strings.cpp:451-473 | from any zero of the table a cutting of the prefixes can be read off |
| `MatchString.FillRow` | src/common/strings/strings.cpp:451-471 | each pass fills one of the two swapped rows with the next row of the full table |
| `DynamicStringModel.After` | src/common/strings/strings.cpp:68-215 | over every sequence of adds, deletes and cleanups each live handle yields the string it was created with, and dead ones yield nothing |
| `DynamicStringModel.LifetimeLimits` | src/common/strings/strings.cpp:68-215 | over every sequence of operations a block stores at most 256 strings and 32768 characters, since its counters are exactly what it ever stored |
| `DynamicStringModel.DoAgrees` | src/common/strings/strings.cpp:68-215 | one operation keeps the table in agreement with a map from handles to strings |
| `DynamicStringModel.AddedKeeps` | src/common/strings/strings.cpp:68-119 | a string that fits gets a handle that was not live; the free slot exists; no other handle changes |
| `DynamicStringModel.DeletedKeeps` | src/common/strings/strings.cpp:149-175 | exactly the deleted handle dies |
| `DynamicStringModel.CleanedKeeps` | src/common/strings/strings.cpp:177-215 | a cleanup changes no handle |
| `DynamicStringModel.AddedFirst` | src/common/strings/strings.cpp:68-119 | a string goes into the first free entry of the first block with room, and a new block is added only when none has room |
| `DynamicStringModel.CleanupFrees` | src/common/strings/strings.cpp:177-215 | in every run, right after a cleanup each entry is free unless its handle is live |
| `DynamicStringModel.StoredInv` | src/common/strings/strings.cpp:111-116 | storing keeps the ranges disjoint, terminated and below TotalTextLength, and FreeEntries at most the number of free slots |
| `DynamicStringModel.StoredOther` | src/common/strings/strings.cpp:111-116 | storing leaves the texts of other entries alone |
| `DynamicStringModel.MarkedInv` | src/common/strings/strings.cpp:173-174 | marking an entry deleted keeps the invariant |
| `DynamicStringModel.Separated` | src/common/strings/strings.cpp:203-209 | an entry behind the freed one starts at or behind its end, so the assertion of the compaction loop holds |
| `DynamicStringModel.FreedOther` | src/common/strings/strings.cpp:188-211 | moving the texts down and adjusting the offsets keeps every other string |
| `DynamicStringModel.FreedInv` | src/common/strings/strings.cpp:188-211 | freeing an entry keeps the invariant, and its text ends in the block |
| `DynamicStringModel.SomeSlotIsFree` | src/common/strings/strings.cpp:98-109 | a positive FreeEntries guarantees a free slot, so the error for none is dead |
| `DynamicStrings.StringTable.AddDynamicString` | src/common/strings/strings.cpp:68-119 | on blocks of arrays, the table and the handle become those of the model |
| `DynamicStrings.StringTable.GetDynamicString` | src/common/strings/strings.cpp:121-147 | returns the string of a live handle, nothing otherwise |
| `DynamicStrings.StringTable.DeleteDynamicString` | src/common/strings/strings.cpp:149-175 | marks the entry; missing handles change nothing |
| `DynamicStrings.StringTable.CleanupDynamicStrings` | src/common/strings/strings.cpp:177-215 | compacts every dirty block in place as modelled |
| `DynamicStrings.StringBlock.FreeEntry` | src/common/strings/strings.cpp:188-211 | the nested loops over text and offsets free exactly one entry |
| `PlayerIndex.InsertIsCorrect` | src/creature/player/player.cpp:2931-2995 | with whatever number of turns, an insert that ends loses no entry and adds exactly the new one, unless an equal name was there, and the names were not crowded; uncrowded ones end within a fixed number of turns |
| `PlayerIndex.ClassTellsApart` | src/creature/player/player.cpp:2912-2929 | two characters share a class exactly if they are the same letter but for case, or the same digit, or neither letters nor digits |
| `PlayerIndex.InsertEndsIff` | src/creature/player/player.cpp:2931-2995 | some number of turns suffices if and only if an equal name is there or fewer than ten stored names share all classes with the new one |
| `PlayerIndex.InsertAllIsCorrect` | src/creature/player/player.cpp:2978-2993 | splitting a full leaf keeps its entries |
| `PlayerIndex.SplittingRepeats` | src/creature/player/player.cpp:2978-2993 | at whatever depth, a full leaf of names with the same classes is split into one full leaf a level down |
| `PlayerIndex.SplittingNeverEnds` | src/creature/player/player.cpp:2943-2993 | for such a leaf and one more name of these classes no number of turns suffices |
| `PlayerIndex.EleventhNeverEnds` | src/creature/player/player.cpp:2931-2995 | after the ten names from ! to *, inserting the name + never ends |
| `PlayerIndex.SearchIsCorrect` | src/creature/player/player.cpp:2997-3021 | a search finds an equal name up to case exactly if one is stored |
| `PlayerIndex.InsertThenSearch` | src/creature/player/player.cpp:2912-3021 | after an insert a search finds exactly the names that equal the new or an old one |
| `PlayerIndex.BuiltIsCorrect` | src/creature/player/player.cpp:2912-3021 | the index agrees with the plain collection of inserted entries |
| `PlayerIndex.FewIsUncrowded` | src/creature/player/player.cpp:2931-2995 | with fewer than ten names stored every insert ends |
| `PlayerTrie.TrieNode.InsertEntry` | src/creature/player/player.cpp:2931-2995 | on linked nodes changed in place, with recursion in place of the loop, the tree becomes exactly what the insert on values yields, new nodes are fresh and the nodes stay a tree |
| `PlayerTrie.TrieNode.Split` | src/creature/player/player.cpp:2982-2993 | a full leaf is taken over by a new inner node together with the new entry |
| `PlayerTrie.TrieNode.InsertPlayerIndex` | src/creature/player/player.cpp:2931-2995 | below the head, if fewer than ten names share all classes, the insert ends and the stored entries gain exactly the new one, unless its name is there |
| `PlayerTrie.TrieNode.SearchPlayerIndex` | src/creature/player/player.cpp:2997-3021 | the loop down the classes finds an equal name up to case exactly if one is stored |
| `Money.MoneyIsCoins` | src/game_data/info/info.cpp:580-653 | the money in nested containers is the weighted number of its coins |
| `Money.RemovedCounts` | src/game_data/houses/houses.cpp:712-735 | exactly the asked number of coins goes, or all there are, and the rest is reported as missing |
| `Money.RemovedLeavesOthers` | src/game_data/houses/houses.cpp:712-735 | coins of other kinds and everything else stay |
| `Money.CreatedCounts` | src/game_data/houses/houses.cpp:706-710 | a new stack adds its coins and nothing else |
| `Money.DeleteCoins` | src/game_data/houses/houses.cpp:712-735 | the loop with recursion into containers removes coins as modelled |
| `Money.CalculateChange` | src/game_data/info/info.cpp:671-722 | with enough money the change is worth exactly the amount, takes no more coins of a kind than present and gives back fewer than a hundred; otherwise it is all there is |
| `Money.CreateCoins` | src/game_data/houses/houses.cpp:706-710 | a stack of 1 to 100 coins is added and nothing else changes |
| `Money.CreateMoney` | src/game_data/houses/houses.cpp:737-755 | adds exactly the amount, in stacks of at most a hundred coins |
| `Money.DeleteMoney` | src/game_data/houses/houses.cpp:757-779 | with enough money exactly the amount goes and nothing but coins is touched |
| `Money.SellHouse` | src/game_data/houses/houses.cpp:1047-1098 | a completed sale moves exactly the price, a cancelled one nothing but a letter to the buyer; when only the seller's slot is missing the price is lost; other depots and everything but coins do not change |
| `Money.PriceIsLost` | src/game_data/houses/houses.cpp:1082-1091 | a concrete sale after which the price is neither the buyer's nor the seller's |
| `CreatureChains.CreatureIndex.InsertChainCreature` | src/creature/creature_main/creature_main.cpp:224-246 | the creature becomes the front of the chain of the given block, a coordinate of zero meaning its own, and the chains are in order once it is there; nobody else changes |
| `CreatureChains.CreatureIndex.DeleteChainCreature` | src/creature/creature_main/creature_main.cpp:248-285 | exactly this creature leaves its chain and the other links keep their order; the error branches are dead |
| `CreatureChains.CreatureIndex.MoveChainCreature` | src/creature/creature_main/creature_main.cpp:287-302 | the chains are in order with the new position before it is stored, if and only if a zero taken for the creature's own coordinate does not lead to another block |
| `CreatureChains.PositiveFollows` | src/creature/creature_main/creature_main.cpp:229-235 | away from the coordinate zero that is always so |
| `CreatureChains.BlockCovers` | src/creature/creature_main/creature_main.cpp:241-242 | a block covers 16 fields in each direction, and 31 around the coordinate zero |
| `CreatureChains.ZeroDoesNotFollow` | src/creature/creature_main/creature_main.cpp:229-235 | a concrete step to the coordinate zero for which it is not |
| `CreatureChains.Elsewhere` | src/creature/creature_main/creature_main.cpp:224-302 | chains in order with a creature at one position are in order with it at another exactly if that is in the same block |
| `CreatureChains.CreatureIndex.NotifyCreate` | src/creature/actions/actions.cpp:1457-1459 | a creature that appears is in exactly the chain of its block; nobody else changes |
| `CreatureChains.CreatureIndex.NotifyDelete` | src/creature/actions/actions.cpp:1461-1472 | a creature that leaves is in no chain; nobody else changes |
| `CreatureChains.CreatureIndex.NotifyGo` | src/creature/actions/actions.cpp:1303-1310 | after a step every creature is in exactly the chain of its own block, under the same condition |
| `CreatureChains.PlacedAtOwn` | src/creature/creature_main/creature_main.cpp:224-302 | a creature in a chain is in that of its own block and in no other |
| `CreatureChains.Unlinked` | src/creature/creature_main/creature_main.cpp:269-283 | bending one link over a member removes exactly that member |
| `CreatureSearch.SearchIsComplete` | src/creature/creature_main/creature_main.cpp:55-115 | what a new search has in front of it is every wanted creature of the map, each once |
| `CreatureSearch.BlocksComplete` | src/creature/creature_main/creature_main.cpp:74-88 | the walk over the blocks leaves out no block the box touches |
| `CreatureSearch.BlocksOrdered` | src/creature/creature_main/creature_main.cpp:74-88 | the walk visits no block twice |
| `CreatureSearch.MembersDistinct` | src/creature/creature_main/creature_main.cpp:74-115 | no creature is met twice, since chains are disjoint |
| `CreatureSearch.FindCreatures.constructor` | src/creature/creature_main/creature_main.cpp:55-67 | a search around a coordinate has exactly the matching creatures to find |
| `CreatureSearch.FindCreatures.Around` | src/creature/creature_main/creature_main.cpp:30-41 | a search around a creature skips that creature; around a missing one it finds nothing |
| `CreatureSearch.FindCreatures.GetNext` | src/creature/creature_main/creature_main.cpp:69-115 | terminates and returns the next creature to be found, or 0 and finishes when none is left |
| `CreatureSearch.FindCreatures.All` | src/creature/creature_main/creature_main.cpp:69-115 | repeated calls return all of them in order and then finish |
| `PlayerPoolModel.PoolIsSafe` | src/creature/player/player.cpp:2579-2876 | from an empty pool, in every interleaving of careful threads: no two slots carry one character, no slot has two owners, and the data of each character, in the pool or on disk, are those written last |
| `PlayerPoolModel.StepKeeps` | src/creature/player/player.cpp:2579-2876 | each step keeps the pool in order |
| `PlayerPoolModel.StepLogical` | src/creature/player/player.cpp:2579-2876 | assigning, evicting, loading, saving and releasing change nobody's data; a write changes exactly those of the character in the slot |
| `PlayerPoolModel.NotEvicted` | src/creature/player/player.cpp:2678-2712 | a slot that is locked or sticky keeps its character unless its own loading fails, and its lock is taken away by its owner only |
| `PlayerPoolModel.StepClaims` | src/creature/player/player.cpp:2666-2669 | each step changes the number of claims on a claimed slot by what it adds or gives back, and leaves the character in it |
| `PlayerPoolModel.ClaimedStays` | src/creature/player/player.cpp:2641-2854 | over runs: while claims are left a slot keeps its character, and its counter is the number of claims |
| `PlayerPoolModel.LoginLoses` | src/creature/player/player.cpp:2666-2732 | after a login has claimed a slot that another thread owns, the slot can lose the character without a claim being given back if and only if its data were still being loaded |
| `PlayerPoolModel.RunKeeps` | src/creature/player/player.cpp:2579-2876 | the same over runs from any state in order |
| `PlayerPoolModel.AttachSlotShares` | src/creature/player/player.cpp:2773-2796 | after a slot found earlier has been locked, careful threads can come to share it if and only if it was empty by then |
| `PlayerPoolModel.GivenAway` | src/creature/player/player.cpp:2680-2719 | any empty slot that is locked is given to a second owner by enough assignments of new characters |
| `PlayerPoolModel.TwoOwners` | src/creature/player/player.cpp:2856-2876 | a concrete run in which the periodic saving and another thread own one slot, after a failed load in between |
| `PlayerPoolModel.RollbackShares` | src/creature/player/player.cpp:2728-2732 | when a failed load empties the slot and clears the lock in two writes, with any steps of other threads in between, two threads can come to own the slot if and only if another thread is in the lock at the second write |
| `PlayerPoolModel.StepWithout` | src/creature/player/player.cpp:2641-2854 | between the two writes every step of another thread does what it would do in a pool that the failed thread had never touched |
| `PlayerPoolModel.StolenLock` | src/creature/player/player.cpp:2728-2732 | a lock that is cleared under its owner can be taken by a third thread |
| `PlayerPools.VictimIsIdle` | src/creature/player/player.cpp:2680-2712 | an empty slot is taken if there is one, else one that nobody owns or claims, a clean one if possible; when none is taken all are in use |
| `PlayerPools.PlayerPool.Assign` | src/creature/player/player.cpp:2641-2735 | one pass: a free slot of the character is locked; one that is locked gets a claim more and is returned, or is waited for; else an empty or idle slot is reserved whose data are saved; nothing else changes; it fails only if every slot is in use |
| `PlayerPools.PlayerPool.Take` | src/creature/player/player.cpp:2678-2719 | an empty, then a clean idle, then any idle slot is taken, and a dirty one is written back first |
| `PlayerPools.PlayerPool.FreeSlot` | src/creature/player/player.cpp:2591-2623 | empties a slot and writes it back if dirty; a sticky or foreign one stays |
| `PlayerPools.PlayerPool.Load` | src/creature/player/player.cpp:2721-2735 | a reserved slot gets the stored data, or is given back, here in one step |
| `PlayerPools.PlayerPool.Attach` | src/creature/player/player.cpp:2737-2771 | one pass owns the slot of a character exactly if it is in the pool and free, and changes nothing otherwise |
| `PlayerPools.PlayerPool.IncreaseSticky` | src/creature/player/player.cpp:2798-2807 | one claim more on the slot and no other change |
| `PlayerPools.PlayerPool.DecreaseSticky` | src/creature/player/player.cpp:2809-2818 | one claim less on the slot and no other change |
| `PlayerPools.PlayerPool.DecreaseStickyOf` | src/creature/player/player.cpp:2820-2834 | one claim less on the slot of the character, if it has one, and no other change |
| `PlayerPools.PlayerPool.Release` | src/creature/player/player.cpp:2836-2854 | the owner gives a slot back; anybody else changes nothing |
| `PlayerPools.PlayerPool.SaveSlots` | src/creature/player/player.cpp:2856-2876 | is a run of careful steps after which no unused slot is dirty, except those left a short time ago, and nothing else has changed in any slot |
| `TradeModel.TradingIsSafe` | src/creature/actions/actions.cpp:583-653 | in every run, also over logouts and logins: an accepted open offer is answered by an open one, two offers for each other are of different objects, and each swap is of the objects on offer when each of the two accepted |
| `TradeModel.StepKeeps` | src/creature/player/player.cpp:779-928 | each operation keeps these facts |
| `TradeModel.AcceptKeeps` | src/creature/player/player.cpp:779-916 | accepting, swapping and a failed check keep them |
| `TradeModel.RejectKeeps` | src/creature/player/player.cpp:918-928 | closing an offer closes the one that answers it, so no acceptance is left pointing at it |
| `TradeModel.OfferStays` | src/creature/actions/actions.cpp:600-640 | an open offer is never replaced, and an acceptance never withdrawn, while the offer is open |
| `TradeModel.WhoCloses` | src/creature/player/player.cpp:918-928 | an offer is closed only by one of its two players |
| `TradeModel.SwapMovesBoth` | src/creature/player/player.cpp:905-915 | a swap moves the two different objects to each other's places and nothing else; a failed check moves nothing; both close both offers |
| `Trading.Traders.Trade` | src/creature/actions/actions.cpp:583-653 | opens an offer exactly if no check fails, among them a distance of at most 2 and a count of at most 100, and otherwise reports the first check that does and changes nothing |
| `Trading.Traders.AcceptTrade` | src/creature/player/player.cpp:779-916 | records the acceptance if both offers are open for each other; swaps exactly if in addition the partner has accepted and the checks succeed; then both offers are closed |
| `Trading.Traders.RejectTrade` | src/creature/player/player.cpp:918-928 | closes the offer and its answer as modelled |
| `Trading.Traders.NotifyDelete` | src/creature/actions/actions.cpp:1461-1472 | a player who leaves has no offer, and nobody has an accepted offer for him |
| `FreeField.SearchFreeField` | src/game_data/info/info.cpp:796-860 | terminates; visits offsets in their turns; returns the first admissible field, which is at minimal distance, and none exactly if no field within the distance is admissible, after visiting the whole square |
| `FreeField.EachOnce` | src/game_data/info/info.cpp:831-856 | the spiral up to distance d visits exactly the offsets of the square, each once |
| `FreeField.TurnsDiffer` | src/game_data/info/info.cpp:831-856 | nearer offsets have their turn earlier and no two share one |
| `FreeField.NextTurn` | src/game_data/info/info.cpp:831-856 | each move of the spiral leads to the offset whose turn is next |
| `Levels.PolynomialIsCurve` | src/creature/skill/skill.cpp:348 | the polynomial is divisible by 6 and equals the sum of gaps that grow by steps of one |
| `Levels.ExpGrows` | src/creature/skill/skill.cpp:332-349 | the experience of a level is strictly increasing from level 1 |
| `Levels.ExpFits` | src/creature/skill/skill.cpp:332-349 | no level's experience exceeds 32 bits exactly up to a factor of 104 |
| `Levels.OnlyLevel` | src/creature/skill/skill.cpp:248-330 | exactly one level encloses a given experience |
| `Levels.SkillLevel.Increase` | src/creature/skill/skill.cpp:248-287 | keeps LastLevel = exp(Act) <= Exp < exp(Act+1) = NextLevel if and only if level 500 is not reached; the growing skills follow the levels gained, and their maxima minus AddLevel times the level stay the same. Beyond, a call raises the level by at most one, whatever the amount, takes 1000000 away then, and leaves the growing skills alone |
| `Levels.SkillLevel.LastGain` | src/creature/skill/skill.cpp:248-287 | the gain of one point that overflows |
| `Levels.SkillLevel.Decrease` | src/creature/skill/skill.cpp:289-330 | keeps the bookkeeping and the maxima minus AddLevel times the level, terminates at level 1 or above; an amount above an experience of more than 100000 changes nothing |
| `Levels.SkillLevel.GainAndLoseAll` | src/creature/skill/skill.cpp:248-330 | so does any sequence of gains and losses that stays below level 500 |
| `Levels.SkillLevel.GainAndLose` | src/creature/skill/skill.cpp:248-330 | taking away what was just added restores the bookkeeping and the growing skills |
| `Levels.SkillLevel.Jump` | src/creature/skill/skill.cpp:351-378 | all four growing skills advance, or none without a master |
| `Levels.SkillAdd.Advance` | src/creature/skill/skill.cpp:662-673 | value and maximum move by the same step, and the value never exceeds the maximum |
| `Levels.BaseStays` | src/creature/skill/skill.cpp:662-673 | one advance by the levels gained or lost keeps the maximum minus AddLevel times the level |
| `Levels.AdvanceBack` | src/creature/skill/skill.cpp:662-673 | going back the same range restores maximum and value; only a value above the maximum is cut |
| `Streams.RoundTrip` | src/common/read_stream/read_stream.cpp:8-140 | any sequence of flags, numbers, strings and bytes reads back in order, strings cut to the limits they are read with, and leaves exactly what follows, if and only if every request can be met: bytes cannot be read when there are none, nor a string that is not empty into one byte, nor any into none |
| `Streams.ItemRound` | src/common/read_stream/read_stream.cpp:8-140 | the same for one item |
| `Streams.LengthRound` | src/common/write_stream/write_stream.cpp:31-38 | every length, also one of 0xFFFF or more behind the escape, reads back |
| `Streams.NumberBytes` | src/common/write_stream/write_stream.cpp:12-21 | words and quads are written with the lowest byte first |
| `Streams.LengthBytes` | src/common/write_stream/write_stream.cpp:32-37 | a length below 0xFFFF is two bytes, any other 0xFFFF and four bytes |
| `Streams.ParsedLength` | src/common/read_stream/read_stream.cpp:35-38 | the length that any bytes begin with, with or without the escape, and the bytes left behind it |
| `Streams.StringRound` | src/common/read_stream/read_stream.cpp:29-52 | a read with a limit yields the string cut to the buffer and leaves the reader exactly behind it, if and only if the limit is not 0 and, for a string that is not empty, not 1 |
| `Streams.QuadSplits` | src/common/read_stream/read_stream.cpp:102-114 | four bytes are those of the number they are read as |
| `Streams.QuadRound` | src/common/write_stream/write_stream.cpp:18-23 | a quad reads back in little endian order |
| `Streams.DynamicWriteBuffer.ResizeBuffer` | src/common/dynamic_buffer/dynamic_buffer.cpp:14-25 | doubling keeps everything written |
| `Streams.DynamicWriteBuffer.WriteByte` | src/common/dynamic_buffer/dynamic_buffer.cpp:27-34 | appends the byte, whatever growth that needs |
| `Streams.DynamicWriteBuffer.WriteFlag` | src/common/write_stream/write_stream.cpp:9-11 | appends one byte that tells true from false |
| `Streams.DynamicWriteBuffer.WriteWord` | src/common/dynamic_buffer/dynamic_buffer.cpp:36-44 | appends the two bytes, whatever growth that needs |
| `Streams.DynamicWriteBuffer.WriteQuad` | src/common/dynamic_buffer/dynamic_buffer.cpp:46-56 | appends the four bytes, whatever growth that needs |
| `Streams.DynamicWriteBuffer.WriteBytes` | src/common/dynamic_buffer/dynamic_buffer.cpp:58-65 | appends the bytes, whatever growth that needs |
| `Streams.DynamicWriteBuffer.WriteString` | src/common/write_stream/write_stream.cpp:25-43 | appends the length and the characters; a missing string is an empty one |
| `Streams.ReadBuffer.ReadQuad` | src/common/read_stream/read_stream.cpp:102-114 | reads four bytes or fails without moving |
| `Streams.ReadBuffer.ReadWord` | src/common/read_stream/read_stream.cpp:91-100 | reads two bytes or fails without moving |
| `Streams.ReadBuffer.ReadByte` | src/common/read_stream/read_stream.cpp:81-89 | takes the next byte off, or fails without moving |
| `Streams.ReadBuffer.ReadFlag` | src/common/read_stream/read_stream.cpp:8-10 | any byte but zero is true |
| `Streams.ReadBuffer.Skip` | src/common/read_stream/read_stream.cpp:134-140 | moves by exactly the count, also backwards and even in front of the first byte, or fails without moving when too few bytes are left |
| `Streams.ReadBuffer.ReadBytes` | src/common/read_stream/read_stream.cpp:116-128 | fills the front of the buffer or fails without moving; reading nothing fails |
| `Streams.ReadBuffer.ReadString` | src/common/read_stream/read_stream.cpp:29-52 | yields the parsed string with its terminator inside the buffer, and the reader stands where parsing ends |
| `Xtea.CipherInverse` | src/crypto/xtea/xtea.cpp:12-42 | for every key and block decrypting undoes encrypting and the other way round |
| `Xtea.RoundInverse` | src/crypto/xtea/xtea.cpp:21-23 | one round is undone by the reverse round, in either order |
| `Xtea.RoundOnBits` | src/crypto/xtea/xtea.cpp:21-23 | one round in terms of shifts, xors and sums of 32-bit words |
| `Xtea.PublishedBlock` | src/crypto/xtea/xtea.cpp:12-27 | with the key 00010203 04050607 08090A0B 0C0D0E0F the words 41424344 45464748, in little endian bytes, become 497DF3D0 72612CB5 |
| `Xtea.LastSum` | src/crypto/xtea/xtea.cpp:30-30 | 32 additions of Delta modulo 2^32 give the sum that decrypting starts from |
| `Xtea.SymmetricKey.Encrypt` | src/crypto/xtea/xtea.cpp:12-27 | the first eight bytes become the encrypted block and no other byte changes |
| `Xtea.SymmetricKey.Decrypt` | src/crypto/xtea/xtea.cpp:29-42 | the first eight bytes become the decrypted block and no other byte changes |

## Left out

- ShortwayProof.SearchIsOptimal: assumes that labels and keys fit into an int (`FitsInt`); `SmallCostsFit` gives costs for which they do.
- Scheduler.Scheduler.MoveCreatures: assumes that the millisecond clock does not wrap, and delays of an action list that fit into 32 bits.
- Scheduler.Scheduler.Execute: what the actions do to anything but action lists (movement, talk, combat, idle stimuli, changes of the state of an NPC) is an arbitrary effect on lists.
- PlayerTrie.TrieNode.InsertEntry: the pools that nodes are taken from and given back to are not modelled, nor is the growth of the tree while an insert does not end.
- Money.CreateCoins: where a new stack goes in a container is any place; whether the container has room, object identity and the log messages are not modelled.
- PlayerPoolModel.PoolIsSafe: the roll back of a failed load is one step here, although the source resets two fields one after the other outside of the mutex; what two writes do instead is `RollbackShares`. Owners mark a changed slot dirty before they release it, and a slot found earlier is locked only while a character is in it.
- PlayerPools.PlayerPool.Load: likewise one step.
- PlayerPools.PlayerPool.Assign: one pass under the mutex; the waiting between two passes is any number of steps of other threads.
- TradeModel.TradingIsSafe: accessibility, weight, capacity, rights and the search for a place in the inventory are verdicts handed in per side; nesting of two offered objects is one verdict.
- TradeModel.SwapMovesBoth: the four moves of a swap succeed; in the source each can throw, which leaves the objects where the moves before have put them.
- CreatureChains.CreatureIndex.MoveChainCreature: coordinates are on the map, so that the error of an index outside of it does not arise.
- Levels.SkillLevel.Increase: experience is unbounded, without the overflow of an int; messages and the check of combat values are left out.
- Levels.SkillLevel.Decrease: losses from a level that an overflow has led to are not modelled.
- Streams.DynamicWriteBuffer.ResizeBuffer: the size is unbounded, without the overflow of an int.
- Vectors.Vector.At: the constructor's repair of an invalid range or block size is not modelled.
- The hash list of creatures by number; creatures are looked up in a map.
- The write buffer of fixed size, which only adds the error of a full buffer.
- Static strings, plural forms, capitals and word search in strings.
- Handles of dynamic strings above 2^31, which the source would turn into negative indices.
- The parts of house transfers that talk to the query manager or move furniture.
- Spells, monster behaviour, scripts, file formats, network connections and all messages to clients.
- The curve of skills that are trained by use, which needs floating point powers.
- Shutdown of the player pool and of the string tables.
