# Verified model of the kylin base library

A Dafny model of the data structures, synchronisation primitives and the module loader of
kylin, with proofs of what they promise. `dafny verify dfyconfig.toml` checks all of it.

* **Red-black tree** (`RbShape`, `RbOrder`, `RbHeap`, `RbInsert`, `RbRemove`, `RbSearch`): real
  nodes with left, right and parent links and a colour, changed in place by the loops of the
  macros. A ghost zipper (the subtree in focus and the path to the root) follows the loops and says
  how far the four rules hold at each moment.
* **Module loader** (`KList`, `LoaderSpec`, `LoaderLaws`, `LoaderGraph`, `LoaderOrder`, `LoaderTower`,
  `ModuleLoader`): the session with its linked list of module records, the recursive dependency walk
  over the symbols of the files, and the 32-bit reference counters. What is proved of whole sequences
  of load calls is proved on the value-level walk that the methods are shown to follow.
* **Hash map** (`MapSpec`, `MapLaws`, `MapWorld`, `MapRuns`, `MapGrowth`, `HashMap`, `MapLinks`,
  `LinkedMap`, `MapCursor`, `MapEscape`): two bucket arrays and the migration index, once with chains as sequences
  (`HashMap`) and once with linked nodes (`MapLinks`, `LinkedMap`). In every state of every run each table
  stands for a finite map of its own, with the number of nodes that a migration destroyed without
  counting them off. An operation whose scan leaves the table has the outcome `Escaped`. The two
  maps are one map in every state of every run that adds no second copy of a key.
* **Memory copy** (`Memcpy`): one flat memory, in which every load and store of the block moves is
  checked to stay inside the buffers.
* **Tail queues** (`TailQueue`): heads and elements as pairs of pointers of one layout, which is what
  the cast in `TAILQ_LAST` and `TAILQ_PREV` relies on.
* **Reader-writer lock** (`RwLock`) and **ring buffer** (`Ring` for one producer and one consumer,
  `RingCrowd` for any number of either): protocols of single shared accesses, with theorems over every
  interleaving. Memory is sequentially consistent in both.
* **Bitmap shifts** (`Words`, `Bitmap`) and **Jenkins hash** (`JenkinsHash`, `HashBits`): word-level code
  against bit-level and byte-level statements.

Some of what the code or its comments promise does not hold. The model keeps the code as it is, and
gives an input that shows the failure and the exact condition under which the promise holds:

* An insertion into the map looks for the key in one table only, so that during a migration it can
  add a second copy of a key. The tables stand for one map throughout a run if and only if no
  insertion of the run does this (`MapRuns.RunIsMapIff`).
* The scan of a migration has no bound and can leave its table (`MapEscape.ScanEscapes`). A run comes
  to that if and only if one of its insertions, unlinks or replacements starts while `used` of the old
  table is positive and all its buckets are empty (`MapRuns.RunEscapesIff`). `used` gets ahead of the
  buckets exactly when a node is moved whose key is in the new table already (`MapRuns.LosesIff`), and
  from then on the migration cannot end in any other way (`MapRuns.LossDooms`).
* `kylin_map_next` finds out where it is by searching for the key, so that a second copy at the end
  of its chain sends it back to the first table (`MapEscape.WalkLoops`). A walk from `kylin_map_first`
  comes to an end if and only if the first table is empty or no chain of the second ends with a key of
  the first (`MapCursor.WalkEndsIff`).
* `kylin_map_prev` searches for the key too, so that from a second copy it steps to what is in front of
  the first (`MapEscape.PrevForgets`). It undoes every step of `kylin_map_next` if and only if no key
  has two copies (`MapCursor.PrevUndoesNext`), and a single one if and only if the step followed the
  order and ended at a node that the search finds (`MapCursor.BackAgainIff`).
* `kylin_map_first` finds nothing when the old table has been emptied but not yet replaced
  (`MapEscape.FirstFindsNothing`). A walk that ends sees every pair of the map exactly once if and only
  if that is not so and no key has two copies (`MapCursor.Walk`).
* `kylin_roundup_pow_of_two` rounds down to a power of two below its argument, whatever the argument
  (`MapSpec.RoundupBounds`).
* The comment in `krwlock_t` reserves `0xFFFFFFFF` for a writer; that many readers give the same value
  (`RwLock.Saturation`, `RwLock.CounterMeaning`). No guarantee of the lock is lost.
* A ring producer publishes the new head before it stores the value, so a consumer can read the old
  contents of the slot (`Ring.LateStore`). What comes out of a run is a prefix of what went in if and
  only if each read came after its store or found an equal value (`Ring.FirstInFirstOut`).
* The compare-and-set operations of the ring compare positions that come round again. With two producers
  a claim can go through at a full ring, which then looks empty (`RingCrowd.ClaimAfterRound`). The slots
  in use stay within bounds if and only if no claim goes through at a full ring, nor a release at an
  empty one, after at least as many claims or releases as there are slots since its loads
  (`RingCrowd.CrowdOccupancy`).
* A module that is reached more than 2^32 times is loaded again each time its counter wraps to 1: a
  tower of thirty-five levels of two modules does that with one call (`LoaderTower.LoadsTwiceAt34`). It
  is loaded exactly once if and only if at least one and at most 2^32 paths lead to it
  (`LoaderLaws.LoadedOnce`).
* A load call for a missing file leaves an entry in the list that was never loaded
  (`LoaderTower.MissingFile`, `LoaderLaws.ListIsLoadOrder`), and `kylin_module_unload_all` dereferences
  its null `module`. It comes to that if and only if everything behind such an entry unloads
  (`ModuleLoader.Session.UnloadAll`), and such an entry exists if and only if some call named a missing
  file (`LoaderLaws.NeverLoadedIff`).

## Model

| member | source | states |
|---|---|---|
| `RbHeap.Head.RotateLeft` | include/math/kylin_rb_hpi.h:51-69 | the pointer writes of a left rotation turn the zipper for one shape into the zipper for the other; every other node keeps its links and colour |
| `RbHeap.Head.RotateRight` | include/math/kylin_rb_hpi.h:71-89 | the mirror image |
| `RbInsert.InsertColor` | include/math/kylin_rb_hpi.h:116-158 | from a tree whose only fault is a red element under a red parent, the loop ends in a red-black tree with the same in-order sequence; it terminates because the fault moves up the path |
| `RbInsert.Insert` | include/math/kylin_rb_hpi.h:306-334 | a new key goes to its sorted place and every red-black rule holds afterwards; an equal key returns the node that has it and nothing changes, and an element that is in the tree already is that node |
| `RbInsert.Descend` | include/math/kylin_rb_hpi.h:309-324 | the search loop ends at an equal element or at the gap that splits the order at the key |
| `RbRemove.RemoveColor` | include/math/kylin_rb_hpi.h:160-236 | from a tree in which one subtree lacks a black level, the loop ends in a red-black tree with the same in-order sequence |
| `RbRemove.SiblingExists` | include/math/kylin_rb_hpi.h:166-168 | the sibling of a subtree that lacks a black level is never null |
| `RbRemove.RemoveOuter` | include/math/kylin_rb_hpi.h:243-302 | removal of a node with at most one child: the tree stays red-black and loses exactly that node |
| `RbRemove.RemoveInner` | include/math/kylin_rb_hpi.h:247-284 | removal of a node with two children: its successor takes over its links and colour, and the order loses exactly the removed node |
| `RbRemove.Remove` | include/math/kylin_rb_hpi.h:238-303 | for every node of every valid tree: the result is a valid red-black tree with consistent parent links whose in-order sequence is the old one without that node |
| `RbShape.HeightBound` | include/math/kylin_rb_hpi.h:337-373 | a red-black tree of n nodes has height at most 2 log2(n + 1), written as 2^height <= (n + 1)^2 |
| `RbSearch.Find` | include/math/kylin_rb_hpi.h:337-353 | an element with an equal key if there is one, else null, after logarithmically many rounds |
| `RbSearch.NFind` | include/math/kylin_rb_hpi.h:355-373 | the least element that is not below the key, after logarithmically many rounds |
| `RbSearch.Next` | include/math/kylin_rb_hpi.h:376-396 | by links alone: the next element in the order, or null after the last |
| `RbSearch.Prev` | include/math/kylin_rb_hpi.h:398-417 | the element before, or null |
| `RbSearch.MinMax` | include/math/kylin_rb_hpi.h:419-432 | the first or the last element in the order |
| `RbSearch.Foreach` | include/math/kylin_rb_hpi.h:446-449 | every element exactly once, in ascending order |
| `RbSearch.ForeachReverse` | include/math/kylin_rb_hpi.h:461-464 | the same sequence backwards |
| `RbSearch.NextThenPrev` | include/math/kylin_rb_hpi.h:376-417 | stepping on and back returns to the start wherever there is a next element |
| `KList.List.InsertTail` | lib/core/math/kylin_list.c:146-172 | the doubly linked list gets one node at its end and stays consistent |
| `KList.List.InsertBefore` | lib/core/math/kylin_list.c:200-224 | a new node exactly before a given one |
| `KList.List.LinkBefore` | lib/core/math/kylin_list.c:275-288 | the link updates of that insertion, for any place including the head |
| `KList.List.UnlinkRaw` | lib/core/math/kylin_list.c:350-365 | the list loses exactly that node |
| `KList.List.FindRaw` | lib/core/math/kylin_list.c:395-406 | the first node with the name, or null |
| `KList.List.Backward` | include/math/kylin_list.h:102-105 | stepping back from the tail gives the reverse of the list |
| `LoaderSpec.ArriveKeeps` | lib/core/kylin_core_module.c:143-170 | counting or inserting a dependency keeps every entry of the list |
| `LoaderGraph.RankedIffAcyclic` | lib/core/kylin_core_module.c:172-181 | the recursive walk has a descending measure if and only if the dependency relation is closed and acyclic |
| `LoaderLaws.WalkCounts` | lib/core/kylin_core_module.c:143-187 | a walk adds to every counter the number of dependency paths it follows, with multiplicity |
| `LoaderLaws.WalkLoads` | lib/core/kylin_core_module.c:186-187 | a walk runs the load handler of a module once per first arrival and once per wrap of the counter |
| `LoaderLaws.RunCounts` | lib/core/kylin_core_module.c:193-233 | after any load calls, refcnt is the number of dependency paths from the loaded modules, modulo 2^32 |
| `LoaderGraph.PathsListed` | lib/core/kylin_core_module.c:143-187 | that number counts exactly the distinct edge sequences of the relation |
| `LoaderLaws.LoadedOnce` | lib/core/kylin_core_module.c:186-187 | a module is loaded if and only if some path leads to it, and exactly once if and only if at most 2^32 do |
| `LoaderLaws.WalkOrder` | lib/core/kylin_core_module.c:123-191 | the walk of one module keeps the list equal to the load order followed by the modules still being walked |
| `LoaderLaws.LoadOrderIsTopological` | lib/core/kylin_core_module.c:123-233 | after any load calls the listed modules that have files are in load order, without duplicates, each after all its dependencies |
| `LoaderLaws.ListIsLoadOrder` | lib/core/kylin_core_module.c:203-218 | the whole list is the load order if and only if every load call named an existing file |
| `LoaderLaws.LogIsList` | lib/core/kylin_core_module.c:193-233 | with no counter wrapped, the sequence of handler calls is the list itself |
| `LoaderOrder.LoadAnswers` | lib/core/kylin_core_module.c:193-233 | after any load calls the next one answers that the module exists if and only if it was called before or a path leads to it from one that was, that it has no file if and only if neither is so and it has none, and that it is loaded otherwise |
| `LoaderOrder.LoadOrderIsDepthFirst` | lib/core/kylin_core_module.c:172-187 | modules load in the order in which a depth-first walk is done with them, which takes the calls in turn and the dependencies of each module in the order of its symbols |
| `LoaderOrder.DependenciesConcat` | lib/core/kylin_core_module.c:172-184 | declared dependencies come symbol by symbol in the order of the symbol table |
| `LoaderOrder.DependencyOf` | lib/core/kylin_core_module.c:136-140 | a symbol declares what follows the name of the module and `_depend_on_`, unless nothing does |
| `ModuleLoader.Session.WalkSymbols` | lib/core/kylin_core_module.c:172-184 | the symbol loop with the recursive hook changes the session as the value-level walk says |
| `ModuleLoader.Session.Depend` | lib/core/kylin_core_module.c:123-191 | one declared dependency: count or insert, walk it in full, load it on the first finish |
| `ModuleLoader.Session.Reach` | lib/core/kylin_core_module.c:143-170 | a known dependency is counted; any other is put just before its dependent |
| `ModuleLoader.Session.LoadModule` | lib/core/kylin_core_module.c:193-233 | a load call as the value-level walk does it, with the answer that `LoaderOrder.LoadAnswers` tells by paths |
| `ModuleLoader.Session.UnloadAll` | lib/core/kylin_core_module.c:320-339 | handlers run from the last entry back, and stop after the first that refuses or before the first entry that was never loaded; who was called tells which of the three endings it is |
| `ModuleLoader.RunSession` | lib/core/kylin_core_module.c:193-339 | from creation through any load calls to the unloading: the answer of every call by the calls before it and the dependency paths; the load order is that of a depth-first walk; an unloading that goes through is its exact reverse; with agreeing handlers it crashes if and only if some call named a missing file |
| `LoaderLaws.NeverLoadedIff` | lib/core/kylin_core_module.c:203-218 | an entry was never loaded if and only if it has no file, and such entries exist if and only if some load call named a missing file |
| `LoaderTower.MissingFile` | lib/core/kylin_core_module.c:216-218 | one load call for a missing file leaves an entry and no load |
| `LoaderTower.LoadsTwice` | lib/core/kylin_core_module.c:143-187 | one load call of a tower with more than 2^32 paths to its bottom loads the bottom more than once |
| `LoaderTower.LoadsTwiceAt34` | lib/core/kylin_core_module.c:186-187 | such a tower with thirty-five levels |
| `MapSpec.RoundupBounds` | include/arch/kylin_bitops.h:52-55 | the result r is a power of two with r < n <= 2r |
| `MapWorld.TwoUnique` | lib/core/math/kylin_map.c:75-434 | the tables determine the two maps and the number of lost nodes |
| `MapWorld.FindIsView` | lib/core/math/kylin_map.c:410-434 | a search over the two tables answers as the map of the old table laid over the map of the new one, during a migration too |
| `MapWorld.CountIsSize` | lib/core/math/kylin_map.c:190-193 | the two `used` fields add up to the sizes of both maps and the lost nodes: the size of the map, if it is one |
| `MapWorld.ScanIff` | lib/core/math/kylin_map.c:84-85 | the unbounded scan finds a bucket to stop at if and only if the old table has a node |
| `MapWorld.MoveTwo` | lib/core/math/kylin_map.c:83-116 | moving one bucket: its keys leave the old map, copies in the new one win, and the others are lost but still counted; the index advances |
| `MapWorld.RoundTwo` | lib/core/math/kylin_map.c:83-116 | a round of the migration leaves the table if and only if the old one is dry; otherwise nothing is lost from a map without second copies, and the index advances |
| `MapWorld.RehashTwo` | lib/core/math/kylin_map.c:75-124 | a migration keeps the map, never escapes while there is one map, and ends or gets past as many buckets as it was asked for |
| `MapWorld.ResizeTwo` | lib/core/math/kylin_map.c:195-220 | a resize keeps both maps in all its outcomes |
| `MapWorld.ExpansionSucceeds` | lib/core/math/kylin_map.c:67-73 | an automatic expansion picks a power of two that is larger than the table and at least `used`, and is never refused as existing |
| `MapGrowth.GrowsIff` | lib/core/math/kylin_map.c:67-73 | an insertion into a settled map starts a migration or changes the capacity if and only if there are at least six nodes to a bucket; the new capacity r is the power of two with r < 2 used <= 2r |
| `MapGrowth.FirstGrowth` | lib/core/math/kylin_map.c:349-354 | the first insertion makes two buckets |
| `MapGrowth.NoGrowthMeanwhile` | lib/core/math/kylin_map.c:199-200 | an insertion during a migration goes on with the tables there are |
| `MapGrowth.LoadFactor` | lib/core/math/kylin_map.c:349-363 | on every run from creation without explicit resizes, outside of migrations there are at most six nodes to a bucket |
| `MapGrowth.ResizeAnswers` | lib/core/math/kylin_map.c:195-220 | a resize is busy if and only if a migration is under way, refused as existing if and only if it would pick the present capacity, and else leaves an empty table of the right power of two in the right place |
| `MapGrowth.StepMovesOne` | lib/core/math/kylin_map.c:83-123 | the migration step of an operation moves the first bucket that is not empty and no other |
| `MapGrowth.IndexIsModulo` | lib/core/math/kylin_map.c:89-89 | with a power of two of buckets the mask takes the hash modulo their number |
| `MapRuns.PreparedTwo` | lib/core/math/kylin_map.c:349-363 | expansion and migration step before an insertion: when they escape, what they keep, and that the target table exists |
| `MapRuns.InsertTwo` | lib/core/math/kylin_map.c:343-379 | an insertion escapes if and only if the old table is dry; it leaves one map behind if and only if it adds no second copy, and has then added the pair unless the key was there |
| `MapRuns.UnlinkTwo` | lib/core/math/kylin_map.c:288-322 | an unlink escapes if and only if the old table is dry, and removes exactly its key from a map |
| `MapRuns.ReplaceTwo` | lib/core/math/kylin_map.c:381-408 | a replace escapes if and only if the old table is dry, and changes the value of a present key and nothing else |
| `MapRuns.RunTwo` | lib/core/math/kylin_map.c:75-434 | on every run that does not escape each table stands for a map of its own |
| `MapRuns.RunIsMapIff` | lib/core/math/kylin_map.c:359-372 | all states of a run stand for one map if and only if no insertion adds a second copy; it is then the map that the same operations build; inserting absent keys only is enough |
| `MapRuns.FindAfterRun` | lib/core/math/kylin_map.c:410-434 | after any run from creation without second copies, every search and the count are those of that map |
| `MapRuns.RunEscapesIff` | lib/core/math/kylin_map.c:83-85 | a run leaves the table if and only if one of its changing operations comes to a state with `used` positive and no node in the old table |
| `MapRuns.LosesIff` | lib/core/math/kylin_map.c:87-113 | a round makes `used` count a node that is gone if and only if it moves a key that the new table has |
| `MapRuns.LossDooms` | lib/core/math/kylin_map.c:83-123 | once that has happened the migration never ends, and escapes within one changing operation per remaining bucket and one more |
| `MapRuns.RehashEnds` | lib/core/math/kylin_map.c:83-123 | on every run a migration is over, or has left its table, within that many operations |
| `MapRuns.RehashFinishes` | lib/core/math/kylin_map.c:83-123 | without second copies, a migration of c buckets is over within c changing operations |
| `MapEscape.ScanEscapes` | lib/core/math/kylin_map.c:83-104 | a run from creation that inserts one key twice during a migration and leaves the table |
| `MapEscape.FirstFindsNothing` | lib/core/math/kylin_map.c:436-452 | a run from creation to a state with a node in the new table, none in the old one, and a migration under way |
| `MapEscape.WalkLoops` | lib/core/math/kylin_map.c:478-525 | a run from creation after which a walk never comes to an end |
| `MapEscape.PrevForgets` | lib/core/math/kylin_map.c:527-583 | a run from creation, and a step of next that prev does not undo |
| `HashMap.Guard.Migrate` | lib/core/math/kylin_map.c:75-124 | the nested loops over buckets and nodes do what the value-level migration does, and leave the table exactly when it does |
| `HashMap.Guard.ResizeTo` | lib/core/math/kylin_map.c:195-220 | the resize with its three outcomes |
| `HashMap.Guard.InsertRaw` | lib/core/math/kylin_map.c:343-379 | the insertion in place: when it escapes, when there is one map afterwards, its contents, and the node that has the key |
| `HashMap.Guard.UnlinkKey` | lib/core/math/kylin_map.c:288-322 | the unlink in place, returning the removed node |
| `HashMap.Guard.ReplaceValue` | lib/core/math/kylin_map.c:381-408 | the replace in place |
| `HashMap.Guard.Find` | lib/core/math/kylin_map.c:410-434 | the node of the key if and only if a table has it, the old table first |
| `HashMap.Guard.Count` | lib/core/math/kylin_map.c:190-193 | the size of the contents, if they are one map |
| `MapLinks.Locate` | lib/core/math/kylin_map.c:418-427 | on chains of linked nodes: the node of a key, its bucket and the node before it, exactly if the table has the key |
| `MapLinks.UnlinkFound` | lib/core/math/kylin_map.c:302-316 | taking a node out of its links, at the front or after its predecessor, leaves a table of chains without exactly that node |
| `MapLinks.PushFront` | lib/core/math/kylin_map.c:374-376 | linking a node in front of its bucket |
| `MapLinks.ReplaceFound` | lib/core/math/kylin_map.c:396-401 | changing the value of a node changes that entry of its chain and no other |
| `MapLinks.MoveChain` | lib/core/math/kylin_map.c:87-113 | relinking the nodes of a chain one by one into another table, and dropping those whose key is there |
| `LinkedMap.Block.MoveOver` | lib/core/math/kylin_map.c:87-116 | with linked nodes: the chain of one bucket goes over to the other table node by node, and no node is in both tables afterwards |
| `LinkedMap.Guard.Find` | lib/core/math/kylin_map.c:410-434 | with linked nodes: the node of the key, the old table first |
| `LinkedMap.Guard.Migrate` | lib/core/math/kylin_map.c:75-124 | with linked nodes: the migration, with its escape and the exchange of the tables |
| `LinkedMap.Guard.ResizeTo` | lib/core/math/kylin_map.c:195-220 | with linked nodes: the resize |
| `LinkedMap.Guard.InsertRaw` | lib/core/math/kylin_map.c:343-379 | with linked nodes: expansion, migration step and insertion, and the node that has the key |
| `LinkedMap.Guard.UnlinkKey` | lib/core/math/kylin_map.c:288-322 | with linked nodes: migration step and removal from either table |
| `LinkedMap.Guard.ReplaceValue` | lib/core/math/kylin_map.c:381-408 | with linked nodes: migration step and change of one value |
| `MapCursor.NextIsNext` | lib/core/math/kylin_map.c:478-525 | from every node: next within a chain, across buckets and across tables is the next node of one fixed order, except that a second copy at the end of its chain leads back to what is behind the bucket of the first copy |
| `MapCursor.PrevIsPrev` | lib/core/math/kylin_map.c:527-583 | from every node: prev is the node in front of the one that a search for the key finds, which is the node itself unless it is a second copy |
| `MapCursor.PrevUndoesNext` | lib/core/math/kylin_map.c:478-583 | prev undoes next everywhere if and only if no key has two copies, and then next undoes prev everywhere |
| `MapCursor.BackAgainIff` | lib/core/math/kylin_map.c:478-583 | prev leads back from where next led if and only if next followed the order and ended at a node that the search finds |
| `MapCursor.ForthAgainIff` | lib/core/math/kylin_map.c:478-583 | next leads back from where prev led if and only if the search finds the node that prev started from, and the one it led to has a link to follow or is found |
| `MapCursor.GoesBack` | lib/core/math/kylin_map.c:495-519 | from a second copy at the end of its chain, next goes to a node that is not later in the order |
| `MapCursor.WalkEndsIff` | lib/core/math/kylin_map.c:436-525 | a walk from first by next comes to an end if and only if the first table is empty or no chain of the second ends with a key of the first |
| `MapCursor.OrderIsComplete` | lib/core/math/kylin_map.c:478-525 | that order has every pair of each table exactly once |
| `MapCursor.First` | lib/core/math/kylin_map.c:436-452 | the first node of the order, and nothing if and only if the first table is empty |
| `MapCursor.Next` | lib/core/math/kylin_map.c:478-525 | the method for the step, from every node |
| `MapCursor.Prev` | lib/core/math/kylin_map.c:527-583 | the method for the step back, from every node |
| `MapCursor.Walk` | lib/core/math/kylin_map.c:436-525 | first and then next to the end, where there is one: every pair of the map is seen exactly once if and only if no key has two copies, and the first table has nodes or the second has none |
| `Memcpy.Mov` | include/arch/x86/kylin_memcpy.h:13-35 | a block move inside the two buffers extends what is copied and touches nothing else |
| `Memcpy.Mov128Blocks` | include/arch/x86/kylin_memcpy.h:51-64 | whole blocks of 128 bytes, loads before stores |
| `Memcpy.Mov512Blocks` | include/arch/x86/kylin_memcpy.h:66-91 | whole blocks of 512 bytes, loads before stores |
| `Memcpy.Back63` | include/arch/x86/kylin_memcpy.h:153-163 | what follows the label completes the copy, with a last move that may reach back |
| `Memcpy.CopyGeneric` | include/arch/x86/kylin_memcpy.h:93-208 | all size classes, the alignment peeling and the jump back give a plain copy |
| `Memcpy.CopyAligned` | include/arch/x86/kylin_memcpy.h:210-267 | the same for the aligned variant |
| `Memcpy.Copy` | include/arch/x86/kylin_memcpy.h:269-275 | for every size, alignment and pair of separate buffers: the destination equals the source, and no other byte changes |
| `TailQueue.Last` | include/math/kylin_list_hpi.h:562-563 | the last element, or null for an empty queue |
| `TailQueue.Prev` | include/math/kylin_list_hpi.h:567-568 | the element before, or null for the first |
| `TailQueue.ForeachReverse` | include/math/kylin_list_hpi.h:498-501 | the exact reverse of the queue, element by element |
| `TailQueue.InsertHead` | include/math/kylin_list_hpi.h:539-550 | the queue with the element in front |
| `TailQueue.InsertTail` | include/math/kylin_list_hpi.h:552-560 | the queue with the element at the end |
| `TailQueue.InsertAfter` | include/math/kylin_list_hpi.h:514-527 | the queue with the element after the given one |
| `TailQueue.InsertBefore` | include/math/kylin_list_hpi.h:529-537 | the queue with the element before the given one, without access to the head |
| `TailQueue.Remove` | include/math/kylin_list_hpi.h:570-586 | the queue without the element |
| `TailQueue.Concat` | include/math/kylin_list_hpi.h:473-482 | concatenation; the second queue ends up empty |
| `TailQueue.Swap` | include/math/kylin_list_hpi.h:588-603 | the sequences change places, empty queues included |
| `TailQueue.Run` | include/math/kylin_list_hpi.h:473-603 | after any run of operations on two queues, forward walks give the expected sequences and backward walks their exact reverses |
| `RwLock.StepKeepsSafe` | include/arch/kylin_rwlock.h:16-56 | every load, compare-and-set and unlock keeps: one writer and no reader, or a counter equal to the number of readers |
| `RwLock.MutualExclusion` | include/arch/kylin_rwlock.h:16-56 | for any number of threads and any interleaving, no two threads hold the lock unless both read |
| `RwLock.CounterMeaning` | include/arch/kylin_rwlock.h:7-9 | the counter is 0xFFFFFFFF under a writer and the number of readers otherwise |
| `RwLock.WriterEntersIff` | include/arch/kylin_rwlock.h:45-49 | the compare-and-set of a writer goes through if and only if it saw 0 and nobody holds the lock |
| `RwLock.ReaderEntersIff` | include/arch/kylin_rwlock.h:22-28 | that of a reader if and only if there is no writer, fewer than 2^32 - 1 readers, and as many as it saw |
| `RwLock.Unlocks` | include/arch/kylin_rwlock.h:32-56 | an unlock takes exactly one holder away |
| `RwLock.WriterProgress` | include/arch/kylin_rwlock.h:37-51 | after any run, a thread that is to write has steps of its own that lead to the lock if and only if nobody holds it |
| `RwLock.ReaderProgress` | include/arch/kylin_rwlock.h:16-30 | after any run, a thread that is to read has such steps if and only if there is no writer and room for one more |
| `RwLock.Saturation` | include/arch/kylin_rwlock.h:8-8 | with enough threads the counter reaches 0xFFFFFFFF with readers only |
| `Ring.ClaimKeeps` | lib/core/math/kylin_ring.c:68-81 | a claim on a stale tail takes the next slot, which is not in use or being read, if the ring was not full at the load of the tail, and is refused exactly if it was |
| `Ring.ReleaseKeeps` | lib/core/math/kylin_ring.c:94-105 | a dequeue on a stale head takes the next slot if the ring was not empty at the load of the head, and finds nothing exactly if it was |
| `Ring.EnqueueAlone` | lib/core/math/kylin_ring.c:61-84 | from every reachable state, an enqueue that is not disturbed stores its value in the next slot, or is refused if and only if the ring is full |
| `Ring.DequeueAlone` | lib/core/math/kylin_ring.c:86-108 | from every reachable state, a dequeue that is not disturbed hands out what the next slot holds, or nothing if and only if the ring is empty |
| `Ring.TakeIsNext` | lib/core/math/kylin_ring.c:101-104 | in every reachable state: what is read is the next enqueued value if and only if it is stored already or the old contents are equal |
| `Ring.PeekIsNext` | lib/core/math/kylin_ring.c:110-129 | a peek sees the value that comes next in the order under exactly the same condition on its slot |
| `Ring.FirstInFirstOut` | lib/core/math/kylin_ring.c:61-108 | over every interleaving, dequeued values are a prefix of the enqueued ones if and only if each read came after its store or found an equal value |
| `Ring.Occupancy` | lib/core/math/kylin_ring.c:61-108 | over every interleaving, 0 to cap - 1 slots are in use and no claim takes the slot that is being read |
| `Ring.TogetherIsGood` | lib/core/math/kylin_ring.c:76-81 | that condition holds if claim and store are one action |
| `Ring.LateStore` | lib/core/math/kylin_ring.c:76-81 | a run in which the consumer gets the old contents of a claimed slot |
| `RingCrowd.ClaimAtFull` | lib/core/math/kylin_ring.c:68-76 | for any number of threads: at a full ring a claim goes through if and only if the head, having come round, is where the producer saw it, and the tail it saw lets it; the new head is then the tail |
| `RingCrowd.ClaimIsFree` | lib/core/math/kylin_ring.c:73-76 | a claim at a ring that is not full takes no slot in use, and not the one given back last |
| `RingCrowd.ClaimsIff` | lib/core/math/kylin_ring.c:68-76 | in every state: a claim goes through if and only if the head is where it was modulo the capacity and its next slot is not the tail that was seen; it then takes that slot |
| `RingCrowd.ReleasesIff` | lib/core/math/kylin_ring.c:94-104 | the same for a release |
| `RingCrowd.FreshClaimIff` | lib/core/math/kylin_ring.c:68-76 | with fewer claims since the load than there are slots, a claim goes through if and only if there was none and the ring was not full |
| `RingCrowd.UndisturbedClaim` | lib/core/math/kylin_ring.c:61-84 | a producer that is not disturbed claims the next slot if and only if the ring is not full |
| `RingCrowd.UndisturbedRelease` | lib/core/math/kylin_ring.c:86-105 | a consumer that is not disturbed takes the next slot if and only if the ring is not empty |
| `RingCrowd.LeavesIff` | lib/core/math/kylin_ring.c:61-108 | an access takes the number of slots in use out of bounds if and only if it is such a claim at a full ring or such a release at an empty one |
| `RingCrowd.CrowdOccupancy` | lib/core/math/kylin_ring.c:61-108 | over every interleaving of any number of producers and consumers, 0 to cap - 1 slots are in use throughout if and only if there is none of these |
| `RingCrowd.ClaimAfterRound` | lib/core/math/kylin_ring.c:68-76 | a run of two producers and a consumer after which the ring looks empty with two values in it |
| `Bitmap.RightAt` | lib/core/math/kylin_bitmap.c:160-173 | bit j of a bitmap shifted right by s is bit j + s, with zero fill |
| `Bitmap.LeftAt` | lib/core/math/kylin_bitmap.c:198-208 | bit j of a bitmap shifted left by s is bit j - s, with zero fill |
| `Bitmap.LeftThenRight` | lib/core/math/kylin_bitmap.c:145-216 | left and right by s clears exactly the top s bits |
| `Bitmap.RightThenLeft` | lib/core/math/kylin_bitmap.c:145-216 | right and left by s clears exactly the lowest s bits |
| `Bitmap.RightTwice` | lib/core/math/kylin_bitmap.c:145-181 | right by a and then b is right by a + b |
| `Bitmap.LeftTwice` | lib/core/math/kylin_bitmap.c:183-216 | left by a and then b is left by a + b |
| `Bitmap.ShiftRight` | lib/core/math/kylin_bitmap.c:145-181 | the loop and the copy back; a shift by more bits than there are is refused and changes nothing |
| `Bitmap.ShiftLeft` | lib/core/math/kylin_bitmap.c:183-216 | the same to the left |
| `JenkinsHash.MixReversible` | include/utils/kylin_hash.h:18-27 | the mixing macro is a bijection on triples of words |
| `JenkinsHash.FinalReversible` | include/utils/kylin_hash.h:29-39 | the final macro is a bijection on triples of words |
| `HashBits.RotBit` | include/utils/kylin_hash.h:16-16 | bit j of a word rotated by k is its bit j - k modulo 32 |
| `HashBits.MixIs` | include/utils/kylin_hash.h:19-27 | the eighteen values of the mixing macro with their rotations by 4, 6, 8, 16, 19 and 4 |
| `HashBits.FinalIs` | include/utils/kylin_hash.h:30-39 | the fourteen values of the final macro with their rotations by 14, 11, 25, 16, 4, 14 and 24 |
| `HashBits.MixValue` | include/utils/kylin_hash.h:19-27 | the mix of (1, 0, 0) |
| `HashBits.FinalValue` | include/utils/kylin_hash.h:30-39 | the final of (1, 0, 0) |
| `HashBits.WordsValue` | include/utils/kylin_hash.h:101-129 | the hash of the words 1, 2, 3, 4 |
| `HashBits.BytesValue` | include/utils/kylin_hash.h:54-92 | the hash of a key of eleven bytes with an initial value |
| `HashBits.EmptyValue` | include/utils/kylin_hash.h:54-129 | the hash of an empty key is 0xdeadbeef plus the initial value |
| `JenkinsHash.NoCollision` | include/utils/kylin_hash.h:101-129 | keys of equal length that differ in at most one three-word block end in the same state if and only if they are equal |
| `JenkinsHash.SameHashes` | include/utils/kylin_hash.h:54-129 | the byte hash of the little-endian encoding of a word array of less than 2^32 bytes is its word hash |
| `JenkinsHash.MixInPlace` | include/utils/kylin_hash.h:19-27 | the eighteen assignments compute the mix whose values `HashBits.MixIs` lists |
| `JenkinsHash.FinalInPlace` | include/utils/kylin_hash.h:30-39 | the fourteen assignments compute the final whose values `HashBits.FinalIs` lists |
| `JenkinsHash.HashOfWords` | include/utils/kylin_hash.h:101-129 | the loop and the fall-through cases compute the word hash of fewer than 2^32 words |
| `JenkinsHash.HashOfBytes` | include/utils/kylin_hash.h:54-92 | the loop and the fall-through cases compute the byte hash of fewer than 2^32 bytes |

## Left out

- lib/core/math/kylin_rb.c: a second copy of the tree algorithm whose insert and two-child removal differ from the macros.
- lib/core/math/kylin_index.c: a second copy of the map algorithm.
- kylin_map_clear, kylin_map_key and kylin_map_last; kylin_map_unlink_raw, which repeats kylin_map_unlink for the key of a node; kylin_map_remove and kylin_map_insert, which add allocation only.
- Map keys of integer types: their comparison never reports equality, so only keys with a comparator are modelled, and a comparator is equality.
- HashMap.Guard: its bucket arrays hold chains as sequences; the same operations on linked nodes are those of `LinkedMap.Guard`. A cursor of `MapCursor` is a node with the rest of its chain, and walks are over `HashMap.Guard`.
- LinkedMap.Guard.Migrate: `used` of the two tables changes once for each bucket, by the number of nodes moved, and not with each node.
- MapRuns.RunTwo: a resize to a count below 2 counts as no operation.
- HashMap.Guard.ResizeTo and LinkedMap.Guard.ResizeTo: exclude a count below 2, for which `bsr` is undefined or the shift gives 2^63 buckets. The 32-bit width of `rehashidx` and the allocation of the tables are not modelled.
- Memcpy.Copy: buffers that overlap are excluded, as the C function excludes them; address arithmetic does not wrap.
- kylin_module_unload of a single module, kylin_module_load_all, the calls of `exit`, cyclic dependencies, dependencies without a file, load handlers that fail, and names of 64 or more characters. The ELF reader is a function from module names to symbol lists, and `param.mod_name` holds the name of the module.
- Ring.FirstInFirstOut: one producer and one consumer. `RingCrowd` has any number of either, but only the slots and not their values; kylin_ring_destroy is not modelled.
- RwLock.WriterProgress and RwLock.ReaderProgress speak of a thread that is left alone; fairness between threads is not modelled.
- kylin_bitmap_set and kylin_bitmap_clear, and the logical operations on bitmaps.
- kylin_hash_3words and its one- and two-word forms.
- The other list, queue and stack structures, timers, sockets, events, threads, logging and the spinlock assembly.
- Allocation failure, custom allocators, and constructors and destructors of values.
