# Verified models of the Linux programming workouts

The repository is a collection of independent workouts in C, C++ and Go. This project models
the eleven whose behaviour is hardest to get right and proves what they are for, over every
input, every run or every interleaving:

- the in-place bubble sort of a doubly linked list of lines (`ListSort`);
- breadth-first search by iterated map-reduce jobs over text files (`VertexLine`,
  `MapReduceBfs`, `BfsRounds`, `BfsJobs`);
- the naive Dijkstra search with its cap on the number of iterations (`Dijkstra`);
- the boundary-tag allocator: chunk lists as values and whole runs (`Chunks`), the word buffer
  that refines them (`Allocator`), and programs that allocate, free and store (`HeapPrograms`);
- the slab cache: block chains and slab lists (`SlabLists`), the cache (`SlabCache`) and its
  sizing arithmetic (`SlabSizing`);
- Gaussian elimination over exact reals (`Vectors`, `LinearSystem`), the status it reports and
  when that is true (`SystemStatus`, `CountedRank`, `RightSides`), and least squares (`LeastSquares`,
  `NormalElimination`);
- triangle counting (`Triangles`);
- Base64 as in section 4 of RFC 4648, with the table-driven codec (`Base64`, `Base64Codec`,
  `Base64Loops`), the standard's own wording (`Base64Standard`) and the smaller decoder
  (`Base64Plain`);
- the file server's connection pool (`ConnectionPool`) and the protocol of its acceptor,
  workers and shutdown (`PoolProtocol`, `PoolRuns`, `PoolSlots`);
- the priority fan-out and fan-in of the URL validator (`PriorityFan`, `PriorityFanRuns`), and
  when it answers exactly the given URLs (`PriorityFanExact`, `PriorityFanMixups`) and in which
  order (`PriorityFanAnswers`);
- the reference-counted pointer (`SharedPointer`).

`Bits` holds machine words as natural numbers and is shared by three of them; `FiniteSets` holds
a fact about sizes used by the two graph searches, and `Options` the option type.

Code that updates objects, buffers or variables in loops is a class or a method with a loop,
proved against a specification; the specification's properties are lemmas. The two concurrent
programs are state machines whose steps are their atomic actions, and their theorems are about
every reachable state. Where a promise fails of the code, the code is kept, a lemma or method
shows the failing case, and another states exactly when the promise holds: an allocation is safe
iff it chooses a free chunk, and a program's blocks never overlap iff all its allocations do;
freeing a block keeps its slab's chain ending iff the slab is empty or the block is not deeper
in it; a linear system is reported truly for every right side iff its non-zero eliminated rows
are independent; a search for an unreachable vertex overflows iff another round follows and
vertex 1 has an edge; re-encoding gives a text back iff its spare bits are zero; a pool's spare
bits survive a store iff the pool was not full; every closing run answers exactly the given URLs
iff those of equal priority are equal, and for different URLs a run does iff no worker takes the
answer to another request.

Where code and intent differ, the model follows the code: `find_chunk` loads the status of a
chunk and does not test it; `find_rank` counts non-zero rows; `store_connection` clears a bit
before it finds that there was no slot; `checkUrl` reuses one response channel for all the URLs
of a worker. Two readings are assumptions: the uninitialised `zero_size` of `pool_is_full` is
taken to start as `INT64_MAX`, and a slab is taken to be `slab_size` bytes although `alloc_slab`
asks for less.

## Model

| member | source | states |
|---|---|---|
| ListSort.CompareIs | src/pthreads-problems/problem-3/solution_only_mutex.c:199 | a line compares below another iff it is a proper prefix of it or has the smaller character where they first differ, and equal iff it is the same |
| ListSort.CompareIsAntisymmetric | src/pthreads-problems/problem-3/solution_only_mutex.c:199 | comparing two lines the other way round negates the result, and it is zero only for equal lines |
| ListSort.CompareIsTransitive | src/pthreads-problems/problem-3/solution_only_mutex.c:199 | the order of lines is transitive |
| ListSort.SwappedIsStable | src/pthreads-problems/problem-3/solution_only_mutex.c:199-208 | exchanging two neighbours with different lines keeps the nodes of every line in their order |
| ListSort.StableSortIsUnique | src/pthreads-problems/problem-3/solution_only_mutex.c:194-213 | two sorted arrangements that agree on the order of the nodes of each line are the same: sorted and stable determines the result |
| ListSort.StableKeepsOrder | src/pthreads-problems/problem-3/solution_only_mutex.c:194-213 | an arrangement that keeps the nodes of every line in order keeps any two nodes with equal lines in order, position by position |
| ListSort.Swap | src/pthreads-problems/problem-3/solution_only_mutex.c:158-180 | relinks two neighbours so that next and prev mirror each other over the same nodes with the two exchanged, touching no node outside the list, or returns 1 and changes no link at all if they are not neighbours |
| ListSort.LineList.AddToHead | src/pthreads-problems/problem-3/solution_only_mutex.c:54-71 | puts one new node holding the line before the old list and keeps the links mirrored |
| ListSort.LineList.Exchange | src/pthreads-problems/problem-3/solution_only_mutex.c:200-208 | the exchange inside a pass, with the head moved when the first node is exchanged, is the exchange of two list positions |
| ListSort.LineList.Pass | src/pthreads-problems/problem-3/solution_only_mutex.c:195-212 | one pass carries a largest line to the end of the unsettled part, stays a stable rearrangement, and reports no exchange only on a sorted list |
| ListSort.LineList.Sort | src/pthreads-problems/problem-3/solution_only_mutex.c:191-213 | on every nonempty well-formed list the loops end with the same nodes, well linked from the head; of any two nodes the earlier has the same line or one that comes first in dictionary order, and nodes with equal lines stand in their old order |
| VertexLine.StoIReadsDigits | src/c++/map-reduce/BFS-non-weighted-graph/shortest_path_utils.cpp:21-33 | reading back a printed number up to INT_MAX gives that number |
| VertexLine.DigitsAreDecimal | src/c++/map-reduce/BFS-non-weighted-graph/shortest_path_utils.cpp:106-112 | a number below ten is printed as its decimal digit, and ten times a number plus a digit as the number followed by the digit |
| VertexLine.ValueIsNumber | src/c++/map-reduce/BFS-non-weighted-graph/shortest_path_utils.cpp:21-33 | the digits read are worth the sum of each digit times the power of ten of its place |
| VertexLine.StoIReads | src/c++/map-reduce/BFS-non-weighted-graph/shortest_path_utils.cpp:21-33 | stoi of any text, taken apart into spaces, a sign or none, digits and the rest: the decimal number with its sign, and an exception iff there is no digit or the number leaves 32 bits |
| VertexLine.StoIReadsInt | src/c++/map-reduce/BFS-non-weighted-graph/shortest_path_utils.cpp:21-33 | every int reads back from its printed text, negative ones included |
| VertexLine.SplitLine | src/c++/map-reduce/BFS-non-weighted-graph/shortest_path_utils.cpp:3-19 | the loop computes the nonempty pieces between separators, in order |
| VertexLine.SplitUndoesJoin | src/c++/map-reduce/BFS-non-weighted-graph/shortest_path_utils.cpp:3-19 | splitting what was joined from nonempty, separator-free pieces gives the pieces back |
| VertexLine.SplitAtSeparator | src/c++/map-reduce/BFS-non-weighted-graph/shortest_path_utils.cpp:3-19 | for all texts, a separator parts two texts that are split on their own, and a text without one is its own single piece unless it is empty |
| VertexLine.ParseUndoesPrint | src/c++/map-reduce/BFS-non-weighted-graph/shortest_path_utils.cpp:70-112 | parsing a printed record gives the record back, and its key is the printed id |
| VertexLine.LineReads | src/c++/map-reduce/BFS-non-weighted-graph/shortest_path_utils.cpp:35-104 | a line of a decimal id, a tab, a decimal distance or INF, a tab and a comma-separated list in braces reads as those numbers, INF as INT_MAX, and that list |
| VertexLine.ShortLines | src/c++/map-reduce/BFS-non-weighted-graph/shortest_path_utils.cpp:35-68 | a line without a tab is read as id and as distance, and one with a single tab has the rest as its distance |
| VertexLine.UpdateLineReads | src/c++/map-reduce/BFS-non-weighted-graph/shortest_path_utils.hpp:24-34 | an emitted update line reads as the neighbour at distance one more, or at INF, with no neighbours of its own |
| MapReduceBfs.MapAllEmits | src/c++/map-reduce/BFS-non-weighted-graph/mapper.cpp:3-14 | a job's map phase emits exactly the records read and one offer per neighbour of each |
| MapReduceBfs.MergeVects | src/c++/map-reduce/BFS-non-weighted-graph/shortest_path_utils.cpp:114-124 | appends to a list the elements of another that it lacked when the merge began, in order |
| MapReduceBfs.MissingFilters | src/c++/map-reduce/BFS-non-weighted-graph/shortest_path_utils.cpp:114-124 | what is appended is chosen element by element and in order: an element iff the list lacked it |
| MapReduceBfs.MissingCounts | src/c++/map-reduce/BFS-non-weighted-graph/shortest_path_utils.cpp:114-124 | elements the list lacked are appended as often as they occur, others not at all |
| MapReduceBfs.CombineLists | src/c++/map-reduce/BFS-non-weighted-graph/reducer.cpp:25-29 | merging the empty lists of updates with a vertex's own list leaves that list as it was |
| MapReduceBfs.ReduceIsGroupwise | src/c++/map-reduce/BFS-non-weighted-graph/reducer.cpp:3-34 | for input grouped by vertex in any order, the reducer's output has each vertex once, with the least distance of its group and its own list |
| BfsRounds.NearestIsSmall | src/c++/map-reduce/BFS-non-weighted-graph/reducer.cpp:3-34 | a breadth-first distance is less than the number of vertices, so no finite distance is mistaken for INF |
| BfsRounds.LeastIsTruncated | src/c++/map-reduce/BFS-non-weighted-graph/reducer.cpp:27-28 | the least distance offered to a vertex after k jobs is its distance cut off at k + 1 |
| BfsRounds.JobAdvances | src/c++/map-reduce/BFS-non-weighted-graph/reducer.cpp:3-34 | one job takes distances cut off at k to distances cut off at k + 1 and leaves adjacency lists unchanged, whatever the order within groups |
| BfsJobs.Mapper | src/c++/map-reduce/BFS-non-weighted-graph/mapper.cpp:3-14 | the line loop emits every line and then its update lines, as BfsJobs.MapTextAt places them |
| BfsJobs.MapTextAt | src/c++/map-reduce/BFS-non-weighted-graph/mapper.cpp:3-14 | each line stands in the output after the lines before it and one line per neighbour of each, followed for each of its own neighbours in order by the neighbour, a tab, INF or the distance plus one, a tab and empty braces; nothing else is emitted |
| BfsJobs.MapSmall | src/c++/map-reduce/BFS-non-weighted-graph/mapper.cpp:3-14 | the output for a reached vertex with two neighbours and an unreached one, character for character |
| BfsJobs.MapTextReads | src/c++/map-reduce/BFS-non-weighted-graph/mapper.cpp:3-14 | the emitted text parses to exactly what the map phase emits on records |
| BfsJobs.Reducer | src/c++/map-reduce/BFS-non-weighted-graph/reducer.cpp:3-34 | the line loop with its running minimum and merged list prints the groupwise reduction of the parsed lines |
| BfsJobs.ReduceSmall | src/c++/map-reduce/BFS-non-weighted-graph/reducer.cpp:3-34 | the output for two lines of one vertex with different lists and one of another, character for character |
| BfsJobs.PrintAllReads | src/c++/map-reduce/BFS-non-weighted-graph/shortest_path_utils.cpp:106-112 | a printed file of well-formed records parses back to them |
| BfsJobs.TextJobIsJob | src/c++/map-reduce/BFS-non-weighted-graph/reducer.cpp:3-34 | a job on text, shuffled into groups by key, is a job on records |
| BfsJobs.RunComputesDistances | src/c++/map-reduce/BFS-non-weighted-graph/reducer.cpp:3-34 | from the source at 0 and all else INF, after any number k of jobs each vertex holds its distance if that is at most k and INF otherwise, with its list unchanged |
| BfsJobs.UnchangedMeansFinal | src/c++/map-reduce/BFS-non-weighted-graph/reducer.cpp:3-34 | a job that changes nothing has reached the final distances, INF meaning unreachable |
| BfsJobs.EnoughJobs | src/c++/map-reduce/BFS-non-weighted-graph/reducer.cpp:3-34 | one job fewer than there are vertices is enough |
| Dijkstra.LeavingCosts | src/c++/dijkstra.cpp:131-145 | any path out of the settled set costs at least the cheapest edge leaving it |
| Dijkstra.ClosedContainsReachable | src/c++/dijkstra.cpp:131-145 | a set that contains the start and that no edge leaves contains all that is reachable |
| Dijkstra.ScanRow | src/c++/dijkstra.cpp:134-144 | scanning one row extends the nearest unvisited neighbour found so far |
| Dijkstra.Scan | src/c++/dijkstra.cpp:128-145 | the scan finds the least distance to an unvisited neighbour of an active vertex, or falls back to vertex 1 at INT_MAX |
| Dijkstra.Grow | src/c++/dijkstra.cpp:146-148 | a vertex found is new and its distance is the least weight of a path to it |
| Dijkstra.GetStuck | src/c++/dijkstra.cpp:128-148 | when nothing is found, what is settled is everything reachable and vertex 1 is marked at INT_MAX |
| Dijkstra.StayStuck | src/c++/dijkstra.cpp:128-148 | from then on every round marks vertex 1 again and settles nothing |
| Dijkstra.Visit | src/c++/dijkstra.cpp:127-148 | one iteration is a step to a nearest unvisited neighbour; it keeps the invariant (settled distances are least path weights, one more each time, or all that is reachable is settled) and records whether every sum of the round stayed within INT_MAX |
| Dijkstra.Finish | src/c++/dijkstra.cpp:125-151 | when the loop stops, by target or by cap, a reachable target has been settled within verts_cnt rounds and no sum overflowed; for an unreachable one a sum overflowed iff there are at least two vertices, the target is not 1 and vertex 1 has an edge; then, unless the target is 1, every round of the cap was used |
| Dijkstra.Search | src/c++/dijkstra.cpp:110-152 | for positive weights with path sums below INT_MAX: the minimum path weight when the target is reachable, with no sum of any round overflowing and fewer than verts_cnt rounds (at most verts_cnt from a start of 0), and -1 when it is not, with some sum overflowing exactly under the condition of Dijkstra.Finish; the bound on the rounds is a product that an int holds iff verts_cnt is at most 46340; an unreachable target other than 1 takes all verts_cnt squared rounds |
| Dijkstra.CapFitsIff | src/c++/dijkstra.cpp:125 | the bound is verts_cnt squared, which is within INT_MAX, and unchanged by 32 bits, for up to 46340 vertices, and for no more within INT_MAX |
| Dijkstra.CapWrapsBelowZero | src/c++/dijkstra.cpp:125 | the square of 46341 is negative when wrapped to 32 bits, so that the loop would not begin |
| Dijkstra.UnreachableOverflows | src/c++/dijkstra.cpp:110-152 | three vertices, one edge from 1 to 2: a search from 1 for 3 returns -1 and adds the weight to INT_MAX |
| Chunks.TilesAddUp | src/mem/allocator/alloc.c:10-13 | sizes and headers of a chunk list that tiles the buffer add up to the buffer |
| Chunks.SplitTiles | src/mem/allocator/alloc.c:15-32 | an allocation keeps the chunks tiling the buffer |
| Chunks.SplitIs | src/mem/allocator/alloc.c:23-30 | an allocation hands out the end of the chunk it splits, exactly as large as asked for and marked in use; the rest keeps its address and left marker, and every other chunk is as it was |
| Chunks.MergeIs | src/mem/allocator/alloc_utils.c:111-124 | two neighbours become one free chunk from the beginning of the first to the end of the second |
| Chunks.FreedTiles | src/mem/allocator/alloc.c:56-113 | so does freeing, in each of its cases |
| Chunks.SplitCoalesced | src/mem/allocator/alloc.c:23-30 | an allocation leaves no two neighbouring free chunks iff the chunk it splits was free |
| Chunks.SplitLive | src/mem/allocator/alloc.c:23-30 | splitting a free chunk adds the new chunk to the live ones and changes no other |
| Chunks.SplitOfLiveOverlaps | src/mem/allocator/alloc.c:23-30 | splitting a live chunk hands out memory inside it |
| Chunks.FreedIsJoin | src/mem/allocator/alloc.c:65-112 | freeing replaces the chunk and its free neighbours by one free chunk at the address of the first |
| Chunks.FreedLive | src/mem/allocator/alloc.c:56-113 | freeing a live chunk removes it from the live ones and changes no other |
| Chunks.FreedCoalesced | src/mem/allocator/alloc.c:56-113 | freeing keeps neighbouring free chunks merged |
| Chunks.EveryRunTiles | src/mem/allocator/alloc.c:10-113 | over every run, careful or not, the chunks tile the buffer and their sizes sum to it |
| Chunks.AllocSafeIffChoosesFree | src/mem/allocator/alloc_utils.c:80-96 | an allocation keeps the heap safe iff the chunk chosen by size alone was free |
| Chunks.CarefulRunStaysSafe | src/mem/allocator/alloc.c:15-113 | over every run whose chosen chunks are free and whose frees are of live chunks: tiled, markers agreeing, coalesced, live chunks exactly those held |
| Chunks.HeldAreDisjoint | src/mem/allocator/alloc.c:15-113 | in such a run the payloads held are pairwise disjoint and inside the buffer |
| Chunks.AllFreedIsFresh | src/mem/allocator/alloc.c:56-113 | in such a run, once everything is freed the heap is the one free chunk it started as |
| Chunks.UncheckedStatusOverlaps | src/mem/allocator/alloc_utils.c:86-91 | a run of two allocations after which one payload lies inside the other |
| Chunks.FreeTakesHeldBlock | src/mem/allocator/alloc.c:70-80 | after those two allocations, freeing the inner block marks the whole outer one free while it is still held |
| Allocator.Heap.MakeChunk | src/mem/allocator/alloc_utils.c:69-78 | writes size, null links and both markers and no other word |
| Allocator.Heap.constructor | src/mem/allocator/alloc.c:10-13 | the buffer becomes one free chunk |
| Allocator.Heap.FindChunk | src/mem/allocator/alloc_utils.c:80-96 | following next from the head ends, at the first chunk larger than asked for or at NULL |
| Allocator.Heap.AddNext | src/mem/allocator/alloc_utils.c:98-109 | links a chunk in after another, writing four link words and no other |
| Allocator.Heap.SplitChunk | src/mem/allocator/alloc.c:23-31 | the words written are the split of that chunk in the list, and words of other chunks' payloads are kept |
| Allocator.Heap.Alloc | src/mem/allocator/alloc.c:15-32 | returns NULL and changes nothing if no chunk is large enough, else splits the first that is and returns the new chunk, which has exactly the words asked for and ends where the old one did |
| Allocator.Heap.MergeChunks | src/mem/allocator/alloc_utils.c:111-124 | the words written are the merge of two neighbours in the list, all payload words kept |
| Allocator.Heap.FreeChunk | src/mem/allocator/alloc.c:66-69 | marks both borders free, all payload words kept |
| Allocator.Heap.Free | src/mem/allocator/alloc.c:56-113 | for every combination of neighbours, the buffer afterwards holds the freed list with all payload words kept; NULL and an already free chunk change no word |
| Allocator.PayloadStoresAreHarmless | src/mem/allocator/alloc.c:31 | a caller's store into its own payload leaves every header, link and marker as it was |
| Allocator.SmallBuffer | src/mem/allocator/alloc.c:10-32 | the header words and markers of a buffer of sixteen words after set-up and one allocation |
| HeapPrograms.AsRun | src/mem/allocator/alloc.c:10-113 | every program whose allocations meet free chunks drives the allocator through a careful run: tiled, coalesced, live chunks exactly the pointers held |
| HeapPrograms.BlockIsAsAsked | src/mem/allocator/alloc.c:15-32 | an allocation gives a block of exactly the words asked for, and gives none iff no chunk is larger |
| HeapPrograms.CarefulIffApart | src/mem/allocator/alloc_utils.c:80-96 | over all programs of allocations, frees and stores: the blocks held never overlap iff no allocation is served from a block in use |
| HeapPrograms.ReleasedAllIsFresh | src/mem/allocator/alloc.c:56-113 | a careful program that has freed everything finds the buffer one free chunk again |
| HeapPrograms.Execute | src/mem/allocator/alloc.c:10-113 | a careful program on the word buffer ends with every pointer as the program means it and every held block containing the words last stored in it, whatever was allocated, freed and stored in between |
| SlabLists.Slab.constructor | src/mem/mem_cache/slab.c:38-45 | a new slab is empty and on no list |
| SlabLists.Slab.InitBlockList | src/mem/mem_cache/block.c:3-41 | the chain runs through all blocks once, each at its offset and pointing back at the slab |
| SlabLists.Slab.AllocBlock | src/mem/mem_cache/block.c:50-64 | takes the first free block off an acyclic chain of capacity - size blocks, or returns NULL on a full slab |
| SlabLists.Slab.FreeBlock | src/mem/mem_cache/block.c:66-83 | an outstanding block goes to the front of the chain, the block freed last and any block of an empty slab are refused; the chain survives iff the slab is empty or the block is not deeper in the chain, and otherwise no walk from the first block ends |
| SlabLists.RingNeverEnds | src/mem/mem_cache/block.c:66-83 | a walk that enters a set of blocks leading only to each other never reaches NULL |
| SlabLists.DoubleFreeTiesRing | src/mem/mem_cache/block.c:66-83 | of three blocks handed out, freeing the first, the second and the first again leaves no chain, and no walk from the first free block ends |
| SlabLists.FullChainCovers | src/mem/mem_cache/block.c:66-83 | a chain of capacity distinct blocks contains every block, so freeing an outstanding block never meets an empty slab |
| SlabLists.SlabList.Add | src/mem/mem_cache/list.c:35-63 | appends the slab, mirrored links and count kept, list_ptr naming the list |
| SlabLists.SlabList.Delete | src/mem/mem_cache/list.c:65-101 | removes exactly that slab, mirrored links and count kept |
| SlabLists.SlabList.DeleteAll | src/mem/mem_cache/list.c:9-33 | walking back from the head removes every slab |
| SlabCache.Cache.constructor | src/mem/mem_cache/mem_cache.c:60-70 | three empty lists; the order is the least up to 10 whose slab holds the default number of objects, or 10, the slab has the size of that order and as many objects as fit, at least one and, below order 10, at least the default number |
| SlabCache.SmallObjects | src/mem/mem_cache/mem_cache.c:60-70 | for objects of 8 bytes: order 0, slabs of 4096 bytes, 126 objects |
| SlabCache.Cache.Reposition | src/mem/mem_cache/list.c:103-107 | the slab moves between two lists, each slab staying in exactly the list that list_ptr names |
| SlabCache.Cache.Take | src/mem/mem_cache/block.c:50-64 | hands out a block that was not outstanding, free and outstanding blocks still partitioning the slab |
| SlabCache.Cache.Extend | src/mem/mem_cache/mem_cache.c:106-111 | a fresh empty slab joins the partial list |
| SlabCache.Cache.CacheAlloc | src/mem/mem_cache/mem_cache.c:84-123 | hands out a block never outstanding, from a free slab, else a partial one, else a new one, and every slab is again in the list for its size |
| SlabCache.Cache.CacheFree | src/mem/mem_cache/mem_cache.c:125-153 | exactly that block stops being outstanding and its slab is in the list for its size; freeing again the block freed last, or a block of an empty slab, changes no accounting |
| SlabCache.Cache.CacheShrink | src/mem/mem_cache/mem_cache.c:155-163 | exactly the empty slabs go, no outstanding block with them |
| SlabSizing.SlabSizeIsPowerOfTwoPages | src/mem/mem_cache/mem_cache.c:3-22 | a slab of an order is two to that order pages |
| SlabSizing.GetSlabOrder | src/mem/mem_cache/mem_cache.c:24-45 | the least order up to 10 that holds the default number of objects, or 10; below 10, exactly the orders from the result on hold them |
| SlabSizing.ObjectCntIsMaximal | src/mem/mem_cache/mem_cache.c:47-58 | n objects fit in the slab iff n is at most the computed count |
| SlabSizing.DefaultCountFits | src/mem/mem_cache/mem_cache.c:66-69 | an order that holds the default number gives at least that count |
| SlabSizing.OneObjectFits | src/mem/mem_cache/mem_cache.c:66-69 | if one object fits in the largest slab, one fits in the slab chosen |
| SlabSizing.BlockIsInside | src/mem/mem_cache/block.c:18-40 | block i lies after the slab header and inside the slab iff i is less than the computed count |
| SlabSizing.BlocksAreDisjoint | src/mem/mem_cache/block.c:18-40 | an earlier block ends before a later one begins |
| SlabSizing.RequestIsShort | src/mem/mem_cache/slab.c:4-8 | the bytes asked for are fewer than the slab size, for every order |
| Vectors.DotProduct | src/utils/math/linear_algebra/matrix_utils.cpp:67-83 | the loop computes the sum of products, 0 for empty vectors |
| Vectors.MakeTransposeMatrix | src/utils/math/linear_algebra/matrix_utils.cpp:90-102 | rows become columns |
| LinearSystem.FillRow | src/utils/math/linear_algebra/matrix_utils.cpp:36-42 | scales one row in place |
| LinearSystem.AddRows | src/utils/math/linear_algebra/matrix_utils.cpp:28-34 | adds one row to another in place |
| LinearSystem.SwapRows | src/utils/math/linear_algebra/matrix_utils.cpp:44-49 | exchanges two rows |
| LinearSystem.EliminatedSolves | src/utils/math/linear_algebra/linear_system_solver.cpp:11-24 | each elimination step, swap or scaled addition, keeps exactly the same solutions |
| LinearSystem.EliminatedZero | src/utils/math/linear_algebra/linear_system_solver.cpp:11-24 | and zeroes the entry below the pivot without disturbing earlier zeros |
| LinearSystem.EliminatedEntry | src/utils/math/linear_algebra/linear_system_solver.cpp:11-24 | where neither entry of the column is zero, every entry of the lower row becomes the pivot row's minus the multiple that clears the column |
| LinearSystem.TryMakeRowEchelonForm | src/utils/math/linear_algebra/linear_system_solver.cpp:5-27 | one pass zeroes a column below the diagonal and keeps the exact solution set |
| LinearSystem.FindXi | src/utils/math/linear_algebra/linear_system_solver.cpp:29-40 | the value found satisfies its row given the later ones |
| LinearSystem.FindRoots | src/utils/math/linear_algebra/linear_system_solver.cpp:42-54 | back substitution over nonzero pivots solves the whole system |
| LinearSystem.UpperIsUnique | src/utils/math/linear_algebra/linear_system_solver.cpp:42-54 | with nonzero pivots there is no other solution |
| LinearSystem.KernelVector | src/utils/math/linear_algebra/linear_system_solver.cpp:94-97 | a zero pivot leaves a nonzero direction that no row notices |
| LinearSystem.PivotsDecideUniqueness | src/utils/math/linear_algebra/linear_system_solver.cpp:78-101 | after elimination all pivots are nonzero iff the system has exactly one solution |
| SystemStatus.FindRank | src/utils/math/linear_algebra/matrix_utils.cpp:51-65 | counts the rows that are not all zero in the first columns |
| SystemStatus.StatusMeans | src/utils/math/linear_algebra/linear_system_solver.cpp:85-102 | NOT_CONSIST is reported iff some row is zero but for its right side, one solution iff no row of coefficients is zero |
| SystemStatus.OneIsTrueIff | src/utils/math/linear_algebra/linear_system_solver.cpp:98-102 | in an eliminated system there is exactly one solution iff no pivot is zero |
| SystemStatus.InfIsTrueIff | src/utils/math/linear_algebra/linear_system_solver.cpp:94-97 | a report of infinitely many solutions is true, with two different ones, iff there is any |
| SystemStatus.VanishingRowsTellTruth | src/utils/math/linear_algebra/linear_system_solver.cpp:85-102 | if every row with a zero pivot is zero in its coefficients, whichever status is reported is the truth |
| SystemStatus.GaussianMethod | src/utils/math/linear_algebra/linear_system_solver.cpp:70-104 | the solution set never changes and the status is that of the eliminated matrix; NOT_CONSIST is always true, one solution is true iff no pivot is zero, every status is true if rows with zero pivots vanish; a system with exactly one solution gets it, any other gets none |
| SystemStatus.ContradictionCountedAsSolvable | src/utils/math/linear_algebra/matrix_utils.cpp:51-65 | two contradictory equations, unchanged by elimination, that are reported as having one solution |
| SystemStatus.ContradictionCountedAsInfinite | src/utils/math/linear_algebra/matrix_utils.cpp:51-65 | three equations with no solution, unchanged by elimination, that are reported as having infinitely many |
| CountedRank.IndependentRowsTakeAnyValues | src/utils/math/linear_algebra/matrix_utils.cpp:51-65 | linearly independent rows can be given any right sides at once |
| CountedRank.RowKernel | src/utils/math/linear_algebra/matrix_utils.cpp:51-65 | an eliminated matrix with a zero pivot has a vanishing combination of its rows |
| CountedRank.StatusesTrueIffIndependent | src/utils/math/linear_algebra/matrix_utils.cpp:51-65 | for an eliminated matrix the status is true whatever the right sides iff its non-zero rows are linearly independent, that is iff the count is the rank |
| RightSides.EchelonRight | src/utils/math/linear_algebra/linear_system_solver.cpp:5-27 | elimination does the same to the coefficients whatever the right side |
| RightSides.EchelonBack | src/utils/math/linear_algebra/linear_system_solver.cpp:5-27 | and every right side of the eliminated matrix comes from a right side of the matrix handed in |
| RightSides.ReportsTrueIffIndependent | src/utils/math/linear_algebra/linear_system_solver.cpp:70-104 | for every matrix of coefficients handed in: all its right sides are reported truly iff the non-zero rows of its eliminated form are linearly independent |
| LeastSquares.BuildNormalEquations | src/utils/math/linear_algebra/least_squares_solver.cpp:3-18 | the nested loops fill the matrix of products of columns with columns and right side |
| LeastSquares.NormalSolutionMinimises | src/utils/math/linear_algebra/least_squares_solver.cpp:3-18 | a solution of the normal equations has the least squared error of all vectors |
| LeastSquares.SlopeAllowsImprovement | src/utils/math/linear_algebra/least_squares_solver.cpp:3-18 | where a column is not orthogonal to the residuals, some other vector has a smaller error |
| LeastSquares.MinimisesIffSolvesNormal | src/utils/math/linear_algebra/least_squares_solver.cpp:3-18 | a vector minimises the squared error iff it solves the normal equations |
| NormalElimination.EchelonKeepsGram | src/utils/math/linear_algebra/least_squares_solver.cpp:20-48 | eliminating products of columns keeps, below the pivots, products of the columns made orthogonal to those before, so a row with a zero pivot is zero throughout |
| NormalElimination.NormalRowsVanish | src/utils/math/linear_algebra/least_squares_solver.cpp:20-48 | in the eliminated normal equations a row with a zero pivot is zero, right side included |
| NormalElimination.NormalStatus | src/utils/math/linear_algebra/least_squares_solver.cpp:20-48 | so the status is true and never NOT_CONSIST |
| NormalElimination.Solve | src/utils/math/linear_algebra/least_squares_solver.cpp:20-48 | the status is one solution iff exactly one vector minimises the squared error, infinitely many iff two different ones do, NOT_CONSIST iff there are no unknowns; a solution is returned iff the status is one solution, and it is that minimiser |
| Triangles.FillQueue | src/utils/math/graphs/find_triangle/find_triangle.cpp:56-63 | the queue and the blue vertices are the unvisited neighbours |
| Triangles.Serve | src/utils/math/graphs/find_triangle/find_triangle.cpp:67-81 | serving one neighbour counts its edges to neighbours not yet served |
| Triangles.TrianglesCnt | src/utils/math/graphs/find_triangle/find_triangle.cpp:47-84 | counts the pairs of adjacent unvisited neighbours of the vertex, once each, and marks it visited |
| Triangles.NewTriangles | src/utils/math/graphs/find_triangle/find_triangle.cpp:103-108 | those pairs are the triangles whose first visited vertex it is |
| Triangles.CountTriangles | src/utils/math/graphs/find_triangle/find_triangle.cpp:96-109 | for every simple undirected graph the sum is the number of triangles |
| Triangles.TriplesAreThreeSets | src/utils/math/graphs/find_triangle/find_triangle.cpp:4 | any three pairwise adjacent vertices are one of the triangles counted |
| Base64.CharOfIndex | src/c++/eml-attachments-parser/base64.hpp:81-126 | the alphabet and its inverse undo each other |
| Base64.CharOfIs | src/c++/eml-attachments-parser/base64.hpp:465-506 | the character of index i is the i-th of the 64 characters of table 1 of RFC 4648, written out |
| Base64.AlphabetIff | src/c++/eml-attachments-parser/base64.hpp:81-126 | a character is accepted iff it is one of those 64, and read as its place among them |
| Base64.WordOfChars | src/c++/eml-attachments-parser/base64.hpp:612-632 | the or of four table words holds the three bytes of a block, or reaches bad_char iff some character is outside the alphabet |
| Base64.BlockRoundTrip | src/c++/eml-attachments-parser/base64.hpp:529-539 | four sextets of three bytes give the bytes back |
| Base64Codec.EncodeLength | src/c++/eml-attachments-parser/base64.hpp:521-524 | an encoding has 4 * ceil(n / 3) characters and 0 to 2 of padding |
| Base64Codec.RoundTrip | src/c++/eml-attachments-parser/base64.hpp:509-690 | every byte sequence encodes to an accepted text whose value is the sequence |
| Base64Codec.ReencodeIffCanonical | src/c++/eml-attachments-parser/base64.hpp:577-690 | re-encoding an accepted text gives it back iff the bits that padding leaves over are zero, as section 3.5 of RFC 4648 asks |
| Base64Codec.SpareBitsAreLost | src/c++/eml-attachments-parser/base64.hpp:664-682 | QR== is accepted and re-encodes as QQ== |
| Base64Standard.EncodeIs | src/c++/eml-attachments-parser/base64.hpp:509-566 | for every byte sequence the encoding is that of section 4 of RFC 4648: each group of three bytes as a 24-bit number, its four six-bit digits as places of the alphabet, missing bytes zero and missing places an equals sign |
| Base64Standard.ValueIs | src/c++/eml-attachments-parser/base64.hpp:577-690 | the value of a text is that of the standard: each block's places as a 24-bit number, read off as bytes, one fewer for each equals sign at the end |
| Base64Standard.AcceptedIs | src/c++/eml-attachments-parser/base64.hpp:577-690 | accepted are exactly the texts of whole blocks whose characters are all of the alphabet but for at most two equals signs at the end |
| Base64Loops.PutBlock | src/c++/eml-attachments-parser/base64.hpp:529-539 | writes the four characters of three bytes through the tables |
| Base64Loops.PutRest | src/c++/eml-attachments-parser/base64.hpp:541-563 | writes the last one or two bytes over a buffer of padding |
| Base64Loops.EncodeInto | src/c++/eml-attachments-parser/base64.hpp:509-566 | the loops produce the encoding of the whole input, as section 4 of RFC 4648 defines it |
| Base64Loops.DecodeBlockReads | src/c++/eml-attachments-parser/base64.hpp:606-633 | a full block is read as its bytes iff all four characters are in the alphabet |
| Base64Loops.DecodeThreeReads | src/c++/eml-attachments-parser/base64.hpp:639-663 | a block with one padding sign gives two bytes |
| Base64Loops.DecodeTwoReads | src/c++/eml-attachments-parser/base64.hpp:664-682 | a block with two padding signs gives one byte |
| Base64Loops.DecodeBlocks | src/c++/eml-attachments-parser/base64.hpp:606-633 | the loop over full blocks succeeds iff they are all in the alphabet, and then holds their value |
| Base64Loops.DecodeInto | src/c++/eml-attachments-parser/base64.hpp:577-690 | accepts a text iff its length is a multiple of 4, at most its last two characters are equals signs and the rest are in the alphabet; the result is its value as the standard defines it; each error for its own reason |
| Base64Plain.BuildDecodingTable | src/c++/eml-attachments-parser/base64_to_bytes.cpp:3-10 | whatever the memory held, the alphabet's entries are their indices and no other entry changes |
| Base64Plain.PlainIsValue | src/c++/eml-attachments-parser/base64_to_bytes.cpp:44-56 | on nonempty accepted text the summed triples give the value that the table-driven decoder gives |
| Base64Plain.PlainAt | src/c++/eml-attachments-parser/base64_to_bytes.cpp:17-108 | on any ASCII text of whole blocks each byte emitted is a byte of the 32-bit sum of its block's four entries: places of the alphabet, zero for an equals sign, and what the memory held for any other character |
| Base64Plain.DecodeToString | src/c++/eml-attachments-parser/base64_to_bytes.cpp:17-60 | emits the same bytes as the other loop on every ASCII text, the value of it when accepted, nothing for a length not divisible by 4 |
| Base64Plain.DecodeToBytes | src/c++/eml-attachments-parser/base64_to_bytes.cpp:62-108 | likewise, with its saturating index |
| ConnectionPool.FreeIff | src/net/tcp/server/fileserver/conn_pool.c:63-69 | the pool reads as free iff every slot's bit is set |
| ConnectionPool.FullIff | src/net/tcp/server/fileserver/conn_pool.c:71-79 | the pool reads as full iff every slot's bit is clear |
| ConnectionPool.BookLowest | src/net/tcp/server/fileserver/conn_pool.c:81-94 | booking takes the lowest free slot, and the bit past the last slot iff the pool is full |
| ConnectionPool.UnbookUndoesBook | src/net/tcp/server/fileserver/conn_pool.c:81-105 | unbooking the slot just booked restores the word |
| ConnectionPool.ConnectionsPool.constructor | src/net/tcp/server/fileserver/conn_pool.c:3-47 | no slot is taken and all descriptors are zero |
| ConnectionPool.ConnectionsPool.StoreConnection | src/net/tcp/server/fileserver/conn_pool.c:107-134 | takes the lowest free slot and writes its descriptor, fails iff the pool was full, and keeps the spare bits set iff it was not |
| ConnectionPool.FullStoreLosesSpareBit | src/net/tcp/server/fileserver/conn_pool.c:107-134 | in a pool of one slot the second store fails and leaves a spare bit clear |
| ConnectionPool.ConnectionsPool.ReleaseConnection | src/net/tcp/server/fileserver/conn_pool.c:146-165 | frees exactly that slot, closes its socket, clears its descriptor, and says pool free iff no slot is taken |
| PoolRuns.StepKeeps | src/net/tcp/server/fileserver/server.c:51-129 | every step of every thread keeps the protocol's invariant: owners, lock, waits, sockets |
| PoolRuns.SlotHasOneOwner | src/net/tcp/server/fileserver/server.c:96-129 | in every interleaving a slot's bit is clear iff exactly one live connection owns it, and the bits past the slots stay set |
| PoolRuns.OneInside | src/net/tcp/server/fileserver/server.c:74-94 | no two threads are inside the lock together |
| PoolRuns.ReturnsDrained | src/net/tcp/server/fileserver/server.c:83-94 | when the wait returns every slot is free, no worker is left, every accepted socket has been closed, and nothing can touch the pool that is then destroyed |
| PoolRuns.ClosesOwnSocket | src/net/tcp/server/fileserver/conn_pool.c:152-157 | a worker's close is of its own connection's socket, still open |
| PoolRuns.NeverStranded | src/net/tcp/server/fileserver/server.c:217-221 | a parked acceptor whose pool has room, or a parked shutdown whose pool is free, is notified within the next two steps of the worker holding the lock |
| PoolRuns.NoDeadlock | src/net/tcp/server/fileserver/server.c:51-129 | until shutdown returns some thread can move, and a worker can whenever main waits |
| PoolRuns.EmptyPoolStrands | src/net/tcp/server/fileserver/server.c:217-221 | with no slots at all the acceptor parks and nothing but a spurious wake-up follows |
| PoolRuns.WorkerRunIsShort | src/net/tcp/server/fileserver/server.c:51-81 | workers left to themselves take exactly as many steps as they have left |
| PoolRuns.WorkersFinish | src/net/tcp/server/fileserver/server.c:51-94 | if they run until none can move while main waits, all have exited and main has been notified |
| PoolSlots.FreeSlotsAreCleared | src/net/tcp/server/fileserver/conn_pool.c:146-165 | in every interleaving a free slot holds a zeroed descriptor unless its last worker is between unbooking and clearing it, and after the shutdown all slots do |
| PoolSlots.TestParksIff | src/net/tcp/server/fileserver/server.c:83-94 | the acceptor that looks at the pool parks iff every slot is taken, the shutdown iff some slot is |
| PoolSlots.CheckWakesIff | src/net/tcp/server/fileserver/conn_pool.c:158-163 | a worker's check wakes the parked shutdown iff no slot is taken any more, and its announcement wakes the parked acceptor |
| PriorityFan.StepKeeps | src/golang/fanIn-fanOut/validator.go:77-167 | every step of every goroutine keeps the invariant: wait groups, closings, priorities, counts and the ledger of URLs |
| PriorityFan.AllExited | src/golang/fanIn-fanOut/validator.go:121-127 | when the wait group reaches zero the inputs are closed and empty and every worker has exited |
| PriorityFan.LedgerMoves | src/golang/fanIn-fanOut/validator.go:77-93 | no step of a worker loses or invents a URL except by a timeout |
| PriorityFanRuns.NeverPanics | src/golang/fanIn-fanOut/validator.go:77-167 | no interleaving sends on a closed channel or takes a wait group below zero |
| PriorityFanRuns.OutFits | src/golang/fanIn-fanOut/validator.go:203 | what is sent to the output never exceeds its buffer |
| PriorityFanRuns.WhenClosed | src/golang/fanIn-fanOut/validator.go:142-167 | when the output closes it has carried one response per URL, all High, then Middle, then Low, with the input's count of each |
| PriorityFanRuns.ResponseUrls | src/golang/fanIn-fanOut/validator.go:77-93 | the URLs of the responses with the abandoned requests are the input with the timed-out URLs |
| PriorityFanRuns.WithoutExpiry | src/golang/fanIn-fanOut/validator.go:77-93 | if the context never expires the multiset of response URLs is the input's |
| PriorityFanRuns.NoDeadlock | src/golang/fanIn-fanOut/validator.go:103-167 | until the output is closed some goroutine can move |
| PriorityFanRuns.EveryRunCloses | src/golang/fanIn-fanOut/validator.go:103-167 | every run has at most 6 steps per URL, one per worker and 14 more, and one that cannot go on has closed the output and printed all of it |
| PriorityFanExact.UniformIsExact | src/golang/fanIn-fanOut/validator.go:77-93 | if URLs of equal priority are equal, every run that closes the output answers each exactly as often as it was given, whenever the deadline strikes |
| PriorityFanExact.QuietCloses | src/golang/fanIn-fanOut/validator.go:121-167 | once every URL has been answered the rest of the run closes the output and changes nothing about the answers |
| PriorityFanExact.SomeRunIsInexact | src/golang/fanIn-fanOut/validator.go:77-93 | for any two different URLs of one priority, anywhere in any input and with any number of workers, some run closes the output with responses that are not for exactly the given URLs |
| PriorityFanExact.AlwaysExactIffUniform | src/golang/fanIn-fanOut/validator.go:77-93 | all runs that close the output answer exactly the given URLs iff any two URLs of equal priority are equal |
| PriorityFanMixups.StepGrows | src/golang/fanIn-fanOut/validator.go:77-93 | every timeout has given a response, responses are never withdrawn, and only taking another request's answer breaks the match between open requests and timeouts |
| PriorityFanMixups.StaleTimedOut | src/golang/fanIn-fanOut/validator.go:79-91 | the first answer that is not the worker's own is one to a request that had timed out and been answered already |
| PriorityFanMixups.NoMixupsExact | src/golang/fanIn-fanOut/validator.go:77-93 | for any URLs, a run in which every answer taken is to the worker's own request answers exactly the given URLs |
| PriorityFanMixups.ExactIffNoMixups | src/golang/fanIn-fanOut/validator.go:77-93 | for pairwise different URLs a run that closes the output answers exactly the given URLs iff no worker takes the answer to another request than its current one |
| PriorityFanAnswers.EveryAnswerWasGiven | src/golang/fanIn-fanOut/validator.go:77-93 | in every run each response sent out has the code and URL of a request that answered, or the code 500 Internal Server Error and a URL of the input for which the deadline answered |
| PriorityFanAnswers.CollectedInOrder | src/golang/fanIn-fanOut/validator.go:142-160 | in every run each priority's responses are collected in the order in which its workers delivered them |
| PriorityFanAnswers.TakenInOrder | src/golang/fanIn-fanOut/validator.go:103-139 | in every run each priority's URLs are taken in the order of the input, through a channel that never holds more than there are workers |
| SharedPointer.SharedPtr.constructor | src/c++/shared_ptr.cpp:34-39 | a handle on a fresh pointer, or on none, starts a counter of its own |
| SharedPointer.SharedPtr.Copy | src/c++/shared_ptr.cpp:41-46 | a copy shares object and counter, and all counters stay right |
| SharedPointer.SharedPtr.Leave | src/c++/shared_ptr.cpp:50-54 | giving up a share deletes object and counter iff no other handle shares them |
| SharedPointer.SharedPtr.Destroy | src/c++/shared_ptr.cpp:48-55 | the remaining handles' counters and objects stay right |
| SharedPointer.SharedPtr.Reset | src/c++/shared_ptr.cpp:67-77 | the old share is given up and the handle holds the fresh pointer alone |
| SharedPointer.SharedPtr.Assign | src/c++/shared_ptr.cpp:89-104 | the handle gives up its share and joins the other's, also when both share already or are the same handle; the old counter is deleted iff no other handle used it |
| SharedPointer.LeaveShared | src/c++/shared_ptr.cpp:50-54 | as long as another handle shares the counter nothing is deleted |
| SharedPointer.LastHolds | src/c++/shared_ptr.cpp:50-54 | the last sharer of a counter is the last holder of the object, which has not been deleted before |
| SharedPointer.Execute | src/c++/shared_ptr.cpp:34-104 | one operation on named handles does what it means for which variable holds which object |
| SharedPointer.ExecuteAll | src/c++/shared_ptr.cpp:34-104 | after any sequence of operations each variable holds what the sequence means, each counter is the number of variables on its object, and each object and each counter ever made was deleted once if no variable holds it and not at all otherwise |
| SharedPointer.CountOf | src/c++/shared_ptr.cpp:62-65 | a counter is the number of variables that hold the same object |
| SharedPointer.DeletedIff | src/c++/shared_ptr.cpp:48-55 | an object has been deleted exactly once iff no variable holds it |

## Left out

- ListSort.LineList.Sort: the sorting pass under its lock; the threads, sleeps and input around it are not modelled. Lines are compared by character code.
- BfsJobs.Mapper: lines whose numbers do not parse, for which the C++ prints the exception and goes on with an uninitialised value; likewise BfsJobs.Reducer, which also needs one line.
- BfsJobs.RunComputesDistances: graphs of up to INT_MAX vertices whose neighbours all have lines of their own, written as decimal numbers without leading zeros.
- Dijkstra.Search: sums and the product that caps the rounds are exact integers, so what the C++ does after an overflow of either is not modelled; when they overflow is stated. Weights are non-negative with 0 for no edge, as in the adjacency matrix.
- Allocator.Heap.Alloc: sizes are multiples of the word, the buffer is an array of words, addresses are indices, and `size_t` does not wrap. Disjointness and coalescing are for runs whose chosen chunks are free, since the status is not tested.
- HeapPrograms.Execute: programs whose allocations meet free chunks, for the same reason; a free of a pointer not held and a store outside a block are skipped.
- `setzero`, `mycalloc` and `myrealloc` of the allocator; the last is empty.
- SlabCache.Cache.constructor: `malloc` succeeds and one object fits in a slab of the largest order; blocks are objects with offsets rather than bytes of a region.
- SlabCache.Cache.CacheFree: a block deeper in a free chain, which `free_block` does not detect; SlabLists.Slab.FreeBlock states what becomes of the chain. `cache_release` and the printing tests are left out.
- SystemStatus.GaussianMethod: exact reals with EPSILON taken as 0, so `is_zero_limit` and `get_limit` are identities; as many equations as unknowns; a division by a zero pivot is shown as no solution. `get_determinant` is left out.
- NormalElimination.Solve: at least one observation; reading and printing are left out.
- Triangles.CountTriangles: the graph is given as adjacency lists; reading edges is left out.
- Base64Loops.DecodeInto: the little-endian tables, given by the formulas they tabulate; strings of characters stand for bytes.
- Base64Plain.DecodeToBytes: nonempty ASCII text, since the C++ reads before the start of an empty string and indexes its table with a signed character.
- ConnectionPool.ConnectionsPool.StoreConnection: pools of up to 31 slots, as the masks are `int`; null pool pointers are left out.
- PoolRuns.SlotHasOneOwner: the main thread is the only acceptor and the only waiter; sockets are numbers not open already; serving a request, logging, thread ids and the select loop are left out.
- PriorityFanRuns.WhenClosed: priorities below 3, as the channels are indexed by them; an answer carries whatever code its request gave, at any time; times and durations are not computed.
- SharedPointer.ExecuteAll: each pointer is handed to a handle once; dereferencing is left out.
- LRU cache, RTL tokeniser, Eulerian cycle, vector library, message queues, semaphore exercises, EML parsing, network clients, file tools, daemons and scripts: easier than what is modelled, or mostly input, output and foreign libraries.
