# Verified models of PandA-bambu's compiler plugins

This project models four parts of PandA-bambu in Dafny and proves what they are
for. Each part is a fast form of something simple, and the theorems say that
the two agree on every input.

**Pointer analysis** (`etc/clang_plugin/HardekopfLin_AA.cpp`). An Andersen-style
solver over inclusion constraints. The specification is the least solution of
the constraint list (`Constraints`). The solver (`Solver`, over `UnionFind`,
`Worklists`, `Tarjan` and the invariant in `ConstraintGraph`, `GraphSteps`,
`GraphMerge`, `SolverState`, `LcdState`, `LcdSearch`, `LcdComponents`,
`SolverInit`) terminates with exactly that solution. The rewrites before it are
proved against the same specification: value numbering and label sets with
dereference nodes (`HvnGraph`, `HvnMeaning`, `HvnReading`, `HvnPass`,
`HvnLimits`), label sets without them (`HuLabels`), both over one collapsing
depth-first search (`OfflineGraph`, `OfflineSearch`, `OfflineCollapse`,
`OfflineRules`, `OfflineLabels`, with `OfflineSources` on what equal labels
mean for the graph alone) and one argument about merging by label (`LabelMerging`), and
load/store factoring (`Factoring`). `ConstraintOptimization` runs them one after
the other and then the solver, and says what the result means for the first
list. The cache of set expansions (`ExpansionCache`), the reduction of sparse
evaluation graphs (`SparseGraph`, `SparseSearch`, `SparsePruning`,
`SparseReduction`) and the flattening of structs (`StructLayout`) complete the
part.

**Tree-height reduction** (`etc/clang_plugin/TreeHeightReduction.hpp`). Trees of
adds and multiplies are rebuilt in memory by combining the two earliest leaves,
then emitted through one queue (`LatencyShapes`, `OperatorTree`, `TreeMemory`,
`TreeRegion`, `TreeBuilding`, `TreeCollecting`, `TreeRebuilding`,
`TreeEmission`, `TreePaths`, `TreeHeightReduction`, `TreeLimits`). The result computes the
same value modulo 2^w and is never later, and its top region is optimal.

**Memory lowering** (`etc/clang_plugin/LowerMemIntrinsics.cpp`). The loops
emitted for memcpy and memmove, over one array of bytes (`MemoryLowering`),
against sections 7.24.2.1 and 7.24.2.2 of ISO/IEC 9899:2011.

**Parameter registry** (`src/BambuParameterRegistry.cpp`). The merge of parameter
declarations (`ParameterRegistry`) does not depend on their order.

How to read the model:

- Points-to sets are finite sets of node numbers. Node 0 is no node and node 1
  is i2p: the solver never reads from it or writes to it, so the specification
  exempts loads and stores through it.
- A constraint list may start from nodes that are already unified; solutions
  are constant on their classes.
- "Equal in every solution" plays the part of graph reachability: a copy edge
  is an inclusion that holds in every solution, so nodes on a cycle are equal.
- Ghost parameters and fields carry the state of a proof; the remaining code is
  what the program does. The order in which a bitmap, set or map is walked is
  left open, so the theorems hold for any.
- Files are checked together: `dafny verify dfyconfig.toml`.

Where code and documentation differ, the model follows the code. The comment
above `isConsideredAsLeaf` (TreeHeightReduction.hpp:317-320) describes which
nodes end a region; since the test also applies to the node a call starts from,
a node below a different operator is never rebuilt by its own call, only its
subtrees are. `ApplyTreeHeightReduction` states optimality for exactly the other
nodes, and `ChainNotOptimal` gives a tree for which it fails. The comment above
`bdd2vec`'s loop allows queue entries that are older than the cache entry; an
entry for a set that is no longer cached cannot occur.

Two things one might expect of value numbering are false:

- It may lose precision. It merges nodes that lie on a cycle with what a pointer
  points to, although the two need not be equal if the pointer points nowhere
  (`HvnOnCycle`). The least solution stays the same exactly if it is equal on
  the merged nodes and empty on the marked ones. That is so if the stores of the
  least solution are grounded, and the list alone tells that they are if the
  address of an object other than i2p is copied to every pointer that is stored
  through (`Anchored`).
- A solution of the new list need not solve the old one as it is
  (`ReadingCanFail`): a store may write to a marked node. It does exactly if no
  store that is kept does that; the least solution never does.

## Model

| member | source | states |
|---|---|---|
| Constraints.LeastIsUnique | etc/clang_plugin/HardekopfLin_AA.cpp:1083-1110 | a constraint list over addr_of, copy, load and store (offset 0) has at most one least solution |
| Constraints.LeastExists | etc/clang_plugin/HardekopfLin_AA.cpp:1590-1625 | every legal constraint list has a least solution, so the theorems below speak about something |
| Constraints.LoadIsCopy | etc/clang_plugin/HardekopfLin_AA.cpp:7182-7219 | in every solution, a load through a target other than i2p is an inclusion of that target in the destination |
| Constraints.StoreIsCopy | etc/clang_plugin/HardekopfLin_AA.cpp:7182-7219 | in every solution, a store through a target other than i2p is an inclusion of the source in that target |
| UnionFind.RankFitsWord | etc/clang_plugin/HardekopfLin_AA.cpp:5222-5241 | ranks of encoded partitions stay below 32, so a rank added to node_rank_min never leaves the 32-bit word |
| UnionFind.CompressKeeps | etc/clang_plugin/HardekopfLin_AA.cpp:2598-2611 | pointing a node straight at its representative encodes the same partition |
| UnionFind.LinkKeeps | etc/clang_plugin/HardekopfLin_AA.cpp:5222-5241 | linking by rank encodes the merged partition: ranks still grow along parent links and a representative of rank r still has 2^r nodes |
| UnionFind.LinkClasses | etc/clang_plugin/HardekopfLin_AA.cpp:5222-5241 | the class of the new parent is the disjoint union of the two, no other class moves |
| UnionFind.Partition.GetRep | etc/clang_plugin/HardekopfLin_AA.cpp:2598-2611 | terminates with the representative, points every node on the way straight at it and changes no other word and no node's representative |
| UnionFind.Partition.ConstGetRep | etc/clang_plugin/HardekopfLin_AA.cpp:2613-2621 | the read-only search finds the same representative |
| UnionFind.Partition.Merge | etc/clang_plugin/HardekopfLin_AA.cpp:5222-5241 | the higher rank becomes the parent (the first on a tie), the two classes become one and the stored rank fits the word |
| Worklists.Pigeonhole | etc/clang_plugin/HardekopfLin_AA.cpp:1305-1314 | distinct values up to maxv are at most maxv+1, so the arrays are never overrun |
| Worklists.Heap.PercUp | etc/clang_plugin/HardekopfLin_AA.cpp:1250-1272 | restores heap order from one violated parent link without changing the map from values to keys |
| Worklists.Heap.PercDn | etc/clang_plugin/HardekopfLin_AA.cpp:1273-1302 | restores heap order from one violated node downwards without changing the map |
| Worklists.Heap.Push | etc/clang_plugin/HardekopfLin_AA.cpp:1338-1369 | inserts the value or changes its key; idxv stays the exact inverse of hv; tells whether the value was there |
| Worklists.Heap.Pop | etc/clang_plugin/HardekopfLin_AA.cpp:1371-1391 | removes an entry of least key and returns it |
| Worklists.Heap.Swap | etc/clang_plugin/HardekopfLin_AA.cpp:1321-1329 | exchanges the contents of two heaps |
| Worklists.Worklist.SwapIfEmpty | etc/clang_plugin/HardekopfLin_AA.cpp:1409-1417 | the next generation becomes current exactly if the current one is empty |
| Worklists.Worklist.Push | etc/clang_plugin/HardekopfLin_AA.cpp:1418-1422 | pushes only touch the next generation |
| Worklists.Worklist.Pop | etc/clang_plugin/HardekopfLin_AA.cpp:1423-1429 | pops an entry of least priority from the current generation only |
| ConstraintGraph.ResultIsLeast | etc/clang_plugin/HardekopfLin_AA.cpp:6714-6771 | when no node is left to visit, the points-to sets read through representatives are the least solution: the invariant contains both that all constraints are met and that nothing exceeds any solution |
| GraphSteps.AddPtsKeeps | etc/clang_plugin/HardekopfLin_AA.cpp:7312-7363 | adding justified members to a node keeps the solver's invariant if the node is then queued |
| GraphSteps.ConnectKeeps | etc/clang_plugin/HardekopfLin_AA.cpp:7279-7308 | adding a copy edge that holds in every solution, after pushing the source's set along it, keeps the invariant |
| GraphSteps.RetargetKeeps | etc/clang_plugin/HardekopfLin_AA.cpp:6918-7057 | replacing the ends of a load or store by their representatives keeps the invariant |
| GraphSteps.DropKeeps | etc/clang_plugin/HardekopfLin_AA.cpp:6918-7057 | dropping a load or store that equals another one at the same node keeps the invariant |
| GraphSteps.FinishVisit | etc/clang_plugin/HardekopfLin_AA.cpp:6806-6911 | once every edge and complex constraint has seen the new members, the visited node needs no queue entry |
| GraphMerge.UnifyKeeps | etc/clang_plugin/HardekopfLin_AA.cpp:5243-5346 | merging two nodes that are equal in every solution keeps the invariant if the result is queued |
| GraphMerge.Combined | etc/clang_plugin/HardekopfLin_AA.cpp:5257-5286 | everything the merged node points to counts as new, no copy edge leads back into it, and it is due as early as the node visited less recently |
| SolverState.PushOk | etc/clang_plugin/HardekopfLin_AA.cpp:6714-6771 | a push at a priority no less than the node's visit time can only add to what is sure to be visited, so the skip of out-of-date entries never loses work |
| SolverState.EdgeOk | etc/clang_plugin/HardekopfLin_AA.cpp:7279-7308 | every copy edge the solver adds is an inclusion that holds in the least solution |
| SolverState.MemberJustified | etc/clang_plugin/HardekopfLin_AA.cpp:7182-7219 | each member a load or store is served with justifies the copy edge added for it |
| LcdState.MemberTied | etc/clang_plugin/HardekopfLin_AA.cpp:7567-7659 | nodes that cycle detection collapses are equal in every solution |
| LcdState.MergeOk | etc/clang_plugin/HardekopfLin_AA.cpp:7567-7659 | so collapsing them changes no final points-to set |
| LcdState.CollapseEnd | etc/clang_plugin/HardekopfLin_AA.cpp:7567-7659 | a closed component is one class, nothing else moved, and the result is queued if anything was merged |
| LcdComponents.ThoroughClosed | etc/clang_plugin/HardekopfLin_AA.cpp:7622-7650 | when a component is collapsed, all its edges lead to itself or to components collapsed before |
| LcdComponents.SeenStays | etc/clang_plugin/HardekopfLin_AA.cpp:7592-7606 | a recursive call does not undo what is known about the edges followed before it |
| LcdComponents.NoCycles | etc/clang_plugin/HardekopfLin_AA.cpp:7560-7659 | whatever a visited representative leads to was visited too and lies on no cycle with it |
| SolverInit.EnterBuilds | etc/clang_plugin/HardekopfLin_AA.cpp:6624-6710 | entering a constraint into the graph keeps what has been entered before |
| SolverInit.StartedOk | etc/clang_plugin/HardekopfLin_AA.cpp:6624-6710 | after initialisation every node with members is queued, so the invariant holds |
| SolverInit.Converged | etc/clang_plugin/HardekopfLin_AA.cpp:6714-6771 | an empty worklist leaves nothing to visit |
| Solver.Andersen.AddCopyEdge | etc/clang_plugin/HardekopfLin_AA.cpp:7279-7308 | no edge from or to i2p, none from a node to itself; otherwise the edge is added and the source's set pushed along it |
| Solver.Andersen.SolveLsN | etc/clang_plugin/HardekopfLin_AA.cpp:7182-7219 | serves a load or store with a list of members |
| Solver.Andersen.SolveLsCons | etc/clang_plugin/HardekopfLin_AA.cpp:6918-7057 | brings a complex constraint up to date, drops it if repeated, and serves it with the new members |
| Solver.Andersen.SolveProp | etc/clang_plugin/HardekopfLin_AA.cpp:7312-7363 | propagates the new members along all copy edges; notes exactly the edges whose ends had equal sets, not empty ones, and the node as a start if there is a new one among them |
| Solver.Andersen.SolveNode | etc/clang_plugin/HardekopfLin_AA.cpp:6806-6911 | after a visit exactly the members that the node had count as handled, the invariant holds again, and either less is left to handle or the worklist is as before |
| Solver.Andersen.LcdDfs | etc/clang_plugin/HardekopfLin_AA.cpp:7567-7659 | depth-first search over copy edges that keeps the invariant while collapsing components and cleaning up edges; every edge of a finished node was followed, and collapsed components lead to ones collapsed no later |
| Solver.Andersen.RunLcd | etc/clang_plugin/HardekopfLin_AA.cpp:6776-6801 | runs the search from every candidate; afterwards no candidate is left, nothing that one leads to lies on a cycle of copy edges with another node, and either nodes were merged or nothing changed that needs a visit |
| Solver.Andersen.Dispatch | etc/clang_plugin/HardekopfLin_AA.cpp:6714-6771 | after a visit cycle detection has run if there were enough candidates or visits, and a candidate is only given up if it leads to no cycle |
| Solver.Andersen.SolveInit | etc/clang_plugin/HardekopfLin_AA.cpp:6624-6710 | turns the constraint list into a graph and queues what has members |
| Solver.Andersen.Solve | etc/clang_plugin/HardekopfLin_AA.cpp:6714-6771 | terminates, with nothing left to visit |
| Solver.Analyze | etc/clang_plugin/HardekopfLin_AA.cpp:6624-6771 | for every legal constraint list the solver terminates with exactly the least solution |
| Tarjan.EnterKeeps | etc/clang_plugin/HardekopfLin_AA.cpp:5712-5730 | visiting a new node keeps the search invariant |
| Tarjan.SeeKeeps | etc/clang_plugin/HardekopfLin_AA.cpp:5772-5796 | lowering a node's number to that of an open neighbour keeps it |
| Tarjan.FinishKeeps | etc/clang_plugin/HardekopfLin_AA.cpp:5763-5766 | leaving a node on the stack keeps it |
| Tarjan.CloseKeeps | etc/clang_plugin/HardekopfLin_AA.cpp:5731-5761 | closing a component keeps it |
| Tarjan.ComponentTied | etc/clang_plugin/HardekopfLin_AA.cpp:5731-5761 | every node taken from the stack with the first visited one leads to it and back |
| Tarjan.ChildFrame | etc/clang_plugin/HardekopfLin_AA.cpp:5772-5796 | what a returned recursive call leaves on the stack |
| OfflineGraph.RipenIndirect | etc/clang_plugin/HardekopfLin_AA.cpp:5800-5815 | a fresh label for an indirect node stands exactly for its value and covers what reaches it |
| OfflineGraph.RipenDirect | etc/clang_plugin/HardekopfLin_AA.cpp:5816-5854 | replacing the labels that reach a direct node by labels of equal worth loses nothing; label 0 is given exactly if nothing reaches it |
| OfflineGraph.MemoTable | etc/clang_plugin/HardekopfLin_AA.cpp:5836-5850 | the number given to a set of labels is worth what the set is |
| OfflineSearch.ExploreChild | etc/clang_plugin/HardekopfLin_AA.cpp:5772-5796 | returning from a neighbour counts the edge as followed |
| OfflineSearch.ComponentsExact | etc/clang_plugin/HardekopfLin_AA.cpp:5712-5767 | nodes share a representative exactly if direct and implied edges lead from each to the other |
| OfflineCollapse.ComponentEdge | etc/clang_plugin/HardekopfLin_AA.cpp:5731-5761 | an edge out of a component leads to a node that is labelled already |
| OfflineCollapse.PoppedRipe | etc/clang_plugin/HardekopfLin_AA.cpp:5731-5761 | so when a component is labelled, all its neighbours have labels |
| OfflineCollapse.ExploreClosed | etc/clang_plugin/HardekopfLin_AA.cpp:5731-5766 | labelling a collapsed component keeps all labels right |
| OfflineRules.RulesClosed | etc/clang_plugin/HardekopfLin_AA.cpp:5731-5889 | closing a component keeps this for all components: with label sets, what it starts with, what reaches it over direct edges and one own label if it is indirect; with single labels, an own label if it is indirect, otherwise the only one that reaches it or the number of the set; own labels and numbers are all different |
| OfflineSources.LabelSets | etc/clang_plugin/HardekopfLin_AA.cpp:5858-5889 | when all are closed, a label set has exactly the starting labels and own labels of the nodes from which direct edges, across components, lead to the node |
| OfflineSources.ZeroMeansNoSource | etc/clang_plugin/HardekopfLin_AA.cpp:5858-5889 | label 0 exactly if no such node exists |
| OfflineSources.EqualSets | etc/clang_plugin/HardekopfLin_AA.cpp:5858-5889 | two label sets are equal exactly if their nodes have the same sources |
| OfflineSources.SameNumber | etc/clang_plugin/HardekopfLin_AA.cpp:5816-5854 | with single labels, two direct components that the same labels reach get the same label, and two that different sets of several labels reach get different ones |
| OfflineLabels.Labeller.HvnLabel | etc/clang_plugin/HardekopfLin_AA.cpp:5800-5854 | one label: fresh for an indirect node, 0 if nothing reaches it, the only one, or the number of the set |
| OfflineLabels.Labeller.HuLabel | etc/clang_plugin/HardekopfLin_AA.cpp:5858-5889 | the union of what reaches the node, with a fresh label for an indirect one, 0 if empty |
| OfflineLabels.Labeller.MergeOffNodes | etc/clang_plugin/HardekopfLin_AA.cpp:5666-5706 | unites two offline nodes with their edges, labels and flags; the one of higher rank becomes the parent, the first on a tie |
| OfflineLabels.Labeller.CheckEdge | etc/clang_plugin/HardekopfLin_AA.cpp:5772-5796 | follows one edge of the offline graph |
| OfflineLabels.Labeller.Dfs | etc/clang_plugin/HardekopfLin_AA.cpp:5712-5767 | visits a node and everything it leads to, collapsing and labelling components |
| OfflineLabels.Labeller.Run | etc/clang_plugin/HardekopfLin_AA.cpp:5365-5406 | labels every node: labels are worth no more than the node's value, exactly that for indirect nodes, and cover the labels of every node it includes; two nodes are collapsed exactly if they lead to each other; each component has the labels that the rule for its variant gives it, and with label sets two nodes have equal labels exactly if they draw on the same sources, and label 0 exactly if they have none |
| HvnGraph.PartFits | etc/clang_plugin/HardekopfLin_AA.cpp:5521-5645 | every offline edge is an inclusion in any solution whose stores are grounded, including edges between dereference nodes |
| HvnGraph.SolutionFits | etc/clang_plugin/HardekopfLin_AA.cpp:5521-5645 | so the points-to sets of such a solution can be read as values of the offline nodes |
| HvnMeaning.LabelZero | etc/clang_plugin/HardekopfLin_AA.cpp:5800-5854 | a node labelled 0 receives nothing but copies from nodes labelled 0, and no object whose address is taken is labelled 0 |
| HvnMeaning.RewritingIsSound | etc/clang_plugin/HardekopfLin_AA.cpp:5893-5957 | any solution of the rewritten list, read through representatives, empty on marked nodes and without targets whose address is never taken, solves the original list |
| HvnMeaning.RewritingLosesNothing | etc/clang_plugin/HardekopfLin_AA.cpp:5893-5957 | no points-to set gets smaller by rewriting |
| HvnMeaning.LabelsAreExact | etc/clang_plugin/HardekopfLin_AA.cpp:5800-5854 | if every store goes through a pointer that points somewhere, or stores nothing, each node points to exactly what its labels stand for |
| HvnMeaning.MergesAreExact | etc/clang_plugin/HardekopfLin_AA.cpp:5893-5937 | then merged nodes are equal and marked nodes are empty in the least solution |
| HvnMeaning.RewritingIsExact | etc/clang_plugin/HardekopfLin_AA.cpp:5893-5957 | whenever merged nodes are equal and marked nodes empty in it, the least solution of the rewritten list is that of the original |
| HvnReading.ReadingIsSound | etc/clang_plugin/HardekopfLin_AA.cpp:5893-5957 | a solution of the rewritten list, read through representatives and empty on marked nodes, with all its targets, solves the original list if and only if no store that is kept writes something to a marked node |
| HvnReading.LeastIsClean | etc/clang_plugin/HardekopfLin_AA.cpp:5910-5957 | the least solution of the rewritten list is empty on marked nodes and has only targets whose address is taken |
| HvnReading.CleanReadsBack | etc/clang_plugin/HardekopfLin_AA.cpp:5893-5957 | such a solution, and so the least one, solves the original list as it is |
| HvnReading.MarksUnmentioned | etc/clang_plugin/HardekopfLin_AA.cpp:5939-5957 | no constraint of the rewritten list mentions a marked node or one merged with it |
| HvnReading.StaysPrepared | etc/clang_plugin/HardekopfLin_AA.cpp:5946-5950 | the pass can run again if and only if no object whose address is taken was merged into another node, which add_off_edges asserts; none is if none has an offline node |
| HvnPass.MakeOffNodes | etc/clang_plugin/HardekopfLin_AA.cpp:5443-5514 | numbers parameters first, then values; each representative with an offline node gets a number of its own |
| HvnPass.AddOffEdges | etc/clang_plugin/HardekopfLin_AA.cpp:5521-5645 | the offline graph has exactly the edges, starting labels and indirect marks that the constraints contribute |
| HvnPass.MergePtrEq | etc/clang_plugin/HardekopfLin_AA.cpp:5893-5937 | nodes labelled 0 are marked, those marked before among them; of the others exactly those with equal labels are merged |
| HvnPass.WorkedBySources | etc/clang_plugin/HardekopfLin_AA.cpp:5893-5937 | with label sets the pass merges and marks exactly by sources |
| HvnPass.WorkedByNumbers | etc/clang_plugin/HardekopfLin_AA.cpp:5893-5937 | with single labels the pass merges nodes of direct components that the same labels reach, and marks them if none does |
| HvnPass.PointeesCollapsed | etc/clang_plugin/HardekopfLin_AA.cpp:5549-5586 | the implied edges: what two pointers point to is collapsed if they are copied to each other, and an object with what points to it if it is loaded through it |
| HvnPass.RewriteConstraints | etc/clang_plugin/HardekopfLin_AA.cpp:5939-5962 | the new list has exactly the rewritten constraints without marked nodes and self copies, each once, and is no longer than the old one |
| HvnPass.Hvn | etc/clang_plugin/HardekopfLin_AA.cpp:5365-5406 | value numbering, with single labels or with label sets, starting from any marks of earlier passes: with label sets, nodes are merged exactly if they draw on the same sources of the offline graph and marked exactly if on none; the least solution of the new list solves the old one, any other does exactly if its stores miss the marks; the least solution stays the same if and only if it is equal on merged nodes and empty on marked ones, and so whenever its stores are grounded |
| HvnPass.UnmentionedZero | etc/clang_plugin/HardekopfLin_AA.cpp:5918-5925 | a node that nothing mentions is labelled 0 again, so no node marked before can get another label |
| HvnLimits.ReadingCanFail | etc/clang_plugin/HardekopfLin_AA.cpp:5893-5957 | a list and a solution of its rewriting that, read with all targets, does not solve it |
| HvnLimits.CycleMerged | etc/clang_plugin/HardekopfLin_AA.cpp:5712-5767 | two nodes on one offline cycle with a dereferenced node that points nowhere are merged |
| HvnLimits.MergingCanLose | etc/clang_plugin/HardekopfLin_AA.cpp:5893-5957 | for that list, a node that points nowhere points to an object in every solution of the rewritten list |
| HvnLimits.HvnOnCycle | etc/clang_plugin/HardekopfLin_AA.cpp:5365-5406 | so the pass, run on that list, leaves one with another least solution |
| HvnLimits.AnchoredIsGrounded | etc/clang_plugin/HardekopfLin_AA.cpp:5626-5637 | if the address of an object other than i2p is copied to every pointer stored through, the stores of every solution are grounded |
| HuLabels.MakeOffGraph | etc/clang_plugin/HardekopfLin_AA.cpp:9021-9072 | copies are edges; objects and the targets of addresses and loads are indirect; stores are ignored |
| HuLabels.OnlyObjects | etc/clang_plugin/HardekopfLin_AA.cpp:9021-9030 | the least solution points to objects only |
| HuLabels.ValuesSolve | etc/clang_plugin/HardekopfLin_AA.cpp:9074-9081 | an assignment below a solution that agrees with it on indirect nodes and is closed under copies is a solution |
| HuLabels.LabelsAreExact | etc/clang_plugin/HardekopfLin_AA.cpp:8959-9019 | without dereference nodes a node points to exactly what its labels stand for, for every constraint list, cyclic copies included |
| HuLabels.EqualLabelsEqualSets | etc/clang_plugin/HardekopfLin_AA.cpp:8959-9019 | nodes with equal label sets have equal points-to sets in the least solution, and a node labelled 0 has an empty one |
| HuLabels.SameSourceSets | etc/clang_plugin/HardekopfLin_AA.cpp:9021-9081 | drawing on the same nodes of the offline graph is having the same sources in the constraint list |
| HuLabels.MergeEqual | etc/clang_plugin/HardekopfLin_AA.cpp:9096-9117 | nodes labelled 0 are marked; of the others exactly those with equal label sets are merged |
| HuLabels.MergedBySources | etc/clang_plugin/HardekopfLin_AA.cpp:9082-9117 | merging by exact label sets is merging by sources |
| HuLabels.FindEquivalences | etc/clang_plugin/HardekopfLin_AA.cpp:9082-9117 | two nodes are merged exactly if the same objects and destinations of address and load constraints lead to them by copies, up to copy cycles, and there is one; a node is marked exactly if there is none; and so whatever is merged is equal, and whatever is marked is empty, in the least solution |
| Factoring.FactorGroup | etc/clang_plugin/HardekopfLin_AA.cpp:6265-6297 | factoring one group through a new node: solutions restrict to the old nodes and extend to the new one |
| Factoring.ConservativeTransitive | etc/clang_plugin/HardekopfLin_AA.cpp:6197-6232 | both directions compose over all groups |
| Factoring.LeastAgree | etc/clang_plugin/HardekopfLin_AA.cpp:6197-6232 | then the least solutions agree on the old nodes |
| Factoring.SplitList | etc/clang_plugin/HardekopfLin_AA.cpp:6197-6222 | loads are grouped by source, stores by destination, everything else is kept |
| Factoring.Factory.FactorOne | etc/clang_plugin/HardekopfLin_AA.cpp:6265-6297 | a group of fewer than two is put back as it is; a larger one becomes one load or store of a new node and copies |
| Factoring.FactorLoadsAndStores | etc/clang_plugin/HardekopfLin_AA.cpp:6197-6232 | the factored list exactly: every pointer with two or more loads (or stores) through it, and no other, has one new node of its own, the loads become one load into that node and copies out of it to exactly the nodes that loaded, stores likewise the other way, everything else stays as it was and nothing is added twice; there is one node more for each such group, solutions restrict and extend, and the least solutions agree on the old nodes |
| Factoring.OneOfEach | etc/clang_plugin/HardekopfLin_AA.cpp:6265-6297 | in a factored list no two loads have the same source and no two stores the same destination |
| UnionFind.Partition.AddNode | etc/clang_plugin/HardekopfLin_AA.cpp:6281-6285 | a new node is its own representative and no class changes |
| ConstraintOptimization.TracesMore | etc/clang_plugin/HardekopfLin_AA.cpp:5430-5436 | one more pass of value numbering keeps what the list says about the first one |
| ConstraintOptimization.Hr | etc/clang_plugin/HardekopfLin_AA.cpp:5414-5440 | every pass but the last one removed at least the given number of constraints and the last one fewer, which ends; each is one run of value numbering on the list before it; what the list says about the first one is kept |
| ConstraintOptimization.ConsOpt | etc/clang_plugin/HardekopfLin_AA.cpp:6299-6309 | one pass with single labels, rounds with label sets, and factoring of the last list; the least solution of the final list solves the first list on its nodes, and is its least solution if and only if that is equal on merged nodes and empty on marked ones |
| ConstraintOptimization.OptimizeAndSolve | etc/clang_plugin/HardekopfLin_AA.cpp:6299-6309 | optimizing and then solving a list gives exactly the least solution of what the passes leave; that solves the list and contains its least solution, is exactly the least one if the stores of that are grounded, and always if the stores of the list are anchored |
| ExpansionCache.ExpansionUnique | etc/clang_plugin/HardekopfLin_AA.cpp:6440-6445 | a set has one sorted expansion, so a cached one is the one a direct expansion gives |
| ExpansionCache.EvictTracks | etc/clang_plugin/HardekopfLin_AA.cpp:6415-6436 | the set named by the first queue entry, if its time is current, is the least recently used one and is named by no other entry |
| ExpansionCache.StaleTracks | etc/clang_plugin/HardekopfLin_AA.cpp:6420-6435 | an out-of-date entry can be dropped; every entry still names a cached set |
| ExpansionCache.UseTracks | etc/clang_plugin/HardekopfLin_AA.cpp:6406-6412 | using a set makes it the most recent one |
| ExpansionCache.Cache.EvictOne | etc/clang_plugin/HardekopfLin_AA.cpp:6419-6435 | the inner loop ends and removes exactly the least recently used entry |
| ExpansionCache.Cache.Evict | etc/clang_plugin/HardekopfLin_AA.cpp:6415-6437 | removes exactly the given number of least recently used entries |
| ExpansionCache.Cache.BddToVec | etc/clang_plugin/HardekopfLin_AA.cpp:6396-6449 | returns the sorted expansion on every call, given that a number stands for one set; the cache changes by this entry and, if full, by the evicted ones |
| SparseGraph.LeastFlowExists | etc/clang_plugin/HardekopfLin_AA.cpp:9585-9600 | the set of definitions that reach each node is well defined |
| SparseGraph.MergedKeepsLeast | etc/clang_plugin/HardekopfLin_AA.cpp:9361-9430 | merging preserving nodes of equal flow keeps the flow of every node |
| SparseGraph.PrunedKeepsLeast | etc/clang_plugin/HardekopfLin_AA.cpp:9557-9583 | deleting preserving nodes whose predecessors are all deleted keeps the flow of every other node, and nothing reaches the deleted ones |
| SparseGraph.AbsorbedKeepsLeast | etc/clang_plugin/HardekopfLin_AA.cpp:9323-9359 | merging a preserving node into its only predecessor keeps the flow of every other node; what flows into it is what comes out of that predecessor |
| SparseSearch.CollapsedMerges | etc/clang_plugin/HardekopfLin_AA.cpp:9361-9430 | cycle collapsing only merges preserving nodes of equal flow |
| SparseSearch.CloseTopo | etc/clang_plugin/HardekopfLin_AA.cpp:9387-9397 | a preserving predecessor of a listed component is part of it or of an earlier one |
| SparsePruning.KeptIsReached | etc/clang_plugin/HardekopfLin_AA.cpp:9557-9583 | something reaches every preserving node that is kept |
| SparsePruning.UndefinedExactly | etc/clang_plugin/HardekopfLin_AA.cpp:9557-9583 | a node is deleted exactly if it preserves and nothing reaches it |
| SparseReduction.Reducer.Unite | etc/clang_plugin/HardekopfLin_AA.cpp:9211-9246 | unites two preserving representatives with their predecessors; the one of higher rank becomes the parent, the first on a tie, and ranks grow on a tie only |
| SparseReduction.Reducer.T4Visit | etc/clang_plugin/HardekopfLin_AA.cpp:9361-9403 | depth-first search over preserving predecessors |
| SparseReduction.Reducer.T4 | etc/clang_plugin/HardekopfLin_AA.cpp:9406-9430 | collapses all cycles of preserving nodes and lists the components in topological order |
| SparseReduction.Reducer.RmUndef | etc/clang_plugin/HardekopfLin_AA.cpp:9557-9583 | deletes exactly the preserving nodes that nothing reaches and keeps the flow of the rest |
| SparseReduction.Reducer.T2 | etc/clang_plugin/HardekopfLin_AA.cpp:9323-9359 | keeps the flow and leaves only preserving nodes with several predecessors |
| SparseReduction.Reduce | etc/clang_plugin/HardekopfLin_AA.cpp:9323-9430 | T4, then rm_undef, then T2: every surviving node has the same definitions reaching it, what comes out of a node comes out of what it was merged into, exactly the undefined nodes are gone, the preserving nodes that are left have several predecessors and lie on no cycle among themselves |
| StructLayout.SizesFit | etc/clang_plugin/HardekopfLin_AA.cpp:1704-1763 | entry 0 of the size vector is its length, and every place plus its size is within bounds |
| StructLayout.AsManyPlaces | etc/clang_plugin/HardekopfLin_AA.cpp:1704-1763 | the flattened struct has one place for each simple value |
| StructLayout.FieldStarts | etc/clang_plugin/HardekopfLin_AA.cpp:1721-1744 | each field starts where the values of the fields before it end |
| StructLayout.PathLands | etc/clang_plugin/HardekopfLin_AA.cpp:1767-1808 | adding the offsets along any path of fields leads to the place where the values of its target start, all of them inside |
| StructLayout.PathSize | etc/clang_plugin/HardekopfLin_AA.cpp:1767-1808 | the size recorded there covers the target |
| StructLayout.SizeIsLargest | etc/clang_plugin/HardekopfLin_AA.cpp:1721-1744 | the size recorded at each place is the largest of a target of a path that leads there, and some path does |
| StructLayout.StructTable.AnalyzeStruct | etc/clang_plugin/HardekopfLin_AA.cpp:1704-1763 | records the right sizes and offsets for a struct and all structs inside it at any depth, and the largest struct seen |
| StructLayout.StructTable.ComputeGepOff | etc/clang_plugin/HardekopfLin_AA.cpp:1767-1808 | computes the offset of a path |
| LatencyShapes.EarliestFirst | etc/clang_plugin/TreeHeightReduction.hpp:1031-1075 | any binary tree over given leaf times can be turned into one in which two earliest leaves are combined first, without finishing later |
| LatencyShapes.StillNoWorse | etc/clang_plugin/TreeHeightReduction.hpp:1048-1067 | each greedy step keeps: whatever can be built from the original leaves, something as fast can be built from what is left |
| LatencyShapes.OnlyOneLeft | etc/clang_plugin/TreeHeightReduction.hpp:1068-1075 | so the last one finishes no later than any tree over the original leaves |
| OperatorTree.SplitKeepsValue | etc/clang_plugin/TreeHeightReduction.hpp:1000-1027 | taking a node of the region's operator apart keeps the value modulo the modulus |
| OperatorTree.TotalPermutes | etc/clang_plugin/TreeHeightReduction.hpp:1048-1062 | the order of the leaves does not matter |
| TreeRegion.TakeApart | etc/clang_plugin/TreeHeightReduction.hpp:1000-1027 | collecting keeps value, nodes and frontier, with exactly one reusable node fewer than leaves |
| TreeRegion.PutTogether | etc/clang_plugin/TreeHeightReduction.hpp:1078-1094 | combining keeps them, and there is a node to reuse while more than one leaf is left |
| TreeBuilding.GreedyStep | etc/clang_plugin/TreeHeightReduction.hpp:1048-1067 | combining the two earliest of the sorted leaves is such a greedy step |
| TreeCollecting.RegionRebuilt | etc/clang_plugin/TreeHeightReduction.hpp:949-997 | the rebuilt region has the same value, nodes and frontier, is no later, and is optimal |
| TreeRebuilding.ImprovesParts | etc/clang_plugin/TreeHeightReduction.hpp:949-970 | improving both subtrees improves the tree |
| TreeRebuilding.SettledStays | etc/clang_plugin/TreeHeightReduction.hpp:949-997 | rebuilding a region keeps what has been done below it |
| TreeMemory.HoldsUnique | etc/clang_plugin/TreeHeightReduction.hpp:192-210 | linked nodes determine one tree |
| TreePaths.LatencyIsLongest | etc/clang_plugin/TreeHeightReduction.hpp:505-531 | no way from the root to a leaf takes longer than the latency of the tree, and some way takes as long |
| TreePaths.CostIsSum | etc/clang_plugin/TreeHeightReduction.hpp:505-531 | the cost of a tree is its number of additions and of multiplications times their delays without fractions |
| TreeEmission.EmittedMeaning | etc/clang_plugin/TreeHeightReduction.hpp:591-652 | two internal children arrive swapped, and the value is still the tree's |
| TreeEmission.EmitStep | etc/clang_plugin/TreeHeightReduction.hpp:610-652 | the front of the queue holds the values of the current node's own children, and the node's value goes to the back |
| TreeHeightReduction.Reducer.GetNodesAndLeavesByBfs | etc/clang_plugin/TreeHeightReduction.hpp:192-210 | lists the nodes breadth first |
| TreeHeightReduction.Reducer.UpdateNodeLatency | etc/clang_plugin/TreeHeightReduction.hpp:505-531 | the latency is the time of a longest way down to a leaf, an addition counting the one delay and a multiplication the other; latency is the larger of the children's plus the operator's, cost is their sum, truncated |
| TreeHeightReduction.Reducer.UpdateTreeLatency | etc/clang_plugin/TreeHeightReduction.hpp:338-348 | all latencies of the tree are those of longest ways afterwards, the cost counts each addition and each multiplication by its delay without fractions, and nothing else changed |
| TreeHeightReduction.Reducer.CollectLeavesAndReusedNodes | etc/clang_plugin/TreeHeightReduction.hpp:1000-1027 | the leaves and nodes of the region at the top; no node exactly if its top is considered a leaf |
| TreeHeightReduction.Reducer.SortLeaves | etc/clang_plugin/TreeHeightReduction.hpp:1048-1062 | a permutation ordered by latency, then cost |
| TreeHeightReduction.Reducer.RemoveNode | etc/clang_plugin/TreeHeightReduction.hpp:1033-1047 | removes every occurrence |
| TreeHeightReduction.Reducer.CombineLeaves | etc/clang_plugin/TreeHeightReduction.hpp:1078-1094 | links two leaves below the last reusable node and updates its latencies; all other trees survive |
| TreeHeightReduction.Reducer.ConstructOptimizedSubtree | etc/clang_plugin/TreeHeightReduction.hpp:1031-1075 | ends at the node it started from with one tree that keeps the region's value and nodes, comes from its leaves by ordering them and putting the first two below the last node again and again, and is as fast as any over the same leaves |
| TreeHeightReduction.Reducer.ApplyTreeHeightReduction | etc/clang_plugin/TreeHeightReduction.hpp:949-997 | every tree of adds and multiplies keeps its value, its nodes and its root, is no later, and its top region is optimal unless the node is below another operator; in that case the result is the same node over its two improved subtrees, each optimal by itself where it belongs to the region; so it is with every region below, down to the leaves |
| TreeLimits.ChainNotOptimal | etc/clang_plugin/TreeHeightReduction.hpp:949-997 | a chain of three additions below a multiplication ends a region, and however its two subtrees are improved, the same leaves can be added earlier |
| TreeHeightReduction.Reducer.GetOnlyNodes | etc/clang_plugin/TreeHeightReduction.hpp:591-608 | the branches in breadth-first order |
| TreeHeightReduction.Reducer.SetLeftAndRightOperand | etc/clang_plugin/TreeHeightReduction.hpp:610-652 | takes the operands from the leaves and from the front of the queue, which is never empty when needed |
| TreeHeightReduction.Reducer.CreateIRs | etc/clang_plugin/TreeHeightReduction.hpp:1097-1124 | exactly one value remains, the one emitted for the whole tree |
| TreeHeightReduction.Reducer.Reduce | etc/clang_plugin/TreeHeightReduction.hpp:949-1124 | what is emitted for the rebuilt tree computes the original tree's value modulo 2^w; the top region of the rebuilt tree is optimal and all regions below are dealt with |
| MemoryLowering.MovedParts | etc/clang_plugin/LowerMemIntrinsics.cpp:536-658 | what a copy asks for: the destination holds the source bytes and nothing else changed |
| MemoryLowering.BackwardStep | etc/clang_plugin/LowerMemIntrinsics.cpp:609-629 | copying backwards never overwrites a source byte before it is read, if the source starts first |
| MemoryLowering.ForwardStep | etc/clang_plugin/LowerMemIntrinsics.cpp:633-657 | copying forwards never does, if it does not |
| MemoryLowering.MemMove | etc/clang_plugin/LowerMemIntrinsics.cpp:558-658 | correct for every length and every overlap |
| MemoryLowering.NextPiece | etc/clang_plugin/LowerMemIntrinsics.cpp:96-165 | on disjoint or identical regions, copying piece after piece is copying the whole |
| MemoryLowering.MemCpyKnownSize | etc/clang_plugin/LowerMemIntrinsics.cpp:96-261 | copies every byte exactly once and touches nothing else, for every length and word size and residual pieces that add up and divide their offsets |
| MemoryLowering.MemCpyUnknownSize | etc/clang_plugin/LowerMemIntrinsics.cpp:325-487 | the same with a residual loop over bytes |
| ParameterRegistry.LessTotal | src/BambuParameterRegistry.cpp:92-97 | strings are totally ordered |
| ParameterRegistry.LessMeans | src/BambuParameterRegistry.cpp:92-97 | one string is less than another exactly if it is less at the first place where they differ or is a proper beginning |
| ParameterRegistry.SortedUnique | src/BambuParameterRegistry.cpp:69-79 | a sorted list without repetition is determined by its values |
| ParameterRegistry.NormalizeAllowedValues | src/BambuParameterRegistry.cpp:69-79 | sorts and removes repetitions |
| ParameterRegistry.MergeString | src/BambuParameterRegistry.cpp:81-98 | the first non-empty one in the order of strings; tells exactly whether it changed |
| ParameterRegistry.KindsInOrder | src/BambuParameterRegistry.hpp:47-56 | kinds are ordered as declared, from booleans to the unknown kind |
| ParameterRegistry.MergeType | src/BambuParameterRegistry.cpp:100-112 | the first kind in order; tells exactly whether it changed |
| ParameterRegistry.MergeAllowedValues | src/BambuParameterRegistry.cpp:114-124 | the union, sorted, unless nothing is added; tells whether the number of values changed, which for sorted values is exactly whether they changed |
| ParameterRegistry.MergeInfo | src/BambuParameterRegistry.cpp:126-136 | joins two declarations field by field; tells exactly whether anything changed if the allowed values were sorted, and otherwise whether a text, the kind or their number did |
| ParameterRegistry.OrderDoesNotMatter | src/BambuParameterRegistry.cpp:162-180 | a registry is determined by the set of declarations it represents |
| ParameterRegistry.RepresentsMore | src/BambuParameterRegistry.cpp:162-180 | replacing one entry by the join represents one more declaration |
| ParameterRegistry.Registry.Register | src/BambuParameterRegistry.cpp:162-180 | the registry represents the declarations so far; returns true exactly when it changed |
| ParameterRegistry.RegisterAll | src/BambuParameterRegistry.cpp:162-180 | after any list the registry represents its set, whatever the order and repetition |

## Left out

- LLVM traversal, constraint generation and the table of external functions: they depend on LLVM types.
- Binary decision diagrams and finite-domain blocks: sets are plain sets, and the expansion of a diagram is the list of its elements.
- Hybrid cycle detection (`hcd`, `hcd_dfs`, the branch of `solve_node` that uses `hcd_var`): the map is empty here. Node 0 is still queued on every productive visit, as in the code.
- Offsets of loads and stores and `solve_gep_cons`: with NO_FIELD_SENSITIVE every constraint has offset 0, and indirect-call offsets do not survive factoring.
- The rewriting of `icall_cons` in `merge_ptr_eq` and `factor_ls`.
- Overflow of 32-bit visit times, search numbers and labels: they are unbounded here; only the rank word of the union-find is modelled at its width.
- HvnPass.Hvn: there are fewer than 0x78000000 nodes, so that offline nodes fit below the rank words; grounded and anchored stores are sufficient for exactness, while the condition that is also necessary is about the least solution itself.
- ConstraintOptimization.ConsOpt: `hcd` between the passes and factoring is not run; there are at most 0x50000000 nodes, so that the new ones fit; no object whose address is taken has an offline node.
- HuLabels.FindEquivalences: does not model the constraint rewriting that follows, because it consults the points-to sets of an earlier analysis.
- OfflineLabels.Labeller.MergeOffNodes: also stands for `uniteOCG`, whose ranks are counted down from the largest word.
- SparseReduction.Reducer.Unite: representatives are kept directly instead of in rank words, so path compression of `find` is not captured; the flags r and c, which only later steps read, are left out.
- SEG steps T5 to T7, partitioning of variables, and the staged flow-sensitive solver.
- ExpansionCache.Cache.Evict: the priority queue is a list kept in increasing order of time, to which later uses are appended.
- TreeHeightReduction.Reducer.Reduce: PHI leaves and their weights, instruction flags and floating-point operators are left out; latencies are non-negative reals; leaves start with latency and cost 0, as constructed.
- TreeHeightReduction.Reducer.SortLeaves: orders ties by position, where the library sort leaves them open; nothing depends on it.
- Building and destroying operation trees, and choosing their roots in a basic block.
- Atomic element sizes, volatility, alignment and alias metadata of memory operations, and memset.
- MemoryLowering.MemCpyKnownSize: the residual pieces come from the target description; the model takes any that add up to the remainder and divide their offsets.
- The registry's mutex and once-flag, lookup and listing.
- Command-line parameters, file handling and the pass wrappers.
