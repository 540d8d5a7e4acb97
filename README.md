# bmg-edit, modelled in Dafny

This project models the algorithmic core of `bmgedit`, a Python package for
editing best match graphs (BMGs). Its core pieces are:

- **BUILD / MTT tree builder** (`Build.py`). It builds the Aho graph of a
  set of rooted triples `ab|c`. With forbidden triples it runs the worklist
  loop of `mtt_partition`. `Build2` recurses on the blocks of the partition,
  restricting the triples to each block. When the triples are inconsistent
  and that is allowed, it falls back to a minimum-cost bipartition and adds
  that cost to `total_cost`.
- **Bipartition heuristics** (`GreedyBipartition.py`). These are the cut
  value of a partition, the greedy prefix sweep and the gradient walk, all
  driven by a caller-supplied cost function.
- **Karmarkar–Karp number partitioning** (`NumberPartition.py`). This is the
  largest-differencing heap loop, the two-colouring of the resulting tree,
  and `balanced_coarse_graining`.
- **Louvain community detection** (`Louvain.py` and the rewrite
  `Louvain_new.py`). This covers one level's local-moving sweep with its
  community bookkeeping, the contraction of communities into supernodes,
  and the driver that stacks levels until nothing moves.
- **Unsatisfiability cost of a split** (`BMGEditing.py`). This is the count
  of the arcs and non-arcs that violate the three BMG conditions, and the
  lists `U1`, `U2`, `U3` of those pairs.
- **Scenario counting helpers** (`Scenario.py`). These are the event
  counts, the sorting of species into the subtrees below the first
  speciation, the outgroup genes of each subtree, the best match graphs
  restricted to those subtrees and the number of possible edges.

Each source file becomes one or more Dafny modules:

- `triples.dfy`, `aho_graph.dfy`, `mtt.dfy`, `build_tree.dfy` and `build.dfy` model `Build.py`.
- `greedy_bipartition.dfy` models `GreedyBipartition.py`.
- `number_partition.dfy` and `seq_facts.dfy` model `NumberPartition.py`.
- `consistency.dfy` states when rooted triples and forbidden triples are consistent, which is what BUILD and MTT decide in `Build.py`.
- `weighted_graphs.dfy`, `communities.dfy`, `partitions.dfy` and `louvain.dfy` model `Louvain.py`; both Louvain files share the graph contraction in `weighted_graphs.dfy`.
- `modularity.dfy` (the module-level `modularity` function) and `louvain_new.dfy` model `Louvain_new.py`.
- `bmg_editing.dfy` models `BMGEditing.py`.
- `scenario.dfy` models `Scenario.py`.
- `wrappers.dfy` holds the `Option`/`Result` types.

Python's exceptions appear as `Result` failures: `ValueError`, `TypeError`,
`ZeroDivisionError` and `KeyError`.

Other conventions:

- Code that mutates state in the source is written as methods with loops and
  invariants. Python objects whose fields are updated in place become classes
  (`Build2`, the Louvain levels, `Community`).
- Integers are unbounded. The Louvain edge weights, degrees, gains and
  modularity values, which are floats in the source, are exact reals. The
  triple weights of `Build.py` and every bipartition cost are integers.
- Each external library call enters the model in one of two ways. Either it
  is a verified stand-in (connected components), or it is a parameter with a
  stated contract: Stoer–Wagner, Karger, the caller's cost function, and the
  random choices.

## Model

| member | source | states |
|---|---|---|
| Triples.Restriction | src/bmgedit/Build.py:170-173 | the restriction of `R` to a leaf set holds exactly the triples of `R` whose three leaves lie in the set, and is no longer than `R` |
| Triples.RestrictTriples | src/bmgedit/Build.py:200-204 | the append loop of `_aho`/`_mtt` yields exactly the restriction, a list over the part's leaves |
| Triples.RestrictTwice | src/bmgedit/Build.py:170-173 | restricting to S and then to T ⊆ S equals restricting to T |
| Triples.RestrictionSubMultiset | src/bmgedit/Build.py:200-204 | the restricted list is a sub-multiset of the parent's list (the parent's list is not consumed) |
| Triples.DistinctNeedsThree | src/bmgedit/Build.py:155-156 | a triple of three distinct leaves inside S needs at least three leaves in S, so the trivial case never sees one |
| AhoGraph.AhoGraphOf | src/bmgedit/Build.py:16-36 | the Aho graph has vertex set L plus the leaves of the pairs, an edge {a,b} iff some triple ab\|c is in R, and each edge weighs the summed contributions of the triples inducing it |
| AhoGraph.AhoFoldShape | src/bmgedit/Build.py:23-34 | the same shape for the edge-adding fold: vertices, edge set and weights |
| AhoGraph.PairLeaves | src/bmgedit/Build.py:26-28 | a leaf is added by `add_edge` iff it is the first or second leaf of some triple; the third leaf gets no edge |
| AhoGraph.EdgeWeightOffEdge | src/bmgedit/Build.py:27-28 | a pair that no triple joins has weight 0 |
| AhoGraph.EdgeWeightCounts | src/bmgedit/Build.py:17-20 | weighted without explicit weights, an edge weighs the number of triples ab\|x or ba\|x; unweighted, every edge weighs 0 |
| AhoGraph.InducingSnoc | src/bmgedit/Build.py:27-34 | the last triple adds one to the count of triples inducing an edge iff it induces that edge |
| AhoGraph.TripleConnect | src/bmgedit/Build.py:39-42 | `_triple_connect` adds the edges {t0,t1} and {t0,t2} and their leaves, and keeps every existing edge weight |
| AhoGraph.MergeKeepsComponents | src/bmgedit/Build.py:51 | merging the blocks at the ends of a new edge turns the components of (U, E) into those of (U, E + {e}); the block count drops by one iff the edge joined two blocks |
| AhoGraph.SingletonComponents | src/bmgedit/Build.py:51 | with no edges every vertex is its own component |
| AhoGraph.ConnectedComponents | src/bmgedit/Build.py:51 | `connected_components` returns a partition of the vertex set in which each block is connected and no edge crosses blocks |
| Mtt.SmallerBlock | src/bmgedit/Build.py:69-70 | `merge` returns one of the two merged blocks, no larger than either |
| Mtt.MergeBlocksIsPartition | src/bmgedit/Build.py:70 | merging keeps a partition of L and lowers the block count by one when the blocks differ |
| Mtt.MergedBlockOf | src/bmgedit/Build.py:70 | after a merge a leaf's block is the union if it was in either merged block, and unchanged otherwise |
| Mtt.StatusChange | src/bmgedit/Build.py:72-79 | a forbidden triple whose separation status changes in a merge has a leaf in the smaller block, so rescanning that block's lookup lists suffices |
| Mtt.MergeRefines | src/bmgedit/Build.py:66-70 | merging a and c for a triple ab\|c that P separates and an admissible Q does not keeps P finer than Q (every merge is forced) |
| Mtt.ComponentsRefine | src/bmgedit/Build.py:48-51 | the components of the Aho graph are finer than any partition keeping its edges inside blocks |
| Mtt.OneBlockSeparatesNothing | src/bmgedit/Build.py:53-54 | with a single block no triple is separated, so the early return leaves no forbidden triple separated |
| Mtt.ConnectSeparated | src/bmgedit/Build.py:66-70 | connecting a separated popped triple and merging the blocks of t0 and t2 keeps the partition equal to the graph's components and lowers the block count by one |
| Mtt.ConnectInside | src/bmgedit/Build.py:75-77 | connecting a dropped triple whose leaves already share a block keeps the components unchanged |
| Mtt.ConnectKeepsAux | src/bmgedit/Build.py:67 | `_triple_connect` on a forbidden triple keeps the auxiliary graph's shape |
| Mtt.BuildLookup | src/bmgedit/Build.py:59-63 | the lookup maps each leaf to the forbidden triples containing it |
| Mtt.SeparatedTriples | src/bmgedit/Build.py:56-57 | S is exactly the forbidden triples that P separates |
| Mtt.RescanStep | src/bmgedit/Build.py:74-79 | visiting one triple keeps the rescan invariant |
| Mtt.RescanTriples | src/bmgedit/Build.py:74-79 | the inner loop over one leaf's list keeps the rescan invariant, the components and the auxiliary graph |
| Mtt.VisitTriple | src/bmgedit/Build.py:75-79 | one step: a triple in S that P no longer separates is removed and connected; one that P now separates is added |
| Mtt.RescanComplete | src/bmgedit/Build.py:72-79 | after visiting every list of the smaller block, S is exactly the separated forbidden triples of the merged partition |
| Mtt.Rescan | src/bmgedit/Build.py:72-79 | the rescan restores S = {t ∈ F \| P separates t} after a merge and keeps P the components of G |
| Mtt.MergeStepRefines | src/bmgedit/Build.py:65-70 | each merge of the main loop keeps P finer than every admissible partition |
| Mtt.InitialState | src/bmgedit/Build.py:47-51 | the unweighted Aho graph's components start the loop finer than every admissible partition |
| Mtt.MttPartition | src/bmgedit/Build.py:45-81 | on exit no forbidden triple is separated and every Aho edge lies inside a block; P is the components of the returned graph and the finest such partition |
| Trees.Cherry | src/bmgedit/Build.py:143-148 | an inner node over two distinct leaves has exactly those leaves and is phylogenetic |
| Trees.AddChild | src/bmgedit/Build.py:178 | adding a child adds its leaves; the node splits a triple iff it did before or the child clusters or splits it |
| Trees.AddToForest | src/bmgedit/Build.py:178 | a child over leaves disjoint from its siblings keeps a forest of phylogenetic trees |
| Build.ParseBipartMethod | src/bmgedit/Build.py:105-109 | the method name is accepted iff it is one of the four names, and then parses to the method of that name; otherwise a ValueError |
| Build.ParseMethodName | src/bmgedit/Build.py:105-106 | each method's name parses back to that method |
| Build.Build2.constructor | src/bmgedit/Build.py:90-116 | the builder holds its arguments and `total_cost` starts at 0 |
| Build.Build2.Create | src/bmgedit/Build.py:90-116 | `Build2(...)` raises a ValueError iff the method name is unknown; otherwise the builder holds the arguments |
| Build.Build2.BuildTree | src/bmgedit/Build.py:119-134 | the tree's leaves are exactly L; with inconsistency allowed a non-empty L always succeeds; without it `total_cost` stays 0, and a result displays every triple of R and no forbidden one |
| Build.Build2.TrivialCase | src/bmgedit/Build.py:137-148 | one leaf gives that leaf; two leaves give an inner node whose two children are exactly those leaves; the leaves are popped from L; other sizes give nothing |
| Build.Build2.Aho | src/bmgedit/Build.py:151-180 | the result's leaves are exactly L; a single component without allowed inconsistency fails; allowed inconsistency never fails on a non-empty L; a strict result displays every triple of R |
| Build.Build2.AhoChildren | src/bmgedit/Build.py:168-180 | one subtree per block, built from the block's triples; any failing child fails the node; the children's leaves are the blocks |
| Build.Build2.Mtt | src/bmgedit/Build.py:183-211 | as `Aho`, with the `mtt_partition` blocks; a strict result displays every triple of R and no triple of F |
| Build.Build2.MttChildren | src/bmgedit/Build.py:198-211 | one subtree per block from the restricted R and F; any failing child fails the node |
| Build.Build2.Bipartition | src/bmgedit/Build.py:214-248 | the split is a bipartition of L into two non-empty sides; `total_cost` grows by exactly the chosen cost; mincut takes Stoer–Wagner's cut, Karger its first cheapest split |
| Build.Build2.KargerMin | src/bmgedit/Build.py:222-229 | the kept split is one Karger yielded, with its cost; no yielded split costs less, and every split yielded before it costs strictly more (ties keep the earliest) |
| Build.Build2.BestOfFive | src/bmgedit/Build.py:231-245 | five runs are made and the kept one has the least cost of the five |
| Build.Build2.OneWalk | src/bmgedit/Build.py:239-245 | a gradient walk from a random start on three or more leaves returns two non-empty sides covering L |
| Build.Build2.AhoBlock | src/bmgedit/Build.py:170-178 | the subtree built on a block's restricted triples has exactly the block's leaves; it always exists with allowed inconsistency; in strict mode it displays every restricted triple, exists when the triples are consistent, and `total_cost` is unchanged |
| Build.Build2.MttSplit | src/bmgedit/Build.py:190-196 | a split is a partition of L into two or more blocks; in strict mode it is admissible, and none is returned only when no admissible partition has two blocks, which consistent triples rule out; with allowed inconsistency there is always a split |
| Build.Build2.MttBlock | src/bmgedit/Build.py:200-209 | as `AhoBlock`, with the block's forbidden triples, none of which a strict subtree displays |
| Build.Build2.OneRun | src/bmgedit/Build.py:233-245 | one greedy run returns a two-sided split of L with its cost; one gradient walk ends in a split that no allowed move improves |
| Build.FirstLeastSnoc | src/bmgedit/Build.py:236-237 | the `cost < best_cost` update keeps the first run of least cost: a strictly cheaper run takes over, an equal or dearer one does not |
| Build.SmallCase | src/bmgedit/Build.py:137-148 | on at most two leaves distinct triples cannot exist, and the trivial case returns a tree iff the triples are consistent |
| Build.FinestFewer | src/bmgedit/Build.py:190-194 | if the finest admissible partition has fewer than two blocks, so does every admissible partition, so `False` means no tree exists |
| Consistency.AhoCompleteness | src/bmgedit/Build.py:158-164 | on two or more leaves, consistent triples give an Aho graph with at least two components, so strict BUILD fails only on inconsistent triples |
| Consistency.MttCompleteness | src/bmgedit/Build.py:190-194 | on two or more leaves, the finest admissible partition of consistent triples has at least two blocks |
| Consistency.ConsistentSplit | src/bmgedit/Build.py:190-194 | consistent triples on two or more leaves have an admissible partition with two or more blocks |
| Consistency.TreeConsistent | src/bmgedit/Build.py:119-134 | a phylogenetic tree displaying all of R and none of F makes them consistent, so a strict result is a certificate |
| Consistency.CompatibleConsistent | src/bmgedit/Build.py:119-134 | a tree witnessing compatibility gives a hierarchy witnessing consistency |
| Consistency.RestrictConsistent | src/bmgedit/Build.py:170-174 | consistency survives the restriction to a block, so each recursive call inherits it |
| Consistency.ConsistentNonEmpty | src/bmgedit/Build.py:137-141 | consistency needs a non-empty leaf set |
| Consistency.SeparatedDisplays | src/bmgedit/Build.py:190-194 | a triple whose a and b share a maximal cluster that misses c is displayed by the hierarchy |
| Build.TriplesNeedThree | src/bmgedit/Build.py:155-156 | distinct triples over L force at least three leaves |
| Build.TwoBlocks | src/bmgedit/Build.py:166 | a two-sided split of L is a partition of L into two blocks |
| Build.PartSmaller | src/bmgedit/Build.py:174 | with two or more blocks every block is smaller than L (the recursion terminates) |
| Build.ManyComponentsDisconnected | src/bmgedit/Build.py:160-162 | two or more components mean the Aho graph is not connected |
| Build.OneComponentConnected | src/bmgedit/Build.py:160-162 | fewer than two components of a non-empty graph mean it is connected |
| Build.RestrictionCovers | src/bmgedit/Build.py:158-159 | the restricted triples keep their weights |
| Build.FlattenPartition | src/bmgedit/Build.py:169-178 | the blocks of a partition of L cover exactly L |
| Build.ChildStep | src/bmgedit/Build.py:169-178 | each new child extends a forest whose leaves are the blocks done so far |
| Build.DisplayStep | src/bmgedit/Build.py:169-178 | BUILD's display argument: each triple of R is split by the node or displayed by the child of its block |
| Build.ForbiddenStep | src/bmgedit/Build.py:199-209 | MTT's exclusion argument: no forbidden triple is split by the node or displayed by a child |
| GreedyBipartition.CountRow | src/bmgedit/partitioning/GreedyBipartition.py:19-21 | the inner loop counts the joined pairs (x, y) with y in Vj |
| GreedyBipartition.CountEdgePairs | src/bmgedit/partitioning/GreedyBipartition.py:19-21 | the loops over `product(Vi, Vj)` count exactly the joined pairs |
| GreedyBipartition.PartitionCutValue | src/bmgedit/partitioning/GreedyBipartition.py:14-23 | the cut value is the number of joined pairs (x ∈ Vi, y ∈ Vj) over parts i < j |
| GreedyBipartition.BipartitionCut | src/bmgedit/partitioning/GreedyBipartition.py:14-23 | for two parts the cut value is the number of joined cross pairs |
| GreedyBipartition.CutValueSymmetric | src/bmgedit/partitioning/GreedyBipartition.py:14-23 | the cut value of [A, B] equals that of [B, A] (the graph is undirected) |
| GreedyBipartition.Move | src/bmgedit/partitioning/GreedyBipartition.py:26-29 | `_move` takes x out of the first set and into the second; the union is unchanged |
| GreedyBipartition.MoveBack | src/bmgedit/partitioning/GreedyBipartition.py:47-54 | moving x back restores both sets |
| GreedyBipartition.MoveKeepsBipartition | src/bmgedit/partitioning/GreedyBipartition.py:26-29 | a move keeps a bipartition of V and shifts one element between the sizes |
| GreedyBipartition.GreedyTrials | src/bmgedit/partitioning/GreedyBipartition.py:45-54 | the trial loop finds the least trial cost and every candidate reaching it; the sides come back unchanged |
| GreedyBipartition.GreedyAdvance | src/bmgedit/partitioning/GreedyBipartition.py:45-58 | one outer step moves a cheapest candidate from V2 to V1: \|V1\| grows by one, \|V2\| shrinks by one |
| GreedyBipartition.RecordStep | src/bmgedit/partitioning/GreedyBipartition.py:60-64 | the recorded list holds exactly the steps of least cost so far |
| GreedyBipartition.TraceExtend | src/bmgedit/partitioning/GreedyBipartition.py:43-58 | a greedy step from the last recorded bipartition extends the trace |
| GreedyBipartition.BestIsLeast | src/bmgedit/partitioning/GreedyBipartition.py:66 | a pick from the recorded list is a recorded step of least cost, with that cost |
| GreedyBipartition.GreedyBipartitionRun | src/bmgedit/partitioning/GreedyBipartition.py:32-66 | ValueError iff \|V\| < 2; otherwise \|V\|-1 greedy steps, after step k \|V1\| = k; the result is a recorded step of least cost, two non-empty sides covering V |
| GreedyBipartition.ListOf | src/bmgedit/partitioning/GreedyBipartition.py:82-83 | `list(V)` lists every element of V once |
| GreedyBipartition.RandomStart | src/bmgedit/partitioning/GreedyBipartition.py:85-90 | the k-th permuted element goes to side 0 iff k <= len(V)/2, and the lookup records each side |
| GreedyBipartition.SideZeroCountClosed | src/bmgedit/partitioning/GreedyBipartition.py:88 | the first n/2 + 1 positions go to side 0, none after |
| GreedyBipartition.RandomStartSides | src/bmgedit/partitioning/GreedyBipartition.py:85-90 | a random start puts \|V\|/2 + 1 elements on side 0, so side 1 is empty exactly when \|V\| = 2 |
| GreedyBipartition.WalkTrials | src/bmgedit/partitioning/GreedyBipartition.py:104-120 | elements alone on their side are skipped; the least trial cost and all elements reaching it are found; the sides come back unchanged |
| GreedyBipartition.TrialMove | src/bmgedit/partitioning/GreedyBipartition.py:106-120 | one trial costs [old side minus x, other side plus x] and restores both sides |
| GreedyBipartition.DecreasingSnoc | src/bmgedit/partitioning/GreedyBipartition.py:122-130 | appending a smaller cost keeps the cost sequence strictly decreasing |
| GreedyBipartition.AcceptMove | src/bmgedit/partitioning/GreedyBipartition.py:123-127 | the accepted move switches x's side and its lookup entry, and keeps both sides non-empty |
| GreedyBipartition.StartWalk | src/bmgedit/partitioning/GreedyBipartition.py:85-97 | a random start when no initial bipartition is given, the given one when it has two parts, a ValueError otherwise |
| GreedyBipartition.Descend | src/bmgedit/partitioning/GreedyBipartition.py:99-132 | the descent loop ends in a bipartition of V that no allowed move improves, through strictly decreasing costs starting from the cost of the start, and never empties a non-empty side |
| GreedyBipartition.GradientWalkBipartition | src/bmgedit/partitioning/GreedyBipartition.py:73-134 | ValueError iff \|V\| < 2 or the initial list has a length other than 0 or 2; the result is a bipartition of V that no allowed move improves, reached through strictly decreasing costs; sides non-empty at the start stay non-empty |
| NumberPartition.LeafOf | src/bmgedit/partitioning/NumberPartition.py:38-42 | an item is pushed as a childless node of priority −weight, where an int weighs itself and any other item its length |
| NumberPartition.Heaviest | src/bmgedit/partitioning/NumberPartition.py:38-42 | the largest item weight bounds every item's weight |
| NumberPartition.CombineMeasures | src/bmgedit/partitioning/NumberPartition.py:47-48 | making y a child of x subtracts y's signed weight, swaps y's layers, and keeps all values of both trees |
| NumberPartition.LeafMeasures | src/bmgedit/partitioning/NumberPartition.py:38-42 | a pushed leaf is balanced and holds exactly its item, on the root's side |
| NumberPartition.PushLeaf | src/bmgedit/partitioning/NumberPartition.py:38-42 | pushing an item's leaf adds exactly that item to the heap's values |
| NumberPartition.RemoveAt | src/bmgedit/partitioning/NumberPartition.py:45-46 | removing a node removes exactly its tree's values from the heap's |
| NumberPartition.PopHeaviest | src/bmgedit/partitioning/NumberPartition.py:19-31 | `heappop` under priority-only comparison returns a node of least priority (greatest weight) and the heap shrinks by one, keeping all other values |
| NumberPartition.CombineStep | src/bmgedit/partitioning/NumberPartition.py:44-49 | one differencing step keeps the heap's values, keeps every node balanced, and the new node's weight w(x) − w(y) is ≥ 0 |
| NumberPartition.PushItems | src/bmgedit/partitioning/NumberPartition.py:38-42 | the heap holds one balanced leaf per item and exactly the items' values |
| NumberPartition.Difference | src/bmgedit/partitioning/NumberPartition.py:44-51 | the loop ends with a single balanced root holding every item exactly once; on two or more items its weight is ≥ 0, and for non-negative items it is at most the heaviest item |
| NumberPartition.ColourStep | src/bmgedit/partitioning/NumberPartition.py:57-62 | popping a stack entry gives its value to the side of its colour and pushes its children with the other colour, keeping the colouring invariant and shrinking what is pending |
| NumberPartition.LayerSplit | src/bmgedit/partitioning/NumberPartition.py:57-62 | a node's own side gets its value and its children's far layers; the other side its children's near layers |
| NumberPartition.TaggedMeasures | src/bmgedit/partitioning/NumberPartition.py:61-62 | pushing the children with colour c adds their layers and signed weights to what the stack owes |
| NumberPartition.PushChildren | src/bmgedit/partitioning/NumberPartition.py:61-62 | the children are pushed in order, each with the flipped colour |
| NumberPartition.TwoColour | src/bmgedit/partitioning/NumberPartition.py:53-64 | side 0 gets the even layers and side 1 the odd layers of the tree, and the side sums differ by the root's weight |
| NumberPartition.KarmarkarKarp | src/bmgedit/partitioning/NumberPartition.py:34-64 | every item appears exactly once across the two sides; the side-0 sum minus the side-1 sum equals the root weight, which on two or more items is ≥ 0 and for non-negative items is at most the heaviest item |
| NumberPartition.FlatLength | src/bmgedit/partitioning/NumberPartition.py:42 | a list item weighs its length, so a side's weight is its number of elements |
| NumberPartition.FlatPermutation | src/bmgedit/partitioning/NumberPartition.py:69-70 | rearranging whole parts rearranges their elements |
| NumberPartition.FlatGroups | src/bmgedit/partitioning/NumberPartition.py:69 | chaining the parts gives their concatenation |
| NumberPartition.HeaviestGroup | src/bmgedit/partitioning/NumberPartition.py:42 | the heaviest part is the longest part |
| NumberPartition.BalancedCoarseGraining | src/bmgedit/partitioning/NumberPartition.py:67-70 | the two lists together are a permutation of the concatenated parts; side 0 is at least as long as side 1 and longer by at most the longest part |
| WeightedGraphs.UPair | src/bmgedit/partitioning/Louvain.py:118-122 | an undirected edge is keyed by its two ends with the smaller first, whichever order they are given in |
| WeightedGraphs.CheckInput | src/bmgedit/partitioning/Louvain.py:50-51 | anything but an undirected graph is refused with `TypeError`, and an undirected graph is passed on unchanged |
| WeightedGraphs.TotalOfBump | src/bmgedit/partitioning/Louvain.py:118-119 | adding to the weight of an edge already present raises the total weight by exactly that amount |
| WeightedGraphs.AddEdgeTotal | src/bmgedit/partitioning/Louvain.py:120-122 | adding a new edge with weight w raises the total weight by w |
| WeightedGraphs.Owner | src/bmgedit/partitioning/Louvain.py:104-112 | `old_to_new` sends a node to the last part that lists it, and a node no part lists has no entry |
| WeightedGraphs.OwnerSnoc | src/bmgedit/partitioning/Louvain.py:104-112 | one more part takes over exactly its own nodes and leaves the others where they were |
| WeightedGraphs.OwnerExtend | src/bmgedit/partitioning/Louvain.py:107-112 | listing one more node of the current part moves that node, and only it, to the current part |
| WeightedGraphs.ContractPart | src/bmgedit/partitioning/Louvain.py:105-112 | building a supernode gathers the original members of the old nodes of its part, and afterwards `old_to_new` sends exactly the nodes listed so far to their last part |
| WeightedGraphs.ContributionTotal | src/bmgedit/partitioning/Louvain_new.py:87-99 | contracting keeps the total weight, and with loops counted twice adds the weight of the edges inside a part once more |
| WeightedGraphs.HitExists | src/bmgedit/partitioning/Louvain.py:114-122 | a supernode pair has an edge exactly when some old edge lands on it |
| WeightedGraphs.AccumulateFacts | src/bmgedit/partitioning/Louvain.py:118-122 | adding weight d to a supernode pair, whether its edge is new or not, changes that pair's weight by d and no other, and raises the total by d |
| WeightedGraphs.ImageStep | src/bmgedit/partitioning/Louvain.py:114-122 | one more old edge adds its contribution to exactly the supernode pair it lands on |
| WeightedGraphs.AddImage | src/bmgedit/partitioning/Louvain_new.py:87-99 | processing an old edge keeps the contraction invariant one edge further |
| WeightedGraphs.InvStep | src/bmgedit/partitioning/Louvain_new.py:87-99 | a graph that differs exactly by one old edge's contribution carries the contraction invariant one edge further |
| WeightedGraphs.Contract | src/bmgedit/partitioning/Louvain_new.py:70-101 | one supernode per part holding the flattened original members; an edge between two supernodes iff some old edge lands there, weighted by the summed contributions; the total grows only by the twice-counted inner edges |
| Communities.Range | src/bmgedit/partitioning/Louvain.py:176 | the node list is 0, 1, ..., n-1 in order |
| Communities.InitialState | src/bmgedit/partitioning/Louvain.py:176-178 | the initial order is a permutation of the nodes and the singleton communities agree with the identity labelling |
| Communities.ComTotals | src/bmgedit/partitioning/Louvain.py:181 | there is a community total for every community label and no other |
| Communities.ComSumRange | src/bmgedit/partitioning/Louvain.py:192-197 | under the initial labelling each community's total is the degree of its one node |
| Communities.ComSumDrop | src/bmgedit/partitioning/Louvain.py:221 | taking a node out removes exactly its degree from its own community's total and changes no other total |
| Communities.ComSumMove | src/bmgedit/partitioning/Louvain.py:251 | putting the node into community b adds its degree to b's total only |
| Communities.TouchesAt | src/bmgedit/partitioning/Louvain.py:278-283 | the community of every neighbour other than x itself gets an entry in the weight sums |
| Communities.TouchedBy | src/bmgedit/partitioning/Louvain.py:278-283 | every community with an entry is the community of some neighbour other than x |
| Communities.UntouchedWeight | src/bmgedit/partitioning/Louvain.py:276-285 | a community without a neighbour of x receives no weight from x |
| Communities.MoveToShape | src/bmgedit/partitioning/Louvain.py:250-257 | after a move, x belongs to b only, the other members stay where they were, and x's old community disappears exactly when x was its last member and left |
| Communities.MoveKeepsCommunities | src/bmgedit/partitioning/Louvain.py:250-257 | a move keeps the communities consistent with the labels, and the set of community ids loses x's old community exactly when x left it empty |
| Communities.MovedMember | src/bmgedit/partitioning/Louvain.py:250-252 | every member of a community after a move carries that community's label |
| Communities.StayKeeps | src/bmgedit/partitioning/Louvain.py:223-231 | when the tie rule keeps x in its own community, neither the communities nor the labels change |
| Communities.RangeSet | src/bmgedit/partitioning/Louvain.py:176 | the set of nodes 0..n-1 holds exactly those n nodes |
| Communities.SingletonCount | src/bmgedit/partitioning/Louvain.py:177-178 | the initial communities number exactly as many as the nodes |
| Communities.FewerKeys | src/bmgedit/partitioning/Louvain.py:256-257 | deleting emptied communities never increases their number |
| Partitions.Listing | src/bmgedit/partitioning/Louvain.py:78 | the listing of a set below a bound contains exactly the members below that bound |
| Partitions.Sets | src/bmgedit/partitioning/Louvain.py:268 | each member list becomes a set with exactly the same elements, one per part |
| Partitions.Parts | src/bmgedit/partitioning/Louvain.py:78 | `list(communities.values())` gives one part per community, in key order, each listing that community's supernodes |
| Partitions.FlattenAll | src/bmgedit/partitioning/Louvain.py:268 | each part is replaced by the original nodes of its supernodes |
| Partitions.Units | src/bmgedit/partitioning/Louvain.py:62 | the first partition puts every original node alone in its own part |
| Partitions.UnitsPartition | src/bmgedit/partitioning/Louvain.py:62 | the singleton parts cover the nodes, lie in range and form a partition of the original nodes |
| Partitions.FlattenUnits | src/bmgedit/partitioning/Louvain.py:62-68 | flattening a part over the singleton member lists gives back the same part |
| Partitions.PartsPartition | src/bmgedit/partitioning/Louvain.py:78 | the communities passed on form a partition of the supernodes |
| Partitions.PartsInRange | src/bmgedit/partitioning/Louvain.py:78 | the parts name only supernodes of the level |
| Partitions.ListingSorted | src/bmgedit/partitioning/Louvain.py:78 | listings are strictly increasing and so repeat no entry |
| Partitions.ListingSize | src/bmgedit/partitioning/Louvain.py:78 | a listing has as many entries as the set has members below the bound |
| Partitions.KeyCount | src/bmgedit/partitioning/Louvain.py:78 | there are as many parts as communities |
| Partitions.FlattenMembers | src/bmgedit/partitioning/Louvain.py:268 | an original node is in a flattened part iff it belongs to one of that part's supernodes |
| Partitions.PartsOfCommunities | src/bmgedit/partitioning/Louvain.py:78 | the parts list every supernode once, none of them is empty, and each supernode lies in the part of its own community |
| Partitions.OnePart | src/bmgedit/partitioning/Louvain.py:264-269 | an original node lies in only one flattened part |
| Partitions.NextSupernodes | src/bmgedit/partitioning/Louvain.py:78-84 | contracting the communities turns one partition of the original nodes into the next one |
| Modularity.Degrees | src/bmgedit/partitioning/Louvain_new.py:306-312 | each node's degree is the summed weight of its edges, with a self-loop counted twice |
| Modularity.WeightedDegrees | src/bmgedit/partitioning/Louvain_new.py:306-312 | the edge loop computes exactly those degrees |
| Modularity.NodeToPart | src/bmgedit/partitioning/Louvain_new.py:318-324 | a listed node maps to the index of the last part listing it, and an unlisted node has no entry |
| Modularity.SumPairs | src/bmgedit/partitioning/Louvain_new.py:326-335 | the double loop over node pairs gives the modularity Q, with `KeyError` for a node without a part and `ZeroDivisionError` when the total weight is 0 |
| Modularity.Modularity | src/bmgedit/partitioning/Louvain_new.py:304-335 | `modularity(G, partition)`, given either a dictionary or a list of parts, is that outcome for the resulting part ids |
| Modularity.SameGroupingRow | src/bmgedit/partitioning/Louvain_new.py:327-333 | two labellings that put the same nodes together give equal row sums |
| Modularity.SameGroupingSum | src/bmgedit/partitioning/Louvain_new.py:327-333 | two labellings that group the nodes alike give equal pair sums |
| Modularity.SameGrouping | src/bmgedit/partitioning/Louvain_new.py:326-335 | Q depends only on which nodes share a part, not on the part ids or on the order of the parts |
| Modularity.OutcomeSameIds | src/bmgedit/partitioning/Louvain_new.py:318-335 | the outcome depends only on the part ids the nodes receive |
| Louvain.NextLevelGraph | src/bmgedit/partitioning/Louvain.py:97-124 | supernode j holds the original nodes of part j; an edge between supernodes iff some old edge lands there, carrying their summed weight; the total weight is kept |
| Louvain.InitialLevelState | src/bmgedit/partitioning/Louvain.py:174-197 | the state built by `_initialize` satisfies the level invariant, with nothing moved and every node alone |
| Louvain.VisitState | src/bmgedit/partitioning/Louvain.py:213-257 | a visit that ends in community b keeps the invariant, and afterwards the level has moved a node iff there are fewer communities than nodes |
| Louvain.MovePartState | src/bmgedit/partitioning/Louvain.py:219-252 | moving x and shifting its degree between the two community totals keeps the partition invariant |
| Louvain.Level.constructor | src/bmgedit/partitioning/Louvain.py:165-171 | a new level is valid; it moved a node iff it has fewer communities than nodes; an edgeless level keeps the singletons |
| Louvain.Level.Initialize | src/bmgedit/partitioning/Louvain.py:174-197 | every node starts alone in its own community, `k` holds the degrees, `com_tot` equals `k`, `m` is the total weight, and nothing has moved yet |
| Louvain.Level.Degrees | src/bmgedit/partitioning/Louvain.py:192-197 | the edge loop gives every node its degree and every community its node's degree |
| Louvain.Level.WeightSumsToCommunities | src/bmgedit/partitioning/Louvain.py:272-285 | an entry for x's own community and for exactly the communities of x's other neighbours, each holding the weight of x's edges into it, with self-loops skipped |
| Louvain.Level.BestCommunity | src/bmgedit/partitioning/Louvain.py:227-248 | the chosen community is x's own or a neighbour's; it leaves x's own only for a strictly greater gain, and no neighbour's community offers more |
| Louvain.Level.Visit | src/bmgedit/partitioning/Louvain.py:211-257 | only x's label changes; x moves only to a neighbour's community with strictly greater gain, which no neighbour's community beats; the running gain grows by the gain difference |
| Louvain.Level.Settle | src/bmgedit/partitioning/Louvain.py:250-257 | x is relabelled b, the communities and totals are updated by the move, the moved flag and the running gain are updated, and nothing else changes |
| Louvain.Level.Sweep | src/bmgedit/partitioning/Louvain.py:208-261 | a sweep keeps the invariant, and a sweep that moves nothing leaves the labels unchanged and reaches a local optimum |
| Louvain.Level.Cluster | src/bmgedit/partitioning/Louvain.py:200-261 | the level moved a node iff it ends with fewer communities than nodes; an edgeless graph keeps the singletons; a converged run ends in a local optimum |
| Louvain.Level.GetPartition | src/bmgedit/partitioning/Louvain.py:264-269 | one set per community, in key order, holding exactly the original nodes of that community's supernodes |
| Louvain.PartitionMembers | src/bmgedit/partitioning/Louvain.py:264-269 | block j of a level's partition holds exactly the original nodes of the supernodes in the j-th community |
| Louvain.LevelStep | src/bmgedit/partitioning/Louvain.py:70-84 | a level that moved yields a smaller next graph whose supernodes again partition the original nodes, the recorded partition of those nodes, and the modularity of its communities |
| Louvain.FirstLevelGraph | src/bmgedit/partitioning/Louvain.py:62-68 | the first-level graph has the original nodes as singleton supernodes and the same total weight |
| Louvain.Run | src/bmgedit/partitioning/Louvain.py:32-94 | `TypeError` iff the input is not an undirected graph, and `ZeroDivisionError` iff it is one of total weight 0 (networkx `modularity` divides by twice that weight at src/bmgedit/partitioning/Louvain.py:63-65); otherwise every level's graph keeps the input's total weight, so no later `modularity` call divides by 0, partition 0 is the singletons, each later partition is a partition of the nodes with fewer blocks than the one before, and there is one recorded modularity per partition: that of the singletons on the input, then that of each level's communities on its graph; the levels behind them (`Ran`) start on the input with singleton supernodes, each but the last merged communities whose contraction the next ran on, and the last moved nothing |
| Louvain.Level.OptimumOfGraph | src/bmgedit/partitioning/Louvain.py:227-248 | when no node gains by moving to a neighbour's community under the level's stored degrees and totals, that holds for the degrees and total weight of the graph itself |
| Louvain.Ascend | src/bmgedit/partitioning/Louvain.py:77-84 | after a level that merged communities, the next graph is their contraction and has fewer nodes; its supernodes partition the original nodes; the partition recorded is their member sets and the modularity recorded is that of the communities on the level's graph; the next graph keeps the level's total weight |
| Louvain.ClimbingSnoc | src/bmgedit/partitioning/Louvain.py:77-84 | a level that merged communities extends the loop invariant of `_run` to the level on their contraction |
| Louvain.RanEnd | src/bmgedit/partitioning/Louvain.py:72-75 | a level that moved nothing ends the loop: the levels so far and it are the whole run |
| Louvain.CoarseningSnoc | src/bmgedit/partitioning/Louvain.py:81 | a partition with fewer blocks than the last extends the coarsening sequence |
| LouvainNew.InsertThenRemove | src/bmgedit/partitioning/Louvain_new.py:168-179 | `remove` undoes `insert` for a node that was not a member |
| LouvainNew.RemoveThenInsert | src/bmgedit/partitioning/Louvain_new.py:168-179 | `insert` undoes `remove` for a member |
| LouvainNew.Community.constructor | src/bmgedit/partitioning/Louvain_new.py:138-146 | a new community holds just its initial node, with `_in` and `_tot` both 0 |
| LouvainNew.Community.Insert | src/bmgedit/partitioning/Louvain_new.py:168-172 | x joins; `_in` grows by twice x's links into the community plus its loops; `_tot` grows by x's degree |
| LouvainNew.Community.Remove | src/bmgedit/partitioning/Louvain_new.py:175-179 | x leaves; `_in` and `_tot` shrink by what `insert` added |
| LouvainNew.BlondelIsGain | src/bmgedit/partitioning/Louvain_new.py:293-301 | the full gain formula of Blondel et al. equals the simplified gain of `Louvain.py`, because the `_in` terms cancel |
| LouvainNew.BlondelExpand | src/bmgedit/partitioning/Louvain_new.py:295-299 | the `_in` terms cancel and the square of the sum expands |
| LouvainNew.LoopTotal | src/bmgedit/partitioning/Louvain_new.py:216-218 | since a self-loop is listed once, the loop sum is twice its weight |
| LouvainNew.WeightToMove | src/bmgedit/partitioning/Louvain_new.py:277-290 | relabelling x changes another node's weight into a community only by that node's own link to x |
| LouvainNew.InSumMovePrefix | src/bmgedit/partitioning/Louvain_new.py:168-179 | the prefix form of the `_in` change under a move |
| LouvainNew.InSumMove | src/bmgedit/partitioning/Louvain_new.py:168-179 | a move takes x's loops plus twice its links into the old community out of that community's `_in` and adds them to b's, as `remove` and `insert` do |
| LouvainNew.AloneWeight | src/bmgedit/partitioning/Louvain_new.py:205-208 | under the initial communities no other node shares x's community |
| LouvainNew.InSumRange | src/bmgedit/partitioning/Louvain_new.py:210-219 | under the initial communities, community C's `_in` is the loop weight of C's node |
| LouvainNew.NodesOf | src/bmgedit/partitioning/Louvain_new.py:43 | the members of each community, keyed like the communities |
| LouvainNew.MovedNodes | src/bmgedit/partitioning/Louvain_new.py:242-270 | on the member sets, a visit is the same move as in `Louvain.py` |
| LouvainNew.MovedRecord | src/bmgedit/partitioning/Louvain_new.py:242-270 | a visit changes `_tot` and `_in` of exactly the old and the new community, by the amounts `remove` and `insert` give |
| LouvainNew.MoveBookkept | src/bmgedit/partitioning/Louvain_new.py:242-270 | a visit keeps every community's `_tot` and `_in` equal to the sums over its members |
| LouvainNew.MovedSums | src/bmgedit/partitioning/Louvain_new.py:242-265 | after a visit each community's sums are those its new members give |
| LouvainNew.InitialBookkept | src/bmgedit/partitioning/Louvain_new.py:205-219 | `__init__` leaves node C alone in community C, with its loops as `_in` and its degree as `_tot` |
| LouvainNew.InitialInvariant | src/bmgedit/partitioning/Louvain_new.py:184-219 | the state `__init__` builds satisfies the level invariant, with nothing moved |
| LouvainNew.VisitKeeps | src/bmgedit/partitioning/Louvain_new.py:233-270 | a visit that puts x into community b keeps the level invariant |
| LouvainNew.ReorderKeeps | src/bmgedit/partitioning/Louvain_new.py:228 | shuffling the node order keeps the level invariant |
| LouvainNew.MovedCount | src/bmgedit/partitioning/Louvain_new.py:258-270 | a level moved a node iff it has fewer communities than nodes, and one that moved nothing keeps every node alone |
| LouvainNew.SettledBefore | src/bmgedit/partitioning/Louvain_new.py:230-274 | every node visited earlier in a sweep without moves stays settled |
| LouvainNew.SettledAll | src/bmgedit/partitioning/Louvain_new.py:230-274 | a sweep without moves over all the nodes leaves a labelling that no single move improves |
| LouvainNew.Level.constructor | src/bmgedit/partitioning/Louvain_new.py:184-219 | a new level is valid and has fresh communities, nothing moved, zero gain, and the nodes in order |
| LouvainNew.Level.NewCommunities | src/bmgedit/partitioning/Louvain_new.py:205-208 | one fresh, distinct community per node, each holding just that node |
| LouvainNew.Level.AddEdge | src/bmgedit/partitioning/Louvain_new.py:210-219 | one edge adds its weight to the degrees and community totals of both ends, and a self-loop adds twice its weight to the loops and `_in` |
| LouvainNew.Level.Setup | src/bmgedit/partitioning/Louvain_new.py:184-219 | the body of `__init__` gives every node its degree and loop sum, every community its node's loops and degree, and `m` the total weight |
| LouvainNew.Level.BestCommunity | src/bmgedit/partitioning/Louvain_new.py:246-262 | the chosen community is x's own or a neighbour's; it differs from x's own iff its gain is strictly greater; no neighbour's community offers more |
| LouvainNew.Level.Visit | src/bmgedit/partitioning/Louvain_new.py:233-270 | only x's label changes; x moves only to a neighbour's community with strictly greater gain, which no neighbour's community beats; the running gain grows by the gain difference |
| LouvainNew.Level.SweepStep | src/bmgedit/partitioning/Louvain_new.py:233-270 | while nothing has moved, the labels stay fixed and every node visited so far is settled |
| LouvainNew.Level.Sweep | src/bmgedit/partitioning/Louvain_new.py:230-274 | a sweep without moves leaves the labels unchanged and reaches a local optimum |
| LouvainNew.Level.Cluster | src/bmgedit/partitioning/Louvain_new.py:222-274 | `ZeroDivisionError` iff there are edges of total weight 0; an edgeless graph moves nothing; moved iff fewer communities than nodes; a converged run ends in a local optimum |
| LouvainNew.Level.Shuffle | src/bmgedit/partitioning/Louvain_new.py:228 | the nodes are visited in some permutation of 0..n-1 |
| LouvainNew.Level.AnyOrder | src/bmgedit/partitioning/Louvain_new.py:228 | the order returned is a permutation of 0..n-1 |
| LouvainNew.Level.CommunityNodes | src/bmgedit/partitioning/Louvain_new.py:43 | the members of every community, taken from the community records |
| LouvainNew.Level.Outcomes | src/bmgedit/partitioning/Louvain_new.py:43-59 | the level's communities agree with its labels; it moved a node iff there are fewer of them than nodes; otherwise they are the singletons |
| LouvainNew.Level.CountCommunities | src/bmgedit/partitioning/Louvain_new.py:258-270 | the number of communities tells whether a node moved |
| LouvainNew.Level.Choose | src/bmgedit/partitioning/Louvain_new.py:235-262 | x is taken out of its community, and the community of largest gain is found, as in `BestCommunity` |
| LouvainNew.Level.Detach | src/bmgedit/partitioning/Louvain_new.py:239-246 | x is removed from its community, every community total excludes x, and the removal cost is the gain of putting x back |
| LouvainNew.Level.TakeOut | src/bmgedit/partitioning/Louvain_new.py:242 | `remove` changes only x's community record, exactly as `Removed` says |
| LouvainNew.Level.Attach | src/bmgedit/partitioning/Louvain_new.py:264-270 | x is inserted into b and relabelled; the old community is dropped iff it is now empty; the flag and the gain are updated |
| LouvainNew.Level.Settle | src/bmgedit/partitioning/Louvain_new.py:265-270 | x is relabelled b, the flag and gain are updated, and the old community is dropped iff it is empty |
| LouvainNew.CoveredOutcome | src/bmgedit/partitioning/Louvain_new.py:304-335 | on parts that cover the nodes, `modularity` fails exactly when the total weight is 0, and with `ZeroDivisionError` |
| LouvainNew.UnitsNoInner | src/bmgedit/partitioning/Louvain_new.py:63-67 | with every node alone in its part, no edge joins two distinct nodes of one part |
| LouvainNew.CommunityParts | src/bmgedit/partitioning/Louvain_new.py:43-50 | a level's communities, listed as parts, cover and partition its nodes, one part per community, and their original nodes again partition the original nodes |
| LouvainNew.ClusterLevel | src/bmgedit/partitioning/Louvain_new.py:39-43 | a clustered level fails iff its edges weigh 0 in total; otherwise it gives communities that agree with its labels, and it moved iff there are fewer communities than nodes |
| LouvainNew.NextLevelGraph | src/bmgedit/partitioning/Louvain_new.py:70-101 | supernode j holds the original nodes of part j, and the total weight grows by the weight of the edges joining distinct nodes of one part |
| LouvainNew.LevelStep | src/bmgedit/partitioning/Louvain_new.py:37-60 | `ZeroDivisionError` iff the level's total weight is 0; otherwise the next supernodes again partition the original nodes, and the level moved iff it found fewer communities than nodes |
| LouvainNew.LevelsZero | src/bmgedit/partitioning/Louvain_new.py:26-31 | level 0 alone is a valid record |
| LouvainNew.RecordedSnoc | src/bmgedit/partitioning/Louvain_new.py:51-52 | a level already recorded stays recorded once another level is appended |
| LouvainNew.RecordedLast | src/bmgedit/partitioning/Louvain_new.py:43-52 | the level appended after a level is the one found on it, with its members and modularity |
| LouvainNew.GrewSnoc | src/bmgedit/partitioning/Louvain_new.py:51-52 | appending a level keeps the earlier levels and modularities, and a level smaller than the last keeps the run shrinking |
| LouvainNew.LevelsSnoc | src/bmgedit/partitioning/Louvain_new.py:50-52 | appending a level found on the last one keeps the record |
| LouvainNew.LevelAt | src/bmgedit/partitioning/Louvain_new.py:37-60 | each recorded level is well formed and its supernodes partition the original nodes; for each level but the last, the communities recorded for it label its nodes, are locally optimal when its sweeps came to rest, contract (merged nodes' edges counted twice) to the next level, whose supernodes hold their members' original nodes, and their modularity on it is the next recorded value |
| LouvainNew.ShrinkingPairs | src/bmgedit/partitioning/Louvain_new.py:37-60 | in a shrinking run every level is smaller than each level before it |
| LouvainNew.ShrinkingSnoc | src/bmgedit/partitioning/Louvain_new.py:51 | a level smaller than the last extends a shrinking run |
| LouvainNew.LevelZeroOf | src/bmgedit/partitioning/Louvain_new.py:26-31 | level 0 keeps the input's weights on singleton supernodes, and its modularity fails iff the total weight is 0 |
| LouvainNew.Advance | src/bmgedit/partitioning/Louvain_new.py:37-52 | one iteration of `run` extends the record, and the new level is smaller iff the last one moved a node |
| LouvainNew.Louvain.Create | src/bmgedit/partitioning/Louvain_new.py:18-31 | `TypeError` for anything but an undirected graph, `ZeroDivisionError` when its total weight is 0, and otherwise an object holding level 0 only |
| LouvainNew.Louvain.constructor | src/bmgedit/partitioning/Louvain_new.py:23-31 | the object holds level 0 only, with its graph, members and modularity |
| LouvainNew.Louvain.Run | src/bmgedit/partitioning/Louvain_new.py:35-60 | the record stays valid (every level found on the one before it); earlier levels and modularities are kept; the new levels shrink until the last one; on success the last level moved nothing and is as large as the one before; a level of weight 0 stops the run with `ZeroDivisionError` |
| LouvainNew.Louvain.RunStep | src/bmgedit/partitioning/Louvain_new.py:37-56 | one iteration appends exactly one level and its modularity, or nothing on `ZeroDivisionError`; the new level is smaller iff the last level moved a node |
| BMGEditing.ColourCounts | src/bmgedit/BMGEditing.py:107-113 | `KeyError` iff a vertex of the part has no colour; otherwise each colour maps to the number of the part's vertices that have it |
| BMGEditing.ColourSets | src/bmgedit/BMGEditing.py:104-113 | one colour count per part, or `KeyError` iff some part has an uncoloured vertex |
| BMGEditing.Enumeration | src/bmgedit/BMGEditing.py:119-120 | iterating `set(V)` visits each distinct vertex of V exactly once, in some order |
| BMGEditing.EnumerationExists | src/bmgedit/BMGEditing.py:119-120 | every part has such an enumeration |
| BMGEditing.RowCost | src/bmgedit/BMGEditing.py:122-137 | for one x, `KeyError` iff some node has no colour; otherwise the count of unsatisfiable pairs (x, y) of the three kinds |
| BMGEditing.PartCost | src/bmgedit/BMGEditing.py:117-137 | the pair loop over a part's vertices counts its unsatisfiable pairs of the three kinds |
| BMGEditing.UnsatisfiabilityCost | src/bmgedit/BMGEditing.py:83-139 | `KeyError` iff a colour lookup fails; otherwise the number of unsatisfiable arcs and non-arcs over all parts |
| BMGEditing.RowLists | src/bmgedit/BMGEditing.py:187-202 | for one x, the pairs of each kind are appended to U1, U2 and U3 in node order |
| BMGEditing.PartLists | src/bmgedit/BMGEditing.py:182-202 | the pair loop over a part appends the part's pairs of each kind |
| BMGEditing.GetU1U2U3 | src/bmgedit/BMGEditing.py:142-204 | `KeyError` iff a colour lookup fails; otherwise U1, U2 and U3 each hold exactly the unsatisfiable pairs of their kind, as often as the parts produce them |
| BMGEditing.BagSnoc | src/bmgedit/BMGEditing.py:182-202 | each further part adds exactly its own pairs of each kind to the lists |
| BMGEditing.RowMembers | src/bmgedit/BMGEditing.py:187-202 | a pair is in x's row of kind k iff it starts at x, ends at a node, and is of kind k; no pair is repeated |
| BMGEditing.PairsMembers | src/bmgedit/BMGEditing.py:187-202 | a pair is in a part's list of kind k iff it starts in the part and is of kind k; no pair is repeated |
| BMGEditing.DistinctBag | src/bmgedit/BMGEditing.py:187-202 | a list without repetitions holds each member of its set exactly once |
| BMGEditing.PairsAreUnsat | src/bmgedit/BMGEditing.py:182-202 | whatever order `set(V)` takes, the loops find each unsatisfiable pair of each kind exactly once |
| BMGEditing.PartIsUnsat | src/bmgedit/BMGEditing.py:182-202 | this holds for all three kinds at once |
| BMGEditing.CostIsListSizes | src/bmgedit/BMGEditing.py:115-139 | `unsatisfiability_cost` equals the sum of the sizes of the three lists `get_U1_U2_U3` returns |
| BMGEditing.CountPresent | src/bmgedit/BMGEditing.py:132-134 | `colors.get(c)` is truthy iff some vertex of the part has colour c |
| BMGEditing.CountOne | src/bmgedit/BMGEditing.py:136 | a count of 1 for y's colour means y is the only vertex of that colour in the part |
| BMGEditing.UnsatMeaning | src/bmgedit/BMGEditing.py:145-153 | U1 holds the arcs to an outside vertex whose colour differs from x's and occurs in V; U2 the non-arcs to an outside vertex whose colour V lacks; U3 the non-arcs to another vertex of V that is the only one of its colour there |
| BMGEditing.UnsatHas | src/bmgedit/BMGEditing.py:122-137 | a pair has kind k exactly when the branch chain classifies it as k |
| Scenario.GeneIndex | src/bmgedit/best_match_infer/Scenario.py:31 | every gene, and nothing else, has an index, and that index is a position where the gene sits in the list |
| Scenario.GeneIndexPositions | src/bmgedit/best_match_infer/Scenario.py:31 | when the genes are distinct, each gene's index is its own position |
| Scenario.CountEvents | src/bmgedit/best_match_infer/Scenario.py:42-54 | the five counts are the number of species, the numbers of D, L and H events in preorder, and the D events reconciled with the species root |
| Scenario.EventBounds | src/bmgedit/best_match_infer/Scenario.py:44-54 | ancient duplications are a subset of the duplications, and D, L and H together number at most the nodes |
| Scenario.FirstBranching | src/bmgedit/best_match_infer/Scenario.py:62-67 | the preorder search finds the first node with more than one child, and finds none iff no node has more than one child |
| Scenario.FindBranching | src/bmgedit/best_match_infer/Scenario.py:62-67 | the loop over the preorder stops at exactly that node |
| Scenario.SortedTo | src/bmgedit/best_match_infer/Scenario.py:66 | `{item: i}` maps exactly the leaves of one subtree to i |
| Scenario.Index | src/bmgedit/best_match_infer/Scenario.py:64-66 | `subtree_index` has exactly the leaves of all subtrees as keys, and sends each to a subtree whose leaf list contains it |
| Scenario.IndexSnoc | src/bmgedit/best_match_infer/Scenario.py:64-66 | appending a subtree's leaf list extends the index by that subtree's leaves, which override earlier entries |
| Scenario.IndexOfDisjoint | src/bmgedit/best_match_infer/Scenario.py:62-67 | when the subtrees share no leaf, every leaf of subtree i is indexed i |
| Scenario.Subtrees | src/bmgedit/best_match_infer/Scenario.py:64-66 | the loop over the children builds the leaf lists and exactly that index |
| Scenario.OutgroupMembers | src/bmgedit/best_match_infer/Scenario.py:70-74 | a gene is an outgroup of subtree i iff it is a gene whose species lies in another subtree |
| Scenario.OutgroupsAreOutside | src/bmgedit/best_match_infer/Scenario.py:70-74 | with disjoint subtrees, a gene is an outgroup of subtree i iff its species is not a leaf of subtree i |
| Scenario.AddGene | src/bmgedit/best_match_infer/Scenario.py:71-74 | adding one gene appends it to the outgroups of every subtree except its own |
| Scenario.Outgroups | src/bmgedit/best_match_infer/Scenario.py:70-74 | `KeyError` iff there are subtrees and some gene's species has no subtree; otherwise each subtree's list holds exactly the genes from other subtrees, in gene order |
| Scenario.SortSpeciesToSubtrees | src/bmgedit/best_match_infer/Scenario.py:57-74 | `KeyError` iff the root has subtrees and some gene's species lies in none; otherwise the lists, the index and the outgroups are those of the first branching node |
| Scenario.KeptEdges | src/bmgedit/best_match_infer/Scenario.py:100-105 | an edge is kept iff it is an edge of the full graph whose two colours fall into the same subtree |
| Scenario.ReduceGraph | src/bmgedit/best_match_infer/Scenario.py:97-106 | `KeyError` iff some edge's colour has no subtree; otherwise the same nodes and colours with exactly the edges inside one subtree, in their original order |
| Scenario.ReduceToSubtrees | src/bmgedit/best_match_infer/Scenario.py:90-107 | both graphs are reduced that way, or `KeyError` if either fails |
| Scenario.SubtreeCounts | src/bmgedit/best_match_infer/Scenario.py:121-124 | `KeyError` iff some gene's species has no subtree; otherwise count i is the number of genes in subtree i |
| Scenario.PairSum | src/bmgedit/best_match_infer/Scenario.py:126-130 | the sum of count*(count-1) over the counts |
| Scenario.PairingsOfTallies | src/bmgedit/best_match_infer/Scenario.py:126-130 | summing count*(count-1) over the subtree counts gives the number of ordered pairs of distinct genes within one subtree |
| Scenario.MixedNil | src/bmgedit/best_match_infer/Scenario.py:126-130 | no genes pair with no partners |
| Scenario.MixedSnoc | src/bmgedit/best_match_infer/Scenario.py:126-130 | one more gene adds the size of its subtree minus itself to the pair count |
| Scenario.PartnersBySubtree | src/bmgedit/best_match_infer/Scenario.py:126-130 | counting, for each gene, the other genes in its subtree gives the same number as the per-subtree sum |
| Scenario.MixedSelf | src/bmgedit/best_match_infer/Scenario.py:126-130 | over all genes, that sum is the possible-edge count |
| Scenario.PossibleEdgesArePairs | src/bmgedit/best_match_infer/Scenario.py:117-130 | the possible BMG edges are exactly the ordered pairs of distinct genes whose species share a subtree |
| Scenario.Scenario.constructor | src/bmgedit/best_match_infer/Scenario.py:22-39 | the object holds its arguments, and the gene index built from the gene list |
| Scenario.Scenario.Create | src/bmgedit/best_match_infer/Scenario.py:22-39 | `KeyError` iff there are subtrees and some gene's species lies in none, or some edge's colour has no subtree; otherwise the object is valid, the index, the counts and the sorting agree with their definitions, and both graphs are reduced to the subtrees |
| Scenario.Scenario.RatesAndCounts | src/bmgedit/best_match_infer/Scenario.py:84-87 | the three rates followed by the five event counts |
| Scenario.Scenario.PossibleEdgesBmg | src/bmgedit/best_match_infer/Scenario.py:117-130 | `KeyError` iff some gene's species has no subtree; otherwise the number of ordered pairs of distinct genes within one subtree |

## Left out

- Floating point: the Louvain edge weights, gains and modularity values and the Scenario rates are exact reals, so IEEE rounding is not modelled. The triple weights of `Build.py` are integers.
- Build.Build2.Bipartition: the cost function returns a natural number, so a float cost or an infinite one (the `float('inf')` start of `best_cost`) is not modelled as a value a caller can return; the model keeps an explicit "no cost yet" in place of the infinite start.
- Build.Build2.BuildTree: with weighted mincut and explicit triple weights, every triple of R must have a weight (`WeightsCover`); the `KeyError` that `aho_graph` raises at src/bmgedit/Build.py:32 for a missing one is not modelled.
- Build.Build2.BuildTree: the result is `Option<Tree>`; the source returns `PhyloTree(root)` or, with `return_root`, the root node, and on failure `False` (wrapped as `PhyloTree(False)` unless `return_root`). The wrapping and the `return_root` flag are not modelled.
- GreedyBipartition.StartWalk: a given initial partition of length 2 is required to be a bipartition of V; the source uses it without checking, and what it does with a malformed one is not modelled.
- GreedyBipartition.GradientWalkBipartition: the same requirement on a given initial partition.
- Randomness: `random.shuffle`, `random.choice` and `np.random.permutation` are nondeterministic choices (any permutation, any member of the tie set); their distributions are not modelled.
- Iteration over Python sets and dictionaries: where the order matters the model picks one. Ascending key order matches the source exactly only for the community dictionary of `Louvain.py`; neighbours are visited in ascending order where networkx follows edge insertion order, and the communities of `Louvain_new.py`, kept in a Python set, are visited in ascending order too, so ties between equal modularity gains may be broken differently from the source. `BMGEditing.Enumeration` is an arbitrary enumeration, and the `U1`, `U2`, `U3` lists are therefore specified as multisets, not as sequences in a fixed order.
- Node identity: graph nodes are the indices 0..n-1, a supernode is the list of the original indices it holds (`_Supernode` and `Supernode` objects are not modelled as objects), and a Louvain community is named after the node that created it.
- The weight attribute name (`weight=`) is fixed; every edge carries its weight directly, and an edge without one reads as 1.0.
- The edges `_triple_connect` adds without a weight are stored with weight 1, the value the networkx readers in the source default to.
- networkx `connected_components` is a verified stand-in, while `stoer_wagner`, `Karger` and the callers' cost functions are function parameters constrained only by their stated contracts; their bodies are not modelled.
- networkx `modularity`, imported by `Louvain.py`, is a function parameter of `Louvain.Run` and `Louvain.LevelStep` that stands for its value on graphs of non-zero total weight; the `ZeroDivisionError` it raises on weight 0 is modelled in `Louvain.Run`, which checks the input's weight before the first call; the module-level `modularity` of `Louvain_new.py` is modelled in full.
- Louvain.Run: each level's sweep loop is bounded by a `fuel` count of sweeps, so termination of `_cluster` is not proved; a level that runs out of fuel is not claimed to be a local optimum.
- Louvain.Level.Cluster: the same sweep bound applies; `LocalOptimum` is promised only when the last sweep moved nothing.
- LouvainNew.Level.Cluster: the same sweep bound applies.
- LouvainNew.Louvain.Run: the same sweep bound applies to every level of the run.
- LouvainNew.Community.Remove: requires its node to be a member; the `KeyError` that `set.remove` raises otherwise is not modelled, because the level never removes a non-member.
- Louvain.Run: requires a networkx graph to be well formed (edges between existing nodes, one entry per undirected pair); that is a property of the library's data structure, not a check the source makes.
- Exceptions raised half-way through a mutating method: the model reports the error but does not describe the partly updated state that Python would leave behind.
- GreedyBipartition.GradientWalkBipartition: the equality `best_cost == f_cost(best_bp)` is proved only for cost functions that ignore the order of the two sides (the cut value is one, `CutValueSymmetric`), because a trial move evaluates the sides in an order that depends on x's side while `best_bp` keeps the fixed order.
- GreedyBipartition.Descend: the same order-symmetry hypothesis applies to its `best_cost == f_cost(best_bp)` clause.
- Build.Build2.BuildTree: the triples and forbidden triples are required to be over the leaf set `L`, as the source assumes of its callers.
- Scenario.OutgroupsAreOutside: the species tree's leaf labels are assumed distinct (the subtrees' leaf lists are disjoint); this is not derived from the tree.
- Scenario.IndexOfDisjoint: the same distinct-label hypothesis.
- Scenario.Scenario.Create: the library calls of `__init__` (`observable_tree`, `reconc_sorted_leaves`, `orthology_from_tree`, `bmg_from_tree`) are not modelled; their results (the gene list, the gene tree in preorder, the BMG and the RBMG) are parameters.
- The Scenario fields are `const`: the Python object is never mutated after `__init__`, so `_count_events`, `_sort_species_to_subtrees` and `reduce_to_subtrees` are modelled as methods that return the values `__init__` stores.
- `Scenario.get_distance_matrix` calls the external `distance_matrix` and is not modelled; `get_data` only returns the stored fields.
- The `BMGEditor` class of `BMGEditing.py` delegates to external triple extraction and tree code and is not modelled.
- The ILP files (`ilp/GurobiBMG.py`, `ilp/CplexBMG.py`), `TreeReconstruction.py`, `ExtBestHits.py` and `setup.py` are wrappers over external solvers, programs and packaging; they are not part of this model.
- All `print` calls, the `print_info` flag and the `__main__` blocks are left out.
