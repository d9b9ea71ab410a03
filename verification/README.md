# Enfield: token swapping and layered reordering

Enfield compiles OpenQASM programs for chips on which only some pairs of qubits may interact. This
project models the two parts of it that carry the hard promises, and proves them.

**Moving qubits (lib/Support).** Two placements of tokens on the vertices of a coupling graph are given;
a *finder* returns swaps along coupling edges that turn the first into the second. Three finders solve
the same problem: an exact one that searches all permutations, an approximate one that first completes
blank positions by a minimum-cost assignment (the Hungarian algorithm), and a simplified approximate one
that works on placements with blanks. `Networks.Dist`, defined from walks, is the one notion of distance
that every breadth-first search of the program is proved against.

| file | contents |
|---|---|
| `Networks`, `Frontiers` | graphs as values, walks, distance; the invariants shared by all breadth-first searches |
| `Graphs`, `Paths`, `Distances` | the graph object, the shortest-path finder, the distance cache |
| `Placements`, `Moves` | tokens, swaps, and sums over all tokens; happy chains and unhappy swaps |
| `NextHops`, `Cycles`, `SwapLoop` | next-hop tables, the cycle search, the main loop of both approximate finders |
| `Hungarian`, `Augmenting`, `Matchings`, `Completion` | the assignment that completes blank positions |
| `Finders`, `Permutations`, `Lexicographic`, `ExactFinder` | the three finders as objects; the list of all permutations |
| `Verifier`, `Routing` | the architecture check; the finders against each other and against the check |

The main loop is measured by one potential, `Phi`: a token at distance d > 0 from home weighs 2d and a
token at home weighs 1. Every group of swaps lowers the sum of the weights by at least its own size. That
gives termination and the bound 2·L - (tokens out of place) at once, where L is the sum of distances; an
arbitrary swap lowers L by at most two, so any other solution has at least L/2 swaps. For the full finder
the factor four is proved against every solution of the placements it was *given*, blanks included,
because the completion it chooses is the cheapest of all completions.

**Reordering a program (lib/Transform).** The statements are threaded into a circuit graph, one doubly
linked list per wire. A scheduler walks it with one cursor per wire, drains single-qubit gates eagerly,
emits all other gates in layers as their wires become free, and the program is put in that order.

| file | contents |
|---|---|
| `Wires`, `Xbits`, `Circuits` | which gates lie on which wire, how bits are numbered; the linked structure and its iterator |
| `Schedules`, `Layers`, `Stages` | what can run when, gate depth, layerings and their minimality, the exact place of every gate |
| `Meaning`, `Conflicts` | what reordering preserves, and exactly when |
| `Ordering` | the scheduler |
| `Reordering` | the pass: numbering, graph building, reordering, and the meaning of the program |
| `Overtaking` | a program whose meaning the pass changes |

Gates are opaque: a gate is what it does to a state. If statements without a common *appended* bit commute,
the reordered program means the same. The builder, though, does not append a conditional measurement on the
bit it writes. For effects on all the bits a statement *names*, the pass keeps the meaning exactly under a
condition on the program, proved in both directions: of any two statements that name a common bit the
earlier one has the earlier stage, where the stage of a gate is its depth, whether it is drained, its sweep
and its least wire. Every layering keeps it exactly if such statements are linked by a chain of statements that
share appended bits; programs without conditional measurements always are. `Overtaking` gives a program that
is not, and what the pass makes of it.

Where the code departs from what its comments or names suggest, the model follows the code. The cycle
search skips vertices that wait on its stack, so it is not a complete depth-first search
(`Cycles.MissedCycle`). It never misses a cycle through its start, and the main loop tries every
vertex that is out of place. A tight column may also enter the Hungarian search late, because only a
label update widens the set of tight columns; the update then shifts by zero, which the invariants allow.
A bit given twice to the circuit graph spoils the list of its wire (`Circuits.CircuitGraph.Append`), and
numbering a classical bit other than the first and back does not return it (`Xbits.RealIdReturns`).

## Model

| member | source | states |
|---|---|---|
| Networks.UndefIsLast | include/enfield/Support/Defs.h:15 | the undefined marker is the last 32-bit number |
| Networks.Dist | lib/Support/BFSCachedDistance.cpp:10-33 | the declarative distance: the length of a shortest walk, or the undefined marker when there is none |
| Networks.DistSymmetric | lib/Support/BFSCachedDistance.cpp:39-44 | on a two-way graph distance is symmetric, which is what lets the cache answer from the other endpoint's row |
| Networks.ShortestWalk | lib/Support/BFSPathFinder.cpp:11-57 | between connected vertices some walk has exactly the distance as its length, and meets each distance once |
| Frontiers.Discover | lib/Support/BFSCachedDistance.cpp:25-30 | a vertex first seen from the vertex being expanded is exactly one step further from the start, and the queue invariant holds again |
| Frontiers.Exhausted | lib/Support/BFSCachedDistance.cpp:21-32 | when the queue is empty the seen vertices are exactly the reachable ones |
| Distances.DistancesFrom | lib/Support/BFSCachedDistance.cpp:10-33 | the row computed for a vertex holds the true distance to every vertex, and the undefined marker exactly where there is none |
| Distances.CachedDistance.Get | lib/Support/BFSCachedDistance.cpp:39-44 | after any history of queries the answer is the true distance, filled rows never change, and a row is filled only when neither endpoint has one |
| Graphs.Graph.PutEdge | lib/Support/Graph.cpp:64-72 | successors and predecessors stay mutually inverse; exactly the new edge is added, both ways when undirected |
| Graphs.Graph.Adj | lib/Support/Graph.cpp:48-57 | the neighbours in the two-way graph |
| Graphs.Graph.HasEdge | lib/Support/Graph.cpp:59-62 | true exactly for directed edges |
| Graphs.Graph.WaysAreEdges | lib/Support/Graph.cpp:48-62 | two vertices are neighbours exactly when there is an edge in one direction or the other |
| Paths.Search | lib/Support/BFSPathFinder.cpp:14-44 | the target is marked exactly when reachable, and every parent is one step closer to the start |
| Paths.Find | lib/Support/BFSPathFinder.cpp:11-57 | for a reachable pair a simple path from one to the other that no walk undercuts; otherwise the target alone |
| Cycles.FindCycle | lib/Support/ApproxTSFinder.cpp:267-311 | on a loop-free graph a result is a simple cycle listed against its edges, there is a result whenever a cycle passes through the start, and the result is the cycle up the parents from the first grey vertex the search sees |
| Cycles.LookAround | lib/Support/ApproxTSFinder.cpp:286-296 | one scan: grey vertices stay the parent chain down to the start, and a hit is an edge to a grey vertex |
| Cycles.TraceCycle | lib/Support/ApproxTSFinder.cpp:299-308 | following parents from a grey hit gives a cycle, the one up the parents |
| Cycles.NoCycle | lib/Support/ApproxTSFinder.cpp:281-297 | an emptied stack means no cycle passes through the start |
| Cycles.MissedCycle | lib/Support/ApproxTSFinder.cpp:281-297 | a cycle that avoids the start can be missed: on the edges 0-1, 0-2, 1-2, 2-1 the search from 0 returns nothing and the one from 1 a cycle |
| NextHops.GoodVertices | lib/Support/ApproxTSFinder.cpp:320-355 | on any undirected graph the flag of v in row u is set exactly when v is on a shortest path from the source to u |
| NextHops.CloserBetween | lib/Support/ApproxTSFinder.cpp:317-319 | a neighbour is one step closer to the target exactly when it lies on a shortest path to it, also when the target is out of reach |
| NextHops.FindGoodVertices | lib/Support/ApproxTSFinder.cpp:313-368 | on any undirected graph each list holds precisely the neighbours of the source that are one step closer to the target, ascending; none for the source itself or an unreachable target |
| NextHops.Preprocess | lib/Support/ApproxTSFinder.cpp:459-463 | the whole next-hop table is exact |
| Placements.TotalExchange | lib/Support/ApproxTSFinder.cpp:430-436 | a swap changes a sum over tokens only by the shares of the two tokens it moves |
| Moves.ChainMoves | lib/Support/ApproxTSFinder.cpp:430-436 | a happy chain moves every token on it one step closer to home and no other token |
| Moves.ChainProgress | lib/Support/ApproxTSFinder.cpp:403-436 | a chain through k vertices costs k - 1 swaps, takes exactly k off the sum of distances and at least k off the potential |
| Moves.UnhappyProgress | lib/Support/ApproxTSFinder.cpp:410-428 | an unhappy swap into a blank lowers the sum by one; against a placed token it keeps the sum and puts exactly one more token out of place |
| Moves.SwapLowersByTwo | lib/Support/ApproxTSFinder.cpp:432-436 | no swap along an edge lowers the sum of distances by more than two |
| Moves.AnySolutionIsLong | tests/ApproxTSFinderTests.cpp:80 | any swaps along edges that solve the problem number at least half the sum of distances |
| SwapLoop.InvertTarget | lib/Support/SimplifiedApproxTSFinder.cpp:131-136 | the inverse of the target placement, blanks left out |
| SwapLoop.Initialise | lib/Support/SimplifiedApproxTSFinder.cpp:139-149 | the in-place flags and next-hop lists start out right for every vertex |
| SwapLoop.FindMove | lib/Support/SimplifiedApproxTSFinder.cpp:154-181 | the cycle found from the first vertex out of place that yields one; an edge onto a vertex in place is taken only if none does, and then no cycle passes through any vertex out of place and the edge is the first there is; no result means there is neither |
| SwapLoop.FoundIsNext | lib/Support/SimplifiedApproxTSFinder.cpp:156-181 | for the placement such a move is a happy chain, or, where no happy chain exists, the unhappy swap from the least vertex that has one to the least vertex it can go to |
| SwapLoop.ChainCloses | lib/Support/SimplifiedApproxTSFinder.cpp:156-161 | a happy chain closes a trail of next hops through a vertex out of place, so the search from there cannot miss |
| SwapLoop.CycleIsHappy | lib/Support/SimplifiedApproxTSFinder.cpp:156-161 | a cycle of the tracked next-hop lists is a happy chain of the placement |
| SwapLoop.SwapAlong | lib/Support/SimplifiedApproxTSFinder.cpp:184-189 | the swaps recorded are the links of the path, and the placement is the rotated one |
| SwapLoop.Refresh | lib/Support/SimplifiedApproxTSFinder.cpp:191-208 | updating flags and lists at the touched vertices only leaves them equal to a full recomputation |
| SwapLoop.MoveProgress | lib/Support/SimplifiedApproxTSFinder.cpp:152-212 | every move lowers the potential by at least the swaps it makes and by at least one, and its swaps lie on edges: the loop terminates |
| SwapLoop.StuckIsSolved | lib/Support/SimplifiedApproxTSFinder.cpp:156-211 | if no move is left every real token is home |
| SwapLoop.Run | lib/Support/SimplifiedApproxTSFinder.cpp:122-216 | the main loop ends on every connected graph; its swaps lie on edges, bring every real token home, number at most twice the sum of distances less the tokens initially out of place, and fall into moves, each a happy chain of the placement it meets or an unhappy swap made where there is no happy chain |
| Hungarian.Root | lib/Support/ApproxTSFinder.cpp:133-151 | a round starts from one free row with right slacks |
| Hungarian.AlphaFits | lib/Support/ApproxTSFinder.cpp:155-163 | the shift is at most every label it is subtracted from, and at most the largest weight: no unsigned operation wraps |
| Hungarian.LowerLabels | lib/Support/ApproxTSFinder.cpp:154-172 | a label update keeps labels feasible and within 0..maxw, matched edges tight and the matching symmetric, and makes a new column tight |
| Hungarian.FirstUnused | lib/Support/ApproxTSFinder.cpp:187-191 | a tight column not yet used is found whenever the two sets differ |
| Hungarian.Grow | lib/Support/ApproxTSFinder.cpp:237-251 | taking a matched column and its row into the tree keeps the whole search invariant |
| Augmenting.BuildAlternating | lib/Support/ApproxTSFinder.cpp:198-205 | the alternating graph has exactly the tight edges, directed by the matching |
| Augmenting.SearchFrom | lib/Support/ApproxTSFinder.cpp:207-228 | parents lead back to the root step by step; the column is found exactly when reachable |
| Augmenting.ColumnReached | lib/Support/ApproxTSFinder.cpp:193-228 | a free tight column is always reachable from the root of the round |
| Augmenting.Flip | lib/Support/ApproxTSFinder.cpp:230-234 | flipping along the parents gives a symmetric, tight matching again, with the root matched and every other row as matched as before |
| Matchings.Round | lib/Support/ApproxTSFinder.cpp:132-254 | a round terminates, keeps every invariant and matches exactly its root in addition |
| Matchings.OneMore | lib/Support/ApproxTSFinder.cpp:132-254 | the number of free rows drops by exactly one |
| Matchings.BestMatching | lib/Support/ApproxTSFinder.cpp:125-254 | the algorithm terminates with every row matched on tight edges |
| Matchings.LabelsBound | lib/Support/ApproxTSFinder.cpp:111-124 | feasible labels sum to at least the value of any assignment, with equality on tight ones |
| Matchings.PerfectIsBest | lib/Support/ApproxTSFinder.cpp:96-101 | the matching found is an assignment of greatest value |
| Completion.BlanksOf | lib/Support/ApproxTSFinder.cpp:35-38 | the blank positions, ascending |
| Completion.MeasureBlanks | lib/Support/ApproxTSFinder.cpp:64-94 | the weight of each pair of blank positions is their distance in the coupling graph |
| Completion.Invert | lib/Support/ApproxTSFinder.cpp:102-118 | weights are subtracted from the largest one, and the first labels are feasible |
| Completion.TotalOfCompletion | lib/Support/ApproxTSFinder.cpp:256-264 | the sum of distances between two completions is a fixed part plus the value of the assignment of blanks |
| Completion.MatchingIsCheapest | lib/Support/ApproxTSFinder.cpp:96-101 | a greatest assignment of inverted weights gives the least sum of distances over all pairs of completions |
| Completion.FixUndefAssignments | lib/Support/ApproxTSFinder.cpp:28-265 | both placements become permutations that agree with every defined entry, and no other pair of completions has a smaller sum of distances |
| Finders.ApplyKeeps | tests/ApproxTSFinderTests.cpp:90-94 | swaps only permute the tokens |
| Finders.SolvedIsTarget | tests/ApproxTSFinderTests.cpp:96 | with the same tokens on both sides, all tokens home means equal to the target |
| Finders.CompletedIsSolved | lib/Support/ApproxTSFinder.cpp:370-374 | swaps that solve the completed problem solve the original one exactly |
| Finders.AnySolutionCompletes | lib/Support/ApproxTSFinder.cpp:370-374 | any solution of the original problem has at least half the completed sum of distances in swaps |
| Finders.SimplifiedApproxFinder.SetGraph | lib/Support/SimplifiedApproxTSFinder.cpp:218-222 | rows are appended to the table; the first call makes the finder ready |
| Finders.SimplifiedApproxFinder.Find | lib/Support/SimplifiedApproxTSFinder.cpp:122-216 | aborts exactly without a graph; otherwise swaps along edges, happy chains first, that bring every token home, reach the target when the tokens agree, and number at most four times any solution |
| Finders.ApproxFinder.SetGraph | lib/Support/ApproxTSFinder.cpp:459-463 | rows are appended to the table; the first call makes the full finder ready |
| Finders.ApproxFinder.Find | lib/Support/ApproxTSFinder.cpp:370-457 | aborts exactly without a graph; otherwise swaps along edges that turn `from` into `to`, made happy chains first for a cheapest completion, at most twice its distances less its tokens out of place, and at most four times as many as any solution of the given placements |
| Permutations.Transpose | lib/Support/ExpTSFinder.cpp:66-69 | on a connected graph any two positions can be exchanged by swaps along edges that leave the rest unchanged |
| Permutations.Sortable | lib/Support/ExpTSFinder.cpp:60-80 | swaps along the edges of a connected graph turn any permutation into any other |
| Permutations.SwapsAreSteps | lib/Support/ExpTSFinder.cpp:66-69 | applying swaps to the identity is walking as many edges in the graph of permutations |
| Permutations.EveryPermutationReached | lib/Support/ExpTSFinder.cpp:60-80 | the search from the identity reaches every permutation |
| Lexicographic.NextPermutation | lib/Support/ExpTSFinder.cpp:15 | the library step: the next permutation in lexicographic order, with nothing between, or false on the last one |
| Lexicographic.GenAllAssigns | lib/Support/ExpTSFinder.cpp:7-16 | lists every permutation once, the identity first, and at most n! in all |
| ExactFinder.TryEdge | lib/Support/ExpTSFinder.cpp:68-77 | the permutation one swap away is inserted afterwards, and if it was new gets a shortest sequence and joins the queue |
| ExactFinder.Expand | lib/Support/ExpTSFinder.cpp:66-79 | expanding a permutation inserts every permutation one swap away and stores a shortest sequence for each new one |
| ExactFinder.Preprocess | lib/Support/ExpTSFinder.cpp:42-81 | every permutation gets an id and a shortest swap sequence that produces it from the identity |
| ExactFinder.RealTarget | lib/Support/ExpTSFinder.cpp:24-35 | a permutation that, read through the source, is the target |
| ExactFinder.QueryReaches | lib/Support/ExpTSFinder.cpp:26-37 | swaps produce that permutation from the identity exactly when they turn the source into the target |
| ExactFinder.ExpFinder.SetGraph | lib/Support/ExpTSFinder.cpp:42-81 | all permutations are listed, all tables rebuilt, and the finder is ready |
| ExactFinder.ExpFinder.Find | lib/Support/ExpTSFinder.cpp:18-38 | aborts exactly without a graph or on different sizes; otherwise turns `from` into `to`, and nothing shorter does |
| Routing.CheckSwapSeq | tests/ApproxTSFinderTests.cpp:69-98 | on every connected graph both comparisons of the test hold: the target is reached, with blanks or without, and without blanks the exact number of swaps is at most ours and ours at most four times that |
| Routing.Adjacency | lib/Support/Graph.cpp:48-57 | what a finder sees of a graph object is its two-way adjacency |
| Routing.IssueSwaps | lib/Transform/Allocators/BoundedMappingTreeQAllocator.cpp:490-497 | each swap is written once, along a direction the coupling has, and all of them can be carried out |
| Routing.IssueAndCheck | lib/Transform/ArchVerifierPass.cpp:142-153 | any swaps along couplings, written out, are accepted by the whole run of the check |
| Routing.RouteSimplified | lib/Transform/Allocators/BoundedMappingTreeQAllocator.cpp:490-497 | so is what the simplified finder returns, and it brings every token home |
| Routing.RouteApprox | lib/Transform/Allocators/BoundedMappingTreeQAllocator.cpp:490-497 | the same for the full finder, reaching the target |
| Routing.RouteExact | lib/Transform/Allocators/BoundedMappingTreeQAllocator.cpp:490-497 | the same for the exact finder, reaching the target |
| Verifier.Architecture.PutVertex | lib/Arch/ArchGraph.cpp:42-50 | names and numbers stay inverse; a known name keeps its number, a new one gets the next |
| Verifier.VisitOperation | lib/Transform/ArchVerifierPass.cpp:39-104 | aborts exactly on known qubits in a wrong number or on a gate named like an intrinsic one that is not marked as such; otherwise true exactly if the CNOTs the operation stands for lie on directed edges, written out for each kind |
| Verifier.KindByKind | lib/Transform/ArchVerifierPass.cpp:55-101 | an operation stands for itself (cx), the reversed pair (rev_cx), the pair in a coupled direction (swap), or both legs through the middle qubit (lcx); it can be carried out exactly if the edges of its kind exist |
| Verifier.Visitor.Visit | lib/Transform/ArchVerifierPass.cpp:106-132 | success is kept exactly while everything visited can be carried out, conditionals through their operation |
| Verifier.ArchVerifier.Run | lib/Transform/ArchVerifierPass.cpp:142-153 | accepts exactly the programs in which every statement, plain or conditional, has its CNOTs on directed edges, and aborts exactly when a malformed one is reached |
| Verifier.SwapsCarried | lib/Transform/ArchVerifierPass.cpp:74-80 | intrinsic swaps on named qubits can be carried out exactly when every swap lies on an edge in one direction or the other |
| Wires.OnWire | lib/Transform/CircuitGraph.cpp:199-213 | lists gates that lie on the wire, in append order |
| Wires.OnWireComplete | lib/Transform/CircuitGraph.cpp:199-213 | and every gate that lies on it |
| Circuits.CircuitGraph.constructor | lib/Transform/CircuitGraph.cpp:166-181 | every wire leads from the shared input node straight to the shared output node and back |
| Circuits.CircuitGraph.Hook | lib/Transform/CircuitGraph.cpp:209-211 | the pointer writes put the node between the last node and the output node of that wire |
| Circuits.CircuitGraph.Thread | lib/Transform/CircuitGraph.cpp:205-212 | one pass puts the gate at the end of one wire and keeps a valid graph valid; a second pass on the same wire makes the gate precede itself there |
| Circuits.HookKeeps | lib/Transform/CircuitGraph.cpp:208-211 | after those writes every wire's list is again exactly its stops, linked both ways |
| Circuits.CircuitGraph.Append | lib/Transform/CircuitGraph.cpp:199-213 | succeeds exactly when every qubit and every classical bit is below its register size, and then adds one gate whose wires are exactly the qubits and, after them, the classical bits given; the graph is valid again exactly if no bit was given twice |
| Xbits.RealIdReturns | lib/Transform/CircuitGraph.cpp:12-49 | a wire number is turned into a bit exactly if it is one of the wires, and back into itself exactly for qubits, the first classical bit, and the one half a machine word further on |
| Circuits.StopLinks | lib/Transform/CircuitGraph.cpp:116-131 | neighbouring stops of a wire point at each other, so next and back undo each other |
| Circuits.Iterator.Next | lib/Transform/CircuitGraph.cpp:116-120 | moves to the next gate on the wire in append order, and refuses only at the output node |
| Circuits.Iterator.Back | lib/Transform/CircuitGraph.cpp:127-131 | moves to the previous stop, and refuses only at the input node |
| Schedules.EmittedBefore | lib/Transform/CNOTLBOWrapperPass.cpp:79-98 | of two gates on a wire the earlier one is out when the later one is emitted |
| Schedules.EmitReady | lib/Transform/CNOTLBOWrapperPass.cpp:79-98 | emitting ready gates and passing them on all their wires keeps every cursor exact |
| Schedules.SomethingReady | lib/Transform/CNOTLBOWrapperPass.cpp:33-106 | the first gate not yet emitted is ready, so every round makes progress |
| Schedules.DrainEnds | lib/Transform/CNOTLBOWrapperPass.cpp:39-61 | when the drain stops, exactly the gates of depth at most the round number are out |
| Schedules.ReadyIsNextDepth | lib/Transform/CNOTLBOWrapperPass.cpp:63-98 | after the drain the ready gates are exactly the controlled ones one level deeper |
| Ordering.DrainSweep | lib/Transform/CNOTLBOWrapperPass.cpp:43-54 | one sweep emits a layer of distinct single-qubit gates of the current depth |
| Ordering.Drain | lib/Transform/CNOTLBOWrapperPass.cpp:39-61 | the drain terminates with everything of the current depth out, layers and order extended accordingly |
| Ordering.Mark | lib/Transform/CNOTLBOWrapperPass.cpp:64-77 | afterwards every wire at a gate is marked and each counter is the number of wires its gate still waits for |
| Ordering.ReadyIffZero | lib/Transform/CNOTLBOWrapperPass.cpp:73-84 | a gate under a cursor is ready exactly when its counter is zero |
| Ordering.EmitLayer | lib/Transform/CNOTLBOWrapperPass.cpp:79-98 | emits exactly the ready gates, each once and in the order of their least wires, unmarks and advances their wires; stop means every wire is at its end |
| Ordering.EndIsAll | lib/Transform/CNOTLBOWrapperPass.cpp:95-106 | all wires at their end means every gate is out, and conversely |
| Ordering.Generate | lib/Transform/CNOTLBOWrapperPass.cpp:7-109 | terminates on every circuit; the layers hold each statement once, with no two gates of a layer on one wire, the order is their concatenation and respects every wire, no layer is empty, single-qubit gates have layers of their own, every gate comes right after as many controlled layers as it is deep, and the order goes by stage |
| Ordering.SweepStep | lib/Transform/CNOTLBOWrapperPass.cpp:39-61 | a sweep picks up exactly the single-qubit gates of its depth whose turn on their wire it is |
| Stages.StagedIsUnique | lib/Transform/CNOTLBOWrapperPass.cpp:33-106 | only one order goes by stage, so the generated order is determined gate by gate |
| Stages.LayersAreStaged | lib/Transform/CNOTLBOWrapperPass.cpp:101-105 | layers at their depth, swept in turn and in wire order, concatenate to the order of the stages |
| Layers.LayeredRespects | lib/Transform/CNOTLBOWrapperPass.cpp:101-105 | concatenating layers keeps the order of any two gates that share a wire |
| Layers.DepthNeedsLayers | lib/Transform/CNOTLBOWrapperPass.cpp:36-38 | in any layering a gate of depth d needs d controlled layers up to its own |
| Layers.AtDepthIsMinimal | lib/Transform/CNOTLBOWrapperPass.cpp:36-105 | no layering of the program has fewer controlled layers than the one generated |
| Meaning.ReorderKeepsMeaning | lib/Transform/LayerBasedOrderingWrapperPass.cpp:14-25 | any order that lists every gate once and keeps the order on every wire has the effect of the original order on every state |
| Meaning.LayeringKeepsMeaning | lib/Transform/CNOTLBOWrapperPass.cpp:33-109 | so does any layering, emitted layer by layer |
| Meaning.WireLocalCommutes | lib/Transform/CircuitGraph.cpp:199-213 | effects that read and write only their own wires commute when the wires are disjoint |
| Conflicts.KeepsIffRespects | lib/Transform/LayerBasedOrderingWrapperPass.cpp:14-25 | an order has the original effect for all effects on given wires if and only if it keeps the order on each of those wires |
| Conflicts.LayeringsKeepIffChained | lib/Transform/CircuitGraphBuilderPass.cpp:27-38 | the chain condition over footprints: sufficient by following the chain, necessary by putting what is linked to a gate first |
| Conflicts.StagedKeepsIffInStep | lib/Transform/CircuitGraphBuilderPass.cpp:27-38 | the stage condition over footprints, for the generated order |
| Reordering.CollectBits | lib/Transform/CircuitGraphBuilderPass.cpp:25-45 | the bits of a statement: every qubit it names, and the bit a measure writes or every bit of the register a conditional tests, and no others; refuses exactly undeclared ones |
| Reordering.BuildGraph | lib/Transform/CircuitGraphBuilderPass.cpp:10-51 | one node per statement in program order, on exactly those wires |
| Reordering.NamedAndAppended | lib/Transform/CircuitGraphBuilderPass.cpp:27-38 | read off its fields, the bits a statement names are those it is appended on and, for a conditional measurement, the bit it writes |
| Reordering.QModule.OrderBy | lib/Transform/QModule.cpp:227-233 | moving statements out by a permutation leaves the same statements in that order, none lost |
| Reordering.LayerBasedOrdering.NumberAll | lib/Transform/LayerBasedOrderingWrapperPass.cpp:14-19 | each statement's number is its position |
| Reordering.LayerBasedOrdering.Run | lib/Transform/LayerBasedOrderingWrapperPass.cpp:14-26 | the generated layers are added to the layers field, the program ends up in the generated order, and that order is the layering of the original program by stage; fails exactly when a statement names an undeclared bit |
| Reordering.ReorderedMeansTheSame | lib/Transform/LayerBasedOrderingWrapperPass.cpp:14-26 | if statements without a common appended bit commute, the reordered program takes every state where the original takes it |
| Reordering.LocalIsIndependent | lib/Transform/CircuitGraphBuilderPass.cpp:25-47 | effects that stay on the appended bits commute in this way |
| Reordering.OrderedKeepsIffInStep | lib/Transform/CircuitGraphBuilderPass.cpp:27-38 | for effects on all the bits statements name, the one a conditional measurement writes included, the pass keeps the meaning if and only if of any two statements that name a common bit the earlier one has the earlier stage |
| Reordering.InStepKeeps | lib/Transform/CircuitGraphBuilderPass.cpp:27-38 | under that condition it does so whatever values the bits hold |
| Reordering.LayeringsKeepIffLinked | lib/Transform/CircuitGraphBuilderPass.cpp:27-38 | every layering keeps the meaning if and only if any two statements that name a common bit are linked by a chain of statements, each sharing an appended bit with the next |
| Reordering.PlainProgramsKeep | lib/Transform/CircuitGraphBuilderPass.cpp:27-38 | which holds for every program without conditional measurements |
| Overtaking.OvertakenChanges | lib/Transform/CircuitGraphBuilderPass.cpp:27-38 | for `cx q0,q1; if(c==1) measure q1->d; measure q2->d;` it fails: the other measurement writes d last |
| Overtaking.RunOvertaken | lib/Transform/LayerBasedOrderingWrapperPass.cpp:14-26 | the pass itself, given that program, changes the final state |

## Left out

- Quantum semantics (amplitudes, unitaries): a gate is an opaque effect on the bits it names.
- Timing and logging in the tests.
- Finders.SimplifiedApproxFinder.SetGraph: only the first call makes the finder ready, because the program appends to the table and never clears it.
- Finders.ApproxFinder.SetGraph: likewise.
- Finders.ApproxFinder.Find: asks for at most 2^31 - 1 vertices, because the assignment numbers blanks of both sides in one 32-bit range.
- ExactFinder.ExpFinder.SetGraph: asks for at most 2^32 - 1 permutations, that is twelve vertices, because ids are 32-bit.
- Finding swaps on disconnected coupling graphs, placements with repeated tokens, and targets that lack a token of the source: outside what the finders are written for.
- The two approximate finders share one main loop here (`SwapLoop.Run`). The branches on blanks that only the simplified one has are never taken on completed placements.
- Finders take the graph's two-way adjacency as a value (`Routing.Adjacency` builds it) instead of a pointer to a graph object; sets are walked in ascending order by counting vertices and testing membership.
- Label, matching and step-map containers are split in two halves (rows and columns, previous and next); an absent key stands for a null pointer.
- Vectors local to one function are sequences reassigned step by step; the linked nodes, the iterator, the graph, the cache, the finders, the program and the verifier are objects updated in place.
- Ordering.Generate: records layers as statement numbers instead of node pointers, and returns them for the pass to add to its field.
- Reordering.BuildGraph: names are already numbers; the tables that number names, and their errors, reduce to a range test. The language gives each statement a qubit and no bit twice.
- Parsing, printing, JSON, command line, statistics, AST nodes, pass plumbing, other passes and the allocators' own heuristics.
