# Transit route finding, modelled in Dafny

This project models the pathfinding engine of a transit route planner. The
engine works on a graph of stops and places joined by walking, bus and rail
links.

- **`Graph`** (`objects.py`) builds an adjacency dictionary from storage rows.
  It keeps at most one edge per (source, destination) pair.
  It answers `isNeighbour`, `vertices` and `adj`.
  Its `getPath` finds a shortest route by linear relaxation.
- **`Dijkstra`** (`algorithms.py`) relaxes every key of the graph once, in the
  order its priority queue pops them, and walks the `edgeTo` pointers back
  from the destination.
- **`DijkstraNoPQ`** runs the same relax-and-select loop as `Graph.getPath`.
  It returns the route source first.
- **`IanAStar`** runs a transfer-aware uniform-cost search over partial
  routes. A hop costs its length, plus 0.5, plus 10 when it changes bus
  service.

The modules are:

- `Values`: nodes, edges and storage rows, with structural equality.
- `Routes`: the reference definitions of a chain of stored edges, its weight,
  reachability, shortest distance, and the destination-first labelled routes
  the relaxation search returns.
- `Objects`: the `Graph` class, and the fold of `addEdge` over the rows that
  its constructor performs.
- `Relaxation`: the relax/select loop that `Graph.getPath` and
  `DijkstraNoPQ` share, with its invariant and the proof that it finds
  shortest routes.
- `FixedOrder`: the labels of `Dijkstra` and the invariant that keeps its
  `edgeTo` pointers acyclic.
- `Transfers`: routes, costs and transfers of the transfer-aware search, and
  the invariant of its loop.
- `Algorithms`: the three solver classes and the methods that run their
  loops.

Some representation choices:

- Distances and costs are `real`.
- A missing dictionary key that raises `KeyError` in Python is a `Failure`
  naming the missing node.
- The solvers require edge weights to be non-negative. `Edge` documents its
  `distance` as the distance between its source and destination nodes
  (objects.py:99), which is never negative.

## Model

| member | source | states |
|---|---|---|
| Values.NodeEquality | objects.py:42-61 | two nodes are equal exactly when id, lat, long, type, name and description all agree |
| Values.EdgeEquality | objects.py:125-143 | two edges are equal exactly when source, destination, distance, type and bus service all agree |
| Objects.Graph.constructor | objects.py:158-185 | the dictionary is the fold of `addEdge` over the rows' edges, in row order, and keeps the graph's shape |
| Objects.BuildShaped | objects.py:158-185 | the built dictionary has no empty list and no two edges with the same pair, and its key order lists each key once |
| Objects.BuildSources | objects.py:166-185 | the keys are exactly the source nodes of the rows; a node seen only as a destination is never a key |
| Objects.BuildFromFirstRows | objects.py:215-231 | every stored edge is the edge of the first row for its (source, destination) pair |
| Objects.FirstRowKept | objects.py:215-231 | the first row for a pair always has its edge stored, whatever its type or bus service |
| Objects.FrontReaches | objects.py:215-231 | after construction every row's source has an edge to that row's destination |
| Objects.Graph.IsNeighbour | objects.py:193-212 | `KeyError` for a source that is not a key; otherwise true exactly when some stored edge of the source ends at the destination |
| Objects.Graph.AddEdge | objects.py:215-231 | a new source gets the list `[edge]` and joins the keys last; a known source gets the edge appended unless it already has one to that destination; the shape is kept |
| Objects.AddedShaped | objects.py:215-231 | `addEdge` keeps at most one edge per (source, destination) pair and no list empty |
| Objects.AddedOnlySource | objects.py:225-231 | `addEdge` changes only the list of the edge's source, and only by appending at the end |
| Objects.AddedReaches | objects.py:215-231 | after `addEdge` the source has an edge to the edge's destination |
| Objects.Graph.Vertices | objects.py:233-240 | the list holds exactly the keys, each once |
| Objects.Graph.Adj | objects.py:243-255 | the stored list for a key; `[]` exactly for a node that is not a key; every listed edge leaves the node and no two share a destination |
| Objects.Graph.GetPath | objects.py:257-308 | `[]` exactly when the destination cannot be reached; otherwise a destination-first labelled route from the synthetic edge at the source, whose head label is the shortest distance; just the synthetic edge when source and destination agree |
| Relaxation.RelaxEdges | objects.py:283-294 | the loop over `adj(current)` computes the fold of one offer per edge |
| Relaxation.OfferAllImproves | objects.py:287-294 | no entry's label grows, and an entry is replaced only by a strictly shorter one, so ties keep the earlier edge |
| Relaxation.OfferAllFromEdges | objects.py:287-294 | every added or replaced entry is one of the relaxed edges, relabelled with its cumulative distance |
| Relaxation.OfferAllCovers | objects.py:283-294 | after a round every destination of the current node's edges holds a label no larger than that edge's offer |
| Relaxation.OfferAllSparesShort | objects.py:292-294 | with non-negative weights a round never replaces an entry whose label is at most the current label |
| Relaxation.SettledKept | objects.py:280-301 | the entries of settled nodes are never replaced |
| Relaxation.SelectMin | objects.py:296-301 | no candidate exactly when every discovered node is seen; otherwise an unseen discovered node of least label, the first such in insertion order |
| Relaxation.FrontierBound | objects.py:280-301 | a chain from the settled source to an unsettled node passes an open node labelled at most the chain's weight |
| Relaxation.CurrentIsSettled | objects.py:301 | the node selected next has a label that no chain to it undercuts |
| Relaxation.Round | objects.py:280-301 | one round keeps the search invariant, or ends with every discovered node seen; either way one more node is settled |
| Relaxation.Search | objects.py:280-301 | the loop stops either with the destination current or with no open node, and its invariant holds at the stop |
| Relaxation.Conclude | objects.py:280-301 | the loop reaches the destination exactly when a chain reaches it, and then the destination's label is the shortest distance |
| Relaxation.Explore | objects.py:271-301 | the whole search: its back-pointers are rooted at the source, it succeeds exactly when the destination is reachable, with the shortest distance, and from the source to itself it keeps the start table |
| Relaxation.RootedChain | objects.py:303-306 | walking the back-pointers from any discovered node spells out a chain from the source whose weight is that node's label |
| Relaxation.Backtrack | objects.py:303-308 | the reconstruction loop returns a destination-first labelled route that starts with the destination's entry |
| Routes.RestoreIsRoute | objects.py:303-308 | a labelled route restores to a source-first chain of stored edges whose weight is its head label |
| Routes.LabelledRouteHead | objects.py:304-306 | the reconstruction has one element exactly when the head is the synthetic edge |
| Routes.WeightNonNegative | objects.py:280-301 | with non-negative weights every chain weighs at least zero |
| Algorithms.Dijkstra.constructor | algorithms.py:35-58 | the labels are the initial ones swept in the pop order, and the `edgeTo` pointers are sound |
| Algorithms.SweepAll | algorithms.py:38-58 | the constructor's loops compute the sweep over the pop order and keep the pointer invariant |
| Algorithms.SweepFrom | algorithms.py:45-58 | the loop over the pop order computes the sweep of the initial labels |
| Algorithms.SweepNext | algorithms.py:46-58 | one pop extends the sweep by the popped node |
| Algorithms.InitialLabels | algorithms.py:38-43 | every key at infinity with no pointer, then the source at zero |
| Algorithms.RelaxFrom | algorithms.py:48-58 | the edges of the popped node are offered in list order, keeping the pointer invariant |
| FixedOrder.OfferEffect | algorithms.py:48-58 | a label only ever shrinks strictly; an unlabelled destination is recorded even at infinity; a new pointer `e` comes with the label of `e`'s source plus its weight |
| FixedOrder.SweepNeverRaises | algorithms.py:45-58 | over a whole sweep no label grows |
| FixedOrder.OfferAllNeverRaises | algorithms.py:48-58 | over the edges of one node no label grows |
| FixedOrder.InitialSound | algorithms.py:38-43 | the initial dictionaries satisfy the pointer invariant |
| FixedOrder.OfferSound | algorithms.py:48-58 | one offer keeps the pointer invariant: each pointer is a stored edge into its node, and the node's label is at least its source's label plus the weight |
| FixedOrder.PointerFalls | algorithms.py:67-69 | following a pointer moves strictly down a well-founded order, so the walk of `getPath` ends |
| FixedOrder.WalkEnd | algorithms.py:64-71 | when the destination's label is finite the walk ends at the source, and the chain weighs at most that label |
| Algorithms.Dijkstra.GetPath | algorithms.py:60-71 | `KeyError` for a destination without an entry; `[]` when its pointer is None; otherwise the pointer chain destination first, a chain of stored edges ending at a node without a pointer, which is the source when the destination's label is finite |
| Algorithms.DijkstraNoPQ.constructor | algorithms.py:80-116 | when the destination is reachable the entries are rooted at the source and the destination holds the shortest distance; otherwise `path` is reset to the empty dictionary |
| Algorithms.DijkstraNoPQ.GetPath | algorithms.py:118-125 | `KeyError` exactly when the destination is unreachable; otherwise the source-first route from the synthetic edge to the destination, with the shortest distance as its last label; exactly `[synthetic edge]` when source and destination agree |
| Routes.ReverseTwice | algorithms.py:125 | reversing the reconstructed list twice gives it back, so the source-first result holds the same route |
| Transfers.Lowest | algorithms.py:209 | the popped entry is one that no other entry precedes in the (cost, distance, transfers) order |
| Transfers.ExtendEntry | algorithms.py:224-236 | the entry pushed for a hop is the entry of the one-hop-longer route: copied path plus one pair, cost, distance and transfers brought up to date |
| Transfers.CostSplit | algorithms.py:225-236 | every entry's cost is its distance, plus 10 per transfer, plus 0.5 per hop |
| Transfers.TransfersCountChanges | algorithms.py:231-233 | the transfer count is the number of consecutive pairs of the path whose services differ |
| Transfers.FirstHopTransfers | algorithms.py:206 | with the seed's service None, a first hop by bus always counts as a transfer |
| Transfers.CostGrows | algorithms.py:228-234 | with non-negative weights every hop raises the cost |
| Transfers.FewerTransfers | algorithms.py:231-234 | of two routes of equal length and distance the cheaper one has no more transfers |
| Transfers.RouteRankStep | algorithms.py:224-236 | one more hop moves a route's (cost, distance, transfers) key on by an amount fixed by the hop and the service before it |
| Transfers.StepKeepsOrder | algorithms.py:224-236 | the same hop added to two keys keeps their order in the heap's lexicographic comparison |
| Transfers.Frontier | algorithms.py:207-236 | every route from the seed ends in an expanded state, or a queued entry for an unexpanded state comes no later than the route in the (cost, distance, transfers) order |
| Transfers.Arrived | algorithms.py:217-218 | the first popped entry at the target is a route there that no other route precedes in the (cost, distance, transfers) order |
| Transfers.CheapestAgree | algorithms.py:209-218 | any two routes the search may report agree on cost, distance and transfers, so the returned distance is determined |
| Transfers.Exhausted | algorithms.py:238 | a heap that empties without reaching the target means no route reaches it |
| Transfers.Skipped | algorithms.py:219-220 | dropping an entry for a state already seen keeps the search invariant |
| Transfers.Expanded | algorithms.py:222-236 | marking a new state seen and pushing its extensions keeps the search invariant |
| Transfers.ExpandedStates | algorithms.py:222 | expanding a state leaves fewer states unexpanded, so the loop ends |
| Algorithms.BestFirst | algorithms.py:207-238 | the search finds a route exactly when the target is reachable, and a route it finds has the least cost, then the least distance, then the fewest transfers of all routes there, reported with its distance and path |
| Algorithms.Pop | algorithms.py:209 | no entry precedes the popped one in the (cost, distance, transfers) order, and its path is not empty |
| Algorithms.Advance | algorithms.py:217-236 | a seen state is skipped and a new one expanded; the invariant holds and the search advances |
| Algorithms.Expand | algorithms.py:222-236 | the state joins `seen`, its extensions are pushed, and the invariant holds |
| Algorithms.PushAll | algorithms.py:224-236 | one entry per edge of the node, in order, each the popped entry extended by that edge |
| Algorithms.IanAStar.constructor | algorithms.py:194-198 | stores source, destination and graph, with an empty `queue` |
| Algorithms.IanAStar.GetPath | algorithms.py:201-238 | seeded at the source node: `[]` exactly when the destination is unreachable, otherwise the distance and path of a route of least cost, then least distance, then fewest transfers |
| Algorithms.IanAStar.GetPathAsWritten | algorithms.py:206 | seeded with the source's identifier string: always `[]` |
| Transfers.CodeSeedMissesRoute | algorithms.py:206 | on a graph with one bus edge from A to B, B is reachable from the seed (A, None) but not from the seed ("A", None) |

## Left out

- Class-level shared state. `Graph.adjacency_list` (objects.py:156) and `Dijkstra.distance` and `edgeTo` (algorithms.py:31-32) are class attributes that every instance shares. Here each instance owns fresh state. (`Dijkstra.queue` is shadowed by the instance attribute that `Algorithm.__init__` sets, algorithms.py:14.)
- Floating point. Distances and costs are exact reals, so rounding is not modelled.
- `Node.distanceTo` (haversine in floating point) is not part of this model.
- The `PriorityQueue`, `MinHeap` and `PQItem` classes are not part of this model. `Dijkstra`'s pop order is an input permutation of the graph's keys, because the seed priorities come from `distanceTo`.
- `AStar` (algorithms.py:129-179) is not modelled. It uses undefined names and never fills its path.
- The `__hash__` and `__repr__` methods are not modelled. Dafny's datatype equality stands in for the structural equality that the hashes agree with.
- `db.py`, `runme.py` and `setup.py` are storage, web and install code, and are not part of this model.
- Relaxation.RelaxEdges: does not model overwriting `edge.distance` in place (objects.py:289,294 and algorithms.py:103,108). The model stores a copy of the edge carrying the cumulative label, which is the value the program returns. The stored graph keeps the original weight, so the aliasing that a second search on the same graph would see is not captured.
- Objects.Graph.constructor: assumes every storage row is complete. The program looks each field up with `dic["…"]` (objects.py:167-183), so a row missing a field raises `KeyError` while the graph is built; the `Row` datatype cannot represent such a row, and that error is not modelled.
- Objects.Graph.GetPath: requires non-negative edge weights, since an edge's `distance` is the distance between its two nodes (objects.py:99). With negative weights the program's reconstruction loop may not end.
- Algorithms.DijkstraNoPQ.GetPath: requires non-negative edge weights, as above.
- Algorithms.Dijkstra.GetPath: states that the walk ends at the source only when the destination's label is finite. A destination first seen from a node at infinity gets a pointer (algorithms.py:51-53). With an infinite label the walk may end at another node without a pointer, or may still reach the source if a node on it was relabelled later.
- Algorithms.Dijkstra.constructor: does not model a missing queue. With the default `queue=None`, `self.queue.push` (algorithms.py:41) raises `AttributeError` in the program; the model always takes a pop order.
- Algorithms.Dijkstra.constructor: the order-dependent labels are stated as the sweep over the given pop order. They are not claimed to be shortest distances, because algorithms.py never re-queues a node whose label falls.
- Algorithms.BestFirst: does not model the `TypeError` that `heapq` raises on ties. When two entries carry equal (cost, distance, transfers) triples, `heapq` compares their paths. At the first pair where the paths differ it compares two `Node` objects, or a `None` service with a string. `Node` defines no ordering (objects.py:42-71), so the program can raise `TypeError`; `heapq` compares only the entries that meet while sifting, so a tie can also pass unnoticed. Only when the two nodes are equal and both services are strings does the string order decide. The model pops the first least entry instead and returns a route, so on such ties it answers where the program fails, or may report a different route of the same key.
- Algorithms.IanAStar.GetPath: on ties between equal (cost, distance, transfers) triples the program may raise `TypeError`, as described for Algorithms.BestFirst; the model returns a route there.
- Algorithms.IanAStar.GetPath: requires non-negative edge weights; otherwise the first arrival need not be cheapest.
- The `queue` field of `IanAStar` is stored but never used by `getPath`, which keeps a local heap; the model does the same.

## Findings

| source | as written | input that shows it | evidently intended | confidence | as-written member | corrected member |
|---|---|---|---|---|---|---|
| algorithms.py:206 | the seed pair holds `self.source.id`, a string, so the first pop compares a string with the destination node and looks up the string's edges | any graph in which the destination is reachable from the source by at least one edge: the string equals no node and has no edges, so the heap empties and `getPath` returns `[]` | seed with the source node itself, `(self.source, None)`, so the search follows the source's edges | high, not executed | Algorithms.IanAStar.GetPathAsWritten | Algorithms.IanAStar.GetPath |
