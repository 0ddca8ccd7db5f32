/**
 * The route-finding algorithms of algorithms.py. Each one is an object built
 * from a source, a destination and a graph, whose constructor does the search
 * and whose `GetPath` reads the result back.
 */
module Algorithms {
  import opened Values
  import opened Routes
  import opened FixedOrder
  import Objects
  import Relaxation
  import opened Transfers

  /**
   * `Dijkstra` (algorithms.py:21-71): one relaxation pass over the keys of
   * the graph in the order the queue pops them. `order` is that pop order.
   * algorithms.py keeps `distance` and `edgeTo` as class attributes shared by
   * all instances; here each instance owns them.
   */
  class Dijkstra {
    const source: Node
    const destination: Node
    ghost const graph: Adjacency
    var distance: map<Node, Dist>
    var edgeTo: map<Node, Option<Edge>>
    ghost var stamp: map<Node, nat>
    ghost var clock: nat

    ghost predicate Valid()
      reads this
    {
      NonNegative(graph) && Sound(graph, source, Labels(distance, edgeTo), stamp, clock)
    }

    /** The constructor (algorithms.py:35-58). */
    constructor (source: Node, destination: Node, graph: Objects.Graph, order: seq<Node>)
      requires graph.Valid() && NonNegative(graph.adjacency) && Objects.Indexed(graph.adjacency, order)
      ensures Valid() && this.source == source && this.destination == destination && this.graph == graph.adjacency
      ensures Labels(distance, edgeTo) == Sweep(Initial(graph.adjacency, source), graph.adjacency, order)
    {
      var lab, st, clk := SweepAll(graph, source, order);
      this.source := source;
      this.destination := destination;
      this.graph := graph.adjacency;
      distance, edgeTo, stamp, clock := lab.distance, lab.edgeTo, st, clk;
    }

    /**
     * `getPath()` (algorithms.py:60-71): the recorded edges from the
     * destination back to a node without one, destination first. A
     * destination without an `edgeTo` entry raises KeyError. The walk ends
     * at the source whenever the destination's distance is finite. With an
     * infinite distance it may end at another node without a pointer, or may
     * still reach the source if a node on it was relabelled later.
     */
    method GetPath() returns (r: Result<seq<Edge>>)
      requires Valid()
      ensures destination !in edgeTo ==> r == Failure(destination)
      ensures destination in edgeTo && edgeTo[destination].None? ==> r == Success([])
      ensures destination in edgeTo && edgeTo[destination].Some? ==>
                && r.Success? && r.value != [] && r.value[0] == edgeTo[destination].value
                && (forall i :: 0 <= i < |r.value| ==>
                      r.value[i].destination in edgeTo && edgeTo[r.value[i].destination] == Some(r.value[i]))
                && IsChain(graph, r.value[|r.value| - 1].source.value, destination, Reverse(r.value))
                && edgeTo[r.value[|r.value| - 1].source.value].None?
                && (distance[destination].Finite? ==>
                      r.value[|r.value| - 1].source.value == source &&
                      Weight(Reverse(r.value)) <= distance[destination].value)
    {
      if destination !in edgeTo {
        return Failure(destination);
      }
      if edgeTo[destination].None? {
        return Success([]);
      }
      ghost var lab := Labels(distance, edgeTo);
      var path: seq<Edge> := [];
      var edge := edgeTo[destination];
      ghost var node := destination;
      while edge.Some?
        invariant Walk(graph, lab, destination, node, path) && edge == edgeTo[node]
        decreases |Before(lab, stamp, node)|
      {
        PointerFalls(graph, source, lab, stamp, clock, node);
        WalkStep(graph, lab, stamp, destination, node, path);
        var e := edge.value;
        path := path + [e];
        node := e.source.value;
        edge := edgeTo[e.source.value];
      }
      if distance[destination].Finite? {
        WalkEnd(graph, source, lab, stamp, clock, destination, node, path);
      }
      return Success(path);
    }
  }

  /**
   * The whole of the constructor's search (algorithms.py:38-58): the
   * initial dictionaries, then every node of `order` relaxes its edges.
   */
  method SweepAll(graph: Objects.Graph, source: Node, order: seq<Node>)
    returns (lab: Labels, ghost stamp: map<Node, nat>, ghost clock: nat)
    requires graph.Valid() && NonNegative(graph.adjacency) && Objects.Indexed(graph.adjacency, order)
    ensures lab == Sweep(Initial(graph.adjacency, source), graph.adjacency, order)
    ensures Sound(graph.adjacency, source, lab, stamp, clock)
  {
    lab := InitialLabels(graph, source);
    stamp, clock := map v | v in graph.adjacency.Keys + {source} :: 0, 1;
    InitialSound(graph.adjacency, source);
    InitialCovers(graph.adjacency, source, order);
    lab, stamp, clock := SweepFrom(graph, source, order, lab, stamp, clock);
  }

  /** The pop loop of `__init__` (algorithms.py:45-58), from the initial labels on. */
  method SweepFrom(graph: Objects.Graph, ghost source: Node, order: seq<Node>, lab0: Labels,
                   ghost stamp0: map<Node, nat>, ghost clock0: nat)
    returns (lab: Labels, ghost stamp: map<Node, nat>, ghost clock: nat)
    requires graph.Valid() && NonNegative(graph.adjacency)
    requires forall v :: v in order ==> v in Initial(graph.adjacency, source).distance
    requires forall i :: 0 <= i < |order| ==> order[i] in graph.adjacency
    requires lab0 == Initial(graph.adjacency, source) && Sound(graph.adjacency, source, lab0, stamp0, clock0)
    ensures lab == Sweep(Initial(graph.adjacency, source), graph.adjacency, order)
    ensures Sound(graph.adjacency, source, lab, stamp, clock)
  {
    lab, stamp, clock := lab0, stamp0, clock0;
    assert order[..0] == [];
    for k := 0 to |order|
      invariant lab == Sweep(Initial(graph.adjacency, source), graph.adjacency, order[..k])
      invariant Sound(graph.adjacency, source, lab, stamp, clock)
    {
      lab, stamp, clock := SweepNext(graph, source, order, k, lab, stamp, clock);
    }
    assert order[..|order|] == order;
  }

  /** One turn of the sweep: the `k`-th node of the order relaxes its edges. */
  method SweepNext(graph: Objects.Graph, ghost source: Node, order: seq<Node>, k: nat, lab: Labels,
                   ghost stamp: map<Node, nat>, ghost clock: nat)
    returns (r: Labels, ghost stamp2: map<Node, nat>, ghost clock2: nat)
    requires graph.Valid() && NonNegative(graph.adjacency) && k < |order|
    requires forall v :: v in order ==> v in Initial(graph.adjacency, source).distance
    requires forall i :: 0 <= i < |order| ==> order[i] in graph.adjacency
    requires lab == Sweep(Initial(graph.adjacency, source), graph.adjacency, order[..k])
    requires Sound(graph.adjacency, source, lab, stamp, clock)
    ensures r == Sweep(Initial(graph.adjacency, source), graph.adjacency, order[..k + 1])
    ensures Sound(graph.adjacency, source, r, stamp2, clock2)
  {
    SweepStep(Initial(graph.adjacency, source), graph.adjacency, order, k);
    r, stamp2, clock2 := RelaxFrom(graph, source, lab, order[k], stamp, clock);
  }

  /** The dictionaries before the first pop (algorithms.py:38-43). */
  method InitialLabels(graph: Objects.Graph, source: Node) returns (lab: Labels)
    requires graph.Valid()
    ensures lab == Initial(graph.adjacency, source)
  {
    var keys := graph.Vertices();
    var dist: map<Node, Dist> := map[];
    var to: map<Node, Option<Edge>> := map[];
    for i := 0 to |keys|
      invariant forall v :: v in dist <==> v in keys[..i]
      invariant forall v :: v in to <==> v in keys[..i]
      invariant forall v :: v in dist ==> dist[v] == Infinite
      invariant forall v :: v in to ==> to[v] == None
    {
      assert keys[..i + 1] == keys[..i] + [keys[i]];
      dist := dist[keys[i] := Infinite];
      to := to[keys[i] := None];
    }
    assert keys[..|keys|] == keys;
    InitialFrom(graph.adjacency, source, dist, to);
    dist := dist[source := Finite(0.0)];
    lab := Labels(dist, to);
  }

  /**
   * One pop of the queue (algorithms.py:45-58): every edge out of `current`
   * is offered in list order. The ghost stamps and clock follow along so
   * that the labels stay `Sound`.
   */
  method RelaxFrom(graph: Objects.Graph, ghost source: Node, lab: Labels, current: Node,
                   ghost stamp: map<Node, nat>, ghost clock: nat)
    returns (r: Labels, ghost stamp2: map<Node, nat>, ghost clock2: nat)
    requires graph.Valid() && NonNegative(graph.adjacency) && current in graph.adjacency
    requires Sound(graph.adjacency, source, lab, stamp, clock)
    ensures current in lab.distance && r == OfferAll(lab, current, Out(graph.adjacency, current))
    ensures Sound(graph.adjacency, source, r, stamp2, clock2)
  {
    ghost var g := graph.adjacency;
    var edges := graph.Adj(current);
    var dist, to := lab.distance, lab.edgeTo;
    stamp2, clock2 := stamp, clock;
    for i := 0 to |edges|
      invariant Labels(dist, to) == OfferAll(lab, current, edges[..i])
      invariant Sound(g, source, Labels(dist, to), stamp2, clock2)
    {
      var edge := edges[i];
      ghost var before := Labels(dist, to);
      OfferAllStep(lab, current, edges, i);
      OfferSound(g, source, before, stamp2, clock2, current, edge);
      stamp2, clock2 := Restamp(before, stamp2, clock2, current, edge), clock2 + 1;
      var d := Plus(dist[current], edge.distance);
      if edge.destination !in dist {
        dist, to := dist[edge.destination := d], to[edge.destination := Some(edge)];
      } else if Less(d, dist[edge.destination]) {
        dist, to := dist[edge.destination := d], to[edge.destination := Some(edge)];
      }
      assert Labels(dist, to) == Offer(before, current, edge);
    }
    assert edges[..|edges|] == edges;
    r := Labels(dist, to);
  }

  /**
   * `DijkstraNoPQ` (algorithms.py:75-125): the linear-relaxation search of
   * `Graph.getPath`, run by the constructor. When the destination cannot be
   * reached `path` is reset to the empty dictionary.
   */
  class DijkstraNoPQ {
    const source: Node
    const destination: Node
    ghost const graph: Adjacency
    var path: map<Node, Edge>
    ghost var rank: map<Node, nat>

    ghost predicate Valid()
      reads this
    {
      && WellFormed(graph) && NonNegative(graph)
      && if Reachable(graph, source, destination) then
           Relaxation.Rooted(graph, source, path, rank) && destination in path &&
           Shortest(graph, source, destination, path[destination].distance)
         else path == map[]
    }

    /** The constructor (algorithms.py:80-116). */
    constructor (source: Node, destination: Node, graph: Objects.Graph)
      requires graph.Valid() && NonNegative(graph.adjacency)
      ensures Valid() && this.source == source && this.destination == destination && this.graph == graph.adjacency
      ensures source == destination ==> path == map[source := Synthetic(source)]
    {
      this.source := source;
      this.destination := destination;
      this.graph := graph.adjacency;
      var reached, paths, r := Relaxation.Explore(graph.adjacency, source, destination);
      if reached {
        path, rank := paths, r;
      } else {
        path, rank := map[], map[];
      }
    }

    /**
     * `getPath()` (algorithms.py:118-125): the shortest route, source first,
     * each edge carrying the distance from the source to its destination.
     * After an unsuccessful search the lookup of the destination raises
     * KeyError.
     */
    method GetPath() returns (r: Result<seq<Edge>>)
      requires Valid()
      ensures r.Failure? <==> !Reachable(graph, source, destination)
      ensures r.Failure? ==> r.missing == destination
      ensures r.Success? ==>
                && LabelledRoute(graph, source, Reverse(r.value))
                && r.value[0] == Synthetic(source)
                && r.value[|r.value| - 1].destination == destination
                && Shortest(graph, source, destination, r.value[|r.value| - 1].distance)
      ensures source == destination ==> r == Success([Synthetic(source)])
    {
      if source == destination {
        assert IsChain(graph, source, destination, []);
      }
      if destination !in path {
        return Failure(destination);
      }
      var backwards := Relaxation.Backtrack(graph, source, path, destination, rank);
      ReverseTwice(backwards);
      assert path[destination].destination == destination by {
        if destination != source {
          assert Relaxation.Backlink(graph, path, destination);
        }
      }
      if source == destination {
        assert backwards[0] == Synthetic(source);
        LabelledRouteHead(graph, source, backwards);
        assert backwards == [Synthetic(source)];
      }
      var forwards := Reverse(backwards);
      return Success(forwards);
    }
  }
  /**
   * The search loop of `IanAStar.getPath` (algorithms.py:207-238) from a
   * given seed state: pop an entry of least (cost, distance, transfers);
   * stop if its last node is the target; skip it if its state was expanded
   * before; otherwise mark the state and push one entry per edge out of it.
   * It finds a route exactly when one exists, and the route it finds is a
   * first one in the heap order: least cost, then least distance, then
   * fewest transfers.
   */
  method BestFirst(graph: Objects.Graph, seed: Stop, target: Node) returns (r: Outcome)
    requires graph.Valid() && NonNegative(graph.adjacency)
    ensures Answers(graph.adjacency, seed, target, r)
  {
    var seen: set<Stop> := {};
    var queue: seq<Entry> := [Entry(0.0, 0.0, 0, [seed])];
    ghost var best: map<Stop, Rank> := map[];
    ExploringStart(graph.adjacency, seed, target);
    while queue != []
      invariant Exploring(graph.adjacency, seed, target, queue, seen, best)
      decreases Unexpanded(graph.adjacency, seed, seen), |queue|
    {
      var m := Pop(graph.adjacency, seed, target, queue, seen, best);
      var top := queue[m];
      if top.path[|top.path| - 1].place == Station(target) {
        r := Found(top.distance, top.path);
        Arrived(graph.adjacency, seed, target, queue, seen, best, m, r);
        return;
      }
      queue, seen, best := Advance(graph, seed, target, queue, seen, best, m);
    }
    r := NotFound;
    Exhausted(graph.adjacency, seed, target, seen, best, r);
  }

  /** `heapq.heappop` (algorithms.py:209): the position of an entry no other entry precedes, whose path is not empty. */
  method Pop(ghost g: Adjacency, ghost seed: Stop, ghost target: Node, queue: seq<Entry>,
             ghost seen: set<Stop>, ghost best: map<Stop, Rank>) returns (m: nat)
    requires queue != [] && Exploring(g, seed, target, queue, seen, best)
    ensures Popped(queue, m)
  {
    TracedPaths(g, seed, queue);
    m := Lowest(queue);
    LowestIsPopped(queue);
  }

  /**
   * The rest of one turn of the loop of `getPath` once the popped entry is
   * not at the target (algorithms.py:217-236): a state already seen is
   * dropped, and otherwise the state is expanded. The search invariant still
   * holds and the search has advanced.
   */
  method Advance(graph: Objects.Graph, ghost seed: Stop, ghost target: Node, queue: seq<Entry>,
                 seen: set<Stop>, ghost best: map<Stop, Rank>, m: nat)
    returns (queue': seq<Entry>, seen': set<Stop>, ghost best': map<Stop, Rank>)
    requires graph.Valid() && NonNegative(graph.adjacency)
    requires Exploring(graph.adjacency, seed, target, queue, seen, best) && Popped(queue, m)
    requires LastStop(queue[m]).place != Station(target)
    ensures Exploring(graph.adjacency, seed, target, queue', seen', best')
    ensures Unexpanded(graph.adjacency, seed, seen') < Unexpanded(graph.adjacency, seed, seen) ||
            (seen' == seen && |queue'| < |queue|)
  {
    var top := queue[m];
    var last := top.path[|top.path| - 1];
    if last in seen {
      Skipped(graph.adjacency, seed, target, queue, seen, best, m);
      queue' := queue[..m] + queue[m + 1..];
      assert |queue'| == |queue| - 1;
      seen', best' := seen, best;
    } else {
      queue', seen', best' := Expand(graph, seed, target, queue, seen, best, m);
    }
  }

  /**
   * Expanding a popped state that is new and not the target
   * (algorithms.py:220-236): it joins `seen`, and every edge out of its node
   * pushes an entry onto the rest of the queue.
   */
  method Expand(graph: Objects.Graph, ghost seed: Stop, ghost target: Node, queue: seq<Entry>,
                seen: set<Stop>, ghost best: map<Stop, Rank>, m: nat)
    returns (next: seq<Entry>, seen': set<Stop>, ghost best': map<Stop, Rank>)
    requires graph.Valid() && NonNegative(graph.adjacency)
    requires Exploring(graph.adjacency, seed, target, queue, seen, best) && Popped(queue, m)
    requires LastStop(queue[m]) !in seen && LastStop(queue[m]).place != Station(target)
    ensures seen' == seen + {LastStop(queue[m])} && best' == best[LastStop(queue[m]) := RankOf(queue[m])]
    ensures Exploring(graph.adjacency, seed, target, next, seen', best')
    ensures Unexpanded(graph.adjacency, seed, seen') < Unexpanded(graph.adjacency, seed, seen)
  {
    var top := queue[m];
    var last := top.path[|top.path| - 1];
    assert last == LastStop(queue[m]);
    var edges := if last.place.Station? then graph.Adj(last.place.node) else [];
    next := PushAll(queue[..m] + queue[m + 1..], top, edges);
    assert queue[m] in queue;
    Expanded(graph.adjacency, seed, target, queue, seen, best, m, edges, next);
    ExpandedStates(graph.adjacency, seed, top, seen);
    seen', best' := seen + {last}, best[last := RankOf(top)];
  }

  /**
   * The inner loop of `getPath` (algorithms.py:222-236): for each edge out
   * of the popped entry's node, a copy of its path with one more pair is
   * pushed, with cost, distance and transfers brought up to date.
   */
  method PushAll(queue: seq<Entry>, top: Entry, edges: seq<Edge>) returns (next: seq<Entry>)
    requires top.path != []
    ensures Pushed(queue, next, top, edges)
  {
    var service := top.path[|top.path| - 1].service;
    next := queue;
    for i := 0 to |edges|
      invariant Pushed(queue, next, top, edges[..i])
    {
      var edge := edges[i];
      var cost := edge.distance + top.cost;
      var transfers := top.transfers;
      if service != edge.busService {
        cost := cost + TransferPenalty;
        transfers := transfers + 1;
      }
      cost := cost + HopPenalty;
      PushedStep(queue, next, top, edges, i);
      next := next + [Entry(cost, top.distance + edge.distance, transfers, top.path + [Arrival(edge)])];
    }
    assert edges[..|edges|] == edges;
  }

  /**
   * `IanAStar` (algorithms.py:182-238). The constructor only stores its
   * arguments (and an unused empty `queue`); `getPath` does the search.
   */
  class IanAStar {
    const source: Node
    const destination: Node
    const graph: Objects.Graph
    var queue: seq<Entry>

    /** The constructor (algorithms.py:194-198). */
    constructor (source: Node, destination: Node, graph: Objects.Graph)
      ensures this.source == source && this.destination == destination && this.graph == graph && queue == []
    {
      this.source := source;
      this.destination := destination;
      this.graph := graph;
      queue := [];
    }

    /**
     * `getPath()` seeded at the source node with no service, as the search
     * evidently intends: `[]` exactly when the destination cannot be
     * reached, and otherwise the distance and pair list of a route that no
     * other route to the destination precedes in the heap order: least
     * cost, then least distance, then fewest transfers.
     */
    method GetPath() returns (r: Outcome)
      requires graph.Valid() && NonNegative(graph.adjacency)
      ensures Answers(graph.adjacency, Stop(Station(source), None), destination, r)
    {
      r := BestFirst(graph, Stop(Station(source), None), destination);
    }

    /**
     * `getPath()` as written (algorithms.py:206): the seed pair holds the
     * source's identifier string, which equals no node and has no edges, so
     * the heap empties after one pop and the result is always `[]`. The
     * search is the one `BestFirst` runs, whose loop invariant is stated for
     * non-negative weights, so this method asks for them too.
     */
    method GetPathAsWritten() returns (r: Outcome)
      requires graph.Valid() && NonNegative(graph.adjacency)
      ensures r == NotFound
    {
      r := BestFirst(graph, Stop(Code(source.id), None), destination);
      forall hops | IsRoute(graph.adjacency, Stop(Code(source.id), None), hops)
        ensures End(Stop(Code(source.id), None), hops).place != Station(destination)
      {
        CodeSeedStays(graph.adjacency, Stop(Code(source.id), None), hops);
      }
    }
  }
}
