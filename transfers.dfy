/**
 * The transfer-aware best-first search of `IanAStar.getPath`
 * (algorithms.py:182-238): a uniform-cost search over partial routes, each
 * heap entry holding (cost, distance, transfers, path). A hop costs its
 * length plus 0.5, and 10 more when it changes bus service; the search
 * state is the pair (node, service of the hop that reached it).
 *
 * This module holds the reference definitions (a route, its cost, its
 * transfers, the entry the search keeps for it) and the invariant of the
 * search loop with the lemmas that carry it from one pop to the next.
 */
module Transfers {
  import opened Values
  import opened Routes

  /**
   * What the first element of a path pair holds: a node of the graph, or a
   * bare identifier string, which is what the seed entry holds as written
   * (algorithms.py:206 pushes `self.source.id`).
   */
  datatype Place = Station(node: Node) | Code(id: string)

  /** A search state `(node, curr_service)`: the service is `None` before the first hop. */
  datatype Stop = Stop(place: Place, service: Option<string>)

  /** A heap entry `(cost, distance, transfers, path)`. */
  datatype Entry = Entry(cost: real, distance: real, transfers: nat, path: seq<Stop>)

  /** What `getPath` returns: `(curr_distance, path)` on arrival, or `[]`. */
  datatype Outcome = Found(distance: real, path: seq<Stop>) | NotFound

  /** Added to the cost of a hop that changes bus service (algorithms.py:232). */
  const TransferPenalty: real := 10.0

  /** Added to the cost of every hop (algorithms.py:234). */
  const HopPenalty: real := 0.5

  /**
   * `graph.adj(node)` for a place: the stored list of a node that is a key,
   * nothing otherwise. An identifier string is never a key of the node
   * dictionary, so it has no edges.
   */
  function Exits(g: Adjacency, p: Place): (r: seq<Edge>)
    ensures p.Code? ==> r == []
    ensures p.Station? && p.node in g ==> r == g[p.node]
  {
    if p.Station? then Out(g, p.node) else []
  }

  /** The state a hop along `e` reaches: its destination, by its bus service. */
  function Arrival(e: Edge): Stop
  {
    Stop(Station(e.destination), e.busService)
  }

  /** Whether a hop along `e` out of a state reached by `service` changes service (algorithms.py:231). */
  predicate Changes(service: Option<string>, e: Edge)
  {
    service != e.busService
  }

  /** The cost of one hop (algorithms.py:228-234). */
  function HopCost(service: Option<string>, e: Edge): real
  {
    e.distance + (if Changes(service, e) then TransferPenalty else 0.0) + HopPenalty
  }

  /** The state reached after `hops` from `seed`. */
  function End(seed: Stop, hops: seq<Edge>): Stop
  {
    if hops == [] then seed else Arrival(hops[|hops| - 1])
  }

  /** `hops` can be followed from `seed`: each hop leaves the place the previous one reached. */
  ghost predicate IsRoute(g: Adjacency, seed: Stop, hops: seq<Edge>)
  {
    hops == [] ||
    (IsRoute(g, seed, hops[..|hops| - 1]) && hops[|hops| - 1] in Exits(g, End(seed, hops[..|hops| - 1]).place))
  }

  /** The total cost of a route: the sum of its hop costs, each judged against the service before it. */
  function Cost(seed: Stop, hops: seq<Edge>): real
  {
    if hops == [] then 0.0
    else
      var front := hops[..|hops| - 1];
      Cost(seed, front) + HopCost(End(seed, front).service, hops[|hops| - 1])
  }

  /** The number of hops that change service. */
  function Transfers(seed: Stop, hops: seq<Edge>): nat
  {
    if hops == [] then 0
    else
      var front := hops[..|hops| - 1];
      Transfers(seed, front) + (if Changes(End(seed, front).service, hops[|hops| - 1]) then 1 else 0)
  }

  /** The `path` list of a route: the seed pair, then one `(destination, service)` pair per hop. */
  function Trace(seed: Stop, hops: seq<Edge>): (r: seq<Stop>)
    ensures |r| == |hops| + 1 && r[0] == seed && r[|hops|] == End(seed, hops)
    ensures forall i :: 0 <= i < |hops| ==> r[i + 1] == Arrival(hops[i])
  {
    if hops == [] then [seed] else Trace(seed, hops[..|hops| - 1]) + [Arrival(hops[|hops| - 1])]
  }

  /** The heap entry that stands for a route. */
  function EntryOf(seed: Stop, hops: seq<Edge>): Entry
  {
    Entry(Cost(seed, hops), Weight(hops), Transfers(seed, hops), Trace(seed, hops))
  }

  /** The last pair of an entry's path: `path[-1]`. */
  function LastStop(q: Entry): Stop
    requires q.path != []
  {
    q.path[|q.path| - 1]
  }

  /**
   * The entry pushed for `e` out of a popped entry `q`, computed the way the
   * loop body does it (algorithms.py:224-236): the path is copied and one
   * pair appended; the cost grows by the distance, by 10 on a change of
   * service and by 0.5; the transfers grow by one on a change of service.
   */
  function Extend(q: Entry, e: Edge): Entry
    requires q.path != []
  {
    var service := LastStop(q).service;
    var cost := e.distance + q.cost + (if Changes(service, e) then TransferPenalty else 0.0) + HopPenalty;
    var transfers := q.transfers + (if Changes(service, e) then 1 else 0);
    Entry(cost, q.distance + e.distance, transfers, q.path + [Arrival(e)])
  }

  /** The key the heap compares entries by: their first three fields, `(cost, distance, transfers)`. */
  datatype Rank = Rank(cost: real, distance: real, transfers: nat)

  /** The key of an entry. */
  function RankOf(q: Entry): Rank
  {
    Rank(q.cost, q.distance, q.transfers)
  }

  /** `a` comes strictly before `b` in the lexicographic order of the heap's tuples. */
  predicate Below(a: Rank, b: Rank)
  {
    a.cost < b.cost ||
    (a.cost == b.cost && (a.distance < b.distance || (a.distance == b.distance && a.transfers < b.transfers)))
  }

  /** `a` comes no later than `b`. */
  predicate NoLater(a: Rank, b: Rank)
  {
    !Below(b, a)
  }

  /** The heap order on entries. */
  predicate Precedes(a: Entry, b: Entry)
  {
    Below(RankOf(a), RankOf(b))
  }

  /**
   * `heapq.heappop`: the position of an entry no other entry precedes (the
   * first such one).
   */
  function Lowest(queue: seq<Entry>): (m: nat)
    requires queue != []
    ensures m < |queue| && forall i :: 0 <= i < |queue| ==> !Precedes(queue[i], queue[m])
  {
    if |queue| == 1 then 0
    else
      var k := Lowest(queue[..|queue| - 1]);
      assert forall i :: 0 <= i < |queue| - 1 ==> queue[..|queue| - 1][i] == queue[i];
      if Precedes(queue[|queue| - 1], queue[k]) then |queue| - 1 else k
  }

  // ---------------------------------------------------------------------------
  // Properties of a single route.

  /** A route extended by an exit of its end is a route. */
  lemma RouteExtend(g: Adjacency, seed: Stop, hops: seq<Edge>, e: Edge)
    requires IsRoute(g, seed, hops) && e in Exits(g, End(seed, hops).place)
    ensures IsRoute(g, seed, hops + [e])
  {
    assert (hops + [e])[..|hops|] == hops;
  }

  /**
   * The entry of a route one hop longer is what the loop body pushes for
   * that hop: the incremental bookkeeping of algorithms.py:224-236 agrees
   * with the whole-route definitions.
   */
  lemma ExtendEntry(seed: Stop, hops: seq<Edge>, e: Edge)
    ensures EntryOf(seed, hops + [e]) == Extend(EntryOf(seed, hops), e)
  {
    var longer := hops + [e];
    assert longer[..|hops|] == hops;
    assert LastStop(EntryOf(seed, hops)) == End(seed, hops);
  }

  /** The key of a route from `seed`: the key of its entry. */
  function RouteRank(seed: Stop, hops: seq<Edge>): Rank
  {
    RankOf(EntryOf(seed, hops))
  }

  /** The key a route has after one more hop along `e`, the hop before it having used `service`. */
  function Step(r: Rank, service: Option<string>, e: Edge): Rank
  {
    Rank(r.cost + HopCost(service, e), r.distance + e.distance, r.transfers + (if Changes(service, e) then 1 else 0))
  }

  /** The entry pushed for a hop has the key of the popped entry moved on by that hop. */
  lemma ExtendRank(q: Entry, e: Edge)
    requires q.path != []
    ensures RankOf(Extend(q, e)) == Step(RankOf(q), LastStop(q).service, e)
  {
  }

  /** A route one hop longer has the key of the shorter route moved on by that hop. */
  lemma RouteRankStep(seed: Stop, hops: seq<Edge>, e: Edge)
    ensures RouteRank(seed, hops + [e]) == Step(RouteRank(seed, hops), End(seed, hops).service, e)
  {
    ExtendEntry(seed, hops, e);
    ExtendRank(EntryOf(seed, hops), e);
    assert LastStop(EntryOf(seed, hops)) == End(seed, hops);
  }

  /** The same hop added to two keys keeps their order. */
  lemma StepKeepsOrder(a: Rank, b: Rank, service: Option<string>, e: Edge)
    requires NoLater(a, b)
    ensures NoLater(Step(a, service, e), Step(b, service, e))
  {
  }

  /** A hop of non-negative length moves a key strictly later: its cost grows by at least 0.5. */
  lemma StepGrows(r: Rank, service: Option<string>, e: Edge)
    requires e.distance >= 0.0
    ensures Below(r, Step(r, service, e))
  {
  }

  /** `NoLater` is transitive. */
  lemma NoLaterTrans(a: Rank, b: Rank, c: Rank)
    requires NoLater(a, b) && NoLater(b, c)
    ensures NoLater(a, c)
  {
  }

  /**
   * Every entry's cost is its distance plus 10 per transfer plus 0.5 per
   * hop, where the number of hops is the length of the path less the seed.
   */
  lemma {:induction false} CostSplit(seed: Stop, hops: seq<Edge>)
    ensures var q := EntryOf(seed, hops);
      q.cost == q.distance + TransferPenalty * (q.transfers as real) + HopPenalty * ((|q.path| - 1) as real)
    decreases |hops|
  {
    if hops != [] {
      CostSplit(seed, hops[..|hops| - 1]);
    }
  }

  /** The number of consecutive pairs of a path whose services differ. */
  function ServiceChanges(path: seq<Stop>): nat
  {
    if |path| <= 1 then 0
    else ServiceChanges(path[..|path| - 1]) + (if path[|path| - 2].service != path[|path| - 1].service then 1 else 0)
  }

  /**
   * `transfers` counts exactly the changes of service along the path: a
   * hop counts when its service differs from the one before it, and the
   * first hop is judged against the seed's `None`.
   */
  lemma {:induction false} TransfersCountChanges(seed: Stop, hops: seq<Edge>)
    ensures Transfers(seed, hops) == ServiceChanges(Trace(seed, hops))
    decreases |hops|
  {
    if hops != [] {
      var front := hops[..|hops| - 1];
      TransfersCountChanges(seed, front);
      var p := Trace(seed, hops);
      assert p[..|p| - 1] == Trace(seed, front);
    }
  }

  /** With the seed's service `None`, a first hop with a bus service always counts as a transfer. */
  lemma {:induction false} FirstHopTransfers(seed: Stop, hops: seq<Edge>)
    requires seed.service.None? && hops != [] && hops[0].busService.Some?
    ensures Transfers(seed, hops) >= 1
    decreases |hops|
  {
    if |hops| > 1 {
      FirstHopTransfers(seed, hops[..|hops| - 1]);
    }
  }

  /** On a graph without negative edges a hop never lowers the cost. */
  lemma CostGrows(g: Adjacency, seed: Stop, hops: seq<Edge>)
    requires NonNegative(g) && IsRoute(g, seed, hops) && hops != []
    ensures Cost(seed, hops[..|hops| - 1]) < Cost(seed, hops)
  {
    var p := End(seed, hops[..|hops| - 1]).place;
    assert hops[|hops| - 1] in Exits(g, p);
  }

  /** Of two routes with equal length and distance, the cheaper has no more transfers. */
  lemma FewerTransfers(seed: Stop, a: seq<Edge>, b: seq<Edge>)
    requires Cost(seed, a) <= Cost(seed, b) && Weight(a) == Weight(b) && |a| == |b|
    ensures Transfers(seed, a) <= Transfers(seed, b)
  {
    CostSplit(seed, a);
    CostSplit(seed, b);
  }

  /** A place can be reached from `seed`. */
  ghost predicate Reaches(g: Adjacency, seed: Stop, target: Node)
  {
    exists hops :: IsRoute(g, seed, hops) && End(seed, hops).place == Station(target)
  }

  /**
   * `hops` reaches `target` and no route from `seed` to `target` comes before
   * it in the heap order: it has the least cost, among routes of that cost the
   * least distance, and among those the fewest transfers.
   */
  ghost predicate Cheapest(g: Adjacency, seed: Stop, target: Node, hops: seq<Edge>)
  {
    && IsRoute(g, seed, hops) && End(seed, hops).place == Station(target)
    && forall other :: IsRoute(g, seed, other) && End(seed, other).place == Station(target) ==>
         NoLater(RouteRank(seed, hops), RouteRank(seed, other))
  }

  /**
   * Two cheapest routes agree on cost, distance and transfers, so the
   * distance a search reports is determined; only the path may differ.
   */
  lemma CheapestAgree(g: Adjacency, seed: Stop, target: Node, a: seq<Edge>, b: seq<Edge>)
    requires Cheapest(g, seed, target, a) && Cheapest(g, seed, target, b)
    ensures Cost(seed, a) == Cost(seed, b) && Weight(a) == Weight(b) && Transfers(seed, a) == Transfers(seed, b)
  {
    assert NoLater(RouteRank(seed, a), RouteRank(seed, b));
    assert NoLater(RouteRank(seed, b), RouteRank(seed, a));
  }

  /** A cheapest route costs no more than any route to the target. */
  lemma CheapestCosts(g: Adjacency, seed: Stop, target: Node, hops: seq<Edge>, other: seq<Edge>)
    requires Cheapest(g, seed, target, hops)
    requires IsRoute(g, seed, other) && End(seed, other).place == Station(target)
    ensures Cost(seed, hops) <= Cost(seed, other)
  {
    assert NoLater(RouteRank(seed, hops), RouteRank(seed, other));
  }

  /**
   * What a search promises: it finds a route exactly when the target can be
   * reached, and a route it finds is a cheapest one in the heap order,
   * reported with its distance and its path.
   */
  ghost predicate Answers(g: Adjacency, seed: Stop, target: Node, r: Outcome)
  {
    && (r.Found? <==> Reaches(g, seed, target))
    && (r.Found? ==> exists hops :: Cheapest(g, seed, target, hops) && r == Found(Weight(hops), Trace(seed, hops)))
  }

  /** From an identifier seed nothing can be followed: its only route is the empty one. */
  lemma {:induction false} CodeSeedStays(g: Adjacency, seed: Stop, hops: seq<Edge>)
    requires seed.place.Code? && IsRoute(g, seed, hops)
    ensures hops == []
  {
    if hops != [] {
      var front := hops[..|hops| - 1];
      CodeSeedStays(g, seed, front);
    }
  }

  // ---------------------------------------------------------------------------
  // The invariant of the search loop (algorithms.py:207-236).

  /** Every state a route from `seed` can end in: the seed, or the arrival of a stored edge. */
  ghost function States(g: Adjacency, seed: Stop): set<Stop>
  {
    {seed} + set u, e | u in g && e in g[u] :: Arrival(e)
  }

  /** How many states have not been expanded yet: the measure that bounds the search. */
  ghost function Unexpanded(g: Adjacency, seed: Stop, seen: set<Stop>): nat
  {
    |States(g, seed) - seen|
  }

  /** The end of a route is one of the `States`. */
  lemma RouteEndsInStates(g: Adjacency, seed: Stop, hops: seq<Edge>)
    requires IsRoute(g, seed, hops)
    ensures End(seed, hops) in States(g, seed)
  {
    if hops != [] {
      var front := hops[..|hops| - 1];
      var e := hops[|hops| - 1];
      var p := End(seed, front).place;
      assert e in Exits(g, p);
      assert p.Station? && p.node in g && e in g[p.node];
    }
  }

  /** `q` is the entry of some route from `seed`. */
  ghost predicate Traced(g: Adjacency, seed: Stop, q: Entry)
  {
    exists hops :: IsRoute(g, seed, hops) && q == EntryOf(seed, hops)
  }

  /** Some entry of the queue ends in `y` with a key no later than `c`. */
  ghost predicate Waiting(queue: seq<Entry>, y: Stop, c: Rank)
  {
    exists q :: q in queue && q.path != [] && LastStop(q) == y && NoLater(RankOf(q), c)
  }

  /** Some entry of the queue ends outside `seen` with a key no later than `c`. */
  ghost predicate Open(queue: seq<Entry>, seen: set<Stop>, c: Rank)
  {
    exists q :: q in queue && q.path != [] && LastStop(q) !in seen && NoLater(RankOf(q), c)
  }

  /** Every expanded state was expanded with the key of a first route to it in the heap order. */
  ghost predicate Settled(g: Adjacency, seed: Stop, seen: set<Stop>, best: map<Stop, Rank>)
  {
    && best.Keys == seen
    && forall hops :: IsRoute(g, seed, hops) && End(seed, hops) in best ==>
         NoLater(best[End(seed, hops)], RouteRank(seed, hops))
  }

  /** Every hop out of an expanded state into an unexpanded one waits in the queue no later than its key. */
  ghost predicate Relaxed(g: Adjacency, queue: seq<Entry>, seen: set<Stop>, best: map<Stop, Rank>)
  {
    forall x, e :: x in best && e in Exits(g, x.place) && Arrival(e) !in seen ==>
      Waiting(queue, Arrival(e), Step(best[x], x.service, e))
  }

  /** The loop invariant. */
  ghost predicate Exploring(g: Adjacency, seed: Stop, target: Node, queue: seq<Entry>, seen: set<Stop>,
                            best: map<Stop, Rank>)
  {
    && (forall q :: q in queue ==> Traced(g, seed, q))
    && Settled(g, seed, seen, best)
    && Relaxed(g, queue, seen, best)
    && (seed !in seen ==> Waiting(queue, seed, Rank(0.0, 0.0, 0)))
    && (forall x :: x in seen ==> x.place != Station(target))
    && seen <= States(g, seed)
  }

  /** Before the first pop: the seed entry alone, nothing seen. */
  lemma ExploringStart(g: Adjacency, seed: Stop, target: Node)
    ensures Exploring(g, seed, target, [Entry(0.0, 0.0, 0, [seed])], {}, map[])
  {
    assert Entry(0.0, 0.0, 0, [seed]) == EntryOf(seed, []);
  }

  /** The route of a traced entry ends in the entry's last pair. */
  lemma TracedEnd(g: Adjacency, seed: Stop, q: Entry) returns (hops: seq<Edge>)
    requires Traced(g, seed, q)
    ensures IsRoute(g, seed, hops) && q == EntryOf(seed, hops) && q.path != [] && LastStop(q) == End(seed, hops)
  {
    hops :| IsRoute(g, seed, hops) && q == EntryOf(seed, hops);
  }

  /**
   * The frontier argument: every route from the seed either ends in an
   * expanded state, or is matched by a queue entry outside `seen` whose key
   * comes no later.
   */
  lemma {:induction false} Frontier(g: Adjacency, seed: Stop, queue: seq<Entry>, seen: set<Stop>,
                                    best: map<Stop, Rank>, hops: seq<Edge>)
    requires NonNegative(g) && Settled(g, seed, seen, best) && Relaxed(g, queue, seen, best)
    requires seed !in seen ==> Waiting(queue, seed, Rank(0.0, 0.0, 0))
    requires IsRoute(g, seed, hops)
    ensures End(seed, hops) in seen || Open(queue, seen, RouteRank(seed, hops))
    decreases |hops|
  {
    if hops == [] {
      if seed !in seen {
        var q :| q in queue && q.path != [] && LastStop(q) == seed && NoLater(RankOf(q), Rank(0.0, 0.0, 0));
        assert RouteRank(seed, hops) == Rank(0.0, 0.0, 0);
      }
    } else {
      var front := hops[..|hops| - 1];
      var e := hops[|hops| - 1];
      var x := End(seed, front);
      assert hops == front + [e];
      Frontier(g, seed, queue, seen, best, front);
      RouteRankStep(seed, front, e);
      assert e in Exits(g, x.place);
      StepGrows(RouteRank(seed, front), x.service, e);
      if x in seen {
        if Arrival(e) !in seen {
          StepKeepsOrder(best[x], RouteRank(seed, front), x.service, e);
          var q :| q in queue && q.path != [] && LastStop(q) == Arrival(e) && NoLater(RankOf(q), Step(best[x], x.service, e));
          NoLaterTrans(RankOf(q), Step(best[x], x.service, e), RouteRank(seed, hops));
        }
      } else {
        var q :| q in queue && q.path != [] && LastStop(q) !in seen && NoLater(RankOf(q), RouteRank(seed, front));
        NoLaterTrans(RankOf(q), RouteRank(seed, front), RouteRank(seed, hops));
      }
    }
  }

  /** An entry other than the one removed is still in the queue. */
  lemma RemoveKeeps(queue: seq<Entry>, m: nat, q: Entry)
    requires m < |queue| && q in queue && q != queue[m]
    ensures q in queue[..m] + queue[m + 1..]
  {
    var i :| 0 <= i < |queue| && queue[i] == q;
    if i < m {
      assert (queue[..m] + queue[m + 1..])[i] == q;
    } else {
      assert (queue[..m] + queue[m + 1..])[i - 1] == q;
    }
  }

  /** The queue after pushing one entry per edge of `edges`, extending `top`, onto `rest`. */
  ghost predicate Pushed(rest: seq<Entry>, queue: seq<Entry>, top: Entry, edges: seq<Edge>)
    requires top.path != []
  {
    && |queue| == |rest| + |edges| && queue[..|rest|] == rest
    && forall k :: 0 <= k < |edges| ==> queue[|rest| + k] == Extend(top, edges[k])
  }

  /** Pushing the entry for one more edge extends `Pushed` by that edge. */
  lemma PushedStep(rest: seq<Entry>, queue: seq<Entry>, top: Entry, edges: seq<Edge>, i: nat)
    requires top.path != [] && i < |edges| && Pushed(rest, queue, top, edges[..i])
    ensures Pushed(rest, queue + [Extend(top, edges[i])], top, edges[..i + 1])
  {
    var longer := queue + [Extend(top, edges[i])];
    assert longer[..|rest|] == queue[..|rest|];
    assert forall k :: 0 <= k < i ==> edges[..i + 1][k] == edges[..i][k];
  }

  /** What the loop pops: no entry comes before the entry at `m` in the heap order. */
  ghost predicate Popped(queue: seq<Entry>, m: nat)
  {
    m < |queue| && queue[m].path != [] && forall i :: 0 <= i < |queue| ==> NoLater(RankOf(queue[m]), RankOf(queue[i]))
  }

  /** The popped state arrives at the target: the popped route is a first route there in the heap order. */
  lemma Arrived(g: Adjacency, seed: Stop, target: Node, queue: seq<Entry>, seen: set<Stop>,
                best: map<Stop, Rank>, m: nat, r: Outcome)
    requires NonNegative(g) && Exploring(g, seed, target, queue, seen, best) && Popped(queue, m)
    requires LastStop(queue[m]).place == Station(target) && r == Found(queue[m].distance, queue[m].path)
    ensures Answers(g, seed, target, r)
  {
    assert queue[m] in queue;
    var hops := TracedEnd(g, seed, queue[m]);
    forall other | IsRoute(g, seed, other) && End(seed, other).place == Station(target)
      ensures NoLater(RouteRank(seed, hops), RouteRank(seed, other))
    {
      Frontier(g, seed, queue, seen, best, other);
      var q :| q in queue && q.path != [] && LastStop(q) !in seen && NoLater(RankOf(q), RouteRank(seed, other));
      var i :| 0 <= i < |queue| && queue[i] == q;
      NoLaterTrans(RankOf(queue[m]), RankOf(q), RouteRank(seed, other));
    }
  }

  /** The queue ran dry: the target cannot be reached. */
  lemma Exhausted(g: Adjacency, seed: Stop, target: Node, seen: set<Stop>, best: map<Stop, Rank>, r: Outcome)
    requires NonNegative(g) && Exploring(g, seed, target, [], seen, best) && r == NotFound
    ensures Answers(g, seed, target, r)
  {
    forall hops | IsRoute(g, seed, hops)
      ensures End(seed, hops).place != Station(target)
    {
      Frontier(g, seed, [], seen, best, hops);
    }
  }

  /** The popped state was expanded before: dropping the entry keeps the invariant. */
  lemma Skipped(g: Adjacency, seed: Stop, target: Node, queue: seq<Entry>, seen: set<Stop>,
                best: map<Stop, Rank>, m: nat)
    requires Exploring(g, seed, target, queue, seen, best) && Popped(queue, m) && LastStop(queue[m]) in seen
    ensures Exploring(g, seed, target, queue[..m] + queue[m + 1..], seen, best)
  {
    var rest := queue[..m] + queue[m + 1..];
    forall q | q in rest ensures q in queue {
      var i :| 0 <= i < |rest| && rest[i] == q;
      if i < m { assert q == queue[i]; } else { assert q == queue[i + 1]; }
    }
    forall x, e | x in best && e in Exits(g, x.place) && Arrival(e) !in seen
      ensures Waiting(rest, Arrival(e), Step(best[x], x.service, e))
    {
      var q :| q in queue && q.path != [] && LastStop(q) == Arrival(e) && NoLater(RankOf(q), Step(best[x], x.service, e));
      RemoveKeeps(queue, m, q);
    }
    if seed !in seen {
      var q :| q in queue && q.path != [] && LastStop(q) == seed && NoLater(RankOf(q), Rank(0.0, 0.0, 0));
      RemoveKeeps(queue, m, q);
    }
  }

  /** The popped state is new and not the target: expanding it keeps the invariant. */
  lemma Expanded(g: Adjacency, seed: Stop, target: Node, queue: seq<Entry>, seen: set<Stop>,
                 best: map<Stop, Rank>, m: nat, edges: seq<Edge>, next: seq<Entry>)
    requires NonNegative(g) && Exploring(g, seed, target, queue, seen, best) && Popped(queue, m)
    requires LastStop(queue[m]) !in seen && LastStop(queue[m]).place != Station(target)
    requires edges == Exits(g, LastStop(queue[m]).place)
    requires Pushed(queue[..m] + queue[m + 1..], next, queue[m], edges)
    ensures Exploring(g, seed, target, next, seen + {LastStop(queue[m])}, best[LastStop(queue[m]) := RankOf(queue[m])])
  {
    var top, x := queue[m], LastStop(queue[m]);
    var rest := queue[..m] + queue[m + 1..];
    assert top in queue;
    var route := TracedEnd(g, seed, top);
    ExpandedTraced(g, seed, queue, m, route, edges, next);
    ExpandedSettled(g, seed, target, queue, seen, best, m);
    ExpandedRelaxed(g, seed, target, queue, seen, best, m, edges, next);
    if seed !in seen + {x} {
      var q :| q in queue && q.path != [] && LastStop(q) == seed && NoLater(RankOf(q), Rank(0.0, 0.0, 0));
      RemoveKeeps(queue, m, q);
      assert q in next by {
        var i :| 0 <= i < |rest| && rest[i] == q;
        assert next[i] == q;
      }
    }
    RouteEndsInStates(g, seed, route);
  }

  /** After an expansion every entry of the queue is still the entry of a route. */
  lemma ExpandedTraced(g: Adjacency, seed: Stop, queue: seq<Entry>, m: nat, route: seq<Edge>,
                       edges: seq<Edge>, next: seq<Entry>)
    requires forall q :: q in queue ==> Traced(g, seed, q)
    requires Popped(queue, m) && IsRoute(g, seed, route) && queue[m] == EntryOf(seed, route)
    requires LastStop(queue[m]) == End(seed, route) && edges == Exits(g, End(seed, route).place)
    requires Pushed(queue[..m] + queue[m + 1..], next, queue[m], edges)
    ensures forall q :: q in next ==> Traced(g, seed, q)
  {
    var rest := queue[..m] + queue[m + 1..];
    forall q | q in next ensures Traced(g, seed, q) {
      var j :| 0 <= j < |next| && next[j] == q;
      if j < |rest| {
        RestTraced(g, seed, queue, m, rest, next, j);
      } else {
        var k := j - |rest|;
        assert q == next[|rest| + k] == Extend(queue[m], edges[k]);
        PushTraced(g, seed, queue[m], route, edges[k]);
      }
    }
  }

  /** An entry kept from before the pop is still traced. */
  lemma RestTraced(g: Adjacency, seed: Stop, queue: seq<Entry>, m: nat, rest: seq<Entry>, next: seq<Entry>, j: nat)
    requires forall q :: q in queue ==> Traced(g, seed, q)
    requires m < |queue| && rest == queue[..m] + queue[m + 1..]
    requires j < |rest| <= |next| && next[..|rest|] == rest
    ensures Traced(g, seed, next[j])
  {
    assert next[j] == next[..|rest|][j] == rest[j];
    if j < m { assert rest[j] == queue[j]; } else { assert rest[j] == queue[j + 1]; }
  }

  /** The entry pushed for an exit of a traced entry's state is traced. */
  lemma PushTraced(g: Adjacency, seed: Stop, top: Entry, route: seq<Edge>, e: Edge)
    requires IsRoute(g, seed, route) && top == EntryOf(seed, route) && top.path != []
    requires e in Exits(g, End(seed, route).place)
    ensures Traced(g, seed, Extend(top, e))
  {
    RouteExtend(g, seed, route, e);
    ExtendEntry(seed, route, e);
  }

  /** After an expansion the new state's key is that of a first route to it in the heap order. */
  lemma ExpandedSettled(g: Adjacency, seed: Stop, target: Node, queue: seq<Entry>, seen: set<Stop>,
                        best: map<Stop, Rank>, m: nat)
    requires NonNegative(g) && Exploring(g, seed, target, queue, seen, best) && Popped(queue, m)
    requires LastStop(queue[m]) !in seen
    ensures Settled(g, seed, seen + {LastStop(queue[m])}, best[LastStop(queue[m]) := RankOf(queue[m])])
  {
    var x := LastStop(queue[m]);
    forall hops | IsRoute(g, seed, hops) && End(seed, hops) == x
      ensures NoLater(RankOf(queue[m]), RouteRank(seed, hops))
    {
      Frontier(g, seed, queue, seen, best, hops);
      var q :| q in queue && q.path != [] && LastStop(q) !in seen && NoLater(RankOf(q), RouteRank(seed, hops));
      var i :| 0 <= i < |queue| && queue[i] == q;
      NoLaterTrans(RankOf(queue[m]), RankOf(q), RouteRank(seed, hops));
    }
  }

  /** After an expansion every hop out of an expanded state still waits in the queue. */
  lemma ExpandedRelaxed(g: Adjacency, seed: Stop, target: Node, queue: seq<Entry>, seen: set<Stop>,
                        best: map<Stop, Rank>, m: nat, edges: seq<Edge>, next: seq<Entry>)
    requires Relaxed(g, queue, seen, best) && best.Keys == seen && Popped(queue, m)
    requires LastStop(queue[m]) !in seen && edges == Exits(g, LastStop(queue[m]).place)
    requires Pushed(queue[..m] + queue[m + 1..], next, queue[m], edges)
    ensures Relaxed(g, next, seen + {LastStop(queue[m])}, best[LastStop(queue[m]) := RankOf(queue[m])])
  {
    var top, x := queue[m], LastStop(queue[m]);
    var rest := queue[..m] + queue[m + 1..];
    var seen2, best2 := seen + {x}, best[x := RankOf(top)];
    forall z, e | z in best2 && e in Exits(g, z.place) && Arrival(e) !in seen2
      ensures Waiting(next, Arrival(e), Step(best2[z], z.service, e))
    {
      if z == x {
        var k :| 0 <= k < |edges| && edges[k] == e;
        var q := next[|rest| + k];
        assert q == Extend(top, e);
        ExtendRank(top, e);
        assert q in next && LastStop(q) == Arrival(e);
      } else {
        var q :| q in queue && q.path != [] && LastStop(q) == Arrival(e) && NoLater(RankOf(q), Step(best[z], z.service, e));
        RemoveKeeps(queue, m, q);
        var i :| 0 <= i < |rest| && rest[i] == q;
        assert next[..|rest|][i] == q;
      }
    }
  }

  /** Every queued entry has a non-empty path. */
  lemma TracedPaths(g: Adjacency, seed: Stop, queue: seq<Entry>)
    requires forall q :: q in queue ==> Traced(g, seed, q)
    ensures forall q :: q in queue ==> q.path != []
  {
    forall q | q in queue ensures q.path != [] {
      var hops := TracedEnd(g, seed, q);
    }
  }

  /** The state of a traced entry is one of the `States`, so expanding it leaves fewer unexpanded. */
  lemma ExpandedStates(g: Adjacency, seed: Stop, q: Entry, seen: set<Stop>)
    requires Traced(g, seed, q) && LastStop(q) !in seen
    ensures Unexpanded(g, seed, seen + {LastStop(q)}) < Unexpanded(g, seed, seen)
  {
    var hops := TracedEnd(g, seed, q);
    RouteEndsInStates(g, seed, hops);
    assert States(g, seed) - (seen + {LastStop(q)}) == (States(g, seed) - seen) - {LastStop(q)};
  }

  /** The entry `heappop` chooses is what the loop pops. */
  lemma LowestIsPopped(queue: seq<Entry>)
    requires queue != [] && forall q :: q in queue ==> q.path != []
    ensures Popped(queue, Lowest(queue))
  {
    var m := Lowest(queue);
    assert queue[m] in queue;
  }

  /** An identifier seed, the seed as written, finds nothing even where a node seed finds a route. */
  lemma CodeSeedMissesRoute()
    ensures var a := Node("A", "", "", 0.0, 0.0, "Bus Stop");
      var b := Node("B", "", "", 0.0, 0.0, "Bus Stop");
      var g := map[a := [Edge(Some(a), b, 1.0, Some("2"), Some("Bus"))]];
      Reaches(g, Stop(Station(a), None), b) && !Reaches(g, Stop(Code(a.id), None), b)
  {
    var a := Node("A", "", "", 0.0, 0.0, "Bus Stop");
    var b := Node("B", "", "", 0.0, 0.0, "Bus Stop");
    var e := Edge(Some(a), b, 1.0, Some("2"), Some("Bus"));
    var g := map[a := [e]];
    RouteExtend(g, Stop(Station(a), None), [], e);
    assert [] + [e] == [e];
    assert End(Stop(Station(a), None), [e]).place == Station(b);
    forall hops | IsRoute(g, Stop(Code(a.id), None), hops)
      ensures End(Stop(Code(a.id), None), hops).place != Station(b)
    {
      CodeSeedStays(g, Stop(Code(a.id), None), hops);
    }
  }
}
