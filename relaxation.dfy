/**
 * The linear-relaxation shortest-path search. `Graph.getPath` (objects.py)
 * and the `DijkstraNoPQ` constructor (algorithms.py) run the same loop:
 * keep `paths`, a map from each discovered node to its best incoming edge,
 * seeded with a zero-length synthetic edge at the start, and a `seen` set;
 * each round settles the current node, relaxes its outgoing edges, and picks
 * the open node with the smallest cumulative distance by a linear scan.
 *
 * The program writes each cumulative distance into the `distance` field of
 * the edge object it stores in `paths`. Here `paths` holds a copy of the
 * stored edge whose `distance` is that cumulative label; the graph's own
 * edges keep their weights.
 */
module Relaxation {
  import opened Values
  import opened Routes

  /** Every node a search from `s` can discover: `s` and every edge destination. */
  ghost function Universe(g: Adjacency, s: Node): set<Node>
  {
    {s} + set u, e | u in g && e in g[u] :: e.destination
  }

  /** `order` lists the keys of `paths` once each: the dictionary's iteration order. */
  ghost predicate KeyOrder(paths: map<Node, Edge>, order: seq<Node>)
  {
    && (forall i, j :: 0 <= i < j < |order| ==> order[i] != order[j])
    && (forall v :: v in paths <==> v in order)
  }

  /** The search's `paths` dictionary together with the insertion order of its keys. */
  datatype Table = Table(paths: map<Node, Edge>, order: seq<Node>)

  /** The table a search from `s` starts with: the synthetic edge at `s` only. */
  function Start(s: Node): Table
  {
    Table(map[s := Synthetic(s)], [s])
  }

  /** `e` carrying the cumulative label `base + e.distance` instead of its weight. */
  function Relabel(e: Edge, base: real): Edge
  {
    e.(distance := base + e.distance)
  }

  /**
   * One offer of a relaxation round (objects.py:285-294): an undiscovered
   * destination takes the relabelled edge and joins the key order; a
   * discovered one takes it only when that is strictly shorter.
   */
  function Offer(tab: Table, base: real, e: Edge): Table
  {
    var d := e.destination;
    if d !in tab.paths then Table(tab.paths[d := Relabel(e, base)], tab.order + [d])
    else if tab.paths[d].distance > base + e.distance then Table(tab.paths[d := Relabel(e, base)], tab.order)
    else tab
  }

  /** The offers of `edges`, made in list order from a node labelled `base`. */
  function OfferAll(tab: Table, base: real, edges: seq<Edge>): Table
  {
    if edges == [] then tab
    else Offer(OfferAll(tab, base, edges[..|edges| - 1]), base, edges[|edges| - 1])
  }

  /**
   * One relaxation round (objects.py:283-294, algorithms.py:98-108): the
   * edges leaving `current` are offered one by one, each reading the label
   * of `current` afresh, which no offer changes.
   */
  method RelaxEdges(g: Adjacency, current: Node, tab0: Table) returns (tab: Table)
    requires NonNegative(g) && current in tab0.paths
    ensures tab == OfferAll(tab0, tab0.paths[current].distance, Out(g, current))
  {
    tab := tab0;
    var edges := Out(g, current);
    ghost var base := tab0.paths[current].distance;
    var i := 0;
    while i < |edges|
      invariant 0 <= i <= |edges|
      invariant tab == OfferAll(tab0, base, edges[..i])
      invariant current in tab.paths && tab.paths[current] == tab0.paths[current]
    {
      var edge := edges[i];
      assert edge in g[current];
      var currDistance := edge.distance + tab.paths[current].distance;
      if edge.destination !in tab.paths {
        tab := Table(tab.paths[edge.destination := edge.(distance := currDistance)], tab.order + [edge.destination]);
      } else if tab.paths[edge.destination].distance > currDistance {
        tab := tab.(paths := tab.paths[edge.destination := edge.(distance := currDistance)]);
      }
      assert edges[..i + 1][..i] == edges[..i];
      i := i + 1;
    }
    assert edges[..|edges|] == edges;
  }

  /** A relaxation round appends its new keys to the key order and keeps it duplicate-free. */
  lemma {:induction false} OfferAllKeyOrder(tab: Table, base: real, edges: seq<Edge>)
    requires KeyOrder(tab.paths, tab.order)
    ensures var r := OfferAll(tab, base, edges);
      KeyOrder(r.paths, r.order) && |tab.order| <= |r.order| && r.order[..|tab.order|] == tab.order
  {
    if edges != [] {
      var mid := OfferAll(tab, base, edges[..|edges| - 1]);
      OfferAllKeyOrder(tab, base, edges[..|edges| - 1]);
      var r := Offer(mid, base, edges[|edges| - 1]);
      assert r.order[..|mid.order|] == mid.order;
      assert r.order[..|tab.order|] == mid.order[..|tab.order|];
    }
  }

  /** No label ever grows, and a label that changes strictly shrinks: ties keep the earlier edge. */
  lemma {:induction false} OfferAllImproves(tab: Table, base: real, edges: seq<Edge>)
    ensures var r := OfferAll(tab, base, edges);
      forall v :: v in tab.paths ==>
        && v in r.paths && r.paths[v].distance <= tab.paths[v].distance
        && (r.paths[v] != tab.paths[v] ==> r.paths[v].distance < tab.paths[v].distance)
  {
    if edges != [] {
      OfferAllImproves(tab, base, edges[..|edges| - 1]);
    }
  }

  /** `entry` is one of `edges` relabelled from `base`. */
  ghost predicate OfferedBy(edges: seq<Edge>, base: real, entry: Edge)
  {
    exists e :: e in edges && entry == Relabel(e, base)
  }

  /** Every entry a relaxation round adds or replaces is one of its edges, relabelled. */
  lemma {:induction false} OfferAllFromEdges(tab: Table, base: real, edges: seq<Edge>)
    ensures var r := OfferAll(tab, base, edges);
      forall v :: v in r.paths && !(v in tab.paths && r.paths[v] == tab.paths[v]) ==>
        r.paths[v].destination == v && OfferedBy(edges, base, r.paths[v])
  {
    if edges != [] {
      var front := edges[..|edges| - 1];
      var last := edges[|edges| - 1];
      var mid := OfferAll(tab, base, front);
      OfferAllFromEdges(tab, base, front);
      var r := Offer(mid, base, last);
      forall v | v in r.paths && !(v in tab.paths && r.paths[v] == tab.paths[v])
        ensures r.paths[v].destination == v && OfferedBy(edges, base, r.paths[v])
      {
        if v in mid.paths && r.paths[v] == mid.paths[v] {
          var e :| e in front && mid.paths[v] == Relabel(e, base);
          assert e in edges;
        } else {
          assert r.paths[v] == Relabel(last, base);
        }
      }
    }
  }

  /** After a relaxation round every destination of its edges is at most that edge's offer. */
  lemma {:induction false} OfferAllCovers(tab: Table, base: real, edges: seq<Edge>)
    ensures var r := OfferAll(tab, base, edges);
      forall e :: e in edges ==> e.destination in r.paths && r.paths[e.destination].distance <= base + e.distance
  {
    if edges != [] {
      var front := edges[..|edges| - 1];
      var last := edges[|edges| - 1];
      var mid := OfferAll(tab, base, front);
      OfferAllCovers(tab, base, front);
      forall e | e in edges
        ensures e.destination in OfferAll(tab, base, edges).paths
        ensures OfferAll(tab, base, edges).paths[e.destination].distance <= base + e.distance
      {
        if e != last {
          var k :| 0 <= k < |edges| && edges[k] == e;
          assert e in front;
        }
      }
    }
  }

  /** With non-negative weights, entries labelled at most `base` are left alone. */
  lemma {:induction false} OfferAllSparesShort(tab: Table, base: real, edges: seq<Edge>)
    requires forall e :: e in edges ==> e.distance >= 0.0
    ensures var r := OfferAll(tab, base, edges);
      forall v :: v in tab.paths && tab.paths[v].distance <= base ==> v in r.paths && r.paths[v] == tab.paths[v]
  {
    if edges != [] {
      var front := edges[..|edges| - 1];
      assert forall e :: e in front ==> e in edges;
      OfferAllSparesShort(tab, base, front);
      assert edges[|edges| - 1] in edges;
    }
  }

  /**
   * The entry for `v` ends at `v`, leaves a discovered node, and is a stored
   * edge whose distance has been replaced by its cumulative label.
   */
  ghost predicate Backlink(g: Adjacency, paths: map<Node, Edge>, v: Node)
    requires v in paths
  {
    var e := paths[v];
    && e.destination == v
    && e.source.Some?
    && e.source.value in paths
    && Stored(g, e.(distance := e.distance - paths[e.source.value].distance))
  }

  /**
   * The finished back-pointer structure: the start holds the synthetic edge,
   * and `rank` falls along every other back-pointer, so walking them from any
   * key ends at the start.
   */
  ghost predicate Rooted(g: Adjacency, s: Node, paths: map<Node, Edge>, rank: map<Node, nat>)
  {
    && s in paths
    && paths[s] == Synthetic(s)
    && rank.Keys == paths.Keys
    && forall v :: v in paths && v != s ==>
         Backlink(g, paths, v) && rank[paths[v].source.value] < rank[v]
  }

  /** Walking back-pointers from a key of a rooted map spells out a chain of its label. */
  lemma {:induction false} RootedChain(g: Adjacency, s: Node, paths: map<Node, Edge>, rank: map<Node, nat>, v: Node)
    returns (p: seq<Edge>)
    requires Rooted(g, s, paths, rank) && v in paths
    ensures IsChain(g, s, v, p) && Weight(p) == paths[v].distance
    decreases rank[v]
  {
    if v == s {
      p := [];
    } else {
      var u := paths[v].source.value;
      var q := RootedChain(g, s, paths, rank, u);
      var e := paths[v].(distance := paths[v].distance - paths[u].distance);
      ChainExtend(g, s, u, q, e);
      p := q + [e];
      assert p[..|p| - 1] == q;
    }
  }

  /**
   * `a` leaves the node `b` enters, and taking `b`'s label off `a`'s gives
   * back a stored edge: consecutive entries of a labelled path.
   */
  ghost predicate Link(g: Adjacency, a: Edge, b: Edge)
  {
    a.source == Some(b.destination) && Stored(g, a.(distance := a.distance - b.distance))
  }

  /** What the entry of a key of a rooted map tells: only the start's entry has no source. */
  lemma RootedEntry(g: Adjacency, s: Node, paths: map<Node, Edge>, rank: map<Node, nat>, v: Node)
    requires Rooted(g, s, paths, rank) && v in paths
    ensures paths[v].destination == v
    ensures paths[v].source.None? ==> v == s && paths[v] == Synthetic(s)
    ensures paths[v].source.Some? ==>
              && paths[v].source.value in paths
              && Link(g, paths[v], paths[paths[v].source.value])
              && rank[paths[v].source.value] < rank[v]
  {
  }

  /** `path` is a run of entries of `paths`, each linked to the next. */
  ghost predicate Trail(g: Adjacency, paths: map<Node, Edge>, path: seq<Edge>)
  {
    && (forall i :: 0 <= i < |path| ==> path[i].destination in paths && path[i] == paths[path[i].destination])
    && (forall i :: 0 <= i < |path| - 1 ==> Link(g, path[i], path[i + 1]))
  }

  /** An entry linked to the last one of a trail extends it. */
  lemma TrailExtend(g: Adjacency, paths: map<Node, Edge>, path: seq<Edge>, x: Edge)
    requires Trail(g, paths, path) && path != [] && Link(g, path[|path| - 1], x)
    requires x.destination in paths && x == paths[x.destination]
    ensures Trail(g, paths, path + [x])
  {
    var q := path + [x];
    forall i | 0 <= i < |q| - 1 ensures Link(g, q[i], q[i + 1]) {
      if i < |path| - 1 {
        assert q[i] == path[i] && q[i + 1] == path[i + 1];
      }
    }
  }

  /**
   * Path reconstruction (objects.py:303-308, algorithms.py:119-123): from `t`,
   * append the entry of the current node and move to its source until the
   * synthetic edge, whose source is `None`, has been appended.
   */
  method Backtrack(ghost g: Adjacency, ghost s: Node, paths: map<Node, Edge>, t: Node, ghost rank: map<Node, nat>)
    returns (path: seq<Edge>)
    requires Rooted(g, s, paths, rank) && t in paths
    ensures LabelledRoute(g, s, path) && path[0] == paths[t]
  {
    path := [];
    var current: Option<Node> := Some(t);
    while current.Some?
      invariant current.Some? ==> current.value in paths
      invariant path == [] ==> current == Some(t)
      invariant path != [] ==> path[0] == paths[t] && current == path[|path| - 1].source
      invariant Trail(g, paths, path)
      decreases if current.Some? then rank[current.value] + 1 else 0
    {
      var v := current.value;
      RootedEntry(g, s, paths, rank, v);
      if path != [] {
        RootedEntry(g, s, paths, rank, path[|path| - 1].destination);
        TrailExtend(g, paths, path, paths[v]);
      }
      path := path + [paths[v]];
      current := paths[v].source;
    }
    RootedEntry(g, s, paths, rank, path[|path| - 1].destination);
  }

  /**
   * `min(next_edges, key=...)` (objects.py:296-301): the first open key, in
   * insertion order, whose label is smallest; `None` when every key is seen.
   */
  method SelectMin(paths: map<Node, Edge>, order: seq<Node>, seen: set<Node>) returns (next: Option<Node>)
    requires forall v :: v in paths <==> v in order
    ensures next.None? <==> forall v :: v in paths ==> v in seen
    ensures next.Some? ==> next.value in paths && next.value !in seen
    ensures next.Some? ==> forall v :: v in paths && v !in seen ==> paths[next.value].distance <= paths[v].distance
    ensures next.Some? ==>
              exists k :: 0 <= k < |order| && order[k] == next.value &&
                (forall j :: 0 <= j < k && order[j] !in seen ==> paths[order[j]].distance > paths[next.value].distance)
  {
    next := None;
    ghost var at := 0;
    var k := 0;
    while k < |order|
      invariant 0 <= k <= |order|
      invariant next.None? <==> forall j :: 0 <= j < k ==> order[j] in seen
      invariant next.Some? ==> 0 <= at < k && order[at] == next.value && next.value !in seen && next.value in paths
      invariant next.Some? ==> forall j :: 0 <= j < k && order[j] !in seen ==> paths[next.value].distance <= paths[order[j]].distance
      invariant next.Some? ==> forall j :: 0 <= j < at && order[j] !in seen ==> paths[order[j]].distance > paths[next.value].distance
    {
      var v := order[k];
      if v !in seen && (next.None? || paths[v].distance < paths[next.value].distance) {
        next, at := Some(v), k;
      }
      k := k + 1;
    }
    if next.Some? {
      forall v | v in paths && v !in seen ensures paths[next.value].distance <= paths[v].distance {
        var j :| 0 <= j < |order| && order[j] == v;
      }
    }
  }

  // ---------------------------------------------------------------------------
  // Loop invariants of the search and the lemmas that keep them.

  /** While searching, every entry but the start's leaves a settled node settled earlier. */
  ghost predicate Linked(g: Adjacency, s: Node, seen: set<Node>, paths: map<Node, Edge>,
                         seenRank: map<Node, nat>, count: nat)
  {
    && s in paths && paths[s] == Synthetic(s)
    && seenRank.Keys == seen && seen <= paths.Keys
    && (forall u :: u in seen ==> seenRank[u] < count)
    && forall v :: v in paths && v != s ==>
         && Backlink(g, paths, v)
         && paths[v].source.value in seen
         && (v in seen ==> seenRank[paths[v].source.value] < seenRank[v])
  }

  /** Every edge leaving a settled node has been offered to its destination. */
  ghost predicate Relaxed(g: Adjacency, seen: set<Node>, paths: map<Node, Edge>)
  {
    forall u, e :: u in seen && e in Out(g, u) ==>
      u in paths && e.destination in paths && paths[e.destination].distance <= paths[u].distance + e.distance
  }

  /** No chain to a settled node weighs less than its label. */
  ghost predicate Settled(g: Adjacency, s: Node, seen: set<Node>, paths: map<Node, Edge>)
  {
    forall u, p :: u in seen && u in paths && IsChain(g, s, u, p) ==> paths[u].distance <= Weight(p)
  }

  /** Settled labels are no larger than open ones. */
  ghost predicate Layered(seen: set<Node>, paths: map<Node, Edge>)
  {
    forall u, v :: u in seen && u in paths && v in paths && v !in seen ==> paths[u].distance <= paths[v].distance
  }

  /** `current` is open and carries the smallest open label. */
  ghost predicate Least(seen: set<Node>, paths: map<Node, Edge>, current: Node)
  {
    && current in paths && current !in seen
    && forall v :: v in paths && v !in seen ==> paths[current].distance <= paths[v].distance
  }

  /** The state between two rounds: `t` is not settled, and only edge destinations were discovered. */
  ghost predicate Between(g: Adjacency, s: Node, t: Node, seen: set<Node>, tab: Table,
                          seenRank: map<Node, nat>, count: nat)
  {
    && Linked(g, s, seen, tab.paths, seenRank, count)
    && KeyOrder(tab.paths, tab.order)
    && Relaxed(g, seen, tab.paths) && Settled(g, s, seen, tab.paths) && Layered(seen, tab.paths)
    && t !in seen
    && tab.paths.Keys <= Universe(g, s)
  }

  /**
   * The invariant at the head of the search loop: `current` is the chosen
   * open minimum, and either nothing is settled yet and the search is at its
   * start, or the start was settled first.
   */
  ghost predicate Searching(g: Adjacency, s: Node, t: Node, seen: set<Node>, tab: Table, current: Node,
                            seenRank: map<Node, nat>, count: nat)
  {
    && Between(g, s, t, seen, tab, seenRank, count)
    && Least(seen, tab.paths, current)
    && if seen == {} then tab == Start(s) && current == s else s in seen
  }

  /**
   * A chain from a settled start to an unsettled node passes through an open
   * discovered node whose label is at most the chain's weight.
   */
  lemma {:induction false} FrontierBound(g: Adjacency, s: Node, seen: set<Node>, paths: map<Node, Edge>, t: Node, p: seq<Edge>)
    returns (v: Node)
    requires NonNegative(g) && seen <= paths.Keys
    requires Relaxed(g, seen, paths) && Settled(g, s, seen, paths)
    requires s in seen && t !in seen && IsChain(g, s, t, p)
    ensures v in paths && v !in seen && paths[v].distance <= Weight(p)
    decreases |p|
  {
    ChainPrefix(g, s, t, p);
    var e := p[|p| - 1];
    var q := p[..|p| - 1];
    var u := e.source.value;
    assert Stored(g, e) && e.distance >= 0.0;
    if u in seen {
      v := t;
    } else {
      v := FrontierBound(g, s, seen, paths, u, q);
    }
  }

  /** The open node with the least label has a label no chain to it undercuts. */
  lemma CurrentIsSettled(g: Adjacency, s: Node, t: Node, seen: set<Node>, tab: Table, current: Node,
                         seenRank: map<Node, nat>, count: nat)
    requires NonNegative(g) && Searching(g, s, t, seen, tab, current, seenRank, count)
    ensures current in tab.paths
    ensures forall p :: IsChain(g, s, current, p) ==> tab.paths[current].distance <= Weight(p)
  {
    forall p | IsChain(g, s, current, p) ensures tab.paths[current].distance <= Weight(p) {
      if s !in seen {
        WeightNonNegative(g, s, current, p);
      } else {
        var v := FrontierBound(g, s, seen, tab.paths, current, p);
      }
    }
  }

  /** An entry kept together with the entry of its source keeps its back-link. */
  lemma KeptBacklink(g: Adjacency, paths0: map<Node, Edge>, paths: map<Node, Edge>, v: Node)
    requires v in paths0 && Backlink(g, paths0, v)
    requires v in paths && paths[v] == paths0[v]
    requires paths0[v].source.value in paths && paths[paths0[v].source.value] == paths0[paths0[v].source.value]
    ensures Backlink(g, paths, v)
  {
  }

  /** An entry offered by an edge leaving `current` links back to `current`. */
  lemma OfferedBacklink(g: Adjacency, paths: map<Node, Edge>, current: Node, v: Node)
    requires WellFormed(g) && current in paths && v in paths && paths[v].destination == v
    requires OfferedBy(Out(g, current), paths[current].distance, paths[v])
    ensures Backlink(g, paths, v) && paths[v].source == Some(current)
  {
    var e :| e in Out(g, current) && paths[v] == Relabel(e, paths[current].distance);
    assert e in g[current] && e.source == Some(current);
    assert paths[v].(distance := paths[v].distance - paths[current].distance) == e;
  }

  /** After settling `current`, the entry of `v` still leaves a node settled before it. */
  lemma LinkedEntry(g: Adjacency, s: Node, seen: set<Node>, paths0: map<Node, Edge>, paths: map<Node, Edge>,
                    current: Node, seenRank: map<Node, nat>, count: nat, v: Node)
    requires WellFormed(g) && Linked(g, s, seen, paths0, seenRank, count)
    requires current in paths0 && current !in seen
    requires forall u :: u in seen + {current} ==> u in paths0 && u in paths && paths[u] == paths0[u]
    requires v in paths && v != s
    requires !(v in paths0 && paths[v] == paths0[v]) ==>
               paths[v].destination == v && OfferedBy(Out(g, current), paths0[current].distance, paths[v])
    ensures Backlink(g, paths, v) && paths[v].source.value in seen + {current}
    ensures v in seen + {current} ==> seenRank[current := count][paths[v].source.value] < seenRank[current := count][v]
  {
    if v in paths0 && paths[v] == paths0[v] {
      KeptBacklink(g, paths0, paths, v);
    } else {
      OfferedBacklink(g, paths, current, v);
    }
  }

  /** After settling `current`, every entry but the start's leaves a node settled before it. */
  lemma LinkedEntries(g: Adjacency, s: Node, seen: set<Node>, paths0: map<Node, Edge>, paths: map<Node, Edge>,
                      current: Node, seenRank: map<Node, nat>, count: nat)
    requires WellFormed(g) && Linked(g, s, seen, paths0, seenRank, count)
    requires current in paths0 && current !in seen
    requires forall u :: u in seen + {current} ==> u in paths0 && u in paths && paths[u] == paths0[u]
    requires forall v :: v in paths && !(v in paths0 && paths[v] == paths0[v]) ==>
               paths[v].destination == v && OfferedBy(Out(g, current), paths0[current].distance, paths[v])
    ensures forall v :: v in paths && v != s ==>
              && Backlink(g, paths, v)
              && paths[v].source.value in seen + {current}
              && (v in seen + {current} ==> seenRank[current := count][paths[v].source.value] < seenRank[current := count][v])
  {
    forall v | v in paths && v != s
      ensures Backlink(g, paths, v) && paths[v].source.value in seen + {current}
      ensures v in seen + {current} ==> seenRank[current := count][paths[v].source.value] < seenRank[current := count][v]
    {
      LinkedEntry(g, s, seen, paths0, paths, current, seenRank, count, v);
    }
  }

  /** Settling `current` keeps every entry leaving a settled node, settled before its target. */
  lemma LinkedStep(g: Adjacency, s: Node, seen: set<Node>, paths0: map<Node, Edge>, paths: map<Node, Edge>,
                   current: Node, seenRank: map<Node, nat>, count: nat)
    requires WellFormed(g) && Linked(g, s, seen, paths0, seenRank, count)
    requires current in paths0 && current !in seen && s in seen + {current}
    requires forall u :: u in seen + {current} ==> u in paths0 && u in paths && paths[u] == paths0[u]
    requires forall v :: v in paths && !(v in paths0 && paths[v] == paths0[v]) ==>
               paths[v].destination == v && OfferedBy(Out(g, current), paths0[current].distance, paths[v])
    ensures Linked(g, s, seen + {current}, paths, seenRank[current := count], count + 1)
  {
    LinkedEntries(g, s, seen, paths0, paths, current, seenRank, count);
    RankStep(seen, seenRank, current, count);
  }

  /** Settling `current` gives it the next rank, above every earlier one. */
  lemma RankStep(seen: set<Node>, seenRank: map<Node, nat>, current: Node, count: nat)
    requires seenRank.Keys == seen && forall u :: u in seen ==> seenRank[u] < count
    ensures seenRank[current := count].Keys == seen + {current}
    ensures forall u :: u in seen + {current} ==> seenRank[current := count][u] < count + 1
  {
  }

  /** After the round, every edge leaving a settled node, `current` included, has been offered. */
  lemma RelaxedStep(g: Adjacency, seen: set<Node>, paths0: map<Node, Edge>, paths: map<Node, Edge>, current: Node)
    requires Relaxed(g, seen, paths0) && current in paths0
    requires forall u :: u in seen + {current} ==> u in paths0 && u in paths && paths[u] == paths0[u]
    requires forall v :: v in paths0 ==> v in paths && paths[v].distance <= paths0[v].distance
    requires forall e :: e in Out(g, current) ==>
               e.destination in paths && paths[e.destination].distance <= paths0[current].distance + e.distance
    ensures Relaxed(g, seen + {current}, paths)
  {
  }

  /** `current` joins the settled nodes with its label; the others keep theirs. */
  lemma SettledStep(g: Adjacency, s: Node, seen: set<Node>, paths0: map<Node, Edge>, paths: map<Node, Edge>, current: Node)
    requires Settled(g, s, seen, paths0) && current in paths0
    requires forall p :: IsChain(g, s, current, p) ==> paths0[current].distance <= Weight(p)
    requires forall u :: u in seen + {current} ==> u in paths0 && u in paths && paths[u] == paths0[u]
    ensures Settled(g, s, seen + {current}, paths)
  {
  }

  /** The settled labels, `current`'s now among them, stay below every open label. */
  lemma LayeredStep(g: Adjacency, seen: set<Node>, paths0: map<Node, Edge>, paths: map<Node, Edge>, current: Node)
    requires NonNegative(g) && Layered(seen, paths0) && Least(seen, paths0, current)
    requires forall u :: u in seen + {current} ==> u in paths0 && u in paths && paths[u] == paths0[u]
    requires forall v :: v in paths && !(v in paths0 && paths[v] == paths0[v]) ==>
               OfferedBy(Out(g, current), paths0[current].distance, paths[v])
    ensures Layered(seen + {current}, paths)
  {
    forall u, v | u in seen + {current} && u in paths && v in paths && v !in seen + {current}
      ensures paths[u].distance <= paths[v].distance
    {
      if !(v in paths0 && paths[v] == paths0[v]) {
        var e :| e in Out(g, current) && paths[v] == Relabel(e, paths0[current].distance);
        assert e in g[current] && e.distance >= 0.0;
      }
    }
  }

  /** Only edge destinations are ever discovered. */
  lemma UniverseStep(g: Adjacency, s: Node, paths0: map<Node, Edge>, paths: map<Node, Edge>, current: Node)
    requires paths0.Keys <= Universe(g, s) && current in paths0
    requires forall v :: v in paths && !(v in paths0 && paths[v] == paths0[v]) ==>
               paths[v].destination == v && OfferedBy(Out(g, current), paths0[current].distance, paths[v])
    ensures paths.Keys <= Universe(g, s)
  {
    forall v | v in paths ensures v in Universe(g, s) {
      if !(v in paths0 && paths[v] == paths0[v]) {
        var e :| e in Out(g, current) && paths[v] == Relabel(e, paths0[current].distance);
        assert current in g && e in g[current];
      }
    }
  }

  /** The start state satisfies the invariants of a running search. */
  lemma StartInvariants(g: Adjacency, s: Node, t: Node)
    ensures Searching(g, s, t, {}, Start(s), s, map[], 0)
  {
  }

  /** Taking one more element of `U` out of the unsettled part shrinks it. */
  lemma Shrinks(U: set<Node>, seen: set<Node>, x: Node)
    requires x in U && x !in seen
    ensures |U - (seen + {x})| < |U - seen|
  {
    assert U - seen == (U - (seen + {x})) + {x};
  }

  /** What one relaxation round from `current`, labelled `base`, does to the entries of `paths0`. */
  lemma RoundFacts(g: Adjacency, tab0: Table, current: Node, tab: Table)
    requires NonNegative(g) && current in tab0.paths
    requires tab == OfferAll(tab0, tab0.paths[current].distance, Out(g, current))
    ensures KeyOrder(tab0.paths, tab0.order) ==> KeyOrder(tab.paths, tab.order)
    ensures forall v :: v in tab0.paths ==> v in tab.paths && tab.paths[v].distance <= tab0.paths[v].distance
    ensures forall v :: v in tab.paths && !(v in tab0.paths && tab.paths[v] == tab0.paths[v]) ==>
              tab.paths[v].destination == v && OfferedBy(Out(g, current), tab0.paths[current].distance, tab.paths[v])
    ensures forall e :: e in Out(g, current) ==>
              e.destination in tab.paths && tab.paths[e.destination].distance <= tab0.paths[current].distance + e.distance
    ensures forall v :: v in tab0.paths && tab0.paths[v].distance <= tab0.paths[current].distance ==>
              v in tab.paths && tab.paths[v] == tab0.paths[v]
  {
    var base := tab0.paths[current].distance;
    var edges := Out(g, current);
    assert forall e :: e in edges ==> e.distance >= 0.0 by {
      forall e | e in edges ensures e.distance >= 0.0 {
        assert current in g && e in g[current];
      }
    }
    if KeyOrder(tab0.paths, tab0.order) {
      OfferAllKeyOrder(tab0, base, edges);
    }
    OfferAllImproves(tab0, base, edges);
    OfferAllFromEdges(tab0, base, edges);
    OfferAllCovers(tab0, base, edges);
    OfferAllSparesShort(tab0, base, edges);
  }

  /** The settled nodes and `current` carry labels no larger than `current`'s, so the round spares them. */
  lemma SettledKept(seen: set<Node>, paths0: map<Node, Edge>, paths: map<Node, Edge>, current: Node)
    requires Layered(seen, paths0) && Least(seen, paths0, current) && seen <= paths0.Keys
    requires forall v :: v in paths0 && paths0[v].distance <= paths0[current].distance ==>
               v in paths && paths[v] == paths0[v]
    ensures forall u :: u in seen + {current} ==> u in paths0 && u in paths && paths[u] == paths0[u]
  {
    forall u | u in seen + {current} ensures u in paths0 && u in paths && paths[u] == paths0[u] {
      assert paths0[u].distance <= paths0[current].distance;
    }
  }

  /**
   * Settling `current` and relaxing its edges (objects.py:280-294) keeps the
   * back-pointer structure, the key order and the set of discoverable nodes.
   */
  lemma SettleLinks(g: Adjacency, s: Node, t: Node, seen: set<Node>, tab0: Table, current: Node,
                    seenRank: map<Node, nat>, count: nat, tab: Table)
    requires WellFormed(g) && NonNegative(g)
    requires Searching(g, s, t, seen, tab0, current, seenRank, count)
    requires tab == OfferAll(tab0, tab0.paths[current].distance, Out(g, current))
    ensures Linked(g, s, seen + {current}, tab.paths, seenRank[current := count], count + 1)
    ensures KeyOrder(tab.paths, tab.order) && tab.paths.Keys <= Universe(g, s)
    ensures current in Universe(g, s) && current !in seen
  {
    RoundFacts(g, tab0, current, tab);
    SettledKept(seen, tab0.paths, tab.paths, current);
    LinkedStep(g, s, seen, tab0.paths, tab.paths, current, seenRank, count);
    UniverseStep(g, s, tab0.paths, tab.paths, current);
  }

  /**
   * Settling `current` and relaxing its edges keeps every settled label
   * exact, every edge leaving a settled node offered, and settled labels
   * below open ones.
   */
  lemma SettleLabels(g: Adjacency, s: Node, t: Node, seen: set<Node>, tab0: Table, current: Node,
                     seenRank: map<Node, nat>, count: nat, tab: Table)
    requires WellFormed(g) && NonNegative(g)
    requires Searching(g, s, t, seen, tab0, current, seenRank, count)
    requires tab == OfferAll(tab0, tab0.paths[current].distance, Out(g, current))
    ensures Relaxed(g, seen + {current}, tab.paths)
    ensures Settled(g, s, seen + {current}, tab.paths)
    ensures Layered(seen + {current}, tab.paths)
  {
    RoundFacts(g, tab0, current, tab);
    SettledKept(seen, tab0.paths, tab.paths, current);
    CurrentIsSettled(g, s, t, seen, tab0, current, seenRank, count);
    RelaxedStep(g, seen, tab0.paths, tab.paths, current);
    SettledStep(g, s, seen, tab0.paths, tab.paths, current);
    LayeredStep(g, seen, tab0.paths, tab.paths, current);
  }

  /**
   * One round of the search loop (objects.py:280-301, algorithms.py:96-116):
   * settle `current`, relax its edges, and pick the next node. With no open
   * node left the search is finished without reaching `t`.
   */
  method Round(g: Adjacency, ghost s: Node, ghost t: Node, seen: set<Node>, tab0: Table, current: Node,
               ghost seenRank: map<Node, nat>, ghost count: nat)
    returns (tab: Table, next: Option<Node>)
    requires WellFormed(g) && NonNegative(g)
    requires Searching(g, s, t, seen, tab0, current, seenRank, count) && current != t
    ensures next.Some? ==> Searching(g, s, t, seen + {current}, tab, next.value, seenRank[current := count], count + 1)
    ensures next.None? ==> Finished(g, s, t, false, seen + {current}, tab, seenRank[current := count], count + 1)
    ensures |Universe(g, s) - (seen + {current})| < |Universe(g, s) - seen|
  {
    tab := RelaxEdges(g, current, tab0);
    SettleLinks(g, s, t, seen, tab0, current, seenRank, count, tab);
    SettleLabels(g, s, t, seen, tab0, current, seenRank, count, tab);
    Shrinks(Universe(g, s), seen, current);
    next := SelectMin(tab.paths, tab.order, seen + {current});
  }

  /** Ranks for a finished search: settled nodes keep their order, open ones come last. */
  ghost function FinalRank(paths: map<Node, Edge>, seen: set<Node>, seenRank: map<Node, nat>, count: nat): map<Node, nat>
    requires seenRank.Keys == seen
  {
    map v | v in paths :: if v in seen then seenRank[v] else count
  }

  /** The back-pointers of a running search already form a rooted structure. */
  lemma LinkedRooted(g: Adjacency, s: Node, seen: set<Node>, paths: map<Node, Edge>, seenRank: map<Node, nat>, count: nat)
    requires Linked(g, s, seen, paths, seenRank, count)
    ensures Rooted(g, s, paths, FinalRank(paths, seen, seenRank, count))
  {
  }

  /** How the search loop ended: at `t`, or with every discovered node settled. */
  ghost predicate Finished(g: Adjacency, s: Node, t: Node, found: bool, seen: set<Node>, tab: Table,
                           seenRank: map<Node, nat>, count: nat)
  {
    if found then Searching(g, s, t, seen, tab, t, seenRank, count)
    else Between(g, s, t, seen, tab, seenRank, count) && forall v :: v in tab.paths ==> v in seen
  }

  /**
   * The search loop (objects.py:280-301, algorithms.py:95-116): rounds run
   * until `t` is the node to settle next or no discovered node is open.
   */
  method Search(g: Adjacency, s: Node, t: Node)
    returns (found: bool, seen: set<Node>, tab: Table, ghost seenRank: map<Node, nat>, ghost count: nat)
    requires WellFormed(g) && NonNegative(g)
    ensures Finished(g, s, t, found, seen, tab, seenRank, count)
  {
    var settled: set<Node> := {};
    var table := Start(s);
    ghost var ranks: map<Node, nat> := map[];
    ghost var rounds: nat := 0;
    var current := s;
    var open := true;
    StartInvariants(g, s, t);
    while open && current != t
      invariant open ==> Searching(g, s, t, settled, table, current, ranks, rounds)
      invariant !open ==> Finished(g, s, t, false, settled, table, ranks, rounds)
      decreases |Universe(g, s) - settled|
    {
      var next := None;
      table, next := Round(g, s, t, settled, table, current, ranks, rounds);
      settled, ranks, rounds := settled + {current}, ranks[current := rounds], rounds + 1;
      match next
      case None => open := false;
      case Some(v) => current := v;
    }
    found, seen, tab, seenRank, count := open, settled, table, ranks, rounds;
  }

  /**
   * What a finished search has shown: the back-pointers are rooted at `s`,
   * `t` was reached exactly when some chain leads to it, and then its label
   * is the shortest distance. A search from `t` to itself never leaves the
   * start table.
   */
  lemma Conclude(g: Adjacency, s: Node, t: Node, found: bool, seen: set<Node>, tab: Table,
                 seenRank: map<Node, nat>, count: nat)
    returns (rank: map<Node, nat>)
    requires NonNegative(g) && Finished(g, s, t, found, seen, tab, seenRank, count)
    ensures Rooted(g, s, tab.paths, rank)
    ensures found <==> Reachable(g, s, t)
    ensures found ==> t in tab.paths && Shortest(g, s, t, tab.paths[t].distance)
    ensures s == t ==> found && tab == Start(s)
  {
    if found {
      rank := FinalRank(tab.paths, seen, seenRank, count);
      LinkedRooted(g, s, seen, tab.paths, seenRank, count);
      CurrentIsSettled(g, s, t, seen, tab, t, seenRank, count);
      var p := RootedChain(g, s, tab.paths, rank, t);
    } else {
      rank := FinalRank(tab.paths, seen, seenRank, count);
      LinkedRooted(g, s, seen, tab.paths, seenRank, count);
      if Reachable(g, s, t) {
        var p :| IsChain(g, s, t, p);
        var v := FrontierBound(g, s, seen, tab.paths, t, p);
        assert false;
      }
    }
  }

  /**
   * The shortest-path search of objects.py:271-301 and algorithms.py:83-116.
   * It stops with `reached` when `t` becomes the node to settle and without
   * it when no discovered node is left open; `paths` is returned in both
   * cases.
   */
  method Explore(g: Adjacency, s: Node, t: Node) returns (reached: bool, paths: map<Node, Edge>, ghost rank: map<Node, nat>)
    requires WellFormed(g) && NonNegative(g)
    ensures Rooted(g, s, paths, rank)
    ensures reached <==> Reachable(g, s, t)
    ensures reached ==> t in paths && Shortest(g, s, t, paths[t].distance)
    ensures s == t ==> reached && paths == map[s := Synthetic(s)]
  {
    var seen: set<Node>;
    var tab: Table;
    ghost var seenRank: map<Node, nat>, count: nat;
    reached, seen, tab, seenRank, count := Search(g, s, t);
    rank := Conclude(g, s, t, reached, seen, tab, seenRank, count);
    paths := tab.paths;
  }
}
