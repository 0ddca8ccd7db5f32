/**
 * The route graph (objects.py:155-308): an adjacency dictionary from each
 * source node to the list of edges leaving it, in the order they were added,
 * built by adding one edge per storage row. At most one edge is kept per
 * (source, destination) pair: the first row for a pair wins, whatever its
 * type or bus service.
 */
module Objects {
  import opened Values
  import opened Routes
  import Relaxation

  /** Some edge of `edges` ends at `d`: the test `isNeighbour` performs. */
  ghost predicate HasDestination(edges: seq<Edge>, d: Node)
  {
    exists e :: e in edges && e.destination == d
  }

  /** `keys` lists the keys of `adj` once each: the dictionary's iteration order. */
  ghost predicate Indexed(adj: Adjacency, keys: seq<Node>)
  {
    && (forall i, j :: 0 <= i < j < |keys| ==> keys[i] != keys[j])
    && (forall u :: u in adj <==> u in keys)
  }

  /** The shape every graph keeps: well-formed lists, none of them empty, and their keys in order. */
  ghost predicate Shaped(adj: Adjacency, keys: seq<Node>)
  {
    && WellFormed(adj)
    && Indexed(adj, keys)
    && (forall u :: u in adj ==> adj[u] != [])
  }

  /**
   * The dictionary after `addEdge(e)` (objects.py:215-231): a new source gets
   * the list `[e]`; a known one gets `e` appended unless an edge to the same
   * destination is already there.
   */
  ghost function Added(adj: Adjacency, e: Edge): Adjacency
    requires e.source.Some?
  {
    var u := e.source.value;
    if u !in adj then adj[u := [e]]
    else if HasDestination(adj[u], e.destination) then adj
    else adj[u := adj[u] + [e]]
  }

  /** The key order after `addEdge(e)`: a new source is inserted last. */
  ghost function KeysAfter(keys: seq<Node>, adj: Adjacency, e: Edge): seq<Node>
    requires e.source.Some?
  {
    if e.source.value in adj then keys else keys + [e.source.value]
  }

  /** The dictionary the constructor builds from `rows` (objects.py:158-185). */
  ghost function Build(rows: seq<Row>): Adjacency
  {
    if rows == [] then map[]
    else Added(Build(rows[..|rows| - 1]), RowEdge(rows[|rows| - 1]))
  }

  /** The key order the constructor builds from `rows`. */
  ghost function BuildKeys(rows: seq<Row>): seq<Node>
  {
    if rows == [] then []
    else KeysAfter(BuildKeys(rows[..|rows| - 1]), Build(rows[..|rows| - 1]), RowEdge(rows[|rows| - 1]))
  }

  /** Adding an edge keeps the shape of the graph. */
  lemma AddedShaped(adj: Adjacency, keys: seq<Node>, e: Edge)
    requires Shaped(adj, keys) && e.source.Some?
    ensures Shaped(Added(adj, e), KeysAfter(keys, adj, e))
  {
    var u := e.source.value;
    var r: Adjacency := Added(adj, e);
    if u in adj && !HasDestination(adj[u], e.destination) {
      forall i: int, j: int | 0 <= i < j < |r[u]| ensures r[u][i].destination != r[u][j].destination {
        if j == |adj[u]| {
          assert adj[u][i] in adj[u];
        }
      }
    }
  }

  /**
   * `addEdge(e)` touches only the list of `e`'s source: every other list is
   * unchanged, the source's old list stays a prefix of its new one, at most
   * `e` is appended, and the keys grow by the source alone. The list is left
   * as it was exactly when it already reaches `e`'s destination.
   */
  lemma AddedOnlySource(adj: Adjacency, e: Edge)
    requires e.source.Some?
    ensures var r := Added(adj, e); var u := e.source.value;
      && r.Keys == adj.Keys + {u}
      && (forall v :: v != u ==> Out(r, v) == Out(adj, v))
      && Out(r, u)[..|Out(adj, u)|] == Out(adj, u)
      && (Out(r, u) == Out(adj, u) <==> HasDestination(Out(adj, u), e.destination))
      && (Out(r, u) != Out(adj, u) ==> Out(r, u) == Out(adj, u) + [e])
  {
    var u := e.source.value;
    if u in adj && !HasDestination(adj[u], e.destination) {
      assert (adj[u] + [e])[..|adj[u]|] == adj[u];
      assert |adj[u] + [e]| != |adj[u]|;
    }
  }

  /** After `addEdge(e)` the list of `e`'s source reaches `e`'s destination. */
  lemma AddedReaches(adj: Adjacency, e: Edge)
    requires e.source.Some?
    ensures HasDestination(Out(Added(adj, e), e.source.value), e.destination)
  {
    var u := e.source.value;
    if !(u in adj && HasDestination(adj[u], e.destination)) {
      assert e in Out(Added(adj, e), u);
    }
  }

  /** The built graph has the shape every graph keeps. */
  lemma {:induction false} BuildShaped(rows: seq<Row>)
    ensures Shaped(Build(rows), BuildKeys(rows))
  {
    if rows != [] {
      BuildShaped(rows[..|rows| - 1]);
      AddedShaped(Build(rows[..|rows| - 1]), BuildKeys(rows[..|rows| - 1]), RowEdge(rows[|rows| - 1]));
    }
  }

  /** The keys of the built graph are exactly the sources of the rows; a node met only as a destination is no key. */
  lemma {:induction false} BuildSources(rows: seq<Row>)
    ensures forall u :: u in Build(rows) <==> exists i :: 0 <= i < |rows| && SourceNode(rows[i]) == u
  {
    if rows != [] {
      var front := rows[..|rows| - 1];
      BuildSources(front);
      AddedOnlySource(Build(front), RowEdge(rows[|rows| - 1]));
      forall u | u in Build(rows) ensures exists i :: 0 <= i < |rows| && SourceNode(rows[i]) == u {
        if u in Build(front) {
          var i :| 0 <= i < |front| && SourceNode(front[i]) == u;
          assert SourceNode(rows[i]) == u;
        } else {
          assert SourceNode(rows[|rows| - 1]) == u;
        }
      }
      forall u | exists i :: 0 <= i < |rows| && SourceNode(rows[i]) == u ensures u in Build(rows) {
        var i :| 0 <= i < |rows| && SourceNode(rows[i]) == u;
        if i < |front| {
          assert SourceNode(front[i]) == u;
        }
      }
    }
  }

  /** Rows `a` and `b` describe an edge between the same two nodes. */
  ghost predicate SamePair(a: Row, b: Row)
  {
    SourceNode(a) == SourceNode(b) && DestinationNode(a) == DestinationNode(b)
  }

  /** Row `i` is the first of `rows` for its (source, destination) pair. */
  ghost predicate FirstOfPair(rows: seq<Row>, i: int)
    requires 0 <= i < |rows|
  {
    forall j :: 0 <= j < i ==> !SamePair(rows[j], rows[i])
  }

  /** Every stored edge is the edge of the first row for its pair. */
  lemma {:induction false} BuildFromFirstRows(rows: seq<Row>)
    ensures forall u, e :: u in Build(rows) && e in Build(rows)[u] ==>
              exists i :: 0 <= i < |rows| && e == RowEdge(rows[i]) && FirstOfPair(rows, i)
  {
    if rows != [] {
      var front := rows[..|rows| - 1];
      var last := |rows| - 1;
      var x := RowEdge(rows[last]);
      BuildFromFirstRows(front);
      AddedOnlySource(Build(front), x);
      forall u, e | u in Build(rows) && e in Build(rows)[u]
        ensures exists i :: 0 <= i < |rows| && e == RowEdge(rows[i]) && FirstOfPair(rows, i)
      {
        if u in Build(front) && e in Build(front)[u] {
          var i :| 0 <= i < |front| && e == RowEdge(front[i]) && FirstOfPair(front, i);
          assert rows[i] == front[i];
          assert FirstOfPair(rows, i) by {
            forall j | 0 <= j < i ensures !SamePair(rows[j], rows[i]) {
              assert rows[j] == front[j];
            }
          }
        } else {
          assert Out(Build(rows), u) != Out(Build(front), u);
          assert e == x;
          assert FirstOfPair(rows, last) by {
            forall j | 0 <= j < last ensures !SamePair(rows[j], rows[last]) {
              if SamePair(rows[j], rows[last]) {
                FrontReaches(front, j);
                assert false;
              }
            }
          }
        }
      }
    }
  }

  /** Every row's pair is reached by the list of its source in the graph built from those rows. */
  lemma {:induction false} FrontReaches(rows: seq<Row>, i: int)
    requires 0 <= i < |rows|
    ensures HasDestination(Out(Build(rows), SourceNode(rows[i])), DestinationNode(rows[i]))
    decreases |rows|
  {
    var front := rows[..|rows| - 1];
    var x := RowEdge(rows[|rows| - 1]);
    if i == |rows| - 1 {
      AddedReaches(Build(front), x);
    } else {
      FrontReaches(front, i);
      assert rows[i] == front[i];
      var e :| e in Out(Build(front), SourceNode(rows[i])) && e.destination == DestinationNode(rows[i]);
      AddedOnlySource(Build(front), x);
      if SourceNode(rows[i]) == x.source.value {
        assert Out(Build(rows), SourceNode(rows[i]))[..|Out(Build(front), SourceNode(rows[i]))|]
            == Out(Build(front), SourceNode(rows[i]));
        assert e in Out(Build(rows), SourceNode(rows[i]));
      }
    }
  }

  /** The edge of the first row for a pair is stored in the built graph. */
  lemma {:induction false} FirstRowKept(rows: seq<Row>, i: int)
    requires 0 <= i < |rows| && FirstOfPair(rows, i)
    ensures RowEdge(rows[i]) in Out(Build(rows), SourceNode(rows[i]))
    decreases |rows|
  {
    var front := rows[..|rows| - 1];
    var x := RowEdge(rows[|rows| - 1]);
    AddedOnlySource(Build(front), x);
    if i == |rows| - 1 {
      if HasDestination(Out(Build(front), SourceNode(rows[i])), DestinationNode(rows[i])) {
        BuildFromFirstRows(front);
        BuildShaped(front);
        var e :| e in Out(Build(front), SourceNode(rows[i])) && e.destination == DestinationNode(rows[i]);
        var j :| 0 <= j < |front| && e == RowEdge(front[j]) && FirstOfPair(front, j);
        assert front[j] == rows[j];
        assert SamePair(rows[j], rows[i]);
        assert false;
      }
    } else {
      assert FirstOfPair(front, i) by {
        forall j | 0 <= j < i ensures !SamePair(front[j], front[i]) {
          assert front[j] == rows[j] && front[i] == rows[i];
        }
      }
      FirstRowKept(front, i);
      assert rows[i] == front[i];
      var u := SourceNode(rows[i]);
      assert Out(Build(rows), u)[..|Out(Build(front), u)|] == Out(Build(front), u);
    }
  }

  /**
   * The graph object: the adjacency dictionary and the insertion order of
   * its keys. objects.py shares one dictionary among all instances; here
   * each graph owns its own.
   */
  class Graph {
    var adjacency: Adjacency
    var keys: seq<Node>

    ghost predicate Valid()
      reads this
    {
      Shaped(adjacency, keys)
    }

    /** `Graph(data)` (objects.py:158-185): adds the edge of every row, in order. */
    constructor (data: seq<Row>)
      ensures Valid() && adjacency == Build(data) && keys == BuildKeys(data)
    {
      adjacency := map[];
      keys := [];
      new;
      for i := 0 to |data|
        invariant Valid() && adjacency == Build(data[..i]) && keys == BuildKeys(data[..i])
      {
        assert data[..i + 1][..i] == data[..i];
        AddEdge(RowEdge(data[i]));
      }
      assert data[..|data|] == data;
    }

    /**
     * `isNeighbour(this, other)` (objects.py:193-212): whether an edge from
     * `source` to `destination` is stored. A source that is no key raises
     * the dictionary's KeyError.
     */
    method IsNeighbour(source: Node, destination: Node) returns (r: Result<bool>)
      ensures source !in adjacency ==> r == Failure(source)
      ensures source in adjacency ==> r.Success? && (r.value <==> HasDestination(adjacency[source], destination))
    {
      if source !in adjacency {
        return Failure(source);
      }
      var edges := adjacency[source];
      for i := 0 to |edges|
        invariant forall j :: 0 <= j < i ==> edges[j].destination != destination
      {
        if edges[i].destination == destination {
          return Success(true);
        }
      }
      return Success(false);
    }

    /** `addEdge(edge)` (objects.py:215-231). */
    method AddEdge(edge: Edge)
      requires Valid() && edge.source.Some?
      modifies this
      ensures Valid()
      ensures adjacency == Added(old(adjacency), edge)
      ensures keys == KeysAfter(old(keys), old(adjacency), edge)
    {
      var u := edge.source.value;
      if u in adjacency {
        var present := IsNeighbour(u, edge.destination);
        if present == Success(false) {
          adjacency := adjacency[u := adjacency[u] + [edge]];
        } else {
          assert HasDestination(adjacency[u], edge.destination);
        }
      } else {
        keys := keys + [u];
        adjacency := adjacency[u := []];
        adjacency := adjacency[u := adjacency[u] + [edge]];
        assert adjacency[u] == [edge];
      }
      AddedShaped(old(adjacency), old(keys), edge);
    }

    /** `vertices()` (objects.py:233-240): every source node, once each, in insertion order. */
    function Vertices(): (r: seq<Node>)
      reads this
      requires Valid()
      ensures forall u :: u in r <==> u in adjacency
      ensures forall i, j :: 0 <= i < j < |r| ==> r[i] != r[j]
    {
      keys
    }

    /**
     * `adj(source)` (objects.py:243-255): the edges leaving `source`; empty
     * exactly when `source` is no key.
     */
    function Adj(source: Node): (r: seq<Edge>)
      reads this
      ensures Valid() ==> (r == [] <==> source !in adjacency)
      ensures Valid() ==> forall e :: e in r ==> e.source == Some(source)
      ensures Valid() ==> forall i, j :: 0 <= i < j < |r| ==> r[i].destination != r[j].destination
      ensures source in adjacency ==> r == adjacency[source]
    {
      if source !in adjacency then [] else adjacency[source]
    }

    /**
     * `getPath(source_node, destination_node)` (objects.py:257-308): the
     * shortest route, destination first, each edge carrying the distance
     * from `source` to its destination; `[]` when `destination` cannot be
     * reached.
     */
    method GetPath(source: Node, destination: Node) returns (path: seq<Edge>)
      requires Valid() && NonNegative(adjacency)
      ensures path == [] <==> !Reachable(adjacency, source, destination)
      ensures path != [] ==> LabelledRoute(adjacency, source, path) && path[0].destination == destination
      ensures path != [] ==> Shortest(adjacency, source, destination, path[0].distance)
      ensures source == destination ==> path == [Synthetic(source)]
    {
      var reached, paths, rank := Relaxation.Explore(adjacency, source, destination);
      if !reached {
        return [];
      }
      path := Relaxation.Backtrack(adjacency, source, paths, destination, rank);
      Relaxation.RootedEntry(adjacency, source, paths, rank, destination);
      if source == destination {
        LabelledRouteHead(adjacency, source, path);
      }
    }
  }
}
