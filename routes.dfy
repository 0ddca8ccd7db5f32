/**
 * What a route is, independently of any solver: chains of stored edges,
 * their total weight, reachability and the shortest distance, plus the
 * "labelled" destination-first paths the linear-relaxation search returns,
 * in which every edge carries the cumulative distance from the start.
 */
module Routes {
  import opened Values

  /** The adjacency map of a graph: node to its outgoing edges, in insertion order. */
  type Adjacency = map<Node, seq<Edge>>

  /** The outgoing edges of `u`; a node that is not a key has none. */
  function Out(g: Adjacency, u: Node): seq<Edge>
  {
    if u in g then g[u] else []
  }

  /** `e` is one of the edges stored in `g`. */
  ghost predicate Stored(g: Adjacency, e: Edge)
  {
    e.source.Some? && e in Out(g, e.source.value)
  }

  /**
   * Shape guaranteed by graph construction: every list holds edges leaving
   * its key, and no two edges of one list share a destination.
   */
  ghost predicate WellFormed(g: Adjacency)
  {
    && (forall u, e :: u in g && e in g[u] ==> e.source == Some(u))
    && (forall u, i, j :: u in g && 0 <= i < j < |g[u]| ==> g[u][i].destination != g[u][j].destination)
  }

  /** Distances are kilometres and never negative. */
  ghost predicate NonNegative(g: Adjacency)
  {
    forall u, e :: u in g && e in g[u] ==> e.distance >= 0.0
  }

  /** `p` is a source-first chain of stored edges leading from `s` to `t`. */
  ghost predicate IsChain(g: Adjacency, s: Node, t: Node, p: seq<Edge>)
  {
    if p == [] then s == t
    else
      && p[0].source == Some(s)
      && p[|p| - 1].destination == t
      && (forall i :: 0 <= i < |p| ==> Stored(g, p[i]))
      && (forall i :: 0 <= i < |p| - 1 ==> p[i + 1].source == Some(p[i].destination))
  }

  /** Sum of the distances of a sequence of edges. */
  function Weight(p: seq<Edge>): real
  {
    if p == [] then 0.0 else Weight(p[..|p| - 1]) + p[|p| - 1].distance
  }

  ghost predicate Reachable(g: Adjacency, s: Node, t: Node)
  {
    exists p :: IsChain(g, s, t, p)
  }

  /** `d` is the least weight of a chain from `s` to `t`, and some chain attains it. */
  ghost predicate Shortest(g: Adjacency, s: Node, t: Node, d: real)
  {
    && (exists p :: IsChain(g, s, t, p) && Weight(p) == d)
    && (forall p :: IsChain(g, s, t, p) ==> d <= Weight(p))
  }

  function Reverse<T>(s: seq<T>): (r: seq<T>)
    ensures |r| == |s| && forall i :: 0 <= i < |s| ==> r[i] == s[|s| - 1 - i]
  {
    if s == [] then [] else Reverse(s[1..]) + [s[0]]
  }

  /**
   * A destination-first path whose distances are cumulative labels: it ends
   * with the synthetic edge at `s`, each edge leaves the node the next one
   * enters, and taking the next label off each label gives back a stored edge.
   */
  ghost predicate LabelledRoute(g: Adjacency, s: Node, path: seq<Edge>)
  {
    && |path| >= 1
    && path[|path| - 1] == Synthetic(s)
    && forall i :: 0 <= i < |path| - 1 ==>
         && path[i].source == Some(path[i + 1].destination)
         && Stored(g, path[i].(distance := path[i].distance - path[i + 1].distance))
  }

  /** Only the synthetic edge at the start has no source: a labelled path is that edge alone exactly when its head has none. */
  lemma LabelledRouteHead(g: Adjacency, s: Node, path: seq<Edge>)
    requires LabelledRoute(g, s, path)
    ensures |path| == 1 <==> path[0].source.None?
  {
    if |path| > 1 {
      assert path[0].source == Some(path[1].destination);
    }
  }

  /** The source-first chain of stored edges a labelled path stands for. */
  function Restore(path: seq<Edge>): seq<Edge>
    requires |path| >= 1
  {
    if |path| == 1 then []
    else Restore(path[1..]) + [path[0].(distance := path[0].distance - path[1].distance)]
  }

  /** A labelled path denotes a real chain to its head, whose weight is the head's label. */
  lemma {:induction false} RestoreIsRoute(g: Adjacency, s: Node, path: seq<Edge>)
    requires LabelledRoute(g, s, path)
    ensures IsChain(g, s, path[0].destination, Restore(path))
    ensures Weight(Restore(path)) == path[0].distance
  {
    if |path| > 1 {
      var rest := path[1..];
      assert LabelledRoute(g, s, rest) by {
        forall i | 0 <= i < |rest| - 1
          ensures rest[i].source == Some(rest[i + 1].destination)
          ensures Stored(g, rest[i].(distance := rest[i].distance - rest[i + 1].distance))
        {
          assert rest[i] == path[i + 1] && rest[i + 1] == path[i + 2];
        }
      }
      RestoreIsRoute(g, s, rest);
      var x := path[0].(distance := path[0].distance - path[1].distance);
      ChainExtend(g, s, path[1].destination, Restore(rest), x);
      assert (Restore(rest) + [x])[..|Restore(rest)|] == Restore(rest);
    }
  }

  /** Appending a stored edge that leaves the end of a chain gives a chain. */
  lemma ChainExtend(g: Adjacency, s: Node, u: Node, p: seq<Edge>, e: Edge)
    requires IsChain(g, s, u, p) && Stored(g, e) && e.source == Some(u)
    ensures IsChain(g, s, e.destination, p + [e])
  {
    var q := p + [e];
    forall i | 0 <= i < |q| ensures Stored(g, q[i]) {
      if i < |p| { assert q[i] == p[i]; }
    }
  }

  /** Dropping the last edge of a chain leaves a chain to that edge's source. */
  lemma ChainPrefix(g: Adjacency, s: Node, t: Node, p: seq<Edge>)
    requires IsChain(g, s, t, p) && p != []
    ensures p[|p| - 1].source.Some?
    ensures IsChain(g, s, p[|p| - 1].source.value, p[..|p| - 1])
    ensures Weight(p) == Weight(p[..|p| - 1]) + p[|p| - 1].distance
  {
    assert Stored(g, p[|p| - 1]);
  }

  /** With non-negative distances no chain weighs less than zero. */
  lemma {:induction false} WeightNonNegative(g: Adjacency, s: Node, t: Node, p: seq<Edge>)
    requires NonNegative(g) && IsChain(g, s, t, p)
    ensures Weight(p) >= 0.0
    decreases |p|
  {
    if p != [] {
      ChainPrefix(g, s, t, p);
      WeightNonNegative(g, s, p[|p| - 1].source.value, p[..|p| - 1]);
      assert Stored(g, p[|p| - 1]);
    }
  }

  /** Putting a stored edge that enters the start of a chain in front of it gives a chain from that edge's source. */
  lemma ChainPrepend(g: Adjacency, u: Node, t: Node, p: seq<Edge>, e: Edge)
    requires IsChain(g, u, t, p) && Stored(g, e) && e.destination == u
    ensures IsChain(g, e.source.value, t, [e] + p)
  {
    var q := [e] + p;
    forall i | 0 <= i < |q| ensures Stored(g, q[i]) {
      if i > 0 { assert q[i] == p[i - 1]; }
    }
    forall i | 0 <= i < |q| - 1 ensures q[i + 1].source == Some(q[i].destination) {
      if i > 0 { assert q[i] == p[i - 1] && q[i + 1] == p[i]; }
    }
  }

  /** The weight of a sequence with an edge in front is that edge's distance plus the rest. */
  lemma {:induction false} WeightPrepend(e: Edge, p: seq<Edge>)
    ensures Weight([e] + p) == e.distance + Weight(p)
    decreases |p|
  {
    if p != [] {
      var front := p[..|p| - 1];
      assert ([e] + p)[..|[e] + p| - 1] == [e] + front;
      WeightPrepend(e, front);
    }
  }

  /** Reversing a sequence with an element appended puts that element first. */
  lemma ReverseAppend<T>(s: seq<T>, x: T)
    ensures Reverse(s + [x]) == [x] + Reverse(s)
  {
    var a, b := Reverse(s + [x]), [x] + Reverse(s);
    assert |a| == |b|;
    forall i | 0 <= i < |a| ensures a[i] == b[i] {
      if i > 0 { assert a[i] == (s + [x])[|s| - i] == s[|s| - i]; }
    }
  }

  /** Reversing twice gives back the sequence. */
  lemma ReverseTwice<T>(s: seq<T>)
    ensures Reverse(Reverse(s)) == s
  {
  }
}
