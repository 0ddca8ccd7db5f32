/**
 * The relaxation of the `Dijkstra` class (algorithms.py:21-71): every key of
 * the graph is taken once, in the order its priority queue pops them, and the
 * edges leaving it are relaxed against `distance`, recording the improving
 * edge in `edgeTo`. The queue's priorities are straight-line distances from
 * the source, so the pop order is an input here.
 *
 * Labels are `Dist` values: a finite distance or Python's `float('inf')`.
 */
module FixedOrder {
  import opened Values
  import opened Routes

  datatype Dist = Finite(value: real) | Infinite

  /** `d + w`, where infinity absorbs any finite weight. */
  function Plus(d: Dist, w: real): Dist
  {
    if d.Finite? then Finite(d.value + w) else Infinite
  }

  /** `a < b` on floats with infinity: nothing is below a finite value but smaller finite ones. */
  predicate Less(a: Dist, b: Dist)
  {
    a.Finite? && (b.Infinite? || a.value < b.value)
  }

  /** The two dictionaries the constructor fills. */
  datatype Labels = Labels(distance: map<Node, Dist>, edgeTo: map<Node, Option<Edge>>)

  /**
   * The dictionaries before the first pop (algorithms.py:38-43): every key at
   * infinity with no edge, then the source at zero.
   */
  function Initial(g: Adjacency, source: Node): Labels
  {
    Labels((map v | v in g :: Infinite)[source := Finite(0.0)], map v | v in g :: None)
  }

  /** When the order lists exactly the keys of `g`, every node of the order has an initial label and a list of edges. */
  lemma InitialCovers(g: Adjacency, source: Node, order: seq<Node>)
    requires forall u :: u in g <==> u in order
    ensures forall v :: v in order ==> v in Initial(g, source).distance
    ensures forall i :: 0 <= i < |order| ==> order[i] in g
  {
  }

  /** Dictionaries holding infinity and no edge at exactly the keys of `g` are, with the source at zero, the initial ones. */
  lemma InitialFrom(g: Adjacency, source: Node, distance: map<Node, Dist>, edgeTo: map<Node, Option<Edge>>)
    requires forall v :: v in distance <==> v in g
    requires forall v :: v in edgeTo <==> v in g
    requires forall v :: v in distance ==> distance[v] == Infinite
    requires forall v :: v in edgeTo ==> edgeTo[v] == None
    ensures Labels(distance[source := Finite(0.0)], edgeTo) == Initial(g, source)
  {
    var init := Initial(g, source);
    assert distance[source := Finite(0.0)].Keys == init.distance.Keys;
    assert edgeTo.Keys == init.edgeTo.Keys;
  }

  /**
   * Relaxing `e` out of `current` (algorithms.py:48-58), reading the label
   * of `current` afresh: a destination without a label takes the offer
   * whatever it is; a labelled one takes it only when it is strictly smaller.
   */
  function Offer(lab: Labels, current: Node, e: Edge): Labels
    requires current in lab.distance
  {
    var d := Plus(lab.distance[current], e.distance);
    var v := e.destination;
    if v !in lab.distance then Labels(lab.distance[v := d], lab.edgeTo[v := Some(e)])
    else if Less(d, lab.distance[v]) then Labels(lab.distance[v := d], lab.edgeTo[v := Some(e)])
    else lab
  }

  /** The labels after one offer: every label stays, and `e`'s destination is labelled. */
  lemma OfferKeys(lab: Labels, current: Node, e: Edge)
    requires current in lab.distance
    ensures Offer(lab, current, e).distance.Keys == lab.distance.Keys + {e.destination}
    ensures Offer(lab, current, e).edgeTo.Keys <= lab.edgeTo.Keys + {e.destination}
    ensures lab.edgeTo.Keys <= Offer(lab, current, e).edgeTo.Keys
  {
  }

  /** The offers of `edges` out of `current`, in list order. */
  function OfferAll(lab: Labels, current: Node, edges: seq<Edge>): (r: Labels)
    requires current in lab.distance
    ensures lab.distance.Keys <= r.distance.Keys && lab.edgeTo.Keys <= r.edgeTo.Keys
  {
    if edges == [] then lab
    else
      var mid := OfferAll(lab, current, edges[..|edges| - 1]);
      OfferKeys(mid, current, edges[|edges| - 1]);
      Offer(mid, current, edges[|edges| - 1])
  }

  /** The offers of one more edge are the shorter run of offers followed by that edge's. */
  lemma OfferAllStep(lab: Labels, current: Node, edges: seq<Edge>, i: nat)
    requires current in lab.distance && i < |edges|
    ensures current in OfferAll(lab, current, edges[..i]).distance
    ensures OfferAll(lab, current, edges[..i + 1]) == Offer(OfferAll(lab, current, edges[..i]), current, edges[i])
  {
    assert edges[..i + 1][..i] == edges[..i];
  }

  /** The whole sweep: each node of `order`, in turn, relaxes its edges. */
  function Sweep(lab: Labels, g: Adjacency, order: seq<Node>): (r: Labels)
    requires forall v :: v in order ==> v in lab.distance
    ensures lab.distance.Keys <= r.distance.Keys && lab.edgeTo.Keys <= r.edgeTo.Keys
  {
    if order == [] then lab
    else
      var mid := Sweep(lab, g, order[..|order| - 1]);
      assert order[|order| - 1] in order;
      OfferAll(mid, order[|order| - 1], Out(g, order[|order| - 1]))
  }

  /** A sweep over one more node is the shorter sweep followed by that node's offers. */
  lemma SweepStep(lab: Labels, g: Adjacency, order: seq<Node>, k: nat)
    requires k < |order| && forall v :: v in order ==> v in lab.distance
    ensures forall v :: v in order[..k] ==> v in lab.distance
    ensures order[k] in Sweep(lab, g, order[..k]).distance
    ensures Sweep(lab, g, order[..k + 1]) == OfferAll(Sweep(lab, g, order[..k]), order[k], Out(g, order[k]))
  {
    assert order[..k + 1][..k] == order[..k];
    assert order[k] in order;
  }

  /**
   * What one offer does (algorithms.py:50-58): a label only ever changes to
   * a strictly smaller value; a destination without a label is recorded
   * unconditionally, even at infinity; and whenever `edgeTo[v]` becomes `e`,
   * `distance[v]` is at that moment the label of `current` plus `e`'s weight.
   */
  lemma OfferEffect(lab: Labels, current: Node, e: Edge)
    requires current in lab.distance
    ensures var r := Offer(lab, current, e);
      && (forall v :: v in lab.distance ==> r.distance[v] == lab.distance[v] || Less(r.distance[v], lab.distance[v]))
      && (e.destination !in lab.distance ==> r.edgeTo[e.destination] == Some(e))
      && (forall v :: v in r.edgeTo && !(v in lab.edgeTo && r.edgeTo[v] == lab.edgeTo[v]) ==>
            v == e.destination && r.edgeTo[v] == Some(e) &&
            r.distance[v] == Plus(lab.distance[current], e.distance))
      && (forall v :: v != e.destination ==>
            (v in r.distance <==> v in lab.distance) && (v in lab.distance ==> r.distance[v] == lab.distance[v]))
  {
  }

  /** Over a whole sweep a label never grows: each one ends equal to or below where it started. */
  lemma {:induction false} SweepNeverRaises(lab: Labels, g: Adjacency, order: seq<Node>)
    requires forall v :: v in order ==> v in lab.distance
    ensures forall v :: v in lab.distance ==>
              var r := Sweep(lab, g, order); r.distance[v] == lab.distance[v] || Less(r.distance[v], lab.distance[v])
  {
    if order != [] {
      SweepNeverRaises(lab, g, order[..|order| - 1]);
      var mid := Sweep(lab, g, order[..|order| - 1]);
      var u := order[|order| - 1];
      assert u in order;
      OfferAllNeverRaises(mid, u, Out(g, u));
    }
  }

  /** Over the offers of one node a label never grows. */
  lemma {:induction false} OfferAllNeverRaises(lab: Labels, current: Node, edges: seq<Edge>)
    requires current in lab.distance
    ensures forall v :: v in lab.distance ==>
              var r := OfferAll(lab, current, edges); r.distance[v] == lab.distance[v] || Less(r.distance[v], lab.distance[v])
  {
    if edges != [] {
      OfferAllNeverRaises(lab, current, edges[..|edges| - 1]);
      var mid := OfferAll(lab, current, edges[..|edges| - 1]);
      OfferEffect(mid, current, edges[|edges| - 1]);
    }
  }

  // ---------------------------------------------------------------------------
  // The `edgeTo` pointers never form a cycle. Ghost stamps record when each
  // label was last set; along a pointer the pair (label, stamp) falls.

  /** `a >= b` on labels. */
  predicate AtLeast(a: Dist, b: Dist)
  {
    !Less(a, b)
  }

  /**
   * The pointer of `v` is a stored edge into `v` out of a key; `v`'s label
   * is at least the label of its source plus the weight, and strictly more
   * unless the source's label was set earlier.
   */
  ghost predicate Pointer(g: Adjacency, lab: Labels, stamp: map<Node, nat>, v: Node)
    requires v in lab.edgeTo && lab.edgeTo[v].Some?
  {
    var e := lab.edgeTo[v].value;
    && e.destination == v && Stored(g, e)
    && e.source.value in lab.distance && e.source.value in lab.edgeTo && v in lab.distance
    && e.source.value in stamp && v in stamp
    && AtLeast(lab.distance[v], Plus(lab.distance[e.source.value], e.distance))
    && (Less(Plus(lab.distance[e.source.value], e.distance), lab.distance[v]) || stamp[e.source.value] < stamp[v])
  }

  /**
   * The invariant of the sweep: the source holds zero; every other finite
   * label has a pointer; labels are never negative; every key has an
   * `edgeTo` entry; every label has a stamp below `clock`; pointers obey
   * `Pointer`.
   */
  ghost predicate Sound(g: Adjacency, source: Node, lab: Labels, stamp: map<Node, nat>, clock: nat)
  {
    && source in lab.distance && lab.distance[source] == Finite(0.0)
    && (source in lab.edgeTo ==> lab.edgeTo[source].None?)
    && g.Keys <= lab.edgeTo.Keys && lab.edgeTo.Keys <= lab.distance.Keys && lab.distance.Keys <= stamp.Keys
    && (forall v :: v in stamp ==> stamp[v] < clock)
    && (forall v :: v in lab.distance && lab.distance[v].Finite? ==> lab.distance[v].value >= 0.0)
    && (forall v :: v in lab.distance && v != source && lab.distance[v].Finite? ==> v in lab.edgeTo && lab.edgeTo[v].Some?)
    && (forall v :: v in lab.edgeTo && lab.edgeTo[v].Some? ==> Pointer(g, lab, stamp, v))
  }

  /** The stamps after an offer: a relabelled destination is stamped with `clock`. */
  ghost function Restamp(lab: Labels, stamp: map<Node, nat>, clock: nat, current: Node, e: Edge): map<Node, nat>
    requires current in lab.distance
  {
    if Offer(lab, current, e) == lab then stamp else stamp[e.destination := clock]
  }

  /** The dictionaries before the first pop satisfy the invariant. */
  lemma InitialSound(g: Adjacency, source: Node)
    ensures Sound(g, source, Initial(g, source), map v | v in g.Keys + {source} :: 0, 1)
  {
  }

  /** A pointer whose entries an offer leaves alone, and whose source label did not grow, survives. */
  lemma PointerKept(g: Adjacency, lab: Labels, stamp: map<Node, nat>, r: Labels, stamp2: map<Node, nat>, v: Node)
    requires v in lab.edgeTo && lab.edgeTo[v].Some? && Pointer(g, lab, stamp, v)
    requires v in r.edgeTo && r.edgeTo[v] == lab.edgeTo[v]
    requires v in lab.distance && v in r.distance && r.distance[v] == lab.distance[v]
    requires var u := lab.edgeTo[v].value.source.value;
      && u in r.distance && u in r.edgeTo && u in stamp2 && v in stamp2
      && (r.distance[u] == lab.distance[u] || Less(r.distance[u], lab.distance[u]))
      && (r.distance[u] == lab.distance[u] ==> stamp2[u] == stamp[u])
      && stamp2[v] == stamp[v]
    ensures Pointer(g, r, stamp2, v)
  {
    var e := lab.edgeTo[v].value;
    var u := e.source.value;
    if r.distance[u] != lab.distance[u] {
      assert Less(Plus(r.distance[u], e.distance), r.distance[v]);
    }
  }

  /** An offer out of a key, whose edges leave it with non-negative weights, keeps the invariant. */
  lemma OfferSound(g: Adjacency, source: Node, lab: Labels, stamp: map<Node, nat>, clock: nat, current: Node, e: Edge)
    requires Sound(g, source, lab, stamp, clock) && current in g && e in g[current]
    requires e.source == Some(current) && e.distance >= 0.0
    ensures Sound(g, source, Offer(lab, current, e), Restamp(lab, stamp, clock, current, e), clock + 1)
  {
    var r := Offer(lab, current, e);
    var stamp2 := Restamp(lab, stamp, clock, current, e);
    if r != lab {
      var v := e.destination;
      assert r.distance[v] == Plus(lab.distance[current], e.distance);
      assert r.distance[v].Finite? ==> r.distance[v].value >= 0.0;
      assert v in lab.distance ==> Less(r.distance[v], lab.distance[v]);
      assert !Less(Plus(lab.distance[current], e.distance), lab.distance[current]);
      assert v != source && v != current;
      forall x | x in r.edgeTo && r.edgeTo[x].Some? ensures Pointer(g, r, stamp2, x) {
        if x == v {
          assert Stored(g, e);
        } else {
          PointerKept(g, lab, stamp, r, stamp2, x);
        }
      }
    }
  }

  /** `x` was labelled no later than `y`: a smaller label, or the same one set earlier. */
  ghost predicate Earlier(lab: Labels, stamp: map<Node, nat>, x: Node, y: Node)
    requires x in lab.distance && y in lab.distance && x in stamp && y in stamp
  {
    Less(lab.distance[x], lab.distance[y]) || (lab.distance[x] == lab.distance[y] && stamp[x] < stamp[y])
  }

  /** The labels set no later than `y`. */
  ghost function Before(lab: Labels, stamp: map<Node, nat>, y: Node): set<Node>
    requires y in lab.distance && y in stamp
  {
    set x | x in lab.distance && x in stamp && Earlier(lab, stamp, x, y)
  }

  /** Following a pointer leads to a node labelled strictly earlier, so the labels set before it are fewer. */
  lemma PointerFalls(g: Adjacency, source: Node, lab: Labels, stamp: map<Node, nat>, clock: nat, v: Node)
    requires Sound(g, source, lab, stamp, clock) && NonNegative(g)
    requires v in lab.edgeTo && lab.edgeTo[v].Some?
    ensures var u := lab.edgeTo[v].value.source.value;
      u in lab.distance && u in stamp && |Before(lab, stamp, u)| < |Before(lab, stamp, v)|
  {
    var e := lab.edgeTo[v].value;
    var u := e.source.value;
    assert Pointer(g, lab, stamp, v);
    assert Stored(g, e) && e.distance >= 0.0;
    assert Earlier(lab, stamp, u, v);
    var below, above := Before(lab, stamp, u), Before(lab, stamp, v);
    forall x | x in below ensures x in above {
      assert Earlier(lab, stamp, x, u);
    }
    assert u in above && u !in below;
    SubsetSize(below, above - {u});
  }

  /**
   * Part way through `getPath` (algorithms.py:63-70): `path` holds the
   * pointers followed so far from `dest`, destination first, and `node` is
   * the source of the last of them. Read forwards they are a chain from
   * `node` to `dest` whose weight fits between the two labels.
   */
  ghost predicate Walk(g: Adjacency, lab: Labels, dest: Node, node: Node, path: seq<Edge>)
  {
    && node in lab.edgeTo && node in lab.distance && dest in lab.distance
    && (path == [] ==> node == dest)
    && (path != [] ==> dest in lab.edgeTo && lab.edgeTo[dest].Some? && path[0] == lab.edgeTo[dest].value &&
                       path[|path| - 1].source == Some(node))
    && (forall i :: 0 <= i < |path| ==>
          path[i].destination in lab.edgeTo && lab.edgeTo[path[i].destination] == Some(path[i]))
    && IsChain(g, node, dest, Reverse(path))
    && AtLeast(lab.distance[dest], Plus(lab.distance[node], Weight(Reverse(path))))
  }

  /** Following the pointer of `node` extends the walk. */
  lemma WalkStep(g: Adjacency, lab: Labels, stamp: map<Node, nat>, dest: Node, node: Node, path: seq<Edge>)
    requires Walk(g, lab, dest, node, path) && lab.edgeTo[node].Some? && Pointer(g, lab, stamp, node)
    ensures var e := lab.edgeTo[node].value;
      e.source.Some? && Walk(g, lab, dest, e.source.value, path + [e])
  {
    var e := lab.edgeTo[node].value;
    ReverseAppend(path, e);
    ChainPrepend(g, node, dest, Reverse(path), e);
    WeightPrepend(e, Reverse(path));
    var u := e.source.value;
    PlusTwice(lab.distance[u], e.distance, Weight(Reverse(path)));
    PointersExtend(lab, path, e);
  }

  /** Appending an edge that is its destination's pointer keeps every edge of the path a pointer. */
  lemma PointersExtend(lab: Labels, path: seq<Edge>, e: Edge)
    requires forall i :: 0 <= i < |path| ==>
               path[i].destination in lab.edgeTo && lab.edgeTo[path[i].destination] == Some(path[i])
    requires e.destination in lab.edgeTo && lab.edgeTo[e.destination] == Some(e)
    ensures forall i :: 0 <= i < |path + [e]| ==>
              (path + [e])[i].destination in lab.edgeTo && lab.edgeTo[(path + [e])[i].destination] == Some((path + [e])[i])
  {
    var longer := path + [e];
    forall i | 0 <= i < |longer|
      ensures longer[i].destination in lab.edgeTo && lab.edgeTo[longer[i].destination] == Some(longer[i])
    {
      if i < |path| {
        assert longer[i] == path[i];
      }
    }
  }

  /** Adding two weights one after the other adds their sum. */
  lemma PlusTwice(d: Dist, a: real, b: real)
    ensures Plus(Plus(d, a), b) == Plus(d, a + b)
  {
  }

  /**
   * Where the walk stops: a destination with a finite label leads back to
   * the source, along a chain no heavier than that label.
   */
  lemma WalkEnd(g: Adjacency, source: Node, lab: Labels, stamp: map<Node, nat>, clock: nat,
                dest: Node, node: Node, path: seq<Edge>)
    requires Sound(g, source, lab, stamp, clock)
    requires Walk(g, lab, dest, node, path) && lab.edgeTo[node].None? && lab.distance[dest].Finite?
    ensures node == source && Weight(Reverse(path)) <= lab.distance[dest].value
  {
  }

  /** A subset is no larger than its superset. */
  lemma {:induction false} SubsetSize(a: set<Node>, b: set<Node>)
    requires a <= b
    ensures |a| <= |b|
    decreases |a|
  {
    if a != {} {
      var x :| x in a;
      SubsetSize(a - {x}, b - {x});
    }
  }
}
