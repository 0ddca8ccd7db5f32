/**
 * The value records of the route planner: places (`Node`), directed links
 * between them (`Edge`) and the flat rows the storage layer hands over.
 * Equality on both records is structural, which is what `Node.__eq__` and
 * `Edge.__eq__` spell out field by field.
 */
module Values {

  datatype Option<+T> = None | Some(value: T)

  /** A lookup failure: the dictionary key that was missing (Python's KeyError). */
  datatype Result<+T> = Success(value: T) | Failure(missing: Node)

  /** A stop or place. `kind` is the `type` field of `Node` (HDB, Bus Stop, MRT Station). */
  datatype Node = Node(id: string, name: string, description: string, lat: real, long: real, kind: string)

  /**
   * A directed link. `source` is `None` only for the synthetic zero-length
   * edge the linear-relaxation search plants at its start node; `busService`
   * and `kind` are `None` only there as well.
   */
  datatype Edge = Edge(source: Option<Node>, destination: Node, distance: real,
                       busService: Option<string>, kind: Option<string>)

  /** The edge `Edge(source=None, destination=n, distance=0.0)` that seeds a search at `n`. */
  function Synthetic(n: Node): Edge
  {
    Edge(None, n, 0.0, None, None)
  }

  /** One adjacency row as delivered by the storage layer. */
  datatype Row = Row(sourceId: string, sourceName: string, sourceDescription: string,
                     sourceLat: real, sourceLong: real, sourceType: string,
                     destinationId: string, destinationName: string, destinationDescription: string,
                     destinationLat: real, destinationLong: real, destinationType: string,
                     distance: real, busService: string, edgeType: string)

  function SourceNode(r: Row): Node
  {
    Node(r.sourceId, r.sourceName, r.sourceDescription, r.sourceLat, r.sourceLong, r.sourceType)
  }

  function DestinationNode(r: Row): Node
  {
    Node(r.destinationId, r.destinationName, r.destinationDescription,
         r.destinationLat, r.destinationLong, r.destinationType)
  }

  /** The edge the graph constructor builds from a row. */
  function RowEdge(r: Row): Edge
  {
    Edge(Some(SourceNode(r)), DestinationNode(r), r.distance, Some(r.busService), Some(r.edgeType))
  }

  /** Two nodes are equal exactly when id, lat, long, type, name and description agree. */
  lemma NodeEquality(a: Node, b: Node)
    ensures a == b <==> (a.id == b.id && a.lat == b.lat && a.long == b.long &&
                         a.kind == b.kind && a.name == b.name && a.description == b.description)
  {
  }

  /** Two edges are equal exactly when source, destination, distance, type and bus service agree. */
  lemma EdgeEquality(a: Edge, b: Edge)
    ensures a == b <==> (a.source == b.source && a.destination == b.destination &&
                         a.distance == b.distance && a.kind == b.kind && a.busService == b.busService)
  {
  }
}
