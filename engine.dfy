/**
 The part of the external viewing engine that the instance operator and the
 application shell consult, reduced to values: node handles, points, colours,
 4x4 matrices, pick results, the model tree of one view, and the identifiers of
 the operators on a viewer's interaction stack.
 */
module Engine {

  datatype Option<+T> = None | Some(value: T)

  /** A node handle in one view's model tree (the engine's numeric node id). */
  type NodeId = int

  /** A rendering surface (a web viewer); viewers are told apart by identity. */
  type ViewerId = nat

  /** The engine's handle for a piece of mesh geometry. */
  type MeshId = nat

  datatype Point2 = Point2(x: real, y: real)

  datatype Point3 = Point3(x: real, y: real, z: real)

  datatype Box = Box(min: Point3, max: Point3)

  datatype Color = Color(r: real, g: real, b: real)

  const Black: Color := Color(0.0, 0.0, 0.0)

  const IdentityEntries: seq<real> :=
    [1.0, 0.0, 0.0, 0.0,
     0.0, 1.0, 0.0, 0.0,
     0.0, 0.0, 1.0, 0.0,
     0.0, 0.0, 0.0, 1.0]

  /** The sixteen entries of a 4x4 transform, column-major: 12, 13 and 14 hold the translation. */
  type Matrix = m: seq<real> | |m| == 16 witness IdentityEntries

  /**
   What a pick or a selection reports: whether it hit an entity (a face, line or
   point), the node it names, and the 3D point it resolved to.
   */
  datatype SelectionItem = SelectionItem(isEntity: bool, node: NodeId, position: Point3)

  /**
   The shape of one view's model tree: the children the engine lists for each
   node, and a rank that strictly decreases from a node to each of its children
   (the engine's tree is finite and acyclic).
   */
  datatype Hierarchy = Hierarchy(children: NodeId -> seq<NodeId>, rank: NodeId -> nat)

  ghost predicate WellRanked(h: Hierarchy)
  {
    forall n: NodeId, k: int :: 0 <= k < |h.children(n)| ==> h.rank(h.children(n)[k]) < h.rank(n)
  }

  /**
   A snapshot of the queries one view's model answers synchronously or, for the
   bounding box, once its promise settles: the tree and its absolute root, node
   names, mesh ids, effective face colours, net matrices and combined bounds.
   */
  datatype Scene = Scene(
    tree: Hierarchy,
    root: NodeId,
    name: NodeId -> string,
    meshId: NodeId -> MeshId,
    faceColor: NodeId -> Color,
    netMatrix: NodeId -> Matrix,
    bounds: seq<NodeId> -> Box)

  /** Operators on a viewer's interaction stack: built-in ones and those registered by the application. */
  datatype OperatorId = Navigate | Select | Handle | Custom(slot: nat)
}
