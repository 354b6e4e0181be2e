/**
 The instance placement operator: a pointer handler on the primary viewer that
 turns a click on the printing plane into one mesh-instance request per view
 for every leaf of the nodes it was given.

 Engine calls become values and logs: the model tree and node queries come in
 as a Scene, the pick result as a SelectionItem, and the operator records the
 pick queries it issues, the creation requests it sends (in issue order) and
 the alerts it raises. Promises are taken to settle at once, in the order the
 code issues them.
 */
module Instancing {
  import opened Engine
  import opened Text
  import opened LeafTraversal
  import opened Sync

  const PrintingPlaneName: string := "printingPlane"
  const PlaneAlert: string := "Please select a point on the Printing Plane"

  /** What a mesh-instance request carries. */
  datatype MeshInstanceData = MeshInstanceData(
    mesh: MeshId,
    transform: Matrix,
    name: string,
    faceColor: Color,
    lineColor: Color)

  /** One creation request, sent to one viewer's model. */
  datatype Creation = Creation(viewer: ViewerId, data: MeshInstanceData)

  /** A pick may place geometry only when it hit an entity of the node named exactly "printingPlane". */
  predicate IsPlacementTarget(scene: Scene, pick: SelectionItem)
  {
    pick.isEntity && scene.name(pick.node) == PrintingPlaneName
  }

  /** The vertical extent of a bounding box. */
  function Height(box: Box): real
  {
    box.max.z - box.min.z
  }

  /**
   The transform of an instance: the leaf's net matrix with its translation set
   to (x, y) of the placement point and the recorded height; rotation, scale and
   the last row are kept.
   */
  function PlacedTransform(net: Matrix, position: Point3, z: real): (r: Matrix)
    ensures r[12] == position.x && r[13] == position.y && r[14] == z
    ensures forall k :: 0 <= k < 12 || k == 15 ==> r[k] == net[k]
  {
    net[12 := position.x][13 := position.y][14 := z]
  }

  /**
   The display name of every instance: the whole leaf list printed as an
   array between "Node " and " Instance"; the part in between splits at its
   commas into the decimal forms of the leaves, in order.
   */
  function InstanceName(nodes: seq<NodeId>): (r: string)
    ensures |r| >= 14 && r[..5] == "Node " && r[|r| - 9..] == " Instance"
    ensures nodes != [] ==> SplitCommas(r[5..|r| - 9]) == DecimalFields(nodes)
  {
    var middle := JoinDecimal(nodes);
    var r := "Node " + middle + " Instance";
    assert r[5..|r| - 9] == middle;
    if nodes == [] then r
    else
      SplitJoinDecimal(nodes);
      r
  }

  /** The request data built for the leaf at the given index of the leaf list. */
  function InstanceData(scene: Scene, nodes: seq<NodeId>, index: nat, position: Point3, z: real): MeshInstanceData
    requires index < |nodes|
  {
    var leaf := nodes[index];
    MeshInstanceData(
      scene.meshId(leaf),
      PlacedTransform(scene.netMatrix(leaf), position, z),
      InstanceName(nodes),
      scene.faceColor(leaf),
      Black)
  }

  /** One request per attached viewer, in registration order, all carrying the same data. */
  function AttachedBatch(data: MeshInstanceData, attached: seq<ViewerId>): (r: seq<Creation>)
    ensures |r| == |attached|
    ensures forall j :: 0 <= j < |attached| ==> r[j] == Creation(attached[j], data)
  {
    if attached == [] then [] else [Creation(attached[0], data)] + AttachedBatch(data, attached[1..])
  }

  /**
   The requests for one leaf: |attached| + 1 identical payloads, the first to the
   primary viewer and then one to each attached viewer in order.
   */
  function Batch(data: MeshInstanceData, main: ViewerId, attached: seq<ViewerId>): (r: seq<Creation>)
    ensures |r| == |attached| + 1
    ensures r[0] == Creation(main, data)
    ensures forall j :: 0 <= j < |attached| ==> r[j + 1] == Creation(attached[j], data)
    ensures forall j :: 0 <= j < |r| ==> r[j].data == data
  {
    [Creation(main, data)] + AttachedBatch(data, attached)
  }

  /** The viewer that receives request j of a batch. */
  function Destination(main: ViewerId, attached: seq<ViewerId>, j: nat): ViewerId
    requires j <= |attached|
  {
    if j == 0 then main else attached[j - 1]
  }

  /** The request payloads of a placement, one per leaf, in leaf order. */
  function LeafRequests(scene: Scene, nodes: seq<NodeId>, position: Point3, z: real): seq<MeshInstanceData>
  {
    seq(|nodes|, i requires 0 <= i < |nodes| => InstanceData(scene, nodes, i, position, z))
  }

  /** The creation requests for a list of payloads: one batch per payload, in order. */
  function Fanout(payloads: seq<MeshInstanceData>, main: ViewerId, attached: seq<ViewerId>): seq<Creation>
  {
    if payloads == [] then []
    else Fanout(payloads[..|payloads| - 1], main, attached) + Batch(payloads[|payloads| - 1], main, attached)
  }

  /** Everything one placement at the given point sends, for the given leaves. */
  function Placement(scene: Scene, nodes: seq<NodeId>, main: ViewerId, attached: seq<ViewerId>,
                     position: Point3, z: real): seq<Creation>
  {
    Fanout(LeafRequests(scene, nodes, position, z), main, attached)
  }

  lemma {:induction false} FanoutLength(payloads: seq<MeshInstanceData>, main: ViewerId, attached: seq<ViewerId>)
    ensures |Fanout(payloads, main, attached)| == |payloads| * (|attached| + 1)
  {
    if payloads != [] {
      FanoutLength(payloads[..|payloads| - 1], main, attached);
      assert |payloads| * (|attached| + 1) == (|payloads| - 1) * (|attached| + 1) + (|attached| + 1);
    }
  }

  lemma AppendAssociates<T>(a: seq<T>, b: seq<T>, c: seq<T>)
    ensures (a + b) + c == a + (b + c)
  {
  }

  /** Handling one more payload appends its batch to the log. */
  lemma FanoutSnoc(payloads: seq<MeshInstanceData>, k: nat, main: ViewerId, attached: seq<ViewerId>)
    requires k < |payloads|
    ensures Fanout(payloads[..k + 1], main, attached) == Fanout(payloads[..k], main, attached) + Batch(payloads[k], main, attached)
  {
    assert payloads[..k + 1][..k] == payloads[..k];
  }

  /** The requests for two runs of payloads are the requests for the first run followed by those for the second. */
  lemma {:induction false} FanoutAppend(a: seq<MeshInstanceData>, b: seq<MeshInstanceData>, main: ViewerId, attached: seq<ViewerId>)
    ensures Fanout(a + b, main, attached) == Fanout(a, main, attached) + Fanout(b, main, attached)
    decreases |b|
  {
    if b == [] {
      assert a + b == a;
    } else {
      var init := b[..|b| - 1];
      assert (a + b)[..|a + b| - 1] == a + init;
      FanoutAppend(a, init, main, attached);
      AppendAssociates(Fanout(a, main, attached), Fanout(init, main, attached), Batch(b[|b| - 1], main, attached));
    }
  }

  /** Request j of a batch goes to its destination viewer with the batch's payload. */
  lemma BatchAt(data: MeshInstanceData, main: ViewerId, attached: seq<ViewerId>, j: nat)
    requires j <= |attached|
    ensures j < |Batch(data, main, attached)|
    ensures Batch(data, main, attached)[j] == Creation(Destination(main, attached, j), data)
  {
    if j > 0 {
      assert Batch(data, main, attached)[(j - 1) + 1] == Creation(attached[j - 1], data);
    }
  }

  /**
   A placement sends exactly |attached| + 1 requests per leaf, and none for an
   empty leaf list.
   */
  lemma PlacementCount(scene: Scene, nodes: seq<NodeId>, main: ViewerId, attached: seq<ViewerId>,
                       position: Point3, z: real)
    ensures |Placement(scene, nodes, main, attached, position, z)| == |nodes| * (|attached| + 1)
    ensures Placement(scene, nodes, main, attached, position, z) == [] <==> nodes == []
  {
    FanoutLength(LeafRequests(scene, nodes, position, z), main, attached);
  }

  /**
   The requests of a placement are grouped leaf by leaf, in leaf order: the
   group for leaf i is one batch of identical payloads for the primary viewer
   and each attached viewer, preceded by the groups of the leaves before it
   and followed by those of the leaves after it.
   */
  lemma PlacementGroups(scene: Scene, nodes: seq<NodeId>, main: ViewerId, attached: seq<ViewerId>,
                        position: Point3, z: real, i: nat)
    requires i < |nodes|
    ensures var payloads := LeafRequests(scene, nodes, position, z);
            Placement(scene, nodes, main, attached, position, z)
            == Fanout(payloads[..i], main, attached)
               + Batch(InstanceData(scene, nodes, i, position, z), main, attached)
               + Fanout(payloads[i + 1..], main, attached)
  {
    var payloads := LeafRequests(scene, nodes, position, z);
    assert payloads == (payloads[..i] + [payloads[i]]) + payloads[i + 1..];
    FanoutAppend(payloads[..i] + [payloads[i]], payloads[i + 1..], main, attached);
    FanoutAppend(payloads[..i], [payloads[i]], main, attached);
    assert [payloads[i]][..0] == [];
  }

  /**
   Request j for leaf i goes to the primary viewer when j is 0 and to attached
   viewer j - 1 otherwise; it carries leaf i's mesh and effective face colour,
   a black line colour, the name of the whole leaf list, and leaf i's net matrix with its translation moved to
   (x, y) of the placement point and the recorded height, every other entry kept.
   */
  lemma PlacementRequest(scene: Scene, nodes: seq<NodeId>, main: ViewerId, attached: seq<ViewerId>,
                         position: Point3, z: real, i: nat, j: nat)
    requires i < |nodes| && j <= |attached|
    ensures var c := Batch(InstanceData(scene, nodes, i, position, z), main, attached)[j];
            var net := scene.netMatrix(nodes[i]);
            && c.viewer == Destination(main, attached, j)
            && c.data.mesh == scene.meshId(nodes[i])
            && c.data.faceColor == scene.faceColor(nodes[i]) && c.data.lineColor == Black
            && c.data.name == InstanceName(nodes)
            && c.data.transform[12] == position.x && c.data.transform[13] == position.y
            && c.data.transform[14] == z
            && forall k :: 0 <= k < 12 || k == 15 ==> c.data.transform[k] == net[k]
  {
    BatchAt(InstanceData(scene, nodes, i, position, z), main, attached, j);
  }

  /**
   The request for the leaf at the given index: its mesh and effective face
   colour, and a fresh copy of its net matrix whose translation slots are
   overwritten in place.
   */
  method BuildRequest(scene: Scene, nodes: seq<NodeId>, index: nat, position: Point3, z: real)
    returns (data: MeshInstanceData)
    requires index < |nodes|
    ensures data == InstanceData(scene, nodes, index, position, z)
  {
    var leaf := nodes[index];
    var meshId := scene.meshId(leaf);
    var color := scene.faceColor(leaf);
    var net := scene.netMatrix(leaf);
    var m := new real[16](k requires 0 <= k < 16 => net[k]);
    m[12] := position.x;
    m[13] := position.y;
    m[14] := z;
    assert m[..] == PlacedTransform(net, position, z);
    data := MeshInstanceData(meshId, m[..], InstanceName(nodes), color, Black);
  }

  class InstanceOperator {
    const viewSync: SyncHelper
    const mainViewer: ViewerId
    const attachedViewers: seq<ViewerId>
    var ptDown: Point2
    var currentNodes: seq<NodeId>
    var nodePosZ: real
    /** Pick queries issued on the primary viewer, in order. */
    var picks: seq<Point2>
    /** Mesh-instance creation requests, in the order they are issued. */
    var created: seq<Creation>
    /** Alert messages shown to the user. */
    var alerts: seq<string>

    constructor (viewSync: SyncHelper)
      ensures this.viewSync == viewSync
      ensures mainViewer == viewSync.mainViewer && attachedViewers == viewSync.attachedViewers
      ensures ptDown == Point2(0.0, 0.0) && currentNodes == [] && nodePosZ == 0.0
      ensures picks == [] && created == [] && alerts == []
    {
      this.viewSync := viewSync;
      mainViewer := viewSync.mainViewer;
      attachedViewers := viewSync.attachedViewers;
      ptDown := Point2(0.0, 0.0);
      currentNodes := [];
      nodePosZ := 0.0;
      picks := [];
      created := [];
      alerts := [];
    }

    /**
     The leaves under the start nodes, in breadth-first order. The worklist starts
     as a copy of the start nodes and only ever grows at its end.
     */
    method GatherChildLeafNodes(tree: Hierarchy, startNodes: seq<NodeId>) returns (leaves: seq<NodeId>)
      requires WellRanked(tree)
      ensures leaves == BfsLeaves(tree, startNodes)
      ensures forall x :: x in leaves <==> IsLeaf(tree, x) && ReachesAny(tree, startNodes, x)
      ensures startNodes == [] ==> leaves == []
    {
      var nodes := startNodes;
      leaves := [];
      var i := 0;
      while i < |nodes|
        invariant 0 <= i <= |nodes|
        invariant |startNodes| <= |nodes| && nodes[..|startNodes|] == startNodes
        invariant leaves + BfsLeaves(tree, nodes[i..]) == BfsLeaves(tree, startNodes)
        decreases Load(tree, nodes[i..])
      {
        var node := nodes[i];
        var kids := tree.children(node);
        ghost var before := nodes;
        if |kids| == 0 {
          leaves := leaves + [node];
        }
        var j := 0;
        while j < |kids|
          invariant 0 <= j <= |kids|
          invariant nodes == before + kids[..j]
        {
          nodes := nodes + [kids[j]];
          j := j + 1;
        }
        assert nodes[i + 1..] == before[i..][1..] + tree.children(before[i..][0]);
        LoadStep(tree, before[i..]);
        i := i + 1;
      }
      forall x
        ensures x in leaves <==> IsLeaf(tree, x) && ReachesAny(tree, startNodes, x)
      {
        BfsLeavesExact(tree, startNodes, x);
      }
    }

    /**
     Replaces the node list wholesale with the leaves under nodeIds and records
     the height of their combined bounding box as the z of later placements.
     */
    method SetNodesToInstance(scene: Scene, nodeIds: seq<NodeId>)
      requires WellRanked(scene.tree)
      modifies this`currentNodes, this`nodePosZ
      ensures currentNodes == BfsLeaves(scene.tree, nodeIds)
      ensures nodePosZ == Height(scene.bounds(currentNodes))
    {
      currentNodes := GatherChildLeafNodes(scene.tree, nodeIds);
      var box := scene.bounds(currentNodes);
      nodePosZ := Height(box);
    }

    /** Pointer down only records where it happened. */
    method OnMouseDown(position: Point2)
      modifies this`ptDown
      ensures ptDown == position
    {
      ptDown := position;
    }

    /**
     Pointer up at the recorded down position is a click and starts a placement
     with the engine's pick result for that position; anywhere else it is a drag
     and changes nothing.
     */
    method OnMouseUp(position: Point2, scene: Scene, pick: SelectionItem)
      modifies this`picks, this`created, this`alerts, viewSync`needsUpdate
      ensures position != ptDown ==>
                picks == old(picks) && created == old(created) && alerts == old(alerts)
                && viewSync.needsUpdate == old(viewSync.needsUpdate)
      ensures position == ptDown ==> picks == old(picks) + [position]
      ensures position == ptDown && IsPlacementTarget(scene, pick) ==>
                created == old(created) + Placement(scene, currentNodes, mainViewer, attachedViewers,
                                                    pick.position, nodePosZ)
                && alerts == old(alerts)
                && viewSync.needsUpdate == (old(viewSync.needsUpdate) || currentNodes != [])
      ensures position == ptDown && !IsPlacementTarget(scene, pick) ==>
                created == old(created) && alerts == old(alerts) + [PlaneAlert]
                && viewSync.needsUpdate == old(viewSync.needsUpdate)
    {
      if position == ptDown {
        InsertModeMouseUp(position, scene, pick);
      }
    }

    /** Pointer, touch, keyboard and lifecycle events the operator ignores. */
    method OnIgnoredEvent(event: IgnoredEvent)
      ensures ptDown == old(ptDown) && currentNodes == old(currentNodes) && nodePosZ == old(nodePosZ)
      ensures picks == old(picks) && created == old(created) && alerts == old(alerts)
    {
    }

    /**
     Issues the pick and validates it: a hit on the printing plane places the
     geometry at the picked point; anything else raises an alert and requests
     nothing.
     */
    method InsertModeMouseUp(position: Point2, scene: Scene, pick: SelectionItem)
      modifies this`picks, this`created, this`alerts, viewSync`needsUpdate
      ensures picks == old(picks) + [position]
      ensures IsPlacementTarget(scene, pick) ==>
                created == old(created) + Placement(scene, currentNodes, mainViewer, attachedViewers,
                                                    pick.position, nodePosZ)
                && alerts == old(alerts)
                && viewSync.needsUpdate == (old(viewSync.needsUpdate) || currentNodes != [])
      ensures !IsPlacementTarget(scene, pick) ==>
                created == old(created) && alerts == old(alerts) + [PlaneAlert]
                && viewSync.needsUpdate == old(viewSync.needsUpdate)
    {
      picks := picks + [position];
      if IsPlacementTarget(scene, pick) {
        InsertGeometry(scene, pick.position);
      } else {
        alerts := alerts + [PlaneAlert];
      }
    }

    /**
     For each leaf, copies its net matrix, overwrites the translation slots, and
     sends the same request to the primary viewer and to every attached viewer.
     */
    method InsertGeometry(scene: Scene, position: Point3)
      modifies this`created, viewSync`needsUpdate
      ensures created == old(created) + Placement(scene, currentNodes, mainViewer, attachedViewers,
                                                  position, nodePosZ)
      ensures viewSync.needsUpdate == (old(viewSync.needsUpdate) || currentNodes != [])
    {
      var nodes, z := currentNodes, nodePosZ;
      ghost var payloads := LeafRequests(scene, nodes, position, z);
      var index := 0;
      while index < |nodes|
        invariant 0 <= index <= |nodes|
        invariant created == old(created) + Fanout(payloads[..index], mainViewer, attachedViewers)
        invariant viewSync.needsUpdate == (old(viewSync.needsUpdate) || index > 0)
      {
        var data := BuildRequest(scene, nodes, index, position, z);
        ghost var done := Fanout(payloads[..index], mainViewer, attachedViewers);
        ghost var batch := Batch(data, mainViewer, attachedViewers);
        FanoutSnoc(payloads, index, mainViewer, attachedViewers);
        assert Fanout(payloads[..index + 1], mainViewer, attachedViewers) == done + batch;
        ghost var pre := created;
        Replicate(data);
        assert created == pre + batch;
        AppendAssociates(old(created), done, batch);
        index := index + 1;
      }
      assert payloads[..index] == payloads;
      assert created == old(created) + Fanout(payloads, mainViewer, attachedViewers);
    }

    /**
     Fills a list with |attached| + 1 copies of the request, then pops one for
     the primary viewer and one for each attached viewer in order, until the
     list is empty; each creation marks the views as needing an update.
     */
    method Replicate(data: MeshInstanceData)
      modifies this`created, viewSync`needsUpdate
      ensures created == old(created) + Batch(data, mainViewer, attachedViewers)
      ensures viewSync.needsUpdate
    {
      var mid: seq<MeshInstanceData> := [];
      var numInstances := |attachedViewers| + 1;
      var i := 0;
      while i < numInstances
        invariant 0 <= i <= numInstances
        invariant |mid| == i && forall k :: 0 <= k < |mid| ==> mid[k] == data
      {
        mid := mid + [data];
        i := i + 1;
      }
      ghost var batch := Batch(data, mainViewer, attachedViewers);
      var request := mid[|mid| - 1];
      mid := mid[..|mid| - 1];
      created := created + [Creation(mainViewer, request)];
      viewSync.SetNeedsUpdate(true);
      assert batch[..1] == [Creation(mainViewer, data)];
      var j := 0;
      while j < |attachedViewers|
        invariant 0 <= j <= |attachedViewers|
        invariant |mid| == |attachedViewers| - j && forall k :: 0 <= k < |mid| ==> mid[k] == data
        invariant created == old(created) + batch[..j + 1]
        invariant viewSync.needsUpdate
      {
        request := mid[|mid| - 1];
        mid := mid[..|mid| - 1];
        assert batch[..j + 2] == batch[..j + 1] + [Creation(attachedViewers[j], data)];
        created := created + [Creation(attachedViewers[j], request)];
        viewSync.SetNeedsUpdate(true);
        j := j + 1;
      }
      assert mid == [];
      assert batch[..j + 1] == batch;
    }
  }

  /** The handler callbacks whose bodies are empty. */
  datatype IgnoredEvent =
    | MouseMove | Mousewheel | TouchStart | TouchMove | TouchEnd
    | KeyDown | KeyUp | Deactivate | Activate | ViewOrientationChange | StopInteraction
}
