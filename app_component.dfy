/**
 The decision logic of the application shell: dropping the build plate from a
 selection, turning a chosen file path into a model name, naming a newly
 loaded model node, the "Instance Part" / "Disable Instancing" toggle and the
 transform-handle guard.

 The engine and the page become state and logs: the primary viewer's operator
 stack is a sequence whose last element is the top, the selection manager's
 results arrive as parameters and the calls made on it are recorded, as are
 the handle requests, node creations and alerts. The label of the instance
 button is a field.
 */
module App {
  import opened Engine
  import opened Text
  import opened LeafTraversal
  import opened Sync
  import opened Instancing

  const InstanceLabel: string := "Instance Part"
  const DisableLabel: string := "Disable Instancing"
  const InstanceAlert: string := "Try Again. Please first select nodes from the model to instance!"
  const TransformAlert: string := "Try Again. Please first select nodes from the model to transform!"
  const ModelNodePrefix: string := "Model-"

  // ---------------------------------------------------------------------------
  // Searching and removing in lists

  /** The position of the first occurrence of x in s, or -1 when there is none. */
  function IndexOf<T(==)>(s: seq<T>, x: T): (r: int)
    ensures -1 <= r < |s|
    ensures r == -1 <==> x !in s
    ensures 0 <= r ==> s[r] == x && x !in s[..r]
  {
    if s == [] then -1
    else if s[0] == x then 0
    else
      var j := IndexOf(s[1..], x);
      if j < 0 then -1 else j + 1
  }

  /**
   s with its first occurrence of x deleted and everything else kept in order;
   s itself when x does not occur.
   */
  function RemoveFirst<T(==)>(s: seq<T>, x: T): (r: seq<T>)
    ensures x !in s ==> r == s
    ensures x in s ==> |r| == |s| - 1
    ensures multiset(r) == multiset(s) - multiset{x}
  {
    var i := IndexOf(s, x);
    if i < 0 then s
    else
      assert s == s[..i] + [s[i]] + s[i + 1..];
      s[..i] + s[i + 1..]
  }

  /** Any position holding x with no x before it is the one IndexOf reports. */
  lemma IndexOfFirst<T>(s: seq<T>, x: T, i: nat)
    requires i < |s| && s[i] == x && x !in s[..i]
    ensures IndexOf(s, x) == i
  {
  }

  /** Removal deletes exactly the position of the first occurrence. */
  lemma RemoveFirstAt<T>(s: seq<T>, x: T, i: nat)
    requires i < |s| && s[i] == x && x !in s[..i]
    ensures RemoveFirst(s, x) == s[..i] + s[i + 1..]
  {
    IndexOfFirst(s, x, i);
  }

  /** The node ids of a list of selection results, position by position. */
  function NodeIds(items: seq<SelectionItem>): seq<NodeId>
  {
    seq(|items|, k requires 0 <= k < |items| => items[k].node)
  }

  /** The node id of every selection result, collected by pushing one at a time. */
  method CollectNodeIds(items: seq<SelectionItem>) returns (ids: seq<NodeId>)
    ensures ids == NodeIds(items)
  {
    ids := [];
    var k := 0;
    while k < |items|
      invariant 0 <= k <= |items|
      invariant ids == NodeIds(items[..k])
    {
      assert NodeIds(items[..k + 1]) == NodeIds(items[..k]) + [items[k].node];
      ids := ids + [items[k].node];
      k := k + 1;
    }
    assert items[..k] == items;
  }

  lemma NodeIdsAppend(a: seq<SelectionItem>, b: seq<SelectionItem>)
    ensures NodeIds(a + b) == NodeIds(a) + NodeIds(b)
  {
  }

  /**
   The selection results with the first entry for the build plate spliced out;
   the results themselves when the plate is not among them.
   */
  function WithoutPlate(items: seq<SelectionItem>, plate: NodeId): (r: seq<SelectionItem>)
    ensures NodeIds(r) == RemoveFirst(NodeIds(items), plate)
    ensures plate !in NodeIds(items) ==> r == items
    ensures multiset(r) <= multiset(items)
  {
    var ids := NodeIds(items);
    var i := IndexOf(ids, plate);
    if i < 0 then items
    else
      assert items == items[..i] + [items[i]] + items[i + 1..];
      NodeIdsAppend(items[..i], items[i + 1..]);
      assert NodeIds(items[..i]) == ids[..i];
      var tail, tailIds := items[i + 1..], ids[i + 1..];
      assert NodeIds(tail) == tailIds by {
        forall k | 0 <= k < |tail|
          ensures NodeIds(tail)[k] == tailIds[k]
        {
        }
      }
      items[..i] + items[i + 1..]
  }

  /** The build plate's first entry, at index i, is the one dropped. */
  lemma WithoutPlateAt(items: seq<SelectionItem>, plate: NodeId, i: nat)
    requires i < |items| && items[i].node == plate
    requires forall k :: 0 <= k < i ==> items[k].node != plate
    ensures WithoutPlate(items, plate) == items[..i] + items[i + 1..]
  {
    var ids := NodeIds(items);
    assert plate !in ids[..i] by {
      forall k | 0 <= k < i
        ensures ids[..i][k] != plate
      {
      }
    }
    IndexOfFirst(ids, plate, i);
  }

  // ---------------------------------------------------------------------------
  // File names

  predicate IsSeparator(c: char)
  {
    c == '/' || c == '\\'
  }

  /** The characters a JavaScript regular expression's '.' does not match. */
  predicate IsLineTerminator(c: char)
  {
    c == '\n' || c == '\r' || c == '\U{2028}' || c == '\U{2029}'
  }

  /** The length of the first line of s: the characters before its first line terminator. */
  function FirstLineLength(s: string): (n: nat)
    ensures n <= |s|
    ensures forall k :: 0 <= k < n ==> !IsLineTerminator(s[k])
    ensures n < |s| ==> IsLineTerminator(s[n])
  {
    if s == [] || IsLineTerminator(s[0]) then 0 else 1 + FirstLineLength(s[1..])
  }

  /** The position of the last separator among the first n characters of s, or -1. */
  function LastSeparator(s: string, n: nat): (r: int)
    requires n <= |s|
    ensures -1 <= r < n
    ensures 0 <= r ==> IsSeparator(s[r])
    ensures forall k :: r < k < n ==> !IsSeparator(s[k])
  {
    if n == 0 then -1
    else if IsSeparator(s[n - 1]) then n - 1
    else LastSeparator(s, n - 1)
  }

  /**
   The file name of a path: the path with its longest prefix that ends in '/'
   or '\' and holds no line terminator removed, the path itself when there is
   no such prefix.
   */
  function Basename(path: string): (r: string)
    ensures |r| <= |path| && r == path[|path| - |r|..]
    ensures |r| < |path| ==> IsSeparator(path[|path| - |r| - 1])
    ensures forall k :: 0 <= k < |path| - |r| ==> !IsLineTerminator(path[k])
    ensures forall k :: |path| - |r| <= k < FirstLineLength(path) ==> !IsSeparator(path[k])
  {
    path[LastSeparator(path, FirstLineLength(path)) + 1..]
  }

  /** On a one-line path the file name holds no separator at all. */
  lemma BasenameHasNoSeparator(path: string)
    requires forall k :: 0 <= k < |path| ==> !IsLineTerminator(path[k])
    ensures forall k :: 0 <= k < |Basename(path)| ==> !IsSeparator(Basename(path)[k])
  {
    var r := Basename(path);
    assert FirstLineLength(path) == |path|;
    forall k | 0 <= k < |r|
      ensures !IsSeparator(r[k])
    {
      assert r[k] == path[|path| - |r| + k];
    }
  }

  /** The part of a file name before its first '.', the whole name when it has none. */
  function ModelName(fileName: string): (r: string)
    ensures |r| <= |fileName| && r == fileName[..|r|]
    ensures '.' !in r
    ensures |r| < |fileName| ==> fileName[|r|] == '.'
  {
    if fileName == [] || fileName[0] == '.' then []
    else [fileName[0]] + ModelName(fileName[1..])
  }

  /** The model name a chosen file path yields. */
  function ModelNameOfPath(path: string): string
  {
    ModelName(Basename(path))
  }

  /** From a one-line path the model name holds neither separator nor '.'. */
  lemma ModelNameOfPathIsPlain(path: string)
    requires forall k :: 0 <= k < |path| ==> !IsLineTerminator(path[k])
    ensures var r := ModelNameOfPath(path);
            '.' !in r && forall k :: 0 <= k < |r| ==> !IsSeparator(r[k])
  {
    var b := Basename(path);
    var r := ModelName(b);
    BasenameHasNoSeparator(path);
    forall k | 0 <= k < |r|
      ensures !IsSeparator(r[k])
    {
      assert r[k] == b[k];
    }
  }

  /**
   The file name of a one-line path made of a directory part, a separator and
   a name without separators is that name.
   */
  lemma BasenameOfJoin(dir: string, sep: char, name: string)
    requires IsSeparator(sep)
    requires forall k :: 0 <= k < |dir| ==> !IsLineTerminator(dir[k])
    requires forall k :: 0 <= k < |name| ==> !IsLineTerminator(name[k]) && !IsSeparator(name[k])
    ensures Basename(dir + [sep] + name) == name
  {
    var p := dir + [sep] + name;
    assert forall k :: 0 <= k < |p| ==> !IsLineTerminator(p[k]) by {
      forall k | 0 <= k < |p|
        ensures !IsLineTerminator(p[k])
      {
        if k > |dir| {
          assert p[k] == name[k - |dir| - 1];
        }
      }
    }
    assert FirstLineLength(p) == |p|;
    var r := LastSeparator(p, |p|);
    assert IsSeparator(p[|dir|]);
    assert r == |dir|;
  }

  /** The model name of a file name whose stem has no '.' is that stem, whatever follows the '.'. */
  lemma {:induction false} ModelNameOfStem(stem: string, rest: string)
    requires '.' !in stem
    ensures ModelName(stem + "." + rest) == stem
  {
    var f := stem + "." + rest;
    if stem == [] {
      assert f[0] == '.';
    } else {
      assert f[0] == stem[0];
      assert f[1..] == stem[1..] + "." + rest;
      ModelNameOfStem(stem[1..], rest);
      assert stem == [stem[0]] + stem[1..];
    }
  }

  /**
   The name of a newly loaded model's node when the root already has count
   children: "Model-" followed by count + 1 in decimal.
   */
  function ModelNodeName(count: nat): (r: string)
    ensures |r| > |ModelNodePrefix| && r[..|ModelNodePrefix|] == ModelNodePrefix
    ensures var digits := r[|ModelNodePrefix|..];
            AllDigits(digits) && digits[0] != '0' && DecimalValue(digits) == count + 1
  {
    var digits := NatToDecimal(count + 1);
    assert (ModelNodePrefix + digits)[|ModelNodePrefix|..] == digits;
    ModelNodePrefix + digits
  }

  // ---------------------------------------------------------------------------
  // Operator stack

  /** Enabling pushes the instance operator and removes Select, so the instance operator ends on top. */
  lemma EnableLeavesInstanceOnTop(ops: seq<OperatorId>, handle: OperatorId)
    requires handle != Select
    ensures var after := RemoveFirst(ops + [handle], Select);
            after != [] && after[|after| - 1] == handle
  {
    var s := ops + [handle];
    if Select in s {
      var i := IndexOf(s, Select);
      assert i < |ops|;
      assert (s[..i] + s[i + 1..])[|s| - 2] == s[|s| - 1];
    }
  }

  /**
   Disabling after enabling gives back the operators the stack held before,
   counted with multiplicity, when Select was among them.
   */
  lemma ToggleRestoresOperators(ops: seq<OperatorId>, handle: OperatorId)
    requires Select in ops && handle != Select
    ensures multiset(RemoveFirst(RemoveFirst(ops + [handle], Select), handle) + [Select]) == multiset(ops)
  {
    var enabled := RemoveFirst(ops + [handle], Select);
    assert multiset(ops + [handle]) == multiset(ops) + multiset{handle};
    assert handle in multiset(enabled);
    assert handle in enabled;
  }

  /** Transform-handle requests sent to the transform operator. */
  datatype HandleRequest = AddHandles(nodes: seq<NodeId>) | ShowHandles

  /** Calls made on the primary viewer's selection manager. */
  datatype SelectionRequest =
    | Deselect(item: SelectionItem)
    | ClearSelection
    | HighlightNodeSelection(on: bool)
    | HighlightFaceElementSelection(on: bool)
    | PickTolerance(tolerance: real)

  /** A node created in one viewer's model under its absolute root. */
  datatype NodeCreation = NodeCreation(viewer: ViewerId, name: string)

  class AppComponent {
    const instanceOp: InstanceOperator
    const instanceHandle: OperatorId
    const transformHandle: OperatorId
    /** Names of the models loaded, once per viewer they were loaded into. */
    var modelList: seq<string>
    /** The primary viewer's operator stack, top last. */
    var operators: seq<OperatorId>
    /** The text of the instance button. */
    var instanceLabel: string
    /** The node whose information the page shows. */
    var shownNode: Option<NodeId>
    var selectionRequests: seq<SelectionRequest>
    var handleRequests: seq<HandleRequest>
    var nodeCreations: seq<NodeCreation>
    var alerts: seq<string>

    /**
     Start-up of the page: no models yet, the engine's own Handle operator
     taken off the stack, and a fresh instance operator on the shared registry
     registered under instanceHandle.
     */
    constructor (viewSync: SyncHelper, initialOperators: seq<OperatorId>,
                 instanceHandle: OperatorId, transformHandle: OperatorId, initialLabel: string)
      ensures fresh(instanceOp) && instanceOp.viewSync == viewSync
      ensures instanceOp.mainViewer == viewSync.mainViewer && instanceOp.attachedViewers == viewSync.attachedViewers
      ensures instanceOp.ptDown == Point2(0.0, 0.0)
      ensures instanceOp.currentNodes == [] && instanceOp.nodePosZ == 0.0
      ensures instanceOp.created == [] && instanceOp.picks == [] && instanceOp.alerts == []
      ensures this.instanceHandle == instanceHandle && this.transformHandle == transformHandle
      ensures modelList == [] && operators == RemoveFirst(initialOperators, Handle)
      ensures instanceLabel == initialLabel && shownNode == None
      ensures selectionRequests == [] && handleRequests == [] && nodeCreations == [] && alerts == []
    {
      modelList := [];
      operators := RemoveFirst(initialOperators, Handle);
      instanceOp := new InstanceOperator(viewSync);
      this.instanceHandle := instanceHandle;
      this.transformHandle := transformHandle;
      instanceLabel := initialLabel;
      shownNode := None;
      selectionRequests := [];
      handleRequests := [];
      nodeCreations := [];
      alerts := [];
    }

    /**
     The primary viewer's selection callback: the first entry for the build
     plate is deselected and dropped; if nothing else was selected nothing is
     shown, otherwise the first remaining entry's node is.
     */
    method OnSelectionArray(events: seq<SelectionItem>, plate: NodeId)
      modifies this`selectionRequests, this`shownNode
      ensures plate !in NodeIds(events) ==> selectionRequests == old(selectionRequests)
      ensures plate in NodeIds(events) ==>
                selectionRequests == old(selectionRequests) + [Deselect(events[IndexOf(NodeIds(events), plate)])]
      ensures WithoutPlate(events, plate) == [] ==> shownNode == old(shownNode)
      ensures WithoutPlate(events, plate) != [] ==> shownNode == Some(WithoutPlate(events, plate)[0].node)
    {
      var selectionIds := CollectNodeIds(events);
      var foundIndex := IndexOf(selectionIds, plate);
      var remaining := events;
      if foundIndex != -1 {
        selectionRequests := selectionRequests + [Deselect(remaining[foundIndex])];
        remaining := remaining[..foundIndex] + remaining[foundIndex + 1..];
        FirstPlateIndex(events, plate, foundIndex);
        WithoutPlateAt(events, plate, foundIndex);
      }
      if |remaining| == 0 {
        return;
      }
      shownNode := Some(remaining[0].node);
    }

    /**
     Loads a model into one viewer: creates a node named after the number of
     models already under the root and records the model's name.
     */
    method LoadModel(modelName: string, viewer: ViewerId, scene: Scene) returns (nodeName: string)
      modifies this`modelList, this`nodeCreations
      ensures nodeName == ModelNodeName(|scene.tree.children(scene.root)|)
      ensures nodeCreations == old(nodeCreations) + [NodeCreation(viewer, nodeName)]
      ensures modelList == old(modelList) + [modelName]
    {
      var modelNum := |scene.tree.children(scene.root)|;
      nodeName := ModelNodeName(modelNum);
      nodeCreations := nodeCreations + [NodeCreation(viewer, nodeName)];
      modelList := modelList + [modelName];
    }

    /**
     The instance button. Labelled "Instance Part" with a selection: hand the
     selected nodes to the instance operator, push it, take Select off the
     stack and switch selection highlighting off. Labelled "Instance Part"
     without a selection: only alert. Any other label: clear the selection,
     take the instance operator off, push Select and switch highlighting back
     on.
     */
    method InstanceButton(selectionItems: seq<SelectionItem>, scene: Scene)
      requires WellRanked(scene.tree)
      modifies this`instanceLabel, this`operators, this`selectionRequests, this`alerts
      modifies instanceOp`currentNodes, instanceOp`nodePosZ
      ensures old(instanceLabel) == InstanceLabel && selectionItems != [] ==>
                && instanceLabel == DisableLabel
                && instanceOp.currentNodes == BfsLeaves(scene.tree, NodeIds(selectionItems))
                && instanceOp.nodePosZ == Height(scene.bounds(instanceOp.currentNodes))
                && operators == RemoveFirst(old(operators) + [instanceHandle], Select)
                && selectionRequests == old(selectionRequests)
                     + [HighlightNodeSelection(false), HighlightFaceElementSelection(false), PickTolerance(0.0)]
                && alerts == old(alerts)
      ensures old(instanceLabel) == InstanceLabel && selectionItems == [] ==>
                && instanceLabel == old(instanceLabel) && operators == old(operators)
                && instanceOp.currentNodes == old(instanceOp.currentNodes)
                && instanceOp.nodePosZ == old(instanceOp.nodePosZ)
                && selectionRequests == old(selectionRequests)
                && alerts == old(alerts) + [InstanceAlert]
      ensures old(instanceLabel) != InstanceLabel ==>
                && instanceLabel == InstanceLabel
                && operators == RemoveFirst(old(operators), instanceHandle) + [Select]
                && selectionRequests == old(selectionRequests)
                     + [ClearSelection, HighlightNodeSelection(true), HighlightFaceElementSelection(true)]
                && instanceOp.currentNodes == old(instanceOp.currentNodes)
                && instanceOp.nodePosZ == old(instanceOp.nodePosZ)
                && alerts == old(alerts)
    {
      if instanceLabel == InstanceLabel {
        var nodeIds := CollectNodeIds(selectionItems);
        if |selectionItems| != 0 {
          instanceLabel := DisableLabel;
          instanceOp.SetNodesToInstance(scene, nodeIds);
          operators := RemoveFirst(operators + [instanceHandle], Select);
          selectionRequests := selectionRequests
            + [HighlightNodeSelection(false), HighlightFaceElementSelection(false), PickTolerance(0.0)];
        } else {
          alerts := alerts + [InstanceAlert];
        }
      } else {
        instanceLabel := InstanceLabel;
        operators := RemoveFirst(operators, instanceHandle) + [Select];
        selectionRequests := selectionRequests
          + [ClearSelection, HighlightNodeSelection(true), HighlightFaceElementSelection(true)];
      }
    }

    /**
     The handles button: with a selection, ask the transform operator to add
     handles to the selected nodes and show them, and push it; without one,
     only alert.
     */
    method HandleButton(selectionItems: seq<SelectionItem>)
      modifies this`handleRequests, this`operators, this`alerts
      ensures selectionItems != [] ==>
                && handleRequests == old(handleRequests) + [AddHandles(NodeIds(selectionItems)), ShowHandles]
                && operators == old(operators) + [transformHandle]
                && alerts == old(alerts)
      ensures selectionItems == [] ==>
                handleRequests == old(handleRequests) && operators == old(operators)
                && alerts == old(alerts) + [TransformAlert]
    {
      var nodeIds := CollectNodeIds(selectionItems);
      if |selectionItems| != 0 {
        handleRequests := handleRequests + [AddHandles(nodeIds), ShowHandles];
        operators := operators + [transformHandle];
      } else {
        alerts := alerts + [TransformAlert];
      }
    }
  }

  /** The index IndexOf finds among the node ids is the first entry for that node. */
  lemma FirstPlateIndex(items: seq<SelectionItem>, plate: NodeId, i: int)
    requires i == IndexOf(NodeIds(items), plate) && i >= 0
    ensures i < |items| && items[i].node == plate
    ensures forall k :: 0 <= k < i ==> items[k].node != plate
  {
    var ids := NodeIds(items);
    forall k | 0 <= k < i
      ensures items[k].node != plate
    {
      assert ids[..i][k] == items[k].node;
    }
  }
}
