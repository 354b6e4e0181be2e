# Part instancing for a 3D print-preparation viewer

This project is a Dafny model of two parts of a browser application that lays
out parts on a 3D printer's build plate. The application drives two web
viewers of an external rendering engine: a primary viewer and an attached
overhead viewer.

- **The instance operator** (`Instancing.InstanceOperator`) is a pointer
  handler on the primary viewer. It is given the selected nodes and keeps
  their leaf nodes. A click (pointer up where pointer down happened) on the
  node named `printingPlane` then asks every viewer to create a copy of each
  leaf's mesh at the clicked point. Each copy keeps the leaf's rotation and
  scale, but its translation is replaced: x and y become the clicked point's,
  and z becomes the height of the leaves' combined bounding box.
- **The application shell** (`App`) holds the decisions made by the page
  around the operator:
  - it drops the build plate from a selection;
  - it derives a model name from a chosen file path;
  - it names the node of a newly loaded model;
  - it toggles instancing on and off with the "Instance Part" /
    "Disable Instancing" button;
  - it refuses to add transform handles when nothing is selected.

The engine is reduced to values (module `Engine`):

- a `Scene` stands for the engine's answers about a model:
  - the tree, as children lists with a rank that decreases from parent to
    child, so the tree is finite and acyclic;
  - node names, mesh ids, effective face colours and net matrices;
  - the combined bounding box of a list of nodes;
- a `SelectionItem` stands for a pick or selection result;
- the primary viewer's operator stack is a sequence with its top last.

Calls on the engine, the selection manager and the transform operator are
recorded in logs, in the order the code issues them. This covers creation
requests, alerts, pick queries, selection-manager calls, handle requests and
node creations.

`LeafTraversal.BfsLeaves` defines, with a worklist, the leaves that the
operator's loop collects. `LeafTraversal.BfsLeavesExact` characterises them
without reference to order. `Instancing.Placement` is everything one click
sends: one batch per leaf, each batch one request to the primary viewer and
then one to each attached viewer.

## Model

| member | source | states |
|---|---|---|
| Instancing.InstanceOperator.constructor | src/common/instanceOperator.ts:12-19 | a new operator takes the primary and attached viewers from the registry and starts with an empty node list, height 0, the pointer-down point at the origin and empty logs |
| Instancing.InstanceOperator.GatherChildLeafNodes | src/common/instanceOperator.ts:69-85 | the worklist loop returns exactly the reference breadth-first leaf list of the start nodes; x is returned if and only if it has no children and is a start node or a descendant of one; no start nodes give no leaves |
| LeafTraversal.BfsLeavesExact | src/common/instanceOperator.ts:69-85 | the leaves a worklist yields are exactly the childless nodes among the worklist's nodes and their descendants (both directions) |
| LeafTraversal.BfsLeavesAreLeaves | src/common/instanceOperator.ts:76-78 | every node in the leaf list has no children |
| LeafTraversal.BfsLeavesDistinct | src/common/instanceOperator.ts:71-83 | in a tree-shaped hierarchy, a selection whose nodes have pairwise disjoint subtrees yields every leaf at most once |
| LeafTraversal.StepKeepsDisjoint | src/common/instanceOperator.ts:74-82 | in a tree-shaped hierarchy, taking the next node off a disjoint worklist and appending its children keeps the worklist disjoint |
| LeafTraversal.OverlappingSelectionRepeatsLeaves | src/common/instanceOperator.ts:71-83 | with no visited set, selecting a node together with its only child (a leaf) yields that leaf twice |
| LeafTraversal.TwoLevelSelection | src/common/instanceOperator.ts:73-83 | selecting a leaf and then a node with two leaf children yields the leaf first, then the two children in order (breadth-first discovery order) |
| Instancing.InstanceOperator.SetNodesToInstance | src/common/instanceOperator.ts:21-26 | the node list is replaced wholesale by the leaves of the given nodes, and the height becomes max.z - min.z of their combined bounding box |
| Instancing.InstanceOperator.OnMouseDown | src/common/instanceOperator.ts:28-30 | only the pointer-down position changes, and it becomes the event's position |
| Instancing.InstanceOperator.OnMouseUp | src/common/instanceOperator.ts:32-37 | a pick and its placement or alert happen if and only if the up position equals the down position; otherwise nothing changes |
| Instancing.InstanceOperator.OnIgnoredEvent | src/common/instanceOperator.ts:39-53 | move, wheel, touch, key, activate, deactivate, view-orientation and stop events change no state of the operator |
| Instancing.InstanceOperator.InsertModeMouseUp | src/common/instanceOperator.ts:55-67 | a pick is issued at the click point; an entity hit on the node named exactly "printingPlane" (IsPlacementTarget) appends the whole placement and raises no alert; any other result raises the plane alert and requests nothing |
| Instancing.InstanceOperator.InsertGeometry | src/common/instanceOperator.ts:87-113 | the creation log grows by exactly the placement for the current leaves at the picked point and the recorded height; the needs-update flag is set if and only if at least one leaf was placed (or it was already set) |
| Instancing.InstanceOperator.Replicate | src/common/instanceOperator.ts:95-109 | filling the list with one copy per viewer and popping one for the primary viewer, then one per attached viewer, sends the same request to the primary viewer and then to every attached viewer in order, and sets the needs-update flag |
| Instancing.BuildRequest | src/common/instanceOperator.ts:90-98 | the request built by overwriting the matrix slots in place equals the reference request for that leaf |
| Instancing.PlacedTransform | src/common/instanceOperator.ts:91-94 | entries 12, 13 and 14 become position.x, position.y and the recorded height; the other 13 entries are the net matrix's |
| Instancing.Batch | src/common/instanceOperator.ts:96-109 | one leaf's batch has one request per viewer, all with the same data, the first for the primary viewer and request j + 1 for attached viewer j |
| Instancing.AttachedBatch | src/common/instanceOperator.ts:104-109 | one request per attached viewer, in registration order, all with the same data |
| Instancing.BatchAt | src/common/instanceOperator.ts:100-109 | request j of a batch goes to the primary viewer when j is 0 and to attached viewer j - 1 otherwise |
| Instancing.FanoutAppend | src/common/instanceOperator.ts:89-111 | the requests for two runs of leaves are the requests for the first run followed by those for the second |
| Instancing.FanoutSnoc | src/common/instanceOperator.ts:89-111 | handling one more leaf appends exactly its batch to the requests |
| Instancing.FanoutLength | src/common/instanceOperator.ts:89-111 | the requests for n payloads number n times the number of viewers |
| Instancing.PlacementCount | src/common/instanceOperator.ts:88-113 | a placement sends exactly one request per viewer for each leaf, and none when there are no leaves |
| Instancing.PlacementGroups | src/common/instanceOperator.ts:88-113 | a placement's requests are grouped leaf by leaf, in leaf order: the groups of the leaves before leaf i, then leaf i's batch, then the groups of the leaves after it |
| Instancing.PlacementRequest | src/common/instanceOperator.ts:90-98 | request j for leaf i has the right destination viewer, the leaf's mesh and effective face colour, a black line colour, the name of the whole leaf list, and the leaf's net matrix with only the translation replaced |
| Text.NatToDecimal | src/app/app.component.ts:133 | a number joined to a string prints as digits only, without a leading zero, and reads back as the number |
| Text.IntToDecimal | src/common/instanceOperator.ts:98 | an integer prints as a minus sign exactly when it is negative, followed by the digits of its magnitude with no leading zero (just "0" for zero), which read back as the magnitude |
| Text.JoinDecimal | src/common/instanceOperator.ts:98 | a list of node ids prints as the empty string exactly when it is empty, and a one-element list prints as that element |
| Text.SplitJoinDecimal | src/common/instanceOperator.ts:98 | for a list of any non-zero length, splitting its printed text at the commas gives back the decimal form of every id, in order |
| Text.SplitAtFirstComma | src/common/instanceOperator.ts:98 | a comma-free field followed by a comma splits off as the first field |
| Instancing.InstanceName | src/common/instanceOperator.ts:98 | every instance is named "Node ", the printed leaf list, then " Instance"; the middle part splits at its commas into the decimal forms of the leaves, in order |
| App.AppComponent.constructor | src/app/app.component.ts:46-127 | the page starts with no models and the engine's Handle operator removed from the stack; the instance operator is new, uses the shared registry, takes its primary and attached viewers from it, and starts empty with the down point at the origin |
| App.IndexOf | src/app/app.component.ts:98 | the result is -1 exactly when the value is absent; otherwise it is the position of the first occurrence |
| App.IndexOfFirst | src/app/app.component.ts:98 | any position that holds the value, with no occurrence before it, is the position indexOf reports |
| App.RemoveFirst | src/app/app.component.ts:123 | removing a value leaves the list unchanged when the value is absent; otherwise it deletes exactly one occurrence, so the length drops by one and the multiset loses one copy |
| App.RemoveFirstAt | src/app/app.component.ts:246 | the occurrence removed is the first one; the entries before and after it are kept in order |
| App.CollectNodeIds | src/app/app.component.ts:236-240 | the collected ids are the node ids of the selection results, position by position |
| App.WithoutPlate | src/app/app.component.ts:97-102 | the build plate's id loses its first occurrence in the node ids and nothing else changes in them; a selection without the plate is kept as it is; only entries of the selection remain |
| App.WithoutPlateAt | src/app/app.component.ts:98-102 | the entry spliced out is the plate's first entry, and the entries before and after it keep their order |
| App.FirstPlateIndex | src/app/app.component.ts:97-98 | the index indexOf finds among the node ids is a plate entry with no plate entry before it |
| App.AppComponent.OnSelectionArray | src/app/app.component.ts:91-110 | the plate's first entry is deselected (nothing is deselected when the plate is absent); with nothing left nothing new is shown, otherwise the first remaining entry's node is shown |
| App.FirstLineLength | src/app/app.component.ts:166 | the prefix that the pattern's '.' can span ends at the first line terminator |
| App.LastSeparator | src/app/app.component.ts:166 | the last '/' or '\' within a bound, or -1 when there is none |
| App.Basename | src/app/app.component.ts:166 | the file name is a suffix of the path; the removed prefix ends in '/' or '\' and holds no line terminator; the rest of the first line holds no separator, so the removed prefix is the longest possible |
| App.BasenameHasNoSeparator | src/app/app.component.ts:166 | the file name of a one-line path contains neither '/' nor '\' |
| App.BasenameOfJoin | src/app/app.component.ts:166 | the file name of a directory part, a separator and a separator-free name is that name |
| App.ModelName | src/app/app.component.ts:168 | the model name is the prefix before the first '.', or the whole file name when it has none; it never contains '.' |
| App.ModelNameOfStem | src/app/app.component.ts:168 | the model name of stem + "." + anything is the stem when the stem has no '.' |
| App.ModelNameOfPathIsPlain | src/app/app.component.ts:166-168 | the model name of a one-line path contains no separator and no '.' |
| App.ModelNodeName | src/app/app.component.ts:132-133 | a new model's node name is "Model-" followed by the decimal digits of the root's child count plus one |
| App.AppComponent.LoadModel | src/app/app.component.ts:131-135 | a node named after the root's child count is created in that viewer, and the model's name is appended to the model list |
| App.AppComponent.InstanceButton | src/app/app.component.ts:231-264 | "Instance Part" with a selection: the label becomes "Disable Instancing", the operator gets the selection's leaves and their height, the instance operator is pushed, Select is removed, and highlighting is switched off with pick tolerance 0. "Instance Part" without a selection: only the alert, and the label is unchanged. Any other label: the selection is cleared, the instance operator is removed, Select is pushed, highlighting is back on and the label is "Instance Part" |
| App.EnableLeavesInstanceOnTop | src/app/app.component.ts:245-246 | after enabling, the instance operator is on top of the stack |
| App.ToggleRestoresOperators | src/app/app.component.ts:245-260 | enabling and then disabling gives back the operators the stack held before, counted with multiplicity, when Select was among them |
| App.AppComponent.HandleButton | src/app/app.component.ts:213-230 | with a selection, handles are added for the selected nodes and shown, and the transform operator is pushed; without one, only the alert is raised |

## Left out

- Instancing.InstanceOperator.SetNodesToInstance: the height is set when the call returns. The source sets it when the bounding-box promise settles, so a click before that uses the old height.
- Instancing.InstanceOperator.InsertGeometry: the model issues all requests in order, as if every promise settled at once. The mesh-id query, the colour queries and the creation requests complete in any order in the source, and failures are not modelled.
- Instancing.InstanceOperator.GatherChildLeafNodes: the worklist keeps no visited set, so a selection that holds a node and one of its descendants yields repeated leaves, and each repeat gets its own batch of instances (LeafTraversal.OverlappingSelectionRepeatsLeaves). Distinct leaves are proved only for a tree-shaped hierarchy and a selection with disjoint subtrees (LeafTraversal.BfsLeavesDistinct).
- Instancing.InstanceOperator.InsertGeometry: each leaf has one mesh id, and ids are paired with leaves by position, as the source's `forEach` pairs `meshIds[index]` with `_currentNodes[index]`. The engine's mesh-id query itself is not modelled.
- Instancing.BuildRequest: the requests of one leaf share one matrix object in the source. The model gives each request an equal matrix value, so sharing and later changes to that object are not captured.
- Instancing.InstanceOperator.OnMouseUp: the down and up positions compare with exact equality on reals, not floating point. All coordinates and matrix entries are reals.
- Instancing.InstanceOperator.InsertModeMouseUp: the face-only pick configuration and the pick itself are engine behaviour. The pick result is a parameter.
- App.AppComponent.OnSelectionArray: the text written into the page (file name, file type, node id, matrix text) is not modelled. `shownNode` stands for the node it is about.
- App.AppComponent.LoadModel: loading the model file into the new node and moving it so its bounding box starts at the origin (app.component.ts:136-144) happen asynchronously in the engine and are not modelled. The scene is an input and the new node is not added to the root's children in it, so a caller that loads twice into the same viewer must pass the scene with the first node added; with the same scene both loads get the same "Model-n" name.
- App.RemoveFirst: the engine's operator manager is not part of this model. Its `remove` is taken to delete the first occurrence of the operator, like the selection splice.
- App.AppComponent.constructor: the viewers, their camera, background, axis triad and nav cube set-up (app.component.ts:37-90), and the build plate's creation are not modelled. The initial label of the instance button comes from the page template, which is not part of this model, so it is a parameter. The handles of the registered operators are parameters too.
- App.Basename: a path with a line terminator keeps everything after the first line. JavaScript's '.' does not match line terminators, so the separator-free result is proved only for one-line paths.
- Text.NatToDecimal: numbers print in plain decimal, which JavaScript does for integers below 10^21. Node ids and model counts are taken to be integers of that size.
- The file chooser, thumbnail links and the thumbnail fetch (app.component.ts:153-207) are page behaviour and are not modelled. Only the model-name derivation is.
- `arrangeButton` (app.component.ts:209-212) calls `arrangeOnPlane` and `syncNodeTransforms`, which belong to the transform operator and the sync registry. Neither is part of this model.
- The sync registry is not part of this model. `Sync.SyncHelper` keeps only the viewers the operator reads and the needs-update flag it sets; the flag starts cleared.
- The transform operator and the printing plane are not part of this model. Handle requests are recorded, and the plate's node id is a parameter of the selection callback.
