# visualizeTree in Dafny

A model of `visualizeTree.py`. That module draws a binary tree with pydot and animates searches over it, one PNG frame at a time. The model covers three parts:

- **The search loop.** `searchTree` pops the front of a work list until it is empty or a node prints as the searched string. Four helpers decide what goes back on the list:
  - `DFS` puts the right branch, then the left one, at the front.
  - `DFSOrdered` does the same, but only for the branch that the string comparison of `find` with the node's value points to.
  - `BFS` appends the left branch, then the right one, at the back.
  - `sketchTree` appends at the back and draws edges, including invisible placeholder nodes.
- **The drawing registry.** `draw` keeps `nodeNames`, a dictionary from label to node that registers each label once on the edge path. It adds node and edge statements to the graph. An invisible draw overrides the edge defaults for one edge and then restores them.
- **Frames and file names.** `updateGraph` writes `vidFrames` copies of the picture and counts each in `fileCount`. Each copy is named `fileDir + fileName + '%05d' % fileCount + fileExt`. `highlightNodeFound` and `blinkNodeTraversed` combine frame writes with the list `visualizeList` of files to show.

The project has two layers.

**The value layer** holds the meaning of each operation:

- `Sequences`: general facts about sequences and sets that the other modules use.
- `PyFormat`: Python's `'%05d'` and string `<`.
- `BinaryTree`: the caller's tree, pre-order, level order and search paths.
- `Traversal`: what each helper leaves on the work list, and the pop order that results.
- `Frames`: the counter, the current path and the written files.
- `Drawing`: the registry, the graph statements and the draw calls of `sketchTree`.
- `Searching`: the whole session and `searchTree` as a recursive function.

**The imperative layer** follows the source's own objects:

- `Pydot.Graph` is the pydot graph.
- `WorkLists.WorkList` is the Python list the helpers receive by reference.
- `VisualizeTree.Visualizer` is the class.
- `VisualizeTree.DFS`, `DFSOrdered`, `BFS` and `SketchTree` are the module-level helpers.

Each method's contract states its new state as the value-layer function of its old state. The invariant `Visualizer.Valid` ties `fullFileName` and the written files to `getFileName` of their counters. The lemmas about the value-layer functions state what the source promises.

Two behaviours of the source carry over into the model unchanged:

- **An invisible root.** A root with a right branch and no left one is registered with style "invisible". Its ":" placeholder is the first draw on a fresh visualizer, and the branch for an empty registry registers the parent with that draw's style (`Drawing.SketchRootInvisible`).
- **String order in `DFSOrdered`.** `DFSOrdered` compares `find` with `str(value)` as strings. On a tree ordered by integers it can miss a value that is present (`Traversal.OrderedMissesIntegerOrder`). This is why a search tree is defined here by string order (`BinaryTree.IsSearchTree`), and why the lookup lemmas hold only for such trees.

## Model

| member | source | states |
|---|---|---|
| VisualizeTree.Visualizer.constructor | visualizeTree.py:9-25 | the constructor stores the naming settings and the counter, `fullFileName` is "", nothing is written, `visualizeList`, `treeList` and the registry are empty, and the edge defaults are `color=blue, arrowhead=vee` |
| VisualizeTree.Visualizer.SetVidFrames | visualizeTree.py:66-68 | only `vidFrames` changes, and the file invariant is kept |
| VisualizeTree.Visualizer.SearchTree | visualizeTree.py:70-89 | the loop returns the result of `Searching.SearchTree` on the state before the call: the same `found`, session (files, registry, graph, `visualizeList`) and leftover work list |
| VisualizeTree.Visualizer.Draw | visualizeTree.py:91-130 | the registry and graph after the call are `Drawing.Draw` of those before; files and `visualizeList` are unchanged |
| VisualizeTree.Visualizer.RegisterNode | visualizeTree.py:100-101 | `nodeNames[name]` is set to the drawn node and that node is added to the graph |
| VisualizeTree.Visualizer.HighlightNodeFound | visualizeTree.py:132-136 | the session after the call is `Searching.HighlightNodeFound` of the session before |
| VisualizeTree.Visualizer.AppendVisualizeList | visualizeTree.py:138-139 | `fullFileName` is appended to `visualizeList`, and nothing else changes |
| VisualizeTree.Visualizer.BlinkNodeTraversed | visualizeTree.py:141-148 | the session after the call is `Searching.BlinkNodeTraversed` of the session before |
| VisualizeTree.Visualizer.SetFileName | visualizeTree.py:150-153 | `fullFileName` becomes `getFileName(fileCount)`, and the file invariant holds again |
| VisualizeTree.Visualizer.GetFileName | visualizeTree.py:155-160 | with no count, the result is the current path; with a count, it is the path of that counter |
| VisualizeTree.Visualizer.GetFileCount | visualizeTree.py:162-164 | the result is the counter |
| VisualizeTree.Visualizer.UpdateGraph | visualizeTree.py:166-171 | the file state after the loop is `Frames.UpdateGraph` of the state before; the registry, graph statements and `visualizeList` are unchanged |
| VisualizeTree.Visualizer.WriteFrame | visualizeTree.py:169-171 | one pass of the loop: the counter is incremented, the file is renamed and written, giving `Frames.WriteFrame` of the old file state |
| VisualizeTree.DFS | visualizeTree.py:177-188 | the work list after the call is the right branch, then the left branch (each only if present), put in front of the old list |
| VisualizeTree.DFSOrdered | visualizeTree.py:190-203 | the right branch is inserted at the front only when `str(value) < find`, and the left branch only when `find < str(value)` |
| VisualizeTree.BFS | visualizeTree.py:205-216 | the left branch, then the right branch (each only if present), are appended behind the old list |
| VisualizeTree.SketchTree | visualizeTree.py:222-240 | the branches are appended at the back, and the registry and graph are those after the draw calls `Drawing.SketchCalls(node)`; files and `visualizeList` are unchanged |
| VisualizeTree.SketchLeft | visualizeTree.py:223-231 | the first block: the left edge and, when there is a right branch, the ":" placeholder; or only the ":" placeholder |
| VisualizeTree.SketchRight | visualizeTree.py:232-237 | the second block: the right edge, or the ";" placeholder when only the left branch exists |
| VisualizeTree.SketchRoot | visualizeTree.py:238-240 | the third block: a root without branches is drawn on its own |
| Pydot.Graph.constructor | visualizeTree.py:40 | a new graph has no nodes, no edges, no defaults and no written files |
| Pydot.Graph.AddNode | visualizeTree.py:101 | one node statement is appended, and nothing else changes |
| Pydot.Graph.AddEdge | visualizeTree.py:113-114 | one edge statement is appended, recording the defaults in force; nothing else changes |
| Pydot.Graph.GetEdgeDefaults | visualizeTree.py:107 | the result is the defaults in force |
| Pydot.Graph.SetEdgeDefaults | visualizeTree.py:108 | the defaults are replaced, and nothing else changes |
| Pydot.Graph.WritePng | visualizeTree.py:171 | the path is appended to the written files, and nothing else changes |
| WorkLists.WorkList.constructor | visualizeTree.py:17 | the list is empty |
| WorkLists.WorkList.PopFront | visualizeTree.py:80 | the result is the first element, and the rest remains |
| WorkLists.WorkList.InsertFront | visualizeTree.py:186 | the element is placed in front |
| WorkLists.WorkList.Append | visualizeTree.py:214 | the element is placed at the back |
| PyFormat.Format05dRoundTrip | visualizeTree.py:153 | reading back `'%05d' % n` gives `n`, for every integer, negative ones included |
| PyFormat.Format05dInjective | visualizeTree.py:153 | different counters give different `'%05d'` strings |
| PyFormat.Format05dWidth | visualizeTree.py:153 | for 0..99999 the text is exactly five digits; above that it is the plain digits and longer than five |
| PyFormat.DigitsWidth | visualizeTree.py:153 | a counter fits in five digits exactly when it is at most 99999 |
| PyFormat.StrLessAsymmetric | visualizeTree.py:200-202 | string `<` is irreflexive, and at most one of `a < b` and `b < a` holds |
| PyFormat.StrLessTotal | visualizeTree.py:200-202 | of two different strings, one is less than the other |
| BinaryTree.SearchPathFindsValue | visualizeTree.py:190-203 | in a search tree, the ordered root-to-leaf path shows `find` exactly when `find` is one of the tree's values |
| BinaryTree.SearchPathWithinHeight | visualizeTree.py:190-203 | that path is no longer than the tree's height |
| Traversal.Expand | visualizeTree.py:177-216 | what a helper leaves on the list weighs less than the list plus the popped node, so the loop at line 79 ends |
| Traversal.FirstMatch | visualizeTree.py:83-85 | the index of the first node in pop order whose label equals `find`: no node before it matches, and the node at it does |
| Traversal.DepthFirstIsPreOrder | visualizeTree.py:177-188 | with `DFS`, nodes are popped in pre-order: node, left subtree, right subtree |
| Traversal.BreadthFirstIsLevelOrder | visualizeTree.py:205-216 | with `BFS` (and `sketchTree`), nodes are popped level by level, left to right |
| Traversal.BreadthFirstShift | visualizeTree.py:205-216 | popping a prefix of the list puts its branches behind the rest, which is the step from one level to the next |
| Traversal.OrderedPushesAtMostOne | visualizeTree.py:199-203 | `DFSOrdered` pushes at most one branch |
| Traversal.OrderedFollowsSearchPath | visualizeTree.py:190-203 | with `DFSOrdered`, the nodes popped from `[root]` are exactly the root-to-leaf search path for `find` |
| Traversal.OrderedSearchIsLookup | visualizeTree.py:190-203 | in a search tree, `DFSOrdered` pops at most height-many nodes and pops one labelled `find` exactly when `find` is a value of the tree |
| Traversal.OrderedMissesIntegerOrder | visualizeTree.py:200-203 | on root 2 with right child 10, a search for "10" holds the value but pops only the root, because `str` comparison puts "10" before "2" |
| Frames.InitialFiles | visualizeTree.py:9-19 | a new visualizer has current path "" and no written files |
| Frames.SetFileName | visualizeTree.py:150-153 | the current path becomes the name of the current counter |
| Frames.WritePngAppends | visualizeTree.py:171 | writing adds the current path to the written files and keeps the current path |
| Frames.AdvanceKeepsNaming | visualizeTree.py:166-171 | writing frames never changes the directory, base name, extension or `vidFrames` |
| Frames.AdvanceFrames | visualizeTree.py:166-171 | after `k` passes the counter has risen by `k`, the files written carry the counters old+1..old+k in order, and the current path is that of the last |
| Frames.UpdateGraphFrames | visualizeTree.py:166-171 | `updateGraph` raises the counter by `vidFrames` (by 0 when that is not positive) and writes `getFileName(old+1)`..`getFileName(old+vidFrames)` in order; afterwards `fullFileName == getFileName(fileCount)` if it wrote anything, and otherwise nothing changed |
| Frames.UpdateGraphRepeated | visualizeTree.py:166-171 | `n` calls of `updateGraph` write `vidFrames` frames each |
| Frames.TimesIsProduct | visualizeTree.py:166-171 | the frame count of repeated calls is `vidFrames * n` |
| Frames.FileNamesDistinct | visualizeTree.py:153 | two counters in 0..99999 never share a file name |
| Frames.FileNameExample | visualizeTree.py:160 | counter 5 with the defaults in `/tmp/` is named `/tmp/bst_graph00005.png` |
| Drawing.DrawEdgePath | visualizeTree.py:119-130 | the empty-registry branch registers the parent just as the absent-parent branch would, so the edge path is: add the edge, then register the parent and the child if absent |
| Drawing.DrawIsolated | visualizeTree.py:98-102 | without a child, `nodeNames[parent]` is set unconditionally and its node is added, with no edge; other entries are kept |
| Drawing.DrawEdgeLine | visualizeTree.py:104-117 | with a child, exactly one edge from parent to child is appended; its weight is "100" when invisible and "3" otherwise; an invisible edge is drawn under the invisible defaults; the defaults afterwards equal those before |
| Drawing.DrawEdgeRegistry | visualizeTree.py:119-130 | with a child, the registry's labels become the old ones plus parent and child, and no existing entry changes |
| Drawing.DrawEdgeNodes | visualizeTree.py:119-130 | with a child, exactly the unregistered labels (parent first, then child) are added as nodes |
| Drawing.NewNodes | visualizeTree.py:123-130 | those added nodes carry labels that were not registered, and no label appears twice |
| Drawing.DrawGrowsByAtMostTwo | visualizeTree.py:119-130 | the registry grows by at most two labels |
| Drawing.DrawKeepsEntries | visualizeTree.py:98-130 | `draw` never drops a label, and it changes no entry other than the parent's |
| Drawing.DrawKeepsRegistered | visualizeTree.py:98-130 | every registered label keeps mapping to a node of that name that was added to the graph |
| Drawing.DrawAllKeepsKeys | visualizeTree.py:98-130 | a sequence of draws never drops a label |
| Drawing.SketchPlaceholders | visualizeTree.py:222-240 | the draw calls for each shape: both branches give left edge, ":" placeholder, right edge; only right gives ":" placeholder, right edge; only left gives left edge, ";" placeholder; a childless root gives one isolated draw; exactly one invisible draw when a branch exists |
| Drawing.SketchRegistersFamily | visualizeTree.py:222-240 | after sketching a node with non-empty labels, the node and its branches are registered |
| Drawing.SketchRootInvisible | visualizeTree.py:119-122 | a node with only a right branch, sketched on an empty registry (the root on a fresh visualizer, 229-231), is first added to the graph with style "invisible", and stays registered so when its right label is not empty |
| Searching.HighlightFrames | visualizeTree.py:132-136 | one `updateGraph` batch, the last file of which is appended to `visualizeList`, and one green node record |
| Searching.BlinkFrames | visualizeTree.py:141-148 | two `updateGraph` batches; exactly one path is appended, the last file of the red batch; a red then a `#cc9999` node record |
| Searching.VisitEffects | visualizeTree.py:86-88 | a non-matching node blinks only when `find` is given; only `sketchTree` draws |
| Searching.SearchStep | visualizeTree.py:80-88 | one pass over a non-matching node advances the search and the pop order together |
| Searching.SearchFound | visualizeTree.py:70-89 | `searchTree` returns True exactly when some popped node prints as `find`, stopping at the first; it returns False only with an exhausted work list |
| Searching.SearchFiles | visualizeTree.py:70-89 | a search writes `vidFrames` frames twice per node popped before the match and once for the match, and none when `find` is None |
| Searching.SearchShown | visualizeTree.py:70-89 | a search appends to `visualizeList` exactly `ShownPaths` of the starting files: one path per node popped before the match and one for the match, after what was already listed; nothing when `find` is None |
| Searching.ShownPathsAt | visualizeTree.py:132-148 | the `i`-th listed path is the file name after `2 * i + 1` `updateGraph` batches (the red batch of the `i`-th blink), and the highlight's is the one after `2 * k + 1` |
| Frames.OddStepsAt | visualizeTree.py:141-148 | the states after the first of each pair of steps are those after steps `1, 3, 5, ...`, with the length `k`, plus one when the last is kept |
| Searching.SearchWithoutFind | visualizeTree.py:70-89 | with `find == None` the search never matches, exhausts the list, writes no frame and lists no file |
| Searching.SearchKeepsDrawing | visualizeTree.py:70-89 | searching with `DFS`, `DFSOrdered` or `BFS` leaves the registry (which persists between calls), the edges and the defaults unchanged, and appends exactly a red and a `#cc9999` record for each node popped before the match (when `find` is given), then a green one for the match |
| Searching.BlinkRecordsCons | visualizeTree.py:141-148 | a blink's two colour records come before those of the nodes blinked after it |
| Searching.SketchFollowsOrder | visualizeTree.py:70-89 | searching with `sketchTree` makes the draw calls of each node in pop order |
| Searching.SketchDrawsLevelOrder | visualizeTree.py:222-240 | `searchTree(root, sketchTree)` draws the tree node by node in level order |

## Left out

- pydot internals are not part of this model. `pydot.Dot`, `pydot.Node` and `pydot.Edge` become plain records: a node keeps its name, label, fill colour and style, and an edge keeps its ends, style, weight and the defaults in force when it was added. The graph keeps its statements in order. Rendering is not modelled.
- `initGraph` and `setNodeDefaults` (lines 23-24, 27-53) are left out. They pass layout and styling keywords, some with floating-point values, and have no behaviour to state. Of `setEdgeDefaults` (25, 55-64) the model keeps only the default map, which is enough to state the save and restore of an invisible draw.
- `get_edge_defaults()[0]` (107) is modelled as the defaults in force. That rests on an assumption about pydot, which is not part of this model: `get_edge_defaults` returns the list of edge default statements with the one in force first, and `set_edge_defaults` replaces that statement rather than adding another. Under a pydot that appends, `[0]` would be the constructor's defaults every time, and the model would differ only after an earlier `set_edge_defaults` whose values had not been restored.
- `write_png` (171) is modelled as appending the path to the graph's list of written files. No image is produced.
- Failures of `write_png` are not modelled: in the model the write always succeeds. In the source an I/O error would propagate out of `updateGraph` after `fileCount` and `fullFileName` had already advanced for that frame (168-170), leaving a count one ahead of the files written.
- Graphviz's "last statement wins" colouring of a node added again under the same name (134, 143, 147) is not modelled. A highlight or blink is modelled as one more node record with its colour.
- The Tkinter display that reads `visualizeList` (1-3, 21), and the video assembly, are not part of this model.
- VisualizeTree.DFSOrdered: requires `find` to be given. With `None`, lines 200 and 202 depend on Python 2's ordering of `None` against strings. The same restriction appears as `Traversal.Admissible` on the search with this helper.
- The helpers' `draw` parameter is not modelled for `DFS`, `DFSOrdered` and `BFS`, which never use it. `find` is passed to `DFS`, `DFSOrdered` and `BFS`, and `Traversal.Expand` takes it for all four helpers. `SketchTree` drops it, since `sketchTree` never reads it; it takes the visualizer itself instead, whose `Draw` is the bound method `self.draw`.
- A node's truth value is its being present. The source is Python 2, so this assumes the tree class defines no `__nonzero__` or `__len__` that could make a present node false.
- Trees are finite and acyclic, because they are values of an inductive datatype. A linked structure with a cycle would make `DFS`, `BFS` and `sketchTree` run forever in the source; the model cannot express one.
- `str(node)` and `str(node.getValue())` are fields of the tree datatype. The tree class itself is not part of this model.
- `searchTree` rebinds `self.treeList` to a new list (78). The model reuses the same list object with its contents set to `[root]`. No other reference to the list exists in this module, so the two are indistinguishable.
- The file state records the counters behind `fullFileName` and the written paths as ghost fields. The paths themselves are then `getFileName` of those counters, which is what the class invariant states.
