/**
 * `searchTree` and the animation it produces, on values: the state a
 * search touches (files, picture, list of shown frames), what
 * `highlightNodeFound` and `blinkNodeTraversed` do to it, and the whole
 * search as a recursion over the work list.
 */
module Searching {
  import opened Wrappers
  import opened BinaryTree
  import opened Sequences
  import opened Traversal
  import opened Frames
  import opened Drawing

  /** The parts of a visualizer a search reads and changes, besides its work list. */
  datatype Session = Session(files: Files, canvas: Canvas, visualizeList: seq<string>)

  /** `self.graph.add_node(pydot.Node(node, fillcolor=colour))`: a colour change, no registration. */
  function AddColoured(s: Session, node: string, colour: string): Session
  {
    s.(canvas := s.canvas.(nodes := s.canvas.nodes + [NodeRec(node, None, colour, None)]))
  }

  /** `updateGraph()` on a session. */
  function Update(s: Session): Session
  {
    s.(files := UpdateGraph(s.files))
  }

  /** `appendVisualizeList()`: remember the current file for display. */
  function AppendVisualizeList(s: Session): Session
  {
    s.(visualizeList := s.visualizeList + [FullFileName(s.files)])
  }

  /** `highlightNodeFound(node)`: colour it green, write the frames, remember the last one. */
  function HighlightNodeFound(s: Session, node: string): Session
  {
    AppendVisualizeList(Update(AddColoured(s, node, "green")))
  }

  /**
   * `blinkNodeTraversed(node)`: colour it red, write the frames, remember
   * the last one, then leave a `#cc9999` breadcrumb and write the frames again.
   */
  function BlinkNodeTraversed(s: Session, node: string): Session
  {
    Update(AddColoured(AppendVisualizeList(Update(AddColoured(s, node, "red"))), node, "#cc9999"))
  }

  /** What `sketchTree` draws for `node`. */
  function Sketched(s: Session, node: Tree): Session
    requires node.Node?
  {
    s.(canvas := DrawAll(s.canvas, SketchCalls(node)))
  }

  /** Whether a match was found, the session afterwards and what was left on the work list. */
  datatype SearchResult = SearchResult(found: bool, session: Session, treeList: seq<Tree>)

  /**
   * The loop of `searchTree` from work list `list`: pop the front; skip
   * `None`; stop with `True` after highlighting a node printing as `find`;
   * otherwise blink it when something is searched for, let the helper for
   * `alg` draw and put back branches, and go on; `False` once the list is
   * empty.
   */
  function Search(alg: Algorithm, find: Option<string>, s: Session, list: seq<Tree>): SearchResult
    requires Admissible(alg, find)
    decreases ListSize(list)
  {
    if list == [] then SearchResult(false, s, [])
    else
      var node, rest := list[0], list[1..];
      if node.Nil? then Search(alg, find, s, rest)
      else if Matches(node, find) then SearchResult(true, HighlightNodeFound(s, node.name), rest)
      else Search(alg, find, Visit(alg, find, s, node), Expand(alg, node, find, rest))
  }

  /**
   * What one pass of the loop does to the session for a popped node that
   * does not match: blink it when something is searched for, then let
   * `sketchTree` draw (the other helpers draw nothing).
   */
  function Visit(alg: Algorithm, find: Option<string>, s: Session, node: Tree): Session
    requires node.Node?
  {
    var s1 := if find.Some? then BlinkNodeTraversed(s, node.name) else s;
    if alg.Sketch? then Sketched(s1, node) else s1
  }

  /** `searchTree(root, alg, find)`: the work list starts as `[root]`. */
  function SearchTree(alg: Algorithm, find: Option<string>, s: Session, root: Tree): SearchResult
    requires Admissible(alg, find)
  {
    Search(alg, find, s, [root])
  }

  /** `blinkNodeTraversed` writes two batches of frames and remembers the last file of the first. */
  lemma BlinkFrames(s: Session, node: string)
    ensures var b := BlinkNodeTraversed(s, node);
      && b.files == Iterate(UpdateGraph, s.files, 2)
      && b.visualizeList == s.visualizeList + [FullFileName(UpdateGraph(s.files))]
      && b.canvas.nodes == s.canvas.nodes + [NodeRec(node, None, "red", None), NodeRec(node, None, "#cc9999", None)]
      && b.canvas.nodeNames == s.canvas.nodeNames && b.canvas.edges == s.canvas.edges
      && b.canvas.edgeDefaults == s.canvas.edgeDefaults
  {
  }

  /** `highlightNodeFound` writes one batch of frames and remembers its last file. */
  lemma HighlightFrames(s: Session, node: string)
    ensures var h := HighlightNodeFound(s, node);
      && h.files == UpdateGraph(s.files)
      && h.visualizeList == s.visualizeList + [FullFileName(h.files)]
      && h.canvas.nodes == s.canvas.nodes + [NodeRec(node, None, "green", None)]
      && h.canvas.nodeNames == s.canvas.nodeNames && h.canvas.edges == s.canvas.edges
      && h.canvas.edgeDefaults == s.canvas.edgeDefaults
  {
  }

  /** Number of frame batches a search writes: two per blink, one for the highlight. */
  function Batches(find: Option<string>, blinks: nat, found: bool): nat
  {
    if find.None? then 0 else 2 * blinks + (if found then 1 else 0)
  }

  /**
   * A pass over a node that does not match calls `updateGraph` twice and
   * remembers the last file of the first batch when something is searched
   * for, and neither otherwise; only `sketchTree` draws, the other helpers
   * leave the registry and edges alone.
   */
  lemma VisitEffects(alg: Algorithm, find: Option<string>, s: Session, node: Tree)
    requires node.Node?
    ensures var v := Visit(alg, find, s, node);
      && v.files == Iterate(UpdateGraph, s.files, if find.Some? then 2 else 0)
      && v.visualizeList == s.visualizeList + (if find.Some? then [FullFileName(UpdateGraph(s.files))] else [])
      && (!alg.Sketch? ==>
            && v.canvas.nodeNames == s.canvas.nodeNames && v.canvas.edges == s.canvas.edges
            && v.canvas.edgeDefaults == s.canvas.edgeDefaults
            && v.canvas.nodes == s.canvas.nodes
                 + (if find.Some? then [NodeRec(node.name, None, "red", None), NodeRec(node.name, None, "#cc9999", None)] else []))
  {
    if find.Some? {
      BlinkFrames(s, node.name);
    } else {
      assert s.visualizeList + [] == s.visualizeList;
      assert s.canvas.nodes + [] == s.canvas.nodes;
    }
  }

  /** One pass of the loop over a node that does not match, seen from both `Search` and `Order`. */
  lemma SearchStep(alg: Algorithm, find: Option<string>, s: Session, list: seq<Tree>)
    requires Admissible(alg, find)
    requires list != [] && list[0].Node? && !Matches(list[0], find)
    ensures var next := Expand(alg, list[0], find, list[1..]);
      && Search(alg, find, s, list) == Search(alg, find, Visit(alg, find, s, list[0]), next)
      && Order(alg, find, list)[1..] == Order(alg, find, next)
      && FirstMatch(Order(alg, find, list), find) == 1 + FirstMatch(Order(alg, find, next), find)
  {
    var next := Expand(alg, list[0], find, list[1..]);
    var o := Order(alg, find, list);
    assert o == [list[0]] + Order(alg, find, next);
    assert o[1..] == Order(alg, find, next);
  }

  /**
   * `searchTree` returns True exactly when some node it pops matches
   * `find`, and then it stops at the first one in pop order, leaving the
   * rest of the work list; it returns False with an empty work list.
   */
  lemma {:induction false} SearchFound(alg: Algorithm, find: Option<string>, s: Session, list: seq<Tree>)
    requires Admissible(alg, find)
    ensures var r := Search(alg, find, s, list);
      var o := Order(alg, find, list);
      && (r.found <==> FirstMatch(o, find) < |o|)
      && (!r.found ==> r.treeList == [])
    decreases ListSize(list)
  {
    if list != [] {
      var node := list[0];
      if node.Nil? {
        SearchFound(alg, find, s, list[1..]);
      } else if Matches(node, find) {
        assert Order(alg, find, list)[0] == node;
      } else {
        SearchStep(alg, find, s, list);
        SearchFound(alg, find, Visit(alg, find, s, node), Expand(alg, node, find, list[1..]));
      }
    }
  }

  /**
   * A search blinks the `k` nodes popped before the first match (none when
   * `find` is None) and highlights the match if there is one: it calls
   * `updateGraph` twice per blink and once for the highlight, and nowhere
   * else, so it writes `vidFrames` frames per such call.
   */
  lemma {:induction false} SearchFiles(alg: Algorithm, find: Option<string>, s: Session, list: seq<Tree>)
    requires Admissible(alg, find)
    ensures var r := Search(alg, find, s, list);
      var k := FirstMatch(Order(alg, find, list), find);
      && r.session.files == Iterate(UpdateGraph, s.files, Batches(find, k, r.found))
      && r.session.files == Advance(s.files, Times(Copies(s.files), Batches(find, k, r.found)))
    decreases ListSize(list)
  {
    if list != [] {
      var node := list[0];
      if node.Nil? {
        SearchFiles(alg, find, s, list[1..]);
      } else if Matches(node, find) {
        assert Order(alg, find, list)[0] == node;
        HighlightFrames(s, node.name);
      } else {
        SearchStep(alg, find, s, list);
        var s2 := Visit(alg, find, s, node);
        var next := Expand(alg, node, find, list[1..]);
        SearchFiles(alg, find, s2, next);
        var r := Search(alg, find, s2, next);
        var m := Batches(find, FirstMatch(Order(alg, find, next), find), r.found);
        VisitEffects(alg, find, s, node);
        var b2 := if find.Some? then 2 else 0;
        var whole := Search(alg, find, s, list);
        assert whole == r;
        FilesStep(s.files, s2.files, r.session.files, b2, m,
          Batches(find, FirstMatch(Order(alg, find, list), find), whole.found));
      }
    }
    var r := Search(alg, find, s, list);
    UpdateGraphRepeated(s.files, Batches(find, FirstMatch(Order(alg, find, list), find), r.found));
  }

  lemma FilesStep(f: Files, f2: Files, fr: Files, b2: nat, m: nat, total: nat)
    requires f2 == Iterate(UpdateGraph, f, b2) && fr == Iterate(UpdateGraph, f2, m) && total == b2 + m
    ensures fr == Iterate(UpdateGraph, f, total)
  {
    IterateAdditive(UpdateGraph, f, b2, m);
  }

  /**
   * The paths a search starting from file state `f` appends to
   * `visualizeList` when it blinks `k` nodes and then, if `found`,
   * highlights one: each blink and the highlight list the current path
   * after their first `updateGraph`, and a blink calls `updateGraph` twice.
   */
  function ShownPaths(f: Files, k: nat, found: bool): seq<string>
  {
    MapSeq(FullFileName, OddSteps(UpdateGraph, f, k, found))
  }

  /**
   * The listed paths are those after batches 1, 3, 5, ... of `updateGraph`:
   * the `i`-th blink lists the path after batch `2 * i + 1`, and the
   * highlight the one after batch `2 * k + 1`.
   */
  lemma ShownPathsAt(f: Files, k: nat, found: bool)
    ensures var r := ShownPaths(f, k, found);
      && |r| == k + (if found then 1 else 0)
      && (forall i :: 0 <= i < k ==> r[i] == FullFileName(Iterate(UpdateGraph, f, 2 * i + 1)))
      && (found ==> r[k] == FullFileName(Iterate(UpdateGraph, f, 2 * k + 1)))
  {
    OddStepsAt(UpdateGraph, f, k, found);
  }

  /** The first blink's path comes first, and the rest start two batches later. */
  lemma ShownPathsCons(f: Files, k: nat, found: bool)
    ensures ShownPaths(f, k + 1, found) == [FullFileName(UpdateGraph(f))] + ShownPaths(Iterate(UpdateGraph, f, 2), k, found)
  {
    var rest := OddSteps(UpdateGraph, Iterate(UpdateGraph, f, 2), k, found);
    var xs := [UpdateGraph(f)] + rest;
    assert OddSteps(UpdateGraph, f, k + 1, found) == xs;
    assert xs[0] == UpdateGraph(f) && xs[1..] == rest;
  }

  /** A highlight without blinks lists the path after its `updateGraph`. */
  lemma ShownPathsFound(f: Files)
    ensures ShownPaths(f, 0, true) == [FullFileName(UpdateGraph(f))]
  {
    assert OddSteps(UpdateGraph, f, 0, true) == [UpdateGraph(f)];
  }

  /**
   * A search appends to `visualizeList` exactly the path after the first
   * batch of each blink, for the nodes popped before the match, and then
   * the path after the highlight, when it finds one; nothing when `find`
   * is None.
   */
  lemma {:induction false} SearchShown(alg: Algorithm, find: Option<string>, s: Session, list: seq<Tree>)
    requires Admissible(alg, find)
    ensures var r := Search(alg, find, s, list);
      var k := FirstMatch(Order(alg, find, list), find);
      r.session.visualizeList == s.visualizeList + (if find.Some? then ShownPaths(s.files, k, r.found) else [])
    decreases ListSize(list)
  {
    if list == [] {
      assert s.visualizeList + [] == s.visualizeList;
    } else {
      var node := list[0];
      if node.Nil? {
        SearchShown(alg, find, s, list[1..]);
      } else if Matches(node, find) {
        assert Order(alg, find, list)[0] == node;
        HighlightFrames(s, node.name);
        ShownPathsFound(s.files);
      } else {
        SearchStep(alg, find, s, list);
        SearchShown(alg, find, Visit(alg, find, s, node), Expand(alg, node, find, list[1..]));
        SearchShownStep(alg, find, s, list);
      }
    }
  }

  /** The step of `SearchShown` over a node that does not match. */
  lemma SearchShownStep(alg: Algorithm, find: Option<string>, s: Session, list: seq<Tree>)
    requires Admissible(alg, find)
    requires list != [] && list[0].Node? && !Matches(list[0], find)
    requires var s2 := Visit(alg, find, s, list[0]);
      var next := Expand(alg, list[0], find, list[1..]);
      var r := Search(alg, find, s2, next);
      r.session.visualizeList
        == s2.visualizeList + (if find.Some? then ShownPaths(s2.files, FirstMatch(Order(alg, find, next), find), r.found) else [])
    ensures var r := Search(alg, find, s, list);
      var k := FirstMatch(Order(alg, find, list), find);
      r.session.visualizeList == s.visualizeList + (if find.Some? then ShownPaths(s.files, k, r.found) else [])
  {
    var s2 := Visit(alg, find, s, list[0]);
    var next := Expand(alg, list[0], find, list[1..]);
    SearchStep(alg, find, s, list);
    VisitEffects(alg, find, s, list[0]);
    var r := Search(alg, find, s2, next);
    var k := FirstMatch(Order(alg, find, next), find);
    if find.Some? {
      ShownCons(s.visualizeList, s.files, s2.files, k, r.found, s2.visualizeList, r.session.visualizeList);
    } else {
      assert s2.visualizeList == s.visualizeList;
    }
  }

  /** A blink's path, listed before those of the rest of the search, two batches later. */
  lemma ShownCons(v0: seq<string>, f: Files, f2: Files, k: nat, found: bool, v2: seq<string>, v: seq<string>)
    requires f2 == Iterate(UpdateGraph, f, 2) && v2 == v0 + [FullFileName(UpdateGraph(f))]
    requires v == v2 + ShownPaths(f2, k, found)
    ensures v == v0 + ShownPaths(f, k + 1, found)
  {
    ConcatAssoc(v0, [FullFileName(UpdateGraph(f))], ShownPaths(f2, k, found));
    ShownPathsCons(f, k, found);
  }

  /**
   * With `find == None` a search never matches, writes no frame and
   * remembers no file; it runs until the work list is empty.
   */
  lemma SearchWithoutFind(alg: Algorithm, s: Session, list: seq<Tree>)
    requires Admissible(alg, None)
    ensures var r := Search(alg, None, s, list);
      && !r.found && r.treeList == []
      && r.session.files == s.files && r.session.visualizeList == s.visualizeList
  {
    SearchFound(alg, None, s, list);
    SearchFiles(alg, None, s, list);
    SearchShown(alg, None, s, list);
    assert Iterate(UpdateGraph, s.files, 0) == s.files;
    assert s.visualizeList + [] == s.visualizeList;
  }

  /** The colour records blinking each node of `ts` in turn adds: red, then `#cc9999`. */
  function BlinkRecords(ts: seq<Tree>): seq<NodeRec>
  {
    if ts == [] then []
    else
      var pair := if ts[0].Node? then [NodeRec(ts[0].name, None, "red", None), NodeRec(ts[0].name, None, "#cc9999", None)] else [];
      pair + BlinkRecords(ts[1..])
  }

  /** The colour records a search that searches for `find` adds: blinks, then the green highlight. */
  function SearchRecords(find: Option<string>, blinked: seq<Tree>, found: bool): seq<NodeRec>
  {
    if find.None? then []
    else BlinkRecords(blinked) + (if found then [NodeRec(find.value, None, "green", None)] else [])
  }

  /**
   * The searching helpers (all but `sketchTree`) never draw: the registry,
   * the edges and the edge defaults are what they were, and the graph gets
   * exactly the colour records of the blinks of the nodes popped before
   * the match, then the green one of the match.
   */
  lemma {:induction false} SearchKeepsDrawing(alg: Algorithm, find: Option<string>, s: Session, list: seq<Tree>)
    requires Admissible(alg, find) && !alg.Sketch?
    ensures var r := Search(alg, find, s, list);
      var o := Order(alg, find, list);
      var c := r.session.canvas;
      && c.nodeNames == s.canvas.nodeNames && c.edges == s.canvas.edges
      && c.edgeDefaults == s.canvas.edgeDefaults
      && c.nodes == s.canvas.nodes + SearchRecords(find, o[..FirstMatch(o, find)], r.found)
    decreases ListSize(list)
  {
    if list == [] {
      assert s.canvas.nodes + [] == s.canvas.nodes;
    } else {
      var node := list[0];
      if node.Nil? {
        SearchKeepsDrawing(alg, find, s, list[1..]);
      } else if Matches(node, find) {
        assert Order(alg, find, list)[0] == node;
        HighlightFrames(s, node.name);
        assert BlinkRecords([]) == [];
      } else {
        SearchStep(alg, find, s, list);
        SearchKeepsDrawing(alg, find, Visit(alg, find, s, node), Expand(alg, node, find, list[1..]));
        KeepsDrawingStep(alg, find, s, list);
      }
    }
  }

  /** The step of `SearchKeepsDrawing` over a node that does not match. */
  lemma KeepsDrawingStep(alg: Algorithm, find: Option<string>, s: Session, list: seq<Tree>)
    requires Admissible(alg, find) && !alg.Sketch?
    requires list != [] && list[0].Node? && !Matches(list[0], find)
    requires var s2 := Visit(alg, find, s, list[0]);
      var next := Expand(alg, list[0], find, list[1..]);
      var r := Search(alg, find, s2, next);
      var o := Order(alg, find, next);
      var c := r.session.canvas;
      && c.nodeNames == s2.canvas.nodeNames && c.edges == s2.canvas.edges
      && c.edgeDefaults == s2.canvas.edgeDefaults
      && c.nodes == s2.canvas.nodes + SearchRecords(find, o[..FirstMatch(o, find)], r.found)
    ensures var r := Search(alg, find, s, list);
      var o := Order(alg, find, list);
      var c := r.session.canvas;
      && c.nodeNames == s.canvas.nodeNames && c.edges == s.canvas.edges
      && c.edgeDefaults == s.canvas.edgeDefaults
      && c.nodes == s.canvas.nodes + SearchRecords(find, o[..FirstMatch(o, find)], r.found)
  {
    var node := list[0];
    var s2 := Visit(alg, find, s, node);
    var next := Expand(alg, node, find, list[1..]);
    SearchStep(alg, find, s, list);
    VisitEffects(alg, find, s, node);
    var o, o2 := Order(alg, find, list), Order(alg, find, next);
    OrderHead(alg, find, list);
    DrawingCons(find, o, o2, FirstMatch(o2, find), Search(alg, find, s2, next).found,
      s.canvas, s2.canvas, Search(alg, find, s2, next).session.canvas);
  }

  /**
   * A blink's records, added before those of the rest of the search, on
   * pictures that otherwise stay as they are: `o` is the pop order, `c2`
   * the picture after its first node's pass and `c` the final one.
   */
  lemma DrawingCons(find: Option<string>, o: seq<Tree>, o2: seq<Tree>, k: nat, found: bool, c0: Canvas, c2: Canvas, c: Canvas)
    requires o != [] && o[0].Node? && o[1..] == o2 && k <= |o2|
    requires c2.nodeNames == c0.nodeNames && c2.edges == c0.edges && c2.edgeDefaults == c0.edgeDefaults
    requires c2.nodes == c0.nodes
      + (if find.Some? then [NodeRec(o[0].name, None, "red", None), NodeRec(o[0].name, None, "#cc9999", None)] else [])
    requires c.nodeNames == c2.nodeNames && c.edges == c2.edges && c.edgeDefaults == c2.edgeDefaults
    requires c.nodes == c2.nodes + SearchRecords(find, o2[..k], found)
    ensures c.nodeNames == c0.nodeNames && c.edges == c0.edges && c.edgeDefaults == c0.edgeDefaults
    ensures c.nodes == c0.nodes + SearchRecords(find, o[..k + 1], found)
  {
    PrefixAfterHead(o, o2, k);
    if find.Some? {
      var pair := [NodeRec(o[0].name, None, "red", None), NodeRec(o[0].name, None, "#cc9999", None)];
      var green := if found then [NodeRec(find.value, None, "green", None)] else [];
      BlinkRecordsCons(o[0], o2[..k]);
      ConcatAssoc(c0.nodes, pair, BlinkRecords(o2[..k]) + green);
      ConcatAssoc(pair, BlinkRecords(o2[..k]), green);
    } else {
      assert c2.nodes == c0.nodes + [];
    }
  }

  /** Blinking a node first adds its two records in front of the others'. */
  lemma BlinkRecordsCons(node: Tree, ts: seq<Tree>)
    requires node.Node?
    ensures BlinkRecords([node] + ts)
      == [NodeRec(node.name, None, "red", None), NodeRec(node.name, None, "#cc9999", None)] + BlinkRecords(ts)
  {
    assert ([node] + ts)[1..] == ts;
  }

  /** The draw calls `sketchTree` makes for each node of `ts` in turn. */
  function SketchAll(ts: seq<Tree>): seq<DrawCall>
  {
    if ts == [] then []
    else (if ts[0].Node? then SketchCalls(ts[0]) else []) + SketchAll(ts[1..])
  }

  /** Sketching a search order one node at a time is sketching its nodes in turn. */
  lemma {:induction false} SketchFollowsOrder(s: Session, list: seq<Tree>)
    ensures Search(Sketch, None, s, list).session.canvas
         == DrawAll(s.canvas, SketchAll(Order(Sketch, None, list)))
    decreases ListSize(list)
  {
    if list != [] {
      var node, rest := list[0], list[1..];
      if node.Nil? {
        SketchFollowsOrder(s, rest);
      } else {
        var next := Expand(Sketch, node, None, rest);
        var s2 := Sketched(s, node);
        SketchFollowsOrder(s2, next);
        var o := Order(Sketch, None, list);
        assert o == [node] + Order(Sketch, None, next);
        assert o[0] == node && o[1..] == Order(Sketch, None, next);
        DrawAllAppend(s.canvas, SketchCalls(node), SketchAll(o[1..]));
      }
    }
  }

  /**
   * `searchTree(root, sketchTree)` draws the tree level by level, left to
   * right: its draw calls are those of each node in level order.
   */
  lemma SketchDrawsLevelOrder(s: Session, root: Tree)
    ensures SearchTree(Sketch, None, s, root).session.canvas
         == DrawAll(s.canvas, SketchAll(Levels([root])))
  {
    SketchFollowsOrder(s, [root]);
    BreadthFirstIsLevelOrder(Sketch, None, [root]);
  }
}
