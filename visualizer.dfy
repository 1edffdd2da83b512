/**
 * The `visualizeTree` class and the helper functions handed to its
 * `searchTree` method. Each method is proved against the value model:
 * its effect on the visualizer's state is the function of the same name
 * in `Frames`, `Drawing` or `Searching`, applied to the state before.
 */
module VisualizeTree {
  import opened Wrappers
  import opened PyFormat
  import opened BinaryTree
  import opened Traversal
  import opened Frames
  import opened Drawing
  import opened Searching
  import opened Pydot
  import opened WorkLists

  class Visualizer {
    var fileDir: string
    var fileName: string
    var fileExt: string
    var vidFrames: int
    var fileCount: int
    const treeList: WorkList
    var nodeNames: map<string, NodeRec>
    var fullFileName: string
    var visualizeList: seq<string>
    const graph: Graph

    /** The counter `fullFileName` was last built from, if any. */
    ghost var current: Option<int>
    /** The counters of the files handed to `write_png`, in order. */
    ghost var writtenCounts: seq<int>

    /** The file state, in counters. */
    ghost function FilesOf(): Files
      reads this
    {
      Files(fileDir, fileName, fileExt, vidFrames, fileCount, current, writtenCounts)
    }

    /** The registry and the graph's statements. */
    function CanvasOf(): Canvas
      reads this, graph
    {
      Canvas(nodeNames, graph.nodes, graph.edges, graph.edgeDefaults)
    }

    ghost function SessionOf(): Session
      reads this, graph
    {
      Session(FilesOf(), CanvasOf(), visualizeList)
    }

    /**
     * `fullFileName` is "" or `getFileName` of the counter it was built
     * from, and the files written are `getFileName` of their counters.
     */
    ghost predicate Valid()
      reads this, graph
    {
      fullFileName == FullFileName(FilesOf()) && graph.written == WrittenFiles(FilesOf())
    }

    /** `visualizeTree(fileDir, fileName='bst_graph', fileExt='.png', vidFrames=1, fileCount=0)`. */
    constructor (fileDir: string, fileName: string := "bst_graph", fileExt: string := ".png",
                 vidFrames: int := 1, fileCount: int := 0)
      ensures Valid()
      ensures FilesOf() == InitialFiles(fileDir, fileName, fileExt, vidFrames, fileCount)
      ensures CanvasOf() == EmptyCanvas && visualizeList == [] && treeList.items == []
      ensures fresh(graph) && fresh(treeList)
    {
      this.fileDir := fileDir;
      this.fileName := fileName;
      this.fileExt := fileExt;
      this.vidFrames := vidFrames;
      this.fileCount := fileCount;
      treeList := new WorkList();
      nodeNames := map[];
      fullFileName := "";
      visualizeList := [];
      graph := new Graph();
      current := None;
      writtenCounts := [];
      new;
      graph.SetEdgeDefaults(InitialEdgeDefaults);
    }

    /** `setVidFrames(vidFrames)`. */
    method SetVidFrames(vidFrames: int)
      requires Valid()
      modifies this
      ensures Valid()
      ensures FilesOf() == old(FilesOf()).(vidFrames := vidFrames)
      ensures CanvasOf() == old(CanvasOf()) && visualizeList == old(visualizeList)
    {
      ghost var f := FilesOf();
      this.vidFrames := vidFrames;
      PathsSameNaming(f, FilesOf(), writtenCounts);
    }

    /** `setFileName()`: `fullFileName` becomes `getFileName(fileCount)`. */
    method SetFileName()
      requires graph.written == WrittenFiles(FilesOf())
      modifies this
      ensures Valid()
      ensures FilesOf() == Frames.SetFileName(old(FilesOf()))
      ensures fullFileName == FileNameFor(FilesOf(), fileCount)
      ensures CanvasOf() == old(CanvasOf()) && visualizeList == old(visualizeList)
    {
      ghost var f := FilesOf();
      fullFileName := fileDir + fileName + Format05d(fileCount) + fileExt;
      current := Some(fileCount);
      PathsSameNaming(f, FilesOf(), writtenCounts);
    }

    /** `getFileName(count)`: the current path for None, else the path of `count`. */
    method GetFileName(count: Option<int> := None) returns (name: string)
      requires Valid()
      ensures count.None? ==> name == FullFileName(FilesOf())
      ensures count.Some? ==> name == FileNameFor(FilesOf(), count.value)
    {
      if count == None {
        name := fullFileName;
      } else {
        name := fileDir + fileName + Format05d(count.value) + fileExt;
      }
    }

    /** `getFileCount()`. */
    method GetFileCount() returns (n: int)
      ensures n == FilesOf().fileCount
    {
      n := fileCount;
    }

    /** `updateGraph()`: `vidFrames` times, count a frame, rename and write the image. */
    method UpdateGraph()
      requires Valid()
      modifies this, graph
      ensures Valid()
      ensures FilesOf() == Frames.UpdateGraph(old(FilesOf()))
      ensures CanvasOf() == old(CanvasOf()) && visualizeList == old(visualizeList)
    {
      var i := 0;
      while i < vidFrames
        invariant Valid()
        invariant vidFrames == old(vidFrames)
        invariant 0 <= i && (i <= vidFrames || i == 0)
        invariant FilesOf() == Advance(old(FilesOf()), i)
        invariant CanvasOf() == old(CanvasOf()) && visualizeList == old(visualizeList)
      {
        WriteFrame();
        i := i + 1;
      }
    }

    /** One pass of `updateGraph`'s loop: count a frame, `setFileName()`, `write_png(fullFileName)`. */
    method WriteFrame()
      requires Valid()
      modifies this, graph
      ensures Valid()
      ensures FilesOf() == Frames.WriteFrame(old(FilesOf()))
      ensures vidFrames == old(vidFrames)
      ensures CanvasOf() == old(CanvasOf()) && visualizeList == old(visualizeList)
    {
      ghost var f := FilesOf();
      fileCount := fileCount + 1;
      PathsSameNaming(f, FilesOf(), writtenCounts);
      SetFileName();
      ghost var g := FilesOf();
      WritePngAppends(g);
      graph.WritePng(fullFileName);
      writtenCounts := writtenCounts + [fileCount];
      assert FilesOf() == Frames.WritePng(g);
    }

    /** `appendVisualizeList()`: remember the current file. */
    method AppendVisualizeList()
      requires Valid()
      modifies this
      ensures Valid()
      ensures SessionOf() == Searching.AppendVisualizeList(old(SessionOf()))
    {
      visualizeList := visualizeList + [fullFileName];
    }

    /** `highlightNodeFound(node)`. */
    method HighlightNodeFound(node: string)
      requires Valid()
      modifies this, graph
      ensures Valid()
      ensures SessionOf() == Searching.HighlightNodeFound(old(SessionOf()), node)
    {
      graph.AddNode(NodeRec(node, None, "green", None));
      UpdateGraph();
      AppendVisualizeList();
    }

    /** `blinkNodeTraversed(node)`. */
    method BlinkNodeTraversed(node: string)
      requires Valid()
      modifies this, graph
      ensures Valid()
      ensures SessionOf() == Searching.BlinkNodeTraversed(old(SessionOf()), node)
    {
      graph.AddNode(NodeRec(node, None, "red", None));
      UpdateGraph();
      AppendVisualizeList();
      graph.AddNode(NodeRec(node, None, "#cc9999", None));
      UpdateGraph();
    }

    /** `self.nodeNames[name] = pydot.Node(name, ...)` and `self.graph.add_node(...)`. */
    method RegisterNode(name: string, fill: string, style: string)
      requires Valid()
      modifies this, graph
      ensures Valid()
      ensures CanvasOf() == Register(old(CanvasOf()), name, fill, style)
      ensures FilesOf() == old(FilesOf()) && visualizeList == old(visualizeList)
    {
      nodeNames := nodeNames[name := DrawnNode(name, fill, style)];
      graph.AddNode(nodeNames[name]);
    }

    /** `draw(parent_name, child_name=None, fill_color="grey", style_type='filled')`. */
    method Draw(parentName: string, childName: Option<string> := None,
                fillColor: string := "grey", styleType: string := "filled")
      requires Valid()
      modifies this, graph
      ensures Valid()
      ensures CanvasOf() == Drawing.Draw(old(CanvasOf()), parentName, childName, fillColor, styleType)
      ensures FilesOf() == old(FilesOf()) && visualizeList == old(visualizeList)
    {
      if childName == None || childName == Some("") {
        RegisterNode(parentName, fillColor, styleType);
        return;
      }
      var weight: string;
      var saved: map<string, string> := map[];
      if styleType == "invisible" {
        weight := "100";
        saved := graph.GetEdgeDefaults();
        graph.SetEdgeDefaults(InvisibleEdgeDefaults(styleType));
      } else {
        weight := "3";
      }
      graph.AddEdge(parentName, childName.value, styleType, weight);
      if styleType == "invisible" {
        graph.SetEdgeDefaults(saved);
      }
      assert CanvasOf() == AddEdge(old(CanvasOf()), parentName, childName.value, styleType);
      if |nodeNames| == 0 {
        RegisterNode(parentName, fillColor, styleType);
      }
      if parentName !in nodeNames {
        RegisterNode(parentName, fillColor, styleType);
      }
      if childName.value !in nodeNames {
        RegisterNode(childName.value, fillColor, styleType);
      }
    }

    /**
     * `searchTree(root, searchMethod, find=None)`: pop the front of the
     * work list until it is empty or a node printing as `find` is found.
     */
    method SearchTree(root: Tree, searchMethod: Algorithm, find: Option<string> := None) returns (found: bool)
      requires Valid() && Admissible(searchMethod, find)
      modifies this, graph, treeList
      ensures Valid()
      ensures var r := Searching.SearchTree(searchMethod, find, old(SessionOf()), root);
        found == r.found && SessionOf() == r.session && treeList.items == r.treeList
    {
      treeList.items := [root];
      while |treeList.items| > 0
        invariant Valid()
        invariant Search(searchMethod, find, SessionOf(), treeList.items)
               == Search(searchMethod, find, old(SessionOf()), [root])
        decreases ListSize(treeList.items)
      {
        ghost var s := SessionOf();
        ghost var list := treeList.items;
        var node := treeList.PopFront();
        if node != Nil {
          if Matches(node, find) {
            HighlightNodeFound(node.name);
            return true;
          } else if find != None {
            BlinkNodeTraversed(node.name);
          }
          match searchMethod {
            case DepthFirst => DFS(node, treeList, find);
            case OrderedDepthFirst => DFSOrdered(node, treeList, find);
            case BreadthFirst => BFS(node, treeList, find);
            case Sketch => SketchTree(node, treeList, this);
          }
          assert SessionOf() == Visit(searchMethod, find, s, node);
        }
      }
      return false;
    }
  }

  /** `DFS(node, queue)`: the right branch, then the left one, each inserted at the front. */
  method DFS(node: Tree, queue: WorkList, find: Option<string>)
    requires node.Node?
    modifies queue
    ensures queue.items == Expand(DepthFirst, node, find, old(queue.items))
  {
    if node.right.Node? {
      queue.InsertFront(node.right);
    }
    if node.left.Node? {
      queue.InsertFront(node.left);
    }
  }

  /**
   * `DFSOrdered(node, queue, find)`: the right branch at the front when
   * `find > str(value)`, then the left one when `find < str(value)`.
   */
  method DFSOrdered(node: Tree, queue: WorkList, find: Option<string>)
    requires node.Node? && find.Some?
    modifies queue
    ensures queue.items == Expand(OrderedDepthFirst, node, find, old(queue.items))
  {
    if node.right.Node? && StrLess(node.valueStr, find.value) {
      queue.InsertFront(node.right);
    }
    if node.left.Node? && StrLess(find.value, node.valueStr) {
      queue.InsertFront(node.left);
    }
  }

  /** `BFS(node, stack)`: the left branch, then the right one, each appended at the back. */
  method BFS(node: Tree, stack: WorkList, find: Option<string>)
    requires node.Node?
    modifies stack
    ensures stack.items == Expand(BreadthFirst, node, find, old(stack.items))
  {
    if node.left.Node? {
      stack.Append(node.left);
    }
    if node.right.Node? {
      stack.Append(node.right);
    }
  }

  /**
   * `sketchTree(node, stack, draw=...)`: draw the edges to the branches
   * with their invisible placeholders, and append the branches at the back.
   */
  method SketchTree(node: Tree, stack: WorkList, draw: Visualizer)
    requires node.Node? && draw.Valid()
    modifies stack, draw, draw.graph
    ensures draw.Valid()
    ensures stack.items == Expand(Sketch, node, None, old(stack.items))
    ensures draw.CanvasOf() == DrawAll(old(draw.CanvasOf()), SketchCalls(node))
    ensures draw.FilesOf() == old(draw.FilesOf()) && draw.visualizeList == old(draw.visualizeList)
  {
    ghost var c0 := draw.CanvasOf();
    SketchLeft(node, stack, draw);
    ghost var c1 := draw.CanvasOf();
    SketchRight(node, stack, draw);
    ghost var c2 := draw.CanvasOf();
    SketchRoot(node, draw);
    DrawAllAppend(c0, SketchLeftCalls(node), SketchRightCalls(node));
    DrawAllAppend(c0, SketchLeftCalls(node) + SketchRightCalls(node), SketchRootCalls(node));
  }

  /** The first block of `sketchTree`: the left edge, then the ":"-placeholder if there is a right branch. */
  method SketchLeft(node: Tree, stack: WorkList, draw: Visualizer)
    requires node.Node? && draw.Valid()
    modifies stack, draw, draw.graph
    ensures draw.Valid()
    ensures stack.items == old(stack.items) + (if node.left.Node? then [node.left] else [])
    ensures draw.CanvasOf() == DrawAll(old(draw.CanvasOf()), SketchLeftCalls(node))
    ensures draw.FilesOf() == old(draw.FilesOf()) && draw.visualizeList == old(draw.visualizeList)
  {
    var n := node.name;
    ghost var c0 := draw.CanvasOf();
    if node.left.Node? {
      draw.Draw(n, Some(node.left.name));
      DrawAllSnoc(c0, [], Line(n, node.left.name));
      stack.Append(node.left);
      if node.right.Node? {
        draw.Draw(n, Some(":" + n), styleType := "invisible");
        DrawAllSnoc(c0, [Line(n, node.left.name)], Hidden(n, ":" + n));
        assert [Line(n, node.left.name)] + [Hidden(n, ":" + n)] == SketchLeftCalls(node);
      }
    } else if node.right.Node? {
      draw.Draw(n, Some(":" + n), styleType := "invisible");
      DrawAllSnoc(c0, [], Hidden(n, ":" + n));
    }
  }

  /** The second block: the right edge, or the ";"-placeholder when only the left branch exists. */
  method SketchRight(node: Tree, stack: WorkList, draw: Visualizer)
    requires node.Node? && draw.Valid()
    modifies stack, draw, draw.graph
    ensures draw.Valid()
    ensures stack.items == old(stack.items) + (if node.right.Node? then [node.right] else [])
    ensures draw.CanvasOf() == DrawAll(old(draw.CanvasOf()), SketchRightCalls(node))
    ensures draw.FilesOf() == old(draw.FilesOf()) && draw.visualizeList == old(draw.visualizeList)
  {
    var n := node.name;
    ghost var c0 := draw.CanvasOf();
    if node.right.Node? {
      draw.Draw(n, Some(node.right.name));
      DrawAllSnoc(c0, [], Line(n, node.right.name));
      stack.Append(node.right);
    } else if node.left.Node? {
      draw.Draw(n, Some(";" + n), styleType := "invisible");
      DrawAllSnoc(c0, [], Hidden(n, ";" + n));
    }
  }

  /** The third block: a root without branches is drawn on its own. */
  method SketchRoot(node: Tree, draw: Visualizer)
    requires node.Node? && draw.Valid()
    modifies draw, draw.graph
    ensures draw.Valid()
    ensures draw.CanvasOf() == DrawAll(old(draw.CanvasOf()), SketchRootCalls(node))
    ensures draw.FilesOf() == old(draw.FilesOf()) && draw.visualizeList == old(draw.visualizeList)
  {
    if node.left.Nil? && node.right.Nil? && node.isRoot {
      draw.Draw(node.name);
    }
  }
}
