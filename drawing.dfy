/**
 * What `draw` and `sketchTree` do to the picture: the registry
 * `nodeNames` (label to node record, each label drawn once on the edge
 * path), the node and edge statements handed to the pydot graph in order,
 * and the edge defaults in force.
 */
module Drawing {
  import opened Wrappers
  import opened BinaryTree
  import opened Sequences

  /** A `pydot.Node`: its name and the attributes the visualizer sets (`caption` is its `label`). */
  datatype NodeRec = NodeRec(name: string, caption: Option<string>, fillColor: string, style: Option<string>)

  /**
   * A `pydot.Edge` with its `style` and `weight`, together with the edge
   * defaults in force at the point where it was added to the graph.
   */
  datatype EdgeRec = EdgeRec(src: string, dst: string, style: string, weight: string, defaults: map<string, string>)

  /** The registry of a visualizer together with the statements of its graph. */
  datatype Canvas = Canvas(
    nodeNames: map<string, NodeRec>,
    nodes: seq<NodeRec>,
    edges: seq<EdgeRec>,
    edgeDefaults: map<string, string>)

  /** One call `draw(parent_name, child_name, fill_color, style_type)`. */
  datatype DrawCall = DrawCall(parent: string, child: Option<string>, fill: string, style: string)

  /** The edge defaults the constructor sets. */
  const InitialEdgeDefaults: map<string, string> := map["color" := "blue", "arrowhead" := "vee"]

  /** The registry and graph of a freshly constructed visualizer. */
  const EmptyCanvas: Canvas := Canvas(map[], [], [], InitialEdgeDefaults)

  /** The edge defaults an invisible draw sets while it adds its edge. */
  function InvisibleEdgeDefaults(style: string): map<string, string>
  {
    map["style" := style, "color" := "white", "arrowhead" := "none"]
  }

  /** `pydot.Node(name, label=name, fillcolor=fill, style=style)`. */
  function DrawnNode(name: string, fill: string, style: string): NodeRec
  {
    NodeRec(name, Some(name), fill, Some(style))
  }

  /** `self.nodeNames[name] = pydot.Node(...)` followed by `self.graph.add_node(...)`. */
  function Register(c: Canvas, name: string, fill: string, style: string): Canvas
  {
    var r := DrawnNode(name, fill, style);
    c.(nodeNames := c.nodeNames[name := r], nodes := c.nodes + [r])
  }

  /** Python's `not child_name`: the child is `None` or the empty string. */
  predicate NoChild(child: Option<string>)
  {
    child == None || child == Some("")
  }

  /** The `weight` attribute of an edge drawn with `style`. */
  function EdgeWeight(style: string): string
  {
    if style == "invisible" then "100" else "3"
  }

  /** `self.nodeNames[name] = ...` and `add_node` only when `name not in self.nodeNames`. */
  function RegisterIfAbsent(c: Canvas, name: string, fill: string, style: string): Canvas
  {
    if name !in c.nodeNames then Register(c, name, fill, style) else c
  }

  /** `self.graph.add_edge(pydot.Edge(parent, child, style=style, weight=...))`, under the defaults in force. */
  function AddEdge(c: Canvas, parent: string, child: string, style: string): Canvas
  {
    var inForce := if style == "invisible" then InvisibleEdgeDefaults(style) else c.edgeDefaults;
    c.(edges := c.edges + [EdgeRec(parent, child, style, EdgeWeight(style), inForce)])
  }

  /**
   * `draw(parent_name, child_name, fill_color, style_type)`. Without a
   * child the parent is registered and added unconditionally. Otherwise
   * one edge is added (under the invisible defaults for an invisible
   * draw, which are restored afterwards), then the parent is registered
   * when the registry is empty, the parent when it is absent, and the
   * child when it is absent.
   */
  function Draw(c: Canvas, parent: string, child: Option<string>, fill: string, style: string): Canvas
  {
    if NoChild(child) then Register(c, parent, fill, style)
    else
      var c1 := AddEdge(c, parent, child.value, style);
      var c2 := if |c1.nodeNames| == 0 then Register(c1, parent, fill, style) else c1;
      var c3 := RegisterIfAbsent(c2, parent, fill, style);
      RegisterIfAbsent(c3, child.value, fill, style)
  }

  /**
   * The branch for an empty registry (the root of the tree) registers the
   * parent just as the branch for an absent parent would: on the edge path
   * `draw` adds the edge, then registers each of parent and child once.
   */
  lemma DrawEdgePath(c: Canvas, parent: string, child: Option<string>, fill: string, style: string)
    requires !NoChild(child)
    ensures Draw(c, parent, child, fill, style)
         == RegisterIfAbsent(RegisterIfAbsent(AddEdge(c, parent, child.value, style), parent, fill, style),
                             child.value, fill, style)
  {
    var c1 := AddEdge(c, parent, child.value, style);
    if |c1.nodeNames| == 0 {
      assert parent !in c1.nodeNames;
      assert parent in Register(c1, parent, fill, style).nodeNames;
    }
  }

  /** The draw calls in `calls`, made one after the other. */
  function DrawAll(c: Canvas, calls: seq<DrawCall>): Canvas
    decreases |calls|
  {
    if calls == [] then c
    else DrawAll(Draw(c, calls[0].parent, calls[0].child, calls[0].fill, calls[0].style), calls[1..])
  }

  lemma {:induction false} DrawAllAppend(c: Canvas, a: seq<DrawCall>, b: seq<DrawCall>)
    ensures DrawAll(c, a + b) == DrawAll(DrawAll(c, a), b)
    decreases |a|
  {
    if a == [] {
      assert a + b == b;
    } else {
      assert (a + b)[0] == a[0] && (a + b)[1..] == a[1..] + b;
      DrawAllAppend(Draw(c, a[0].parent, a[0].child, a[0].fill, a[0].style), a[1..], b);
    }
  }

  /** One more draw call after a list of them. */
  lemma DrawAllSnoc(c: Canvas, calls: seq<DrawCall>, x: DrawCall)
    ensures DrawAll(c, calls + [x]) == Draw(DrawAll(c, calls), x.parent, x.child, x.fill, x.style)
  {
    DrawAllAppend(c, calls, [x]);
    assert [x][1..] == [];
  }

  /** Every registered label maps to a node record of that name which was added to the graph. */
  predicate Registered(c: Canvas)
  {
    forall k :: k in c.nodeNames ==> c.nodeNames[k].name == k && c.nodeNames[k] in c.nodes
  }

  lemma RegisterKeeps(c: Canvas, name: string, fill: string, style: string)
    requires Registered(c)
    ensures Registered(Register(c, name, fill, style))
  {
  }

  /** `draw` keeps the registry consistent with the graph, whatever it is called with. */
  lemma DrawKeepsRegistered(c: Canvas, parent: string, child: Option<string>, fill: string, style: string)
    requires Registered(c)
    ensures Registered(Draw(c, parent, child, fill, style))
  {
    if NoChild(child) {
      RegisterKeeps(c, parent, fill, style);
    } else {
      DrawEdgePath(c, parent, child, fill, style);
      var c1 := AddEdge(c, parent, child.value, style);
      assert Registered(c1);
      RegisterKeeps(c1, parent, fill, style);
      RegisterKeeps(RegisterIfAbsent(c1, parent, fill, style), child.value, fill, style);
    }
  }

  /**
   * Without a child, `draw` sets `nodeNames[parent_name]` unconditionally
   * (replacing any earlier record) and adds that node; no edge is drawn.
   */
  lemma DrawIsolated(c: Canvas, parent: string, child: Option<string>, fill: string, style: string)
    requires NoChild(child)
    ensures var d := Draw(c, parent, child, fill, style);
      && d.nodeNames.Keys == c.nodeNames.Keys + {parent}
      && d.nodeNames[parent] == DrawnNode(parent, fill, style)
      && (forall k :: k in c.nodeNames && k != parent ==> d.nodeNames[k] == c.nodeNames[k])
      && d.nodes == c.nodes + [DrawnNode(parent, fill, style)]
      && d.edges == c.edges && d.edgeDefaults == c.edgeDefaults
  {
  }

  /**
   * With a child, `draw` appends exactly one edge from parent to child,
   * of weight "100" when invisible and "3" otherwise, drawn under the
   * invisible defaults then, and leaves the edge defaults as they were.
   */
  lemma DrawEdgeLine(c: Canvas, parent: string, child: Option<string>, fill: string, style: string)
    requires !NoChild(child)
    ensures var d := Draw(c, parent, child, fill, style);
      && |d.edges| == |c.edges| + 1 && d.edges[..|c.edges|] == c.edges
      && d.edges[|c.edges|].src == parent && d.edges[|c.edges|].dst == child.value
      && d.edges[|c.edges|].style == style
      && (d.edges[|c.edges|].weight == "100" <==> style == "invisible")
      && (style != "invisible" ==> d.edges[|c.edges|].weight == "3")
      && (style == "invisible" ==> d.edges[|c.edges|].defaults == InvisibleEdgeDefaults(style))
      && (style != "invisible" ==> d.edges[|c.edges|].defaults == c.edgeDefaults)
      && d.edgeDefaults == c.edgeDefaults
  {
    DrawEdgePath(c, parent, child, fill, style);
    var c1 := AddEdge(c, parent, child.value, style);
    var d := RegisterIfAbsent(RegisterIfAbsent(c1, parent, fill, style), child.value, fill, style);
    assert d.edges == c1.edges && d.edgeDefaults == c.edgeDefaults;
  }

  /**
   * With a child, `draw` makes parent and child registered without
   * touching any existing entry.
   */
  lemma DrawEdgeRegistry(c: Canvas, parent: string, child: Option<string>, fill: string, style: string)
    requires !NoChild(child)
    ensures var d := Draw(c, parent, child, fill, style);
      && d.nodeNames.Keys == c.nodeNames.Keys + {parent, child.value}
      && (forall k :: k in c.nodeNames ==> d.nodeNames[k] == c.nodeNames[k])
  {
    DrawEdgePath(c, parent, child, fill, style);
    RegisterBoth(AddEdge(c, parent, child.value, style), parent, child.value, fill, style);
  }

  /** Registering two labels if absent adds both and keeps every existing entry. */
  lemma RegisterBoth(c: Canvas, parent: string, child: string, fill: string, style: string)
    ensures var d := RegisterIfAbsent(RegisterIfAbsent(c, parent, fill, style), child, fill, style);
      && d.nodeNames.Keys == c.nodeNames.Keys + {parent, child}
      && (forall k :: k in c.nodeNames ==> d.nodeNames[k] == c.nodeNames[k])
  {
    var c2 := RegisterIfAbsent(c, parent, fill, style);
    RegisterIfAbsentFacts(c, parent, fill, style);
    RegisterIfAbsentFacts(c2, child, fill, style);
  }

  /**
   * With a child, `draw` adds to the graph exactly one node per label that
   * was not registered before: the parent first, then the child.
   */
  lemma DrawEdgeNodes(c: Canvas, parent: string, child: Option<string>, fill: string, style: string)
    requires !NoChild(child)
    ensures Draw(c, parent, child, fill, style).nodes == c.nodes + NewNodes(c, parent, child.value, fill, style)
  {
    DrawEdgePath(c, parent, child, fill, style);
    var c1 := AddEdge(c, parent, child.value, style);
    var c2 := RegisterIfAbsent(c1, parent, fill, style);
    RegisterIfAbsentFacts(c1, parent, fill, style);
    RegisterIfAbsentFacts(c2, child.value, fill, style);
    var p := if parent !in c.nodeNames then [DrawnNode(parent, fill, style)] else [];
    var q := if child.value !in c.nodeNames && child.value != parent then [DrawnNode(child.value, fill, style)] else [];
    assert NewNodes(c, parent, child.value, fill, style) == p + q;
    ConcatAssoc(c.nodes, p, q);
  }

  lemma RegisterIfAbsentFacts(c: Canvas, name: string, fill: string, style: string)
    ensures var d := RegisterIfAbsent(c, name, fill, style);
      && d.nodeNames.Keys == c.nodeNames.Keys + {name}
      && (forall k :: k in c.nodeNames ==> d.nodeNames[k] == c.nodeNames[k])
      && d.nodes == c.nodes + (if name !in c.nodeNames then [DrawnNode(name, fill, style)] else [])
  {
  }

  /** The nodes the edge path of `draw` adds: the parent, then the child, each only when unregistered. */
  function NewNodes(c: Canvas, parent: string, child: string, fill: string, style: string): (r: seq<NodeRec>)
    ensures forall i :: 0 <= i < |r| ==> r[i].name !in c.nodeNames
    ensures forall i, j :: 0 <= i < j < |r| ==> r[i].name != r[j].name
  {
    var p := if parent !in c.nodeNames then [DrawnNode(parent, fill, style)] else [];
    var q := if child !in c.nodeNames && child != parent then [DrawnNode(child, fill, style)] else [];
    p + q
  }

  /** `draw` on the edge path adds at most two labels to the registry. */
  lemma DrawGrowsByAtMostTwo(c: Canvas, parent: string, child: Option<string>, fill: string, style: string)
    requires !NoChild(child)
    ensures |Draw(c, parent, child, fill, style).nodeNames.Keys| <= |c.nodeNames.Keys| + 2
  {
    DrawEdgeRegistry(c, parent, child, fill, style);
    var extra := {parent, child.value};
    assert |extra| <= 2 by {
      if parent == child.value {
        assert extra == {parent};
      }
    }
    SetUnionSize(c.nodeNames.Keys, extra);
  }


  /** `draw` never removes a label or changes an existing entry of the registry. */
  lemma DrawKeepsEntries(c: Canvas, parent: string, child: Option<string>, fill: string, style: string)
    ensures var d := Draw(c, parent, child, fill, style);
      && c.nodeNames.Keys <= d.nodeNames.Keys
      && (forall k :: k in c.nodeNames && k != parent ==> d.nodeNames[k] == c.nodeNames[k])
  {
    if NoChild(child) {
      DrawIsolated(c, parent, child, fill, style);
    } else {
      DrawEdgeRegistry(c, parent, child, fill, style);
    }
  }

  lemma {:induction false} DrawAllKeepsKeys(c: Canvas, calls: seq<DrawCall>)
    ensures c.nodeNames.Keys <= DrawAll(c, calls).nodeNames.Keys
    decreases |calls|
  {
    if calls != [] {
      var x := calls[0];
      DrawKeepsEntries(c, x.parent, x.child, x.fill, x.style);
      DrawAllKeepsKeys(Draw(c, x.parent, x.child, x.fill, x.style), calls[1..]);
    }
  }

  /** A visible edge from `parent` to `child` with the default fill. */
  function Line(parent: string, child: string): DrawCall
  {
    DrawCall(parent, Some(child), "grey", "filled")
  }

  /** An invisible edge to a placeholder node, keeping the layout of a missing branch. */
  function Hidden(parent: string, placeholder: string): DrawCall
  {
    DrawCall(parent, Some(placeholder), "grey", "invisible")
  }

  /**
   * The draw calls `sketchTree` makes for `node`: the left edge, an
   * invisible ":"-placeholder when there is a right branch (between the two
   * edges when both exist), the right edge, an invisible ";"-placeholder
   * when only the left branch exists, and an isolated draw of a childless
   * root.
   */
  function SketchCalls(node: Tree): seq<DrawCall>
    requires node.Node?
  {
    SketchLeftCalls(node) + SketchRightCalls(node) + SketchRootCalls(node)
  }

  /** The first block of `sketchTree`: the left edge and/or the ":"-placeholder. */
  function SketchLeftCalls(node: Tree): seq<DrawCall>
    requires node.Node?
  {
    var n, l, r := node.name, node.left, node.right;
    if l.Node? then [Line(n, l.name)] + (if r.Node? then [Hidden(n, ":" + n)] else [])
    else if r.Node? then [Hidden(n, ":" + n)] else []
  }

  /** The second block: the right edge, or the ";"-placeholder when only the left branch exists. */
  function SketchRightCalls(node: Tree): seq<DrawCall>
    requires node.Node?
  {
    var n, l, r := node.name, node.left, node.right;
    if r.Node? then [Line(n, r.name)] else if l.Node? then [Hidden(n, ";" + n)] else []
  }

  /** The third block: a childless root is drawn on its own. */
  function SketchRootCalls(node: Tree): seq<DrawCall>
    requires node.Node?
  {
    if node.left.Nil? && node.right.Nil? && node.isRoot then [DrawCall(node.name, None, "grey", "filled")] else []
  }

  /** The number of invisible draws among `calls`. */
  function InvisibleCount(calls: seq<DrawCall>): nat
  {
    if calls == [] then 0
    else (if calls[0].style == "invisible" then 1 else 0) + InvisibleCount(calls[1..])
  }

  /**
   * Every existing branch gets a visible edge (left before right); a node
   * with any branch gets exactly one invisible placeholder, named ";" + label
   * when only the left branch exists and ":" + label otherwise, standing
   * between the two edges when both exist; a childless node draws nothing
   * but itself, and that only when it is the root.
   */
  lemma SketchPlaceholders(node: Tree)
    requires node.Node?
    ensures var calls := SketchCalls(node);
      && InvisibleCount(calls) == (if node.left.Node? || node.right.Node? then 1 else 0)
      && (node.left.Node? && node.right.Node? ==>
            calls == [Line(node.name, node.left.name), Hidden(node.name, ":" + node.name), Line(node.name, node.right.name)])
      && (node.left.Nil? && node.right.Node? ==>
            calls == [Hidden(node.name, ":" + node.name), Line(node.name, node.right.name)])
      && (node.left.Node? && node.right.Nil? ==>
            calls == [Line(node.name, node.left.name), Hidden(node.name, ";" + node.name)])
      && (node.left.Nil? && node.right.Nil? ==>
            calls == if node.isRoot then [DrawCall(node.name, None, "grey", "filled")] else [])
  {
    var calls := SketchCalls(node);
    var n := node.name;
    if node.left.Node? && node.right.Node? {
      assert calls == [Line(n, node.left.name), Hidden(n, ":" + n), Line(n, node.right.name)];
      assert calls[1..][1..] == [Line(n, node.right.name)];
      assert calls[1..][1..][1..] == [];
      assert InvisibleCount(calls[1..][1..]) == 0;
      assert InvisibleCount(calls[1..]) == 1;
    } else if node.right.Node? {
      assert calls == [Hidden(n, ":" + n), Line(n, node.right.name)];
      assert calls[1..][1..] == [];
      assert InvisibleCount(calls[1..]) == 0;
    } else if node.left.Node? {
      assert calls == [Line(n, node.left.name), Hidden(n, ";" + n)];
      assert calls[1..][1..] == [];
      assert InvisibleCount(calls[1..]) == 1;
    } else if node.isRoot {
      assert calls[1..] == [];
    }
  }

  /** Whatever comes after, the labels a draw call registers stay registered. */
  lemma DrawAllRegisters(c: Canvas, calls: seq<DrawCall>, i: nat)
    requires i < |calls|
    ensures calls[i].parent in DrawAll(c, calls).nodeNames
    ensures !NoChild(calls[i].child) ==> calls[i].child.value in DrawAll(c, calls).nodeNames
  {
    var x := calls[i];
    var before := DrawAll(c, calls[..i]);
    var after := Draw(before, x.parent, x.child, x.fill, x.style);
    assert calls == calls[..i] + ([x] + calls[i + 1..]);
    DrawAllAppend(c, calls[..i], [x] + calls[i + 1..]);
    DrawAllAppend(before, [x], calls[i + 1..]);
    assert DrawAll(before, [x]) == after by {
      assert [x][1..] == [];
    }
    if NoChild(x.child) {
      DrawIsolated(before, x.parent, x.child, x.fill, x.style);
    } else {
      DrawEdgeRegistry(before, x.parent, x.child, x.fill, x.style);
    }
    DrawAllKeepsKeys(after, calls[i + 1..]);
  }

  /**
   * Sketching a node registers its own label and the labels of its
   * branches, provided these labels are not empty, and the node has a
   * branch or is the root.
   */
  lemma SketchRegistersFamily(c: Canvas, node: Tree)
    requires node.Node? && node.name != ""
    requires node.left.Node? ==> node.left.name != ""
    requires node.right.Node? ==> node.right.name != ""
    requires node.left.Node? || node.right.Node? || node.isRoot
    ensures var d := DrawAll(c, SketchCalls(node));
      && node.name in d.nodeNames
      && (node.left.Node? ==> node.left.name in d.nodeNames)
      && (node.right.Node? ==> node.right.name in d.nodeNames)
  {
    var calls := SketchCalls(node);
    DrawAllRegisters(c, calls, 0);
    if node.left.Node? {
      assert calls[0] == Line(node.name, node.left.name);
    }
    if node.right.Node? {
      assert calls[|calls| - 1] == Line(node.name, node.right.name);
      DrawAllRegisters(c, calls, |calls| - 1);
    }
  }

  /**
   * A node without a left branch but with a right one, sketched while the
   * registry is still empty (the root on a fresh visualizer), is itself
   * drawn invisible: its ":"-placeholder is the first draw, and the branch
   * for an empty registry registers the parent with that draw's style. The
   * visible right edge that follows finds it registered and leaves it so,
   * unless the right label is empty, which redraws the node on its own.
   */
  lemma SketchRootInvisible(c: Canvas, node: Tree)
    requires node.Node? && node.left.Nil? && node.right.Node? && c.nodeNames == map[]
    ensures var d := DrawAll(c, SketchCalls(node));
      && |d.nodes| > |c.nodes| && d.nodes[|c.nodes|] == DrawnNode(node.name, "grey", "invisible")
      && (node.right.name != "" ==> node.name in d.nodeNames && d.nodeNames[node.name] == DrawnNode(node.name, "grey", "invisible"))
  {
    var n, m := node.name, node.right.name;
    var hidden := DrawnNode(n, "grey", "invisible");
    SketchPlaceholders(node);
    var calls := SketchCalls(node);
    var d1 := Draw(c, n, Some(":" + n), "grey", "invisible");
    assert |":" + n| != |n|;
    assert d1.nodeNames[n] == hidden;
    assert d1.nodes[..|c.nodes| + 1] == c.nodes + [hidden];
    var d := Draw(d1, n, Some(m), "grey", "filled");
    assert DrawAll(c, calls) == d by {
      assert calls[0] == DrawCall(n, Some(":" + n), "grey", "invisible");
      assert calls[1..][0] == DrawCall(n, Some(m), "grey", "filled");
      assert calls[1..][1..] == [];
      assert DrawAll(c, calls) == DrawAll(d1, calls[1..]);
      assert DrawAll(d1, calls[1..]) == DrawAll(d, []);
    }
    if m == "" {
      DrawIsolated(d1, n, Some(m), "grey", "filled");
    } else {
      DrawEdgeNodes(d1, n, Some(m), "grey", "filled");
      DrawEdgeRegistry(d1, n, Some(m), "grey", "filled");
    }
    assert d.nodes[..|d1.nodes|] == d1.nodes;
    PrefixOfPrefix(d.nodes, d1.nodes, c.nodes + [hidden]);
  }
}
