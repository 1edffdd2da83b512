/**
 * The part of a `pydot.Dot` graph the visualizer uses: node and edge
 * statements in the order they were added, the edge defaults currently in
 * force, and (standing for the image files) the paths handed to
 * `write_png`.
 */
module Pydot {
  import opened Drawing

  class Graph {
    var nodes: seq<NodeRec>
    var edges: seq<EdgeRec>
    var edgeDefaults: map<string, string>
    var written: seq<string>

    constructor ()
      ensures nodes == [] && edges == [] && edgeDefaults == map[] && written == []
    {
      nodes := [];
      edges := [];
      edgeDefaults := map[];
      written := [];
    }

    /** `add_node(node)`. */
    method AddNode(node: NodeRec)
      modifies this
      ensures nodes == old(nodes) + [node]
      ensures edges == old(edges) && edgeDefaults == old(edgeDefaults) && written == old(written)
    {
      nodes := nodes + [node];
    }

    /** `add_edge(pydot.Edge(src, dst, style=style, weight=weight))`, under the defaults in force. */
    method AddEdge(src: string, dst: string, style: string, weight: string)
      modifies this
      ensures edges == old(edges) + [EdgeRec(src, dst, style, weight, edgeDefaults)]
      ensures nodes == old(nodes) && edgeDefaults == old(edgeDefaults) && written == old(written)
    {
      edges := edges + [EdgeRec(src, dst, style, weight, edgeDefaults)];
    }

    /** `get_edge_defaults()[0]`: the edge defaults in force. */
    method GetEdgeDefaults() returns (d: map<string, string>)
      ensures d == edgeDefaults
    {
      d := edgeDefaults;
    }

    /** `set_edge_defaults(**d)`. */
    method SetEdgeDefaults(d: map<string, string>)
      modifies this
      ensures edgeDefaults == d
      ensures nodes == old(nodes) && edges == old(edges) && written == old(written)
    {
      edgeDefaults := d;
    }

    /** `write_png(path)`: one more image file. */
    method WritePng(path: string)
      modifies this
      ensures written == old(written) + [path]
      ensures nodes == old(nodes) && edges == old(edges) && edgeDefaults == old(edgeDefaults)
    {
      written := written + [path];
    }
  }
}
