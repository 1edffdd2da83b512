/**
 * The binary tree the visualizer walks. The tree class itself belongs to
 * the caller; the visualizer only asks a node for its two branches, for
 * whether it has a parent, for `str(node)` (its name, used for drawing
 * and for matching the searched string) and for `str(node.getValue())`
 * (used for ordering in the ordered search). A missing branch is `Nil`,
 * Python's `None`.
 */
module BinaryTree {
  import opened Wrappers
  import opened PyFormat

  datatype Tree =
    | Nil
    | Node(name: string, valueStr: string, left: Tree, right: Tree, isRoot: bool)

  /** Number of positions in the tree, counting each `Nil` as one. */
  function Size(t: Tree): (n: nat)
    ensures n >= 1
  {
    match t
    case Nil => 1
    case Node(_, _, l, r, _) => 1 + Size(l) + Size(r)
  }

  /** Total size of the trees waiting on a work list. */
  function ListSize(ts: seq<Tree>): nat
  {
    if ts == [] then 0 else Size(ts[0]) + ListSize(ts[1..])
  }

  lemma {:induction false} ListSizeAppend(a: seq<Tree>, b: seq<Tree>)
    ensures ListSize(a + b) == ListSize(a) + ListSize(b)
  {
    if a == [] {
      assert a + b == b;
    } else {
      assert (a + b)[1..] == a[1..] + b;
      ListSizeAppend(a[1..], b);
    }
  }

  /** `[t]` when `t` is a node, `[]` when it is `None`: a branch worth pushing. */
  function Present(t: Tree): (r: seq<Tree>)
    ensures ListSize(r) <= Size(t)
  {
    if t.Node? then [t] else []
  }

  /** The existing branches of a node, left before right. */
  function Kids(t: Tree): (r: seq<Tree>)
    ensures t.Node? ==> ListSize(r) < Size(t)
  {
    match t
    case Nil => []
    case Node(_, _, l, r, _) =>
      ListSizeAppend(Present(l), Present(r));
      Present(l) + Present(r)
  }

  /** The next level down: the existing branches of every node on the list, in order. */
  function Children(ts: seq<Tree>): (r: seq<Tree>)
    ensures ListSize(r) + |ts| <= ListSize(ts)
  {
    if ts == [] then []
    else
      ListSizeAppend(Kids(ts[0]), Children(ts[1..]));
      Kids(ts[0]) + Children(ts[1..])
  }

  /** The nodes of a list, with the `None` entries dropped. */
  function Roots(ts: seq<Tree>): seq<Tree>
  {
    if ts == [] then [] else Present(ts[0]) + Roots(ts[1..])
  }

  /** Pre-order: a node, then its whole left subtree, then its whole right subtree. */
  function PreOrder(t: Tree): seq<Tree>
  {
    match t
    case Nil => []
    case Node(_, _, l, r, _) => [t] + PreOrder(l) + PreOrder(r)
  }

  function PreOrders(ts: seq<Tree>): seq<Tree>
  {
    if ts == [] then [] else PreOrder(ts[0]) + PreOrders(ts[1..])
  }

  lemma {:induction false} PreOrdersAppend(a: seq<Tree>, b: seq<Tree>)
    ensures PreOrders(a + b) == PreOrders(a) + PreOrders(b)
  {
    if a == [] {
      assert a + b == b;
    } else {
      assert (a + b)[1..] == a[1..] + b;
      PreOrdersAppend(a[1..], b);
    }
  }

  /**
   * Level order of a forest: the nodes of the list itself, left to right,
   * then level order of the next level down.
   */
  function Levels(ts: seq<Tree>): seq<Tree>
    decreases ListSize(ts)
  {
    if ts == [] then [] else Roots(ts) + Levels(Children(ts))
  }

  /** The `str(value)` of every node in the tree. */
  function Values(t: Tree): set<string>
  {
    match t
    case Nil => {}
    case Node(_, v, l, r, _) => {v} + Values(l) + Values(r)
  }

  /** Number of nodes on the longest root-to-leaf path. */
  function Height(t: Tree): nat
  {
    match t
    case Nil => 0
    case Node(_, _, l, r, _) => 1 + (if Height(l) >= Height(r) then Height(l) else Height(r))
  }

  /**
   * A binary search tree under Python's string order, whose nodes print
   * as their values (`str(node) == str(node.getValue())`).
   */
  predicate IsSearchTree(t: Tree)
  {
    match t
    case Nil => true
    case Node(name, v, l, r, _) =>
      && name == v
      && (forall x :: x in Values(l) ==> StrLess(x, v))
      && (forall x :: x in Values(r) ==> StrLess(v, x))
      && IsSearchTree(l)
      && IsSearchTree(r)
  }

  /**
   * The single descending path a binary-search lookup for `find` takes:
   * go right when `find` is above the node's value, left when below.
   */
  function SearchPath(t: Tree, find: string): (p: seq<Tree>)
    ensures forall x :: x in p ==> x.Node?
  {
    match t
    case Nil => []
    case Node(_, v, l, r, _) =>
      [t] + (if StrLess(find, v) then SearchPath(l, find)
             else if StrLess(v, find) then SearchPath(r, find)
             else [])
  }

  /** The search path never has more nodes than the tree is high. */
  lemma {:induction false} SearchPathWithinHeight(t: Tree, find: string)
    ensures |SearchPath(t, find)| <= Height(t)
  {
    if t.Node? {
      SearchPathWithinHeight(t.left, find);
      SearchPathWithinHeight(t.right, find);
    }
  }

  /** Whether `t` is a node printing as the searched string: the test `find == str(node)`. */
  predicate Matches(t: Tree, find: Option<string>)
  {
    t.Node? && find == Some(t.name)
  }

  /** Whether a node printing as `find` lies on the list. */
  predicate Shows(p: seq<Tree>, find: string)
  {
    exists i :: 0 <= i < |p| && Matches(p[i], Some(find))
  }

  /**
   * In a search tree, the path for `find` passes a node printing as
   * `find` exactly when `find` is one of the tree's values.
   */
  lemma {:induction false} SearchPathFindsValue(t: Tree, find: string)
    requires IsSearchTree(t)
    ensures Shows(SearchPath(t, find), find) <==> find in Values(t)
  {
    if t.Node? {
      var p := SearchPath(t, find);
      var v := t.valueStr;
      StrLessAsymmetric(find, v);
      var sub := if StrLess(find, v) then t.left else if StrLess(v, find) then t.right else Nil;
      var q := SearchPath(sub, find);
      assert p == [t] + q;
      if sub != Nil {
        SearchPathFindsValue(sub, find);
      }
      if find in Values(t) {
        if find == v {
          assert p[0].name == find;
        } else {
          StrLessTotal(find, v);
          assert find in Values(sub);
          var j :| 0 <= j < |q| && q[j].Node? && q[j].name == find;
          assert p[j + 1] == q[j];
        }
      }
      if Shows(p, find) {
        var i :| 0 <= i < |p| && p[i].Node? && p[i].name == find;
        if i > 0 {
          assert q[i - 1] == p[i];
          assert Shows(q, find);
        }
      }
    }
  }
}
