/**
 * The work-list discipline of `searchTree` and its four helper functions.
 * `searchTree` always pops the front of its list; the helpers differ only
 * in which branches of the popped node they put back and at which end.
 * `Expand` is what a helper leaves on the list, `Order` the sequence of
 * nodes popped until the list runs dry.
 */
module Traversal {
  import opened Wrappers
  import opened PyFormat
  import opened BinaryTree
  import opened Sequences

  /** The helper function handed to `searchTree` as `searchMethod`. */
  datatype Algorithm = DepthFirst | OrderedDepthFirst | BreadthFirst | Sketch

  /**
   * `DFSOrdered` compares `find` with node values, which is only defined
   * when a string is searched for.
   */
  predicate Admissible(alg: Algorithm, find: Option<string>)
  {
    alg.OrderedDepthFirst? ==> find.Some?
  }

  /**
   * The work list after the helper for `alg` has handled `node`, when
   * `rest` is what was left after popping it.
   *  - `DFS` inserts the right branch at index 0, then the left one.
   *  - `DFSOrdered` does the same, but only for the side `find` points to.
   *  - `BFS` and `sketchTree` append the left branch, then the right one.
   */
  function Expand(alg: Algorithm, node: Tree, find: Option<string>, rest: seq<Tree>): (r: seq<Tree>)
    requires node.Node? && Admissible(alg, find)
    ensures ListSize(r) < ListSize(rest) + Size(node)
  {
    if alg.DepthFirst? then
      ListSizeAppend(Kids(node), rest);
      Kids(node) + rest
    else if alg.OrderedDepthFirst? then
      var toLeft := if StrLess(find.value, node.valueStr) then Present(node.left) else [];
      var toRight := if StrLess(node.valueStr, find.value) then Present(node.right) else [];
      ListSizeAppend(toLeft, toRight);
      ListSizeAppend(toLeft + toRight, rest);
      toLeft + toRight + rest
    else
      ListSizeAppend(rest, Kids(node));
      rest + Kids(node)
  }

  /**
   * The nodes `searchTree`'s loop pops from `list`, in order, skipping
   * `None` entries, if it never stops early.
   */
  function Order(alg: Algorithm, find: Option<string>, list: seq<Tree>): (o: seq<Tree>)
    requires Admissible(alg, find)
    decreases ListSize(list)
  {
    if list == [] then []
    else if list[0].Nil? then Order(alg, find, list[1..])
    else [list[0]] + Order(alg, find, Expand(alg, list[0], find, list[1..]))
  }

  /** A node at the front of the work list is popped first. */
  lemma OrderHead(alg: Algorithm, find: Option<string>, list: seq<Tree>)
    requires Admissible(alg, find) && list != [] && list[0].Node?
    ensures Order(alg, find, list) != [] && Order(alg, find, list)[0] == list[0]
  {
  }

  /**
   * Index of the first popped node that matches `find` (`find == str(node)`),
   * or the length of the order when none does.
   */
  function FirstMatch(o: seq<Tree>, find: Option<string>): (k: nat)
    ensures k <= |o|
    ensures forall i :: 0 <= i < k ==> !Matches(o[i], find)
    ensures k < |o| ==> Matches(o[k], find)
  {
    if o == [] then 0
    else if Matches(o[0], find) then 0
    else 1 + FirstMatch(o[1..], find)
  }

  /** `DFS`: with insertion at the front, the list is a stack and the visits are pre-order. */
  lemma {:induction false} DepthFirstIsPreOrder(find: Option<string>, list: seq<Tree>)
    ensures Order(DepthFirst, find, list) == PreOrders(list)
    decreases ListSize(list)
  {
    if list != [] {
      var x, rest := list[0], list[1..];
      if x.Nil? {
        DepthFirstIsPreOrder(find, rest);
      } else {
        var next := Expand(DepthFirst, x, find, rest);
        var L, R, P := PreOrder(x.left), PreOrder(x.right), PreOrders(rest);
        assert Order(DepthFirst, find, next) == (L + R) + P by {
          DepthFirstIsPreOrder(find, next);
          PreOrdersAppend(Kids(x), rest);
          KidsPreOrder(x);
        }
        assert Order(DepthFirst, find, list) == [x] + Order(DepthFirst, find, next);
        assert PreOrders(list) == [x] + L + R + P by {
          assert PreOrder(x) == [x] + L + R;
        }
        ConcatAssoc([x], L, R);
        ConcatAssoc([x], L + R, P);
      }
    }
  }

  lemma KidsPreOrder(t: Tree)
    requires t.Node?
    ensures PreOrders(Kids(t)) == PreOrder(t.left) + PreOrder(t.right)
  {
    PreOrdersAppend(Present(t.left), Present(t.right));
    PresentPreOrder(t.left);
    PresentPreOrder(t.right);
  }

  lemma PresentPreOrder(t: Tree)
    ensures PreOrders(Present(t)) == PreOrder(t)
  {
    if t.Node? {
      assert Present(t)[1..] == [];
    }
  }

  /**
   * `BFS` and `sketchTree`: with appending at the back, the whole of a
   * list prefix is popped before anything its nodes put back.
   */
  lemma {:induction false} BreadthFirstShift(alg: Algorithm, find: Option<string>, xs: seq<Tree>, ys: seq<Tree>)
    requires alg.BreadthFirst? || alg.Sketch?
    ensures Order(alg, find, xs + ys) == Roots(xs) + Order(alg, find, ys + Children(xs))
    decreases |xs|
  {
    if xs == [] {
      assert xs + ys == ys && ys + Children(xs) == ys;
    } else if xs[0].Nil? {
      BreadthFirstShift(alg, find, xs[1..], ys);
      BreadthFirstNilStep(alg, find, xs, ys);
    } else {
      BreadthFirstShift(alg, find, xs[1..], ys + Kids(xs[0]));
      BreadthFirstNodeStep(alg, find, xs, ys);
    }
  }

  /** The step of `BreadthFirstShift` for a list starting with `None`, which is popped and skipped. */
  lemma BreadthFirstNilStep(alg: Algorithm, find: Option<string>, xs: seq<Tree>, ys: seq<Tree>)
    requires alg.BreadthFirst? || alg.Sketch?
    requires xs != [] && xs[0].Nil?
    requires Order(alg, find, xs[1..] + ys) == Roots(xs[1..]) + Order(alg, find, ys + Children(xs[1..]))
    ensures Order(alg, find, xs + ys) == Roots(xs) + Order(alg, find, ys + Children(xs))
  {
    ConcatFront(xs, ys);
    OrderSkipsNil(alg, find, xs + ys, xs[1..] + ys);
    NilAddsNothing(xs);
  }

  /** `searchTree` pops a `None` entry and does nothing else with it. */
  lemma OrderSkipsNil(alg: Algorithm, find: Option<string>, list: seq<Tree>, rest: seq<Tree>)
    requires Admissible(alg, find)
    requires list != [] && list[0].Nil? && list[1..] == rest
    ensures Order(alg, find, list) == Order(alg, find, rest)
  {
  }

  /** A `None` entry contributes no node and no branch to a level. */
  lemma NilAddsNothing(xs: seq<Tree>)
    requires xs != [] && xs[0].Nil?
    ensures Roots(xs) == Roots(xs[1..]) && Children(xs) == Children(xs[1..])
  {
    assert Present(xs[0]) == [] && Kids(xs[0]) == [];
  }

  /** The step of `BreadthFirstShift` for a list starting with a node. */
  lemma BreadthFirstNodeStep(alg: Algorithm, find: Option<string>, xs: seq<Tree>, ys: seq<Tree>)
    requires alg.BreadthFirst? || alg.Sketch?
    requires xs != [] && xs[0].Node?
    requires Order(alg, find, xs[1..] + (ys + Kids(xs[0])))
          == Roots(xs[1..]) + Order(alg, find, (ys + Kids(xs[0])) + Children(xs[1..]))
    ensures Order(alg, find, xs + ys) == Roots(xs) + Order(alg, find, ys + Children(xs))
  {
    var x, rest := xs[0], xs[1..];
    BreadthFirstPop(alg, find, xs, ys);
    ChildrenBehind(xs, ys);
    ConcatChain(Order(alg, find, xs + ys), Order(alg, find, rest + (ys + Kids(x))), Roots(xs),
      [x], Roots(rest), Order(alg, find, ys + Children(xs)));
  }

  lemma ChildrenBehind(xs: seq<Tree>, ys: seq<Tree>)
    requires xs != []
    ensures (ys + Kids(xs[0])) + Children(xs[1..]) == ys + Children(xs)
  {
    assert Children(xs) == Kids(xs[0]) + Children(xs[1..]);
    ConcatAssoc(ys, Kids(xs[0]), Children(xs[1..]));
  }

  /** Popping the node in front of `xs + ys` appends its branches behind `ys`. */
  lemma BreadthFirstPop(alg: Algorithm, find: Option<string>, xs: seq<Tree>, ys: seq<Tree>)
    requires alg.BreadthFirst? || alg.Sketch?
    requires xs != [] && xs[0].Node?
    ensures Order(alg, find, xs + ys) == [xs[0]] + Order(alg, find, xs[1..] + (ys + Kids(xs[0])))
  {
    ConcatFront(xs, ys);
    assert Expand(alg, xs[0], find, (xs + ys)[1..]) == xs[1..] + (ys + Kids(xs[0]));
  }

  /** `BFS`: with appending at the back, the list is a queue and the visits are level order. */
  lemma {:induction false} BreadthFirstIsLevelOrder(alg: Algorithm, find: Option<string>, list: seq<Tree>)
    requires alg.BreadthFirst? || alg.Sketch?
    ensures Order(alg, find, list) == Levels(list)
    decreases ListSize(list)
  {
    if list != [] {
      BreadthFirstShift(alg, find, list, []);
      assert list + [] == list && [] + Children(list) == Children(list);
      BreadthFirstIsLevelOrder(alg, find, Children(list));
    }
  }

  /** `DFSOrdered` puts back at most one branch: its work list never holds more than one node. */
  lemma OrderedPushesAtMostOne(node: Tree, find: string)
    requires node.Node?
    ensures |Expand(OrderedDepthFirst, node, Some(find), [])| <= 1
  {
    StrLessAsymmetric(find, node.valueStr);
  }

  /** `DFSOrdered` from a root follows the binary-search path for `find`. */
  lemma {:induction false} OrderedFollowsSearchPath(t: Tree, find: string)
    ensures Order(OrderedDepthFirst, Some(find), [t]) == SearchPath(t, find)
  {
    if t.Node? {
      var next := Expand(OrderedDepthFirst, t, Some(find), []);
      StrLessAsymmetric(find, t.valueStr);
      if StrLess(find, t.valueStr) {
        OrderedFollowsSearchPath(t.left, find);
        if t.left.Nil? {
          assert Order(OrderedDepthFirst, Some(find), [Nil]) == [];
        }
      } else if StrLess(t.valueStr, find) {
        OrderedFollowsSearchPath(t.right, find);
        if t.right.Nil? {
          assert Order(OrderedDepthFirst, Some(find), [Nil]) == [];
        }
      } else {
        assert next == [];
      }
    } else {
      assert [t][1..] == [];
    }
  }

  /**
   * On a binary search tree, `DFSOrdered` visits at most height-many nodes
   * and meets a node printing as `find` exactly when `find` is in the tree.
   */
  lemma OrderedSearchIsLookup(t: Tree, find: string)
    requires IsSearchTree(t)
    ensures |Order(OrderedDepthFirst, Some(find), [t])| <= Height(t)
    ensures Shows(Order(OrderedDepthFirst, Some(find), [t]), find) <==> find in Values(t)
  {
    OrderedFollowsSearchPath(t, find);
    SearchPathWithinHeight(t, find);
    SearchPathFindsValue(t, find);
  }

  /**
   * `DFSOrdered` compares `str(value)` as strings, so on a tree ordered by
   * integer value it can miss a value that is present: from root 2 with
   * right child 10, a search for "10" goes left, because "10" < "2".
   */
  lemma OrderedMissesIntegerOrder()
    ensures var t := Node("2", "2", Nil, Node("10", "10", Nil, Nil, false), true);
      && "10" in Values(t) && StrLess("10", "2")
      && Order(OrderedDepthFirst, Some("10"), [t]) == [t]
      && !Shows(Order(OrderedDepthFirst, Some("10"), [t]), "10")
  {
    var t := Node("2", "2", Nil, Node("10", "10", Nil, Nil, false), true);
    OrderedFollowsSearchPath(t, "10");
    assert StrLess("10", "2") by {
      assert "10"[0] == '1' && "2"[0] == '2';
    }
    assert SearchPath(t, "10") == [t] + SearchPath(Nil, "10");
  }
}
