/**
 * The Python list `searchTree` keeps in `self.treeList` and hands, by
 * reference, to the helper functions, which put branches back into it.
 */
module WorkLists {
  import opened BinaryTree

  class WorkList {
    var items: seq<Tree>

    constructor ()
      ensures items == []
    {
      items := [];
    }

    /** `pop(0)`. */
    method PopFront() returns (x: Tree)
      requires items != []
      modifies this
      ensures x == old(items)[0] && items == old(items)[1..]
    {
      x := items[0];
      items := items[1..];
    }

    /** `insert(0, x)`. */
    method InsertFront(x: Tree)
      modifies this
      ensures items == [x] + old(items)
    {
      items := [x] + items;
    }

    /** `append(x)`. */
    method Append(x: Tree)
      modifies this
      ensures items == old(items) + [x]
    {
      items := items + [x];
    }
  }
}
