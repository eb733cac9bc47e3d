/** The heap object behind a gentest rose tree (lib/RoseTree.js): a root
    value and a memo cell for the list of children. Forcing the cell yields
    the realised children that `RoseTrees.RoseTree` describes. */
module LazyTrees {
  import opened Wrappers
  import opened RoseTrees
  import opened Thunks

  class LazyTree<T> {
    const root: T
    /** `_children`: the thunk of the children function, or one that yields
        the empty list when no children function was given. */
    const kids: Thunk<seq<RoseTree<T>>>

    ghost predicate Valid()
      reads this, kids
    {
      kids.Valid()
    }

    /** The tree this object stands for once its children are forced. */
    ghost function Realised(): RoseTree<T>
      reads this, kids
    {
      Node(root, kids.fn())
    }

    /** `new RoseTree(root, childrenFunc)`: nothing is evaluated yet; without
        a children function the node has no children. */
    constructor (root: T, childrenFunc: Option<() -> seq<RoseTree<T>>>)
      ensures Valid() && fresh(kids)
      ensures this.root == root && !kids.realized
      ensures childrenFunc.None? ==> Realised() == Leaf(root)
      ensures childrenFunc.Some? ==> Realised() == Node(root, childrenFunc.value())
    {
      this.root := root;
      var empty: () -> seq<RoseTree<T>> := () => [];
      var th := new Thunk(if childrenFunc.Some? then childrenFunc.value else empty);
      this.kids := th;
    }

    /** `children()`: forces the thunk; the children function runs on the
        first call only and every call yields the same list. */
    method Children() returns (cs: seq<RoseTree<T>>)
      requires Valid()
      modifies kids
      ensures Valid()
      ensures cs == Realised().children
      ensures kids.realized && kids.calls == 1
      ensures old(kids.realized) ==> unchanged(kids)
    {
      cs := kids.Get();
    }
  }
}
