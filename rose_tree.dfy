/** Rose trees: a value together with the ordered list of its candidate
    simplifications ("shrinks"), each itself a rose tree.

    The trees here are the *realised* form of gentest's lazy rose trees:
    `children` is the list that the node's children thunk yields when it is
    forced. The one-shot memo cell itself is modelled by `Thunks.Thunk`, and
    `LazyTrees.LazyTree` puts the two together. */
module RoseTrees {

  datatype RoseTree<T> = Node(root: T, children: seq<RoseTree<T>>)

  /** A tree built without a children function: the constructor falls back to
      a thunk that yields the empty list. */
  function Leaf<T>(x: T): (t: RoseTree<T>)
    ensures t.root == x && t.children == []
  {
    Node(x, [])
  }

  /** Number of nodes. */
  function Size<T>(t: RoseTree<T>): (n: nat)
    ensures n >= 1
    decreases t
  {
    1 + SizeOfAll(t.children)
  }

  /** Total number of nodes in a list of trees. */
  function SizeOfAll<T>(ts: seq<RoseTree<T>>): nat
    decreases ts
  {
    if ts == [] then 0 else Size(ts[0]) + SizeOfAll(ts[1..])
  }

  lemma {:induction false} SizeOfAllAppend<T>(a: seq<RoseTree<T>>, b: seq<RoseTree<T>>)
    ensures SizeOfAll(a + b) == SizeOfAll(a) + SizeOfAll(b)
    decreases a
  {
    if a == [] {
      assert a + b == b;
    } else {
      assert (a + b)[1..] == a[1..] + b;
      SizeOfAllAppend(a[1..], b);
    }
  }

  /** Every tree of the list is smaller than the whole list. */
  lemma {:induction false} SizeOfAllElement<T>(ts: seq<RoseTree<T>>, i: nat)
    requires i < |ts|
    ensures Size(ts[i]) <= SizeOfAll(ts)
    decreases ts
  {
    if i > 0 {
      SizeOfAllElement(ts[1..], i - 1);
    }
  }

  /** A child is strictly smaller than its parent. */
  lemma ChildSmaller<T>(t: RoseTree<T>, i: nat)
    requires i < |t.children|
    ensures Size(t.children[i]) < Size(t)
  {
    SizeOfAllElement(t.children, i);
  }

  /** Every node of `t`, the root included, satisfies `p`. */
  ghost predicate AllNodes<T>(t: RoseTree<T>, p: T -> bool)
    decreases t
  {
    p(t.root) && forall i :: 0 <= i < |t.children| ==> AllNodes(t.children[i], p)
  }

  /** Every node strictly below the root satisfies `p`. */
  ghost predicate AllBelow<T>(t: RoseTree<T>, p: T -> bool)
  {
    forall i :: 0 <= i < |t.children| ==> AllNodes(t.children[i], p)
  }

  /** `AllNodes` is monotone in the predicate. */
  lemma {:induction false} AllNodesWeaken<T>(t: RoseTree<T>, p: T -> bool, q: T -> bool)
    requires AllNodes(t, p)
    requires forall x :: p(x) ==> q(x)
    ensures AllNodes(t, q)
    decreases t
  {
    forall i | 0 <= i < |t.children|
      ensures AllNodes(t.children[i], q)
    {
      AllNodesWeaken(t.children[i], p, q);
    }
  }

  // ---------------------------------------------------------------------------
  // fmap

  /** Apply `f` to every value of the tree, keeping its shape. */
  function Map<T, U>(t: RoseTree<T>, f: T -> U): (r: RoseTree<U>)
    decreases t
  {
    Node(f(t.root), seq(|t.children|, i requires 0 <= i < |t.children| => Map(t.children[i], f)))
  }

  /** The root of `map(f)` is `f(root)`; its children are, one for one and in
      order, `map(f)` of the original children. */
  lemma MapShape<T, U>(t: RoseTree<T>, f: T -> U)
    ensures Map(t, f).root == f(t.root)
    ensures |Map(t, f).children| == |t.children|
    ensures forall i :: 0 <= i < |t.children| ==> Map(t, f).children[i] == Map(t.children[i], f)
  {
  }

  /** `map` keeps the number of nodes. */
  lemma {:induction false} MapSize<T, U>(t: RoseTree<T>, f: T -> U)
    ensures Size(Map(t, f)) == Size(t)
    decreases t
  {
    MapSizeOfAll(t.children, Map(t, f).children, f);
  }

  lemma {:induction false} MapSizeOfAll<T, U>(ts: seq<RoseTree<T>>, ms: seq<RoseTree<U>>, f: T -> U)
    requires |ms| == |ts| && forall i :: 0 <= i < |ts| ==> ms[i] == Map(ts[i], f)
    ensures SizeOfAll(ms) == SizeOfAll(ts)
    decreases ts
  {
    if ts != [] {
      MapSize(ts[0], f);
      MapSizeOfAll(ts[1..], ms[1..], f);
    }
  }

  /** Functor identity law. */
  lemma {:induction false} MapIdentity<T>(t: RoseTree<T>)
    ensures Map(t, x => x) == t
    decreases t
  {
    forall i | 0 <= i < |t.children|
      ensures Map(t.children[i], x => x) == t.children[i]
    {
      MapIdentity(t.children[i]);
    }
  }

  /** Functor composition law. */
  lemma {:induction false} MapCompose<T, U, V>(t: RoseTree<T>, f: T -> U, g: U -> V)
    ensures Map(Map(t, f), g) == Map(t, x => g(f(x)))
    decreases t
  {
    forall i | 0 <= i < |t.children|
      ensures Map(Map(t.children[i], f), g) == Map(t.children[i], x => g(f(x)))
    {
      MapCompose(t.children[i], f, g);
    }
  }

  /** If `f` sends every value to a value satisfying `p`, every node of
      `map(f)` satisfies `p`. */
  lemma {:induction false} MapAllNodes<T, U>(t: RoseTree<T>, f: T -> U, p: U -> bool)
    requires forall x :: p(f(x))
    ensures AllNodes(Map(t, f), p)
    decreases t
  {
    forall i | 0 <= i < |t.children|
      ensures AllNodes(Map(t.children[i], f), p)
    {
      MapAllNodes(t.children[i], f, p);
    }
  }

  /** If every node of `t` satisfies `q` and `f` carries `q` to `p`, every node
      of `map(f)` satisfies `p`. */
  lemma {:induction false} MapPreserves<T, U>(t: RoseTree<T>, f: T -> U, q: T -> bool, p: U -> bool)
    requires AllNodes(t, q)
    requires forall x :: q(x) ==> p(f(x))
    ensures AllNodes(Map(t, f), p)
    decreases t
  {
    forall i | 0 <= i < |t.children|
      ensures AllNodes(Map(t.children[i], f), p)
    {
      MapPreserves(t.children[i], f, q, p);
    }
  }

  // ---------------------------------------------------------------------------
  // flatten / flatmap

  /** Monadic join. The children of the result are the flattened outer
      children first, then the inner tree's own children. (The source's
      dynamic check that the root is a tree is a static type here.) */
  function Flatten<T>(t: RoseTree<RoseTree<T>>): (r: RoseTree<T>)
    decreases t
  {
    Node(t.root.root,
         seq(|t.children|, i requires 0 <= i < |t.children| => Flatten(t.children[i]))
         + t.root.children)
  }

  /** The test "`p` holds at every node". */
  ghost function Everywhere<T>(p: T -> bool): RoseTree<T> -> bool
  {
    t => AllNodes(t, p)
  }

  /** If every inner tree satisfies `p` at every node, so does the join. */
  lemma {:induction false} FlattenAllNodes<T>(t: RoseTree<RoseTree<T>>, p: T -> bool)
    requires AllNodes(t, Everywhere(p))
    ensures AllNodes(Flatten(t), p)
    decreases t
  {
    var r := Flatten(t);
    forall i | 0 <= i < |r.children|
      ensures AllNodes(r.children[i], p)
    {
      if i < |t.children| {
        FlattenAllNodes(t.children[i], p);
      } else {
        assert r.children[i] == t.root.children[i - |t.children|];
      }
    }
  }

  /** Monadic bind: `flatten(map(f))`. */
  function FlatMap<T, U>(t: RoseTree<T>, f: T -> RoseTree<U>): RoseTree<U>
  {
    Flatten(Map(t, f))
  }

  /** `flatmap(f)` has root `f(root).root`; its children are `flatmap(f)` of
      each outer child, in order, followed by `f(root)`'s own children. */
  lemma FlatMapShape<T, U>(t: RoseTree<T>, f: T -> RoseTree<U>)
    ensures FlatMap(t, f).root == f(t.root).root
    ensures |FlatMap(t, f).children| == |t.children| + |f(t.root).children|
    ensures forall i :: 0 <= i < |t.children| ==> FlatMap(t, f).children[i] == FlatMap(t.children[i], f)
    ensures FlatMap(t, f).children[|t.children|..] == f(t.root).children
  {
    var m := Map(t, f);
    assert |m.children| == |t.children|;
    forall i | 0 <= i < |t.children|
      ensures FlatMap(t, f).children[i] == FlatMap(t.children[i], f)
    {
      assert m.children[i] == Map(t.children[i], f);
    }
  }

  /** Left identity: binding a leaf is applying the function. */
  lemma FlatMapLeaf<T, U>(x: T, f: T -> RoseTree<U>)
    ensures FlatMap(Leaf(x), f) == f(x)
  {
    FlatMapShape(Leaf(x), f);
  }

  /** Right identity: binding with `Leaf` gives back the tree. */
  lemma {:induction false} FlatMapUnit<T>(t: RoseTree<T>)
    ensures FlatMap(t, Leaf) == t
    decreases t
  {
    FlatMapShape(t, Leaf);
    var r := FlatMap(t, Leaf);
    forall i | 0 <= i < |t.children|
      ensures r.children[i] == t.children[i]
    {
      FlatMapUnit(t.children[i]);
    }
    assert r.children == t.children;
  }

  /** Associativity of bind. */
  lemma {:induction false} FlatMapAssoc<T, U, V>(t: RoseTree<T>, f: T -> RoseTree<U>, g: U -> RoseTree<V>)
    ensures FlatMap(FlatMap(t, f), g) == FlatMap(t, x => FlatMap(f(x), g))
    decreases t
  {
    var h := x => FlatMap(f(x), g);
    var s := FlatMap(t, f);
    var lhs := FlatMap(s, g);
    var rhs := FlatMap(t, h);
    FlatMapShape(t, f);
    FlatMapShape(s, g);
    FlatMapShape(t, h);
    FlatMapShape(f(t.root), g);
    var n := |t.children|;
    var k := |f(t.root).children|;
    assert |lhs.children| == |rhs.children|;
    forall i | 0 <= i < |lhs.children|
      ensures lhs.children[i] == rhs.children[i]
    {
      if i < n {
        FlatMapAssoc(t.children[i], f, g);
      } else if i < n + k {
        assert lhs.children[i] == FlatMap(s.children[i], g);
        assert s.children[i] == f(t.root).children[i - n];
        assert rhs.children[i] == h(t.root).children[i - n];
      } else {
        assert lhs.children[i] == g(f(t.root).root).children[i - n - k];
        assert rhs.children[i] == h(t.root).children[i - n];
      }
    }
  }

  /** If every node of `f(x)` satisfies `p` for every `x`, so does every node
      of `flatmap(f)`. */
  lemma {:induction false} FlatMapAllNodes<T, U>(t: RoseTree<T>, f: T -> RoseTree<U>, p: U -> bool)
    requires forall x :: AllNodes(f(x), p)
    ensures AllNodes(FlatMap(t, f), p)
    decreases t
  {
    FlatMapShape(t, f);
    var r := FlatMap(t, f);
    forall i | 0 <= i < |r.children|
      ensures AllNodes(r.children[i], p)
    {
      if i < |t.children| {
        FlatMapAllNodes(t.children[i], f, p);
      } else {
        assert r.children[i] == f(t.root).children[i - |t.children|];
      }
    }
  }

  // ---------------------------------------------------------------------------
  // filterSubtrees

  /** Keep the root; keep, in order, only the children whose root satisfies
      `p`, each filtered in turn. The root itself is not checked. */
  function FilterSubtrees<T>(t: RoseTree<T>, p: T -> bool): (r: RoseTree<T>)
    decreases t
  {
    Node(t.root, FilterChildren(t.children, p))
  }

  function FilterChildren<T>(ts: seq<RoseTree<T>>, p: T -> bool): (r: seq<RoseTree<T>>)
    decreases ts
  {
    if ts == [] then []
    else (if p(ts[0].root) then [FilterSubtrees(ts[0], p)] else []) + FilterChildren(ts[1..], p)
  }

  /** Keep, in order, the elements of `s` that satisfy `p`. */
  function Keep<T>(s: seq<T>, p: T -> bool): seq<T>
  {
    if s == [] then [] else (if p(s[0]) then [s[0]] else []) + Keep(s[1..], p)
  }

  /** The filtered children are `filterSubtrees(p)` of the order-preserving
      sublist of the original children whose roots satisfy `p`. */
  lemma {:induction false} FilterChildrenIsKeep<T>(ts: seq<RoseTree<T>>, p: T -> bool)
    ensures var kept := Keep(ts, (c: RoseTree<T>) => p(c.root));
      FilterChildren(ts, p) == seq(|kept|, i requires 0 <= i < |kept| => FilterSubtrees(kept[i], p))
    decreases ts
  {
    if ts != [] {
      var q := (c: RoseTree<T>) => p(c.root);
      var rest := Keep(ts[1..], q);
      FilterChildrenIsKeep(ts[1..], p);
      assert FilterChildren(ts[1..], p) == seq(|rest|, i requires 0 <= i < |rest| => FilterSubtrees(rest[i], p));
      if p(ts[0].root) {
        assert Keep(ts, q) == [ts[0]] + rest;
        assert FilterChildren(ts, p) == [FilterSubtrees(ts[0], p)] + FilterChildren(ts[1..], p);
      } else {
        assert Keep(ts, q) == rest;
        assert FilterChildren(ts, p) == FilterChildren(ts[1..], p);
      }
    }
  }

  /** Filtering only drops subtrees: whatever held at every node still does. */
  lemma {:induction false} FilterSubtreesKeeps<T>(t: RoseTree<T>, p: T -> bool, q: T -> bool)
    requires AllNodes(t, q)
    ensures AllNodes(FilterSubtrees(t, p), q)
    decreases t
  {
    FilterChildrenKeeps(t.children, p, q);
  }

  lemma {:induction false} FilterChildrenKeeps<T>(ts: seq<RoseTree<T>>, p: T -> bool, q: T -> bool)
    requires forall i :: 0 <= i < |ts| ==> AllNodes(ts[i], q)
    ensures forall i :: 0 <= i < |FilterChildren(ts, p)| ==> AllNodes(FilterChildren(ts, p)[i], q)
    decreases ts
  {
    if ts != [] {
      var rest := FilterChildren(ts[1..], p);
      FilterChildrenKeeps(ts[1..], p, q);
      if p(ts[0].root) {
        FilterSubtreesKeeps(ts[0], p, q);
        assert FilterChildren(ts, p) == [FilterSubtrees(ts[0], p)] + rest;
      } else {
        assert FilterChildren(ts, p) == rest;
      }
    }
  }

  /** Every node of the filtered children satisfies `p`. */
  lemma {:induction false} FilterChildrenAllNodes<T>(ts: seq<RoseTree<T>>, p: T -> bool)
    ensures forall i :: 0 <= i < |FilterChildren(ts, p)| ==> AllNodes(FilterChildren(ts, p)[i], p)
    decreases ts
  {
    if ts != [] {
      var rest := FilterChildren(ts[1..], p);
      FilterChildrenAllNodes(ts[1..], p);
      if p(ts[0].root) {
        var head := FilterSubtrees(ts[0], p);
        FilterChildrenAllNodes(ts[0].children, p);
        assert head.children == FilterChildren(ts[0].children, p);
        assert AllNodes(head, p);
        assert FilterChildren(ts, p) == [head] + rest;
      } else {
        assert FilterChildren(ts, p) == rest;
      }
    }
  }

  /** `filterSubtrees(p)` keeps the root, whether or not it satisfies `p`, and
      every node below the root satisfies `p`. */
  lemma FilterSubtreesBelow<T>(t: RoseTree<T>, p: T -> bool)
    ensures FilterSubtrees(t, p).root == t.root
    ensures AllBelow(FilterSubtrees(t, p), p)
  {
    FilterChildrenAllNodes(t.children, p);
  }

  /** Filtering a second time with the same predicate changes nothing. */
  lemma {:induction false} FilterSubtreesIdempotent<T>(t: RoseTree<T>, p: T -> bool)
    ensures FilterSubtrees(FilterSubtrees(t, p), p) == FilterSubtrees(t, p)
    decreases t
  {
    FilterChildrenIdempotent(t.children, p);
  }

  lemma {:induction false} FilterChildrenIdempotent<T>(ts: seq<RoseTree<T>>, p: T -> bool)
    ensures FilterChildren(FilterChildren(ts, p), p) == FilterChildren(ts, p)
    decreases ts
  {
    if ts != [] {
      var rest := FilterChildren(ts[1..], p);
      FilterChildrenIdempotent(ts[1..], p);
      if p(ts[0].root) {
        var head := FilterSubtrees(ts[0], p);
        FilterSubtreesIdempotent(ts[0], p);
        assert FilterChildren(ts, p) == [head] + rest;
        assert ([head] + rest)[0] == head && ([head] + rest)[1..] == rest;
        assert FilterChildren([head] + rest, p) == [FilterSubtrees(head, p)] + FilterChildren(rest, p);
      } else {
        assert FilterChildren(ts, p) == rest;
      }
    }
  }

  /** A tree whose nodes all satisfy `p` is left unchanged. */
  lemma {:induction false} FilterSubtreesNoop<T>(t: RoseTree<T>, p: T -> bool)
    requires AllBelow(t, p)
    ensures FilterSubtrees(t, p) == t
    decreases t
  {
    FilterChildrenNoop(t.children, p);
  }

  lemma {:induction false} FilterChildrenNoop<T>(ts: seq<RoseTree<T>>, p: T -> bool)
    requires forall i :: 0 <= i < |ts| ==> AllNodes(ts[i], p)
    ensures FilterChildren(ts, p) == ts
    decreases ts
  {
    if ts != [] {
      FilterSubtreesNoop(ts[0], p);
      FilterChildrenNoop(ts[1..], p);
      assert ts == [ts[0]] + ts[1..];
    }
  }
}
