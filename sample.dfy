/** `sample(gen, count, raw)` (lib/sample.js): draw a handful of values from
    a generator at slowly growing sizes. */
module Sampling {
  import opened Wrappers
  import opened RoseTrees
  import opened Errors
  import opened Types

  const DefaultCount := 10

  /** `new Array(n)` accepts exactly the lengths that are unsigned 32-bit
      integers. */
  const ArrayLengthBound := 0x1_0000_0000

  predicate ValidLength(n: int)
  {
    0 <= n < ArrayLengthBound
  }

  /** What `sample` returns: the whole trees with `raw`, otherwise their
      roots. */
  datatype Samples<T> = Trees(trees: seq<RoseTree<T>>) | Roots(roots: seq<T>)

  /** Entry `i` is drawn at size `floor(i / 2) + 1`. */
  function SizeAt(i: nat): (size: int)
    ensures size >= 1
  {
    i / 2 + 1
  }

  /** Sizes are positive, never decrease, and grow by one every two
      entries. */
  lemma SizesGrow(i: nat, j: nat)
    requires i <= j
    ensures 1 <= SizeAt(i) <= SizeAt(j)
    ensures SizeAt(i + 2) == SizeAt(i) + 1
  {
  }

  /** The trees of entries `i` to `count - 1`, drawn in order from one
      shared source; the first failure aborts. */
  function DrawFrom<T>(gen: Gen<T>, rng: Rng, i: nat, count: nat): (r: Result<seq<RoseTree<T>>, Exception>)
    requires i <= count
    ensures r.Ok? ==> |r.value| == count - i
    decreases count - i
  {
    if i == count then Ok([])
    else
      match gen(rng, SizeAt(i))
      case Err(e) => Err(e)
      case Ok(d) =>
        match DrawFrom(gen, d.rng, i + 1, count)
        case Err(e) => Err(e)
        case Ok(rest) => Ok([d.tree] + rest)
  }

  /** The trees drawn so far in front of what the rest of the loop draws;
      an error stays an error. */
  function Glue<T>(trees: seq<RoseTree<T>>, r: Result<seq<RoseTree<T>>, Exception>): Result<seq<RoseTree<T>>, Exception>
  {
    if r.Ok? then Ok(trees + r.value) else r
  }

  /** Before the loop nothing has been drawn. */
  lemma GlueNothing<T>(r: Result<seq<RoseTree<T>>, Exception>)
    ensures Glue([], r) == r
  {
    if r.Ok? {
      assert [] + r.value == r.value;
    }
  }

  /** One round of `sample`'s loop: drawing entry `i` moves its tree from
      the rest of the draw to the trees drawn so far. */
  lemma DrawFromStep<T>(gen: Gen<T>, rng: Rng, i: nat, count: nat, trees: seq<RoseTree<T>>)
    requires i < count
    ensures gen(rng, SizeAt(i)).Err? ==> Glue(trees, DrawFrom(gen, rng, i, count)) == Err(gen(rng, SizeAt(i)).error)
    ensures gen(rng, SizeAt(i)).Ok? ==>
              var d := gen(rng, SizeAt(i)).value;
              Glue(trees, DrawFrom(gen, rng, i, count)) == Glue(trees + [d.tree], DrawFrom(gen, d.rng, i + 1, count))
  {
    if gen(rng, SizeAt(i)).Ok? {
      var d := gen(rng, SizeAt(i)).value;
      var rest := DrawFrom(gen, d.rng, i + 1, count);
      if rest.Ok? {
        assert trees + ([d.tree] + rest.value) == (trees + [d.tree]) + rest.value;
      }
    }
  }

  /** If the generator at every size `s` guarantees `p(s)`, entry `i` keeps
      the guarantee of size `floor(i / 2) + 1`. */
  lemma {:induction false} DrawFromAlways<T>(gen: Gen<T>, rng: Rng, i: nat, count: nat, p: int -> T -> bool)
    requires i <= count
    requires forall size :: Always(gen, size, p(size))
    ensures DrawFrom(gen, rng, i, count).Ok? ==>
              forall k :: 0 <= k < count - i ==> AllNodes(DrawFrom(gen, rng, i, count).value[k], p(SizeAt(i + k)))
    decreases count - i
  {
    if i < count && gen(rng, SizeAt(i)).Ok? {
      var d := gen(rng, SizeAt(i)).value;
      assert Always(gen, SizeAt(i), p(SizeAt(i)));
      DrawFromAlways(gen, d.rng, i + 1, count, p);
    }
  }


  /** `sample(gen, count, raw)` with the random source already seeded. An
      omitted count is 10; a count that is not a valid array length
      (negative, or 2^32 or more) is refused. */
  method Sample<T>(gen: Gen<T>, count: Option<int>, raw: bool, rng: Rng) returns (r: Result<Samples<T>, Exception>)
    ensures !ValidLength(count.GetOr(DefaultCount)) ==> r == Err(OtherException("RangeError", "Invalid array length"))
    ensures ValidLength(count.GetOr(DefaultCount)) ==>
              var n := count.GetOr(DefaultCount);
              var drawn := DrawFrom(gen, rng, 0, n);
              && (drawn.Err? ==> r == Err(drawn.error))
              && (drawn.Ok? && raw ==> r == Ok(Trees(drawn.value)))
              && (drawn.Ok? && !raw ==>
                    && r.Ok? && r.value.Roots? && |r.value.roots| == n
                    && forall i :: 0 <= i < n ==> r.value.roots[i] == drawn.value[i].root)
  {
    var n := count.GetOr(DefaultCount);
    if !ValidLength(n) {
      return Err(OtherException("RangeError", "Invalid array length"));
    }
    var results := new Option<RoseTree<T>>[n](_ => None);
    var cur := rng;
    ghost var trees: seq<RoseTree<T>> := [];
    GlueNothing(DrawFrom(gen, rng, 0, n));
    for i := 0 to n
      invariant |trees| == i
      invariant forall k :: 0 <= k < i ==> results[k] == Some(trees[k])
      invariant DrawFrom(gen, rng, 0, n) == Glue(trees, DrawFrom(gen, cur, i, n))
    {
      var d := gen(cur, SizeAt(i));
      if d.Err? {
        return Err(d.error);
      }
      results[i] := Some(d.value.tree);
      DrawFromStep(gen, cur, i, n, trees);
      trees := trees + [d.value.tree];
      cur := d.value.rng;
    }
    assert trees == DrawFrom(gen, rng, 0, n).value;
    var all := seq(n, k requires 0 <= k < n && results[k].Some? reads results => results[k].value);
    assert all == trees;
    if raw {
      r := Ok(Trees(all));
    } else {
      r := Ok(Roots(seq(n, k requires 0 <= k < n => all[k].root)));
    }
  }
}
