/** Shrinking of integers and of arrays of rose trees (lib/shrink.js). */
module Shrink {
  import opened RoseTrees

  function Abs(x: int): nat { if x < 0 then -x else x }

  function Sign(x: int): int { if x < 0 then -1 else if x == 0 then 0 else 1 }

  /** `Math.ceil` for negative arguments, `Math.floor` otherwise. */
  function RoundTowardZero(x: real): (r: int)
    ensures 0.0 <= x ==> r as real <= x < r as real + 1.0
    ensures x < 0.0 ==> r as real - 1.0 < x <= r as real
  {
    if x < 0.0 then -((-x).Floor) else x.Floor
  }

  /** `m` halved `k` times, rounding down each time: `floor(m / 2^k)`. */
  function Halve(m: nat, k: nat): nat
  {
    if k == 0 then m else Halve(m, k - 1) / 2
  }

  /** `d / 2^k` rounded toward zero. */
  function TruncDiv(d: int, k: nat): int
  {
    if d < 0 then -(Halve(-d, k) as int) else Halve(d, k)
  }

  // ---------------------------------------------------------------------------
  // Facts about halving

  /** Halving a non-negative real and then flooring is flooring and then
      halving in integers. */
  lemma FloorHalf(x: real)
    requires 0.0 <= x
    ensures (x / 2.0).Floor == x.Floor / 2
  {
    var a := x.Floor;
    var b, c := a / 2, a % 2;
    assert a == 2 * b + c && (c == 0 || c == 1);
    assert b as real <= x / 2.0 < b as real + 1.0;
  }

  lemma {:induction false} HalveShift(m: nat, k: nat)
    ensures Halve(m, k + 1) == Halve(m / 2, k)
    decreases k
  {
    if k > 0 {
      HalveShift(m, k - 1);
    }
  }

  lemma {:induction false} HalveBound(m: nat, k: nat)
    ensures Halve(m, k) <= m
    decreases k
  {
    if k > 0 {
      HalveBound(m, k - 1);
    }
  }

  /** Number of halvings `k` with `Halve(m, k) >= 1`: one more than the
      integer logarithm of `m`, and 0 for `m == 0`. */
  function Steps(m: nat): nat
  {
    if m == 0 then 0 else 1 + Steps(m / 2)
  }

  lemma {:induction false} StepsHalve(m: nat, k: nat)
    ensures k < Steps(m) <==> Halve(m, k) >= 1
    decreases k
  {
    if k > 0 {
      HalveShift(m, k - 1);
      StepsHalve(m / 2, k - 1);
    }
  }

  /** The halvings that `shrink.int` uses are at least 1 and at most `m`,
      strictly decrease, and the last one is exactly 1. */
  lemma HalveSteps(m: nat, i: nat)
    requires i < Steps(m)
    ensures 1 <= Halve(m, i) <= m
    ensures 0 < i ==> Halve(m, i) < Halve(m, i - 1)
    ensures i == Steps(m) - 1 ==> Halve(m, i) == 1
  {
    StepsHalve(m, i);
    StepsHalve(m, i + 1);
    HalveBound(m, i);
  }

  // ---------------------------------------------------------------------------
  // shrink.int, the candidate list

  /** Candidate `k` of `shrink.int`: `n + trunc((center - n) / 2^k)`. */
  function Candidate(n: int, center: int, k: nat): int
  {
    n + TruncDiv(center - n, k)
  }

  /** The candidates `shrink.int` tries for `n`: candidate `k` for every `k`
      with `2^k <= |center - n|`. */
  function IntCandidates(n: int, center: int): (r: seq<int>)
    ensures n == center <==> r == []
    ensures n != center ==> r[0] == center && r[|r| - 1] == n + Sign(center - n)
    ensures forall i :: 0 <= i < |r| ==>
              (n < center ==> n < r[i] <= center) && (center < n ==> center <= r[i] < n)
    ensures forall i :: 0 <= i < |r| ==> Abs(center - r[i]) < Abs(center - n)
    ensures forall i :: 0 < i < |r| ==> Abs(r[i] - n) < Abs(r[i - 1] - n)
  {
    var steps := Steps(Abs(center - n));
    var r := seq(steps, k requires 0 <= k < steps => Candidate(n, center, k));
    CandidatesFacts(n, center, r);
    r
  }

  /** What the candidate list promises, for any list holding candidates
      `0 .. Steps(|center - n|) - 1`. */
  lemma CandidatesFacts(n: int, center: int, r: seq<int>)
    requires |r| == Steps(Abs(center - n))
    requires forall k :: 0 <= k < |r| ==> r[k] == Candidate(n, center, k)
    ensures n == center <==> r == []
    ensures n != center ==> r[0] == center && r[|r| - 1] == n + Sign(center - n)
    ensures forall i :: 0 <= i < |r| ==>
              (n < center ==> n < r[i] <= center) && (center < n ==> center <= r[i] < n)
    ensures forall i :: 0 <= i < |r| ==> Abs(center - r[i]) < Abs(center - n)
    ensures forall i :: 0 < i < |r| ==> Abs(r[i] - n) < Abs(r[i - 1] - n)
  {
    assert n != center ==> |r| > 0 by {
      StepsHalve(Abs(center - n), 0);
    }
    forall i | 0 <= i < |r|
      ensures (n < center ==> n < r[i] <= center) && (center < n ==> center <= r[i] < n)
      ensures Abs(center - r[i]) < Abs(center - n)
      ensures i == 0 ==> r[i] == center
      ensures i == |r| - 1 ==> r[i] == n + Sign(center - n)
      ensures 0 < i ==> Abs(r[i] - n) < Abs(r[i - 1] - n)
    {
      CandidateAt(n, center, i);
    }
  }

  /** Candidate `k` lies between `n` (excluded) and `center`, sits
      `Halve(m, k)` away from `n`, and is `center` for `k == 0` and one step
      from `n` for the last `k`. */
  lemma CandidateAt(n: int, center: int, k: nat)
    requires k < Steps(Abs(center - n))
    ensures var c := Candidate(n, center, k);
            && Abs(c - n) == Halve(Abs(center - n), k)
            && (n < center ==> n < c <= center) && (center < n ==> center <= c < n)
            && Abs(center - c) < Abs(center - n)
            && (k == 0 ==> c == center)
            && (k == Steps(Abs(center - n)) - 1 ==> c == n + Sign(center - n))
            && (0 < k ==> Abs(c - n) < Abs(Candidate(n, center, k - 1) - n))
  {
    HalveSteps(Abs(center - n), k);
  }

  /** `Math.abs` on reals. */
  function RealAbs(x: real): real
  {
    if x < 0.0 then -x else x
  }

  /** The loop guard of `shrink.int`: `|diff| >= 1` exactly while halvings
      remain. */
  lemma GuardSteps(d: int, k: nat, diff: real)
    requires RealAbs(diff).Floor == Halve(Abs(d), k)
    ensures RealAbs(diff) >= 1.0 <==> k < Steps(Abs(d))
  {
    StepsHalve(Abs(d), k);
  }

  /** One round of the `while` loop: rounding `diff` toward zero gives the
      truncated quotient, and halving `diff` keeps its sign and halves the
      floor of its magnitude. */
  lemma HalvingRound(d: int, k: nat, diff: real)
    requires diff < 0.0 <==> d < 0
    requires RealAbs(diff).Floor == Halve(Abs(d), k)
    ensures RoundTowardZero(diff) == TruncDiv(d, k)
    ensures diff / 2.0 < 0.0 <==> d < 0
    ensures RealAbs(diff / 2.0).Floor == Halve(Abs(d), k + 1)
  {
    FloorHalf(RealAbs(diff));
  }

  /** The `while` loop of `shrink.int` as written: `diff` starts at
      `center - n` and is halved, exactly, until its magnitude drops below 1;
      each round pushes `n + roundTowardZero(diff)`. */
  method IntCandidateLoop(n: int, center: int) returns (out: seq<int>)
    ensures out == IntCandidates(n, center)
  {
    var d := center - n;
    var diff: real := d as real;
    out := [];
    ghost var k: nat := 0;
    while RealAbs(diff) >= 1.0
      invariant diff < 0.0 <==> d < 0
      invariant RealAbs(diff).Floor == Halve(Abs(d), k)
      invariant k <= Steps(Abs(d))
      invariant |out| == k
      invariant forall j :: 0 <= j < k ==> out[j] == Candidate(n, center, j)
      decreases Steps(Abs(d)) - k
    {
      GuardSteps(d, k, diff);
      HalvingRound(d, k, diff);
      out := out + [n + RoundTowardZero(diff)];
      diff := diff / 2.0;
      k := k + 1;
    }
    GuardSteps(d, k, diff);
    assert |IntCandidates(n, center)| == k;
  }

  // ---------------------------------------------------------------------------
  // shrink.int, the rose tree (roseify + arrayToRoseTrees)

  /** `shrink.int(n, center)`: one tree per candidate, each candidate shrunk
      again toward the same `center`. */
  function ShrinkInt(n: int, center: int): seq<RoseTree<int>>
    decreases Abs(center - n)
  {
    var cs := IntCandidates(n, center);
    seq(|cs|, i requires 0 <= i < |cs| => Node(cs[i], ShrinkInt(cs[i], center)))
  }

  /** The tree `choose` builds around a drawn integer. */
  function IntTree(n: int, center: int): RoseTree<int>
  {
    Node(n, ShrinkInt(n, center))
  }

  /** Every node's children are `shrink.int` of its root, with the same centre. */
  ghost predicate IsIntShrinkTree(t: RoseTree<int>, center: int)
    decreases t
  {
    && t.children == ShrinkInt(t.root, center)
    && forall i :: 0 <= i < |t.children| ==> IsIntShrinkTree(t.children[i], center)
  }

  lemma {:induction false} IntTreeSelfSimilar(n: int, center: int)
    ensures IsIntShrinkTree(IntTree(n, center), center)
    decreases Abs(center - n)
  {
    var t := IntTree(n, center);
    var cs := IntCandidates(n, center);
    forall i | 0 <= i < |t.children|
      ensures IsIntShrinkTree(t.children[i], center)
    {
      assert t.children[i] == IntTree(cs[i], center);
      IntTreeSelfSimilar(cs[i], center);
    }
  }

  /** Inclusive "between" on integers, in either order. */
  predicate Between(a: int, x: int, b: int)
  {
    (a <= x <= b) || (b <= x <= a)
  }

  /** Every value of an int shrink tree lies between `center` and `n`. */
  lemma {:induction false} IntTreeBetween(n: int, center: int)
    ensures AllNodes(IntTree(n, center), x => Between(center, x, n))
    decreases Abs(center - n)
  {
    var t := IntTree(n, center);
    var cs := IntCandidates(n, center);
    forall i | 0 <= i < |t.children|
      ensures AllNodes(t.children[i], x => Between(center, x, n))
    {
      IntTreeBetween(cs[i], center);
      IntTreeWithin(t.children[i], center, cs[i], n);
    }
  }

  lemma {:induction false} IntTreeWithin(t: RoseTree<int>, center: int, m: int, n: int)
    requires AllNodes(t, x => Between(center, x, m))
    requires Between(center, m, n)
    ensures AllNodes(t, x => Between(center, x, n))
    decreases t
  {
    forall i | 0 <= i < |t.children|
      ensures AllNodes(t.children[i], x => Between(center, x, n))
    {
      IntTreeWithin(t.children[i], center, m, n);
    }
  }

  /** Longest path, counted in edges. */
  function Height<T>(t: RoseTree<T>): nat
    decreases t
  {
    if t.children == [] then 0
    else 1 + MaxHeight(t.children)
  }

  function MaxHeight<T>(ts: seq<RoseTree<T>>): nat
    decreases ts
  {
    if ts == [] then 0
    else var h := Height(ts[0]); var rest := MaxHeight(ts[1..]); if h < rest then rest else h
  }

  /** An int shrink tree is finite: its height is at most the distance to the
      centre, since every step strictly reduces that distance. */
  lemma {:induction false} IntTreeHeight(n: int, center: int)
    ensures Height(IntTree(n, center)) <= Abs(center - n)
    decreases Abs(center - n)
  {
    var cs := IntCandidates(n, center);
    var t := IntTree(n, center);
    forall i | 0 <= i < |cs|
      ensures Height(t.children[i]) < Abs(center - n)
    {
      IntTreeHeight(cs[i], center);
    }
    MaxHeightBound(t.children, Abs(center - n));
  }

  lemma {:induction false} MaxHeightBound<T>(ts: seq<RoseTree<T>>, b: nat)
    requires forall i :: 0 <= i < |ts| ==> Height(ts[i]) < b
    ensures ts != [] ==> MaxHeight(ts) < b
    decreases ts
  {
    if ts != [] {
      MaxHeightBound(ts[1..], b);
    }
  }

  // ---------------------------------------------------------------------------
  // shrink.array

  /** "Every element satisfies `p`." */
  function Every<T>(p: T -> bool): seq<T> -> bool
  {
    v => forall i :: 0 <= i < |v| ==> p(v[i])
  }

  /** "Element `i` satisfies `ps[i]`, and there are `|ps|` elements." */
  function Positionwise<T>(ps: seq<T -> bool>): seq<T> -> bool
  {
    v => |v| == |ps| && forall i :: 0 <= i < |v| ==> ps[i](v[i])
  }

  function LengthAtMost<T>(n: int): seq<T> -> bool
  {
    v => |v| <= n
  }

  function LengthIs<T>(n: int): seq<T> -> bool
  {
    v => |v| == n
  }

  /** The roots of a list of trees. */
  function Roots<T>(xs: seq<RoseTree<T>>): (r: seq<T>)
    ensures |r| == |xs|
  {
    seq(|xs|, i requires 0 <= i < |xs| => xs[i].root)
  }

  /** The list with element `i` left out (`xtreesBefore.concat(xtreesAfter)`). */
  function Without<T>(xs: seq<T>, i: nat): seq<T>
    requires i < |xs|
  {
    xs[..i] + xs[i + 1..]
  }

  /** The list with element `i` replaced by `c`. */
  function Replace<T>(xs: seq<T>, i: nat, c: T): seq<T>
    requires i < |xs|
  {
    xs[..i] + [c] + xs[i + 1..]
  }

  /** One removal candidate per element, in index order. */
  function Removals<T>(xs: seq<RoseTree<T>>): seq<seq<RoseTree<T>>>
  {
    seq(|xs|, i requires 0 <= i < |xs| => Without(xs, i))
  }

  /** One substitution candidate per child of element `i`, in child order. */
  function SubstitutionsAt<T>(xs: seq<RoseTree<T>>, i: nat): seq<seq<RoseTree<T>>>
    requires i < |xs|
  {
    seq(|xs[i].children|, j requires 0 <= j < |xs[i].children| => Replace(xs, i, xs[i].children[j]))
  }

  /** The substitution candidates of elements `0 .. k-1`, in index-then-child order. */
  function SubstitutionsUpTo<T>(xs: seq<RoseTree<T>>, k: nat): seq<seq<RoseTree<T>>>
    requires k <= |xs|
  {
    if k == 0 then [] else SubstitutionsUpTo(xs, k - 1) + SubstitutionsAt(xs, k - 1)
  }

  /** Number of children of elements `0 .. k-1`. */
  function ChildCount<T>(xs: seq<RoseTree<T>>, k: nat): nat
    requires k <= |xs|
  {
    if k == 0 then 0 else ChildCount(xs, k - 1) + |xs[k - 1].children|
  }

  lemma SizeWithout<T>(xs: seq<RoseTree<T>>, i: nat)
    requires i < |xs|
    ensures SizeOfAll(Without(xs, i)) + Size(xs[i]) == SizeOfAll(xs)
  {
    SizeOfAllAppend(xs[..i], xs[i + 1..]);
    SizeOfAllAppend(xs[..i], [xs[i]] + xs[i + 1..]);
    SizeOfAllAppend([xs[i]], xs[i + 1..]);
    assert xs == xs[..i] + ([xs[i]] + xs[i + 1..]);
  }

  lemma SizeReplace<T>(xs: seq<RoseTree<T>>, i: nat, c: RoseTree<T>)
    requires i < |xs|
    ensures SizeOfAll(Replace(xs, i, c)) + Size(xs[i]) == SizeOfAll(xs) + Size(c)
  {
    var before, after := xs[..i], xs[i + 1..];
    SizeOfAllAppend(before, [xs[i]] + after);
    SizeOfAllAppend([xs[i]], after);
    SizeOfAllAppend(before, [c] + after);
    SizeOfAllAppend([c], after);
    assert [c][1..] == [] && [xs[i]][1..] == [];
    assert xs == before + ([xs[i]] + after);
    assert Replace(xs, i, c) == before + ([c] + after);
  }

  lemma {:induction false} SubstitutionsUpToSmaller<T>(xs: seq<RoseTree<T>>, k: nat)
    requires k <= |xs|
    ensures forall l :: 0 <= l < |SubstitutionsUpTo(xs, k)| ==>
              SizeOfAll(SubstitutionsUpTo(xs, k)[l]) < SizeOfAll(xs) && |SubstitutionsUpTo(xs, k)[l]| == |xs|
    decreases k
  {
    if k > 0 {
      SubstitutionsUpToSmaller(xs, k - 1);
      var pre := SubstitutionsUpTo(xs, k - 1);
      var at := SubstitutionsAt(xs, k - 1);
      forall j | 0 <= j < |at|
        ensures SizeOfAll(at[j]) < SizeOfAll(xs) && |at[j]| == |xs|
      {
        ChildSmaller(xs[k - 1], j);
        SizeReplace(xs, k - 1, xs[k - 1].children[j]);
      }
      assert forall l :: 0 <= l < |pre + at| ==> (pre + at)[l] == if l < |pre| then pre[l] else at[l - |pre|];
    }
  }

  lemma {:induction false} SubstitutionsUpToLength<T>(xs: seq<RoseTree<T>>, k: nat)
    requires k <= |xs|
    ensures |SubstitutionsUpTo(xs, k)| == ChildCount(xs, k)
    decreases k
  {
    if k > 0 {
      SubstitutionsUpToLength(xs, k - 1);
    }
  }

  lemma {:induction false} ChildCountMonotone<T>(xs: seq<RoseTree<T>>, i: nat, k: nat)
    requires i < k <= |xs|
    ensures ChildCount(xs, i) + |xs[i].children| <= ChildCount(xs, k)
    decreases k
  {
    if i < k - 1 {
      ChildCountMonotone(xs, i, k - 1);
    }
  }

  /** Substitution candidate `j` of element `i` sits after the candidates of
      all earlier elements. */
  lemma {:induction false} SubstitutionsUpToAt<T>(xs: seq<RoseTree<T>>, k: nat, i: nat, j: nat)
    requires i < k <= |xs| && j < |xs[i].children|
    ensures ChildCount(xs, i) + j < |SubstitutionsUpTo(xs, k)|
    ensures SubstitutionsUpTo(xs, k)[ChildCount(xs, i) + j] == Replace(xs, i, xs[i].children[j])
    decreases k
  {
    var pre := SubstitutionsUpTo(xs, k - 1);
    var at := SubstitutionsAt(xs, k - 1);
    assert SubstitutionsUpTo(xs, k) == pre + at;
    SubstitutionsUpToLength(xs, k - 1);
    if i < k - 1 {
      SubstitutionsUpToAt(xs, k - 1, i, j);
      assert (pre + at)[ChildCount(xs, i) + j] == pre[ChildCount(xs, i) + j];
    } else {
      assert ChildCount(xs, i) == |pre|;
      assert (pre + at)[|pre| + j] == at[j];
    }
  }

  /** Every element of every candidate satisfies `p` throughout when every
      element of `xs` does: candidates only drop elements or replace one by
      one of its own children. */
  lemma {:induction false} SubstitutionsUpToPreserve<T>(xs: seq<RoseTree<T>>, k: nat, p: T -> bool)
    requires k <= |xs|
    requires forall i :: 0 <= i < |xs| ==> AllNodes(xs[i], p)
    ensures forall l, i :: 0 <= l < |SubstitutionsUpTo(xs, k)| && 0 <= i < |SubstitutionsUpTo(xs, k)[l]| ==>
              AllNodes(SubstitutionsUpTo(xs, k)[l][i], p)
    decreases k
  {
    if k > 0 {
      SubstitutionsUpToPreserve(xs, k - 1, p);
      SubstitutionsUpToSmaller(xs, k);
      var pre := SubstitutionsUpTo(xs, k - 1);
      var at := SubstitutionsAt(xs, k - 1);
      forall j, i | 0 <= j < |at| && 0 <= i < |at[j]|
        ensures AllNodes(at[j][i], p)
      {
        assert at[j][i] == if i == k - 1 then xs[k - 1].children[j] else xs[i];
      }
      assert forall l :: 0 <= l < |pre + at| ==> (pre + at)[l] == if l < |pre| then pre[l] else at[l - |pre|];
    }
  }

  /** The candidate lists `shrink.array` builds: the removals (when
      `tryRemoving`), then the substitutions. Each has fewer nodes in all than
      `xs`, which is why shrinking arrays terminates; each is one shorter than
      `xs` or as long, and as long when nothing is removed. */
  function ArrayCandidates<T>(xs: seq<RoseTree<T>>, tryRemoving: bool): (r: seq<seq<RoseTree<T>>>)
    ensures forall k :: 0 <= k < |r| ==> SizeOfAll(r[k]) < SizeOfAll(xs)
    ensures forall k :: 0 <= k < |r| ==> |r[k]| == |xs| || (tryRemoving && |r[k]| == |xs| - 1)
  {
    var r := (if tryRemoving then Removals(xs) else []) + SubstitutionsUpTo(xs, |xs|);
    CandidatesSmaller(xs, tryRemoving, r);
    r
  }

  lemma {:induction false} CandidatesSmaller<T>(xs: seq<RoseTree<T>>, tryRemoving: bool, r: seq<seq<RoseTree<T>>>)
    requires r == (if tryRemoving then Removals(xs) else []) + SubstitutionsUpTo(xs, |xs|)
    ensures forall k :: 0 <= k < |r| ==> SizeOfAll(r[k]) < SizeOfAll(xs)
    ensures forall k :: 0 <= k < |r| ==> |r[k]| == |xs| || (tryRemoving && |r[k]| == |xs| - 1)
  {
    var removed := if tryRemoving then Removals(xs) else [];
    var shrunk := SubstitutionsUpTo(xs, |xs|);
    SubstitutionsUpToSmaller(xs, |xs|);
    if tryRemoving {
      RemovalsSmaller(xs);
    }
    forall k | 0 <= k < |r|
      ensures SizeOfAll(r[k]) < SizeOfAll(xs)
      ensures |r[k]| == |xs| || (tryRemoving && |r[k]| == |xs| - 1)
    {
      if k < |removed| {
        assert r[k] == removed[k];
      } else {
        assert r[k] == shrunk[k - |removed|];
      }
    }
  }

  /** Each removal candidate is one element shorter and has fewer nodes. */
  lemma RemovalsSmaller<T>(xs: seq<RoseTree<T>>)
    ensures forall i :: 0 <= i < |Removals(xs)| ==>
              SizeOfAll(Removals(xs)[i]) < SizeOfAll(xs) && |Removals(xs)[i]| == |xs| - 1
  {
    forall i | 0 <= i < |Removals(xs)|
      ensures SizeOfAll(Removals(xs)[i]) < SizeOfAll(xs) && |Removals(xs)[i]| == |xs| - 1
    {
      SizeWithout(xs, i);
    }
  }

  function ShrinkArray<T>(xs: seq<RoseTree<T>>, tryRemoving: bool): seq<RoseTree<seq<T>>>
    decreases SizeOfAll(xs), 0
  {
    var cs := ArrayCandidates(xs, tryRemoving);
    seq(|cs|, k requires 0 <= k < |cs| => XtreesToArray(cs[k], tryRemoving))
  }

  /** `xtreesToArray`: the tree of an array whose elements are the trees `xs`. */
  function XtreesToArray<T>(xs: seq<RoseTree<T>>, tryRemoving: bool): RoseTree<seq<T>>
    decreases SizeOfAll(xs), 1
  {
    Node(Roots(xs), ShrinkArray(xs, tryRemoving))
  }

  /** Where substitution candidate `j` of element `i` sits in
      `shrink.array`'s result, and what it is. */
  function SubstitutionIndex<T>(xs: seq<RoseTree<T>>, tryRemoving: bool, i: nat, j: nat): nat
    requires i < |xs|
  {
    (if tryRemoving then |xs| else 0) + ChildCount(xs, i) + j
  }

  lemma RootsWithout<T>(xs: seq<RoseTree<T>>, i: nat)
    requires i < |xs|
    ensures Roots(Without(xs, i)) == Without(Roots(xs), i)
  {
    assert forall k :: 0 <= k < |xs| - 1 ==> Roots(Without(xs, i))[k] == Without(Roots(xs), i)[k];
  }

  lemma RootsReplace<T>(xs: seq<RoseTree<T>>, i: nat, c: RoseTree<T>)
    requires i < |xs|
    ensures Roots(Replace(xs, i, c)) == Replace(Roots(xs), i, c.root)
  {
    assert forall k :: 0 <= k < |xs| ==> Roots(Replace(xs, i, c))[k] == Replace(Roots(xs), i, c.root)[k];
  }

  /** `shrink.array` yields one candidate per child of every element, after
      the removals. */
  lemma {:induction false} ShrinkArrayCount<T>(xs: seq<RoseTree<T>>, tryRemoving: bool)
    ensures |ShrinkArray(xs, tryRemoving)| == (if tryRemoving then |xs| else 0) + ChildCount(xs, |xs|)
  {
    SubstitutionsUpToLength(xs, |xs|);
  }

  /** With `tryRemoving`, candidate `i` is the array with element `i` deleted. */
  lemma {:induction false} RemovalCandidate<T>(xs: seq<RoseTree<T>>, i: nat)
    requires i < |xs|
    ensures i < |ShrinkArray(xs, true)|
    ensures ShrinkArray(xs, true)[i] == XtreesToArray(Without(xs, i), true)
    ensures ShrinkArray(xs, true)[i].root == Without(Roots(xs), i)
  {
    var cs := ArrayCandidates(xs, true);
    assert cs == Removals(xs) + SubstitutionsUpTo(xs, |xs|);
    assert cs[i] == Without(xs, i);
    RootsWithout(xs, i);
  }

  /** After the removals, candidate `SubstitutionIndex(xs, tryRemoving, i, j)`
      is the array with element `i` replaced by its `j`-th shrink. */
  lemma {:induction false} SubstitutionCandidate<T>(xs: seq<RoseTree<T>>, tryRemoving: bool, i: nat, j: nat)
    requires i < |xs| && j < |xs[i].children|
    ensures SubstitutionIndex(xs, tryRemoving, i, j) < |ShrinkArray(xs, tryRemoving)|
    ensures ShrinkArray(xs, tryRemoving)[SubstitutionIndex(xs, tryRemoving, i, j)]
            == XtreesToArray(Replace(xs, i, xs[i].children[j]), tryRemoving)
    ensures ShrinkArray(xs, tryRemoving)[SubstitutionIndex(xs, tryRemoving, i, j)].root
            == Replace(Roots(xs), i, xs[i].children[j].root)
  {
    var l := ChildCount(xs, i) + j;
    var c := Replace(xs, i, xs[i].children[j]);
    SubstitutionsUpToAt(xs, |xs|, i, j);
    assert SubstitutionIndex(xs, tryRemoving, i, j) == (if tryRemoving then |xs| else 0) + l;
    ShrinkArraySubstitution(xs, tryRemoving, l);
    assert XtreesToArray(c, tryRemoving).root == Roots(c);
    RootsReplace(xs, i, xs[i].children[j]);
  }

  /** Substitution `l` sits after the removals in `shrink.array`'s result. */
  lemma ShrinkArraySubstitution<T>(xs: seq<RoseTree<T>>, tryRemoving: bool, l: nat)
    requires l < |SubstitutionsUpTo(xs, |xs|)|
    ensures (if tryRemoving then |xs| else 0) + l < |ShrinkArray(xs, tryRemoving)|
    ensures ShrinkArray(xs, tryRemoving)[(if tryRemoving then |xs| else 0) + l]
            == XtreesToArray(SubstitutionsUpTo(xs, |xs|)[l], tryRemoving)
  {
    var removed := if tryRemoving then Removals(xs) else [];
    var k := (if tryRemoving then |xs| else 0) + l;
    assert ArrayCandidates(xs, tryRemoving) == removed + SubstitutionsUpTo(xs, |xs|);
    assert ArrayCandidates(xs, tryRemoving)[k] == SubstitutionsUpTo(xs, |xs|)[l];
    ShrinkArrayAt(xs, tryRemoving, k);
  }

  /** Entry `k` of `shrink.array`'s result is the array tree of candidate `k`. */
  lemma ShrinkArrayAt<T>(xs: seq<RoseTree<T>>, tryRemoving: bool, k: nat)
    requires k < |ArrayCandidates(xs, tryRemoving)|
    ensures k < |ShrinkArray(xs, tryRemoving)|
    ensures ShrinkArray(xs, tryRemoving)[k] == XtreesToArray(ArrayCandidates(xs, tryRemoving)[k], tryRemoving)
  {
  }

  /** Every array in the tree is at most as long as the original, and exactly
      as long when elements are never removed (tuples). */
  lemma {:induction false} ArrayTreeLength<T>(xs: seq<RoseTree<T>>, tryRemoving: bool)
    ensures AllNodes(XtreesToArray(xs, tryRemoving), LengthAtMost(|xs|))
    ensures !tryRemoving ==> AllNodes(XtreesToArray(xs, tryRemoving), LengthIs(|xs|))
    decreases SizeOfAll(xs)
  {
    var t := XtreesToArray(xs, tryRemoving);
    var cs := ArrayCandidates(xs, tryRemoving);
    forall k | 0 <= k < |t.children|
      ensures AllNodes(t.children[k], LengthAtMost(|xs|))
      ensures !tryRemoving ==> AllNodes(t.children[k], LengthIs(|xs|))
    {
      ArrayTreeLength(cs[k], tryRemoving);
      AllNodesWeaken(t.children[k], LengthAtMost(|cs[k]|), LengthAtMost(|xs|));
      if !tryRemoving {
        AllNodesWeaken(t.children[k], LengthIs(|cs[k]|), LengthIs(|xs|));
      }
    }
  }

  /** If every node of every element tree satisfies `p`, every element of
      every array in the array's tree does. */
  lemma {:induction false} ArrayTreeElements<T>(xs: seq<RoseTree<T>>, tryRemoving: bool, p: T -> bool)
    requires forall i :: 0 <= i < |xs| ==> AllNodes(xs[i], p)
    ensures AllNodes(XtreesToArray(xs, tryRemoving), Every(p))
    decreases SizeOfAll(xs)
  {
    var t := XtreesToArray(xs, tryRemoving);
    var cs := ArrayCandidates(xs, tryRemoving);
    assert t.children == ShrinkArray(xs, tryRemoving);
    var removed := if tryRemoving then Removals(xs) else [];
    var shrunk := SubstitutionsUpTo(xs, |xs|);
    SubstitutionsUpToPreserve(xs, |xs|, p);
    assert cs == removed + shrunk;
    assert |t.children| == |cs|;
    forall k | 0 <= k < |t.children|
      ensures AllNodes(t.children[k], Every(p))
    {
      assert t.children[k] == XtreesToArray(cs[k], tryRemoving);
      forall i | 0 <= i < |cs[k]|
        ensures AllNodes(cs[k][i], p)
      {
        if k < |removed| {
          assert cs[k] == Without(xs, k);
          assert cs[k][i] == if i < k then xs[i] else xs[i + 1];
        } else {
          assert cs[k] == shrunk[k - |removed|];
        }
      }
      ArrayTreeElements(cs[k], tryRemoving, p);
    }
    assert forall i :: 0 <= i < |t.root| ==> t.root[i] == xs[i].root;
  }

  /** Substitution candidates keep every element in its place: each
      position holds the original element or one of its children. */
  lemma {:induction false} SubstitutionsUpToPositions<T>(xs: seq<RoseTree<T>>, k: nat, ps: seq<T -> bool>)
    requires k <= |xs| && |ps| == |xs|
    requires forall i :: 0 <= i < |xs| ==> AllNodes(xs[i], ps[i])
    ensures forall l :: 0 <= l < |SubstitutionsUpTo(xs, k)| ==>
              |SubstitutionsUpTo(xs, k)[l]| == |xs| &&
              forall i :: 0 <= i < |xs| ==> AllNodes(SubstitutionsUpTo(xs, k)[l][i], ps[i])
    decreases k
  {
    if k > 0 {
      SubstitutionsUpToPositions(xs, k - 1, ps);
      var pre := SubstitutionsUpTo(xs, k - 1);
      var at := SubstitutionsAt(xs, k - 1);
      forall j | 0 <= j < |at|
        ensures |at[j]| == |xs| && forall i :: 0 <= i < |xs| ==> AllNodes(at[j][i], ps[i])
      {
        assert at[j] == Replace(xs, k - 1, xs[k - 1].children[j]);
        forall i | 0 <= i < |xs|
          ensures AllNodes(at[j][i], ps[i])
        {
          assert at[j][i] == if i == k - 1 then xs[k - 1].children[j] else xs[i];
        }
      }
      assert forall l :: 0 <= l < |pre + at| ==> (pre + at)[l] == if l < |pre| then pre[l] else at[l - |pre|];
    }
  }

  /** Without removals (tuples), every array in the tree has element `i`
      from the tree of element `i`. */
  lemma {:induction false} ArrayTreePositions<T>(xs: seq<RoseTree<T>>, ps: seq<T -> bool>)
    requires |ps| == |xs|
    requires forall i :: 0 <= i < |xs| ==> AllNodes(xs[i], ps[i])
    ensures AllNodes(XtreesToArray(xs, false), Positionwise(ps))
    decreases SizeOfAll(xs)
  {
    var t := XtreesToArray(xs, false);
    var cs := ArrayCandidates(xs, false);
    assert t.children == ShrinkArray(xs, false);
    assert cs == SubstitutionsUpTo(xs, |xs|);
    SubstitutionsUpToPositions(xs, |xs|, ps);
    forall k | 0 <= k < |t.children|
      ensures AllNodes(t.children[k], Positionwise(ps))
    {
      assert t.children[k] == XtreesToArray(cs[k], false);
      ArrayTreePositions(cs[k], ps);
    }
  }

  /** The two `forEach` loops of `shrink.array` as written: they push the
      removal candidates to `withElemsRemoved` and the substitution candidates
      to `withElemsShrunk`; the result is the trees of the removals followed
      by those of the substitutions. */
  method ShrinkArrayLoop<T>(xtrees: seq<RoseTree<T>>, tryRemoving: bool) returns (r: seq<RoseTree<seq<T>>>)
    ensures r == ShrinkArray(xtrees, tryRemoving)
  {
    var withElemsRemoved: seq<seq<RoseTree<T>>> := [];
    var withElemsShrunk: seq<seq<RoseTree<T>>> := [];
    var index := 0;
    while index < |xtrees|
      invariant index <= |xtrees|
      invariant withElemsRemoved == if tryRemoving then Removals(xtrees)[..index] else []
      invariant withElemsShrunk == SubstitutionsUpTo(xtrees, index)
    {
      var xtreesBefore := xtrees[..index];
      var xtreesAfter := xtrees[index + 1..];
      if tryRemoving {
        RemovalsPrefix(xtrees, index);
        withElemsRemoved := withElemsRemoved + [xtreesBefore + xtreesAfter];
      }
      var kids := xtrees[index].children;
      var j := 0;
      while j < |kids|
        invariant j <= |kids|
        invariant withElemsShrunk == SubstitutionsUpTo(xtrees, index) + SubstitutionsAt(xtrees, index)[..j]
      {
        SubstitutionsAtPrefix(xtrees, index, j);
        withElemsShrunk := withElemsShrunk + [xtreesBefore + [kids[j]] + xtreesAfter];
        j := j + 1;
      }
      assert SubstitutionsAt(xtrees, index)[..j] == SubstitutionsAt(xtrees, index);
      index := index + 1;
    }
    assert tryRemoving ==> Removals(xtrees)[..index] == Removals(xtrees);
    var cs := withElemsRemoved + withElemsShrunk;
    assert cs == ArrayCandidates(xtrees, tryRemoving);
    r := seq(|cs|, k requires 0 <= k < |cs| => XtreesToArray(cs[k], tryRemoving));
  }

  /** One more round of the removal push. */
  lemma RemovalsPrefix<T>(xs: seq<RoseTree<T>>, index: nat)
    requires index < |xs|
    ensures Removals(xs)[..index] + [xs[..index] + xs[index + 1..]] == Removals(xs)[..index + 1]
  {
    assert Removals(xs)[index] == xs[..index] + xs[index + 1..];
  }

  /** One more round of the substitution push for element `index`. */
  lemma SubstitutionsAtPrefix<T>(xs: seq<RoseTree<T>>, index: nat, j: nat)
    requires index < |xs| && j < |xs[index].children|
    ensures var at := SubstitutionsAt(xs, index);
            at[..j] + [xs[..index] + [xs[index].children[j]] + xs[index + 1..]] == at[..j + 1]
  {
    assert SubstitutionsAt(xs, index)[j] == xs[..index] + [xs[index].children[j]] + xs[index + 1..];
  }

}
