/** Generators and their combinators (lib/types.js).

    A generator takes the shared random source and a size and returns the
    rose tree of a value and its shrinks. The random source is a stream of
    draws in [0, 1); a generator that draws returns the source advanced past
    its draws, so that the sharing of one source between generators is
    explicit. A generator that throws returns `Err`. */
module Types {
  import opened Wrappers
  import opened RoseTrees
  import opened Shrink
  import opened Errors

  /** A draw of `rng.float()`. */
  type Unit = r: real | 0.0 <= r < 1.0

  /** The random source: all its draws, and the position of the next one. */
  datatype Rng = Rng(draws: nat -> Unit, pos: nat)
  {
    function Float(): Unit { draws(pos) }
    function Next(): Rng { Rng(draws, pos + 1) }
  }

  /** A generated tree and the random source after generating it. */
  datatype Drawn<T> = Drawn(tree: RoseTree<T>, rng: Rng)

  type Gen<T> = (Rng, int) -> Result<Drawn<T>, Exception>

  /** Every tree `g` generates at `size`, whatever the draws, satisfies `p` at
      every node: the generated value and every shrink of it. */
  ghost predicate Always<T>(g: Gen<T>, size: int, p: T -> bool)
  {
    forall rng: Rng :: g(rng, size).Ok? ==> AllNodes(g(rng, size).value.tree, p)
  }

  /** Both tests. */
  function And<T>(p: T -> bool, q: T -> bool): T -> bool
  {
    x => p(x) && q(x)
  }

  /** A guarantee that holds always holds in any weaker form. */
  lemma AlwaysWeaken<T>(g: Gen<T>, size: int, p: T -> bool, q: T -> bool)
    requires Always(g, size, p)
    requires forall x :: p(x) ==> q(x)
    ensures Always(g, size, q)
  {
    forall rng: Rng | g(rng, size).Ok?
      ensures AllNodes(g(rng, size).value.tree, q)
    {
      AllNodesWeaken(g(rng, size).value.tree, p, q);
    }
  }

  // ---------------------------------------------------------------------------
  // choose and the integer generators

  /** The test "in `[low, high]`". */
  function InRange(low: int, high: int): int -> bool
  {
    x => low <= x <= high
  }

  /** `Math.floor(r * (high - low + 1) + low)`, in exact arithmetic. */
  function ChooseValue(low: int, high: int, r: Unit): int
  {
    (r * (high - low + 1) as real + low as real).Floor
  }

  /** For `low <= high` every draw lands in `[low, high]`, and every integer
      of `[low, high]` is the value of some draw. */
  lemma ChooseValueRange(low: int, high: int, r: Unit)
    requires low <= high
    ensures low <= ChooseValue(low, high, r) <= high
  {
    var w := (high - low + 1) as real;
    assert 0.0 <= r * w;
    assert r * w < w by {
      assert (1.0 - r) * w > 0.0;
    }
  }

  lemma ChooseValueOnto(low: int, high: int, n: int)
    requires low <= n <= high
    ensures exists r: Unit :: ChooseValue(low, high, r) == n
  {
    var w := (high - low + 1) as real;
    var r: Unit := (n - low) as real / w;
    assert r * w == (n - low) as real;
    assert ChooseValue(low, high, r) == n;
  }

  /** The one draw of `choose(low, high, center)`. */
  function ChooseDraw(low: int, high: int, center: int, rng: Rng): Drawn<int>
  {
    Drawn(IntTree(ChooseValue(low, high, rng.Float()), center), rng.Next())
  }

  /** `choose(low, high, center)`: ignores the size; the drawn integer shrinks
      toward `center`, which defaults to `low` when not given. */
  function Choose(low: int, high: int, center: Option<int>): Gen<int>
  {
    (rng: Rng, size: int) => Ok(ChooseDraw(low, high, center.GetOr(low), rng))
  }

  /** `choose` never fails, uses exactly one draw, and its root is in range;
      its children are `shrink.int(root, center)`. When `center` is in range
      too, every shrink stays in range. */
  lemma ChooseSpec(low: int, high: int, c: Option<int>, rng: Rng, size: int)
    requires low <= high
    ensures Choose(low, high, c)(rng, size).Ok?
    ensures var d := Choose(low, high, c)(rng, size).value;
            && low <= d.tree.root <= high
            && d.tree.children == ShrinkInt(d.tree.root, c.GetOr(low))
            && d.rng == rng.Next()
    ensures low <= c.GetOr(low) <= high ==>
              AllNodes(Choose(low, high, c)(rng, size).value.tree, InRange(low, high))
  {
    var center := c.GetOr(low);
    var n := ChooseValue(low, high, rng.Float());
    ChooseValueRange(low, high, rng.Float());
    if low <= center <= high {
      IntTreeBetween(n, center);
      AllNodesWeaken(IntTree(n, center), x => Between(center, x, n), InRange(low, high));
    }
  }

  lemma ChooseAlways(low: int, high: int, center: Option<int>, size: int)
    requires low <= center.GetOr(low) <= high
    ensures Always(Choose(low, high, center), size, InRange(low, high))
  {
    forall rng: Rng
      ensures AllNodes(Choose(low, high, center)(rng, size).value.tree, InRange(low, high))
    {
      ChooseSpec(low, high, center, rng, size);
    }
  }

  /** `int`: `choose(-size, size, 0)`. */
  function Int(rng: Rng, size: int): Result<Drawn<int>, Exception>
  {
    Choose(-size, size, Some(0))(rng, size)
  }

  /** `int.nonNegative`: `choose(0, size)`. */
  function NonNegative(rng: Rng, size: int): Result<Drawn<int>, Exception>
  {
    Choose(0, size, None)(rng, size)
  }

  /** `int.positive`: `choose(1, size + 1)`. */
  function Positive(rng: Rng, size: int): Result<Drawn<int>, Exception>
  {
    Choose(1, size + 1, None)(rng, size)
  }

  /** For a non-negative size, `int` stays in `[-size, size]` at every node
      of its tree and shrinks toward 0. */
  lemma IntSpec(size: int)
    requires size >= 0
    ensures Always(Int, size, InRange(-size, size))
    ensures forall rng: Rng :: Int(rng, size).Ok? && Int(rng, size).value.tree.children
                               == ShrinkInt(Int(rng, size).value.tree.root, 0)
  {
    forall rng: Rng
      ensures Int(rng, size).Ok? && AllNodes(Int(rng, size).value.tree, InRange(-size, size))
      ensures Int(rng, size).value.tree.children == ShrinkInt(Int(rng, size).value.tree.root, 0)
    {
      ChooseSpec(-size, size, Some(0), rng, size);
    }
  }

  /** `int.nonNegative` stays in `[0, size]` at every node. */
  lemma NonNegativeSpec(size: int)
    requires size >= 0
    ensures Always(NonNegative, size, InRange(0, size))
  {
    forall rng: Rng
      ensures NonNegative(rng, size).Ok? && AllNodes(NonNegative(rng, size).value.tree, InRange(0, size))
    {
      ChooseSpec(0, size, None, rng, size);
    }
  }

  /** `int.positive` stays in `[1, size + 1]` at every node. */
  lemma PositiveSpec(size: int)
    requires size >= 0
    ensures Always(Positive, size, InRange(1, size + 1))
  {
    forall rng: Rng
      ensures Positive(rng, size).Ok? && AllNodes(Positive(rng, size).value.tree, InRange(1, size + 1))
    {
      ChooseSpec(1, size + 1, None, rng, size);
    }
  }

  // ---------------------------------------------------------------------------
  // suchThat

  const DefaultMaxTries := 10
  const SuchThatMessage := "suchThat: could not find a suitable value"

  /** The attempts of `suchThat` from the one with `triesLeft` remaining: the
      first draw whose root satisfies `pred` is returned with its subtrees
      filtered by `pred`; after the last attempt the search gives up. */
  function SuchThatFrom<T>(pred: T -> bool, gen: Gen<T>, rng: Rng, size: int, triesLeft: int): Result<Drawn<T>, Exception>
    decreases triesLeft
  {
    match gen(rng, size)
    case Err(e) => Err(e)
    case Ok(d) =>
      if pred(d.tree.root) then Ok(Drawn(FilterSubtrees(d.tree, pred), d.rng))
      else if triesLeft - 1 > 0 then SuchThatFrom(pred, gen, d.rng, size, triesLeft - 1)
      else Err(GentestError(SuchThatMessage))
  }

  /** `suchThat(pred, gen, maxTries)`; `maxTries` defaults to 10. */
  function SuchThat<T>(pred: T -> bool, gen: Gen<T>, maxTries: Option<int>): Gen<T>
  {
    (rng: Rng, size: int) => SuchThatFrom(pred, gen, rng, size, maxTries.GetOr(DefaultMaxTries))
  }

  /** The number of attempts `suchThat` makes before giving up: the loop is a
      do-while, so at least one. */
  function Attempts(maxTries: int): nat
  {
    if maxTries < 1 then 1 else maxTries
  }

  /** The do-while loop as written, also counting the attempts it makes. */
  method SuchThatLoop<T>(pred: T -> bool, gen: Gen<T>, maxTries: int, rng: Rng, size: int)
    returns (r: Result<Drawn<T>, Exception>, tries: nat)
    ensures r == SuchThatFrom(pred, gen, rng, size, maxTries)
    ensures 1 <= tries <= Attempts(maxTries)
    ensures (forall g: Rng :: gen(g, size).Ok? && !pred(gen(g, size).value.tree.root))
              ==> tries == Attempts(maxTries) && r == Err(GentestError(SuchThatMessage))
  {
    var triesLeft := maxTries;
    var cur := rng;
    tries := 0;
    while true
      invariant SuchThatFrom(pred, gen, rng, size, maxTries) == SuchThatFrom(pred, gen, cur, size, triesLeft)
      invariant tries == 0 ==> triesLeft == maxTries
      invariant tries > 0 ==> triesLeft >= 1 && tries + triesLeft == Attempts(maxTries)
      decreases triesLeft
    {
      var attempt := gen(cur, size);
      tries := tries + 1;
      if attempt.Err? {
        return attempt, tries;
      }
      var tree := attempt.value.tree;
      if pred(tree.root) {
        return Ok(Drawn(FilterSubtrees(tree, pred), attempt.value.rng)), tries;
      }
      triesLeft := triesLeft - 1;
      if !(triesLeft > 0) {
        return Err(GentestError(SuchThatMessage)), tries;
      }
      cur := attempt.value.rng;
    }
  }

  /** What `suchThat` returns satisfies `pred` at every node: the root was
      checked, and `filterSubtrees` removed every shrink that fails it. */
  lemma {:induction false} SuchThatSound<T>(pred: T -> bool, gen: Gen<T>, rng: Rng, size: int, triesLeft: int)
    ensures SuchThatFrom(pred, gen, rng, size, triesLeft).Ok? ==>
              AllNodes(SuchThatFrom(pred, gen, rng, size, triesLeft).value.tree, pred)
    decreases triesLeft
  {
    var a := gen(rng, size);
    if a.Ok? {
      if pred(a.value.tree.root) {
        FilterSubtreesBelow(a.value.tree, pred);
      } else if triesLeft - 1 > 0 {
        SuchThatSound(pred, gen, a.value.rng, size, triesLeft - 1);
      }
    }
  }

  /** Filtering keeps whatever the underlying generator guarantees. */
  lemma SuchThatAlways<T>(pred: T -> bool, gen: Gen<T>, maxTries: Option<int>, size: int, q: T -> bool)
    requires Always(gen, size, q)
    ensures Always(SuchThat(pred, gen, maxTries), size, And(pred, q))
  {
    forall rng: Rng | SuchThat(pred, gen, maxTries)(rng, size).Ok?
      ensures AllNodes(SuchThat(pred, gen, maxTries)(rng, size).value.tree, And(pred, q))
    {
      SuchThatKeeps(pred, gen, rng, size, maxTries.GetOr(DefaultMaxTries), q);
    }
  }

  lemma {:induction false} SuchThatKeeps<T>(pred: T -> bool, gen: Gen<T>, rng: Rng, size: int, triesLeft: int, q: T -> bool)
    requires Always(gen, size, q)
    ensures SuchThatFrom(pred, gen, rng, size, triesLeft).Ok? ==>
              AllNodes(SuchThatFrom(pred, gen, rng, size, triesLeft).value.tree, And(pred, q))
    decreases triesLeft
  {
    var a := gen(rng, size);
    if a.Ok? {
      if pred(a.value.tree.root) {
        var t := a.value.tree;
        FilterSubtreesBelow(t, pred);
        FilterSubtreesKeeps(t, pred, q);
        var f := FilterSubtrees(t, pred);
        AllBelowAnd(f, pred, q);
      } else if triesLeft - 1 > 0 {
        SuchThatKeeps(pred, gen, a.value.rng, size, triesLeft - 1, q);
      }
    }
  }

  lemma AllBelowAnd<T>(t: RoseTree<T>, p: T -> bool, q: T -> bool)
    requires p(t.root) && AllBelow(t, p) && AllNodes(t, q)
    ensures AllNodes(t, And(p, q))
  {
    forall i | 0 <= i < |t.children|
      ensures AllNodes(t.children[i], And(p, q))
    {
      AllNodesBoth(t.children[i], p, q);
    }
  }

  lemma {:induction false} AllNodesBoth<T>(t: RoseTree<T>, p: T -> bool, q: T -> bool)
    requires AllNodes(t, p) && AllNodes(t, q)
    ensures AllNodes(t, And(p, q))
    decreases t
  {
    forall i | 0 <= i < |t.children|
      ensures AllNodes(t.children[i], And(p, q))
    {
      AllNodesBoth(t.children[i], p, q);
    }
  }

  /** A generator that can never satisfy `pred` makes `suchThat` raise a
      `GentestError`. */
  lemma {:induction false} SuchThatGivesUp<T>(pred: T -> bool, gen: Gen<T>, rng: Rng, size: int, triesLeft: int)
    requires forall g: Rng :: gen(g, size).Ok? && !pred(gen(g, size).value.tree.root)
    ensures SuchThatFrom(pred, gen, rng, size, triesLeft) == Err(GentestError(SuchThatMessage))
    decreases triesLeft
  {
    var a := gen(rng, size);
    if triesLeft - 1 > 0 {
      SuchThatGivesUp(pred, gen, a.value.rng, size, triesLeft - 1);
    }
  }

  predicate IsNonZero(x: int) { x != 0 }

  /** `int.nonZero`: `suchThat(x => x !== 0, int)`. */
  function NonZero(rng: Rng, size: int): Result<Drawn<int>, Exception>
  {
    SuchThat(IsNonZero, Int, None)(rng, size)
  }

  /** `int.nonZero` never yields 0 and never shrinks to 0, and stays within
      `int`'s range. */
  lemma NonZeroSpec(size: int)
    requires size >= 0
    ensures Always(NonZero, size, And(IsNonZero, InRange(-size, size)))
  {
    IntSpec(size);
    SuchThatAlways(IsNonZero, Int, None, size, InRange(-size, size));
  }

  // ---------------------------------------------------------------------------
  // fmap and constantly

  function FmapRun<T, U>(f: T -> U, gen: Gen<T>, rng: Rng, size: int): Result<Drawn<U>, Exception>
  {
    match gen(rng, size)
    case Err(e) => Err(e)
    case Ok(d) => Ok(Drawn(Map(d.tree, f), d.rng))
  }

  /** `fmap(f, gen)`: the generated tree with `f` applied at every node. */
  function Fmap<T, U>(f: T -> U, gen: Gen<T>): Gen<U>
  {
    (rng: Rng, size: int) => FmapRun(f, gen, rng, size)
  }

  /** `fmap` draws exactly what `gen` draws, fails exactly when it does, and
      its tree has the same shape with `f` applied to every value. */
  lemma FmapSpec<T, U>(f: T -> U, gen: Gen<T>, rng: Rng, size: int)
    ensures Fmap(f, gen)(rng, size).Ok? <==> gen(rng, size).Ok?
    ensures gen(rng, size).Err? ==> Fmap(f, gen)(rng, size) == Err(gen(rng, size).error)
    ensures gen(rng, size).Ok? ==>
              var d := gen(rng, size).value;
              var r := Fmap(f, gen)(rng, size).value;
              && r.rng == d.rng
              && r.tree.root == f(d.tree.root)
              && |r.tree.children| == |d.tree.children|
              && forall i :: 0 <= i < |d.tree.children| ==> r.tree.children[i] == Map(d.tree.children[i], f)
  {
    if gen(rng, size).Ok? {
      MapShape(gen(rng, size).value.tree, f);
    }
  }

  /** `fmap` carries a guarantee on the values through `f`. */
  lemma FmapAlways<T, U>(f: T -> U, gen: Gen<T>, size: int, q: T -> bool, p: U -> bool)
    requires Always(gen, size, q)
    requires forall x :: q(x) ==> p(f(x))
    ensures Always(Fmap(f, gen), size, p)
  {
    forall rng: Rng | Fmap(f, gen)(rng, size).Ok?
      ensures AllNodes(Fmap(f, gen)(rng, size).value.tree, p)
    {
      MapPreserves(gen(rng, size).value.tree, f, q, p);
    }
  }

  /** Functor composition, on generators. */
  lemma FmapCompose<T, U, V>(f: T -> U, h: U -> V, gen: Gen<T>, rng: Rng, size: int)
    ensures Fmap(h, Fmap(f, gen))(rng, size) == Fmap(x => h(f(x)), gen)(rng, size)
  {
    if gen(rng, size).Ok? {
      MapCompose(gen(rng, size).value.tree, f, h);
    }
  }

  /** `constantly(x)`: a leaf holding `x`; draws nothing. */
  function Constantly<T>(x: T): Gen<T>
  {
    (rng: Rng, size: int) => Ok(Drawn(Leaf(x), rng))
  }

  // ---------------------------------------------------------------------------
  // char

  /** A UTF-16 code unit; JavaScript strings are sequences of these. */
  newtype CodeUnit = x: int | 0 <= x < 0x1_0000

  type JsString = seq<CodeUnit>

  /** `String.fromCharCode(n)`: the one-unit string of `n` modulo 2^16. */
  function FromCharCode(n: int): JsString
  {
    [(n % 0x1_0000) as CodeUnit]
  }

  /** Printable ASCII: codes 32 to 126. */
  predicate IsPrintable(c: CodeUnit)
  {
    32 <= c <= 126
  }

  predicate IsPrintableChar(s: JsString)
  {
    |s| == 1 && IsPrintable(s[0])
  }

  /** `char`: `choose(32, 126)` mapped through `String.fromCharCode`. */
  function Char(rng: Rng, size: int): Result<Drawn<JsString>, Exception>
  {
    Fmap(FromCharCode, Choose(32, 126, None))(rng, size)
  }

  /** `char` yields one printable ASCII character and shrinks only to such
      characters, whatever the size. */
  lemma CharSpec(size: int)
    ensures Always(Char, size, IsPrintableChar)
  {
    ChooseAlways(32, 126, None, size);
    FmapAlways(FromCharCode, Choose(32, 126, None), size, InRange(32, 126), IsPrintableChar);
    forall rng: Rng
      ensures Char(rng, size) == Fmap(FromCharCode, Choose(32, 126, None))(rng, size)
    {
    }
  }

  // ---------------------------------------------------------------------------
  // arrayOf and tuple

  /** Element trees drawn one after another, and the source after them. */
  datatype DrawnList<T> = DrawnList(trees: seq<RoseTree<T>>, rng: Rng)

  /** Put `ts` in front of the trees of a successful draw. */
  function Prepend<T>(ts: seq<RoseTree<T>>, r: Result<DrawnList<T>, Exception>): Result<DrawnList<T>, Exception>
  {
    match r
    case Err(e) => Err(e)
    case Ok(dl) => Ok(DrawnList(ts + dl.trees, dl.rng))
  }

  /** `count` trees from `gen`, in draw order; the first failure aborts. */
  function DrawMany<T>(gen: Gen<T>, rng: Rng, size: int, count: nat): (r: Result<DrawnList<T>, Exception>)
    ensures r.Ok? ==> |r.value.trees| == count
    decreases count
  {
    if count == 0 then Ok(DrawnList([], rng))
    else
      match gen(rng, size)
      case Err(e) => Err(e)
      case Ok(d) => Prepend([d.tree], DrawMany(gen, d.rng, size, count - 1))
  }

  /** One tree from each of `gens`, in order; the first failure aborts. */
  function DrawEach<T>(gens: seq<Gen<T>>, rng: Rng, size: int): (r: Result<DrawnList<T>, Exception>)
    ensures r.Ok? ==> |r.value.trees| == |gens|
  {
    if gens == [] then Ok(DrawnList([], rng))
    else
      match gens[0](rng, size)
      case Err(e) => Err(e)
      case Ok(d) => Prepend([d.tree], DrawEach(gens[1..], d.rng, size))
  }

  lemma PrependNil<T>(r: Result<DrawnList<T>, Exception>)
    ensures Prepend([], r) == r
  {
    if r.Ok? {
      assert [] + r.value.trees == r.value.trees;
    }
  }

  lemma PrependAssoc<T>(a: seq<RoseTree<T>>, b: seq<RoseTree<T>>, r: Result<DrawnList<T>, Exception>)
    ensures Prepend(a, Prepend(b, r)) == Prepend(a + b, r)
  {
    if r.Ok? {
      assert a + (b + r.value.trees) == (a + b) + r.value.trees;
    }
  }

  /** The `for` loop of `arrayOf` as written: `elemTrees[i] = elemGen(rng, size)`. */
  method DrawManyLoop<T>(gen: Gen<T>, rng: Rng, size: int, len: nat) returns (r: Result<DrawnList<T>, Exception>)
    ensures r == DrawMany(gen, rng, size, len)
  {
    var elemTrees: seq<RoseTree<T>> := [];
    var cur := rng;
    var i := 0;
    PrependNil(DrawMany(gen, rng, size, len));
    while i < len
      invariant 0 <= i <= len && |elemTrees| == i
      invariant DrawMany(gen, rng, size, len) == Prepend(elemTrees, DrawMany(gen, cur, size, len - i))
    {
      var d := gen(cur, size);
      if d.Err? {
        return Err(d.error);
      }
      PrependAssoc(elemTrees, [d.value.tree], DrawMany(gen, d.value.rng, size, len - i - 1));
      elemTrees := elemTrees + [d.value.tree];
      cur := d.value.rng;
      i := i + 1;
    }
    assert elemTrees + [] == elemTrees;
    r := Ok(DrawnList(elemTrees, cur));
  }

  /** The `for` loop of `tuple` as written: `elemTrees[i] = gens[i](rng, size)`. */
  method DrawEachLoop<T>(gens: seq<Gen<T>>, rng: Rng, size: int) returns (r: Result<DrawnList<T>, Exception>)
    ensures r == DrawEach(gens, rng, size)
  {
    var elemTrees: seq<RoseTree<T>> := [];
    var cur := rng;
    var i := 0;
    PrependNil(DrawEach(gens, rng, size));
    while i < |gens|
      invariant 0 <= i <= |gens| && |elemTrees| == i
      invariant DrawEach(gens, rng, size) == Prepend(elemTrees, DrawEach(gens[i..], cur, size))
    {
      var d := gens[i](cur, size);
      if d.Err? {
        return Err(d.error);
      }
      assert gens[i..][1..] == gens[i + 1..];
      PrependAssoc(elemTrees, [d.value.tree], DrawEach(gens[i + 1..], d.value.rng, size));
      elemTrees := elemTrees + [d.value.tree];
      cur := d.value.rng;
      i := i + 1;
    }
    assert elemTrees + [] == elemTrees;
    r := Ok(DrawnList(elemTrees, cur));
  }

  /** Every tree drawn from a generator that always satisfies `p` does. */
  lemma {:induction false} DrawManyAlways<T>(gen: Gen<T>, rng: Rng, size: int, count: nat, p: T -> bool)
    requires Always(gen, size, p)
    ensures DrawMany(gen, rng, size, count).Ok? ==>
              forall i :: 0 <= i < count ==> AllNodes(DrawMany(gen, rng, size, count).value.trees[i], p)
    decreases count
  {
    if count > 0 && gen(rng, size).Ok? {
      DrawManyAlways(gen, gen(rng, size).value.rng, size, count - 1, p);
    }
  }

  /** Tree `i` drawn by `DrawEach` comes from `gens[i]`. */
  lemma {:induction false} DrawEachAlways<T>(gens: seq<Gen<T>>, rng: Rng, size: int, ps: seq<T -> bool>)
    requires |ps| == |gens|
    requires forall i :: 0 <= i < |gens| ==> Always(gens[i], size, ps[i])
    ensures DrawEach(gens, rng, size).Ok? ==>
              forall i :: 0 <= i < |gens| ==> AllNodes(DrawEach(gens, rng, size).value.trees[i], ps[i])
  {
    if gens != [] && gens[0](rng, size).Ok? {
      DrawEachAlways(gens[1..], gens[0](rng, size).value.rng, size, ps[1..]);
    }
  }

  function ArrayOfRun<T>(elemGen: Gen<T>, rng: Rng, size: int): Result<Drawn<seq<T>>, Exception>
  {
    match NonNegative(rng, size)
    case Err(e) => Err(e)
    case Ok(lenDraw) =>
      var len := lenDraw.tree.root;
      if len < 0 then Err(OtherException("RangeError", "Invalid array length"))
      else
        match DrawMany(elemGen, lenDraw.rng, size, len)
        case Err(e) => Err(e)
        case Ok(dl) => Ok(Drawn(XtreesToArray(dl.trees, true), dl.rng))
  }

  /** `arrayOf(elemGen)`: a length from `int.nonNegative`, then that many
      elements; shrinks by `shrink.array(elemTrees, true)`. */
  function ArrayOf<T>(elemGen: Gen<T>): Gen<seq<T>>
  {
    (rng: Rng, size: int) => ArrayOfRun(elemGen, rng, size)
  }

  /** For a non-negative size, every array in an `arrayOf` tree has at most
      `size` elements, and its elements keep every guarantee of `elemGen`. */
  lemma ArrayOfSpec<T>(elemGen: Gen<T>, size: int, p: T -> bool)
    requires size >= 0
    requires Always(elemGen, size, p)
    ensures Always(ArrayOf(elemGen), size, LengthAtMost(size))
    ensures Always(ArrayOf(elemGen), size, Every(p))
  {
    forall rng: Rng | ArrayOf(elemGen)(rng, size).Ok?
      ensures AllNodes(ArrayOf(elemGen)(rng, size).value.tree, LengthAtMost(size))
      ensures AllNodes(ArrayOf(elemGen)(rng, size).value.tree, Every(p))
    {
      ChooseSpec(0, size, None, rng, size);
      var lenDraw := NonNegative(rng, size).value;
      var len := lenDraw.tree.root;
      var dl := DrawMany(elemGen, lenDraw.rng, size, len).value;
      assert ArrayOf(elemGen)(rng, size).value.tree == XtreesToArray(dl.trees, true);
      ArrayTreeLength(dl.trees, true);
      AllNodesWeaken(XtreesToArray(dl.trees, true), LengthAtMost(len), LengthAtMost(size));
      DrawManyAlways(elemGen, lenDraw.rng, size, len, p);
      ArrayTreeElements(dl.trees, true, p);
    }
  }

  function TupleRun<T>(gens: seq<Gen<T>>, rng: Rng, size: int): Result<Drawn<seq<T>>, Exception>
  {
    match DrawEach(gens, rng, size)
    case Err(e) => Err(e)
    case Ok(dl) => Ok(Drawn(XtreesToArray(dl.trees, false), dl.rng))
  }

  /** `tuple(gens)`: element `i` from `gens[i]`; shrinks by
      `shrink.array(elemTrees, false)`, which never removes an element. */
  function Tuple<T>(gens: seq<Gen<T>>): Gen<seq<T>>
  {
    (rng: Rng, size: int) => TupleRun(gens, rng, size)
  }

  /** Every array in a `tuple` tree has `|gens|` elements and element `i`
      keeps every guarantee of `gens[i]`. */
  lemma TupleSpec<T>(gens: seq<Gen<T>>, size: int, ps: seq<T -> bool>)
    requires |ps| == |gens|
    requires forall i :: 0 <= i < |gens| ==> Always(gens[i], size, ps[i])
    ensures Always(Tuple(gens), size, Positionwise(ps))
  {
    forall rng: Rng | Tuple(gens)(rng, size).Ok?
      ensures AllNodes(Tuple(gens)(rng, size).value.tree, Positionwise(ps))
    {
      var dl := DrawEach(gens, rng, size).value;
      DrawEachAlways(gens, rng, size, ps);
      ArrayTreePositions(dl.trees, ps);
    }
  }

  // ---------------------------------------------------------------------------
  // string

  /** `chars.join('')`. */
  function Concat(chars: seq<JsString>): JsString
  {
    if chars == [] then [] else chars[0] + Concat(chars[1..])
  }

  /** Strings of at most `n` printable ASCII characters. */
  function PrintableUpTo(n: int): JsString -> bool
  {
    s => |s| <= n && forall i :: 0 <= i < |s| ==> IsPrintable(s[i])
  }

  lemma {:induction false} ConcatPrintable(chars: seq<JsString>)
    requires forall i :: 0 <= i < |chars| ==> IsPrintableChar(chars[i])
    ensures |Concat(chars)| == |chars|
    ensures forall i :: 0 <= i < |Concat(chars)| ==> IsPrintable(Concat(chars)[i])
  {
    if chars != [] {
      ConcatPrintable(chars[1..]);
    }
  }

  /** `string`: `arrayOf(char)` joined into one string. */
  function String(rng: Rng, size: int): Result<Drawn<JsString>, Exception>
  {
    Fmap(Concat, ArrayOf(Char))(rng, size)
  }

  /** For a non-negative size, every string in a `string` tree has at most
      `size` characters, all printable ASCII. */
  lemma StringSpec(size: int)
    requires size >= 0
    ensures Always(String, size, PrintableUpTo(size))
  {
    CharSpec(size);
    ArrayOfSpec(Char, size, IsPrintableChar);
    var q := And(LengthAtMost<JsString>(size), Every(IsPrintableChar));
    forall rng: Rng | ArrayOf(Char)(rng, size).Ok?
      ensures AllNodes(ArrayOf(Char)(rng, size).value.tree, q)
    {
      AllNodesBoth(ArrayOf(Char)(rng, size).value.tree, LengthAtMost<JsString>(size), Every(IsPrintableChar));
    }
    forall x | q(x)
      ensures PrintableUpTo(size)(Concat(x))
    {
      ConcatPrintable(x);
    }
    FmapAlways(Concat, ArrayOf(Char), size, q, PrintableUpTo(size));
    forall rng: Rng
      ensures String(rng, size) == Fmap(Concat, ArrayOf(Char))(rng, size)
    {
    }
  }

  // ---------------------------------------------------------------------------
  // bind

  /** Run `k` on every value of `t`, each time from the same source `rng`;
      the first failure aborts. */
  function TraverseTree<T, U>(t: RoseTree<T>, k: T -> Gen<U>, rng: Rng, size: int): (r: Result<RoseTree<RoseTree<U>>, Exception>)
    ensures r.Ok? ==> k(t.root)(rng, size).Ok? && r.value.root == k(t.root)(rng, size).value.tree
    ensures r.Ok? ==> |r.value.children| == |t.children|
    decreases t, 1
  {
    match k(t.root)(rng, size)
    case Err(e) => Err(e)
    case Ok(d) =>
      match TraverseTrees(t.children, k, rng, size)
      case Err(e) => Err(e)
      case Ok(cs) => Ok(Node(d.tree, cs))
  }

  function TraverseTrees<T, U>(ts: seq<RoseTree<T>>, k: T -> Gen<U>, rng: Rng, size: int): (r: Result<seq<RoseTree<RoseTree<U>>>, Exception>)
    ensures r.Ok? ==> |r.value| == |ts|
    decreases ts, 0
  {
    if ts == [] then Ok([])
    else
      match TraverseTree(ts[0], k, rng, size)
      case Err(e) => Err(e)
      case Ok(a) =>
        match TraverseTrees(ts[1..], k, rng, size)
        case Err(e) => Err(e)
        case Ok(rest) => Ok([a] + rest)
  }

  /** Element `i` of a traversal is the traversal of `ts[i]`. */
  lemma {:induction false} TraverseTreesAt<T, U>(ts: seq<RoseTree<T>>, k: T -> Gen<U>, rng: Rng, size: int, i: nat)
    requires TraverseTrees(ts, k, rng, size).Ok? && i < |ts|
    ensures TraverseTree(ts[i], k, rng, size) == Ok(TraverseTrees(ts, k, rng, size).value[i])
    decreases ts
  {
    if i > 0 {
      TraverseTreesAt(ts[1..], k, rng, size, i - 1);
    }
  }

  /** If every value of `t` satisfies `q` and `k` of such a value always
      yields trees satisfying `p`, every tree of the traversal does. */
  lemma {:induction false} TraverseAlways<T, U>(t: RoseTree<T>, k: T -> Gen<U>, rng: Rng, size: int, q: T -> bool, p: U -> bool)
    requires AllNodes(t, q)
    requires forall x :: q(x) ==> Always(k(x), size, p)
    requires TraverseTree(t, k, rng, size).Ok?
    ensures AllNodes(TraverseTree(t, k, rng, size).value, Everywhere(p))
    decreases t
  {
    var r := TraverseTree(t, k, rng, size).value;
    assert Everywhere(p)(r.root);
    forall i | 0 <= i < |r.children|
      ensures AllNodes(r.children[i], Everywhere(p))
    {
      TraverseTreesAt(t.children, k, rng, size, i);
      TraverseAlways(t.children[i], k, rng, size, q, p);
    }
  }

  /** One instance of a guarantee that holds for `k` of every value
      satisfying `q`. */
  lemma KeyedAlways<T, U>(k: T -> Gen<U>, size: int, q: T -> bool, p: U -> bool, x: T)
    requires forall y :: q(y) ==> Always(k(y), size, p)
    requires q(x)
    ensures Always(k(x), size, p)
  {
  }

  function BindRun<T, U>(gen: Gen<T>, k: T -> Gen<U>, rng: Rng, size: int): Result<Drawn<U>, Exception>
  {
    match gen(rng, size)
    case Err(e) => Err(e)
    case Ok(outer) =>
      match k(outer.tree.root)(outer.rng, size)
      case Err(e) => Err(e)
      case Ok(inner) =>
        match TraverseTrees(outer.tree.children, k, inner.rng, size)
        case Err(e) => Err(e)
        case Ok(kids) => Ok(Drawn(Flatten(Node(inner.tree, kids)), inner.rng))
  }

  /** `bind(gen, k)`: draw from `gen`, then from `k` of the drawn value; the
      tree is the `flatmap` of the outer tree, so it first shrinks the outer
      value (regenerating from `k`), then the inner one. */
  function Bind<T, U>(gen: Gen<T>, k: T -> Gen<U>): Gen<U>
  {
    (rng: Rng, size: int) => BindRun(gen, k, rng, size)
  }

  /** The value drawn by `bind` is the one drawn by `k` of the outer value;
      its first shrinks come from the outer tree's children, the rest are
      the inner tree's own children. */
  lemma BindSpec<T, U>(gen: Gen<T>, k: T -> Gen<U>, rng: Rng, size: int)
    ensures gen(rng, size).Err? ==> Bind(gen, k)(rng, size) == Err(gen(rng, size).error)
    ensures Bind(gen, k)(rng, size).Ok? ==>
              var outer := gen(rng, size).value;
              var inner := k(outer.tree.root)(outer.rng, size).value;
              var r := Bind(gen, k)(rng, size).value;
              && gen(rng, size).Ok? && k(outer.tree.root)(outer.rng, size).Ok?
              && r.tree.root == inner.tree.root
              && r.rng == inner.rng
              && |r.tree.children| == |outer.tree.children| + |inner.tree.children|
              && r.tree.children[|outer.tree.children|..] == inner.tree.children
              && forall i :: 0 <= i < |outer.tree.children| ==>
                   && k(outer.tree.children[i].root)(inner.rng, size).Ok?
                   && r.tree.children[i].root == k(outer.tree.children[i].root)(inner.rng, size).value.tree.root
                   && TraverseTree(outer.tree.children[i], k, inner.rng, size).Ok?
                   && r.tree.children[i] == Flatten(TraverseTree(outer.tree.children[i], k, inner.rng, size).value)
  {
    if Bind(gen, k)(rng, size).Ok? {
      var outer := gen(rng, size).value;
      var inner := k(outer.tree.root)(outer.rng, size).value;
      var kids := TraverseTrees(outer.tree.children, k, inner.rng, size).value;
      var r := Bind(gen, k)(rng, size).value;
      assert r.tree == Flatten(Node(inner.tree, kids));
      forall i | 0 <= i < |outer.tree.children|
        ensures k(outer.tree.children[i].root)(inner.rng, size).Ok?
        ensures r.tree.children[i].root == k(outer.tree.children[i].root)(inner.rng, size).value.tree.root
        ensures TraverseTree(outer.tree.children[i], k, inner.rng, size).Ok?
        ensures r.tree.children[i] == Flatten(TraverseTree(outer.tree.children[i], k, inner.rng, size).value)
      {
        TraverseTreesAt(outer.tree.children, k, inner.rng, size, i);
        assert r.tree.children[i] == Flatten(kids[i]);
      }
    }
  }

  /** `bind` keeps a guarantee that `k` gives for every value `gen` can
      produce. */
  lemma BindAlways<T, U>(gen: Gen<T>, k: T -> Gen<U>, size: int, q: T -> bool, p: U -> bool)
    requires Always(gen, size, q)
    requires forall x :: q(x) ==> Always(k(x), size, p)
    ensures Always(Bind(gen, k), size, p)
  {
    forall rng: Rng | Bind(gen, k)(rng, size).Ok?
      ensures AllNodes(Bind(gen, k)(rng, size).value.tree, p)
    {
      var outer := gen(rng, size).value;
      var inner := k(outer.tree.root)(outer.rng, size).value;
      var kids := TraverseTrees(outer.tree.children, k, inner.rng, size).value;
      var n := Node(inner.tree, kids);
      KeyedAlways(k, size, q, p, outer.tree.root);
      assert AllNodes(inner.tree, p);
      forall i | 0 <= i < |kids|
        ensures AllNodes(kids[i], Everywhere(p))
      {
        TraverseTreesAt(outer.tree.children, k, inner.rng, size, i);
        TraverseAlways(outer.tree.children[i], k, inner.rng, size, q, p);
      }
      assert AllNodes(n, Everywhere(p));
      FlattenAllNodes(n, p);
    }
  }

  /** Left identity: binding a constant is running `k` on it. */
  lemma BindConstantly<T, U>(x: T, k: T -> Gen<U>, rng: Rng, size: int)
    ensures Bind(Constantly(x), k)(rng, size) == k(x)(rng, size)
  {
    var outer := Constantly(x)(rng, size).value;
    assert outer.tree == Leaf(x) && outer.rng == rng;
    if k(x)(rng, size).Ok? {
      var inner := k(x)(rng, size).value;
      assert TraverseTrees(outer.tree.children, k, inner.rng, size) == Ok([]);
      assert Flatten(Node(inner.tree, [])).children == [] + inner.tree.children;
      assert Flatten(Node(inner.tree, [])) == inner.tree;
    }
  }

  // ---------------------------------------------------------------------------
  // oneOf, elements and bool

  const OneOfEmptyMessage := "Empty array passed to oneOf"
  const ElementsEmptyMessage := "Empty array passed to elements"

  /** The generator at a drawn index. */
  function Picker<T>(gens: seq<Gen<T>>): int -> Gen<T>
    requires |gens| >= 1
  {
    i => if 0 <= i < |gens| then gens[i] else gens[0]
  }

  /** `oneOf(gens)`: refuses an empty list, returns the only generator of a
      singleton, and otherwise binds a uniformly chosen index to its
      generator (so it shrinks towards the first generator). */
  function OneOf<T>(gens: seq<Gen<T>>): (r: Result<Gen<T>, Exception>)
    ensures r.Err? <==> gens == []
    ensures r.Err? ==> r.error == GentestError(OneOfEmptyMessage)
    ensures |gens| == 1 ==> r == Ok(gens[0])
  {
    if |gens| < 1 then Err(GentestError(OneOfEmptyMessage))
    else if |gens| == 1 then Ok(gens[0])
    else Ok(Bind(Choose(0, |gens| - 1, None), Picker(gens)))
  }

  /** Whatever all the alternatives guarantee, `oneOf` guarantees. */
  lemma OneOfAlways<T>(gens: seq<Gen<T>>, size: int, p: T -> bool)
    requires gens != []
    requires forall i :: 0 <= i < |gens| ==> Always(gens[i], size, p)
    ensures Always(OneOf(gens).value, size, p)
  {
    if |gens| > 1 {
      ChooseAlways(0, |gens| - 1, None, size);
      BindAlways(Choose(0, |gens| - 1, None), Picker(gens), size, InRange(0, |gens| - 1), p);
    }
  }

  /** A value that occurs in `elems`. */
  ghost function MemberOf<T>(elems: seq<T>): T -> bool
  {
    x => exists i :: 0 <= i < |elems| && elems[i] == x
  }

  function Constants<T>(elems: seq<T>): (gens: seq<Gen<T>>)
    ensures |gens| == |elems|
    ensures forall i :: 0 <= i < |elems| ==> gens[i] == Constantly(elems[i])
  {
    if elems == [] then [] else [Constantly(elems[0])] + Constants(elems[1..])
  }

  /** `elements(elems)`: refuses an empty list, otherwise `oneOf` of the
      constant generators of the elements. */
  function Elements<T>(elems: seq<T>): (r: Result<Gen<T>, Exception>)
    ensures r.Err? <==> elems == []
    ensures r.Err? ==> r.error == GentestError(ElementsEmptyMessage)
  {
    if |elems| < 1 then Err(GentestError(ElementsEmptyMessage))
    else OneOf(Constants(elems))
  }

  /** Every value `elements` produces, shrinks included, is one of `elems`. */
  lemma ElementsMembers<T>(elems: seq<T>, size: int)
    requires elems != []
    ensures Always(Elements(elems).value, size, MemberOf(elems))
  {
    var gens := Constants(elems);
    forall i | 0 <= i < |gens|
      ensures Always(gens[i], size, MemberOf(elems))
    {
      forall rng: Rng
        ensures AllNodes(gens[i](rng, size).value.tree, MemberOf(elems))
      {
        assert MemberOf(elems)(elems[i]);
      }
    }
    OneOfAlways(gens, size, MemberOf(elems));
  }

  /** `bool`: `elements([false, true])`. */
  function Bool(rng: Rng, size: int): Result<Drawn<bool>, Exception>
  {
    BindRun(Choose(0, 1, None), Picker(Constants([false, true])), rng, size)
  }

  /** `bool` never fails; `true` shrinks to `false` and `false` does not
      shrink. */
  lemma BoolSpec(rng: Rng, size: int)
    ensures Elements([false, true]).Ok?
    ensures Bool(rng, size) == Elements([false, true]).value(rng, size)
    ensures Bool(rng, size).Ok?
    ensures Bool(rng, size).value.tree.root ==> Bool(rng, size).value.tree.children == [Leaf(false)]
    ensures !Bool(rng, size).value.tree.root ==> Bool(rng, size).value.tree.children == []
  {
    var gens := Constants([false, true]);
    assert gens == [Constantly(false), Constantly(true)];
    var k := Picker(gens);
    assert Bool(rng, size) == Bind(Choose(0, 1, None), k)(rng, size);
    var n := ChooseValue(0, 1, rng.Float());
    ChooseValueRange(0, 1, rng.Float());
    IntTreeZeroOne();
    var outer := Drawn(IntTree(n, 0), rng.Next());
    assert Choose(0, 1, None)(rng, size) == Ok(outer);
    if n == 1 {
      var inner := Drawn(Leaf(true), rng.Next());
      assert k(1)(rng.Next(), size) == Ok(inner);
      TraverseFalseLeaf(k, rng.Next(), size);
      BindRunOk(Choose(0, 1, None), k, rng, size, outer, inner, [Leaf(Leaf(false))]);
      FlattenTrueNode();
    } else {
      var inner := Drawn(Leaf(false), rng.Next());
      assert k(0)(rng.Next(), size) == Ok(inner);
      assert TraverseTrees([], k, rng.Next(), size) == Ok([]);
      BindRunOk(Choose(0, 1, None), k, rng, size, outer, inner, []);
      assert Flatten(Node(Leaf(false), [])) == Leaf(false);
    }
  }

  /** `choose(0, 1)`'s trees: 1 shrinks to 0, and 0 does not shrink. */
  lemma IntTreeZeroOne()
    ensures IntTree(0, 0) == Leaf(0)
    ensures IntTree(1, 0) == Node(1, [Leaf(0)])
  {
    assert IntCandidates(0, 0) == [];
    assert |IntCandidates(1, 0)| == Steps(1) == 1;
    assert IntCandidates(1, 0) == [0];
    assert ShrinkInt(0, 0) == [];
  }

  /** Binding a successful outer draw, inner draw and traversal. */
  lemma BindRunOk<T, U>(gen: Gen<T>, k: T -> Gen<U>, rng: Rng, size: int,
                        outer: Drawn<T>, inner: Drawn<U>, kids: seq<RoseTree<RoseTree<U>>>)
    requires gen(rng, size) == Ok(outer)
    requires k(outer.tree.root)(outer.rng, size) == Ok(inner)
    requires TraverseTrees(outer.tree.children, k, inner.rng, size) == Ok(kids)
    ensures BindRun(gen, k, rng, size) == Ok(Drawn(Flatten(Node(inner.tree, kids)), inner.rng))
  {
  }

  /** Rebinding the shrink `0` of `choose(0, 1)` gives the leaf `false`. */
  lemma TraverseFalseLeaf(k: int -> Gen<bool>, r: Rng, size: int)
    requires k(0) == Constantly(false)
    ensures TraverseTrees([Leaf(0)], k, r, size) == Ok([Leaf(Leaf(false))])
  {
    var ts := [Leaf(0)];
    assert k(0)(r, size) == Ok(Drawn(Leaf(false), r));
    assert TraverseTrees([], k, r, size) == Ok([]);
    assert TraverseTree(ts[0], k, r, size) == Ok(Leaf(Leaf(false)));
    assert TraverseTrees(ts[1..], k, r, size) == Ok([]);
    assert [Leaf(Leaf(false))] + [] == [Leaf(Leaf(false))];
  }

  lemma FlattenTrueNode()
    ensures Flatten(Node(Leaf(true), [Leaf(Leaf(false))])) == Node(true, [Leaf(false)])
  {
    assert Flatten(Leaf(Leaf(false))) == Leaf(false);
  }


  // ---------------------------------------------------------------------------
  // shape

  /** An object template: its keys, in `Object.keys` order, with their
      generators. */
  type Template<T> = seq<(string, Gen<T>)>

  function Keys<T>(template: Template<T>): seq<string>
  {
    seq(|template|, i requires 0 <= i < |template| => template[i].0)
  }

  function Gens<T>(template: Template<T>): seq<Gen<T>>
  {
    seq(|template|, i requires 0 <= i < |template| => template[i].1)
  }

  /** The `forEach` over `Object.keys(obj)` that collects the keys and
      their generators. */
  method TemplateLoop<T>(template: Template<T>) returns (names: seq<string>, gens: seq<Gen<T>>)
    ensures names == Keys(template) && gens == Gens(template)
  {
    names, gens := [], [];
    for i := 0 to |template|
      invariant |names| == |gens| == i
      invariant forall j :: 0 <= j < i ==> names[j] == template[j].0 && gens[j] == template[j].1
    {
      names := names + [template[i].0];
      gens := gens + [template[i].1];
    }
  }

  /** `attributeNames[i]`, which is `undefined` (the key "undefined") past
      the end. */
  function KeyAt(names: seq<string>, i: nat): string
  {
    if i < |names| then names[i] else "undefined"
  }

  /** The object `shapeify` builds: `obj[attributeNames[i]] = tuple[i]` for
      each `i` in turn, so a later equal key overwrites an earlier one. */
  function Shapeify<T>(names: seq<string>, tuple: seq<T>): map<string, T>
    decreases |tuple|
  {
    if tuple == [] then map[]
    else Shapeify(names, tuple[..|tuple| - 1])[KeyAt(names, |tuple| - 1) := tuple[|tuple| - 1]]
  }

  /** The `for` loop of `shapeify` as written. */
  method ShapeifyLoop<T>(names: seq<string>, tuple: seq<T>) returns (obj: map<string, T>)
    ensures obj == Shapeify(names, tuple)
  {
    obj := map[];
    for i := 0 to |tuple|
      invariant obj == Shapeify(names, tuple[..i])
    {
      assert tuple[..i + 1][..i] == tuple[..i];
      obj := obj[KeyAt(names, i) := tuple[i]];
    }
    assert tuple[..|tuple|] == tuple;
  }

  predicate Distinct(names: seq<string>)
  {
    forall i, j :: 0 <= i < j < |names| ==> names[i] != names[j]
  }

  /** With distinct keys and one value per key, the object has exactly the
      keys and key `names[i]` holds `tuple[i]`. */
  lemma {:induction false} ShapeifyFields<T>(names: seq<string>, tuple: seq<T>)
    requires Distinct(names) && |tuple| <= |names|
    ensures Shapeify(names, tuple).Keys == set i | 0 <= i < |tuple| :: names[i]
    ensures forall i :: 0 <= i < |tuple| ==> Shapeify(names, tuple)[names[i]] == tuple[i]
    decreases |tuple|
  {
    if tuple != [] {
      var m := |tuple| - 1;
      ShapeifyFields(names, tuple[..m]);
      assert forall i :: 0 <= i < m ==> tuple[..m][i] == tuple[i];
    }
  }

  /** Objects with exactly the keys `names`, the value under `names[i]`
      satisfying `ps[i]`. */
  ghost function FieldsSatisfy<T>(names: seq<string>, ps: seq<T -> bool>): map<string, T> -> bool
  {
    (obj: map<string, T>) => && obj.Keys == (set i | 0 <= i < |names| :: names[i])
           && forall i :: 0 <= i < |names| && i < |ps| ==> names[i] in obj && ps[i](obj[names[i]])
  }

  lemma ShapeifySatisfies<T>(names: seq<string>, ps: seq<T -> bool>, tuple: seq<T>)
    requires Distinct(names) && |ps| == |names|
    requires Positionwise(ps)(tuple)
    ensures FieldsSatisfy(names, ps)(Shapeify(names, tuple))
  {
    ShapeifyFields(names, tuple);
    var obj := Shapeify(names, tuple);
    assert |tuple| == |names|;
    forall i | 0 <= i < |names| && i < |ps|
      ensures names[i] in obj && ps[i](obj[names[i]])
    {
      assert obj[names[i]] == tuple[i];
    }
  }

  function Shapeifier<T>(names: seq<string>): seq<T> -> map<string, T>
  {
    tuple => Shapeify(names, tuple)
  }

  lemma ShapeifierSatisfies<T>(names: seq<string>, ps: seq<T -> bool>)
    requires Distinct(names) && |ps| == |names|
    ensures forall tuple :: Positionwise(ps)(tuple) ==> FieldsSatisfy(names, ps)(Shapeifier(names)(tuple))
  {
    forall tuple | Positionwise(ps)(tuple)
      ensures FieldsSatisfy(names, ps)(Shapeifier(names)(tuple))
    {
      ShapeifySatisfies(names, ps, tuple);
    }
  }

  /** `shape(obj)`: a tuple of the template's generators, turned into an
      object with the template's keys. */
  function Shape<T>(template: Template<T>): Gen<map<string, T>>
  {
    Fmap(Shapeifier(Keys(template)), Tuple(Gens(template)))
  }

  /** Every object a `shape` tree holds, shrinks included, has exactly the
      template's keys, and the value under each key keeps the guarantee of
      that key's generator. */
  lemma ShapeSpec<T>(template: Template<T>, size: int, ps: seq<T -> bool>)
    requires Distinct(Keys(template)) && |ps| == |template|
    requires forall i :: 0 <= i < |template| ==> Always(template[i].1, size, ps[i])
    ensures Always(Shape(template), size, FieldsSatisfy(Keys(template), ps))
  {
    ShapeOfAlways(Keys(template), Gens(template), size, ps);
  }

  lemma ShapeOfAlways<T>(names: seq<string>, gens: seq<Gen<T>>, size: int, ps: seq<T -> bool>)
    requires Distinct(names) && |ps| == |names| == |gens|
    requires forall i :: 0 <= i < |gens| ==> Always(gens[i], size, ps[i])
    ensures Always(Fmap(Shapeifier(names), Tuple(gens)), size, FieldsSatisfy(names, ps))
  {
    TupleSpec(gens, size, ps);
    ShapeifierSatisfies(names, ps);
    FmapAlways(Shapeifier(names), Tuple(gens), size, Positionwise(ps), FieldsSatisfy(names, ps));
  }

}
