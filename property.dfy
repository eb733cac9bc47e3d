/** Properties (lib/Property.js): a predicate over generated arguments, its
    name and its generator; running one test case; and the greedy search for
    a smaller failing case. */
module Properties {
  import opened Wrappers
  import opened RoseTrees
  import opened Errors
  import opened Types
  import opened Shrink

  /** What calling the user's function did: it returned a value (of which
      only the truthiness matters here) or it threw. */
  datatype Outcome = Returned(truthy: bool) | Threw(error: Exception)

  /** A property over argument lists of type `A`. */
  datatype Property<!A> = Property(func: A -> Outcome, name: string, gen: Gen<A>)

  /** A constructor argument: a value of the expected JavaScript type, or
      something else. */
  datatype JsArg<X> = OfType(value: X) | OtherType

  const InvalidArgumentsMessage := "Property constructor called with invalid arguments"
  const SizeMessage := "size must be a positive integer"

  /** `new Property(func, name, gen)`: refuses arguments of the wrong types. */
  function MakeProperty<A>(func: JsArg<A -> Outcome>, name: JsArg<string>, gen: JsArg<Gen<A>>): (r: Result<Property<A>, Exception>)
    ensures r.Ok? <==> func.OfType? && name.OfType? && gen.OfType?
    ensures r.Err? ==> r.error == GentestError(InvalidArgumentsMessage)
    ensures r.Ok? ==> r.value.name == name.value && r.value.func == func.value && r.value.gen == gen.value
  {
    if func.OtherType? || name.OtherType? || gen.OtherType? then Err(GentestError(InvalidArgumentsMessage))
    else Ok(Property(func.value, name.value, gen.value))
  }

  // ---------------------------------------------------------------------------
  // genTest

  /** The `size` argument of `genTest`: not a number, a finite number,
      `NaN`, or an infinity. */
  datatype SizeArg = NotNumber | Number(x: real) | NaN | Infinity(negative: bool)

  const TwoTo31: int := 0x8000_0000
  const TwoTo32: int := 0x1_0000_0000

  /** JavaScript's `x | 0` (ToInt32) on a finite number: truncate toward
      zero, then wrap into the signed 32-bit range. */
  function ToInt32(x: real): (n: int)
    ensures -TwoTo31 <= n < TwoTo31
    ensures 0.0 <= x < TwoTo31 as real ==> n == x.Floor
  {
    var t := if x >= 0.0 then x.Floor else -((-x).Floor);
    var m := t % TwoTo32;
    if m >= TwoTo31 then m - TwoTo32 else m
  }

  /** `genTest(rng, size)`: refuses a size that is not a number or is below
      one, and otherwise runs the generator on the size truncated to an
      integer. `NaN` and `+Infinity` are not below one, and `| 0` turns
      them into 0; `-Infinity` is below one. */
  function GenTest<A>(prop: Property<A>, rng: Rng, size: SizeArg): (r: Result<Drawn<A>, Exception>)
    ensures (size.NotNumber? || (size.Number? && size.x < 1.0) || size == Infinity(true)) ==>
              r == Err(GentestError(SizeMessage))
    ensures size.Number? && 1.0 <= size.x ==> r == prop.gen(rng, ToInt32(size.x))
    ensures (size.NaN? || size == Infinity(false)) ==> r == prop.gen(rng, 0)
  {
    match size
    case NotNumber => Err(GentestError(SizeMessage))
    case Number(x) => if x < 1.0 then Err(GentestError(SizeMessage)) else prop.gen(rng, ToInt32(x))
    case NaN => prop.gen(rng, 0)
    case Infinity(negative) => if negative then Err(GentestError(SizeMessage)) else prop.gen(rng, 0)
  }

  /** An integral size in range reaches the generator unchanged. */
  lemma GenTestIntegral<A>(prop: Property<A>, rng: Rng, n: int)
    requires 1 <= n < TwoTo31
    ensures GenTest(prop, rng, Number(n as real)) == prop.gen(rng, n)
  {
    assert (n as real).Floor == n;
  }

  // ---------------------------------------------------------------------------
  // runTest

  /** The object `runTest` returns. */
  datatype TestResult = TestResult(success: bool, error: Option<Exception>)

  /** `runTest(testCase)`: apply the function to the root; a throw counts as
      a failure and is recorded. */
  function RunTest<A>(prop: Property<A>, testCase: RoseTree<A>): (r: TestResult)
    ensures r.success <==> prop.func(testCase.root) == Returned(true)
    ensures r.error.Some? <==> prop.func(testCase.root).Threw?
    ensures r.error.Some? ==> r.error.value == prop.func(testCase.root).error
  {
    match prop.func(testCase.root)
    case Returned(b) => TestResult(b, None)
    case Threw(e) => TestResult(false, Some(e))
  }

  /** The arguments make the property fail: the function returned a falsy
      value or threw. */
  predicate FailsOn<A>(prop: Property<A>, args: A)
  {
    prop.func(args) != Returned(true)
  }

  /** A test case fails when its root does; this is exactly when `runTest`
      reports no success. */
  predicate Fails<A>(prop: Property<A>, t: RoseTree<A>)
    ensures Fails(prop, t) <==> !RunTest(prop, t).success
  {
    FailsOn(prop, t.root)
  }

  /** The outcome of a test depends on the root only, never on the shrinks. */
  lemma RunTestRootOnly<A>(prop: Property<A>, s: RoseTree<A>, t: RoseTree<A>)
    requires s.root == t.root
    ensures RunTest(prop, s) == RunTest(prop, t)
  {
  }

  // ---------------------------------------------------------------------------
  // forAll

  /** Positional `forAll(args, name, func)`: the property over the tuple of
      the argument generators. */
  function ForAll<T>(args: seq<Gen<T>>, name: string, func: seq<T> -> Outcome): (r: Property<seq<T>>)
    ensures r.name == name && r.func == func
    ensures r.gen == Tuple(args)
  {
    Property(func, name, Tuple(args))
  }

  /** Every argument list a `forAll` property is tested on, shrinks
      included, has one argument per generator, argument `i` keeping the
      guarantee of generator `i`. */
  lemma ForAllArguments<T>(args: seq<Gen<T>>, name: string, func: seq<T> -> Outcome, size: int, ps: seq<T -> bool>)
    requires |ps| == |args|
    requires forall i :: 0 <= i < |args| ==> Always(args[i], size, ps[i])
    ensures Always(ForAll(args, name, func).gen, size, Positionwise(ps))
  {
    TupleSpec(args, size, ps);
  }

  // ---------------------------------------------------------------------------
  // The greedy shrink search

  /** The node the search stops at, from `node` with the children before
      index `i` already found to pass. */
  function Search<A>(prop: Property<A>, node: RoseTree<A>, i: nat): (r: RoseTree<A>)
    requires i <= |node.children|
    decreases Potential(node, i)
  {
    if i == |node.children| then node
    else
      var child := node.children[i];
      PotentialDecreases(node, i);
      if Fails(prop, child) then Search(prop, child, 0) else Search(prop, node, i + 1)
  }

  /** Nodes still to be examined, counted with the current node: it
      decreases on every step of the search. */
  function Potential<A>(node: RoseTree<A>, i: nat): nat
    requires i <= |node.children|
  {
    Size(node) + SizeOfAll(node.children[i..])
  }

  lemma PotentialDecreases<A>(node: RoseTree<A>, i: nat)
    requires i < |node.children|
    ensures Potential(node, i + 1) < Potential(node, i)
    ensures Potential(node.children[i], 0) < Potential(node, i)
  {
    var cs := node.children;
    assert cs[i..][1..] == cs[i + 1..];
    assert SizeOfAll(cs[i..]) == Size(cs[i]) + SizeOfAll(cs[i + 1..]);
    assert cs[i].children[0..] == cs[i].children;
    ChildSmaller(node, i);
  }

  /** The search never adopts a passing node: if it starts from a failing
      node, it stops at a failing node. */
  lemma {:induction false} SearchFails<A>(prop: Property<A>, node: RoseTree<A>, i: nat)
    requires i <= |node.children| && Fails(prop, node)
    ensures Fails(prop, Search(prop, node, i))
    decreases Potential(node, i)
  {
    if i < |node.children| {
      PotentialDecreases(node, i);
      if Fails(prop, node.children[i]) {
        SearchFails(prop, node.children[i], 0);
      } else {
        SearchFails(prop, node, i + 1);
      }
    }
  }

  /** Where the search stops, every shrink of the node passes: the reported
      case is a local minimum. */
  lemma {:induction false} SearchMinimal<A>(prop: Property<A>, node: RoseTree<A>, i: nat)
    requires i <= |node.children|
    requires forall j :: 0 <= j < i ==> !Fails(prop, node.children[j])
    ensures forall j :: 0 <= j < |Search(prop, node, i).children| ==> !Fails(prop, Search(prop, node, i).children[j])
    decreases Potential(node, i)
  {
    if i < |node.children| {
      PotentialDecreases(node, i);
      if Fails(prop, node.children[i]) {
        SearchMinimal(prop, node.children[i], 0);
      } else {
        SearchMinimal(prop, node, i + 1);
      }
    }
  }

  /** The search stops at a node of the tree it started in. */
  lemma {:induction false} SearchDescends<A>(prop: Property<A>, node: RoseTree<A>, i: nat)
    requires i <= |node.children|
    ensures Size(Search(prop, node, i)) <= Size(node)
    ensures Search(prop, node, i) == node || Size(Search(prop, node, i)) < Size(node)
    decreases Potential(node, i)
  {
    if i < |node.children| {
      PotentialDecreases(node, i);
      if Fails(prop, node.children[i]) {
        SearchDescends(prop, node.children[i], 0);
        ChildSmaller(node, i);
      } else {
        SearchDescends(prop, node, i + 1);
      }
    }
  }

  /** A leaf, or a node none of whose children fail, is reported as is. */
  lemma SearchNoFailingChild<A>(prop: Property<A>, node: RoseTree<A>)
    requires forall j :: 0 <= j < |node.children| ==> !Fails(prop, node.children[j])
    ensures Search(prop, node, 0) == node
  {
    NoFailingFrom(prop, node, 0);
  }

  lemma {:induction false} NoFailingFrom<A>(prop: Property<A>, node: RoseTree<A>, i: nat)
    requires i <= |node.children|
    requires forall j :: i <= j < |node.children| ==> !Fails(prop, node.children[j])
    ensures Search(prop, node, i) == node
    decreases |node.children| - i
  {
    if i < |node.children| {
      NoFailingFrom(prop, node, i + 1);
    }
  }

  /** What one call of the iterator's `next()` returns. */
  datatype Step<A> = Done | Tried(testArgs: A, result: TestResult)

  /** The iterator `shrinkFailingTest(testCase)` returns: the node being
      explored and the index of its next child to try. */
  class ShrinkSearch<A> {
    var node: RoseTree<A>
    var childIndex: nat
    const prop: Property<A>
    /** Where the search will stop. */
    ghost const target: RoseTree<A>

    ghost predicate Valid()
      reads this
    {
      && childIndex <= |node.children|
      && Search(prop, node, childIndex) == target
      && (forall j :: 0 <= j < childIndex ==> !Fails(prop, node.children[j]))
    }

    /** Every node the search holds, the start aside, failed its test. */
    ghost predicate HoldsFailing(start: RoseTree<A>)
      reads this
    {
      node == start || Fails(prop, node)
    }

    ghost function Remaining(): nat
      reads this
      requires childIndex <= |node.children|
    {
      Potential(node, childIndex)
    }

    /** `prop.shrinkFailingTest(testCase)`. */
    constructor (prop: Property<A>, testCase: RoseTree<A>)
      ensures Valid() && HoldsFailing(testCase)
      ensures this.prop == prop && node == testCase && childIndex == 0
      ensures target == Search(prop, testCase, 0)
    {
      this.prop := prop;
      this.node := testCase;
      this.childIndex := 0;
      this.target := Search(prop, testCase, 0);
    }

    /** `next()`: done once the children of the node are used up; otherwise
        run the next child, descend into it if it fails, and move past it if
        it passes. */
    method Next(ghost start: RoseTree<A>) returns (r: Step<A>)
      requires Valid() && HoldsFailing(start)
      modifies this
      ensures Valid() && HoldsFailing(start)
      ensures r.Done? <==> old(childIndex) >= |old(node).children|
      ensures r.Done? ==> unchanged(this)
      ensures r.Tried? ==>
                var child := old(node).children[old(childIndex)];
                && r.testArgs == child.root
                && r.result == RunTest(prop, child)
                && (!r.result.success ==> node == child && childIndex == 0)
                && (r.result.success ==> node == old(node) && childIndex == old(childIndex) + 1)
      ensures r.Tried? ==> Remaining() < old(Remaining())
      ensures node.root == (if r.Tried? && !r.result.success then r.testArgs else old(node).root)
    {
      if childIndex >= |node.children| {
        return Done;
      }
      var child := node.children[childIndex];
      var result := RunTest(prop, child);
      PotentialDecreases(node, childIndex);
      if !result.success {
        node := child;
        childIndex := 0;
      } else {
        childIndex := childIndex + 1;
      }
      r := Tried(child.root, result);
    }
  }
}
