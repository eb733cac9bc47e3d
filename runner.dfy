/** The test runner (lib/Runner.js): categories of properties, the size
    schedule, the name filter, and the loops of `run` that sample each
    property, stop at its first failure and shrink it. */
module Runners {
  import opened Wrappers
  import opened RoseTrees
  import opened Errors
  import opened Types
  import opened Properties

  // ---------------------------------------------------------------------------
  // interpolate

  /** `interpolate(min, max, ratio)`: `floor(ratio * ((max + 0.5) - min) + min)`. */
  function Interpolate(min: int, max: int, ratio: real): int
  {
    (ratio * ((max as real + 0.5) - min as real) + min as real).Floor
  }

  lemma FloorMonotone(x: real, y: real)
    requires x <= y
    ensures x.Floor <= y.Floor
  {
  }

  /** The two ends of the schedule. */
  lemma InterpolateEnds(min: int, max: int)
    ensures Interpolate(min, max, 0.0) == min
    ensures Interpolate(min, max, 1.0) == max
  {
    assert 1.0 * ((max as real + 0.5) - min as real) + min as real == max as real + 0.5;
  }

  /** For a ratio in [0, 1] the result lies in [min, max]. */
  lemma InterpolateRange(min: int, max: int, ratio: real)
    requires min <= max && 0.0 <= ratio <= 1.0
    ensures min <= Interpolate(min, max, ratio) <= max
  {
    var span := (max as real + 0.5) - min as real;
    var y := ratio * span;
    assert 0.0 <= y <= span by {
      assert span > 0.0;
      assert y <= 1.0 * span;
    }
    FloorMonotone(min as real, y + min as real);
    assert y + min as real <= max as real + 0.5;
    FloorMonotone(y + min as real, max as real + 0.5);
  }

  /** The result never decreases as the ratio grows. */
  lemma InterpolateMonotone(min: int, max: int, r1: real, r2: real)
    requires min <= max && r1 <= r2
    ensures Interpolate(min, max, r1) <= Interpolate(min, max, r2)
  {
    var span := (max as real + 0.5) - min as real;
    assert span > 0.0;
    MulNonNegative(r2 - r1, span);
    assert r1 * span <= r2 * span by {
      assert (r2 - r1) * span == r2 * span - r1 * span;
    }
    FloorMonotone(r1 * span + min as real, r2 * span + min as real);
  }

  lemma MulNonNegative(a: real, b: real)
    requires a >= 0.0 && b >= 0.0
    ensures a * b >= 0.0
  {
  }

  /** `a / n` for `0 <= a <= n` lies in [0, 1]. */
  lemma DivAtMostOne(a: real, n: real)
    requires 0.0 <= a <= n && n > 0.0
    ensures 0.0 <= a / n <= 1.0
  {
  }


  /** The size of sample `k` of `numTests`. */
  function SampleSize(maxSize: int, k: int, numTests: int): int
    requires numTests > 0
  {
    Interpolate(1, maxSize, k as real / numTests as real)
  }

  /** Sizes run from 1 to `maxSize`, never decrease, and the last sample has
      size `maxSize`. */
  lemma SampleSizes(maxSize: int, k: int, numTests: int)
    requires 1 <= maxSize && 1 <= k <= numTests
    ensures 1 <= SampleSize(maxSize, k, numTests) <= maxSize
    ensures k < numTests ==> SampleSize(maxSize, k, numTests) <= SampleSize(maxSize, k + 1, numTests)
    ensures SampleSize(maxSize, numTests, numTests) == maxSize
  {
    var n := numTests as real;
    DivAtMostOne(k as real, n);
    InterpolateRange(1, maxSize, k as real / n);
    assert k as real / n <= (k + 1) as real / n by {
      assert (k + 1) as real / n - k as real / n == 1.0 / n;
    }
    InterpolateMonotone(1, maxSize, k as real / n, (k + 1) as real / n);
    assert n / n == 1.0;
    InterpolateEnds(1, maxSize);
  }

  /** The first sample has size 1 exactly when `maxSize <= numTests`; with
      the defaults (50 and 100) it does. */
  lemma FirstSampleSize(maxSize: int, numTests: int)
    requires 1 <= maxSize && 1 <= numTests
    ensures SampleSize(maxSize, 1, numTests) == 1 <==> maxSize <= numTests
  {
    var n := numTests as real;
    var x := (1.0 / n) * ((maxSize as real + 0.5) - 1.0) + 1.0;
    assert x == (maxSize as real - 0.5) / n + 1.0;
    assert 0.0 <= (maxSize as real - 0.5) / n;
    if maxSize <= numTests {
      assert (maxSize as real - 0.5) / n < 1.0 by {
        assert maxSize as real - 0.5 < n;
        assert (maxSize as real - 0.5) / n < n / n;
      }
    } else {
      assert (maxSize as real - 0.5) / n >= 1.0 by {
        assert maxSize as real - 0.5 >= n;
        assert (maxSize as real - 0.5) / n >= n / n;
      }
    }
  }

  // ---------------------------------------------------------------------------
  // Options

  /** The options `run` reads; absent or zero numbers fall back to the
      defaults, and a falsy `grep` disables the filter. */
  datatype Options = Options(numTests: Option<int>, maxSize: Option<int>, grep: Option<string>)

  const DefaultNumTests := 100
  const DefaultMaxSize := 50

  /** `options.numTests || 100`. */
  function NumTests(o: Options): (n: int)
    ensures o.numTests.None? || o.numTests == Some(0) ==> n == DefaultNumTests
    ensures o.numTests.Some? && o.numTests.value != 0 ==> n == o.numTests.value
    ensures n != 0
  {
    if o.numTests.None? || o.numTests.value == 0 then DefaultNumTests else o.numTests.value
  }

  /** `options.maxSize || 50`. */
  function MaxSize(o: Options): (n: int)
    ensures o.maxSize.None? || o.maxSize == Some(0) ==> n == DefaultMaxSize
    ensures o.maxSize.Some? && o.maxSize.value != 0 ==> n == o.maxSize.value
    ensures n != 0
  {
    if o.maxSize.None? || o.maxSize.value == 0 then DefaultMaxSize else o.maxSize.value
  }

  // ---------------------------------------------------------------------------
  // The name filter

  /** `grep` occurs in `name` starting at index `i`. */
  predicate OccursAt(name: string, grep: string, i: int)
  {
    0 <= i && i + |grep| <= |name| && name[i..i + |grep|] == grep
  }

  /** `name.indexOf(grep) !== -1`. */
  predicate Contains(name: string, grep: string)
  {
    exists i :: 0 <= i <= |name| && OccursAt(name, grep, i)
  }

  function NameMatches<A>(grep: string): Property<A> -> bool
  {
    (prop: Property<A>) => Contains(prop.name, grep)
  }

  /** The properties of one category that `run` considers. */
  function Filter<A>(props: seq<Property<A>>, grep: Option<string>): seq<Property<A>>
  {
    if grep.Some? && grep.value != "" then Keep(props, NameMatches(grep.value)) else props
  }

  /** Every kept property matches, and every matching property is kept. */
  lemma {:induction false} KeepExactly<T>(s: seq<T>, p: T -> bool)
    ensures forall i :: 0 <= i < |Keep(s, p)| ==> p(Keep(s, p)[i])
    ensures forall i :: 0 <= i < |s| && p(s[i]) ==> exists j :: 0 <= j < |Keep(s, p)| && Keep(s, p)[j] == s[i]
    ensures |Keep(s, p)| <= |s|
  {
    if s != [] {
      KeepExactly(s[1..], p);
      var rest := Keep(s[1..], p);
      var head := if p(s[0]) then [s[0]] else [];
      assert Keep(s, p) == head + rest;
      forall i | 0 <= i < |s| && p(s[i])
        ensures exists j :: 0 <= j < |Keep(s, p)| && Keep(s, p)[j] == s[i]
      {
        if i == 0 {
          assert Keep(s, p)[0] == s[0];
        } else {
          assert s[i] == s[1..][i - 1];
          var j :| 0 <= j < |rest| && rest[j] == s[i];
          assert Keep(s, p)[|head| + j] == s[i];
        }
      }
    }
  }

  /** Kept elements keep their relative order: one kept before another
      comes from an earlier position. */
  lemma {:induction false} KeepOrder<T>(s: seq<T>, p: T -> bool, j1: nat, j2: nat)
    requires j1 < j2 < |Keep(s, p)|
    ensures exists i1, i2 :: 0 <= i1 < i2 < |s| && s[i1] == Keep(s, p)[j1] && s[i2] == Keep(s, p)[j2]
  {
    var rest := Keep(s[1..], p);
    if p(s[0]) {
      assert Keep(s, p) == [s[0]] + rest;
      if j1 == 0 {
        KeepExactly(s[1..], p);
        KeepFrom(s[1..], p, j2 - 1);
        var i2 :| 0 <= i2 < |s[1..]| && s[1..][i2] == rest[j2 - 1];
        assert s[i2 + 1] == Keep(s, p)[j2];
      } else {
        KeepOrder(s[1..], p, j1 - 1, j2 - 1);
        var i1, i2 :| 0 <= i1 < i2 < |s[1..]| && s[1..][i1] == rest[j1 - 1] && s[1..][i2] == rest[j2 - 1];
        assert s[i1 + 1] == Keep(s, p)[j1] && s[i2 + 1] == Keep(s, p)[j2];
      }
    } else {
      assert Keep(s, p) == rest;
      KeepOrder(s[1..], p, j1, j2);
      var i1, i2 :| 0 <= i1 < i2 < |s[1..]| && s[1..][i1] == rest[j1] && s[1..][i2] == rest[j2];
      assert s[i1 + 1] == Keep(s, p)[j1] && s[i2 + 1] == Keep(s, p)[j2];
    }
  }

  /** Each kept element comes from the input. */
  lemma {:induction false} KeepFrom<T>(s: seq<T>, p: T -> bool, j: nat)
    requires j < |Keep(s, p)|
    ensures exists i :: 0 <= i < |s| && s[i] == Keep(s, p)[j]
  {
    var rest := Keep(s[1..], p);
    if p(s[0]) && j == 0 {
      assert Keep(s, p)[0] == s[0];
    } else {
      var k := if p(s[0]) then j - 1 else j;
      assert Keep(s, p) == (if p(s[0]) then [s[0]] else []) + rest;
      assert Keep(s, p)[j] == rest[k];
      KeepFrom(s[1..], p, k);
      var i :| 0 <= i < |s[1..]| && s[1..][i] == rest[k];
      assert s[i + 1] == Keep(s, p)[j];
    }
  }

  /** With a `grep`, exactly the properties whose name contains it are
      kept; without one, all are. */
  lemma FilterSpec<A>(props: seq<Property<A>>, grep: Option<string>)
    ensures grep.None? || grep == Some("") ==> Filter(props, grep) == props
    ensures grep.Some? ==> forall i :: 0 <= i < |Filter(props, grep)| ==> Contains(Filter(props, grep)[i].name, grep.value)
    ensures grep.Some? ==> forall i :: 0 <= i < |props| && Contains(props[i].name, grep.value) ==>
              exists j :: 0 <= j < |Filter(props, grep)| && Filter(props, grep)[j] == props[i]
  {
    if grep.Some? {
      if grep.value == "" {
        forall i | 0 <= i < |props|
          ensures Contains(props[i].name, grep.value)
        {
          assert OccursAt(props[i].name, "", 0);
        }
      } else {
        KeepExactly(props, NameMatches(grep.value));
        forall i | 0 <= i < |props| && Contains(props[i].name, grep.value)
          ensures exists j :: 0 <= j < |Filter(props, grep)| && Filter(props, grep)[j] == props[i]
        {
          var kept := Keep(props, NameMatches(grep.value));
          assert Filter(props, grep) == kept;
          assert NameMatches(grep.value)(props[i]);
          var j :| 0 <= j < |kept| && kept[j] == props[i];
          assert Filter(props, grep)[j] == props[i];
        }
      }
    }
  }

  // ---------------------------------------------------------------------------
  // Sampling one property

  /** Where sampling one property ended: every sample passed, or sample `k`
      failed on `tree`. */
  datatype Sampled<A> =
    | AllPassed(rng: Rng)
    | FailedAt(k: int, tree: RoseTree<A>, error: Option<Exception>, rng: Rng)

  /** Samples `k` to `numTests`, each at its scheduled size, stopping at the
      first failure; a refused size or a failing generator aborts. */
  function SampleFrom<A>(prop: Property<A>, rng: Rng, k: int, numTests: int, maxSize: int): Result<Sampled<A>, Exception>
    requires 1 <= k && numTests > 0
    decreases numTests - k + 1
  {
    if k > numTests then Ok(AllPassed(rng))
    else
      match GenTest(prop, rng, Number(SampleSize(maxSize, k, numTests) as real))
      case Err(e) => Err(e)
      case Ok(d) =>
        var result := RunTest(prop, d.tree);
        if !result.success then Ok(FailedAt(k, d.tree, result.error, d.rng))
        else SampleFrom(prop, d.rng, k + 1, numTests, maxSize)
  }

  /** A failure is reported for a failing tree, at a sample number in range,
      with the error of its own run. */
  lemma {:induction false} SampleFailure<A>(prop: Property<A>, rng: Rng, k: int, numTests: int, maxSize: int)
    requires 1 <= k && numTests > 0
    ensures var r := SampleFrom(prop, rng, k, numTests, maxSize);
            r.Ok? && r.value.FailedAt? ==>
              && k <= r.value.k <= numTests
              && Fails(prop, r.value.tree)
              && r.value.error == RunTest(prop, r.value.tree).error
    decreases numTests - k + 1
  {
    if k <= numTests {
      var d := GenTest(prop, rng, Number(SampleSize(maxSize, k, numTests) as real));
      if d.Ok? && RunTest(prop, d.value.tree).success {
        SampleFailure(prop, d.value.rng, k + 1, numTests, maxSize);
      }
    }
  }

  /** With a positive `maxSize` every scheduled size is accepted, so only
      the generator itself can abort sampling. */
  lemma {:induction false} SampleSizesAccepted<A>(prop: Property<A>, rng: Rng, k: int, numTests: int, maxSize: int)
    requires 1 <= k && numTests > 0 && 1 <= maxSize < TwoTo31
    requires forall r: Rng, size: int :: 1 <= size <= maxSize ==> prop.gen(r, size).Ok?
    ensures SampleFrom(prop, rng, k, numTests, maxSize).Ok?
    decreases numTests - k + 1
  {
    if k <= numTests {
      var size := SampleSize(maxSize, k, numTests);
      SampleSizes(maxSize, k, numTests);
      GenTestIntegral(prop, rng, size);
      var d := GenTest(prop, rng, Number(size as real));
      if RunTest(prop, d.value.tree).success {
        SampleSizesAccepted(prop, d.value.rng, k + 1, numTests, maxSize);
      }
    }
  }

  /** The sample loop of `run` as written (`for (k = 1; k <= numTests; k++)`
      with a `break` on the first failure); `runs` counts the tests run. */
  method SampleLoop<A>(prop: Property<A>, rng: Rng, numTests: int, maxSize: int) returns (r: Result<Sampled<A>, Exception>, runs: nat)
    requires numTests > 0
    ensures r == SampleFrom(prop, rng, 1, numTests, maxSize)
    ensures r.Ok? && r.value.AllPassed? ==> runs == numTests
    ensures r.Ok? && r.value.FailedAt? ==> runs == r.value.k
  {
    var cur := rng;
    var k := 1;
    runs := 0;
    while k <= numTests
      invariant 1 <= k <= numTests + 1 && runs == k - 1
      invariant SampleFrom(prop, rng, 1, numTests, maxSize) == SampleFrom(prop, cur, k, numTests, maxSize)
      decreases numTests - k + 1
    {
      var size := SampleSize(maxSize, k, numTests);
      var d := GenTest(prop, cur, Number(size as real));
      if d.Err? {
        return Err(d.error), runs;
      }
      runs := runs + 1;
      var result := RunTest(prop, d.value.tree);
      if !result.success {
        return Ok(FailedAt(k, d.value.tree, result.error, d.value.rng)), runs;
      }
      cur := d.value.rng;
      k := k + 1;
    }
    r := Ok(AllPassed(cur));
  }

  // ---------------------------------------------------------------------------
  // Shrinking one failure

  /** The shrink loop of `run`: drive the search to its end, counting every
      attempt and every attempt that still failed. */
  method ShrinkLoop<A>(prop: Property<A>, testCaseTree: RoseTree<A>) returns (failingCase: A, numShrinks: nat, numAttempts: nat)
    ensures failingCase == Search(prop, testCaseTree, 0).root
    ensures numShrinks <= numAttempts
    ensures Fails(prop, testCaseTree) ==> FailsOn(prop, failingCase)
  {
    var iter := new ShrinkSearch(prop, testCaseTree);
    numAttempts, numShrinks := 0, 0;
    failingCase := testCaseTree.root;
    while true
      invariant iter.Valid() && iter.HoldsFailing(testCaseTree)
      invariant iter.prop == prop && iter.target == Search(prop, testCaseTree, 0)
      invariant failingCase == iter.node.root
      invariant numShrinks <= numAttempts
      decreases iter.Remaining()
    {
      var ret := iter.Next(testCaseTree);
      if ret.Done? {
        break;
      }
      numAttempts := numAttempts + 1;
      if !ret.result.success {
        numShrinks := numShrinks + 1;
        failingCase := ret.testArgs;
      }
    }
    if Fails(prop, testCaseTree) {
      SearchFails(prop, testCaseTree, 0);
    }
  }

  // ---------------------------------------------------------------------------
  // The runner

  /** A category: an optional name and its properties, in registration
      order. */
  datatype Category<!A> = Category(name: Option<string>, props: seq<Property<A>>)

  /** What `run` reports about one property. */
  datatype PropReport<A> = PropReport(
    name: string,
    success: bool,
    runs: nat,
    failingCase: Option<A>,
    error: Option<Exception>,
    numShrinks: nat,
    numAttempts: nat)

  /** The totals `run` reports, with the per-property reports in run order. */
  datatype RunReport<A> = RunReport(reports: seq<PropReport<A>>, propsRun: nat, propsFailed: nat)

  /** Every property registered, category by category. */
  function AllProps<A>(cats: seq<Category<A>>): seq<Property<A>>
  {
    if cats == [] then [] else AllProps(cats[..|cats| - 1]) + cats[|cats| - 1].props
  }

  /** The properties `run` runs, in order: each category filtered by name. */
  function Selected<A>(cats: seq<Category<A>>, grep: Option<string>): seq<Property<A>>
  {
    if cats == [] then [] else Selected(cats[..|cats| - 1], grep) + Filter(cats[|cats| - 1].props, grep)
  }

  function CountFailed<A>(reports: seq<PropReport<A>>): (n: nat)
    ensures n <= |reports|
  {
    if reports == [] then 0
    else CountFailed(reports[..|reports| - 1]) + (if reports[|reports| - 1].success then 0 else 1)
  }

  /** What a report says of its property: a pass ran every sample; a failure
      ran up to the failing sample, and its case fails. */
  ghost predicate Describes<A>(prop: Property<A>, rep: PropReport<A>, numTests: int)
  {
    && rep.name == prop.name
    && (rep.success ==> rep.runs == (if numTests < 0 then 0 else numTests) && rep.failingCase.None?)
    && (!rep.success ==>
          && 1 <= rep.runs <= numTests
          && rep.failingCase.Some? && FailsOn(prop, rep.failingCase.value)
          && rep.numShrinks <= rep.numAttempts)
  }

  /** What sampling one property ends in: `run` samples only when
      `numTests` is positive, and otherwise the property passes. */
  function Outcome<A>(prop: Property<A>, rng: Rng, numTests: int, maxSize: int): Result<Sampled<A>, Exception>
  {
    if numTests <= 0 then Ok(AllPassed(rng)) else SampleFrom(prop, rng, 1, numTests, maxSize)
  }

  /** The outcomes of several properties and the random source after them. */
  datatype SampledAll<A> = SampledAll(outcomes: seq<Sampled<A>>, rng: Rng)

  /** Properties sampled one after another from one random source, each
      starting where the previous one left it; the first error aborts. */
  function Outcomes<A>(props: seq<Property<A>>, rng: Rng, numTests: int, maxSize: int): (r: Result<SampledAll<A>, Exception>)
    ensures r.Ok? ==> |r.value.outcomes| == |props|
    decreases |props|
  {
    if props == [] then Ok(SampledAll([], rng))
    else
      match Outcome(props[0], rng, numTests, maxSize)
      case Err(e) => Err(e)
      case Ok(s) => Glue([s], Outcomes(props[1..], s.rng, numTests, maxSize))
  }

  /** The outcomes already known in front of the rest; an error stays an
      error. */
  function Glue<A>(done: seq<Sampled<A>>, r: Result<SampledAll<A>, Exception>): Result<SampledAll<A>, Exception>
  {
    if r.Ok? then Ok(SampledAll(done + r.value.outcomes, r.value.rng)) else r
  }

  lemma GlueNothing<A>(r: Result<SampledAll<A>, Exception>)
    ensures Glue([], r) == r
  {
    if r.Ok? {
      assert [] + r.value.outcomes == r.value.outcomes;
    }
  }

  lemma GlueGlue<A>(a: seq<Sampled<A>>, b: seq<Sampled<A>>, r: Result<SampledAll<A>, Exception>)
    ensures Glue(a, Glue(b, r)) == Glue(a + b, r)
  {
    if r.Ok? {
      assert a + (b + r.value.outcomes) == (a + b) + r.value.outcomes;
    }
  }

  /** Sampling `p + q` is sampling `p` and then, from where it left the
      random source, `q`. */
  lemma {:induction false} OutcomesAppend<A>(p: seq<Property<A>>, q: seq<Property<A>>, rng: Rng, numTests: int, maxSize: int)
    ensures var o := Outcomes(p, rng, numTests, maxSize);
            Outcomes(p + q, rng, numTests, maxSize) ==
              if o.Err? then Err(o.error) else Glue(o.value.outcomes, Outcomes(q, o.value.rng, numTests, maxSize))
    decreases |p|
  {
    if p == [] {
      assert p + q == q;
      GlueNothing(Outcomes(q, rng, numTests, maxSize));
    } else {
      assert (p + q)[0] == p[0];
      assert (p + q)[1..] == p[1..] + q;
      var first := Outcome(p[0], rng, numTests, maxSize);
      if first.Ok? {
        var s := first.value;
        OutcomesAppend(p[1..], q, s.rng, numTests, maxSize);
        var rest := Outcomes(p[1..], s.rng, numTests, maxSize);
        if rest.Ok? {
          GlueGlue([s], rest.value.outcomes, Outcomes(q, rest.value.rng, numTests, maxSize));
        }
      }
    }
  }

  /** One round of the loop over properties: sampling property `j` moves its
      outcome from the rest to the outcomes known so far. */
  lemma OutcomesStep<A>(props: seq<Property<A>>, j: nat, rng: Rng, numTests: int, maxSize: int, done: seq<Sampled<A>>)
    requires j < |props|
    ensures var first := Outcome(props[j], rng, numTests, maxSize);
            Glue(done, Outcomes(props[j..], rng, numTests, maxSize)) ==
              if first.Err? then Err(first.error)
              else Glue(done + [first.value], Outcomes(props[j + 1..], first.value.rng, numTests, maxSize))
  {
    assert props[j..][0] == props[j];
    assert props[j..][1..] == props[j + 1..];
    var first := Outcome(props[j], rng, numTests, maxSize);
    if first.Ok? {
      GlueGlue(done, [first.value], Outcomes(props[j + 1..], first.value.rng, numTests, maxSize));
    }
  }

  /** What a report says of how sampling its property ended: it passed
      exactly when every sample passed, and a failure carries the sample
      number, the recorded error and the case the shrink search ends on. */
  ghost predicate Reports<A>(prop: Property<A>, rep: PropReport<A>, s: Sampled<A>, numTests: int)
  {
    && rep.name == prop.name
    && rep.success == s.AllPassed?
    && (s.AllPassed? ==> rep.runs == (if numTests < 0 then 0 else numTests) && rep.failingCase.None? && rep.error.None?)
    && (s.FailedAt? ==>
          && rep.runs == s.k && rep.error == s.error
          && rep.failingCase == Some(Search(prop, s.tree, 0).root)
          && rep.numShrinks <= rep.numAttempts)
  }

  /** Reports, position by position, of properties and their outcomes. */
  ghost predicate ReportsAll<A>(props: seq<Property<A>>, reports: seq<PropReport<A>>, outs: seq<Sampled<A>>, numTests: int)
  {
    && |reports| == |props| && |outs| == |props|
    && forall x :: 0 <= x < |props| ==>
         Reports(props[x], reports[x], outs[x], numTests) && Describes(props[x], reports[x], numTests)
  }

  lemma ReportsAllAppend<A>(props: seq<Property<A>>, reports: seq<PropReport<A>>, outs: seq<Sampled<A>>,
                            props2: seq<Property<A>>, reports2: seq<PropReport<A>>, outs2: seq<Sampled<A>>, numTests: int)
    requires ReportsAll(props, reports, outs, numTests) && ReportsAll(props2, reports2, outs2, numTests)
    ensures ReportsAll(props + props2, reports + reports2, outs + outs2, numTests)
  {
    var n := |props|;
    forall x | 0 <= x < |props + props2|
      ensures Reports((props + props2)[x], (reports + reports2)[x], (outs + outs2)[x], numTests)
      ensures Describes((props + props2)[x], (reports + reports2)[x], numTests)
    {
      if x >= n {
        assert (props + props2)[x] == props2[x - n];
        assert (reports + reports2)[x] == reports2[x - n];
        assert (outs + outs2)[x] == outs2[x - n];
      }
    }
  }

  /** A property's report and the random source after it. */
  datatype Ran<A> = Ran(report: PropReport<A>, rng: Rng)

  /** The body of `run`'s loop over properties: sample, and shrink a
      failure. */
  method RunProp<A>(prop: Property<A>, rng: Rng, numTests: int, maxSize: int) returns (r: Result<Ran<A>, Exception>)
    ensures var o := Outcome(prop, rng, numTests, maxSize);
            && (r.Ok? <==> o.Ok?)
            && (r.Err? ==> r.error == o.error)
            && (r.Ok? ==>
                  && r.value.rng == o.value.rng
                  && Reports(prop, r.value.report, o.value, numTests)
                  && Describes(prop, r.value.report, numTests))
  {
    if numTests <= 0 {
      return Ok(Ran(PropReport(prop.name, true, 0, None, None, 0, 0), rng));
    }
    var sampled, runs := SampleLoop(prop, rng, numTests, maxSize);
    if sampled.Err? {
      return Err(sampled.error);
    }
    SampleFailure(prop, rng, 1, numTests, maxSize);
    if sampled.value.AllPassed? {
      r := Ok(Ran(PropReport(prop.name, true, runs, None, None, 0, 0), sampled.value.rng));
    } else {
      var failingCase, numShrinks, numAttempts := ShrinkLoop(prop, sampled.value.tree);
      r := Ok(Ran(PropReport(prop.name, false, runs, Some(failingCase), sampled.value.error, numShrinks, numAttempts),
                  sampled.value.rng));
    }
  }

  lemma CountFailedAppend<A>(reports: seq<PropReport<A>>, rep: PropReport<A>)
    ensures CountFailed(reports + [rep]) == CountFailed(reports) + (if rep.success then 0 else 1)
  {
    assert (reports + [rep])[..|reports|] == reports;
  }

  /** Counting two runs of reports one after the other adds their counts. */
  lemma {:induction false} CountFailedConcat<A>(a: seq<PropReport<A>>, b: seq<PropReport<A>>)
    ensures CountFailed(a + b) == CountFailed(a) + CountFailed(b)
    decreases |b|
  {
    if b == [] {
      assert a + b == a;
    } else {
      var c := b[..|b| - 1];
      CountFailedConcat(a, c);
      assert a + b == (a + c) + [b[|b| - 1]];
      assert b == c + [b[|b| - 1]];
      CountFailedAppend(a + c, b[|b| - 1]);
      CountFailedAppend(c, b[|b| - 1]);
    }
  }

  /** Reports of a list of properties, `run`'s two counters over them, and
      the random source after them. */
  datatype RanAll<A> = RanAll(reports: seq<PropReport<A>>, propsRun: nat, propsFailed: nat, rng: Rng)

  /** `run`'s loop over the properties of one category, counting as it
      goes; the first thrown error aborts. */
  method RunCategory<A>(props: seq<Property<A>>, rng: Rng, numTests: int, maxSize: int) returns (r: Result<RanAll<A>, Exception>)
    ensures var o := Outcomes(props, rng, numTests, maxSize);
            && (r.Ok? <==> o.Ok?)
            && (r.Err? ==> r.error == o.error)
            && (r.Ok? ==>
                  && r.value.rng == o.value.rng
                  && r.value.propsRun == |props|
                  && r.value.propsFailed == CountFailed(r.value.reports)
                  && ReportsAll(props, r.value.reports, o.value.outcomes, numTests))
  {
    var cur := rng;
    var reports: seq<PropReport<A>> := [];
    ghost var outs: seq<Sampled<A>> := [];
    var propsRun, propsFailed := 0, 0;
    GlueNothing(Outcomes(props, rng, numTests, maxSize));
    for j := 0 to |props|
      invariant propsRun == j
      invariant propsFailed == CountFailed(reports)
      invariant ReportsAll(props[..j], reports, outs, numTests)
      invariant Outcomes(props, rng, numTests, maxSize) == Glue(outs, Outcomes(props[j..], cur, numTests, maxSize))
    {
      OutcomesStep(props, j, cur, numTests, maxSize, outs);
      var ran := RunProp(props[j], cur, numTests, maxSize);
      if ran.Err? {
        return Err(ran.error);
      }
      var rep := ran.value.report;
      ghost var s := Outcome(props[j], cur, numTests, maxSize).value;
      assert props[..j + 1] == props[..j] + [props[j]];
      ReportsAllAppend(props[..j], reports, outs, [props[j]], [rep], [s], numTests);
      cur := ran.value.rng;
      CountFailedAppend(reports, rep);
      reports := reports + [rep];
      outs := outs + [s];
      propsRun := propsRun + 1;
      if !rep.success {
        propsFailed := propsFailed + 1;
      }
    }
    assert props[..|props|] == props;
    assert outs + [] == outs;
    r := Ok(RanAll(reports, propsRun, propsFailed, cur));
  }

  /** How many outcomes are failures. */
  function Failures<A>(outs: seq<Sampled<A>>): (n: nat)
    ensures n <= |outs|
  {
    if outs == [] then 0
    else Failures(outs[..|outs| - 1]) + (if outs[|outs| - 1].FailedAt? then 1 else 0)
  }

  /** Reports that describe their outcomes count exactly the properties
      whose sampling failed. */
  lemma {:induction false} CountFailedIsFailures<A>(props: seq<Property<A>>, reports: seq<PropReport<A>>, outs: seq<Sampled<A>>, numTests: int)
    requires ReportsAll(props, reports, outs, numTests)
    ensures CountFailed(reports) == Failures(outs)
    decreases |props|
  {
    if props != [] {
      var n := |props| - 1;
      assert Reports(props[n], reports[n], outs[n], numTests);
      assert ReportsAll(props[..n], reports[..n], outs[..n], numTests) by {
        forall x | 0 <= x < n
          ensures Reports(props[..n][x], reports[..n][x], outs[..n][x], numTests)
          ensures Describes(props[..n][x], reports[..n][x], numTests)
        {
          assert Reports(props[x], reports[x], outs[x], numTests) && Describes(props[x], reports[x], numTests);
        }
      }
      CountFailedIsFailures(props[..n], reports[..n], outs[..n], numTests);
    }
  }

  /** The properties selected from the first `i` categories come first
      among all those selected. */
  lemma {:induction false} SelectedPrefix<A>(cats: seq<Category<A>>, grep: Option<string>, i: nat)
    requires i <= |cats|
    ensures Selected(cats[..i], grep) <= Selected(cats, grep)
    decreases |cats|
  {
    if i < |cats| {
      var init := cats[..|cats| - 1];
      assert init[..i] == cats[..i];
      SelectedPrefix(init, grep, i);
    } else {
      assert cats[..i] == cats;
    }
  }

  /** The properties selected from one more category. */
  lemma SelectedStep<A>(cats: seq<Category<A>>, grep: Option<string>, i: nat)
    requires i < |cats|
    ensures Selected(cats[..i + 1], grep) == Selected(cats[..i], grep) + Filter(cats[i].props, grep)
  {
    assert cats[..i + 1][..i] == cats[..i];
  }

  /** An error while sampling the first properties is the error of the
      whole list. */
  lemma OutcomesErrPrefix<A>(p: seq<Property<A>>, all: seq<Property<A>>, rng: Rng, numTests: int, maxSize: int, e: Exception)
    requires p <= all
    requires Outcomes(p, rng, numTests, maxSize) == Err(e)
    ensures Outcomes(all, rng, numTests, maxSize) == Err(e)
  {
    assert all == p + all[|p|..];
    OutcomesAppend(p, all[|p|..], rng, numTests, maxSize);
  }

  /** One round of `run`'s loop over categories that does not raise: the
      category's outcomes and reports follow those of the categories
      before it. */
  lemma RunStep<A>(cats: seq<Category<A>>, grep: Option<string>, i: nat, rng: Rng, numTests: int, maxSize: int,
                   reports: seq<PropReport<A>>, outs: seq<Sampled<A>>, cur: Rng,
                   catReports: seq<PropReport<A>>, o: SampledAll<A>)
    requires i < |cats|
    requires ReportsAll(Selected(cats[..i], grep), reports, outs, numTests)
    requires Outcomes(Selected(cats[..i], grep), rng, numTests, maxSize) == Ok(SampledAll(outs, cur))
    requires Outcomes(Filter(cats[i].props, grep), cur, numTests, maxSize) == Ok(o)
    requires ReportsAll(Filter(cats[i].props, grep), catReports, o.outcomes, numTests)
    ensures ReportsAll(Selected(cats[..i + 1], grep), reports + catReports, outs + o.outcomes, numTests)
    ensures Outcomes(Selected(cats[..i + 1], grep), rng, numTests, maxSize) == Ok(SampledAll(outs + o.outcomes, o.rng))
  {
    var before := Selected(cats[..i], grep);
    var catProps := Filter(cats[i].props, grep);
    SelectedStep(cats, grep, i);
    OutcomesAppend(before, catProps, rng, numTests, maxSize);
    ReportsAllAppend(before, reports, outs, catProps, catReports, o.outcomes, numTests);
  }

  /** A round of `run`'s loop over categories that raises: the whole run
      raises the same error. */
  lemma RunAbort<A>(cats: seq<Category<A>>, grep: Option<string>, i: nat, rng: Rng, numTests: int, maxSize: int,
                    outs: seq<Sampled<A>>, cur: Rng, e: Exception)
    requires i < |cats|
    requires Outcomes(Selected(cats[..i], grep), rng, numTests, maxSize) == Ok(SampledAll(outs, cur))
    requires Outcomes(Filter(cats[i].props, grep), cur, numTests, maxSize) == Err(e)
    ensures Outcomes(Selected(cats, grep), rng, numTests, maxSize) == Err(e)
  {
    var before := Selected(cats[..i], grep);
    var catProps := Filter(cats[i].props, grep);
    SelectedStep(cats, grep, i);
    OutcomesAppend(before, catProps, rng, numTests, maxSize);
    assert Outcomes(Selected(cats[..i + 1], grep), rng, numTests, maxSize) == Err(e);
    SelectedPrefix(cats, grep, i + 1);
    OutcomesErrPrefix(Selected(cats[..i + 1], grep), Selected(cats, grep), rng, numTests, maxSize, e);
  }

  class Runner<!A> {
    /** `_categories`; the current category is always the last one. */
    var categories: seq<Category<A>>

    ghost predicate Valid()
      reads this
    {
      |categories| >= 1
    }

    /** `new Runner()`: one nameless, empty category. */
    constructor ()
      ensures Valid()
      ensures categories == [Category(None, [])]
      ensures AllProps(categories) == []
    {
      categories := [Category(None, [])];
    }

    /** `newCategory(name)`: a new empty category, which becomes current. */
    method NewCategory(name: string)
      requires Valid()
      modifies this
      ensures Valid()
      ensures categories == old(categories) + [Category(Some(name), [])]
      ensures AllProps(categories) == old(AllProps(categories))
    {
      categories := categories + [Category(Some(name), [])];
      assert categories[..|categories| - 1] == old(categories);
      assert AllProps(categories) == AllProps(old(categories)) + [];
    }

    /** `newProp(prop)`: append to the current category only. */
    method NewProp(prop: Property<A>)
      requires Valid()
      modifies this
      ensures Valid()
      ensures |categories| == old(|categories|)
      ensures categories[..|categories| - 1] == old(categories[..|categories| - 1])
      ensures var last := old(categories[|categories| - 1]);
              categories[|categories| - 1] == Category(last.name, last.props + [prop])
      ensures AllProps(categories) == old(AllProps(categories)) + [prop]
    {
      var n := |categories| - 1;
      var last := categories[n];
      categories := categories[..n] + [Category(last.name, last.props + [prop])];
      assert categories[..|categories| - 1] == old(categories)[..n];
      assert old(categories)[..|old(categories)| - 1] == old(categories)[..n];
    }

    /** `run(options)` with the random source already seeded: for every
        category and every property that passes the filter, sample until
        the first failure, shrink a failure, and count. One random source
        serves every property in turn. A thrown error (a refused size, a
        generator that gives up) aborts the run. */
    method Run(options: Options, rng: Rng) returns (r: Result<RunReport<A>, Exception>)
      requires Valid()
      ensures var sel := Selected(categories, options.grep);
              var o := Outcomes(sel, rng, NumTests(options), MaxSize(options));
              && (r.Ok? <==> o.Ok?)
              && (r.Err? ==> r.error == o.error)
              && (r.Ok? ==>
                    && r.value.propsRun == |sel|
                    && r.value.propsFailed == CountFailed(r.value.reports) <= r.value.propsRun
                    && r.value.propsFailed == Failures(o.value.outcomes)
                    && ReportsAll(sel, r.value.reports, o.value.outcomes, NumTests(options)))
    {
      var numTests := NumTests(options);
      var maxSize := MaxSize(options);
      ghost var sel := Selected(categories, options.grep);
      var cur := rng;
      var reports: seq<PropReport<A>> := [];
      ghost var outs: seq<Sampled<A>> := [];
      var propsRun, propsFailed := 0, 0;
      assert categories[..0] == [];
      for i := 0 to |categories|
        invariant propsRun == |reports|
        invariant propsFailed == CountFailed(reports)
        invariant ReportsAll(Selected(categories[..i], options.grep), reports, outs, numTests)
        invariant Outcomes(Selected(categories[..i], options.grep), rng, numTests, maxSize) == Ok(SampledAll(outs, cur))
      {
        var catProps := Filter(categories[i].props, options.grep);
        var ran := RunCategory(catProps, cur, numTests, maxSize);
        if ran.Err? {
          RunAbort(categories, options.grep, i, rng, numTests, maxSize, outs, cur, ran.error);
          return Err(ran.error);
        }
        ghost var o := Outcomes(catProps, cur, numTests, maxSize).value;
        RunStep(categories, options.grep, i, rng, numTests, maxSize, reports, outs, cur, ran.value.reports, o);
        CountFailedConcat(reports, ran.value.reports);
        cur := ran.value.rng;
        reports := reports + ran.value.reports;
        outs := outs + o.outcomes;
        propsRun := propsRun + ran.value.propsRun;
        propsFailed := propsFailed + ran.value.propsFailed;
      }
      assert categories[..|categories|] == categories;
      CountFailedIsFailures(sel, reports, outs, numTests);
      r := Ok(RunReport(reports, propsRun, propsFailed));
    }
  }
}
