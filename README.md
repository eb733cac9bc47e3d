# gentest core in Dafny

gentest is a property-based testing library for JavaScript. A *generator* takes a
random source and a size and returns a *rose tree*: the root is the generated value,
and the children are ever smaller shrinks of it. A *property* pairs a predicate with a
generator of its argument list. The *runner* samples each registered property at
growing sizes and stops at the first failing sample. It then walks the failing tree
greedily to find a small counterexample.

This project models that core and proves what it promises:

- `wrappers.dfy` (`Wrappers`): `Option` and `Result`. Every JavaScript `throw` in the
  core becomes an `Err` value.
- `thunk.dfy` (`Thunks`): the memoising `Thunk` class (`lib/Thunk.js`), with its
  `_f`, `_realized` and `_value` fields and a ghost count of calls to `f`.
- `lazy_tree.dfy` (`LazyTrees`): a lazy node, which is a root plus a `Thunk` of
  children (`lib/RoseTree.js` constructor and `children()`).
- `rose_tree.dfy` (`RoseTrees`): rose trees as finite values, with `map`, `flatten`,
  `flatmap` and `filterSubtrees` (`lib/RoseTree.js`). It proves the functor and monad
  laws and what filtering keeps.
- `shrink.dfy` (`Shrink`): `shrink.int` (the halving loop and the recursive tree) and
  `shrink.array` (removal and substitution candidates) from `lib/shrink.js`.
- `types.dfy` (`Types`): the generators and combinators of `lib/types.js`. A
  generator is a function `(Rng, int) -> Result<Drawn<T>, Exception>`. It threads
  an explicit random source instead of mutating a shared one. `Always(g, size, p)`
  says that every tree `g` can return at `size` satisfies `p` at every node, so the
  guarantee also covers every shrink.
- `errors.dfy` (`Errors`): the error kinds and `cleanupStack` (`lib/errors.js`).
- `property.dfy` (`Properties`): the `Property` constructor, `genTest`, `runTest`,
  positional `forAll`, and the `shrinkFailingTest` iterator. The iterator is the
  `ShrinkSearch` class, proved against the recursive search `Search`.
- `runner.dfy` (`Runners`): the `Runner` class (`newCategory`, `newProp`, `run`),
  the size schedule `interpolate`, the grep filter, and the sample and shrink loops
  of `lib/Runner.js`.
- `sample.js` is modelled in `sample.dfy` (`Sampling`).

Two facts of the code are worth stating on their own:

- The first sample of a run has size 1 only when `maxSize <= numTests`
  (`lib/Runner.js:68`). `Runners.FirstSampleSize` proves the exact condition.
- `flatten` puts the children of the outer tree first and the inner tree's own
  children after them (`lib/RoseTree.js:33-35`). `RoseTrees.FlatMapShape` and
  `Types.BindSpec` state this order.

## Model

| member | source | states |
|---|---|---|
| Thunks.Thunk.constructor | lib/Thunk.js:6-14 | a new thunk holds `f` and is unrealised, and `f` has not been called |
| Thunks.Thunk.Get | lib/Thunk.js:17-24 | returns `f()`; afterwards the thunk is realised, caches the value and has dropped `f`; `f` has run exactly once in total; a realised thunk is left unchanged |
| Thunks.GetRepeatedly | lib/Thunk.js:17-24 | any number of `get` calls all return `f()`, and `f` runs at most once |
| LazyTrees.LazyTree.constructor | lib/RoseTree.js:15-21 | the node stores its root and an unrealised children thunk; with no children function it denotes a leaf, otherwise the children the function returns |
| LazyTrees.LazyTree.Children | lib/RoseTree.js:65-67 | returns the node's children, realising them on the first call only; later calls change nothing |
| RoseTrees.MapShape | lib/RoseTree.js:41-48 | `map(f)` has root `f(root)` and, in order and with the same count, the `map(f)` of each child |
| RoseTrees.MapSize | lib/RoseTree.js:41-48 | `map` keeps the number of nodes |
| RoseTrees.MapIdentity | lib/RoseTree.js:41-48 | mapping the identity gives back the tree |
| RoseTrees.MapCompose | lib/RoseTree.js:41-48 | mapping `f` and then `g` equals mapping their composition |
| RoseTrees.MapAllNodes | lib/RoseTree.js:72-74 | if every value of `f` satisfies `p`, every node of `map(f)` does |
| RoseTrees.MapPreserves | lib/RoseTree.js:72-74 | if every node satisfies `q` and `q(x)` implies `p(f(x))`, every node of `map(f)` satisfies `p` |
| RoseTrees.FlattenAllNodes | lib/RoseTree.js:25-38 | if every inner tree satisfies `p` everywhere, so does the flattened tree |
| RoseTrees.FlatMapShape | lib/RoseTree.js:30-35 | `flatmap(f)` has root `f(root).root`; its children are the `flatmap(f)` of each outer child followed by `f(root)`'s own children |
| RoseTrees.FlatMapLeaf | lib/RoseTree.js:80-82 | `flatmap` of a leaf is `f` of its value |
| RoseTrees.FlatMapUnit | lib/RoseTree.js:80-82 | `flatmap` with the leaf constructor gives back the tree |
| RoseTrees.FlatMapAssoc | lib/RoseTree.js:80-82 | `flatmap` is associative |
| RoseTrees.FlatMapAllNodes | lib/RoseTree.js:80-82 | if every tree `f` returns satisfies `p` everywhere, so does `flatmap(f)` |
| RoseTrees.FilterChildrenIsKeep | lib/RoseTree.js:55-57 | the filtered children are the order-preserving sublist of children whose roots satisfy `p`, each filtered recursively |
| RoseTrees.FilterSubtreesBelow | lib/RoseTree.js:84-89 | the root is kept even when it fails `p`, and every node below it satisfies `p` |
| RoseTrees.FilterChildrenAllNodes | lib/RoseTree.js:55-57 | every kept child satisfies `p` at every node |
| RoseTrees.FilterSubtreesKeeps | lib/RoseTree.js:51-60 | filtering keeps any property that held at every node |
| RoseTrees.FilterChildrenKeeps | lib/RoseTree.js:55-57 | filtering a list of children keeps any property that held at every node |
| RoseTrees.FilterSubtreesIdempotent | lib/RoseTree.js:51-60 | filtering twice with the same predicate equals filtering once |
| RoseTrees.FilterChildrenIdempotent | lib/RoseTree.js:55-57 | filtering children twice equals filtering them once |
| RoseTrees.FilterSubtreesNoop | lib/RoseTree.js:51-60 | a tree whose non-root nodes all satisfy `p` is unchanged by filtering |
| RoseTrees.FilterChildrenNoop | lib/RoseTree.js:55-57 | children that satisfy `p` everywhere are unchanged by filtering |
| Shrink.RoundTowardZero | lib/shrink.js:53-58 | the result is the integer next to `x` on the side of zero (floor for non-negative, ceiling for negative) |
| Shrink.StepsHalve | lib/shrink.js:66-69 | the halving loop runs exactly while the halved distance is at least 1 |
| Shrink.HalveSteps | lib/shrink.js:66-69 | each step's distance is in `[1, m]`, strictly smaller than the previous one, and the last is 1 |
| Shrink.IntCandidates | lib/shrink.js:63-71 | no candidates exactly when `n == center`; otherwise the first is `center` and the last is one step from `n` towards `center`; all lie between them, strictly closer to `center` than `n`, and move steadily towards `n` |
| Shrink.IntCandidateLoop | lib/shrink.js:63-71 | the `while` loop computes exactly the candidates above |
| Shrink.IntTreeSelfSimilar | lib/shrink.js:35-46 | every node's children are the candidate trees of its own value, with the same center |
| Shrink.IntTreeBetween | lib/shrink.js:60-71 | every node of the shrink tree of `n` lies between `center` and `n` |
| Shrink.IntTreeHeight | lib/shrink.js:63-71 | the shrink tree's height is at most the distance from `n` to `center` |
| Shrink.ArrayCandidates | lib/shrink.js:79-100 | every candidate list has fewer nodes in total than the input; it keeps the length, or with `tryRemoving` is one shorter |
| Shrink.ShrinkArrayCount | lib/shrink.js:79-113 | there are `|xs|` removals when `tryRemoving`, plus one substitution per child of each element |
| Shrink.RemovalCandidate | lib/shrink.js:87-93 | the `i`-th candidate with `tryRemoving` is the array without element `i` |
| Shrink.SubstitutionCandidate | lib/shrink.js:95-99 | for each element `i` and child `j` there is a candidate that replaces element `i` by that child, after all removals and in `forEach` order |
| Shrink.RootsWithout | lib/shrink.js:104-111 | the root of a removal candidate is the original array without element `i` |
| Shrink.RootsReplace | lib/shrink.js:104-111 | the root of a substitution candidate is the original array with element `i` replaced |
| Shrink.ArrayTreeLength | lib/shrink.js:104-113 | no node of an array tree is longer than the original; without removal every node has exactly its length |
| Shrink.ArrayTreeElements | lib/shrink.js:104-113 | if every element tree satisfies `p` everywhere, every element of every node does |
| Shrink.ArrayTreePositions | lib/shrink.js:104-113 | without removal, element `i` of every node satisfies the property that element tree `i` satisfies |
| Shrink.ShrinkArrayLoop | lib/shrink.js:79-114 | the `forEach` loop that pushes candidates computes exactly the removal and substitution trees |
| Errors.Split | lib/errors.js:29 | splitting on newlines gives at least one line, and no line contains a newline |
| Errors.JoinSplit | lib/errors.js:29-34 | joining the split lines with newlines gives back the string |
| Errors.SplitJoin | lib/errors.js:29-34 | splitting newline-free lines after joining them gives the lines back |
| Errors.FirstOwnLine | lib/errors.js:30-33 | the loop stops at the first index from `i` on that is not library code, or at the end |
| Errors.KeptLines | lib/errors.js:29-34 | the output keeps line 0, then the input's lines from the first non-library index on; every skipped line is library code, and the second output line is not |
| Errors.CleanupStack | lib/errors.js:21-35 | a non-string input comes back unchanged, and a string gives a string |
| Errors.CleanupStackLoop | lib/errors.js:21-35 | the `while` loop computes `CleanupStack` |
| Errors.CleanupLines | lib/errors.js:29-34 | the lines of the cleaned trace are exactly `KeptLines` of the input's lines |
| Errors.CleanupFirstAndSecondLine | lib/errors.js:29-34 | the first line is always kept, and the second output line, if any, is not library code |
| Errors.CleanupSingleLine | lib/errors.js:29-34 | a single-line trace is returned unchanged |
| Errors.CleanupIdempotent | lib/errors.js:21-35 | cleaning a trace twice gives the same as cleaning it once |
| Types.ChooseValueRange | lib/types.js:18 | for `low <= high`, every draw in [0,1) maps into `[low, high]` |
| Types.ChooseValueOnto | lib/types.js:18 | every integer of `[low, high]` is reached by some draw |
| Types.ChooseSpec | lib/types.js:12-24 | `choose` never fails; the root is in `[low, high]`, the children are `shrink.int(n, center)` with `center` defaulting to `low`, one draw is consumed, and with `center` in range every node is in range |
| Types.ChooseAlways | lib/types.js:12-24 | with `center` in range, every node `choose` produces is in `[low, high]` |
| Types.IntSpec | lib/types.js:26-28 | `int` stays in `[-size, size]` and shrinks towards 0 |
| Types.NonNegativeSpec | lib/types.js:30-32 | `int.nonNegative` stays in `[0, size]` |
| Types.PositiveSpec | lib/types.js:34-36 | `int.positive` stays in `[1, size + 1]` |
| Types.SuchThatLoop | lib/types.js:38-52 | the do-while loop computes `SuchThatFrom` with at least one and at most `maxTries` draws; if no draw can pass, it makes every try and raises the `suchThat` error |
| Types.SuchThatSound | lib/types.js:44-48 | a successful `suchThat` tree satisfies `pred` at every node, shrinks included |
| Types.SuchThatKeeps | lib/types.js:44-48 | a successful `suchThat` tree also keeps every property the inner generator guaranteed |
| Types.SuchThatAlways | lib/types.js:38-52 | `suchThat(pred, gen)` always satisfies `pred` and what `gen` guaranteed |
| Types.SuchThatGivesUp | lib/types.js:44-50 | when no draw passes, `suchThat` raises `GentestError` with its message |
| Types.NonZeroSpec | lib/types.js:54-58 | `int.nonZero` never yields or shrinks to 0 and stays in `[-size, size]` |
| Types.FmapSpec | lib/types.js:105-109 | `fmap` fails exactly when the generator fails; its tree is the generator's tree mapped by `f`, and it consumes the same draws |
| Types.FmapAlways | lib/types.js:105-109 | `fmap(f, gen)` satisfies `p` when `gen` satisfies `q` and `q(x)` implies `p(f(x))` |
| Types.FmapCompose | lib/types.js:105-109 | two `fmap`s equal one `fmap` of the composed function |
| Types.CharSpec | lib/types.js:60-65 | `char` yields a one-code-unit string with code in 32..126, and so does every shrink |
| Types.DrawMany | lib/types.js:72-74 | a successful run of the element loop draws exactly `count` trees |
| Types.DrawEach | lib/types.js:88-91 | a successful tuple loop draws one tree per generator |
| Types.DrawManyLoop | lib/types.js:71-74 | the index loop of `arrayOf` computes `DrawMany` |
| Types.DrawEachLoop | lib/types.js:88-91 | the index loop of `tuple` computes `DrawEach` |
| Types.DrawManyAlways | lib/types.js:72-74 | every drawn element tree keeps the element generator's guarantee |
| Types.DrawEachAlways | lib/types.js:88-91 | element tree `i` keeps generator `i`'s guarantee |
| Types.ArrayOfSpec | lib/types.js:67-83 | `arrayOf` yields arrays of length at most `size` at every node, and every element keeps the element generator's guarantee |
| Types.TupleSpec | lib/types.js:85-100 | at every node of a `tuple` tree, element `i` satisfies what `gens[i]` guarantees, and the length is `|gens|` |
| Types.ConcatPrintable | lib/types.js:124-126 | joining one-code-unit printable strings gives a printable string of that length |
| Types.StringSpec | lib/types.js:124-126 | `string` yields printable strings of length at most `size`, and so does every shrink |
| Types.TraverseTree | lib/types.js:116-122 | running `fun` over a tree gives the tree of generated trees, with the inner root from `fun(root)` and the same number of children |
| Types.TraverseTrees | lib/types.js:116-122 | running `fun` over a list of trees keeps its length |
| Types.TraverseAlways | lib/types.js:116-122 | if `fun(x)` always satisfies `p` for every `x` satisfying `q`, every generated inner tree satisfies `p` everywhere |
| Types.BindSpec | lib/types.js:116-122 | `bind` fails when the outer generator fails; its root is the inner root, its children are the outer children, each rebound as the whole bind tree of that child, followed by the inner tree's children, and it ends where the inner draw ends |
| Types.BindAlways | lib/types.js:116-122 | `bind(gen, fun)` satisfies `p` when `gen` satisfies `q` and `fun(x)` satisfies `p` for every such `x` |
| Types.BindConstantly | lib/types.js:116-132 | binding `constantly(x)` equals running `fun(x)` |
| Types.OneOf | lib/types.js:134-147 | `oneOf` raises exactly for an empty list, with its message, and returns the only generator of a singleton |
| Types.OneOfAlways | lib/types.js:134-147 | if every alternative satisfies `p`, `oneOf` does |
| Types.Constants | lib/types.js:153 | `elems.map(constantly)` gives one constant generator per element, in order |
| Types.Elements | lib/types.js:149-154 | `elements` raises exactly for an empty list, with its message |
| Types.ElementsMembers | lib/types.js:149-154 | `elements` only yields, and shrinks to, members of its input |
| Types.BoolSpec | lib/types.js:156 | `bool` is `elements([false, true])`; it never fails; `true` shrinks to `false`, and `false` has no shrinks |
| Types.TemplateLoop | lib/types.js:161-167 | the `forEach` loop collects the template's keys and generators in order |
| Types.ShapeifyLoop | lib/types.js:169-175 | the field-assignment loop builds exactly `Shapeify` |
| Types.ShapeifyFields | lib/types.js:169-175 | with distinct names, the record has exactly the first `|tuple|` names as keys, and field `names[i]` is `tuple[i]` |
| Types.ShapeifySatisfies | lib/types.js:169-175 | a tuple satisfying per-position properties becomes a record whose fields satisfy them |
| Types.ShapeifierSatisfies | lib/types.js:169-175 | the same, for every tuple |
| Types.ShapeOfAlways | lib/types.js:177 | `fmap(shapeify, tuple(gens))` yields records whose field `i` satisfies what generator `i` guarantees |
| Types.ShapeSpec | lib/types.js:160-178 | `shape` yields records with the template's keys, and field `i` comes from generator `i`, at every node |
| Properties.MakeProperty | lib/Property.js:8-23 | construction succeeds exactly when `func`, `name` and `gen` have the right types, otherwise it raises `GentestError` with its message; the fields are the arguments |
| Properties.ToInt32 | lib/Property.js:30 | `size \|= 0` lands in the 32-bit signed range and is the floor for sizes in `[0, 2^31)` |
| Properties.GenTest | lib/Property.js:26-32 | a non-number, a size below 1 or `-Infinity` raises `GentestError`; a finite size of at least 1 reaches the generator truncated by `\| 0`; `NaN` and `+Infinity` reach it as 0 |
| Properties.GenTestIntegral | lib/Property.js:26-32 | an integer size in `[1, 2^31)` reaches the generator unchanged |
| Properties.RunTest | lib/Property.js:40-51 | success exactly when the predicate returns a truthy value; an error is recorded exactly when it throws, and it is the thrown one |
| Properties.Fails | lib/Property.js:40-51 | a test case fails exactly when `runTest` reports no success |
| Properties.RunTestRootOnly | lib/Property.js:44 | `runTest` looks only at the root of the test case |
| Properties.ForAll | lib/Property.js:109-118 | positional `forAll` keeps the name and predicate and uses `tuple(args)` as the generator |
| Properties.ForAllArguments | lib/Property.js:114 | argument `i` of every generated argument list, and of every shrink, satisfies what `args[i]` guarantees |
| Properties.PotentialDecreases | lib/Property.js:84-96 | both moves of the search, next sibling and descent into a child, shrink a natural-number measure |
| Properties.SearchFails | lib/Property.js:70-73 | the node the search ends on still fails when the starting node fails |
| Properties.SearchMinimal | lib/Property.js:70-96 | when the search ends, no child of the final node fails |
| Properties.SearchDescends | lib/Property.js:84-96 | the final node is the start or a strictly smaller subtree |
| Properties.SearchNoFailingChild | lib/Property.js:70-73 | with no failing child the original test case is the answer |
| Properties.NoFailingFrom | lib/Property.js:84-96 | if no child from index `i` on fails, the search stays at the node |
| Properties.ShrinkSearch.constructor | lib/Property.js:75-83 | the iterator starts at the test case with child index 0 |
| Properties.ShrinkSearch.Next | lib/Property.js:84-105 | `done` exactly when the index has passed the children, changing nothing; otherwise runs one child and reports its root and result, descending on failure and advancing on success; the node stays failing, the remaining work shrinks, and the node's root is the last failing `testArgs` |
| Runners.InterpolateEnds | lib/Runner.js:23-28 | `interpolate(min, max, 0) == min` and `interpolate(min, max, 1) == max` |
| Runners.InterpolateRange | lib/Runner.js:23-28 | for ratios in [0, 1] the result is in `[min, max]` |
| Runners.InterpolateMonotone | lib/Runner.js:26-28 | the result does not decrease as the ratio grows |
| Runners.SampleSizes | lib/Runner.js:66-68 | sample sizes lie in `[1, maxSize]`, never decrease, and the last one is `maxSize` |
| Runners.FirstSampleSize | lib/Runner.js:66-68 | the first sample has size 1 exactly when `maxSize <= numTests` |
| Runners.NumTests | lib/Runner.js:33 | a missing or zero `numTests` becomes 100, any other value is kept |
| Runners.MaxSize | lib/Runner.js:34 | a missing or zero `maxSize` becomes 50, any other value is kept |
| Runners.KeepExactly | lib/Runner.js:48-50 | `filter` keeps only elements that pass, and every passing element is kept |
| Runners.KeepOrder | lib/Runner.js:48-50 | `filter` keeps elements in their original order |
| Runners.FilterSpec | lib/Runner.js:47-51 | without a (non-empty) grep every property is kept; with one, exactly the properties whose name contains it are kept |
| Runners.SampleFailure | lib/Runner.js:66-77 | a failing sample lies within the run, fails the property, and carries the error `runTest` recorded |
| Runners.SampleSizesAccepted | lib/Runner.js:66-69 | when the generator accepts every size up to `maxSize`, sampling never raises |
| Runners.SampleLoop | lib/Runner.js:66-77 | the sampling loop computes `SampleFrom`: a passing property runs exactly `numTests` times, and sampling stops at the first failure |
| Runners.ShrinkLoop | lib/Runner.js:79-98 | the shrink loop ends with the root of the node the search ends on, `numShrinks <= numAttempts`, and the case still fails |
| Runners.CountFailed | lib/Runner.js:100-105 | the number of failed reports is at most the number of reports |
| Runners.CountFailedAppend | lib/Runner.js:101-105 | adding a report adds one failure exactly when it failed |
| Runners.RunProp | lib/Runner.js:59-112 | in the model, the run fails exactly when sampling the property with `Outcome` raises; otherwise the report passes exactly when every sample passed, carries the failing sample's number and error and the root the shrink search ends on, and the random source continues where sampling left it |
| Runners.RunCategory | lib/Runner.js:59-113 | equals sampling the category's properties one after another from one random source: it raises exactly when that does, and otherwise gives one matching report per property, `propsRun` and `propsFailed` |
| Runners.Outcomes | lib/Runner.js:41-113 | one outcome per property when no error is raised |
| Runners.OutcomesAppend | lib/Runner.js:43-59 | sampling two lists of properties in turn is sampling their concatenation, the random source carried over |
| Runners.CountFailedConcat | lib/Runner.js:101-105 | the failures of two runs of reports add up |
| Runners.CountFailedIsFailures | lib/Runner.js:72-105 | reports that match their outcomes count exactly the outcomes that failed |
| Runners.Runner.constructor | lib/Runner.js:8-11 | a new runner has one nameless, empty category |
| Runners.Runner.NewCategory | lib/Runner.js:13-16 | appends an empty named category, which becomes current, and adds no property |
| Runners.Runner.NewProp | lib/Runner.js:18-21 | appends the property to the current (last) category only |
| Runners.Runner.Run | lib/Runner.js:30-119 | equals the model's `Outcomes` over every property selected by grep, in category order, from one random source: it raises exactly when that does; otherwise each report matches its property's outcome, `propsRun` is the number selected and `propsFailed` the number whose sampling failed |
| Sampling.SizeAt | lib/sample.js:24 | every sample size is positive |
| Sampling.SizesGrow | lib/sample.js:24 | sizes are positive, never decrease, and grow by one every two entries |
| Sampling.DrawFrom | lib/sample.js:22-25 | a successful draw yields one tree per remaining entry |
| Sampling.DrawFromAlways | lib/sample.js:22-25 | entry `i` keeps the generator's guarantee for size `floor(i/2) + 1` |
| Sampling.Sample | lib/sample.js:16-27 | `count` defaults to 10, and a count that is negative or at least 2^32 raises `RangeError` as `new Array` does; the result has `count` entries drawn in order, the trees with `raw` and otherwise their roots |

## Left out

- The command-line entry point (`bin/gentest.js`), global test registration and `index.js` re-exports are plumbing and are not part of this model.
- `lib/run.js` is a legacy API with a different generator protocol and is not part of this model.
- Progress and summary output (`write`, `toString` of the counterexample, stack printing) is I/O and is not modelled. The reports keep the values that would be printed.
- The seed (`options.seed`, `Date.now()`) and the `burtleprng` generator are replaced by an abstract stream of draws in [0, 1) passed in as `Rng`.
- Floating point is exact: `choose`, `interpolate` and `k / numTests` use Dafny reals, and `shrink.int`'s `diff /= 2` is integer halving of the distance, truncated towards zero.
- Rose trees are finite values built eagerly. Laziness and memoisation are modelled once, by `Thunks.Thunk` and `LazyTrees.LazyTree`. Trees do not share one `emptyThunk`.
- Types.BindSpec: the children of a `bind` tree are generated eagerly, from the random source as it stands after the inner draw. In the library they are generated on demand from the shared, live source, and their errors surface only then.
- The `TypeError` that `flatten` raises for a root that is not a tree cannot happen in the model, because the types rule it out.
- The named-argument form of `forAll` passes a generator function where `tuple` expects an array, so it cannot work as written. Only the positional form is modelled.
- The error-class plumbing in `lib/errors.js` (prototype chains, copying `stack` and `message`) is not modelled; the error kinds are a datatype. The library-code regexes are the parameter `isLibraryCode`.
- `Array.prototype.find` polyfill: a vendored copy of a standard function that nothing in the core uses.
- The guard `cat.length < 1` in `run` never fires (`cat` is an object), so it has no counterpart.
- Predicate results are reduced to truthy or not (`Returned(truthy)`), and a throw is `Threw(error)`.
- Tuples, shapes and the properties of one runner use one element type. JavaScript's heterogeneous arrays and objects are not modelled.
- Runners.SampleSizesAccepted: it assumes `maxSize < 2^31`, because `size |= 0` wraps larger sizes.
- `NaN`, infinite or fractional values of `numTests`, `maxSize`, `maxTries` and `count` are not modelled; they are integers.
- Generated strings (`Types.JsString`) are sequences of UTF-16 code units, as in JavaScript. Every other string (property names, `grep`, error names, messages and stack traces) is a Dafny `string`, a sequence of Unicode scalar values, so `indexOf` and `split` run over scalar values and a lone surrogate cannot occur in them. No encoding or normalisation is modelled.
- Runners.Runner.Run: the reports do not record the category headings that are printed.
- Runners.RunProp, Runners.Runner.Run: because `bind` trees are built eagerly (see Types.BindSpec), the model's run can differ from the library's in two ways. First, a bind child whose regeneration raises (say `suchThat` giving up) makes the model's `Outcome` an error even when the library, never forcing that child, reports the property verified. Second, when the library's shrink loop forces lazy bind children (`bind`, `oneOf`, `elements`, `bool`), they draw from the shared random source, so later properties start further along it; the model hands on the source as sampling left it.
- Runners.RunProp: `numShrinks` and `numAttempts` are bounded (`numShrinks <= numAttempts`) but not given exact values, because no function of the tree counts the search's attempts.
