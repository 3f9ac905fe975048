# streams — a Dafny model

This project models the core of a small TypeScript library of eager,
array-backed "streams". A `Stream` wraps one JavaScript array. Its
intermediate operations (`filter`, `map`, `flatMap`, `distinct`, `limit`,
`skip`, `sorted`, `peek`) materialise a new array and wrap it in a new
`Stream`. Its terminal operations (`count`, `allMatch`, `anyMatch`,
`noneMatch`, `findFirst`, `reduce`, `max`, `min`, `collect`) fold or quantify
over the array. There are four smaller parts:

- `StreamBuilder` accumulates elements copy-on-append.
- `Optional` wraps one value; presence is the JavaScript truthiness of that value.
- `Collectors` supplies `toArray` (the identity) and `groupingBy` (key → ordered group).
- `Accumulators.sum` is integer addition packaged as a strategy object.

Layout, one module per component:

| file | module | models |
|---|---|---|
| `values.dfy` | `JsValues` | the JavaScript values a stream carries; truthiness |
| `sequences.dfy` | `Sequences` | what each array expression computes, as functions on `seq`, with their laws |
| `optional.dfy` | `Optionals` | `Optional` as an immutable datatype |
| `collectors.dfy` | `Collectors` | the collector strategies; the grouping loop |
| `accumulators.dfy` | `Accumulators` | `SumAccumulator` |
| `stream.dfy` | `Streams` | the classes `Stream` and `StreamBuilder` over `array<JsValue>` |
| `properties.dfy` | `StreamProperties` | client-level facts that chain several operations |

Modelling choices:

- **Elements.** Stream elements are the datatype `JsValue`: undefined, null, booleans,
  numbers (as `int`), strings, arrays and objects (a `map` from keys to values).
  Structural `==` on it stands in for the deep-equality routine that `distinct` uses.
  Objects compare regardless of key order, as deep equality does.
- **Stream state.** `Stream` and `StreamBuilder` are classes. Each holds a `const`
  reference to its array, because the source never reassigns the field after
  construction. This makes the aliasing in the source observable:
  - `Stream.of` keeps the caller's array.
  - `StreamBuilder.build` hands its own array to the new stream.
  - `sorted` overwrites the receiver's array and wraps that same array.
  - `peek` returns the receiver.
  - `collect(toArray())` returns the backing array itself.
- **Sequence specifications.** Each array expression is specified by a function on
  `seq` in `Sequences`, and the laws are proved there: `filter`, `map` with its index,
  one-level `flatMap`, `slice`, first-occurrence `distinct`, the left fold behind
  `reduce`/`max`/`min`, `every`/`some`, and the ordering behind `sort`.
- **Truthiness.** Predicates are total functions to `bool`; this folds in the
  truthiness of a callback's result. `Optional.isPresent` and `orElse` use
  `Truthy`, exactly as `Boolean(value)` and `value || other` do.

Consequences of the code worth knowing:

- `reduce` wraps its result with `Optional.of`, and presence is truthiness, so a
  reduction to `0`, `''` or `false` reports absence
  (`StreamProperties.ReduceToZeroIsAbsent`).
- `sorted` sorts the receiver's own array and wraps that same array, so the
  caller's array passed to `Stream.of` ends up sorted
  (`StreamProperties.SortedSortsCallersArray`).
- Only the computed-key `groupingBy` of `src/Collectors/index.ts` is modelled.

## Model

| member | source | states |
|---|---|---|
| `JsValues.Truthy` | src/Optional/index.ts:22-24 | `Boolean(v)`: a value is truthy exactly when it is not one of undefined, null, false, 0 and '' |
| `Optionals.Or` | src/Optional/index.ts:26-28 | `a \|\| b` is `a` when `a` is truthy and `b` otherwise (so `null \|\| undefined` is undefined); the result is truthy iff either operand is |
| `Optionals.Optional.Of` | src/Optional/index.ts:10-16 | `of(v).get()` is exactly `v`, falsy values included; it is present iff `v` is not falsy |
| `Optionals.Optional.Empty` | src/Optional/index.ts:6-16 | `empty()` stores undefined: `get()` is undefined and `isPresent()` is false |
| `Optionals.Optional.OrElse` | src/Optional/index.ts:26-28 | `orElse(x)` is `get()` when present and `x` otherwise; it never returns a falsy stored value unless that is `x` |
| `Optionals.Optional.Get` | src/Optional/index.ts:18-20 | `get()` returns the stored value unchanged: wrapping it again gives back the same Optional |
| `Optionals.Optional.IsPresent` | src/Optional/index.ts:22-24 | `isPresent()` holds exactly when the stored value is not one of the five falsy values |
| `Optionals.OfFalsyIsAbsent` | src/Optional/index.ts:10-28 | a falsy value is stored and returned by `get()`, yet reported absent, so `of(0).orElse(5)` is 5 |
| `Accumulators.Sum` | src/Accumulators/index.ts:4-6 | `sum()` gives an accumulator whose `apply(prev, next)` is `prev + next` for all arguments |
| `Accumulators.SumAccumulator.Apply` | src/Accumulators/index.ts:9-13 | 0 is an identity of `apply` on both sides |
| `Accumulators.FoldApplyFrom` | src/Accumulators/index.ts:10-12 | left-folding `apply` from any start adds the sequence's sum to the start |
| `Accumulators.FoldApplyIsSum` | src/Accumulators/index.ts:10-12 | left-folding `apply` from 0, as `reduce` does, yields the sum of the sequence |
| `Collectors.ArrayCollect` | src/Collectors/index.ts:16-20 | `toArray().collect(xs)` returns the very array `xs` |
| `Collectors.AddToGroup` | src/Collectors/index.ts:33-37 | one step adds the element's key; that group becomes the old group (or the empty one) followed by the element; other groups are unchanged |
| `Collectors.GroupByKeys` | src/Collectors/index.ts:30-40 | the key set is exactly the set of keys of the input elements (empty input, empty map) |
| `Collectors.GroupByGroup` | src/Collectors/index.ts:32-38 | for every key, its group (empty if absent) is the input elements with that key, in encounter order |
| `Collectors.GroupByGroups` | src/Collectors/index.ts:32-38 | every stored group is the in-order subsequence of input elements with its key |
| `Collectors.GroupByMerges` | src/Collectors/index.ts:33-37 | elements sharing a key merge into one group in encounter order; a collision is not an error |
| `Collectors.AddToGroupSize` | src/Collectors/index.ts:33-37 | one step adds exactly one element to the total size of the groups |
| `Collectors.GroupBySize` | src/Collectors/index.ts:32-38 | the group lengths sum to the input length: every element lands in exactly one group |
| `Collectors.GroupingByCollect` | src/Collectors/index.ts:30-40 | the loop builds the grouping map; its keys are the input keys and each group is the filter of the input by key |
| `Collectors.Collect` | src/Collectors/index.ts:4-13 | a toArray collector returns the input array itself; a groupingBy collector returns the grouping of its elements |
| `Sequences.Filter` | src/Stream/index.ts:63-66 | the result holds exactly the elements satisfying the predicate, with their multiplicities |
| `Sequences.FilterIsSubsequence` | src/Stream/index.ts:63-66 | filtering keeps the original order (the result is a subsequence) |
| `Sequences.FilterAllMatch` | src/Stream/index.ts:63-66 | `allMatch(p)` holds on the result of `filter(p)` |
| `Sequences.MapIndexed` | src/Stream/index.ts:86-89 | mapping preserves length and position: `result[i] == f(xs[i], i)` |
| `Sequences.FlatMap` | src/Stream/index.ts:72-75 | a value is in the result iff it is in the mapper's result for some element |
| `Sequences.FlatMapAppend` | src/Stream/index.ts:72-75 | flatMap of a concatenation is the concatenation of the flatMaps (in-order concatenation) |
| `Sequences.FlatMapSingletons` | src/Stream/index.ts:72-89 | flat-mapping to one-element sequences is the same as mapping |
| `Sequences.Take` | src/Stream/index.ts:81-84 | `slice(0, n)` has the first `min(n, len)` elements |
| `Sequences.Drop` | src/Stream/index.ts:115-118 | `slice(n)` drops the first `min(n, len)` elements |
| `Sequences.TakeDrop` | src/Stream/index.ts:81-118 | the first `n` elements followed by the rest give back the original sequence |
| `Sequences.Distinct` | src/Stream/index.ts:53-61 | the result has no two equal elements, and holds every input element and nothing else |
| `Sequences.DistinctIsSubsequence` | src/Stream/index.ts:53-61 | the result is a subsequence of the input |
| `Sequences.DistinctSnoc` | src/Stream/index.ts:55-58 | an element is appended exactly when no kept element equals it |
| `Sequences.DistinctDropsRepeat` | src/Stream/index.ts:53-61 | `[a, b, c, b]` deduplicates to `[a, b, c]` |
| `Sequences.DistinctOfPrefix` | src/Stream/index.ts:53-61 | deduplicating a prefix of the input yields a prefix of the result |
| `Sequences.DistinctFirstOccurrenceOrder` | src/Stream/index.ts:53-61 | kept elements appear in the order of their first occurrences |
| `Sequences.DistinctOfNoDuplicates` | src/Stream/index.ts:53-61 | a sequence without duplicates is unchanged by `distinct` |
| `Sequences.DistinctIdempotent` | src/Stream/index.ts:53-61 | `distinct` is idempotent |
| `Sequences.FoldLeftSnoc` | src/Stream/index.ts:108-113 | the reduction is a left fold: one more element is combined with the fold of the rest |
| `Sequences.FoldLeftSelects` | src/Stream/index.ts:91-97 | with a comparator that returns one of its arguments, the fold returns the seed or an element |
| `Sequences.All` | src/Stream/index.ts:37-39 | `every` holds iff the predicate holds at every index (true when empty) |
| `Sequences.Any` | src/Stream/index.ts:41-43 | `some` holds iff the predicate holds at some index (false when empty) |
| `Sequences.Insert` | src/Stream/index.ts:120-123 | inserting adds exactly one occurrence of the element |
| `Sequences.SortBy` | src/Stream/index.ts:120-123 | the sorted sequence is a permutation of the input |
| `Sequences.InsertNeighboursSorted` | src/Stream/index.ts:120-123 | under a total comparator, insertion keeps neighbours ordered |
| `Sequences.NeighboursSortedIsSorted` | src/Stream/index.ts:120-123 | under a transitive comparator, ordered neighbours mean an ordered sequence |
| `Sequences.SortByNeighboursSorted` | src/Stream/index.ts:120-123 | under a total comparator, sorting orders neighbours |
| `Sequences.SortBySorted` | src/Stream/index.ts:120-123 | under a total preorder, the result is ordered by the comparator |
| `Streams.Spread` | src/Stream/index.ts:72-75 | flatMap spreads an array result into its elements and keeps any other value as one element |
| `Streams.Stream.constructor` | src/Stream/index.ts:33-35 | a stream holds the array it is given |
| `Streams.Stream.Of` | src/Stream/index.ts:29-31 | `of(xs)` wraps `xs` itself, without copying |
| `Streams.Stream.Empty` | src/Stream/index.ts:25-27 | `empty()` is a new stream over a fresh empty array |
| `Streams.Stream.Concat` | src/Stream/index.ts:21-23 | `concat(a, b)` is a fresh array of a's elements followed by b's; a and b are untouched |
| `Streams.Stream.Builder` | src/Stream/index.ts:17-19 | `builder()` is a new builder over a fresh empty array |
| `Streams.Stream.Filter` | src/Stream/index.ts:63-66 | a new stream over a fresh array holding the filtered elements, all satisfying the predicate |
| `Streams.Stream.Map` | src/Stream/index.ts:86-89 | a new stream of the same length with `f(xs[i], i)` at position `i` |
| `Streams.Stream.FlatMap` | src/Stream/index.ts:72-75 | a new stream over the spread mapper results, in order |
| `Streams.Stream.Distinct` | src/Stream/index.ts:53-61 | the push loop produces exactly the first-occurrence deduplication, in a new stream |
| `Streams.Stream.Limit` | src/Stream/index.ts:81-84 | a new stream over the first `min(n, count())` elements |
| `Streams.Stream.Skip` | src/Stream/index.ts:115-118 | a new stream over all but the first `min(n, count())` elements |
| `Streams.Stream.Sorted` | src/Stream/index.ts:120-123 | sorts the receiver's own array in place into a permutation ordered by the comparator; the result shares that array |
| `Streams.Stream.Peek` | src/Stream/index.ts:103-106 | returns the receiver itself, its elements unchanged |
| `Streams.Stream.Count` | src/Stream/index.ts:49-51 | the number of elements in the backing array |
| `Streams.Stream.AllMatch` | src/Stream/index.ts:37-39 | true iff every element satisfies the predicate |
| `Streams.Stream.AnyMatch` | src/Stream/index.ts:41-43 | true iff some element satisfies the predicate |
| `Streams.Stream.NoneMatch` | src/Stream/index.ts:99-101 | true iff no element satisfies the predicate |
| `Streams.Stream.FindFirst` | src/Stream/index.ts:68-70 | wraps the first element, or undefined (an empty Optional) when there is none; present iff that element is truthy |
| `Streams.Stream.Reduce` | src/Stream/index.ts:108-113 | wraps the left fold from the initial value, which is the initial value itself on an empty stream |
| `Streams.Stream.Max` | src/Stream/index.ts:91-93 | wraps the comparator fold seeded by the first element; with a selecting comparator the result is an element |
| `Streams.Stream.Min` | src/Stream/index.ts:95-97 | performs exactly the reduction `max` performs, so it has the same guarantees |
| `Streams.Stream.Collect` | src/Stream/index.ts:45-47 | hands the backing array to the collector and returns its result unchanged |
| `Streams.StreamBuilder.constructor` | src/Stream/index.ts:129-131 | a builder holds the array it is given |
| `Streams.StreamBuilder.Add` | src/Stream/index.ts:133-136 | a new builder over a fresh array with the old elements followed by the value; the receiver is untouched |
| `Streams.StreamBuilder.AddAll` | src/Stream/index.ts:138-141 | a new builder over a fresh array with the old elements followed by the given ones |
| `Streams.StreamBuilder.Build` | src/Stream/index.ts:143-145 | a stream over the builder's own array |
| `StreamProperties.OfCount` | src/Stream/index.ts:29-51 | `of(xs).count()` is the length of `xs` |
| `StreamProperties.FilterThenAllMatch` | src/Stream/index.ts:37-66 | `of(xs).filter(p)` holds exactly the filtered elements, and `allMatch(p)` on it is true |
| `StreamProperties.EmptyMatches` | src/Stream/index.ts:37-43 | on an empty stream `allMatch` is true, `anyMatch` false and `noneMatch` true |
| `StreamProperties.NoneMatchIsNotAnyMatch` | src/Stream/index.ts:99-101 | `anyMatch(p)` holds iff some element satisfies `p`, and `noneMatch(p)` is always its negation |
| `StreamProperties.ConcatToArray` | src/Stream/index.ts:21-23 | `concat(of(a), of(b)).collect(toArray())` is `a` followed by `b` |
| `StreamProperties.OfToArrayIsIdentity` | src/Collectors/index.ts:16-20 | `of(xs).collect(toArray())` is the array `xs` itself |
| `StreamProperties.BuilderScenario` | src/Stream/index.ts:133-145 | `builder().add(1).add(2).addAll([3, 4]).build()` collects to `[1, 2, 3, 4]`; the builder after `add(1)` still holds `[1]` |
| `StreamProperties.DistinctTwice` | src/Stream/index.ts:53-61 | `distinct()` is the first-occurrence deduplication, and `distinct().distinct()` equals it |
| `StreamProperties.DistinctScenario` | src/Stream/index.ts:53-61 | `of([3, 1, 2, 1]).distinct()` collects to `[3, 1, 2]` |
| `StreamProperties.MaxMinAgree` | src/Stream/index.ts:91-97 | `max` wraps the comparator fold seeded by the first element, and `min` returns the same Optional |
| `StreamProperties.FoldGreaterIsMaximum` | src/Stream/index.ts:91-93 | over numbers, folding `(a, b) => a > b ? a : b` yields the largest value, which is the seed or an element |
| `StreamProperties.MaxOfNumbers` | src/Stream/index.ts:91-93 | `max` with that comparator over numbers returns the largest element; it reports absence when that element is 0 |
| `StreamProperties.MaxScenario` | src/Stream/index.ts:91-93 | `of([5, 3, 8, 1]).max((a, b) => a > b ? a : b).get()` is 8 |
| `StreamProperties.EmptyReduce` | src/Stream/index.ts:108-113 | `empty().reduce(42, f).get()` is 42 for any `f` |
| `StreamProperties.ReduceToZeroIsAbsent` | src/Stream/index.ts:108-113 | for every array, seed and reducer whose left fold is 0, `reduce` yields an Optional holding 0 that is not present |
| `StreamProperties.FoldSumReducer` | src/Accumulators/index.ts:10-12 | reducing number elements with `sum().apply` equals folding `apply` over the numbers |
| `StreamProperties.SumOfNumbers` | src/Stream/index.ts:108-113 | `of(ns).reduce(0, sum().apply)` holds the sum of `ns`, and is present iff that sum is not 0 |
| `StreamProperties.SumToZeroScenario` | src/Stream/index.ts:108-113 | `of([2, -2]).reduce(0, sum().apply)` holds 0 and is not present |
| `StreamProperties.SortedSortsCallersArray` | src/Stream/index.ts:120-123 | `of(xs).sorted(cmp)` sorts the caller's `xs`; receiver and result both hold `xs` |
| `StreamProperties.PeekIsSameInstance` | src/Stream/index.ts:103-106 | `of(xs).peek()` returns the very same stream, which holds `xs` |
| `StreamProperties.LimitSkipPartition` | src/Stream/index.ts:81-118 | `limit(n)` and `skip(n)` of one stream concatenate back to its elements |

## Left out

- Numbers are unbounded integers. Floating point, `NaN`, `Infinity` and `-0` are not modelled, so `Accumulators.sum` is exact integer addition.
- `StreamProperties.SumReducer` lifts `sum().apply` to stream elements for number elements only. It treats a non-number operand as 0, whereas JavaScript's `+` would concatenate strings or coerce the operand.
- `limit` and `skip` take `n: nat`. With a negative or fractional argument, JavaScript's `slice` counts from the end or truncates; neither is modelled.
- `max` and `min` require a non-empty stream. On an empty stream, JavaScript's `reduce` without a seed throws a `TypeError`; that exception is not modelled.
- `sorted` is specified as an insertion sort (`Sequences.SortBy`). The engine's own sort algorithm is not modelled: its stability, its behaviour with inconsistent comparators, and its moving of `undefined` elements to the end without calling the comparator. Ordering is proved only under a total-preorder comparator.
- `forEach` is left out. It only runs a callback for its side effects, and callbacks are modelled as pure functions.
- `Streams.Stream.Peek` takes no callback, for the same reason. Its visible effect, returning the receiver, is modelled.
- Callbacks receive only the element. The exception is `map`, which also gets the index. The `array` argument is never passed, and neither is the index for `filter`, `flatMap`, the matches, `reduce` and the comparator of `max`/`min`.
- The deep-equality routine is replaced by structural `==` on `JsValue`. Its treatment of class instances, cycles, dates and other exotic objects is not modelled.
- JavaScript `Map` keeps keys in insertion order. The model's `map` does not, so the grouping map's key order is not modelled. The order inside each group is modelled.
- Symbols are not among the modelled values or map keys. The key type of `groupingBy` is a type parameter.
- `Collector` and `Accumulator` are single-method interfaces. They are modelled as a datatype with one constructor per strategy, and as the one accumulator datatype. No open extension point is modelled.
- Type declarations, the bundled `lib/` output and the build configuration are not part of this model.
