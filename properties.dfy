/** What callers of the stream API can rely on, derived from the contracts
    of `Stream`, `StreamBuilder`, `Optional` and the collectors alone: each
    method below chains public operations the way a client would. */
module StreamProperties {
  import opened JsValues
  import opened Sequences
  import opened Optionals
  import opened Streams
  import Collectors
  import Accumulators

  /** `Stream.of(xs).count()` is the length of `xs`. */
  method OfCount(xs: array<JsValue>) returns (n: nat)
    ensures n == xs.Length
  {
    var s := Stream.Of(xs);
    n := s.Count();
  }

  /** `Stream.of(xs).filter(p).allMatch(p)` always holds. */
  method FilterThenAllMatch(xs: array<JsValue>, p: JsValue -> bool) returns (kept: seq<JsValue>, r: bool)
    ensures kept == Sequences.Filter(p, xs[..])
    ensures r
  {
    var s := Stream.Of(xs);
    var filtered := s.Filter(p);
    r := filtered.AllMatch(p);
    kept := filtered.Contents();
  }

  /** On an empty stream `allMatch` is true, `anyMatch` false and
      `noneMatch` true, whatever the predicate. */
  method EmptyMatches(p: JsValue -> bool) returns (all: bool, any: bool, none: bool)
    ensures all && !any && none
  {
    var s := Stream.Empty();
    all := s.AllMatch(p);
    any := s.AnyMatch(p);
    none := s.NoneMatch(p);
  }

  /** `noneMatch(p)` is always the negation of `anyMatch(p)`. */
  method NoneMatchIsNotAnyMatch(xs: array<JsValue>, p: JsValue -> bool) returns (none: bool, any: bool)
    ensures any <==> exists i | 0 <= i < xs.Length :: p(xs[i])
    ensures none == !any
  {
    var s := Stream.Of(xs);
    none := s.NoneMatch(p);
    any := s.AnyMatch(p);
  }

  /** `Stream.concat(of(a), of(b)).collect(toArray())` is `a` followed by
      `b`, and neither `a` nor `b` is modified. */
  method ConcatToArray(a: array<JsValue>, b: array<JsValue>) returns (r: seq<JsValue>)
    ensures r == a[..] + b[..]
  {
    var sa := Stream.Of(a);
    var sb := Stream.Of(b);
    var s := Stream.Concat(sa, sb);
    var toArray: Collectors.Collector<JsValue, JsValue> := Collectors.ArrayCollector;
    var c := s.Collect(toArray);
    r := c.arr[..];
  }

  /** `Stream.of(xs).collect(toArray())` is `xs` itself: the same array. */
  method OfToArrayIsIdentity(xs: array<JsValue>) returns (r: array<JsValue>)
    ensures r == xs
  {
    var s := Stream.Of(xs);
    var toArray: Collectors.Collector<JsValue, JsValue> := Collectors.ArrayCollector;
    var c := s.Collect(toArray);
    r := c.arr;
  }

  /** `builder().add(1).add(2).addAll([3, 4]).build().collect(toArray())`
      is `[1, 2, 3, 4]`, and the intermediate builders keep their own
      elements. */
  method BuilderScenario() returns (r: seq<JsValue>, first: seq<JsValue>)
    ensures r == [Num(1), Num(2), Num(3), Num(4)]
    ensures first == [Num(1)]
  {
    var b0 := Stream.Builder();
    var b1 := b0.Add(Num(1));
    var b2 := b1.Add(Num(2));
    var extra := NewArray([Num(3), Num(4)]);
    var b3 := b2.AddAll(extra);
    var s := b3.Build();
    var toArray: Collectors.Collector<JsValue, JsValue> := Collectors.ArrayCollector;
    var c := s.Collect(toArray);
    r := c.arr[..];
    first := b1.Contents();
  }

  /** `of(xs).distinct().distinct()` holds the same elements as
      `of(xs).distinct()`. */
  method DistinctTwice(xs: array<JsValue>) returns (once: seq<JsValue>, twice: seq<JsValue>)
    ensures once == Sequences.Distinct(xs[..])
    ensures twice == once
  {
    var s := Stream.Of(xs);
    var d1 := s.Distinct();
    var d2 := d1.Distinct();
    once, twice := d1.Contents(), d2.Contents();
    DistinctIdempotent(xs[..]);
  }

  /** `of([3, 1, 2, 1]).distinct().collect(toArray())` is `[3, 1, 2]`. */
  method DistinctScenario() returns (r: seq<JsValue>)
    ensures r == [Num(3), Num(1), Num(2)]
  {
    var xs := NewArray([Num(3), Num(1), Num(2), Num(1)]);
    var s := Stream.Of(xs);
    var d := s.Distinct();
    var toArray: Collectors.Collector<JsValue, JsValue> := Collectors.ArrayCollector;
    var collected := d.Collect(toArray);
    r := collected.arr[..];
    DistinctDropsRepeat(Num(3), Num(1), Num(2));
  }

  /** `max` and `min` return the same result for the same comparator. */
  method MaxMinAgree(xs: array<JsValue>, comparator: (JsValue, JsValue) -> JsValue)
    returns (max: Optional, min: Optional)
    requires xs.Length > 0
    ensures max.Get() == FoldLeft(comparator, xs[0], xs[1..])
    ensures min == max
  {
    var s := Stream.Of(xs);
    max := s.Max(comparator);
    min := s.Min(comparator);
  }

  /** The comparator `(a, b) => a > b ? a : b` on numbers; any other pair
      gives `b`. */
  function Greater(a: JsValue, b: JsValue): JsValue
  {
    if a.Num? && b.Num? && a.n > b.n then a else b
  }

  /** Over numbers, folding `Greater` yields the largest of the seed and the
      elements, and it is one of them. */
  lemma {:induction false} FoldGreaterIsMaximum(init: JsValue, s: seq<JsValue>)
    requires init.Num?
    requires forall i | 0 <= i < |s| :: s[i].Num?
    ensures var m := FoldLeft(Greater, init, s);
      && m.Num?
      && init.n <= m.n
      && (forall i | 0 <= i < |s| :: s[i].n <= m.n)
      && (m == init || m in s)
    decreases |s|
  {
    if |s| > 0 {
      FoldGreaterIsMaximum(Greater(init, s[0]), s[1..]);
    }
  }

  /** `max(comparator)` with `Greater` over a stream of numbers returns the
      largest element, and it is present unless that element is 0. */
  method MaxOfNumbers(xs: array<JsValue>) returns (o: Optional)
    requires xs.Length > 0
    requires forall i | 0 <= i < xs.Length :: xs[i].Num?
    ensures o.Get() in xs[..]
    ensures forall i | 0 <= i < xs.Length :: xs[i].n <= o.Get().n
    ensures o.IsPresent() <==> o.Get() != Num(0)
  {
    var s := Stream.Of(xs);
    o := s.Max(Greater);
    FoldGreaterIsMaximum(xs[0], xs[1..]);
    assert forall i | 1 <= i < xs.Length :: xs[i] == xs[1..][i - 1];
  }

  /** `of([5, 3, 8, 1]).max((a, b) => a > b ? a : b).get()` is 8. */
  method MaxScenario() returns (m: JsValue)
    ensures m == Num(8)
  {
    var xs := NewArray([Num(5), Num(3), Num(8), Num(1)]);
    var s := Stream.Of(xs);
    var o := s.Max(Greater);
    m := o.Get();
    var rest := [Num(3), Num(8), Num(1)];
    assert xs[1..] == rest;
    assert rest[1..] == [Num(8), Num(1)];
    assert rest[1..][1..] == [Num(1)];
  }

  /** `of([]).reduce(42, add).get()` is 42: reducing nothing yields the
      initial value. */
  method EmptyReduce(add: (JsValue, JsValue) -> JsValue) returns (v: JsValue)
    ensures v == Num(42)
  {
    var s := Stream.Empty();
    var o := s.Reduce(Num(42), add);
    v := o.Get();
  }

  /** Any reduction whose result is 0 gives an Optional that reports
      absence: the presence test is truthiness, not "a value was
      produced". */
  method ReduceToZeroIsAbsent(xs: array<JsValue>, init: JsValue, f: (JsValue, JsValue) -> JsValue)
    returns (o: Optional)
    requires FoldLeft(f, init, xs[..]) == Num(0)
    ensures o.Get() == Num(0) && !o.IsPresent()
  {
    var s := Stream.Of(xs);
    o := s.Reduce(init, f);
  }

  /** The numbers of `ns` as stream elements. */
  function Nums(ns: seq<int>): (r: seq<JsValue>)
    ensures |r| == |ns| && forall i | 0 <= i < |ns| :: r[i] == Num(ns[i])
  {
    seq(|ns|, i requires 0 <= i < |ns| => Num(ns[i]))
  }

  /** The reducer `(a, b) => Accumulators.sum().apply(a, b)` on number
      elements; a non-number operand counts as 0. */
  function SumReducer(a: JsValue, b: JsValue): JsValue
  {
    Num(Accumulators.Sum().Apply(if a.Num? then a.n else 0, if b.Num? then b.n else 0))
  }

  /** Reducing number elements with `SumReducer` mirrors folding `apply`
      over the numbers themselves. */
  lemma {:induction false} FoldSumReducer(start: int, ns: seq<int>)
    ensures FoldLeft(SumReducer, Num(start), Nums(ns)) == Num(FoldLeft(Accumulators.Sum().Apply, start, ns))
    decreases |ns|
  {
    if |ns| > 0 {
      assert Nums(ns)[1..] == Nums(ns[1..]);
      FoldSumReducer(Accumulators.Sum().Apply(start, ns[0]), ns[1..]);
    }
  }

  /** `of(ns).reduce(0, sum().apply)` yields the sum of the numbers, and it
      is present exactly when that sum is not 0. */
  method SumOfNumbers(ns: seq<int>) returns (o: Optional)
    ensures o.Get() == Num(Accumulators.SumOf(ns))
    ensures o.IsPresent() <==> Accumulators.SumOf(ns) != 0
  {
    var xs := NewArray(Nums(ns));
    var s := Stream.Of(xs);
    o := s.Reduce(Num(0), SumReducer);
    FoldSumReducer(0, ns);
    Accumulators.FoldApplyIsSum(Accumulators.Sum(), ns);
  }

  /** `of([2, -2]).reduce(0, sum().apply)` holds 0 and reports absence. */
  method SumToZeroScenario() returns (o: Optional)
    ensures o.Get() == Num(0) && !o.IsPresent()
  {
    o := SumOfNumbers([2, -2]);
    assert [2, -2][1..] == [-2];
  }

  /** `sorted` reorders the array the stream was built from: after
      `Stream.of(xs).sorted(cmp)`, the caller's `xs`, the receiver and the
      result all hold the same sorted array. */
  method SortedSortsCallersArray(xs: array<JsValue>, cmp: (JsValue, JsValue) -> int)
    returns (receiver: Stream, result: Stream)
    modifies xs
    ensures receiver.collection == xs && result.collection == xs
    ensures xs[..] == SortBy(cmp, old(xs[..]))
  {
    receiver := Stream.Of(xs);
    result := receiver.Sorted(cmp);
  }

  /** `peek` hands back the receiver itself. */
  method PeekIsSameInstance(xs: array<JsValue>) returns (s: Stream, peeked: Stream)
    ensures s.collection == xs
    ensures peeked == s
  {
    s := Stream.Of(xs);
    peeked := s.Peek();
  }

  /** `limit(n)` followed by `skip(n)` on the same stream partition it. */
  method LimitSkipPartition(xs: array<JsValue>, n: nat) returns (head: seq<JsValue>, tail: seq<JsValue>)
    ensures head + tail == xs[..]
    ensures |head| == Min(n, xs.Length)
  {
    var s := Stream.Of(xs);
    var l := s.Limit(n);
    var k := s.Skip(n);
    head, tail := l.Contents(), k.Contents();
    TakeDrop(xs[..], n);
  }
}
