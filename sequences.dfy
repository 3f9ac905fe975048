/** Sequence-level meaning of the stream operations.

    Every intermediate and terminal operation of a stream is a single
    expression over its backing array; this module gives each of those
    expressions a definition on `seq` and proves what it promises. The
    definitions follow the order in which the array methods visit elements:
    index 0 first. */
module Sequences {

  function Min(a: nat, b: nat): nat
  {
    if a <= b then a else b
  }

  /** `r` is obtained from `s` by deleting elements, keeping the order of the
      rest. */
  ghost predicate IsSubsequence<T>(r: seq<T>, s: seq<T>)
    decreases |s|
  {
    if |r| == 0 then true
    else if |s| == 0 then false
    else
      (r[|r| - 1] == s[|s| - 1] && IsSubsequence(r[..|r| - 1], s[..|s| - 1]))
      || IsSubsequence(r, s[..|s| - 1])
  }

  ghost predicate NoDuplicates<T>(s: seq<T>)
  {
    forall i, j | 0 <= i < j < |s| :: s[i] != s[j]
  }

  // ---------------------------------------------------------------------
  // filter

  /** `Array.prototype.filter`: the elements satisfying `p`, in order. */
  function Filter<T(!new)>(p: T -> bool, s: seq<T>): (r: seq<T>)
    ensures forall i | 0 <= i < |r| :: p(r[i])
    ensures forall x :: multiset(r)[x] == if p(x) then multiset(s)[x] else 0
  {
    if |s| == 0 then []
    else
      var rest := Filter(p, s[..|s| - 1]);
      var last := s[|s| - 1];
      assert s == s[..|s| - 1] + [last];
      if p(last) then rest + [last] else rest
  }

  /** `filter` only deletes elements: what it keeps stays in order. */
  lemma {:induction false} FilterIsSubsequence<T(!new)>(p: T -> bool, s: seq<T>)
    ensures IsSubsequence(Filter(p, s), s)
  {
    if |s| > 0 {
      FilterIsSubsequence(p, s[..|s| - 1]);
    }
  }

  // ---------------------------------------------------------------------
  // map and flatMap

  /** `Array.prototype.map` with the element's index passed to the mapper. */
  function MapIndexed<T, U>(f: (T, nat) -> U, s: seq<T>): (r: seq<U>)
    ensures |r| == |s|
    ensures forall i | 0 <= i < |s| :: r[i] == f(s[i], i)
  {
    if |s| == 0 then [] else MapIndexed(f, s[..|s| - 1]) + [f(s[|s| - 1], |s| - 1)]
  }

  /** One level of flattening: the sub-sequences `f(x)`, concatenated in
      order. */
  function FlatMap<T, U(!new)>(f: T -> seq<U>, s: seq<T>): (r: seq<U>)
    ensures forall y :: y in r <==> exists i | 0 <= i < |s| :: y in f(s[i])
  {
    if |s| == 0 then []
    else
      var rest := FlatMap(f, s[..|s| - 1]);
      assert forall i | 0 <= i < |s| - 1 :: s[..|s| - 1][i] == s[i];
      rest + f(s[|s| - 1])
  }

  /** FlatMap distributes over concatenation of its input. */
  lemma {:induction false} FlatMapAppend<T, U(!new)>(f: T -> seq<U>, a: seq<T>, b: seq<T>)
    ensures FlatMap(f, a + b) == FlatMap(f, a) + FlatMap(f, b)
    decreases |b|
  {
    if |b| == 0 {
      assert a + b == a;
    } else {
      var b' := b[..|b| - 1];
      assert (a + b)[..|a + b| - 1] == a + b';
      FlatMapAppend(f, a, b');
    }
  }

  /** Flat-mapping to one-element sequences is mapping. */
  lemma {:induction false} FlatMapSingletons<T, U(!new)>(g: T -> U, s: seq<T>)
    ensures FlatMap(x => [g(x)], s) == MapIndexed((x, i) => g(x), s)
  {
    if |s| > 0 {
      FlatMapSingletons(g, s[..|s| - 1]);
    }
  }

  // ---------------------------------------------------------------------
  // limit and skip

  /** `slice(0, n)` for `n >= 0`: the first `min(n, |s|)` elements. */
  function Take<T>(s: seq<T>, n: nat): (r: seq<T>)
    ensures |r| == Min(n, |s|)
    ensures forall i | 0 <= i < |r| :: r[i] == s[i]
  {
    s[..Min(n, |s|)]
  }

  /** `slice(n)` for `n >= 0`: all but the first `min(n, |s|)` elements. */
  function Drop<T>(s: seq<T>, n: nat): (r: seq<T>)
    ensures |r| == |s| - Min(n, |s|)
    ensures forall i | 0 <= i < |r| :: r[i] == s[i + Min(n, |s|)]
  {
    s[Min(n, |s|)..]
  }

  lemma TakeDrop<T>(s: seq<T>, n: nat)
    ensures Take(s, n) + Drop(s, n) == s
  {
  }

  // ---------------------------------------------------------------------
  // distinct

  /** First-occurrence deduplication: an element is appended to the result
      only when no element already kept equals it. */
  function Distinct<T(==,!new)>(s: seq<T>): (r: seq<T>)
    ensures NoDuplicates(r)
    ensures forall i | 0 <= i < |s| :: s[i] in r
    ensures forall i | 0 <= i < |r| :: r[i] in s
  {
    if |s| == 0 then []
    else
      var kept := Distinct(s[..|s| - 1]);
      var x := s[|s| - 1];
      assert s == s[..|s| - 1] + [x];
      if x in kept then kept else kept + [x]
  }

  /** `distinct` only deletes elements: what it keeps stays in order. */
  lemma {:induction false} DistinctIsSubsequence<T(!new)>(s: seq<T>)
    ensures IsSubsequence(Distinct(s), s)
  {
    if |s| > 0 {
      DistinctIsSubsequence(s[..|s| - 1]);
    }
  }

  /** One more element is kept exactly when it is new. */
  lemma DistinctSnoc<T(!new)>(s: seq<T>, x: T)
    ensures Distinct(s + [x]) == if x in Distinct(s) then Distinct(s) else Distinct(s) + [x]
  {
    assert (s + [x])[..|s|] == s;
  }

  /** A later repeat of an earlier element is dropped. */
  lemma DistinctDropsRepeat<T(!new)>(a: T, b: T, c: T)
    requires a != b && b != c && a != c
    ensures Distinct([a, b, c, b]) == [a, b, c]
  {
    DistinctOfNoDuplicates([a, b, c]);
    DistinctSnoc([a, b, c], b);
    assert [a, b, c] + [b] == [a, b, c, b];
  }

  /** Deduplicating a prefix of the input gives a prefix of the result: the
      result only ever grows at its end. */
  lemma {:induction false} DistinctOfPrefix<T(!new)>(s: seq<T>, n: nat)
    requires n <= |s|
    ensures Distinct(s[..n]) <= Distinct(s)
    decreases |s|
  {
    if n < |s| {
      var s' := s[..|s| - 1];
      assert s[..n] == s'[..n];
      DistinctOfPrefix(s', n);
    } else {
      assert s[..n] == s;
    }
  }

  /** Kept elements appear in the order of their first occurrences: whenever
      a later kept element has been seen in a prefix of the input, every
      earlier kept element has been seen in it too. */
  lemma DistinctFirstOccurrenceOrder<T(!new)>(s: seq<T>)
    ensures var r := Distinct(s);
      forall i, j, n | 0 <= i < j < |r| && 0 <= n <= |s| && r[j] in s[..n] :: r[i] in s[..n]
  {
    var r := Distinct(s);
    forall i, j, n | 0 <= i < j < |r| && 0 <= n <= |s| && r[j] in s[..n]
      ensures r[i] in s[..n]
    {
      DistinctOfPrefix(s, n);
      var p := Distinct(s[..n]);
      var k :| 0 <= k < |p| && p[k] == r[j];
      assert r[k] == r[j];
      assert j < |p|;
      assert r[i] == p[i];
    }
  }

  /** A sequence without duplicates is its own deduplication. */
  lemma {:induction false} DistinctOfNoDuplicates<T(!new)>(s: seq<T>)
    requires NoDuplicates(s)
    ensures Distinct(s) == s
  {
    if |s| > 0 {
      var s' := s[..|s| - 1];
      DistinctOfNoDuplicates(s');
      assert s[|s| - 1] !in s';
    }
  }

  lemma DistinctIdempotent<T(!new)>(s: seq<T>)
    ensures Distinct(Distinct(s)) == Distinct(s)
  {
    DistinctOfNoDuplicates(Distinct(s));
  }

  // ---------------------------------------------------------------------
  // reduce, max and min

  /** `Array.prototype.reduce(f, init)`: the accumulator starts at `init` and
      is combined with each element from index 0 on. */
  function FoldLeft<T, O>(f: (O, T) -> O, init: O, s: seq<T>): O
  {
    if |s| == 0 then init else FoldLeft(f, f(init, s[0]), s[1..])
  }

  /** Folding one more element at the end combines it with the fold of the
      rest: the fold is a left fold. */
  lemma {:induction false} FoldLeftSnoc<T, O>(f: (O, T) -> O, init: O, s: seq<T>, x: T)
    ensures FoldLeft(f, init, s + [x]) == f(FoldLeft(f, init, s), x)
  {
    if |s| > 0 {
      assert (s + [x])[1..] == s[1..] + [x];
      FoldLeftSnoc(f, f(init, s[0]), s[1..], x);
    }
  }

  /** When `f` always returns one of its two arguments (a comparator in the
      sense of `max`/`min`), the fold returns the seed or an element. */
  lemma {:induction false} FoldLeftSelects<T>(f: (T, T) -> T, init: T, s: seq<T>)
    requires forall a, b :: f(a, b) == a || f(a, b) == b
    ensures FoldLeft(f, init, s) == init || FoldLeft(f, init, s) in s
  {
    if |s| > 0 {
      FoldLeftSelects(f, f(init, s[0]), s[1..]);
    }
  }

  // ---------------------------------------------------------------------
  // allMatch, anyMatch

  /** `Array.prototype.every`. */
  function All<T>(p: T -> bool, s: seq<T>): (r: bool)
    ensures r <==> forall i | 0 <= i < |s| :: p(s[i])
  {
    |s| == 0 || (p(s[0]) && All(p, s[1..]))
  }

  /** `Array.prototype.some`. */
  function Any<T>(p: T -> bool, s: seq<T>): (r: bool)
    ensures r <==> exists i | 0 <= i < |s| :: p(s[i])
  {
    |s| > 0 && (p(s[0]) || Any(p, s[1..]))
  }

  /** Everything kept by `filter(p)` satisfies `p`. */
  lemma {:induction false} FilterAllMatch<T(!new)>(p: T -> bool, s: seq<T>)
    ensures All(p, Filter(p, s))
  {
  }

  // ---------------------------------------------------------------------
  // sorted

  /** Any two values can be placed in some order: `cmp(a, b) <= 0` or
      `cmp(b, a) <= 0`. */
  ghost predicate Total<T(!new)>(cmp: (T, T) -> int)
  {
    forall a, b :: cmp(a, b) <= 0 || cmp(b, a) <= 0
  }

  ghost predicate Transitive<T(!new)>(cmp: (T, T) -> int)
  {
    forall a, b, c :: cmp(a, b) <= 0 && cmp(b, c) <= 0 ==> cmp(a, c) <= 0
  }

  /** The comparator's "may come before" relation `cmp(a, b) <= 0` is total
      and transitive: the condition under which sorting is well defined. */
  ghost predicate TotalPreorder<T(!new)>(cmp: (T, T) -> int)
  {
    Total(cmp) && Transitive(cmp)
  }

  /** Every element may come before every later one. */
  ghost predicate SortedBy<T>(cmp: (T, T) -> int, s: seq<T>)
  {
    forall i, j | 0 <= i < j < |s| :: cmp(s[i], s[j]) <= 0
  }

  ghost predicate NeighboursSorted<T>(cmp: (T, T) -> int, s: seq<T>)
  {
    forall i | 0 <= i < |s| - 1 :: cmp(s[i], s[i + 1]) <= 0
  }

  /** Insert `x` before the first element it may precede. */
  function Insert<T>(cmp: (T, T) -> int, x: T, s: seq<T>): (r: seq<T>)
    ensures multiset(r) == multiset(s) + multiset{x}
    ensures |r| == |s| + 1
    ensures r[0] == x || (|s| > 0 && r[0] == s[0])
  {
    if |s| == 0 then [x]
    else if cmp(x, s[0]) <= 0 then [x] + s
    else
      assert s == [s[0]] + s[1..];
      [s[0]] + Insert(cmp, x, s[1..])
  }

  /** The sorted arrangement of `s` under `cmp` (an insertion sort). */
  function SortBy<T>(cmp: (T, T) -> int, s: seq<T>): (r: seq<T>)
    ensures multiset(r) == multiset(s)
  {
    if |s| == 0 then []
    else
      assert s == [s[0]] + s[1..];
      Insert(cmp, s[0], SortBy(cmp, s[1..]))
  }

  lemma {:induction false} InsertNeighboursSorted<T(!new)>(cmp: (T, T) -> int, x: T, s: seq<T>)
    requires Total(cmp)
    requires NeighboursSorted(cmp, s)
    ensures NeighboursSorted(cmp, Insert(cmp, x, s))
  {
    if |s| > 0 && cmp(x, s[0]) > 0 {
      var tail := Insert(cmp, x, s[1..]);
      InsertNeighboursSorted(cmp, x, s[1..]);
      assert cmp(s[0], x) <= 0;
      var r := [s[0]] + tail;
      forall i | 0 <= i < |r| - 1 ensures cmp(r[i], r[i + 1]) <= 0 {
        if i > 0 {
          assert r[i] == tail[i - 1] && r[i + 1] == tail[i];
        }
      }
    }
  }

  /** Under a transitive comparator, sorted neighbours mean a sorted
      sequence. */
  lemma {:induction false} NeighboursSortedIsSorted<T(!new)>(cmp: (T, T) -> int, s: seq<T>)
    requires Transitive(cmp)
    requires NeighboursSorted(cmp, s)
    ensures SortedBy(cmp, s)
  {
    if |s| > 1 {
      var s' := s[..|s| - 1];
      NeighboursSortedIsSorted(cmp, s');
      forall i, j | 0 <= i < j < |s| ensures cmp(s[i], s[j]) <= 0 {
        if j < |s| - 1 {
          assert s[i] == s'[i] && s[j] == s'[j];
        } else if i < j - 1 {
          assert cmp(s'[i], s'[j - 1]) <= 0;
          assert cmp(s[j - 1], s[j]) <= 0;
        }
      }
    }
  }

  lemma {:induction false} SortByNeighboursSorted<T(!new)>(cmp: (T, T) -> int, s: seq<T>)
    requires Total(cmp)
    ensures NeighboursSorted(cmp, SortBy(cmp, s))
  {
    if |s| > 0 {
      SortByNeighboursSorted(cmp, s[1..]);
      InsertNeighboursSorted(cmp, s[0], SortBy(cmp, s[1..]));
    }
  }

  /** Sorting under a total preorder yields a sorted sequence. */
  lemma SortBySorted<T(!new)>(cmp: (T, T) -> int, s: seq<T>)
    requires TotalPreorder(cmp)
    ensures SortedBy(cmp, SortBy(cmp, s))
  {
    SortByNeighboursSorted(cmp, s);
    NeighboursSortedIsSorted(cmp, SortBy(cmp, s));
  }
}
