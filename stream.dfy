/** `Stream` and `StreamBuilder`: an eager pipeline over a backing array.

    A stream owns one array reference, fixed when the stream is built. Every
    intermediate operation materialises a new array and wraps it in a new
    stream, except `peek`, which returns the receiver, and `sorted`, which
    sorts the receiver's own array and wraps that same array. `Stream.of`
    wraps the caller's array without copying it, so the caller and the
    stream share it. Terminal operations read the array and return a plain
    value, an `Optional` or what a collector builds. */
module Streams {
  import opened JsValues
  import opened Sequences
  import opened Optionals
  import Collectors

  /** How `flatMap` spreads one mapper result: an array contributes its
      elements, any other value contributes itself. */
  function Spread(v: JsValue): (r: seq<JsValue>)
    ensures v.Arr? ==> r == v.elems
    ensures !v.Arr? ==> r == [v]
  {
    match v
    case Arr(elems) => elems
    case _ => [v]
  }

  /** A fresh array holding `s`. */
  method NewArray(s: seq<JsValue>) returns (a: array<JsValue>)
    ensures fresh(a) && a[..] == s
  {
    a := new JsValue[|s|](i requires 0 <= i < |s| => s[i]);
  }

  class Stream {
    const collection: array<JsValue>

    /** The elements currently held. */
    function Contents(): seq<JsValue>
      reads collection
    {
      collection[..]
    }

    constructor (collection: array<JsValue>)
      ensures this.collection == collection
    {
      this.collection := collection;
    }

    // ------------------------------------------------------------------
    // Construction

    /** `Stream.of(collection)`: no copy; the stream holds the caller's
        array. */
    static method Of(collection: array<JsValue>) returns (s: Stream)
      ensures fresh(s) && s.collection == collection
    {
      s := new Stream(collection);
    }

    /** `Stream.empty()`: a stream over a fresh empty array. */
    static method Empty() returns (s: Stream)
      ensures fresh(s) && fresh(s.collection) && s.Contents() == []
    {
      var a := NewArray([]);
      s := new Stream(a);
    }

    /** `Stream.concat(a, b)`: a fresh array with a's elements followed by
        b's; neither input is modified. */
    static method Concat(a: Stream, b: Stream) returns (s: Stream)
      ensures fresh(s) && fresh(s.collection)
      ensures s.Contents() == a.Contents() + b.Contents()
    {
      var arr := NewArray(a.collection[..] + b.collection[..]);
      s := new Stream(arr);
    }

    /** `Stream.builder()`: a builder over a fresh empty array. */
    static method Builder() returns (b: StreamBuilder)
      ensures fresh(b) && fresh(b.collection) && b.Contents() == []
    {
      var a := NewArray([]);
      b := new StreamBuilder(a);
    }

    // ------------------------------------------------------------------
    // Intermediate operations

    /** `filter(p)`: the elements satisfying `p`, in their original order. */
    method Filter(p: JsValue -> bool) returns (s: Stream)
      ensures fresh(s) && fresh(s.collection)
      ensures s.Contents() == Sequences.Filter(p, Contents())
      ensures forall i | 0 <= i < s.collection.Length :: p(s.collection[i])
    {
      var arr := NewArray(Sequences.Filter(p, collection[..]));
      s := new Stream(arr);
    }

    /** `map(f)`: one result per element, at the same position; the mapper
        also receives the element's index. */
    method Map(f: (JsValue, nat) -> JsValue) returns (s: Stream)
      ensures fresh(s) && fresh(s.collection)
      ensures s.collection.Length == collection.Length
      ensures forall i | 0 <= i < collection.Length :: s.collection[i] == f(collection[i], i)
    {
      var arr := NewArray(MapIndexed(f, collection[..]));
      s := new Stream(arr);
    }

    /** `flatMap(f)`: the spread mapper results, concatenated in order. */
    method FlatMap(f: JsValue -> JsValue) returns (s: Stream)
      ensures fresh(s) && fresh(s.collection)
      ensures s.Contents() == Sequences.FlatMap(x => Spread(f(x)), Contents())
    {
      var arr := NewArray(Sequences.FlatMap(x => Spread(f(x)), collection[..]));
      s := new Stream(arr);
    }

    /** `distinct()`: an element is pushed when no element pushed so far
        equals it. */
    method Distinct() returns (s: Stream)
      ensures fresh(s) && fresh(s.collection)
      ensures s.Contents() == Sequences.Distinct(Contents())
    {
      var newCollection: seq<JsValue> := [];
      for i := 0 to collection.Length
        invariant newCollection == Sequences.Distinct(collection[..i])
      {
        var oldValue := collection[i];
        assert collection[..i + 1][..i] == collection[..i];
        if forall k | 0 <= k < |newCollection| :: newCollection[k] != oldValue {
          newCollection := newCollection + [oldValue];
        }
      }
      assert collection[..collection.Length] == collection[..];
      var arr := NewArray(newCollection);
      s := new Stream(arr);
    }

    /** `limit(maxSize)` for a non-negative size: the first
        `min(maxSize, count())` elements. */
    method Limit(maxSize: nat) returns (s: Stream)
      ensures fresh(s) && fresh(s.collection)
      ensures s.Contents() == Take(Contents(), maxSize)
    {
      var arr := NewArray(collection[..Sequences.Min(maxSize, collection.Length)]);
      s := new Stream(arr);
    }

    /** `skip(n)` for a non-negative `n`: all but the first
        `min(n, count())` elements. */
    method Skip(n: nat) returns (s: Stream)
      ensures fresh(s) && fresh(s.collection)
      ensures s.Contents() == Drop(Contents(), n)
    {
      var arr := NewArray(collection[Sequences.Min(n, collection.Length)..]);
      s := new Stream(arr);
    }

    /** `sorted(cmp)`: sorts the receiver's own array in place and wraps
        that same array in a new stream. */
    method Sorted(cmp: (JsValue, JsValue) -> int) returns (s: Stream)
      modifies collection
      ensures fresh(s) && s.collection == collection
      ensures collection[..] == SortBy(cmp, old(collection[..]))
      ensures multiset(collection[..]) == multiset(old(collection[..]))
      ensures TotalPreorder(cmp) ==> SortedBy(cmp, collection[..])
    {
      var sorted := SortBy(cmp, collection[..]);
      assert |sorted| == collection.Length by {
        assert |multiset(sorted)| == |multiset(collection[..])|;
      }
      forall i | 0 <= i < collection.Length {
        collection[i] := sorted[i];
      }
      assert collection[..] == sorted;
      if TotalPreorder(cmp) {
        SortBySorted(cmp, old(collection[..]));
      }
      s := new Stream(collection);
    }

    /** `peek(fn)`: the receiver itself, its elements untouched. */
    method Peek() returns (s: Stream)
      ensures s == this && s.Contents() == Contents()
    {
      s := this;
    }

    // ------------------------------------------------------------------
    // Terminal operations

    /** `count()`: the length of the backing array. */
    method Count() returns (n: nat)
      ensures n == |Contents()|
    {
      n := collection.Length;
    }

    /** `allMatch(p)`: `p` holds of every element (true when empty). */
    method AllMatch(p: JsValue -> bool) returns (r: bool)
      ensures r <==> forall i | 0 <= i < collection.Length :: p(collection[i])
    {
      r := All(p, collection[..]);
    }

    /** `anyMatch(p)`: `p` holds of some element (false when empty). */
    method AnyMatch(p: JsValue -> bool) returns (r: bool)
      ensures r <==> exists i | 0 <= i < collection.Length :: p(collection[i])
    {
      r := Any(p, collection[..]);
    }

    /** `noneMatch(p)`: the negation of `anyMatch(p)`. */
    method NoneMatch(p: JsValue -> bool) returns (r: bool)
      ensures r <==> forall i | 0 <= i < collection.Length :: !p(collection[i])
    {
      r := !Any(p, collection[..]);
    }

    /** `findFirst()`: wraps `collection[0]`, which is `undefined` for an
        empty stream. */
    method FindFirst() returns (o: Optional)
      ensures collection.Length == 0 ==> o == Optional.Empty()
      ensures collection.Length > 0 ==> o.Get() == collection[0]
      ensures o.IsPresent() <==> collection.Length > 0 && Truthy(collection[0])
    {
      o := Optional.Of(if collection.Length == 0 then Undefined else collection[0]);
    }

    /** `reduce(initValue, f)`: the left fold of `f` from `initValue`,
        wrapped with `Optional.of`. */
    method Reduce(initValue: JsValue, f: (JsValue, JsValue) -> JsValue) returns (o: Optional)
      ensures o.Get() == FoldLeft(f, initValue, Contents())
      ensures collection.Length == 0 ==> o.Get() == initValue
    {
      o := Optional.Of(FoldLeft(f, initValue, collection[..]));
    }

    /** `max(comparator)`: the fold of the comparator seeded with the first
        element. A comparator that returns one of its arguments yields an
        element of the stream. */
    method Max(comparator: (JsValue, JsValue) -> JsValue) returns (o: Optional)
      requires collection.Length > 0
      ensures o.Get() == FoldLeft(comparator, collection[0], collection[1..])
      ensures (forall a, b :: comparator(a, b) == a || comparator(a, b) == b) ==>
        o.Get() in collection[..]
    {
      o := Optional.Of(FoldLeft(comparator, collection[0], collection[1..]));
      ghost var selects := forall a, b :: comparator(a, b) == a || comparator(a, b) == b;
      if selects {
        FoldLeftSelects(comparator, collection[0], collection[1..]);
      }
    }

    /** `min(comparator)`: the very same reduction as `max`; which element
        wins is decided by the comparator alone. */
    method Min(comparator: (JsValue, JsValue) -> JsValue) returns (o: Optional)
      requires collection.Length > 0
      ensures o.Get() == FoldLeft(comparator, collection[0], collection[1..])
      ensures (forall a, b :: comparator(a, b) == a || comparator(a, b) == b) ==>
        o.Get() in collection[..]
    {
      o := Max(comparator);
    }

    /** `collect(collector)`: hands the backing array to the collector and
        returns its result unchanged. */
    method Collect<K(==)>(collector: Collectors.Collector<JsValue, K>)
      returns (r: Collectors.Collected<JsValue, K>)
      ensures collector.ArrayCollector? ==> r.AsArray? && r.arr == collection
      ensures collector.GroupingByCollector? ==>
        r.AsMap? && r.groups == Collectors.GroupBy(collector.groupFn, Contents())
    {
      r := Collectors.Collect(collector, collection);
    }
  }

  /** A copy-on-append builder: `add` and `addAll` leave the receiver as it
      was and return a new builder over a new array. */
  class StreamBuilder {
    const collection: array<JsValue>

    function Contents(): seq<JsValue>
      reads collection
    {
      collection[..]
    }

    /** `new StreamBuilder(collection)`: holds the given array. */
    constructor (collection: array<JsValue>)
      ensures this.collection == collection
    {
      this.collection := collection;
    }

    /** `add(value)`: a new builder over the old elements followed by
        `value`. */
    method Add(value: JsValue) returns (b: StreamBuilder)
      ensures fresh(b) && fresh(b.collection)
      ensures b.Contents() == Contents() + [value]
    {
      var arr := NewArray(collection[..] + [value]);
      b := new StreamBuilder(arr);
    }

    /** `addAll(values)`: a new builder over the old elements followed by
        those of `values`. */
    method AddAll(values: array<JsValue>) returns (b: StreamBuilder)
      ensures fresh(b) && fresh(b.collection)
      ensures b.Contents() == Contents() + values[..]
    {
      var arr := NewArray(collection[..] + values[..]);
      b := new StreamBuilder(arr);
    }

    /** `build()`: `Stream.of` over the builder's own array. */
    method Build() returns (s: Stream)
      ensures fresh(s) && s.collection == collection
    {
      s := Stream.Of(collection);
    }
  }
}
