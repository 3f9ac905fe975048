/** Collectors: pluggable terminal reductions of a stream's backing array.

    `Collectors.toArray()` hands back the very array it is given;
    `Collectors.groupingBy(groupFn)` builds a map from each key to the
    elements with that key, in encounter order. The collector interface is
    modelled as a datatype with one constructor per strategy. */
module Collectors {
  import opened Sequences

  datatype Collector<!T, K> =
    | ArrayCollector                       // Collectors.toArray()
    | GroupingByCollector(groupFn: T -> K) // Collectors.groupingBy(groupFn)

  /** What a collector produces: the input array itself, or the groups. */
  datatype Collected<T, K> =
    | AsArray(arr: array<T>)
    | AsMap(groups: map<K, seq<T>>)

  /** `ArrayCollector.collect`: no copy is made. */
  method ArrayCollect<T>(collection: array<T>) returns (r: array<T>)
    ensures r == collection
  {
    r := collection;
  }

  /** One step of the grouping loop: the group for `groupFn(value)` is
      replaced by the old group (or the empty one) followed by `value`. A key
      that is already present is merged into, never an error. */
  function AddToGroup<T, K>(groupFn: T -> K, groups: map<K, seq<T>>, value: T): (m: map<K, seq<T>>)
    ensures m.Keys == groups.Keys + {groupFn(value)}
    ensures groupFn(value) in groups ==> m[groupFn(value)] == groups[groupFn(value)] + [value]
    ensures groupFn(value) !in groups ==> m[groupFn(value)] == [value]
    ensures forall k | k in groups && k != groupFn(value) :: m[k] == groups[k]
  {
    var key := groupFn(value);
    groups[key := (if key in groups then groups[key] else []) + [value]]
  }

  /** The map the grouping loop has built after visiting `s`. */
  function GroupBy<T, K>(groupFn: T -> K, s: seq<T>): map<K, seq<T>>
  {
    if |s| == 0 then map[]
    else AddToGroup(groupFn, GroupBy(groupFn, s[..|s| - 1]), s[|s| - 1])
  }

  /** The keys are exactly the keys of the input elements; in particular an
      empty input gives an empty map. */
  lemma {:induction false} GroupByKeys<T, K>(groupFn: T -> K, s: seq<T>)
    ensures GroupBy(groupFn, s).Keys == set x | x in s :: groupFn(x)
  {
    if |s| > 0 {
      var s' := s[..|s| - 1];
      GroupByKeys(groupFn, s');
      assert s == s' + [s[|s| - 1]];
    }
  }

  /** The group stored for `k`, the empty one when `k` is absent. */
  function GroupOf<K, T>(m: map<K, seq<T>>, k: K): seq<T>
  {
    if k in m then m[k] else []
  }

  /** The group for any key `k` is the subsequence of input elements whose
      key is `k`. */
  lemma {:induction false} GroupByGroup<T(!new), K>(groupFn: T -> K, s: seq<T>, k: K)
    ensures GroupOf(GroupBy(groupFn, s), k) == Filter(x => groupFn(x) == k, s)
  {
    if |s| > 0 {
      var s' := s[..|s| - 1];
      GroupByGroup(groupFn, s', k);
    }
  }

  lemma GroupByGroups<T(!new), K>(groupFn: T -> K, s: seq<T>)
    ensures var m := GroupBy(groupFn, s);
      forall k | k in m :: m[k] == Filter(x => groupFn(x) == k, s)
  {
    var m := GroupBy(groupFn, s);
    forall k | k in m ensures m[k] == Filter(x => groupFn(x) == k, s) {
      GroupByGroup(groupFn, s, k);
    }
  }

  /** Elements sharing a key merge into one group, in encounter order;
      a collision is never an error. */
  lemma GroupByMerges<T, K>(groupFn: T -> K, x1: T, x2: T, x3: T)
    requires groupFn(x1) == groupFn(x3) != groupFn(x2)
    ensures GroupBy(groupFn, [x1, x2, x3]) == map[groupFn(x1) := [x1, x3], groupFn(x2) := [x2]]
  {
    var k1, k2 := groupFn(x1), groupFn(x2);
    assert [x1][..0] == [];
    assert GroupBy(groupFn, [x1]) == map[k1 := [x1]];
    assert [x1, x2][..1] == [x1];
    var m2 := map[k1 := [x1], k2 := [x2]];
    assert GroupBy(groupFn, [x1, x2]) == m2;
    assert [x1, x2, x3][..2] == [x1, x2];
    assert [x1] + [x3] == [x1, x3];
    assert m2[k1 := [x1, x3]] == map[k1 := [x1, x3], k2 := [x2]];
  }

  // ---------------------------------------------------------------------
  // Every element lands in exactly one group.

  /** Some key of a non-empty map. */
  ghost function PickKey<K, V>(m: map<K, V>): (k: K)
    requires |m| > 0
    ensures k in m
  {
    assert m.Keys != {};
    var k :| k in m;
    k
  }

  /** The sum of the group lengths. */
  ghost function TotalSize<K, T>(m: map<K, seq<T>>): nat
    decreases |m|
  {
    if |m| == 0 then 0
    else
      var k := PickKey(m);
      assert |m - {k}| == |m| - 1;
      |m[k]| + TotalSize(m - {k})
  }

  lemma {:induction false} TotalSizeRemove<K, T>(m: map<K, seq<T>>, k: K)
    requires k in m
    ensures TotalSize(m) == |m[k]| + TotalSize(m - {k})
    decreases |m|
  {
    var k' := PickKey(m);
    assert TotalSize(m) == |m[k']| + TotalSize(m - {k'});
    if k' != k {
      var both := (m - {k'}) - {k};
      assert both == (m - {k}) - {k'};
      assert |m - {k'}| == |m| - 1 && |m - {k}| == |m| - 1;
      TotalSizeRemove(m - {k'}, k);
      TotalSizeRemove(m - {k}, k');
    }
  }

  lemma RemoveUpdated<K, V>(m: map<K, V>, k: K, v: V)
    ensures m[k := v] - {k} == m - {k}
  {
  }

  lemma RemoveAbsent<K, V>(m: map<K, V>, k: K)
    requires k !in m
    ensures m - {k} == m
  {
  }

  lemma AddToGroupSize<T, K>(groupFn: T -> K, groups: map<K, seq<T>>, value: T)
    ensures TotalSize(AddToGroup(groupFn, groups, value)) == TotalSize(groups) + 1
  {
    var key := groupFn(value);
    var group := GroupOf(groups, key) + [value];
    var m := groups[key := group];
    assert AddToGroup(groupFn, groups, value) == m;
    TotalSizeRemove(m, key);
    RemoveUpdated(groups, key, group);
    if key in groups {
      TotalSizeRemove(groups, key);
    } else {
      RemoveAbsent(groups, key);
    }
  }

  /** The group lengths add up to the input length. */
  lemma {:induction false} GroupBySize<T, K>(groupFn: T -> K, s: seq<T>)
    ensures TotalSize(GroupBy(groupFn, s)) == |s|
  {
    if |s| > 0 {
      GroupBySize(groupFn, s[..|s| - 1]);
      AddToGroupSize(groupFn, GroupBy(groupFn, s[..|s| - 1]), s[|s| - 1]);
    }
  }

  // ---------------------------------------------------------------------
  // The collectors

  /** `GroupingByCollector.collect`: a fresh map updated once per element, in
      order. */
  method GroupingByCollect<T(!new), K(==)>(groupFn: T -> K, collection: array<T>)
    returns (m: map<K, seq<T>>)
    ensures m == GroupBy(groupFn, collection[..])
    ensures m.Keys == set x | x in collection[..] :: groupFn(x)
    ensures forall k | k in m :: m[k] == Filter(x => groupFn(x) == k, collection[..])
  {
    m := map[];
    for i := 0 to collection.Length
      invariant m == GroupBy(groupFn, collection[..i])
    {
      var value := collection[i];
      m := m[groupFn(value) := (if groupFn(value) in m then m[groupFn(value)] else []) + [value]];
      assert collection[..i + 1][..i] == collection[..i];
    }
    assert collection[..collection.Length] == collection[..];
    GroupByKeys(groupFn, collection[..]);
    GroupByGroups(groupFn, collection[..]);
  }

  /** `collector.collect(collection)`: dispatch on the strategy. */
  method Collect<T(!new), K(==)>(c: Collector<T, K>, collection: array<T>)
    returns (r: Collected<T, K>)
    ensures c.ArrayCollector? ==> r.AsArray? && r.arr == collection
    ensures c.GroupingByCollector? ==> r.AsMap? && r.groups == GroupBy(c.groupFn, collection[..])
  {
    match c
    case ArrayCollector =>
      var arr := ArrayCollect(collection);
      r := AsArray(arr);
    case GroupingByCollector(groupFn) =>
      var groups := GroupingByCollect(groupFn, collection);
      r := AsMap(groups);
  }
}
