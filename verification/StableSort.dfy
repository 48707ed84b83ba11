/** The stable sort of the standard library, as a function, and the facts that define it. */
module StableSort {
  import opened FaceEngine

  /** `x` put into a sorted list behind everything whose key is not larger. */
  function Insert<T>(key: T -> real, sorted: seq<T>, x: T): (result: seq<T>)
    ensures |result| == |sorted| + 1
  {
    if sorted == [] || key(sorted[|sorted| - 1]) <= key(x) then sorted + [x]
    else Insert(key, sorted[..|sorted| - 1], x) + [sorted[|sorted| - 1]]
  }

  function SortByKey<T>(key: T -> real, s: seq<T>): (sorted: seq<T>)
    ensures |sorted| == |s|
  {
    if s == [] then [] else Insert(key, SortByKey(key, s[..|s| - 1]), s[|s| - 1])
  }

  ghost predicate Ascending<T>(key: T -> real, s: seq<T>) {
    forall i, j :: 0 <= i < j < |s| ==> key(s[i]) <= key(s[j])
  }

  lemma {:induction false} InsertKeepsAll<T>(key: T -> real, sorted: seq<T>, x: T)
    ensures multiset(Insert(key, sorted, x)) == multiset(sorted) + multiset{x}
  {
    if sorted != [] && key(sorted[|sorted| - 1]) > key(x) {
      var init, last := sorted[..|sorted| - 1], sorted[|sorted| - 1];
      InsertKeepsAll(key, init, x);
      assert sorted == init + [last];
    }
  }

  lemma {:induction false} InsertKeepsAscending<T>(key: T -> real, sorted: seq<T>, x: T)
    requires Ascending(key, sorted)
    ensures Ascending(key, Insert(key, sorted, x))
  {
    if sorted != [] && key(sorted[|sorted| - 1]) > key(x) {
      var init, last := sorted[..|sorted| - 1], sorted[|sorted| - 1];
      InsertKeepsAscending(key, init, x);
      forall i | 0 <= i < |init| ensures key(init[i]) <= key(last) {
        assert init[i] == sorted[i];
      }
      InsertStaysBelow(key, init, x, key(last));
    }
  }

  /** What is put in and what was there stay below a bound. */
  lemma {:induction false} InsertStaysBelow<T>(key: T -> real, sorted: seq<T>, x: T, bound: real)
    requires key(x) <= bound && forall i :: 0 <= i < |sorted| ==> key(sorted[i]) <= bound
    ensures forall i :: 0 <= i < |Insert(key, sorted, x)| ==> key(Insert(key, sorted, x)[i]) <= bound
  {
    if sorted != [] && key(sorted[|sorted| - 1]) > key(x) {
      InsertStaysBelow(key, sorted[..|sorted| - 1], x, bound);
    }
  }

  /** Sorting orders the list and neither loses nor adds anything. */
  lemma {:induction false} SortIsAPermutation<T>(key: T -> real, s: seq<T>)
    ensures Ascending(key, SortByKey(key, s))
    ensures multiset(SortByKey(key, s)) == multiset(s)
  {
    if s != [] {
      var init := s[..|s| - 1];
      SortIsAPermutation(key, init);
      InsertKeepsAll(key, SortByKey(key, init), s[|s| - 1]);
      InsertKeepsAscending(key, SortByKey(key, init), s[|s| - 1]);
      assert s == init + [s[|s| - 1]];
    }
  }

  function WithKey<T>(key: T -> real, k: real): T -> bool {
    (x: T) => key(x) == k
  }

  lemma {:induction false} InsertKeepsOrder<T>(key: T -> real, sorted: seq<T>, x: T, k: real)
    ensures Filter(WithKey(key, k), Insert(key, sorted, x)) ==
            Filter(WithKey(key, k), sorted) + if key(x) == k then [x] else []
  {
    if sorted == [] || key(sorted[|sorted| - 1]) <= key(x) {
      assert (sorted + [x])[..|sorted|] == sorted;
    } else {
      var init, last := sorted[..|sorted| - 1], sorted[|sorted| - 1];
      InsertKeepsOrder(key, init, x, k);
      var inserted := Insert(key, init, x);
      assert (inserted + [last])[..|inserted|] == inserted;
    }
  }

  /** Sorting is stable: elements of one key keep their order. */
  lemma {:induction false} SortIsStable<T>(key: T -> real, s: seq<T>, k: real)
    ensures Filter(WithKey(key, k), SortByKey(key, s)) == Filter(WithKey(key, k), s)
  {
    if s != [] {
      SortIsStable(key, s[..|s| - 1], k);
      InsertKeepsOrder(key, SortByKey(key, s[..|s| - 1]), s[|s| - 1], k);
    }
  }

  lemma {:induction false} InsertCount<T>(key: T -> real, sorted: seq<T>, x: T, p: T -> bool)
    ensures |Filter(p, Insert(key, sorted, x))| == |Filter(p, sorted)| + if p(x) then 1 else 0
  {
    if sorted == [] || key(sorted[|sorted| - 1]) <= key(x) {
      assert (sorted + [x])[..|sorted|] == sorted;
    } else {
      var init, last := sorted[..|sorted| - 1], sorted[|sorted| - 1];
      InsertCount(key, init, x, p);
      var inserted := Insert(key, init, x);
      assert (inserted + [last])[..|inserted|] == inserted;
    }
  }

  lemma {:induction false} SortCount<T>(key: T -> real, s: seq<T>, p: T -> bool)
    ensures |Filter(p, SortByKey(key, s))| == |Filter(p, s)|
  {
    if s != [] {
      SortCount(key, s[..|s| - 1], p);
      InsertCount(key, SortByKey(key, s[..|s| - 1]), s[|s| - 1], p);
    }
  }

  // ----- the median -----

  function Identity(x: real): real {
    x
  }

  function Median(values: seq<real>): real
    requires values != []
  {
    SortByKey(Identity, values)[|values| / 2]
  }

  function AtMost(m: real): real -> bool {
    (v: real) => v <= m
  }

  function AtLeast(m: real): real -> bool {
    (v: real) => v >= m
  }

  lemma {:induction false} CountOfSplit<T>(p: T -> bool, s: seq<T>, k: nat)
    requires k <= |s|
    ensures (forall i :: 0 <= i < k ==> p(s[i])) ==> |Filter(p, s)| >= k
    ensures (forall i :: k <= i < |s| ==> p(s[i])) ==> |Filter(p, s)| >= |s| - k
  {
    assert s == s[..k] + s[k..];
    FilterSplits(p, s[..k], s[k..]);
    if forall i :: 0 <= i < k ==> p(s[i]) {
      FilterEverything(p, s[..k]);
    }
    if forall i :: k <= i < |s| ==> p(s[i]) {
      FilterEverything(p, s[k..]);
    }
  }

  /** In a sorted list the elements up to the middle are not above it, and those from it on not below. */
  lemma MiddleOfSorted(sorted: seq<real>, mid: nat)
    requires mid < |sorted| && Ascending(Identity, sorted)
    ensures |Filter(AtMost(sorted[mid]), sorted)| >= mid + 1
    ensures |Filter(AtLeast(sorted[mid]), sorted)| >= |sorted| - mid
  {
    var m := sorted[mid];
    forall i | 0 <= i < mid + 1 ensures AtMost(m)(sorted[i]) {
      assert i < mid ==> Identity(sorted[i]) <= Identity(sorted[mid]);
    }
    forall i | mid <= i < |sorted| ensures AtLeast(m)(sorted[i]) {
      assert mid < i ==> Identity(sorted[mid]) <= Identity(sorted[i]);
    }
    CountOfSplit(AtMost(m), sorted, mid + 1);
    CountOfSplit(AtLeast(m), sorted, mid);
  }

  /** The median is one of the values. */
  lemma MedianIsAValue(values: seq<real>)
    requires values != []
    ensures Median(values) in values
  {
    SortIsAPermutation(Identity, values);
    assert SortByKey(Identity, values)[|values| / 2] in multiset(SortByKey(Identity, values));
  }

  /** At least half of the values are not above the median, and at least half not below it. */
  lemma MedianIsInTheMiddle(values: seq<real>)
    requires values != []
    ensures var m := Median(values);
            && m in values
            && 2 * |Filter(AtMost(m), values)| > |values|
            && 2 * |Filter(AtLeast(m), values)| >= |values|
  {
    hide SortByKey, Filter, Ascending;
    MedianIsAValue(values);
    SortIsAPermutation(Identity, values);
    MiddleOfSorted(SortByKey(Identity, values), |values| / 2);
    SortCount(Identity, values, AtMost(Median(values)));
    SortCount(Identity, values, AtLeast(Median(values)));
  }

  // ----- raising all values -----

  function Raised(values: seq<real>, d: real): (raised: seq<real>)
    ensures |raised| == |values| && forall i :: 0 <= i < |values| ==> raised[i] == values[i] + d
  {
    seq(|values|, i requires 0 <= i < |values| => values[i] + d)
  }

  lemma {:induction false} InsertIsRaised(sorted: seq<real>, x: real, d: real)
    ensures Insert(Identity, Raised(sorted, d), x + d) == Raised(Insert(Identity, sorted, x), d)
  {
    if sorted != [] && sorted[|sorted| - 1] > x {
      InsertIsRaised(sorted[..|sorted| - 1], x, d);
      assert Raised(sorted, d)[..|sorted| - 1] == Raised(sorted[..|sorted| - 1], d);
    }
  }

  lemma {:induction false} SortIsRaised(values: seq<real>, d: real)
    ensures SortByKey(Identity, Raised(values, d)) == Raised(SortByKey(Identity, values), d)
  {
    if values != [] {
      var init := values[..|values| - 1];
      SortIsRaised(init, d);
      assert Raised(values, d)[..|values| - 1] == Raised(init, d);
      InsertIsRaised(SortByKey(Identity, init), values[|values| - 1], d);
    }
  }

  /** The median of raised values is raised as much. */
  lemma MedianIsRaised(values: seq<real>, d: real)
    requires values != []
    ensures Median(Raised(values, d)) == Median(values) + d
  {
    SortIsRaised(values, d);
  }
}
