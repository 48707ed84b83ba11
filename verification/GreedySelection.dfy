/**
 * Greedy choice of a capped, duplicate-free subset of a ranked list, and its optimality:
 * it is the lexicographically first of all such subsets.
 */
module GreedySelection {

  /** The positions kept among the first `n`: every one that still fits and repeats nothing kept. */
  function Greedy<T>(same: (T, T) -> bool, items: seq<T>, cap: nat, n: nat): (kept: seq<nat>)
    requires n <= |items|
    ensures forall k :: 0 <= k < |kept| ==> kept[k] < n
  {
    if n == 0 then []
    else
      var before := Greedy(same, items, cap, n - 1);
      if |before| >= cap || Repeats(same, items, before, n - 1) then before else before + [n - 1]
  }

  lemma {:induction false} GreedyIncreases<T>(same: (T, T) -> bool, items: seq<T>, cap: nat, n: nat)
    requires n <= |items|
    ensures Increasing(Greedy(same, items, cap, n))
  {
    if n > 0 {
      GreedyIncreases(same, items, cap, n - 1);
    }
  }

  predicate Increasing(s: seq<nat>) {
    forall k, l :: 0 <= k < l < |s| ==> s[k] < s[l]
  }

  predicate Repeats<T>(same: (T, T) -> bool, items: seq<T>, kept: seq<nat>, i: nat)
    requires i < |items| && forall k :: 0 <= k < |kept| ==> kept[k] < |items|
  {
    exists k :: 0 <= k < |kept| && same(items[kept[k]], items[i])
  }

  /** The positions kept out of the whole list, as a set. */
  function GreedySet<T>(same: (T, T) -> bool, items: seq<T>, cap: nat): set<nat> {
    ToSet(Greedy(same, items, cap, |items|))
  }

  function ToSet(s: seq<nat>): (members: set<nat>)
    ensures forall x :: x in members <==> x in s
  {
    if s == [] then {} else ToSet(s[..|s| - 1]) + {s[|s| - 1]}
  }

  /** A choice that respects the cap and contains no item that repeats an earlier one. */
  ghost predicate Admissible<T>(same: (T, T) -> bool, items: seq<T>, cap: nat, chosen: set<nat>) {
    && |chosen| <= cap
    && (forall i :: i in chosen ==> i < |items|)
    && (forall i, j :: i in chosen && j in chosen && i < j ==> !same(items[i], items[j]))
  }

  function Below(chosen: set<nat>, i: nat): set<nat> {
    set k | k in chosen && k < i
  }

  lemma {:induction false} GreedyPrefix<T>(same: (T, T) -> bool, items: seq<T>, cap: nat, m: nat, n: nat)
    requires m <= n <= |items|
    ensures Greedy(same, items, cap, m) <= Greedy(same, items, cap, n)
    ensures forall k :: k in Greedy(same, items, cap, m) <==> k in Greedy(same, items, cap, n) && k < m
  {
    if m < n {
      GreedyPrefix(same, items, cap, m, n - 1);
    }
  }

  lemma {:induction false} DistinctCount(s: seq<nat>)
    requires Increasing(s)
    ensures |ToSet(s)| == |s|
  {
    if s != [] {
      var init := s[..|s| - 1];
      DistinctCount(init);
      assert s[|s| - 1] !in init;
    }
  }

  /** What the choice holds below a position is what it had chosen by then. */
  lemma BelowIsPrefix<T>(same: (T, T) -> bool, items: seq<T>, cap: nat, i: nat)
    requires i <= |items|
    ensures Below(GreedySet(same, items, cap), i) == ToSet(Greedy(same, items, cap, i))
    ensures |Below(GreedySet(same, items, cap), i)| == |Greedy(same, items, cap, i)|
  {
    GreedyPrefix(same, items, cap, i, |items|);
    GreedyIncreases(same, items, cap, i);
    DistinctCount(Greedy(same, items, cap, i));
  }

  /** Exactly which positions are kept: those that find room and repeat nothing kept before them. */
  lemma GreedyKeeps<T>(same: (T, T) -> bool, items: seq<T>, cap: nat, i: nat)
    requires i < |items|
    ensures var kept := GreedySet(same, items, cap);
            i in kept <==> |Below(kept, i)| < cap && forall k :: k in kept && k < i ==> !same(items[k], items[i])
  {
    var kept, before := GreedySet(same, items, cap), Greedy(same, items, cap, i);
    BelowIsPrefix(same, items, cap, i);
    BelowIsPrefix(same, items, cap, i + 1);
    assert i in kept <==> i in ToSet(Greedy(same, items, cap, i + 1));
    assert i !in before;
    assert forall k :: k in kept && k < i <==> k in ToSet(before);
    RepeatsMeans(same, items, before, i);
  }

  lemma RepeatsMeans<T>(same: (T, T) -> bool, items: seq<T>, kept: seq<nat>, i: nat)
    requires i < |items| && forall k :: 0 <= k < |kept| ==> kept[k] < |items|
    ensures Repeats(same, items, kept, i) <==> exists k :: k in ToSet(kept) && k < |items| && same(items[k], items[i])
  {
    if k :| k in ToSet(kept) && k < |items| && same(items[k], items[i]) {
      var p :| 0 <= p < |kept| && kept[p] == k;
    }
    if p :| 0 <= p < |kept| && same(items[kept[p]], items[i]) {
      assert kept[p] in ToSet(kept);
    }
  }

  lemma GreedyIsAdmissible<T>(same: (T, T) -> bool, items: seq<T>, cap: nat)
    ensures Admissible(same, items, cap, GreedySet(same, items, cap))
  {
    var kept := GreedySet(same, items, cap);
    var positions := Greedy(same, items, cap, |items|);
    GreedyRespectsCap(same, items, cap, |items|);
    GreedyIncreases(same, items, cap, |items|);
    DistinctCount(positions);
    forall i, j | i in kept && j in kept && i < j ensures !same(items[i], items[j]) {
      GreedyKeeps(same, items, cap, j);
    }
  }

  lemma {:induction false} GreedyRespectsCap<T>(same: (T, T) -> bool, items: seq<T>, cap: nat, n: nat)
    requires n <= |items|
    ensures |Greedy(same, items, cap, n)| <= cap
  {
    if n > 0 {
      GreedyRespectsCap(same, items, cap, n - 1);
    }
  }

  lemma SmallerSubset<T>(small: set<T>, large: set<T>, extra: T)
    requires small <= large && extra in large && extra !in small
    ensures |small| < |large|
  {
    var rest := large - small - {extra};
    assert large == small + {extra} + rest;
  }

  /**
   * Optimality: the greedy choice is lexicographically first.  Whenever an admissible
   * choice agrees with it on all positions before `i` and contains `i`, so does the greedy.
   */
  lemma GreedyIsFirst<T>(same: (T, T) -> bool, items: seq<T>, cap: nat, chosen: set<nat>, i: nat)
    requires Admissible(same, items, cap, chosen) && i in chosen
    requires Below(chosen, i) == Below(GreedySet(same, items, cap), i)
    ensures i in GreedySet(same, items, cap)
  {
    var kept := GreedySet(same, items, cap);
    GreedyKeeps(same, items, cap, i);
    SmallerSubset(Below(chosen, i), chosen, i);
    forall k | k in kept && k < i ensures !same(items[k], items[i]) {
      assert k in Below(kept, i);
    }
  }

  /** Every admissible choice that agrees with `chosen` up to some position lies in it there too. */
  ghost predicate LexicographicallyFirst<T>(same: (T, T) -> bool, items: seq<T>, cap: nat, chosen: set<nat>) {
    forall other: set<nat>, i: nat ::
      (Admissible(same, items, cap, other) && i in other && Below(other, i) == Below(chosen, i)) ==> i in chosen
  }

  /** No other admissible choice is lexicographically first, so the greedy one is determined by this. */
  lemma FirstIsUnique<T>(same: (T, T) -> bool, items: seq<T>, cap: nat, chosen: set<nat>)
    requires Admissible(same, items, cap, chosen)
    requires LexicographicallyFirst(same, items, cap, chosen)
    ensures chosen == GreedySet(same, items, cap)
  {
    var kept := GreedySet(same, items, cap);
    GreedyIsAdmissible(same, items, cap);
    SamePrefixes(same, items, cap, chosen, |items|);
    assert Below(chosen, |items|) == chosen && Below(kept, |items|) == kept;
  }

  lemma {:induction false} SamePrefixes<T>(same: (T, T) -> bool, items: seq<T>, cap: nat, chosen: set<nat>, n: nat)
    requires n <= |items| && Admissible(same, items, cap, chosen)
    requires LexicographicallyFirst(same, items, cap, chosen)
    ensures Below(chosen, n) == Below(GreedySet(same, items, cap), n)
  {
    if n > 0 {
      var kept, i := GreedySet(same, items, cap), n - 1;
      SamePrefixes(same, items, cap, chosen, i);
      SameAt(same, items, cap, chosen, i);
      OneMoreBelow(chosen, i);
      OneMoreBelow(kept, i);
    }
  }

  lemma SameAt<T>(same: (T, T) -> bool, items: seq<T>, cap: nat, chosen: set<nat>, i: nat)
    requires i < |items| && Admissible(same, items, cap, chosen)
    requires LexicographicallyFirst(same, items, cap, chosen)
    requires Below(chosen, i) == Below(GreedySet(same, items, cap), i)
    ensures i in chosen <==> i in GreedySet(same, items, cap)
  {
    GreedyIsAdmissible(same, items, cap);
    if i in chosen {
      GreedyIsFirst(same, items, cap, chosen, i);
    }
  }

  lemma OneMoreBelow(chosen: set<nat>, i: nat)
    ensures Below(chosen, i + 1) == Below(chosen, i) + if i in chosen then {i} else {}
  {
  }

  /** The first item is always kept, and an item is left out only for want of room or as a repetition. */
  lemma WhyLeftOut<T>(same: (T, T) -> bool, items: seq<T>, cap: nat, i: nat)
    requires i < |items| && cap > 0 && i !in GreedySet(same, items, cap)
    ensures i > 0
    ensures |Below(GreedySet(same, items, cap), i)| == cap
            || exists k :: k in GreedySet(same, items, cap) && k < i && same(items[k], items[i])
  {
    var kept := GreedySet(same, items, cap);
    GreedyKeeps(same, items, cap, i);
    GreedyIsAdmissible(same, items, cap);
    if |Below(kept, i)| >= cap {
      if |Below(kept, i)| > cap {
        SubsetIsNoLarger(Below(kept, i), kept);
      }
    }
  }

  lemma {:induction false} SubsetIsNoLarger<T>(small: set<T>, large: set<T>)
    requires small <= large
    ensures |small| <= |large|
  {
    assert large == small + (large - small);
  }
}
