/**
 * The two nested loops over a list that visit every pair of positions `i < j`
 * once, in order, keep the pairs a test accepts and build one value from each.
 * The candidate search of the component is this shape with its own test.
 */
module Enumeration {
  /** What the inner loop for outer position `i` emits before inner position `j`. */
  function PairsWith<T, P>(items: seq<T>, ok: (T, T) -> bool, mk: (T, T) -> P, i: nat, j: nat): seq<P>
    requires i < j <= |items|
    decreases j
  {
    if j == i + 1 then []
    else
      PairsWith(items, ok, mk, i, j - 1) +
      (if ok(items[i], items[j - 1]) then [mk(items[i], items[j - 1])] else [])
  }

  /** What the outer loop emits before outer position `i`; positions `skip` accepts emit nothing. */
  function AllPairs<T, P>(items: seq<T>, ok: (T, T) -> bool, mk: (T, T) -> P, skip: T -> bool, i: nat): seq<P>
    requires i <= |items|
  {
    if i == 0 then []
    else
      AllPairs(items, ok, mk, skip, i - 1) +
      (if skip(items[i - 1]) then [] else PairsWith(items, ok, mk, i - 1, |items|))
  }

  lemma {:induction false} PairsWithSound<T, P>(items: seq<T>, ok: (T, T) -> bool, mk: (T, T) -> P, i: nat, j: nat, p: P)
    requires i < j <= |items| && p in PairsWith(items, ok, mk, i, j)
    ensures exists k :: i < k < j && ok(items[i], items[k]) && p == mk(items[i], items[k])
    decreases j
  {
    if j > i + 1 && p !in PairsWith(items, ok, mk, i, j - 1) {
      assert ok(items[i], items[j - 1]) && p == mk(items[i], items[j - 1]);
    } else if j > i + 1 {
      PairsWithSound(items, ok, mk, i, j - 1, p);
    }
  }

  /** Every emitted value is built from an accepted pair of positions `a < b`. */
  lemma {:induction false} AllPairsSound<T, P>(items: seq<T>, ok: (T, T) -> bool, mk: (T, T) -> P, skip: T -> bool,
                                               n: nat, p: P)
    requires n <= |items| && p in AllPairs(items, ok, mk, skip, n)
    ensures exists a, b ::
      0 <= a < n && a < b < |items| && !skip(items[a]) && ok(items[a], items[b]) && p == mk(items[a], items[b])
  {
    var prev := AllPairs(items, ok, mk, skip, n - 1);
    var last := if skip(items[n - 1]) then [] else PairsWith(items, ok, mk, n - 1, |items|);
    assert AllPairs(items, ok, mk, skip, n) == prev + last;
    if p in prev {
      AllPairsSound(items, ok, mk, skip, n - 1, p);
    } else {
      assert !skip(items[n - 1]) && p in PairsWith(items, ok, mk, n - 1, |items|);
      PairsWithSound(items, ok, mk, n - 1, |items|, p);
    }
  }

  lemma {:induction false} PairsWithComplete<T, P>(items: seq<T>, ok: (T, T) -> bool, mk: (T, T) -> P, i: nat, j: nat, k: nat)
    requires i < k < j <= |items| && ok(items[i], items[k])
    ensures mk(items[i], items[k]) in PairsWith(items, ok, mk, i, j)
    decreases j
  {
    if k < j - 1 {
      PairsWithComplete(items, ok, mk, i, j - 1, k);
    }
  }

  /** Every accepted pair of positions `a < b` whose first position is not skipped is emitted. */
  lemma {:induction false} AllPairsComplete<T, P>(items: seq<T>, ok: (T, T) -> bool, mk: (T, T) -> P, skip: T -> bool,
                                                  n: nat, a: nat, b: nat)
    requires a < n <= |items| && a < b < |items| && !skip(items[a]) && ok(items[a], items[b])
    ensures mk(items[a], items[b]) in AllPairs(items, ok, mk, skip, n)
  {
    var prev := AllPairs(items, ok, mk, skip, n - 1);
    var last := if skip(items[n - 1]) then [] else PairsWith(items, ok, mk, n - 1, |items|);
    assert AllPairs(items, ok, mk, skip, n) == prev + last;
    if a < n - 1 {
      AllPairsComplete(items, ok, mk, skip, n - 1, a, b);
      assert mk(items[a], items[b]) in prev;
    } else {
      PairsWithComplete(items, ok, mk, a, |items|, b);
      assert mk(items[a], items[b]) in last;
    }
  }

  lemma {:induction false} PairsWithCount<T, P>(items: seq<T>, ok: (T, T) -> bool, mk: (T, T) -> P, i: nat, j: nat)
    requires i < j <= |items|
    ensures |PairsWith(items, ok, mk, i, j)| <= j - i - 1
    decreases j
  {
    if j > i + 1 {
      PairsWithCount(items, ok, mk, i, j - 1);
    }
  }

  /** The outer positions below `i` emit at most one value per pair of positions. */
  lemma {:induction false} AllPairsCount<T, P>(items: seq<T>, ok: (T, T) -> bool, mk: (T, T) -> P, skip: T -> bool, i: nat)
    requires i <= |items|
    ensures 2 * |AllPairs(items, ok, mk, skip, i)| <= i * (2 * |items| - i - 1)
  {
    if i > 0 {
      var n := |items|;
      AllPairsCount(items, ok, mk, skip, i - 1);
      PairsWithCount(items, ok, mk, i - 1, n);
      assert (i - 1) * (2 * n - (i - 1) - 1) + 2 * (n - i) == i * (2 * n - i - 1);
    }
  }
}
