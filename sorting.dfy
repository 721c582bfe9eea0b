/**
 * `Array.prototype.sort` with a comparator `(a, b) => key(b) - key(a)`: a stable
 * sort into non-increasing key order.  The library is required to be stable, so
 * its result is the one a stable insertion sort produces; that sort is the model.
 */
module Sorting {

  predicate SortedDesc<T>(s: seq<T>, key: T -> real) {
    forall i, j :: 0 <= i < j < |s| ==> key(s[i]) >= key(s[j])
  }

  /** The elements of `s` with key `k`, in their order in `s`. */
  function KeyFilter<T>(s: seq<T>, key: T -> real, k: real): seq<T> {
    if |s| == 0 then []
    else (if key(s[0]) == k then [s[0]] else []) + KeyFilter(s[1..], key, k)
  }

  /** The sum of `f` over `s`. */
  function SumBy<T>(s: seq<T>, f: T -> int): int {
    if |s| == 0 then 0 else f(s[0]) + SumBy(s[1..], f)
  }

  /** Places `x` after every element whose key is at least `key(x)`. */
  function Insert<T>(x: T, t: seq<T>, key: T -> real): seq<T> {
    if |t| == 0 then [x]
    else if key(x) > key(t[0]) then [x] + t
    else [t[0]] + Insert(x, t[1..], key)
  }

  /** The stable sort by non-increasing key. */
  function SortDesc<T>(s: seq<T>, key: T -> real): seq<T> {
    if |s| == 0 then []
    else Insert(s[|s| - 1], SortDesc(s[..|s| - 1], key), key)
  }

  lemma {:induction false} InsertPermutes<T>(x: T, t: seq<T>, key: T -> real)
    ensures multiset(Insert(x, t, key)) == multiset(t) + multiset{x}
  {
    if |t| > 0 && key(x) <= key(t[0]) {
      InsertPermutes(x, t[1..], key);
      assert t == [t[0]] + t[1..];
    }
  }

  lemma {:induction false} InsertSorted<T>(x: T, t: seq<T>, key: T -> real)
    requires SortedDesc(t, key)
    ensures SortedDesc(Insert(x, t, key), key)
    ensures |Insert(x, t, key)| > 0
    ensures Insert(x, t, key)[0] == (if |t| == 0 || key(x) > key(t[0]) then x else t[0])
  {
    if |t| > 0 && key(x) <= key(t[0]) {
      InsertSorted(x, t[1..], key);
      InsertPermutes(x, t[1..], key);
      var u := Insert(x, t[1..], key);
      forall k | 0 <= k < |u|
        ensures key(t[0]) >= key(u[k])
      {
        assert u[k] in multiset(u);
        assert u[k] in multiset(t[1..]) || u[k] == x;
        if u[k] != x {
          var m :| 0 <= m < |t[1..]| && t[1..][m] == u[k];
          assert t[m + 1] == u[k];
        }
      }
    }
  }

  lemma {:induction false} SortedNoLargerKey<T>(t: seq<T>, key: T -> real, k: real)
    requires SortedDesc(t, key) && |t| > 0 && k > key(t[0])
    ensures KeyFilter(t, key, k) == []
    decreases |t|
  {
    if |t| > 1 {
      SortedNoLargerKey(t[1..], key, k);
    }
  }

  lemma KeyFilterCons<T>(x: T, t: seq<T>, key: T -> real, k: real)
    ensures KeyFilter([x] + t, key, k) == (if key(x) == k then [x] else []) + KeyFilter(t, key, k)
  {
    assert ([x] + t)[1..] == t;
  }

  lemma {:induction false} InsertKeyFilter<T>(x: T, t: seq<T>, key: T -> real, k: real)
    requires SortedDesc(t, key)
    ensures KeyFilter(Insert(x, t, key), key, k) ==
      KeyFilter(t, key, k) + (if key(x) == k then [x] else [])
  {
    if |t| == 0 {
      KeyFilterCons(x, t, key, k);
    } else if key(x) > key(t[0]) {
      KeyFilterCons(x, t, key, k);
      if key(x) == k {
        SortedNoLargerKey(t, key, k);
      }
    } else {
      var u := Insert(x, t[1..], key);
      InsertKeyFilter(x, t[1..], key, k);
      KeyFilterCons(t[0], u, key, k);
      KeyFilterCons(t[0], t[1..], key, k);
      assert [t[0]] + t[1..] == t;
    }
  }

  lemma {:induction false} KeyFilterAppend<T>(a: seq<T>, b: seq<T>, key: T -> real, k: real)
    ensures KeyFilter(a + b, key, k) == KeyFilter(a, key, k) + KeyFilter(b, key, k)
  {
    if |a| > 0 {
      KeyFilterAppend(a[1..], b, key, k);
      assert (a + b)[1..] == a[1..] + b;
    } else {
      assert a + b == b;
    }
  }

  lemma {:induction false} InsertSum<T>(x: T, t: seq<T>, key: T -> real, f: T -> int)
    ensures SumBy(Insert(x, t, key), f) == f(x) + SumBy(t, f)
  {
    if |t| > 0 && key(x) <= key(t[0]) {
      InsertSum(x, t[1..], key, f);
      assert ([t[0]] + Insert(x, t[1..], key))[1..] == Insert(x, t[1..], key);
    } else if |t| > 0 {
      assert ([x] + t)[1..] == t;
    }
  }

  lemma {:induction false} SumByAppend<T>(a: seq<T>, b: seq<T>, f: T -> int)
    ensures SumBy(a + b, f) == SumBy(a, f) + SumBy(b, f)
  {
    if |a| > 0 {
      SumByAppend(a[1..], b, f);
      assert (a + b)[1..] == a[1..] + b;
    } else {
      assert a + b == b;
    }
  }

  /** The result holds the same elements, as many times each. */
  lemma {:induction false} SortDescPermutes<T>(s: seq<T>, key: T -> real)
    ensures multiset(SortDesc(s, key)) == multiset(s)
  {
    if |s| > 0 {
      SortDescPermutes(s[..|s| - 1], key);
      InsertPermutes(s[|s| - 1], SortDesc(s[..|s| - 1], key), key);
      assert s == s[..|s| - 1] + [s[|s| - 1]];
    }
  }

  /** The result is in non-increasing key order. */
  lemma {:induction false} SortDescSorted<T>(s: seq<T>, key: T -> real)
    ensures SortedDesc(SortDesc(s, key), key)
  {
    if |s| > 0 {
      SortDescSorted(s[..|s| - 1], key);
      InsertSorted(s[|s| - 1], SortDesc(s[..|s| - 1], key), key);
    }
  }

  /** Stability: the elements of each key keep their relative order. */
  lemma {:induction false} SortDescStable<T>(s: seq<T>, key: T -> real, k: real)
    ensures KeyFilter(SortDesc(s, key), key, k) == KeyFilter(s, key, k)
  {
    if |s| > 0 {
      var init, x := s[..|s| - 1], s[|s| - 1];
      SortDescStable(init, key, k);
      SortDescSorted(init, key);
      InsertKeyFilter(x, SortDesc(init, key), key, k);
      assert s == init + [x];
      KeyFilterAppend(init, [x], key, k);
      assert KeyFilter([x], key, k) == (if key(x) == k then [x] else []) + KeyFilter([x][1..], key, k);
    }
  }

  /** Sorting neither creates nor loses any amount. */
  lemma {:induction false} SortDescSum<T>(s: seq<T>, key: T -> real, f: T -> int)
    ensures SumBy(SortDesc(s, key), f) == SumBy(s, f)
  {
    if |s| > 0 {
      var init, x := s[..|s| - 1], s[|s| - 1];
      SortDescSum(init, key, f);
      InsertSum(x, SortDesc(init, key), key, f);
      assert s == init + [x];
      SumByAppend(init, [x], f);
      assert SumBy([x], f) == f(x) + SumBy([x][1..], f);
    }
  }
}
