/**
 * Distinct elements of a sequence in first-occurrence order: the value of
 * `Array.from(new Set(xs))`, and the key order of a JavaScript `Map` filled by
 * `set` calls (an existing key keeps its position).
 */
module Collections {

  predicate Distinct<T(==)>(s: seq<T>) {
    forall i, j :: 0 <= i < j < |s| ==> s[i] != s[j]
  }

  /** The index of the first `x` in `s`. */
  function FirstIndex<T(==)>(s: seq<T>, x: T): (r: nat)
    requires x in s
    ensures r < |s| && s[r] == x && x !in s[..r]
  {
    var init := s[..|s| - 1];
    if x in init then
      var r := FirstIndex(init, x);
      assert s[..r] == init[..r];
      r
    else
      assert s == init + [s[|s| - 1]];
      |s| - 1
  }

  /** The distinct elements of `s`, each at the position of its first occurrence. */
  function FirstOccurrences<T(==)>(s: seq<T>): (r: seq<T>)
    ensures Distinct(r)
    ensures forall i :: 0 <= i < |s| ==> s[i] in r
    ensures forall i :: 0 <= i < |r| ==> r[i] in s
    ensures |r| <= |s|
  {
    if |s| == 0 then []
    else
      var init := FirstOccurrences(s[..|s| - 1]);
      var last := s[|s| - 1];
      assert s == s[..|s| - 1] + [last];
      if last in init then init else init + [last]
  }

  /** Adding an element at the end extends the first occurrences by at most that element. */
  lemma FirstOccurrencesSnoc<T>(s: seq<T>, y: T)
    ensures FirstOccurrences(s + [y]) ==
      if y in s then FirstOccurrences(s) else FirstOccurrences(s) + [y]
  {
    assert (s + [y])[..|s|] == s;
  }

  lemma FirstIndexSnoc<T>(s: seq<T>, y: T, x: T)
    requires x in s
    ensures FirstIndex(s + [y], x) == FirstIndex(s, x)
  {
    assert (s + [y])[..|s|] == s;
  }

  /** Elements appear in the order of their first occurrences in `s`. */
  lemma {:induction false} FirstOccurrencesOrdered<T>(s: seq<T>)
    ensures forall i, j :: 0 <= i < j < |FirstOccurrences(s)| ==>
      FirstIndex(s, FirstOccurrences(s)[i]) < FirstIndex(s, FirstOccurrences(s)[j])
  {
    if |s| > 0 {
      var init, y := s[..|s| - 1], s[|s| - 1];
      assert s == init + [y];
      FirstOccurrencesOrdered(init);
      FirstOccurrencesSnoc(init, y);
      var r0 := FirstOccurrences(init);
      var r := FirstOccurrences(s);
      forall i, j | 0 <= i < j < |r|
        ensures FirstIndex(s, r[i]) < FirstIndex(s, r[j])
      {
        FirstIndexSnoc(init, y, r[i]);
        if j < |r0| {
          FirstIndexSnoc(init, y, r[j]);
        } else {
          assert r[j] == y && y !in init;
          assert FirstIndex(s, y) == |init|;
        }
      }
    }
  }
}
