/**
 * Name similarity: unit-cost Levenshtein distance filled into a table of prefix
 * distances, normalised by the longer length.  JavaScript numbers are modelled by
 * `Number`, so that the `0 / 0` of two empty names stays visible as `NaN`.
 * JavaScript strings are sequences of UTF-16 code units, and both the lengths and
 * `str[i]` count code units; the distance is generic in the element type and is
 * applied to `Utf16` of the names.
 */
module Similarity {

  /** The part of JavaScript's number type that the similarity can produce. */
  datatype Number = NaN | Num(value: real)

  /** One UTF-16 code unit, the element of a JavaScript string. */
  type CodeUnit = x: int | 0 <= x < 0x1_0000

  /** The code units of one character: a surrogate pair outside the Basic Multilingual Plane. */
  function CodeUnitsOf(c: char): (r: seq<CodeUnit>)
    ensures |r| == (if c as int < 0x1_0000 then 1 else 2)
  {
    var v := c as int;
    if v < 0x1_0000 then [v]
    else [0xD800 + (v - 0x1_0000) / 0x400, 0xDC00 + (v - 0x1_0000) % 0x400]
  }

  /** The JavaScript string holding `s`: its UTF-16 encoding. */
  function Utf16(s: string): (r: seq<CodeUnit>)
    ensures |s| <= |r| <= 2 * |s|
  {
    if |s| == 0 then [] else CodeUnitsOf(s[0]) + Utf16(s[1..])
  }

  function Min3(a: int, b: int, c: int): int {
    if a <= b && a <= c then a else if b <= c then b else c
  }

  function Max(a: int, b: int): int {
    if a >= b then a else b
  }

  /** Unit-cost edit distance, by recursion on the last characters. */
  function EditDistance<T(==)>(a: seq<T>, b: seq<T>): nat
    decreases |a| + |b|
  {
    if |a| == 0 then |b|
    else if |b| == 0 then |a|
    else
      var ind := if a[|a| - 1] == b[|b| - 1] then 0 else 1;
      Min3(EditDistance(a[..|a| - 1], b) + 1,
           EditDistance(a, b[..|b| - 1]) + 1,
           EditDistance(a[..|a| - 1], b[..|b| - 1]) + ind)
  }

  /** The normalised similarity `1 - d / max(len)` as JavaScript computes it. */
  function Score<T(==)>(a: seq<T>, b: seq<T>): Number {
    var m := Max(|a|, |b|);
    if m == 0 then NaN else Num(1.0 - (EditDistance(a, b) as real) / (m as real))
  }

  /** The test `similarity > 0.7`; every comparison with `NaN` is false. */
  predicate AboveThreshold(n: Number) {
    n.Num? && n.value > 0.7
  }

  /** One cell of the table, in terms of its three neighbours. */
  lemma EditDistanceStep<T>(a: seq<T>, b: seq<T>, i: nat, j: nat)
    requires 0 < i <= |a| && 0 < j <= |b|
    ensures EditDistance(a[..i], b[..j]) ==
      Min3(EditDistance(a[..i - 1], b[..j]) + 1,
           EditDistance(a[..i], b[..j - 1]) + 1,
           EditDistance(a[..i - 1], b[..j - 1]) + (if a[i - 1] == b[j - 1] then 0 else 1))
  {
    assert a[..i][..i - 1] == a[..i - 1];
    assert b[..j][..j - 1] == b[..j - 1];
  }

  /** Table cell `(j, i)` holds the distance of the prefixes of lengths `i` and `j`. */
  ghost predicate Cell(v: nat, s1: seq<CodeUnit>, s2: seq<CodeUnit>, j: nat, i: nat)
    requires i <= |s1| && j <= |s2|
  {
    v == EditDistance(s1[..i], s2[..j])
  }

  /** The inner loop for row `j >= 1`: fills `track[j, 1..]` from row `j - 1` and `track[j, 0]`. */
  method FillRow(track: array2<nat>, s1: seq<CodeUnit>, s2: seq<CodeUnit>, j: nat)
    requires track.Length0 == |s2| + 1 && track.Length1 == |s1| + 1 && 1 <= j <= |s2|
    requires forall j', i' :: 0 <= j' < j && 0 <= i' <= |s1| ==> Cell(track[j', i'], s1, s2, j', i')
    requires track[j, 0] == j
    modifies track
    ensures forall i' :: 0 <= i' <= |s1| ==> Cell(track[j, i'], s1, s2, j, i')
    ensures forall j', i' :: 0 <= j' <= |s2| && j' != j && 0 <= i' <= |s1| ==> track[j', i'] == old(track[j', i'])
  {
    assert Cell(track[j, 0], s1, s2, j, 0);
    for i := 1 to |s1| + 1
      invariant forall i' :: 0 <= i' < i ==> Cell(track[j, i'], s1, s2, j, i')
      invariant forall j', i' :: 0 <= j' <= |s2| && j' != j && 0 <= i' <= |s1| ==> track[j', i'] == old(track[j', i'])
    {
      var indicator := if s1[i - 1] == s2[j - 1] then 0 else 1;
      EditDistanceStep(s1, s2, i, j);
      assert Cell(track[j, i - 1], s1, s2, j, i - 1) && Cell(track[j - 1, i], s1, s2, j - 1, i);
      assert Cell(track[j - 1, i - 1], s1, s2, j - 1, i - 1);
      track[j, i] := Min3(track[j, i - 1] + 1, track[j - 1, i] + 1, track[j - 1, i - 1] + indicator);
    }
  }

  /** calculateSimilarity: fills the `(|s2|+1) x (|s1|+1)` table row by row, over code units. */
  method CalculateSimilarity(s1: seq<CodeUnit>, s2: seq<CodeUnit>) returns (r: Number)
    ensures r == Score(s1, s2)
  {
    var n1, n2 := |s1|, |s2|;
    var track := new nat[n2 + 1, n1 + 1];
    for i := 0 to n1 + 1
      invariant forall i' :: 0 <= i' < i ==> track[0, i'] == i'
    {
      track[0, i] := i;
    }
    for j := 0 to n2 + 1
      invariant forall i' :: 0 <= i' <= n1 ==> track[0, i'] == i'
      invariant forall j' :: 0 <= j' < j ==> track[j', 0] == j'
    {
      track[j, 0] := j;
    }
    forall i' | 0 <= i' <= n1 ensures Cell(track[0, i'], s1, s2, 0, i') {
      assert s2[..0] == [];
    }
    for j := 1 to n2 + 1
      invariant forall j', i' :: 0 <= j' < j && 0 <= i' <= n1 ==> Cell(track[j', i'], s1, s2, j', i')
      invariant forall j' :: j <= j' <= n2 ==> track[j', 0] == j'
    {
      FillRow(track, s1, s2, j);
    }
    assert Cell(track[n2, n1], s1, s2, n2, n1);
    assert s1[..n1] == s1 && s2[..n2] == s2;
    var maxLength := Max(n1, n2);
    if maxLength == 0 {
      r := NaN;
    } else {
      r := Num(1.0 - (track[n2, n1] as real) / (maxLength as real));
    }
  }

  // ---------------------------------------------------------------------------
  // Properties of the distance
  // ---------------------------------------------------------------------------

  lemma {:induction false} EditDistanceSymmetric<T>(a: seq<T>, b: seq<T>)
    ensures EditDistance(a, b) == EditDistance(b, a)
    decreases |a| + |b|
  {
    if |a| > 0 && |b| > 0 {
      EditDistanceSymmetric(a[..|a| - 1], b);
      EditDistanceSymmetric(a, b[..|b| - 1]);
      EditDistanceSymmetric(a[..|a| - 1], b[..|b| - 1]);
    }
  }

  lemma {:induction false} EditDistanceSelf<T>(a: seq<T>)
    ensures EditDistance(a, a) == 0
    decreases |a|
  {
    if |a| > 0 {
      EditDistanceSelf(a[..|a| - 1]);
    }
  }

  lemma {:induction false} EditDistanceZero<T>(a: seq<T>, b: seq<T>)
    requires EditDistance(a, b) == 0
    ensures a == b
    decreases |a| + |b|
  {
    if |a| > 0 && |b| > 0 {
      var a', b' := a[..|a| - 1], b[..|b| - 1];
      assert EditDistance(a', b') == 0 && a[|a| - 1] == b[|b| - 1];
      EditDistanceZero(a', b');
      assert a == a' + [a[|a| - 1]] && b == b' + [b[|b| - 1]];
    }
  }

  /** The distance is zero exactly for equal strings. */
  lemma EditDistanceZeroIff<T>(a: seq<T>, b: seq<T>)
    ensures EditDistance(a, b) == 0 <==> a == b
  {
    if a == b { EditDistanceSelf(a); }
    if EditDistance(a, b) == 0 { EditDistanceZero(a, b); }
  }

  /** At least the difference of the lengths, at most the longer length. */
  lemma {:induction false} EditDistanceBounds<T>(a: seq<T>, b: seq<T>)
    ensures |a| - |b| <= EditDistance(a, b) && |b| - |a| <= EditDistance(a, b)
    ensures EditDistance(a, b) <= Max(|a|, |b|)
    decreases |a| + |b|
  {
    if |a| > 0 && |b| > 0 {
      EditDistanceBounds(a[..|a| - 1], b);
      EditDistanceBounds(a, b[..|b| - 1]);
      EditDistanceBounds(a[..|a| - 1], b[..|b| - 1]);
    }
  }

  /** Against the empty name the distance is the other length. */
  lemma EditDistanceEmpty<T>(t: seq<T>)
    ensures EditDistance([], t) == |t| && EditDistance(t, []) == |t|
  {
  }

  // ---------------------------------------------------------------------------
  // Properties of the score and the threshold
  // ---------------------------------------------------------------------------

  lemma ScoreSymmetric<T>(a: seq<T>, b: seq<T>)
    ensures Score(a, b) == Score(b, a)
  {
    EditDistanceSymmetric(a, b);
  }

  lemma RatioCompare(d: real, m: real, c: real)
    requires 0.0 < m
    ensures d / m < c <==> d < c * m
  {
    var q := d / m;
    assert q * m == d;
    if q < c { assert q * m < c * m; }
    if q >= c { assert q * m >= c * m; }
  }

  /** The facts about `d / m` that the score needs, for `0 <= d <= m`. */
  lemma RatioFacts(d: int, m: int)
    requires 0 <= d <= m && 0 < m
    ensures 0.0 <= (d as real) / (m as real) <= 1.0
    ensures (d as real) / (m as real) == 0.0 <==> d == 0
    ensures 1.0 - (d as real) / (m as real) > 0.7 <==> 10 * d < 3 * m
  {
    var mr, dr := m as real, d as real;
    RatioCompare(dr, mr, 0.3);
    RatioCompare(dr, mr, 0.0);
    RatioCompare(dr, mr, 1.0);
    assert dr / mr * mr == dr;
  }

  /** A defined score lies in [0, 1] and is 1 exactly for equal names. */
  lemma ScoreRange<T>(a: seq<T>, b: seq<T>)
    ensures Score(a, b).NaN? <==> a == [] && b == []
    ensures Score(a, b).Num? ==> 0.0 <= Score(a, b).value <= 1.0
    ensures Score(a, b).Num? ==> (Score(a, b).value == 1.0 <==> a == b)
  {
    var m := Max(|a|, |b|);
    EditDistanceBounds(a, b);
    EditDistanceZeroIff(a, b);
    if m > 0 {
      RatioFacts(EditDistance(a, b), m);
    }
  }

  /** `similarity > 0.7` is the exact integer test `10 d < 3 m`, NaN included. */
  lemma ThresholdExact<T>(a: seq<T>, b: seq<T>)
    ensures AboveThreshold(Score(a, b)) <==> 10 * EditDistance(a, b) < 3 * Max(|a|, |b|)
  {
    var m := Max(|a|, |b|);
    EditDistanceBounds(a, b);
    if m > 0 {
      RatioFacts(EditDistance(a, b), m);
    }
  }

  /** Two empty names give NaN and are never paired. */
  lemma EmptyNamesNeverPass()
    ensures Score(Utf16(""), Utf16("")) == NaN && !AboveThreshold(Score(Utf16(""), Utf16("")))
  {
  }

  /** A name that passes the threshold against anything is not empty. */
  lemma PassingNamesAreNonEmpty<T>(a: seq<T>, b: seq<T>)
    requires AboveThreshold(Score(a, b))
    ensures a != [] && b != []
  {
    ThresholdExact(a, b);
    EditDistanceEmpty(a);
    EditDistanceEmpty(b);
  }

  // ---------------------------------------------------------------------------
  // Code units
  // ---------------------------------------------------------------------------

  /** A name inside the Basic Multilingual Plane has one code unit per character. */
  lemma {:induction false} Utf16OfBasicPlane(s: string)
    requires forall i :: 0 <= i < |s| ==> s[i] as int < 0x1_0000
    ensures |Utf16(s)| == |s| && forall i :: 0 <= i < |s| ==> Utf16(s)[i] == s[i] as int
  {
    if |s| > 0 {
      Utf16OfBasicPlane(s[1..]);
    }
  }

  /** Only the empty name has no code units. */
  lemma Utf16EmptyIff(s: string)
    ensures Utf16(s) == [] <==> s == ""
  {
  }

  /** Appending one element to both sides costs at most one edit. */
  lemma EditDistanceSnoc<T>(a: seq<T>, b: seq<T>, x: T, y: T)
    ensures EditDistance(a + [x], b + [y]) <= EditDistance(a, b) + 1
  {
    assert (a + [x])[..|a|] == a;
    assert (b + [y])[..|b|] == b;
  }

  /** U+1F600 and U+1F601 share their high surrogate and differ in the low one. */
  lemma EmojiCodeUnits()
    ensures Utf16("ab\U{1F600}") == [0x61, 0x62, 0xD83D, 0xDE00]
    ensures Utf16("ab\U{1F601}") == [0x61, 0x62, 0xD83D, 0xDE01]
  {
  }

  /** As JavaScript strings the two names differ in one of four code units: 0.75 passes. */
  lemma EmojiNamesPass()
    ensures AboveThreshold(Score(Utf16("ab\U{1F600}"), Utf16("ab\U{1F601}")))
  {
    EmojiCodeUnits();
    var prefix: seq<CodeUnit> := [0x61, 0x62, 0xD83D];
    var u, v := prefix + [0xDE00], prefix + [0xDE01];
    assert u == Utf16("ab\U{1F600}") && v == Utf16("ab\U{1F601}");
    EditDistanceSelf(prefix);
    EditDistanceSnoc(prefix, prefix, 0xDE00, 0xDE01);
    ThresholdExact(u, v);
  }

  /** Counted in characters the same names differ in one of three and would fail. */
  lemma EmojiCharactersFail()
    ensures !AboveThreshold(Score("ab\U{1F600}", "ab\U{1F601}"))
  {
    EditDistanceZeroIff("ab\U{1F600}", "ab\U{1F601}");
    assert "ab\U{1F600}"[2] != "ab\U{1F601}"[2];
    ThresholdExact("ab\U{1F600}", "ab\U{1F601}");
  }
}
