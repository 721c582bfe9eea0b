/**
 * The group store: an object from group key to the ordered list of raw wallet
 * labels merged under it, with its keys in insertion order (the order of
 * `Object.keys`).  `Merged` is the store after one confirmed match.
 */
module Groups {
  import opened Wrappers
  import opened Labels
  import opened Collections

  datatype Store = Store(keys: seq<string>, groups: map<string, seq<string>>)

  const EmptyStore: Store := Store([], map[])

  function Address(w: string): string {
    ExtractWalletAddress(w)
  }

  function Name(w: string): string {
    ExtractDisplayName(w)
  }

  /** `group.some(w => extractWalletAddress(w) === a)`. */
  predicate HasAddress(g: seq<string>, a: string) {
    exists i :: 0 <= i < |g| && Address(g[i]) == a
  }

  /** The group under `k` holds `a1` or `a2`. */
  predicate Holds(s: Store, k: string, a1: string, a2: string) {
    k in s.groups && (HasAddress(s.groups[k], a1) || HasAddress(s.groups[k], a2))
  }

  /** `Object.keys(groups).find(...)`: the position of the first key whose group holds either address. */
  function FindGroupIndex(s: Store, a1: string, a2: string, from: nat): (r: Option<nat>)
    requires from <= |s.keys|
    ensures r.Some? ==> from <= r.value < |s.keys| && Holds(s, s.keys[r.value], a1, a2)
    ensures r.Some? ==> forall i :: from <= i < r.value ==> !Holds(s, s.keys[i], a1, a2)
    ensures r.None? ==> forall i :: from <= i < |s.keys| ==> !Holds(s, s.keys[i], a1, a2)
    decreases |s.keys| - from
  {
    if from == |s.keys| then None
    else if Holds(s, s.keys[from], a1, a2) then Some(from)
    else FindGroupIndex(s, a1, a2, from + 1)
  }

  /** The key the merge writes to: the found key when it is truthy, else the first address. */
  function MergeTarget(s: Store, w1: string, w2: string): string {
    var found := FindGroupIndex(s, Address(w1), Address(w2), 0);
    if found.Some? && s.keys[found.value] != "" then s.keys[found.value] else Address(w1)
  }

  /** The store after confirming that `w1` and `w2` are the same wallet. */
  function Merged(s: Store, w1: string, w2: string): Store {
    var a1, a2 := Address(w1), Address(w2);
    var found := FindGroupIndex(s, a1, a2, 0);
    if found.Some? && s.keys[found.value] != "" then
      var k := s.keys[found.value];
      var g := s.groups[k];
      var g1 := if HasAddress(g, a1) then g else g + [w1];
      var g2 := if HasAddress(g1, a2) then g1 else g1 + [w2];
      Store(s.keys, s.groups[k := g2])
    else
      Store(if a1 in s.keys then s.keys else s.keys + [a1], s.groups[a1 := [w1, w2]])
  }

  /** Every raw label stored in some group (`processedWallets`). */
  function Members(s: Store): set<string> {
    set k, w | k in s.groups && w in s.groups[k] :: w
  }

  // ---------------------------------------------------------------------------
  // Invariants of the store
  // ---------------------------------------------------------------------------

  /**
   * Keys are distinct and are exactly the groups' keys, every group is non-empty,
   * and each key is the address of its group's first member.
   */
  predicate WellFormed(s: Store) {
    Distinct(s.keys) &&
    (forall i :: 0 <= i < |s.keys| ==> s.keys[i] in s.groups) &&
    (forall k :: k in s.groups ==> k in s.keys) &&
    (forall k :: k in s.groups ==> |s.groups[k]| > 0 && Address(s.groups[k][0]) == k)
  }

  /** No group is keyed by the empty address, which the merge would treat as absent. */
  predicate NoEmptyKey(s: Store) {
    "" !in s.groups
  }

  predicate AddressesDistinct(g: seq<string>) {
    forall i, j :: 0 <= i < j < |g| ==> Address(g[i]) != Address(g[j])
  }

  /** Within each group, member addresses are pairwise distinct. */
  predicate MembersDistinct(s: Store) {
    forall k :: k in s.groups ==> AddressesDistinct(s.groups[k])
  }

  // ---------------------------------------------------------------------------
  // Properties of one merge
  // ---------------------------------------------------------------------------

  lemma AppendKeepsAddress(g: seq<string>, a: string, w: string)
    requires HasAddress(g, a)
    ensures HasAddress(g + [w], a)
  {
    var i :| 0 <= i < |g| && Address(g[i]) == a;
    assert (g + [w])[i] == g[i];
  }

  lemma AppendHasAddress(g: seq<string>, w: string)
    ensures HasAddress(g + [w], Address(w))
  {
    assert (g + [w])[|g|] == w;
  }

  lemma UpdateKeepsWellFormed(s: Store, k: string, g: seq<string>)
    requires WellFormed(s) && k in s.groups && |g| > 0 && g[0] == s.groups[k][0]
    ensures WellFormed(Store(s.keys, s.groups[k := g]))
  {
  }

  lemma CreateKeepsWellFormed(s: Store, w1: string, w2: string)
    requires WellFormed(s)
    ensures var a1 := Address(w1);
      WellFormed(Store(if a1 in s.keys then s.keys else s.keys + [a1], s.groups[a1 := [w1, w2]]))
  {
    var a1 := Address(w1);
    if a1 !in s.keys {
      var keys := s.keys + [a1];
      forall i, j | 0 <= i < j < |keys| ensures keys[i] != keys[j] {
        if j == |s.keys| { assert keys[i] == s.keys[i]; }
      }
      forall i | 0 <= i < |keys| ensures keys[i] in s.groups[a1 := [w1, w2]] {
        if i < |s.keys| { assert keys[i] == s.keys[i]; }
      }
    }
  }

  /** The merge keeps the store well formed. */
  lemma MergePreservesWellFormed(s: Store, w1: string, w2: string)
    requires WellFormed(s)
    ensures WellFormed(Merged(s, w1, w2))
  {
    var a1, a2 := Address(w1), Address(w2);
    var found := FindGroupIndex(s, a1, a2, 0);
    if found.Some? && s.keys[found.value] != "" {
      var k := s.keys[found.value];
      var g := s.groups[k];
      var g1 := if HasAddress(g, a1) then g else g + [w1];
      var g2 := if HasAddress(g1, a2) then g1 else g1 + [w2];
      assert g2[0] == g[0];
      UpdateKeepsWellFormed(s, k, g2);
    } else {
      CreateKeepsWellFormed(s, w1, w2);
    }
  }

  /** Without an empty key, the create branch only ever adds a new key. */
  lemma CreateIsNew(s: Store, w1: string, w2: string)
    requires WellFormed(s) && NoEmptyKey(s)
    requires FindGroupIndex(s, Address(w1), Address(w2), 0).None?
    ensures Address(w1) !in s.groups
  {
  }

  /**
   * The merge never removes a key or a member: keys keep their order and every
   * group is a prefix of its new version.  Only the target group changes.
   */
  lemma MergeOnlyAppends(s: Store, w1: string, w2: string)
    requires WellFormed(s) && NoEmptyKey(s)
    ensures var t := Merged(s, w1, w2);
      |s.keys| <= |t.keys| && t.keys[..|s.keys|] == s.keys &&
      (forall k :: k in s.groups ==> k in t.groups && s.groups[k] <= t.groups[k]) &&
      (forall k :: k in s.groups && k != MergeTarget(s, w1, w2) ==> t.groups[k] == s.groups[k])
  {
    var a1, a2 := Address(w1), Address(w2);
    var found := FindGroupIndex(s, a1, a2, 0);
    if found.Some? && s.keys[found.value] != "" {
      var k := s.keys[found.value];
      var g := s.groups[k];
      var g1 := if HasAddress(g, a1) then g else g + [w1];
      var g2 := if HasAddress(g1, a2) then g1 else g1 + [w2];
      ReplaceOnlyAppends(s, k, g2);
    } else {
      assert found.None?;
      CreateIsNew(s, w1, w2);
      ReplaceOnlyAppends(s, a1, [w1, w2]);
    }
  }

  /** Writing one group leaves every other group as it was and only extends that one. */
  lemma ReplaceOnlyAppends(s: Store, k: string, g: seq<string>)
    requires k in s.groups ==> s.groups[k] <= g
    ensures var t := Store(s.keys, s.groups[k := g]);
      (forall j :: j in s.groups ==> j in t.groups && s.groups[j] <= t.groups[j]) &&
      (forall j :: j in s.groups && j != k ==> t.groups[j] == s.groups[j])
  {
  }

  /** A new key is never empty when the first label is not. */
  lemma MergeKeepsNoEmptyKey(s: Store, w1: string, w2: string)
    requires NoEmptyKey(s) && w1 != ""
    ensures NoEmptyKey(Merged(s, w1, w2))
  {
    AddressEmptyIff(w1);
  }

  lemma AppendMissing(g: seq<string>, w: string)
    requires AddressesDistinct(g) && !HasAddress(g, Address(w))
    ensures AddressesDistinct(g + [w])
  {
    var h := g + [w];
    forall i, j | 0 <= i < j < |h| ensures Address(h[i]) != Address(h[j]) {
      if j == |g| {
        assert h[i] == g[i];
      } else {
        assert h[i] == g[i] && h[j] == g[j];
      }
    }
  }

  /** Member addresses stay pairwise distinct when the two addresses differ. */
  lemma MergeKeepsMembersDistinct(s: Store, w1: string, w2: string)
    requires MembersDistinct(s) && Address(w1) != Address(w2)
    ensures MembersDistinct(Merged(s, w1, w2))
  {
    var a1, a2 := Address(w1), Address(w2);
    var found := FindGroupIndex(s, a1, a2, 0);
    if found.Some? && s.keys[found.value] != "" {
      var k := s.keys[found.value];
      var g := s.groups[k];
      var g1 := if HasAddress(g, a1) then g else g + [w1];
      if !HasAddress(g, a1) { AppendMissing(g, w1); }
      if !HasAddress(g1, a2) { AppendMissing(g1, w2); }
    }
  }

  /** Afterwards the target group holds both addresses. */
  lemma MergeJoins(s: Store, w1: string, w2: string)
    ensures var t := Merged(s, w1, w2); var k := MergeTarget(s, w1, w2);
      k in t.groups && HasAddress(t.groups[k], Address(w1)) && HasAddress(t.groups[k], Address(w2))
  {
    var a1, a2 := Address(w1), Address(w2);
    var found := FindGroupIndex(s, a1, a2, 0);
    if found.Some? && s.keys[found.value] != "" {
      var g := s.groups[s.keys[found.value]];
      var g1 := if HasAddress(g, a1) then g else g + [w1];
      if !HasAddress(g, a1) { AppendHasAddress(g, w1); }
      if HasAddress(g1, a2) {
      } else {
        AppendKeepsAddress(g1, a1, w2);
        AppendHasAddress(g1, w2);
      }
    } else {
      assert [w1, w2][0] == w1 && [w1, w2][1] == w2;
    }
  }

  /** Confirming a pair whose group already holds both addresses changes nothing. */
  lemma MergeOfJoined(s: Store, w1: string, w2: string)
    requires var f := FindGroupIndex(s, Address(w1), Address(w2), 0);
      f.Some? && s.keys[f.value] != "" &&
      HasAddress(s.groups[s.keys[f.value]], Address(w1)) &&
      HasAddress(s.groups[s.keys[f.value]], Address(w2))
    ensures Merged(s, w1, w2) == s
  {
  }

  /** The keys before the target hold neither address after the merge either. */
  lemma {:induction false} EarlierKeysStillMiss(s: Store, w1: string, w2: string, n: nat)
    requires WellFormed(s) && NoEmptyKey(s)
    requires var f := FindGroupIndex(s, Address(w1), Address(w2), 0);
      (f.Some? ==> n <= f.value) && (f.None? ==> n <= |s.keys|)
    ensures var t := Merged(s, w1, w2);
      n <= |t.keys| && forall i :: 0 <= i < n ==> !Holds(t, t.keys[i], Address(w1), Address(w2))
  {
    MergeOnlyAppends(s, w1, w2);
    var t := Merged(s, w1, w2);
    forall i | 0 <= i < n ensures !Holds(t, t.keys[i], Address(w1), Address(w2)) {
      assert t.keys[i] == t.keys[..|s.keys|][i] == s.keys[i];
      assert !Holds(s, s.keys[i], Address(w1), Address(w2));
    }
  }

  /** After a merge, the target key is the first key holding either address. */
  lemma TargetComesFirst(s: Store, w1: string, w2: string) returns (pos: nat)
    requires WellFormed(s) && NoEmptyKey(s) && w1 != ""
    ensures var t := Merged(s, w1, w2);
      pos < |t.keys| && t.keys[pos] == MergeTarget(s, w1, w2) && t.keys[pos] != "" &&
      forall i :: 0 <= i < pos ==> !Holds(t, t.keys[i], Address(w1), Address(w2))
  {
    var a1, a2 := Address(w1), Address(w2);
    var f := FindGroupIndex(s, a1, a2, 0);
    MergeOnlyAppends(s, w1, w2);
    AddressEmptyIff(w1);
    pos := if f.Some? then f.value else |s.keys|;
    EarlierKeysStillMiss(s, w1, w2, pos);
    if f.None? {
      CreateIsNew(s, w1, w2);
      assert Merged(s, w1, w2).keys == s.keys + [a1];
    }
  }

  /** Confirming the same pair twice has the effect of confirming it once. */
  lemma MergeIdempotent(s: Store, w1: string, w2: string)
    requires WellFormed(s) && NoEmptyKey(s) && w1 != ""
    ensures Merged(Merged(s, w1, w2), w1, w2) == Merged(s, w1, w2)
  {
    var t := Merged(s, w1, w2);
    var pos := TargetComesFirst(s, w1, w2);
    MergeJoins(s, w1, w2);
    assert Holds(t, t.keys[pos], Address(w1), Address(w2));
    assert FindGroupIndex(t, Address(w1), Address(w2), 0) == Some(pos);
    MergeOfJoined(t, w1, w2);
  }

  /**
   * Groups can overlap: when the first address is found in one group and the second
   * address lives in another, the second address ends up in both.
   */
  lemma ChainedMergeOverlaps(s: Store, w1: string, w2: string, j: nat)
    requires var f := FindGroupIndex(s, Address(w1), Address(w2), 0);
      f.Some? && s.keys[f.value] != "" && j < |s.keys| && j != f.value &&
      Distinct(s.keys) && s.keys[j] in s.groups && HasAddress(s.groups[s.keys[j]], Address(w2))
    ensures var t := Merged(s, w1, w2);
      var k := MergeTarget(s, w1, w2);
      k != s.keys[j] && HasAddress(t.groups[k], Address(w2)) && HasAddress(t.groups[s.keys[j]], Address(w2))
  {
    MergeJoins(s, w1, w2);
  }

  lemma PlainAddresses()
    ensures Address("a") == "a" && Address("b") == "b" && Address("c") == "c" && Address("d") == "d"
  {
  }

  lemma ExampleFirstMerge()
    ensures Merged(EmptyStore, "a", "b") == Store(["a"], map["a" := ["a", "b"]])
  {
    PlainAddresses();
  }

  lemma ExampleSecondMerge()
    ensures Merged(Store(["a"], map["a" := ["a", "b"]]), "c", "d") ==
            Store(["a", "c"], map["a" := ["a", "b"], "c" := ["c", "d"]])
  {
    PlainAddresses();
    var s1 := Store(["a"], map["a" := ["a", "b"]]);
    assert !HasAddress(["a", "b"], "c") && !HasAddress(["a", "b"], "d");
    assert FindGroupIndex(s1, "c", "d", 0) == None;
  }

  lemma ExampleThirdMerge()
    ensures Merged(Store(["a", "c"], map["a" := ["a", "b"], "c" := ["c", "d"]]), "a", "c") ==
            Store(["a", "c"], map["a" := ["a", "b", "c"], "c" := ["c", "d"]])
  {
    PlainAddresses();
    var s2 := Store(["a", "c"], map["a" := ["a", "b"], "c" := ["c", "d"]]);
    assert Address(s2.groups["a"][0]) == "a";
    assert FindGroupIndex(s2, "a", "c", 0) == Some(0);
    assert HasAddress(["a", "b"], "a") && !HasAddress(["a", "b"], "c");
    assert ["a", "b"] + ["c"] == ["a", "b", "c"];
    assert s2.groups["a" := ["a", "b", "c"]] == map["a" := ["a", "b", "c"], "c" := ["c", "d"]];
  }

  /** A concrete chained merge with plain labels: "c" ends up in groups "a" and "c". */
  lemma ChainedMergeExample()
    ensures var s := Merged(Merged(Merged(EmptyStore, "a", "b"), "c", "d"), "a", "c");
      s.keys == ["a", "c"] && s.groups["a"] == ["a", "b", "c"] && s.groups["c"] == ["c", "d"]
  {
    ExampleFirstMerge();
    ExampleSecondMerge();
    ExampleThirdMerge();
  }
}
