/**
 * Decoding of a spreadsheet recipient label.  A label is either a plain string or a
 * `=HYPERLINK("…/address/<ADDR>","<CAPTION>")` formula.  The two regular expressions
 * used by the component are written out as left-to-right scanners that follow the
 * JavaScript matching order: leftmost start, greedy or lazy repetition as written.
 */
module Labels {
  import opened Wrappers

  const HyperlinkPrefix: string := "=HYPERLINK("
  const AddressMarker: string := "address/"
  const CaptionOpen: string := "=HYPERLINK(\""
  const Separator: string := "\",\""
  const CaptionClose: string := "\")"

  /** `s.startsWith(prefix)`, compared character by character from position `i`. */
  predicate StartsWithFrom(s: string, prefix: string, i: nat)
    requires i <= |prefix| <= |s|
    decreases |prefix| - i
  {
    i == |prefix| || (s[i] == prefix[i] && StartsWithFrom(s, prefix, i + 1))
  }

  predicate StartsWith(s: string, prefix: string) {
    |prefix| <= |s| && StartsWithFrom(s, prefix, 0)
  }

  lemma {:induction false} StartsWithFromIff(s: string, prefix: string, i: nat)
    requires i <= |prefix| <= |s|
    ensures StartsWithFrom(s, prefix, i) <==> forall k :: i <= k < |prefix| ==> s[k] == prefix[k]
    decreases |prefix| - i
  {
    if i < |prefix| {
      StartsWithFromIff(s, prefix, i + 1);
    }
  }

  /** The character-by-character test is the usual prefix test. */
  lemma StartsWithIff(s: string, prefix: string)
    ensures StartsWith(s, prefix) <==> |prefix| <= |s| && s[..|prefix|] == prefix
  {
    if |prefix| <= |s| {
      StartsWithFromIff(s, prefix, 0);
      if StartsWith(s, prefix) {
        assert s[..|prefix|] == prefix;
      }
    }
  }

  predicate OccursAt(s: string, t: string, i: nat) {
    i + |t| <= |s| && s[i..i + |t|] == t
  }

  ghost predicate IsSubstring(t: string, s: string) {
    exists i :: OccursAt(s, t, i)
  }

  lemma SliceOfSlice(h: string, i: nat, j: nat, a: nat, b: nat)
    requires i <= j <= |h| && a <= b <= j - i
    ensures h[i..j][a..b] == h[i + a..i + b]
  {
    forall t | 0 <= t < b - a ensures h[i..j][a..b][t] == h[i + a..i + b][t] {
      assert h[i..j][a..b][t] == h[i..j][a + t] == h[i + a + t];
    }
  }

  lemma SliceOfConcat(x: string, y: string, a: nat, b: nat)
    requires a <= b <= |x|
    ensures (x + y)[a..b] == x[a..b]
  {
    forall t | 0 <= t < b - a ensures (x + y)[a..b][t] == x[a..b][t] {
      assert (x + y)[a..b][t] == (x + y)[a + t] == x[a + t];
    }
  }

  predicate IsHyperlink(s: string) {
    StartsWith(s, HyperlinkPrefix)
  }

  // ---------------------------------------------------------------------------
  // Address: /address\/([^"]+)/
  // ---------------------------------------------------------------------------

  /** The regex can start matching at `p`: the marker, then at least one non-quote. */
  predicate AddressMatchAt(s: string, p: nat) {
    OccursAt(s, AddressMarker, p) && p + |AddressMarker| < |s| && s[p + |AddressMarker|] != '"'
  }

  /** `r` is the longest non-empty quote-free run that starts right after the marker at `p`. */
  predicate IsCaptureAt(s: string, p: nat, r: string) {
    var start := p + |AddressMarker|;
    && start + |r| <= |s|
    && s[start..start + |r|] == r
    && |r| > 0
    && (forall i :: 0 <= i < |r| ==> r[i] != '"')
    && (start + |r| == |s| || s[start + |r|] == '"')
  }

  /** End of the greedy `[^"]+` run that starts at `k`. */
  function RunEnd(s: string, k: nat): (e: nat)
    requires k <= |s|
    ensures k <= e <= |s|
    ensures forall i :: k <= i < e ==> s[i] != '"'
    ensures e == |s| || s[e] == '"'
    decreases |s| - k
  {
    if k == |s| || s[k] == '"' then k else RunEnd(s, k + 1)
  }

  /** Leftmost position at or after `p` where the address regex matches. */
  function FirstAddressMatch(s: string, p: nat): (r: Option<nat>)
    requires p <= |s|
    ensures r.Some? ==> p <= r.value < |s| && AddressMatchAt(s, r.value)
    ensures r.Some? ==> forall q :: p <= q < r.value ==> !AddressMatchAt(s, q)
    ensures r.None? ==> forall q :: p <= q ==> !AddressMatchAt(s, q)
    decreases |s| - p
  {
    if p == |s| then None
    else if AddressMatchAt(s, p) then Some(p)
    else FirstAddressMatch(s, p + 1)
  }

  /** The capture of the leftmost match at or after `p`; the whole label when there is none. */
  function CaptureFrom(h: string, p: nat): string
    requires p <= |h|
    decreases |h| - p
  {
    if p == |h| then h
    else if AddressMatchAt(h, p) then h[p + |AddressMarker|..RunEnd(h, p + |AddressMarker|)]
    else CaptureFrom(h, p + 1)
  }

  /** extractWalletAddress: the captured address of a formula, the label itself otherwise. */
  function ExtractWalletAddress(h: string): (r: string)
    ensures !IsHyperlink(h) ==> r == h
  {
    if IsHyperlink(h) then CaptureFrom(h, 0) else h
  }

  lemma {:induction false} CaptureFromFirstMatch(h: string, p: nat)
    requires p <= |h|
    ensures FirstAddressMatch(h, p).None? ==> CaptureFrom(h, p) == h
    ensures FirstAddressMatch(h, p).Some? ==>
      var q := FirstAddressMatch(h, p).value;
      CaptureFrom(h, p) == h[q + |AddressMarker|..RunEnd(h, q + |AddressMarker|)]
    decreases |h| - p
  {
    if p < |h| && !AddressMatchAt(h, p) {
      assert CaptureFrom(h, p) == CaptureFrom(h, p + 1);
      assert FirstAddressMatch(h, p) == FirstAddressMatch(h, p + 1);
      CaptureFromFirstMatch(h, p + 1);
    }
  }

  /**
   * The decoded address is a substring of the label; it is the label itself unless the
   * label is a formula with a match, and then it is the longest quote-free run after
   * the leftmost `address/`.
   */
  lemma ExtractWalletAddressSpec(h: string)
    ensures var r := ExtractWalletAddress(h);
      IsSubstring(r, h) &&
      (IsHyperlink(h) && (forall q :: !AddressMatchAt(h, q)) ==> r == h) &&
      (forall p ::
         IsHyperlink(h) && AddressMatchAt(h, p) && (forall q :: q < p ==> !AddressMatchAt(h, q))
         ==> IsCaptureAt(h, p, r))
  {
    var r := ExtractWalletAddress(h);
    if IsHyperlink(h) {
      CaptureFromFirstMatch(h, 0);
      match FirstAddressMatch(h, 0)
      case Some(p) =>
        var e := RunEnd(h, p + |AddressMarker|);
        assert r == h[p + |AddressMarker|..e];
        assert OccursAt(h, r, p + |AddressMarker|);
        forall p' | AddressMatchAt(h, p') && (forall q :: q < p' ==> !AddressMatchAt(h, q))
          ensures IsCaptureAt(h, p', r)
        {
          assert p' == p;
        }
      case None =>
        assert OccursAt(h, h, 0);
    } else {
      assert OccursAt(h, h, 0);
    }
  }

  /** Only the empty label has the empty address. */
  lemma AddressEmptyIff(h: string)
    ensures ExtractWalletAddress(h) == "" <==> h == ""
  {
    ExtractWalletAddressSpec(h);
    if IsHyperlink(h) {
      var m := FirstAddressMatch(h, 0);
      if m.Some? {
        assert IsCaptureAt(h, m.value, ExtractWalletAddress(h));
      }
    }
  }

  lemma {:induction false} AddressOfMarkedFormula(x: string)
    requires |x| > 0 && '"' !in x
    ensures ExtractWalletAddress(HyperlinkPrefix + AddressMarker + x) == x
  {
    var h := HyperlinkPrefix + AddressMarker + x;
    assert h[..11] == HyperlinkPrefix;
    assert h[11..19] == AddressMarker;
    assert h[19..] == x;
    forall q: nat | q < 11 ensures !AddressMatchAt(h, q) {
      assert h[q] == HyperlinkPrefix[q] != 'a';
      assert h[q..q + 8][0] == h[q];
    }
    var r := ExtractWalletAddress(h);
    ExtractWalletAddressSpec(h);
    assert IsCaptureAt(h, 11, r);
    assert forall i :: 19 <= i < |h| ==> h[i] == x[i - 19];
    assert |r| == |x|;
  }

  /**
   * Decoding the address is not idempotent: a label that nests a second marked formula
   * decodes to that formula, which decodes once more to its own capture.
   */
  lemma {:induction false} AddressNotIdempotent(x: string)
    requires |x| > 0 && '"' !in x
    ensures ExtractWalletAddress(HyperlinkPrefix + AddressMarker + HyperlinkPrefix + AddressMarker + x)
         == HyperlinkPrefix + AddressMarker + x
    ensures ExtractWalletAddress(ExtractWalletAddress(HyperlinkPrefix + AddressMarker + HyperlinkPrefix + AddressMarker + x)) == x
  {
    var inner := HyperlinkPrefix + AddressMarker + x;
    assert HyperlinkPrefix + AddressMarker + HyperlinkPrefix + AddressMarker + x
        == HyperlinkPrefix + AddressMarker + inner;
    assert '"' !in inner by {
      assert forall i :: 0 <= i < |inner| ==> inner[i] in HyperlinkPrefix || inner[i] in AddressMarker || inner[i] in x;
    }
    AddressOfMarkedFormula(inner);
    AddressOfMarkedFormula(x);
  }

  // ---------------------------------------------------------------------------
  // Caption: /=HYPERLINK\(".*?","(.*?)"\)/   (`.` does not match line terminators)
  // ---------------------------------------------------------------------------

  predicate IsLineTerminator(c: char) {
    c == '\n' || c == '\r' || c == '\U{2028}' || c == '\U{2029}'
  }

  /** `s[i..j]` can be consumed by `.*`. */
  predicate NoLineTerminator(s: string, i: nat, j: nat)
    requires i <= j <= |s|
  {
    forall k :: i <= k < j ==> !IsLineTerminator(s[k])
  }

  /** `","` does not occur in `s`. */
  ghost predicate NoSeparatorIn(s: string) {
    forall j :: !OccursAt(s, Separator, j)
  }

  /** `")` does not occur in `s`. */
  ghost predicate NoCloseIn(s: string) {
    forall j :: !OccursAt(s, CaptionClose, j)
  }

  predicate FreeOfLineTerminators(s: string) {
    forall i :: 0 <= i < |s| ==> !IsLineTerminator(s[i])
  }

  /** The lazy `(.*?)"\)`: the first `")` at or after `i` not past a line terminator. */
  function FindClose(s: string, i: nat): (r: Option<nat>)
    requires i <= |s|
    ensures r.Some? ==> i <= r.value && OccursAt(s, CaptionClose, r.value) && NoLineTerminator(s, i, r.value)
    ensures r.Some? ==> forall e :: i <= e < r.value ==> !OccursAt(s, CaptionClose, e)
    ensures r.None? ==> forall e :: i <= e <= |s| && NoLineTerminator(s, i, e) ==> !OccursAt(s, CaptionClose, e)
    decreases |s| - i
  {
    if OccursAt(s, CaptionClose, i) then Some(i)
    else if i < |s| && !IsLineTerminator(s[i]) then FindClose(s, i + 1)
    else None
  }

  /** The separator `","` at `j` is followed by a closing `")`. */
  predicate SplitsAt(s: string, j: nat)
    requires j <= |s|
  {
    OccursAt(s, Separator, j) && FindClose(s, j + |Separator|).Some?
  }

  /**
   * The lazy `.*?","` followed by the caption: the first separator at or after `k`
   * from which the rest of the pattern matches.
   */
  function FindSplit(s: string, k: nat): (r: Option<nat>)
    requires k <= |s|
    ensures r.Some? ==> k <= r.value <= |s| && SplitsAt(s, r.value) && NoLineTerminator(s, k, r.value)
    ensures r.Some? ==> forall j :: k <= j < r.value ==> !SplitsAt(s, j)
    ensures r.None? ==> forall j :: k <= j <= |s| && NoLineTerminator(s, k, j) ==> !SplitsAt(s, j)
    decreases |s| - k
  {
    if SplitsAt(s, k) then Some(k)
    else if k < |s| && !IsLineTerminator(s[k]) then
      var r := FindSplit(s, k + 1);
      assert forall j :: k + 1 <= j <= |s| && NoLineTerminator(s, k, j) ==> NoLineTerminator(s, k + 1, j);
      r
    else None
  }

  /** The whole caption pattern matches from `p`: `=HYPERLINK("`, then a separator closed by `")`. */
  predicate CaptionAt(s: string, p: nat) {
    OccursAt(s, CaptionOpen, p) && FindSplit(s, p + |CaptionOpen|).Some?
  }

  /** The leftmost start at or after `from` from which the whole caption pattern matches. */
  function FindCaption(s: string, from: nat): (r: Option<nat>)
    requires from <= |s|
    ensures r.Some? ==> from <= r.value && CaptionAt(s, r.value)
    ensures r.Some? ==> forall p :: from <= p < r.value ==> !CaptionAt(s, p)
    ensures r.None? ==> forall p :: from <= p ==> !CaptionAt(s, p)
    decreases |s| - from
  {
    if CaptionAt(s, from) then Some(from)
    else if from < |s| then FindCaption(s, from + 1)
    else None
  }

  lemma SliceFreeOfLineTerminators(h: string, i: nat, j: nat)
    requires i <= j <= |h| && NoLineTerminator(h, i, j)
    ensures FreeOfLineTerminators(h[i..j])
  {
    forall k | 0 <= k < j - i ensures !IsLineTerminator(h[i..j][k]) {
      assert h[i..j][k] == h[i + k];
    }
  }

  lemma SliceFreeOfClose(h: string, i: nat, j: nat)
    requires i <= j <= |h| && forall e :: i <= e < j ==> !OccursAt(h, CaptionClose, e)
    ensures NoCloseIn(h[i..j])
  {
    var r := h[i..j];
    forall k: nat | OccursAt(r, CaptionClose, k) ensures false {
      SliceOfSlice(h, i, j, k, k + |CaptionClose|);
      assert OccursAt(h, CaptionClose, i + k);
    }
  }

  /** extractDisplayName: the caption of a formula, the label itself otherwise. */
  function ExtractDisplayName(h: string): (r: string)
    ensures !IsHyperlink(h) ==> r == h
    ensures IsHyperlink(h) && FindCaption(h, 0).None? ==> r == h
    ensures IsHyperlink(h) && FindCaption(h, 0).Some? ==>
      |r| < |h| && FreeOfLineTerminators(r) && NoCloseIn(r)
  {
    if IsHyperlink(h) then
      match FindCaption(h, 0)
      case Some(p) =>
        var k := FindSplit(h, p + |CaptionOpen|).value;
        var start := k + |Separator|;
        var e := FindClose(h, start).value;
        SliceFreeOfLineTerminators(h, start, e);
        SliceFreeOfClose(h, start, e);
        h[start..e]
      case None => h
    else h
  }

  /** No `","` anywhere: the caption pattern cannot match, so the label is returned whole. */
  lemma NoSeparatorKeepsLabel(h: string)
    requires forall j :: !OccursAt(h, Separator, j)
    ensures ExtractDisplayName(h) == h
  {
    if IsHyperlink(h) && FindCaption(h, 0).Some? {
      assert false;
    }
  }

  lemma SeparatorChars(s: string, j: nat)
    requires OccursAt(s, Separator, j)
    ensures s[j + 1] == ',' && s[j + 2] == '"'
  {
    assert s[j..j + 3][1] == s[j + 1] && s[j..j + 3][2] == s[j + 2];
  }

  /**
   * With a space after the comma (`", "`) the caption pattern does not match and the
   * whole label is returned, for any url and caption free of commas.
   */
  lemma {:induction false} SpacedCaptionKeepsLabel(url: string, caption: string)
    requires ',' !in url && ',' !in caption
    ensures ExtractDisplayName(CaptionOpen + url + "\", \"" + caption + CaptionClose)
         == CaptionOpen + url + "\", \"" + caption + CaptionClose
  {
    var a := CaptionOpen + url;
    var b := "\", \"";
    var c := caption + CaptionClose;
    var h := a + b + c;
    assert h == CaptionOpen + url + "\", \"" + caption + CaptionClose;
    assert ',' !in a && ',' !in c;
    forall t | 0 <= t < |h| && h[t] == ',' ensures t == |a| + 1 {
      if |a| <= t < |a| + |b| {
        assert h[t] == b[t - |a|];
      }
    }
    assert h[|a| + 2] == ' ';
    forall j: nat | OccursAt(h, Separator, j) ensures false {
      SeparatorChars(h, j);
    }
    NoSeparatorKeepsLabel(h);
  }

  /** No `")` anywhere: no caption can close, so the label is returned whole. */
  lemma NoCloseKeepsLabel(h: string)
    requires NoCloseIn(h)
    ensures ExtractDisplayName(h) == h
  {
    if IsHyperlink(h) && FindCaption(h, 0).Some? {
      assert false;
    }
  }

  /** Decoding a display name a second time changes nothing. */
  lemma DisplayNameIdempotent(h: string)
    ensures ExtractDisplayName(ExtractDisplayName(h)) == ExtractDisplayName(h)
  {
    if IsHyperlink(h) && FindCaption(h, 0).Some? {
      NoCloseKeepsLabel(ExtractDisplayName(h));
    }
  }

  /** The formula that the component expects, with an arbitrary tail. */
  function Formula(url: string, caption: string, tail: string): string {
    CaptionOpen + url + Separator + caption + CaptionClose + tail
  }

  lemma {:induction false} CloseOfCaption(url: string, caption: string, tail: string, i: nat)
    requires NoCloseIn(caption) && FreeOfLineTerminators(caption)
    requires i <= |caption|
    ensures FindClose(Formula(url, caption, tail), |CaptionOpen| + |url| + |Separator| + i)
         == Some(|CaptionOpen| + |url| + |Separator| + |caption|)
    decreases |caption| - i
  {
    var h := Formula(url, caption, tail);
    var base := |CaptionOpen| + |url| + |Separator|;
    var w := caption + CaptionClose;
    assert h[base..base + |w|] == w;
    if i < |caption| {
      assert h[base + i] == caption[i];
      SliceOfSlice(h, base, base + |w|, i, i + 2);
      assert !OccursAt(w, CaptionClose, i) by {
        if i + 1 < |caption| {
          SliceOfConcat(caption, CaptionClose, i, i + 2);
          assert !OccursAt(caption, CaptionClose, i);
          assert w[i..i + 2] == caption[i..i + 2];
        } else {
          assert w[i..i + 2][1] == w[|caption|] == CaptionClose[0] == '"' != CaptionClose[1];
        }
      }
      CloseOfCaption(url, caption, tail, i + 1);
    } else {
      assert h[base + i..base + i + 2] == CaptionClose;
    }
  }

  lemma UrlHasNoEarlySeparator(url: string, i: nat)
    requires NoSeparatorIn(url + "\"") && i < |url|
    ensures !OccursAt(url + Separator, Separator, i)
  {
    var w := url + Separator;
    if i + 2 <= |url| {
      assert w == url + "\"" + ",\"";
      SliceOfConcat(url + "\"", ",\"", i, i + 3);
      assert !OccursAt(url + "\"", Separator, i);
    } else {
      assert w[|url|] == Separator[0];
    }
  }

  /** Inside the url the pattern can neither split nor stop at a line terminator. */
  lemma UrlPositionPasses(url: string, caption: string, tail: string, i: nat)
    requires NoSeparatorIn(url + "\"") && FreeOfLineTerminators(url) && i < |url|
    ensures var h := Formula(url, caption, tail);
      !OccursAt(h, Separator, |CaptionOpen| + i) && !IsLineTerminator(h[|CaptionOpen| + i])
  {
    var h := Formula(url, caption, tail);
    var base := |CaptionOpen|;
    var w := url + Separator;
    assert h[base..base + |w|] == w;
    assert h[base + i] == url[i];
    SliceOfSlice(h, base, base + |w|, i, i + 3);
    UrlHasNoEarlySeparator(url, i);
  }

  lemma FindSplitSkips(s: string, k: nat)
    requires k < |s| && !OccursAt(s, Separator, k) && !IsLineTerminator(s[k])
    ensures FindSplit(s, k) == FindSplit(s, k + 1)
  {
  }

  /** Right after the url come the separator and then the caption closed by `")`. */
  lemma SplitAtUrlEnd(url: string, caption: string, tail: string)
    requires NoCloseIn(caption) && FreeOfLineTerminators(caption)
    ensures SplitsAt(Formula(url, caption, tail), |CaptionOpen| + |url|)
  {
    var h := Formula(url, caption, tail);
    var base := |CaptionOpen|;
    var w := url + Separator;
    assert h[base..base + |w|] == w;
    assert h[base + |url|..base + |url| + 3] == Separator;
    CloseOfCaption(url, caption, tail, 0);
  }

  lemma {:induction false} SplitOfUrl(url: string, caption: string, tail: string, i: nat)
    requires NoSeparatorIn(url + "\"") && FreeOfLineTerminators(url)
    requires NoCloseIn(caption) && FreeOfLineTerminators(caption)
    requires i <= |url|
    ensures FindSplit(Formula(url, caption, tail), |CaptionOpen| + i) == Some(|CaptionOpen| + |url|)
    decreases |url| - i
  {
    var h := Formula(url, caption, tail);
    if i < |url| {
      UrlPositionPasses(url, caption, tail, i);
      FindSplitSkips(h, |CaptionOpen| + i);
      SplitOfUrl(url, caption, tail, i + 1);
    } else {
      SplitAtUrlEnd(url, caption, tail);
    }
  }

  lemma FormulaIsHyperlink(url: string, caption: string, tail: string)
    ensures IsHyperlink(Formula(url, caption, tail)) && OccursAt(Formula(url, caption, tail), CaptionOpen, 0)
  {
    var h := Formula(url, caption, tail);
    assert h[..|HyperlinkPrefix|] == HyperlinkPrefix;
    StartsWithIff(h, HyperlinkPrefix);
    assert h[..|CaptionOpen|] == CaptionOpen;
  }

  /** The caption pattern matches at the start and splits right after the url. */
  lemma CaptionOfFormula(url: string, caption: string, tail: string)
    requires NoSeparatorIn(url + "\"") && FreeOfLineTerminators(url)
    requires NoCloseIn(caption) && FreeOfLineTerminators(caption)
    ensures FindCaption(Formula(url, caption, tail), 0) == Some(0)
    ensures FindSplit(Formula(url, caption, tail), |CaptionOpen|) == Some(|CaptionOpen| + |url|)
  {
    FormulaIsHyperlink(url, caption, tail);
    SplitOfUrl(url, caption, tail, 0);
  }

  lemma CaptionSlice(url: string, caption: string, tail: string)
    ensures var base := |CaptionOpen| + |url| + |Separator|;
      Formula(url, caption, tail)[base..base + |caption|] == caption
  {
  }

  /**
   * A well-formed formula `=HYPERLINK("url","caption")…` decodes to its caption, provided
   * the url cannot end a lazy `.*?","` early, the caption holds no `")`, and neither
   * contains a line terminator.
   */
  lemma DisplayNameOfFormula(url: string, caption: string, tail: string)
    requires NoSeparatorIn(url + "\"") && FreeOfLineTerminators(url)
    requires NoCloseIn(caption) && FreeOfLineTerminators(caption)
    ensures ExtractDisplayName(Formula(url, caption, tail)) == caption
  {
    FormulaIsHyperlink(url, caption, tail);
    CaptionOfFormula(url, caption, tail);
    CloseOfCaption(url, caption, tail, 0);
    CaptionSlice(url, caption, tail);
  }
}
