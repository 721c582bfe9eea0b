/**
 * Candidate duplicate pairs for the "Process Data" button: the distinct raw
 * `To Wallet` labels of the cohort rows, every pair `i < j` of labels not yet in a
 * group, with different addresses and display names scoring above 0.7, then the
 * stable sort by descending similarity.
 */
module Candidates {
  import opened Labels
  import opened Similarity
  import opened Sorting
  import opened Collections
  import opened Ledger
  import opened Groups
  import opened Enumeration

  datatype Pair = Pair(wallet1: string, wallet2: string, similarity: real)

  /** The raw `To Wallet` labels of `rows`, in order. */
  function ToWallets(rows: seq<Row>): seq<string> {
    seq(|rows|, i requires 0 <= i < |rows| => rows[i].toWallet)
  }

  /** `Array.from(new Set(cohortData.map(row => row["To Wallet"])))`. */
  function Wallets(data: seq<Row>): seq<string> {
    FirstOccurrences(ToWallets(CohortRows(data)))
  }

  /**
   * The labels the loops run over: the label of every cohort row, each once, nothing
   * else, in the order in which the labels first occur among the cohort rows.
   */
  lemma WalletsSpec(data: seq<Row>)
    ensures var c := CohortRows(data);
      var ws := Wallets(data);
      Distinct(ws) &&
      (forall i :: 0 <= i < |c| ==> c[i].toWallet in ws) &&
      (forall w :: w in ws ==> exists i :: 0 <= i < |c| && c[i].toWallet == w) &&
      (forall i, j :: 0 <= i < j < |ws| ==>
         FirstIndex(ToWallets(c), ws[i]) < FirstIndex(ToWallets(c), ws[j]))
  {
    var c := CohortRows(data);
    var raw := ToWallets(c);
    assert |raw| == |c| && forall i :: 0 <= i < |c| ==> raw[i] == c[i].toWallet;
    FirstOccurrencesOrdered(raw);
    forall w | w in Wallets(data) ensures exists i :: 0 <= i < |c| && c[i].toWallet == w {
      var i := FirstIndex(raw, w);
      assert c[i].toWallet == w;
    }
  }

  /** The similarity of the display names, compared as JavaScript strings. */
  function NameScore(w1: string, w2: string): Number {
    Score(Utf16(Name(w1)), Utf16(Name(w2)))
  }

  /** Two labels pass every test of the inner loop. */
  predicate Eligible(processed: set<string>, w1: string, w2: string) {
    w1 !in processed && w2 !in processed && w1 != w2 &&
    Address(w1) != Address(w2) &&
    AboveThreshold(NameScore(w1, w2))
  }

  function Accepts(processed: set<string>): (string, string) -> bool {
    (w1, w2) => Eligible(processed, w1, w2)
  }

  /** `processedWallets.has(w)`: the outer loop skips these labels. */
  function InGroup(processed: set<string>): string -> bool {
    w => w in processed
  }

  /** The score of the display names as a number; `NaN` never reaches a pair. */
  function SimilarityOf(w1: string, w2: string): real {
    var n := NameScore(w1, w2);
    if n.Num? then n.value else 0.0
  }

  function MakePair(w1: string, w2: string): Pair {
    Pair(w1, w2, SimilarityOf(w1, w2))
  }

  /** The pairs the nested loops emit, in emission order. */
  function Generated(ws: seq<string>, processed: set<string>): seq<Pair> {
    AllPairs(ws, Accepts(processed), MakePair, InGroup(processed), |ws|)
  }

  function BySimilarity(p: Pair): real {
    p.similarity
  }

  /** The pair list handed to the confirmation protocol. */
  function CandidatePairs(data: seq<Row>, store: Store): seq<Pair> {
    SortDesc(Generated(Wallets(data), Members(store)), BySimilarity)
  }

  /** The nested loops of the "Process Data" handler, before the sort. */
  method GeneratePairs(ws: seq<string>, processed: set<string>) returns (pairs: seq<Pair>)
    ensures pairs == Generated(ws, processed)
  {
    pairs := [];
    for i := 0 to |ws|
      invariant pairs == AllPairs(ws, Accepts(processed), MakePair, InGroup(processed), i)
    {
      if ws[i] !in processed {
        ghost var before := pairs;
        for j := i + 1 to |ws|
          invariant pairs == before + PairsWith(ws, Accepts(processed), MakePair, i, j)
        {
          if ws[j] !in processed {
            var wallet1, wallet2 := ws[i], ws[j];
            if wallet1 != wallet2 {
              var addr1, addr2 := Address(wallet1), Address(wallet2);
              var name1, name2 := Name(wallet1), Name(wallet2);
              if addr1 != addr2 {
                var similarity := CalculateSimilarity(Utf16(name1), Utf16(name2));
                if similarity.Num? && similarity.value > 0.7 {
                  pairs := pairs + [Pair(wallet1, wallet2, similarity.value)];
                }
              }
            }
          }
        }
      }
    }
  }

  // ---------------------------------------------------------------------------
  // Soundness, completeness and size of the generated list
  // ---------------------------------------------------------------------------

  /** Every emitted pair comes from positions `i < j` whose labels pass every test. */
  lemma GeneratedSound(ws: seq<string>, processed: set<string>, p: Pair)
    requires p in Generated(ws, processed)
    ensures exists i, j :: 0 <= i < j < |ws| && Eligible(processed, ws[i], ws[j]) && p == MakePair(ws[i], ws[j])
  {
    AllPairsSound(ws, Accepts(processed), MakePair, InGroup(processed), |ws|, p);
  }

  /** Every pair of positions `i < j` whose labels pass every test is emitted. */
  lemma GeneratedComplete(ws: seq<string>, processed: set<string>, i: nat, j: nat)
    requires i < j < |ws| && Eligible(processed, ws[i], ws[j])
    ensures MakePair(ws[i], ws[j]) in Generated(ws, processed)
  {
    AllPairsComplete(ws, Accepts(processed), MakePair, InGroup(processed), |ws|, i, j);
  }

  /** At most one pair per unordered pair of labels: `n (n - 1) / 2`. */
  lemma GeneratedCount(ws: seq<string>, processed: set<string>)
    ensures 2 * |Generated(ws, processed)| <= |ws| * (|ws| - 1)
  {
    AllPairsCount(ws, Accepts(processed), MakePair, InGroup(processed), |ws|);
  }

  // ---------------------------------------------------------------------------
  // What every candidate pair satisfies
  // ---------------------------------------------------------------------------

  /**
   * A pair the protocol may present: neither label is stored in a group, the
   * addresses differ, the first label is not empty, and the recorded similarity is
   * the score of the display names, above the threshold.
   */
  predicate ValidPair(p: Pair, processed: set<string>) {
    p.wallet1 !in processed && p.wallet2 !in processed &&
    p.wallet1 != "" && p.wallet2 != "" &&
    Address(p.wallet1) != Address(p.wallet2) &&
    NameScore(p.wallet1, p.wallet2) == Num(p.similarity) && p.similarity > 0.7
  }

  lemma NameOfEmpty()
    ensures Name("") == ""
  {
    assert !IsHyperlink("");
  }

  lemma EligibleIsValid(processed: set<string>, w1: string, w2: string)
    requires Eligible(processed, w1, w2)
    ensures ValidPair(MakePair(w1, w2), processed)
  {
    PassingNamesAreNonEmpty(Utf16(Name(w1)), Utf16(Name(w2)));
    NameOfEmpty();
  }

  lemma GeneratedValid(ws: seq<string>, processed: set<string>, p: Pair)
    requires p in Generated(ws, processed)
    ensures ValidPair(p, processed)
  {
    GeneratedSound(ws, processed, p);
    var i, j :| 0 <= i < j < |ws| && Eligible(processed, ws[i], ws[j]) && p == MakePair(ws[i], ws[j]);
    EligibleIsValid(processed, ws[i], ws[j]);
  }

  /**
   * For the distinct labels of the rows, the first label of every pair first occurs
   * before the second, and both occur among the raw labels.
   */
  lemma GeneratedInFirstOccurrenceOrder(raw: seq<string>, processed: set<string>, p: Pair)
    requires p in Generated(FirstOccurrences(raw), processed)
    ensures p.wallet1 in raw && p.wallet2 in raw
    ensures FirstIndex(raw, p.wallet1) < FirstIndex(raw, p.wallet2)
  {
    var ws := FirstOccurrences(raw);
    GeneratedSound(ws, processed, p);
    var i, j :| 0 <= i < j < |ws| && Eligible(processed, ws[i], ws[j]) && p == MakePair(ws[i], ws[j]);
    FirstOccurrencesOrdered(raw);
  }

  /**
   * The list handed to the protocol: a permutation of the generated pairs, in
   * non-increasing similarity, pairs of equal similarity in generation order, each
   * one valid.
   */
  lemma CandidatePairsSpec(data: seq<Row>, store: Store)
    ensures var gen := Generated(Wallets(data), Members(store));
      var c := CandidatePairs(data, store);
      multiset(c) == multiset(gen) && SortedDesc(c, BySimilarity) &&
      (forall k :: KeyFilter(c, BySimilarity, k) == KeyFilter(gen, BySimilarity, k)) &&
      (forall i :: 0 <= i < |c| ==> ValidPair(c[i], Members(store)))
  {
    var ws, procs := Wallets(data), Members(store);
    var gen := Generated(ws, procs);
    var c := CandidatePairs(data, store);
    SortDescPermutes(gen, BySimilarity);
    SortDescSorted(gen, BySimilarity);
    forall k ensures KeyFilter(c, BySimilarity, k) == KeyFilter(gen, BySimilarity, k) {
      SortDescStable(gen, BySimilarity, k);
    }
    forall i | 0 <= i < |c| ensures ValidPair(c[i], procs) {
      assert c[i] in multiset(c);
      GeneratedValid(ws, procs, c[i]);
    }
  }
}
