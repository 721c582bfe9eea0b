/**
 * The component's state and its handlers: the CSV rows, the date inputs, the
 * group store (`currentGroupsRef.current`, mirrored by `pendingGroups`), the
 * candidate list with its cursor, the confirmation popup, and the report.
 */
module Processor {
  import opened Wrappers
  import opened Collections
  import opened Sorting
  import opened Ledger
  import opened Groups
  import opened Candidates
  import opened Aggregation

  const NoFileError: string := "No file selected"
  const NotCsvError: string := "Please upload a CSV file"
  const ParseError: string := "Error parsing CSV file"
  const NoDataError: string := "No data found in CSV file"
  const ReadError: string := "Error reading CSV file"

  /**
   * What the CSV parser reports for a file: the rows and the number of row-level
   * errors (`complete`), or a failure to read the file (`error`).
   */
  datatype ParseOutcome = Complete(errorCount: nat, rows: seq<Row>) | ReadFailed

  /** `name.endsWith(suffix)`. */
  predicate EndsWith(name: string, suffix: string) {
    |suffix| <= |name| && name[|name| - |suffix|..] == suffix
  }

  /** The name test is exact: a `.CSV` name is refused. */
  lemma CsvSuffixIsCaseSensitive()
    ensures EndsWith("ledger.csv", ".csv") && !EndsWith("ledger.CSV", ".csv") && !EndsWith("csv", ".csv")
  {
    assert "ledger.csv"[6..] == ".csv";
    assert "ledger.CSV"[6..][1] == 'C';
  }

  /** What a presented pair must satisfy for a merge to keep the store's invariants. */
  predicate Mergeable(p: Pair) {
    p.wallet1 != "" && Address(p.wallet1) != Address(p.wallet2)
  }

  lemma ValidPairIsMergeable(p: Pair, processed: set<string>)
    requires ValidPair(p, processed)
    ensures Mergeable(p)
  {
  }

  /** The report after `processData`: unchanged without data, otherwise recomputed. */
  function Refreshed(before: seq<WalletGroup>, data: seq<Row>, start: Bound, end: Bound, store: Store): seq<WalletGroup> {
    if |data| == 0 then before else Report(data, start, end, store)
  }

  /**
   * The candidate list of the "Process Data" button: the sorted pairs, each of
   * which a merge can take.
   */
  method ComputeCandidates(data: seq<Row>, store: Store) returns (pairs: seq<Pair>)
    ensures pairs == CandidatePairs(data, store)
    ensures forall i :: 0 <= i < |pairs| ==> Mergeable(pairs[i])
  {
    var cohortData := CohortRows(data);
    var wallets := FirstOccurrences(ToWallets(cohortData));
    var processedWallets := Members(store);
    pairs := GeneratePairs(wallets, processedWallets);
    pairs := SortDesc(pairs, BySimilarity);
    CandidatePairsSpec(data, store);
    forall i | 0 <= i < |pairs| ensures Mergeable(pairs[i]) {
      ValidPairIsMergeable(pairs[i], processedWallets);
    }
  }

  class CsvProcessor {
    var data: seq<Row>
    var startDate: Bound
    var endDate: Bound
    var walletGroups: seq<WalletGroup>
    var showConfirmation: bool
    var currentMatch: Option<Pair>
    var fileError: string
    var similarPairs: seq<Pair>
    var currentPairIndex: nat
    /** `Object.keys` of the group store, in insertion order. */
    var groupKeys: seq<string>
    var groups: map<string, seq<string>>
    /** Decisions taken on the current candidate list. */
    ghost var decided: nat

    function GroupStore(): Store
      reads this
    {
      Store(groupKeys, groups)
    }

    /**
     * The store is well formed, has no empty key and no repeated address within a
     * group; every candidate and the current match can be merged; the popup is shown
     * exactly while a match is current.
     */
    ghost predicate Valid()
      reads this
    {
      WellFormed(GroupStore()) && NoEmptyKey(GroupStore()) && MembersDistinct(GroupStore()) &&
      (forall i :: 0 <= i < |similarPairs| ==> Mergeable(similarPairs[i])) &&
      (showConfirmation <==> currentMatch.Some?) &&
      (currentMatch.Some? ==> Mergeable(currentMatch.value))
    }

    /**
     * The confirmation protocol is in step: the popup shows the pair under the cursor
     * after as many decisions as the cursor position, or is hidden once every pair
     * of the list has been decided.  Only a press of "Process Data" while the popup
     * is open that yields no pairs leaves it out of step (the old pair stays shown).
     */
    ghost predicate Presenting()
      reads this
    {
      (showConfirmation ==>
         currentPairIndex < |similarPairs| && currentMatch == Some(similarPairs[currentPairIndex]) &&
         decided == currentPairIndex) &&
      (!showConfirmation ==> decided == |similarPairs|)
    }

    constructor ()
      ensures Valid() && Presenting()
      ensures data == [] && startDate == Unset && endDate == Unset && walletGroups == []
      ensures !showConfirmation && currentMatch == None && fileError == ""
      ensures similarPairs == [] && currentPairIndex == 0 && GroupStore() == EmptyStore
    {
      data := [];
      startDate := Unset;
      endDate := Unset;
      walletGroups := [];
      showConfirmation := false;
      currentMatch := None;
      fileError := "";
      similarPairs := [];
      currentPairIndex := 0;
      groupKeys := [];
      groups := map[];
      decided := 0;
    }

    /**
     * The file input's change handler: clear the error, reject a missing file or a
     * name without `.csv`, then handle the parser's outcome.
     */
    method HandleFileUpload(fileName: Option<string>, outcome: ParseOutcome)
      requires Valid()
      modifies this
      ensures Valid()
      ensures fileName.None? ==> fileError == NoFileError && data == old(data)
      ensures fileName.Some? && !EndsWith(fileName.value, ".csv") ==> fileError == NotCsvError && data == old(data)
      ensures fileName.Some? && EndsWith(fileName.value, ".csv") ==>
        match outcome
        case ReadFailed => fileError == ReadError && data == old(data)
        case Complete(errorCount, rows) =>
          if errorCount > 0 then fileError == ParseError && data == old(data)
          else if |rows| == 0 then fileError == NoDataError && data == old(data)
          else fileError == "" && data == CohortRows(rows)
      ensures GroupStore() == old(GroupStore()) && walletGroups == old(walletGroups)
      ensures startDate == old(startDate) && endDate == old(endDate)
      ensures similarPairs == old(similarPairs) && currentPairIndex == old(currentPairIndex)
      ensures showConfirmation == old(showConfirmation) && currentMatch == old(currentMatch)
      ensures decided == old(decided)
    {
      fileError := "";
      if fileName.None? {
        fileError := NoFileError;
        return;
      }
      if !EndsWith(fileName.value, ".csv") {
        fileError := NotCsvError;
        return;
      }
      match outcome
      case ReadFailed =>
        fileError := ReadError;
      case Complete(errorCount, rows) =>
        LoadParsedRows(errorCount, rows);
    }

    /** The parser's `complete` callback: report errors or no data, else keep the cohort rows. */
    method LoadParsedRows(errorCount: nat, rows: seq<Row>)
      requires Valid()
      modifies this
      ensures Valid()
      ensures errorCount > 0 ==> data == old(data) && fileError == ParseError
      ensures errorCount == 0 && |rows| == 0 ==> data == old(data) && fileError == NoDataError
      ensures errorCount == 0 && |rows| > 0 ==> data == CohortRows(rows) && fileError == old(fileError)
      ensures GroupStore() == old(GroupStore()) && walletGroups == old(walletGroups)
      ensures startDate == old(startDate) && endDate == old(endDate)
      ensures similarPairs == old(similarPairs) && currentPairIndex == old(currentPairIndex)
      ensures showConfirmation == old(showConfirmation) && currentMatch == old(currentMatch)
      ensures decided == old(decided)
    {
      if errorCount > 0 {
        fileError := ParseError;
        return;
      }
      if |rows| == 0 {
        fileError := NoDataError;
        return;
      }
      data := CohortRows(rows);
    }

    /** The body of one confirmed match: the store becomes `Merged`. */
    method Merge(wallet1: string, wallet2: string)
      modifies this
      ensures GroupStore() == Merged(old(GroupStore()), wallet1, wallet2)
      ensures data == old(data) && startDate == old(startDate) && endDate == old(endDate)
      ensures walletGroups == old(walletGroups) && fileError == old(fileError)
      ensures similarPairs == old(similarPairs) && currentPairIndex == old(currentPairIndex)
      ensures showConfirmation == old(showConfirmation) && currentMatch == old(currentMatch)
      ensures decided == old(decided)
    {
      var addr1 := Address(wallet1);
      var addr2 := Address(wallet2);
      var existing := FindGroupIndex(GroupStore(), addr1, addr2, 0);
      if existing.Some? && groupKeys[existing.value] != "" {
        var existingGroupKey := groupKeys[existing.value];
        var newGroup := groups[existingGroupKey];
        if !HasAddress(newGroup, addr1) {
          newGroup := newGroup + [wallet1];
        }
        if !HasAddress(newGroup, addr2) {
          newGroup := newGroup + [wallet2];
        }
        groups := groups[existingGroupKey := newGroup];
      } else {
        var newKey := addr1;
        if newKey !in groupKeys {
          groupKeys := groupKeys + [newKey];
        }
        groups := groups[newKey := [wallet1, wallet2]];
      }
    }

    /** `processData`: nothing without data, otherwise the ranked report of the current state. */
    method ProcessData()
      modifies this
      ensures walletGroups == Refreshed(old(walletGroups), data, startDate, endDate, GroupStore())
      ensures data == old(data) && startDate == old(startDate) && endDate == old(endDate)
      ensures GroupStore() == old(GroupStore()) && fileError == old(fileError)
      ensures similarPairs == old(similarPairs) && currentPairIndex == old(currentPairIndex)
      ensures showConfirmation == old(showConfirmation) && currentMatch == old(currentMatch)
      ensures decided == old(decided)
    {
      if |data| == 0 {
        return;
      }
      var cohortData := CohortRows(data);
      var filteredData := Filtered(cohortData, startDate, endDate);
      var addressToGroupKey := BuildAddressIndex(GroupStore());
      var tally := AccumulateRows(filteredData, addressToGroupKey);
      var rows := ResultRows(tally.order, tally, groups);
      walletGroups := SortDesc(rows, ByTotal);
    }

    /**
     * The "Process Data" button: compute and sort the candidates, then present the
     * first one, or aggregate at once when there is none.  The button stays in the
     * page while the popup is open, so this may run with a pair on screen: a
     * non-empty list replaces that pair, an empty one leaves it shown.
     */
    method StartProcessing()
      requires Valid()
      modifies this
      ensures Valid()
      ensures similarPairs == CandidatePairs(data, GroupStore()) && currentPairIndex == 0 && decided == 0
      ensures |similarPairs| > 0 ==>
        showConfirmation && currentMatch == Some(similarPairs[0]) && walletGroups == old(walletGroups)
      ensures |similarPairs| == 0 ==>
        showConfirmation == old(showConfirmation) && currentMatch == old(currentMatch) &&
        walletGroups == Refreshed(old(walletGroups), data, startDate, endDate, GroupStore())
      ensures |similarPairs| > 0 || !old(showConfirmation) ==> Presenting()
      ensures data == old(data) && startDate == old(startDate) && endDate == old(endDate)
      ensures GroupStore() == old(GroupStore()) && fileError == old(fileError)
    {
      var pairs := ComputeCandidates(data, GroupStore());
      SetCandidates(pairs);
      if |pairs| == 0 {
        ProcessData();
      }
    }

    /**
     * Store the sorted list, reset the cursor, and present the first pair if any;
     * with no pairs the popup and the match are left as they were.
     */
    method SetCandidates(pairs: seq<Pair>)
      requires Valid()
      requires forall i :: 0 <= i < |pairs| ==> Mergeable(pairs[i])
      modifies this
      ensures Valid()
      ensures similarPairs == pairs && currentPairIndex == 0 && decided == 0
      ensures showConfirmation == (|pairs| > 0 || old(showConfirmation))
      ensures currentMatch == if |pairs| > 0 then Some(pairs[0]) else old(currentMatch)
      ensures |pairs| > 0 || !old(showConfirmation) ==> Presenting()
      ensures data == old(data) && startDate == old(startDate) && endDate == old(endDate)
      ensures GroupStore() == old(GroupStore()) && fileError == old(fileError)
      ensures walletGroups == old(walletGroups)
    {
      similarPairs := pairs;
      currentPairIndex := 0;
      decided := 0;
      if |pairs| > 0 {
        currentMatch := Some(pairs[0]);
        showConfirmation := true;
      }
    }

    /** "Yes" on the presented pair: merge it, keeping the invariant. */
    method MergeCurrent()
      requires Valid() && showConfirmation
      modifies this
      ensures Valid()
      ensures GroupStore() == Merged(old(GroupStore()), old(currentMatch).value.wallet1, old(currentMatch).value.wallet2)
      ensures data == old(data) && startDate == old(startDate) && endDate == old(endDate)
      ensures walletGroups == old(walletGroups) && fileError == old(fileError)
      ensures similarPairs == old(similarPairs) && currentPairIndex == old(currentPairIndex)
      ensures showConfirmation == old(showConfirmation) && currentMatch == old(currentMatch)
      ensures decided == old(decided)
    {
      var wallet1, wallet2 := currentMatch.value.wallet1, currentMatch.value.wallet2;
      MergePreservesWellFormed(GroupStore(), wallet1, wallet2);
      MergeKeepsNoEmptyKey(GroupStore(), wallet1, wallet2);
      MergeKeepsMembersDistinct(GroupStore(), wallet1, wallet2);
      Merge(wallet1, wallet2);
    }

    /** After a decision: present the next pair, or hide the popup and aggregate. */
    method Advance()
      requires Valid() && showConfirmation
      modifies this
      ensures Valid()
      ensures decided == old(decided) + 1 && GroupStore() == old(GroupStore())
      ensures old(Presenting()) ==> Presenting()
      ensures old(currentPairIndex) + 1 < |similarPairs| ==>
        currentPairIndex == old(currentPairIndex) + 1 && showConfirmation &&
        currentMatch == Some(similarPairs[currentPairIndex]) && walletGroups == old(walletGroups)
      ensures old(currentPairIndex) + 1 >= |similarPairs| ==>
        currentPairIndex == old(currentPairIndex) && !showConfirmation && currentMatch == None &&
        walletGroups == Refreshed(old(walletGroups), data, startDate, endDate, GroupStore())
      ensures similarPairs == old(similarPairs) && data == old(data)
      ensures startDate == old(startDate) && endDate == old(endDate) && fileError == old(fileError)
    {
      decided := decided + 1;
      var nextIndex := currentPairIndex + 1;
      if nextIndex < |similarPairs| {
        currentPairIndex := nextIndex;
        currentMatch := Some(similarPairs[nextIndex]);
      } else {
        showConfirmation := false;
        currentMatch := None;
        ProcessData();
      }
    }

    /**
     * One answer in the popup: merge the current pair on "yes", then present the
     * next pair, or after the last one hide the popup and aggregate.
     */
    method HandleConfirmation(isMatch: bool)
      requires Valid() && showConfirmation
      modifies this
      ensures Valid()
      ensures decided == old(decided) + 1
      ensures old(Presenting()) ==> Presenting()
      ensures GroupStore() ==
        if isMatch then Merged(old(GroupStore()), old(currentMatch).value.wallet1, old(currentMatch).value.wallet2)
        else old(GroupStore())
      ensures old(currentPairIndex) + 1 < |similarPairs| ==>
        currentPairIndex == old(currentPairIndex) + 1 && showConfirmation &&
        currentMatch == Some(similarPairs[currentPairIndex]) && walletGroups == old(walletGroups)
      ensures old(currentPairIndex) + 1 >= |similarPairs| ==>
        currentPairIndex == old(currentPairIndex) && !showConfirmation && currentMatch == None &&
        walletGroups == Refreshed(old(walletGroups), data, startDate, endDate, GroupStore())
      ensures similarPairs == old(similarPairs) && data == old(data)
      ensures startDate == old(startDate) && endDate == old(endDate) && fileError == old(fileError)
    {
      if isMatch && currentMatch.Some? {
        MergeCurrent();
      }
      Advance();
    }
  }
}
