/**
 * `processData`: the address-to-group index, the per-key credit of every
 * filtered row, the last-seen display names, and the ranked result rows.
 */
module Aggregation {
  import opened Wrappers
  import opened Collections
  import opened Sorting
  import opened Ledger
  import opened Groups

  // ---------------------------------------------------------------------------
  // Address index: `addressToGroupKey`
  // ---------------------------------------------------------------------------

  /** Maps every address of `ws` to `key`, in order. */
  function IndexGroup(idx: map<string, string>, key: string, ws: seq<string>): map<string, string> {
    if |ws| == 0 then idx
    else IndexGroup(idx, key, ws[..|ws| - 1])[Address(ws[|ws| - 1]) := key]
  }

  /** The index after the first `n` entries of the store. */
  function AddressIndex(s: Store, n: nat): map<string, string>
    requires n <= |s.keys|
  {
    if n == 0 then map[]
    else
      var k := s.keys[n - 1];
      var idx := AddressIndex(s, n - 1);
      if k in s.groups then IndexGroup(idx, k, s.groups[k]) else idx
  }

  function Index(s: Store): map<string, string> {
    AddressIndex(s, |s.keys|)
  }

  /** The position of the last of the first `n` keys whose group holds `a`. */
  function LastHolder(s: Store, a: string, n: nat): (r: Option<nat>)
    requires n <= |s.keys|
    ensures r.Some? ==> r.value < n && s.keys[r.value] in s.groups && HasAddress(s.groups[s.keys[r.value]], a)
    ensures r.Some? ==> forall i :: r.value < i < n && s.keys[i] in s.groups ==> !HasAddress(s.groups[s.keys[i]], a)
    ensures r.None? ==> forall i :: 0 <= i < n && s.keys[i] in s.groups ==> !HasAddress(s.groups[s.keys[i]], a)
  {
    if n == 0 then None
    else if s.keys[n - 1] in s.groups && HasAddress(s.groups[s.keys[n - 1]], a) then Some(n - 1)
    else LastHolder(s, a, n - 1)
  }

  /** The nested `forEach` over `Object.entries` of the store. */
  method BuildAddressIndex(s: Store) returns (idx: map<string, string>)
    ensures idx == Index(s)
  {
    idx := map[];
    for n := 0 to |s.keys|
      invariant idx == AddressIndex(s, n)
    {
      var groupKey := s.keys[n];
      if groupKey in s.groups {
        var wallets := s.groups[groupKey];
        ghost var before := idx;
        for m := 0 to |wallets|
          invariant idx == IndexGroup(before, groupKey, wallets[..m])
        {
          var address := Address(wallets[m]);
          IndexGroupStep(before, groupKey, wallets, m);
          idx := idx[address := groupKey];
        }
        assert wallets[..|wallets|] == wallets;
      }
    }
  }

  lemma IndexGroupStep(idx: map<string, string>, key: string, ws: seq<string>, m: nat)
    requires m < |ws|
    ensures IndexGroup(idx, key, ws[..m + 1]) == IndexGroup(idx, key, ws[..m])[Address(ws[m]) := key]
  {
    assert ws[..m + 1][..m] == ws[..m];
  }

  lemma {:induction false} IndexGroupSpec(idx: map<string, string>, key: string, ws: seq<string>, a: string)
    ensures var r := IndexGroup(idx, key, ws);
      (HasAddress(ws, a) ==> a in r && r[a] == key) &&
      (!HasAddress(ws, a) ==> (a in r <==> a in idx) && (a in idx ==> r[a] == idx[a]))
  {
    if |ws| > 0 {
      var init := ws[..|ws| - 1];
      IndexGroupSpec(idx, key, init, a);
      if HasAddress(init, a) {
        var i :| 0 <= i < |init| && Address(init[i]) == a;
        assert Address(ws[i]) == a;
      }
      if HasAddress(ws, a) && Address(ws[|ws| - 1]) != a {
        var i :| 0 <= i < |ws| && Address(ws[i]) == a;
        assert Address(init[i]) == a;
      }
    }
  }

  /** A later group overwrites an earlier one: an address maps to the last group holding it. */
  lemma {:induction false} AddressIndexIsLastHolder(s: Store, a: string, n: nat)
    requires n <= |s.keys|
    ensures var idx := AddressIndex(s, n); var h := LastHolder(s, a, n);
      (a in idx <==> h.Some?) && (h.Some? ==> idx[a] == s.keys[h.value])
  {
    if n > 0 {
      AddressIndexIsLastHolder(s, a, n - 1);
      var k := s.keys[n - 1];
      if k in s.groups {
        IndexGroupSpec(AddressIndex(s, n - 1), k, s.groups[k], a);
      }
    }
  }

  // ---------------------------------------------------------------------------
  // Crediting the rows: `walletMap` and `walletDisplayNames`
  // ---------------------------------------------------------------------------

  /** The keys of `walletMap` in insertion order, its totals, and the display names. */
  datatype Tally = Tally(order: seq<string>, totals: map<string, int>, names: map<string, string>)

  const EmptyTally: Tally := Tally([], map[], map[])

  /** `addressToGroupKey.get(address)` when truthy, else the address itself. */
  function GroupKeyOf(idx: map<string, string>, a: string): string {
    if a in idx && idx[a] != "" then idx[a] else a
  }

  /** The key a row is credited to: its truthy group key, else its own address. */
  function KeyOf(idx: map<string, string>, r: Row): string {
    GroupKeyOf(idx, Address(r.toWallet))
  }

  /** Record `name` for `address`, then add `amount` to `key`. */
  function CreditTo(t: Tally, key: string, address: string, name: string, amount: int): Tally {
    var current := if key in t.totals then t.totals[key] else 0;
    Tally(if key in t.totals then t.order else t.order + [key],
          t.totals[key := current + amount],
          t.names[address := name])
  }

  /** One step of `filteredData.forEach`. */
  function Credit(t: Tally, idx: map<string, string>, r: Row): Tally {
    CreditTo(t, KeyOf(idx, r), Address(r.toWallet), Name(r.toWallet), AmountOf(r))
  }

  function Accumulate(rows: seq<Row>, idx: map<string, string>): Tally {
    if |rows| == 0 then EmptyTally
    else Credit(Accumulate(rows[..|rows| - 1], idx), idx, rows[|rows| - 1])
  }

  lemma AccumulateStep(rows: seq<Row>, idx: map<string, string>, n: nat)
    requires n < |rows|
    ensures Accumulate(rows[..n + 1], idx) == Credit(Accumulate(rows[..n], idx), idx, rows[n])
  {
    assert rows[..n + 1][..n] == rows[..n];
  }

  /** `walletMap.set(key, (walletMap.get(key) || 0) + amount)`, keeping insertion order. */
  method AddAmount(order: seq<string>, walletMap: map<string, int>, key: string, amount: int)
    returns (order': seq<string>, walletMap': map<string, int>)
    ensures order' == if key in walletMap then order else order + [key]
    ensures walletMap' == walletMap[key := (if key in walletMap then walletMap[key] else 0) + amount]
  {
    var currentTotal := if key in walletMap then walletMap[key] else 0;
    order' := order;
    if key !in walletMap {
      order' := order + [key];
    }
    walletMap' := walletMap[key := currentTotal + amount];
  }

  /** The body of the credit loop for a decoded row: record the name, then add the amount. */
  method CreditRow(order: seq<string>, walletMap: map<string, int>, walletDisplayNames: map<string, string>,
                   idx: map<string, string>, address: string, displayName: string, amount: int)
    returns (order': seq<string>, walletMap': map<string, int>, walletDisplayNames': map<string, string>)
    ensures Tally(order', walletMap', walletDisplayNames') ==
            CreditTo(Tally(order, walletMap, walletDisplayNames), GroupKeyOf(idx, address), address, displayName, amount)
  {
    walletDisplayNames' := walletDisplayNames[address := displayName];
    var groupKey := if address in idx then idx[address] else "";
    if groupKey != "" {
      order', walletMap' := AddAmount(order, walletMap, groupKey, amount);
    } else {
      order', walletMap' := AddAmount(order, walletMap, address, amount);
    }
  }

  /** The credit loop, with the three maps as local state. */
  method AccumulateRows(rows: seq<Row>, idx: map<string, string>) returns (t: Tally)
    ensures t == Accumulate(rows, idx)
  {
    var order: seq<string> := [];
    var walletMap: map<string, int> := map[];
    var walletDisplayNames: map<string, string> := map[];
    for n := 0 to |rows|
      invariant Tally(order, walletMap, walletDisplayNames) == Accumulate(rows[..n], idx)
    {
      var wallet := rows[n].toWallet;
      var amount := AmountOf(rows[n]);
      var address := Address(wallet);
      var displayName := Name(wallet);
      order, walletMap, walletDisplayNames :=
        CreditRow(order, walletMap, walletDisplayNames, idx, address, displayName, amount);
      AccumulateStep(rows, idx, n);
    }
    assert rows[..|rows|] == rows;
    t := Tally(order, walletMap, walletDisplayNames);
  }

  /** The keys credited by `rows`, row by row. */
  function KeysOf(idx: map<string, string>, rows: seq<Row>): seq<string> {
    seq(|rows|, i requires 0 <= i < |rows| => KeyOf(idx, rows[i]))
  }

  /** The total of the amounts of the rows credited to `k`. */
  function SumCredited(rows: seq<Row>, idx: map<string, string>, k: string): int {
    if |rows| == 0 then 0
    else
      var last := rows[|rows| - 1];
      SumCredited(rows[..|rows| - 1], idx, k) + (if KeyOf(idx, last) == k then AmountOf(last) else 0)
  }

  /** The display name of the last row whose address is `a`. */
  function LastName(rows: seq<Row>, a: string): Option<string> {
    if |rows| == 0 then None
    else if Address(rows[|rows| - 1].toWallet) == a then Some(Name(rows[|rows| - 1].toWallet))
    else LastName(rows[..|rows| - 1], a)
  }

  /** The sum of the totals of `keys`. */
  function SumTotals(keys: seq<string>, totals: map<string, int>): int {
    if |keys| == 0 then 0
    else (if keys[0] in totals then totals[keys[0]] else 0) + SumTotals(keys[1..], totals)
  }

  lemma {:induction false} SumTotalsOther(keys: seq<string>, totals: map<string, int>, k: string, v: int)
    requires k !in keys
    ensures SumTotals(keys, totals[k := v]) == SumTotals(keys, totals)
  {
    if |keys| > 0 {
      SumTotalsOther(keys[1..], totals, k, v);
    }
  }

  lemma {:induction false} SumTotalsUpdate(keys: seq<string>, totals: map<string, int>, k: string, v: int)
    requires Distinct(keys) && k in keys && k in totals
    ensures SumTotals(keys, totals[k := v]) == SumTotals(keys, totals) + v - totals[k]
  {
    if keys[0] == k {
      assert k !in keys[1..];
      SumTotalsOther(keys[1..], totals, k, v);
    } else {
      assert k in keys[1..];
      SumTotalsUpdate(keys[1..], totals, k, v);
    }
  }

  lemma {:induction false} SumTotalsAppend(keys: seq<string>, totals: map<string, int>, k: string)
    ensures SumTotals(keys + [k], totals) == SumTotals(keys, totals) + (if k in totals then totals[k] else 0)
  {
    if |keys| > 0 {
      SumTotalsAppend(keys[1..], totals, k);
      assert (keys + [k])[1..] == keys[1..] + [k];
    } else {
      assert SumTotals([k], totals) == (if k in totals then totals[k] else 0) + SumTotals([k][1..], totals);
    }
  }

  /** The total recorded for `k`, zero when `k` was never credited (`walletMap.get(k) || 0`). */
  function TotalOr0(t: Tally, k: string): int {
    if k in t.totals then t.totals[k] else 0
  }

  /** The keys of the totals are the credited keys, in first-credit order. */
  lemma {:induction false} AccumulateOrder(rows: seq<Row>, idx: map<string, string>)
    ensures var t := Accumulate(rows, idx);
      t.order == FirstOccurrences(KeysOf(idx, rows)) &&
      (forall k :: k in t.totals <==> k in t.order)
  {
    if |rows| > 0 {
      var init, r := rows[..|rows| - 1], rows[|rows| - 1];
      AccumulateOrder(init, idx);
      var key := KeyOf(idx, r);
      KeysOfSnoc(idx, rows);
      FirstOccurrencesSnoc(KeysOf(idx, init), key);
    }
  }

  lemma KeysOfSnoc(idx: map<string, string>, rows: seq<Row>)
    requires |rows| > 0
    ensures KeysOf(idx, rows) == KeysOf(idx, rows[..|rows| - 1]) + [KeyOf(idx, rows[|rows| - 1])]
  {
  }

  /** Each total is the sum of the amounts of the rows credited to its key. */
  lemma {:induction false} AccumulateTotals(rows: seq<Row>, idx: map<string, string>, k: string)
    ensures TotalOr0(Accumulate(rows, idx), k) == SumCredited(rows, idx, k)
  {
    if |rows| > 0 {
      AccumulateTotals(rows[..|rows| - 1], idx, k);
    }
  }

  /** The recorded name of an address is the display name of the last row with that address. */
  lemma {:induction false} AccumulateNames(rows: seq<Row>, idx: map<string, string>, a: string)
    ensures var t := Accumulate(rows, idx);
      (a in t.names <==> LastName(rows, a).Some?) &&
      (a in t.names ==> t.names[a] == LastName(rows, a).value)
  {
    if |rows| > 0 {
      AccumulateNames(rows[..|rows| - 1], idx, a);
    }
  }

  /** The recorded keys are distinct and are exactly the keys with a total. */
  ghost predicate KeysTracked(t: Tally) {
    Distinct(t.order) && forall k :: k in t.totals <==> k in t.order
  }

  lemma {:induction false} AccumulateKeys(rows: seq<Row>, idx: map<string, string>)
    ensures KeysTracked(Accumulate(rows, idx))
  {
    if |rows| > 0 {
      var init, r := rows[..|rows| - 1], rows[|rows| - 1];
      AccumulateKeys(init, idx);
      CreditShape(Accumulate(init, idx), idx, r);
    }
  }

  lemma CreditToShape(t: Tally, key: string, address: string, name: string, amount: int)
    ensures var c := CreditTo(t, key, address, name, amount);
      c.order == (if key in t.totals then t.order else t.order + [key]) &&
      c.totals == t.totals[key := TotalOr0(t, key) + amount]
  {
  }

  /** One credit, spelled out on the key it credits. */
  lemma CreditShape(t: Tally, idx: map<string, string>, r: Row)
    ensures var key := KeyOf(idx, r); var c := Credit(t, idx, r);
      c.order == (if key in t.totals then t.order else t.order + [key]) &&
      c.totals == t.totals[key := TotalOr0(t, key) + AmountOf(r)]
  {
    CreditToShape(t, KeyOf(idx, r), Address(r.toWallet), Name(r.toWallet), AmountOf(r));
  }

  lemma CreditSum(t: Tally, key: string, amount: int)
    requires KeysTracked(t)
    ensures var v := TotalOr0(t, key) + amount;
      SumTotals(if key in t.totals then t.order else t.order + [key], t.totals[key := v]) ==
      SumTotals(t.order, t.totals) + amount
  {
    var v := TotalOr0(t, key) + amount;
    if key in t.totals {
      SumTotalsUpdate(t.order, t.totals, key, v);
    } else {
      SumTotalsAppend(t.order, t.totals[key := v], key);
      SumTotalsOther(t.order, t.totals, key, v);
    }
  }

  /** One credit adds the row's amount to the sum of the totals. */
  lemma CreditKeepsSum(t: Tally, idx: map<string, string>, r: Row)
    requires KeysTracked(t)
    ensures var c := Credit(t, idx, r); SumTotals(c.order, c.totals) == SumTotals(t.order, t.totals) + AmountOf(r)
  {
    CreditShape(t, idx, r);
    CreditSum(t, KeyOf(idx, r), AmountOf(r));
  }

  /** The totals add up to the amounts of all rows. */
  lemma {:induction false} AccumulateSum(rows: seq<Row>, idx: map<string, string>)
    ensures var t := Accumulate(rows, idx); SumTotals(t.order, t.totals) == SumAmounts(rows)
  {
    if |rows| > 0 {
      var init, r := rows[..|rows| - 1], rows[|rows| - 1];
      AccumulateSum(init, idx);
      AccumulateKeys(init, idx);
      CreditKeepsSum(Accumulate(init, idx), idx, r);
    }
  }

  /**
   * What the credit loop computes: the keys are the credited keys in first-credit
   * order, each total is the sum of the amounts credited to its key, the names are
   * the last-seen display names, and the totals add up to the filtered amounts.
   */
  lemma AccumulateSpec(rows: seq<Row>, idx: map<string, string>)
    ensures var t := Accumulate(rows, idx);
      t.order == FirstOccurrences(KeysOf(idx, rows)) &&
      (forall k :: k in t.totals <==> k in t.order) &&
      (forall k :: TotalOr0(t, k) == SumCredited(rows, idx, k)) &&
      (forall a :: (a in t.names <==> LastName(rows, a).Some?) &&
                   (a in t.names ==> t.names[a] == LastName(rows, a).value)) &&
      SumTotals(t.order, t.totals) == SumAmounts(rows)
  {
    AccumulateOrder(rows, idx);
    forall k ensures TotalOr0(Accumulate(rows, idx), k) == SumCredited(rows, idx, k) {
      AccumulateTotals(rows, idx, k);
    }
    forall a ensures var t := Accumulate(rows, idx);
      (a in t.names <==> LastName(rows, a).Some?) && (a in t.names ==> t.names[a] == LastName(rows, a).value)
    {
      AccumulateNames(rows, idx, a);
    }
    AccumulateSum(rows, idx);
  }

  // ---------------------------------------------------------------------------
  // Result rows
  // ---------------------------------------------------------------------------

  /** One row of the report. */
  datatype WalletGroup = WalletGroup(wallets: seq<string>, totalAmount: int, displayName: string)

  /** `currentGroups[key] || [key]`, the total, and `walletDisplayNames.get(key) || key`. */
  function ResultRow(key: string, t: Tally, groups: map<string, seq<string>>): WalletGroup {
    WalletGroup(if key in groups then groups[key] else [key],
                TotalOr0(t, key),
                if key in t.names && t.names[key] != "" then t.names[key] else key)
  }

  /** `Array.from(walletMap.entries()).map(...)` over the given keys. */
  function ResultRows(keys: seq<string>, t: Tally, groups: map<string, seq<string>>): (r: seq<WalletGroup>)
    ensures |r| == |keys| && forall i :: 0 <= i < |keys| ==> r[i] == ResultRow(keys[i], t, groups)
  {
    if |keys| == 0 then [] else [ResultRow(keys[0], t, groups)] + ResultRows(keys[1..], t, groups)
  }

  function ByTotal(g: WalletGroup): real {
    g.totalAmount as real
  }

  function TotalOf(g: WalletGroup): int {
    g.totalAmount
  }

  /** The unsorted rows of one aggregation pass. */
  function UnsortedReport(data: seq<Row>, start: Bound, end: Bound, s: Store): seq<WalletGroup> {
    var t := Accumulate(Filtered(CohortRows(data), start, end), Index(s));
    ResultRows(t.order, t, s.groups)
  }

  /** The ranked report of one aggregation pass. */
  function Report(data: seq<Row>, start: Bound, end: Bound, s: Store): seq<WalletGroup> {
    SortDesc(UnsortedReport(data, start, end, s), ByTotal)
  }

  lemma {:induction false} ResultRowsSum(keys: seq<string>, t: Tally, groups: map<string, seq<string>>)
    ensures SumBy(ResultRows(keys, t, groups), TotalOf) == SumTotals(keys, t.totals)
  {
    if |keys| > 0 {
      ResultRowsSum(keys[1..], t, groups);
      assert ResultRows(keys, t, groups)[1..] == ResultRows(keys[1..], t, groups);
    }
  }

  /** Conservation: the report's totals add up to the amounts of the filtered rows. */
  lemma ReportConserves(data: seq<Row>, start: Bound, end: Bound, s: Store)
    ensures SumBy(Report(data, start, end, s), TotalOf) == SumAmounts(Filtered(data, start, end))
  {
    var rows := Filtered(CohortRows(data), start, end);
    FilteredOfCohort(data, start, end);
    var t := Accumulate(rows, Index(s));
    AccumulateSpec(rows, Index(s));
    ResultRowsSum(t.order, t, s.groups);
    SortDescSum(UnsortedReport(data, start, end, s), ByTotal, TotalOf);
  }

  /**
   * `g` is the report row of `key` for the filtered `rows`: its wallets are the key's
   * group (or the key alone), its total is everything credited to the key, and its
   * name is the last-seen display name of the key's address unless that is empty
   * or missing.
   */
  predicate RowOf(g: WalletGroup, key: string, rows: seq<Row>, idx: map<string, string>,
                  groups: map<string, seq<string>>) {
    var last := LastName(rows, key);
    g.wallets == (if key in groups then groups[key] else [key]) &&
    g.totalAmount == SumCredited(rows, idx, key) &&
    g.displayName == (if last.Some? && last.value != "" then last.value else key)
  }

  lemma ResultRowSpec(rows: seq<Row>, idx: map<string, string>, groups: map<string, seq<string>>, key: string)
    ensures RowOf(ResultRow(key, Accumulate(rows, idx), groups), key, rows, idx, groups)
  {
    AccumulateTotals(rows, idx, key);
    AccumulateNames(rows, idx, key);
  }

  /** Before sorting there is one row per credited key, in first-credit order. */
  lemma UnsortedReportSpec(data: seq<Row>, start: Bound, end: Bound, s: Store)
    ensures var rows := Filtered(data, start, end);
      var keys := FirstOccurrences(KeysOf(Index(s), rows));
      var u := UnsortedReport(data, start, end, s);
      Distinct(keys) && |u| == |keys| &&
      forall i :: 0 <= i < |u| ==> RowOf(u[i], keys[i], rows, Index(s), s.groups)
  {
    var rows := Filtered(CohortRows(data), start, end);
    FilteredOfCohort(data, start, end);
    var t := Accumulate(rows, Index(s));
    AccumulateOrder(rows, Index(s));
    var u := UnsortedReport(data, start, end, s);
    forall i | 0 <= i < |u| ensures RowOf(u[i], t.order[i], rows, Index(s), s.groups) {
      ResultRowSpec(rows, Index(s), s.groups, t.order[i]);
    }
  }

  /** The report is the unsorted rows, permuted into non-increasing totals, ties in order. */
  lemma ReportSpec(data: seq<Row>, start: Bound, end: Bound, s: Store)
    ensures var u := UnsortedReport(data, start, end, s); var r := Report(data, start, end, s);
      multiset(r) == multiset(u) && SortedDesc(r, ByTotal) &&
      forall k :: KeyFilter(r, ByTotal, k) == KeyFilter(u, ByTotal, k)
  {
    var u := UnsortedReport(data, start, end, s);
    SortDescPermutes(u, ByTotal);
    SortDescSorted(u, ByTotal);
    forall k ensures KeyFilter(Report(data, start, end, s), ByTotal, k) == KeyFilter(u, ByTotal, k) {
      SortDescStable(u, ByTotal, k);
    }
  }

  /** With no data the report is empty. */
  lemma EmptyReport(start: Bound, end: Bound, s: Store)
    ensures Report([], start, end, s) == []
  {
  }
}
