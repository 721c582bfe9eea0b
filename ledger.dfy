/**
 * Ledger rows as the component reads them, and the per-row tests of the
 * aggregation: the cohort tag, the inclusive date window and the amount.
 * Dates are already-parsed millisecond timestamps (`None` for an invalid date)
 * and fiat amounts are exact integers (`None` where `parseFloat` gives `NaN`).
 */
module Ledger {
  import opened Wrappers
  import opened Labels

  /** One parsed transaction; only the fields the component reads. */
  datatype Row = Row(date: Option<int>, toWallet: string, fiatOut: Option<int>, account: Option<string>)

  /** A date input: left empty, or the parsed value of a non-empty one. */
  datatype Bound = Unset | Date(t: Option<int>)

  const CohortMarker: string := "cohort"
  /** `new Date(0)`, the start used when no start date is set. */
  const EarliestDate: int := 0
  /** `new Date(8640000000000000)`, the end used when no end date is set. */
  const LatestDate: int := 8640000000000000

  function LowerAscii(c: char): char {
    if 'A' <= c <= 'Z' then (c as int + 32) as char else c
  }

  function ToLower(s: string): (r: string)
    ensures |r| == |s| && forall i :: 0 <= i < |s| ==> r[i] == LowerAscii(s[i])
  {
    if |s| == 0 then [] else [LowerAscii(s[0])] + ToLower(s[1..])
  }

  /** `s.includes(p)`: some position of `s` starts a copy of `p`. */
  function Includes(s: string, p: string, from: nat): (r: bool)
    requires from <= |s|
    ensures r <==> exists i :: from <= i && OccursAt(s, p, i)
    decreases |s| - from
  {
    if OccursAt(s, p, from) then true
    else if from == |s| then false
    else Includes(s, p, from + 1)
  }

  /** `row.Account?.toLowerCase().includes("cohort")`; a missing account fails. */
  predicate IsCohort(r: Row) {
    r.account.Some? && Includes(ToLower(r.account.value), CohortMarker, 0)
  }

  /** The instant a date input stands for; `None` is JavaScript's invalid date. */
  function StartOf(b: Bound): Option<int> {
    match b
    case Unset => Some(EarliestDate)
    case Date(t) => t
  }

  function EndOf(b: Bound): Option<int> {
    match b
    case Unset => Some(LatestDate)
    case Date(t) => t
  }

  /** `rowDate >= start && rowDate <= end`: every comparison with an invalid date is false. */
  predicate InRange(r: Row, start: Bound, end: Bound) {
    r.date.Some? && StartOf(start).Some? && EndOf(end).Some? &&
    StartOf(start).value <= r.date.value <= EndOf(end).value
  }

  /** `parseFloat(row["Fiat Value Out"]) || 0`. */
  function AmountOf(r: Row): int {
    match r.fiatOut
    case None => 0
    case Some(v) => v
  }

  /** The rows with the cohort tag, in order. */
  function CohortRows(rows: seq<Row>): (r: seq<Row>)
    ensures |r| <= |rows|
    ensures forall i :: 0 <= i < |r| ==> IsCohort(r[i]) && r[i] in rows
    ensures forall i :: 0 <= i < |rows| && IsCohort(rows[i]) ==> rows[i] in r
  {
    if |rows| == 0 then []
    else (if IsCohort(rows[0]) then [rows[0]] else []) + CohortRows(rows[1..])
  }

  /** The cohort rows dated inside the inclusive window, in order. */
  function Filtered(rows: seq<Row>, start: Bound, end: Bound): (r: seq<Row>)
    ensures |r| <= |rows|
    ensures forall i :: 0 <= i < |r| ==> IsCohort(r[i]) && InRange(r[i], start, end) && r[i] in rows
    ensures forall i :: 0 <= i < |rows| && IsCohort(rows[i]) && InRange(rows[i], start, end) ==> rows[i] in r
  {
    if |rows| == 0 then []
    else
      (if IsCohort(rows[0]) && InRange(rows[0], start, end) then [rows[0]] else []) +
      Filtered(rows[1..], start, end)
  }

  /** The total of the amounts of `rows`. */
  function SumAmounts(rows: seq<Row>): int {
    if |rows| == 0 then 0 else SumAmounts(rows[..|rows| - 1]) + AmountOf(rows[|rows| - 1])
  }

  // ---------------------------------------------------------------------------
  // Properties
  // ---------------------------------------------------------------------------

  /** The tag test ignores ASCII case. */
  lemma CohortIgnoresCase(r: Row, a: string)
    requires r.account.Some? && ToLower(a) == ToLower(r.account.value)
    ensures IsCohort(r) <==> IsCohort(r.(account := Some(a)))
  {
  }

  /** The tag test on a concrete spelling: upper case passes. */
  lemma CohortExampleUpperCase()
    ensures IsCohort(Row(None, "", None, Some("COHORT")))
  {
    assert ToLower("COHORT") == CohortMarker;
    assert OccursAt(CohortMarker, CohortMarker, 0);
  }

  /** A missing account and a truncated tag both fail. */
  lemma CohortExamplesFailing()
    ensures !IsCohort(Row(None, "", None, None))
    ensures !IsCohort(Row(None, "", None, Some("cohor")))
  {
  }

  /** Filtering again changes nothing: the tag filter at upload and in aggregation agree. */
  lemma {:induction false} CohortRowsIdempotent(rows: seq<Row>)
    ensures CohortRows(CohortRows(rows)) == CohortRows(rows)
  {
    if |rows| > 0 {
      CohortRowsIdempotent(rows[1..]);
      var t := CohortRows(rows[1..]);
      if IsCohort(rows[0]) {
        assert ([rows[0]] + t)[1..] == t;
      } else {
        assert [] + t == t;
      }
    }
  }

  /** With no inputs set, exactly the validly dated rows inside the JavaScript date range pass. */
  lemma DefaultWindow(r: Row)
    ensures InRange(r, Unset, Unset) <==> r.date.Some? && 0 <= r.date.value <= 8640000000000000
  {
  }

  /** A start date that does not parse drops every row. */
  lemma InvalidBoundDropsAll(rows: seq<Row>, end: Bound)
    ensures Filtered(rows, Date(None), end) == []
  {
  }

  /** Applying the window to the cohort rows is the same as the combined filter. */
  lemma {:induction false} FilteredOfCohort(rows: seq<Row>, start: Bound, end: Bound)
    ensures Filtered(CohortRows(rows), start, end) == Filtered(rows, start, end)
  {
    if |rows| > 0 {
      FilteredOfCohort(rows[1..], start, end);
      var t := CohortRows(rows[1..]);
      if IsCohort(rows[0]) {
        assert ([rows[0]] + t)[1..] == t;
      } else {
        assert [] + t == t;
      }
    }
  }

  /** Each row is kept as often as it occurs if it is tagged, and not at all otherwise. */
  lemma {:induction false} CohortRowsCount(rows: seq<Row>, x: Row)
    ensures multiset(CohortRows(rows))[x] == if IsCohort(x) then multiset(rows)[x] else 0
  {
    if |rows| > 0 {
      CohortRowsCount(rows[1..], x);
      assert rows == [rows[0]] + rows[1..];
    }
  }

  /** The tag filter works row by row: it keeps the order of the rows. */
  lemma {:induction false} CohortRowsAppend(a: seq<Row>, b: seq<Row>)
    ensures CohortRows(a + b) == CohortRows(a) + CohortRows(b)
  {
    if |a| > 0 {
      assert (a + b)[1..] == a[1..] + b;
      CohortRowsAppend(a[1..], b);
    } else {
      assert a + b == b;
    }
  }

  /** Each row is kept as often as it occurs if it is tagged and dated inside the window. */
  lemma {:induction false} FilteredCount(rows: seq<Row>, start: Bound, end: Bound, x: Row)
    ensures multiset(Filtered(rows, start, end))[x] ==
            if IsCohort(x) && InRange(x, start, end) then multiset(rows)[x] else 0
  {
    if |rows| > 0 {
      var keep := IsCohort(rows[0]) && InRange(rows[0], start, end);
      var head := if keep then [rows[0]] else [];
      var tail := Filtered(rows[1..], start, end);
      FilteredCount(rows[1..], start, end, x);
      assert rows == [rows[0]] + rows[1..];
      assert multiset(rows)[x] == multiset([rows[0]])[x] + multiset(rows[1..])[x];
      assert Filtered(rows, start, end) == head + tail;
      assert multiset(head + tail)[x] == multiset(head)[x] + multiset(tail)[x];
    }
  }

  /** The date filter works row by row: it keeps the order of the rows. */
  lemma {:induction false} FilteredAppend(a: seq<Row>, b: seq<Row>, start: Bound, end: Bound)
    ensures Filtered(a + b, start, end) == Filtered(a, start, end) + Filtered(b, start, end)
  {
    if |a| > 0 {
      assert (a + b)[1..] == a[1..] + b;
      FilteredAppend(a[1..], b, start, end);
    } else {
      assert a + b == b;
    }
  }
}
