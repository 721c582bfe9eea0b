# CSV stream processor: a Dafny model

This project models the core of `CSVProcessor`, a React component. It reads a
ledger of stream payouts (one row per transaction) and keeps the rows whose
`Account` carries the cohort tag. It then helps the operator merge recipient labels
that name the same person: it proposes pairs of `To Wallet` labels whose display
names are similar, one after another, and asks "Are these the same wallet?". Each
"yes" merges the two labels into a group. Last, it totals the `Fiat Value Out` of the
rows inside the selected date window per group, or per address for labels in no
group, and ranks the totals from highest to lowest.

A recipient label is either a plain string or a spreadsheet formula
`=HYPERLINK("…/address/<ADDR>","<CAPTION>")`. The address and the display name are
decoded from it with two regular expressions. Here both are written out as
left-to-right scanners that follow JavaScript's matching order.

Modules, one per part of the component:

- `Labels` (`labels.dfy`): `extractWalletAddress` and `extractDisplayName`.
- `Similarity` (`similarity.dfy`): `calculateSimilarity`. The table method fills an
  `array2` row by row and is proved equal to a recursive edit distance. JavaScript
  strings are sequences of UTF-16 code units, so the names are compared as their
  `Utf16` encodings: a character outside the Basic Multilingual Plane counts twice.
- `Ledger` (`ledger.dfy`): the row type, the cohort test, the date window and the amount.
- `Collections` (`collections.dfy`): `Array.from(new Set(xs))`, first-occurrence order.
- `Sorting` (`sorting.dfy`): `Array.prototype.sort` with a descending comparator.
  The library sort is stable, so its result is that of a stable insertion sort.
- `Groups` (`groups.dfy`): the group store as a value, and `Merged`, the store after
  one confirmed match.
- `Enumeration` (`enumeration.dfy`): the two nested loops over all pairs `i < j`.
- `Candidates` (`candidates.dfy`): candidate pair generation and its sort.
- `Aggregation` (`aggregation.dfy`): `processData`. It builds the address index,
  credits each row, records the display names, and builds and ranks the result rows.
- `Processor` (`processor.dfy`): class `CsvProcessor`. Its fields are the component's
  state plus the group store. Its methods are the upload handler and its parse callback, the
  "Process Data" button, the confirmation handler, the merge and `processData`.
- `Wrappers` (`wrappers.dfy`): `Option`.

Where the component's comments or documentation and its code differ, the model
follows the code:

- The address decoder is not idempotent: `AddressNotIdempotent` exhibits a label that
  decodes twice to different values. The display-name decoder is idempotent
  (`DisplayNameIdempotent`), because a caption never holds the `")` that closes one.
- The comment above the caption regex speaks of "the last comma". The lazy regex
  takes the first `","` after which a closing `")` follows.
- The default start of the date window is `new Date(0)`. Rows dated before 1970 are
  therefore dropped when no start date is set.
- A row whose date does not parse is dropped: every comparison with an invalid date
  is false. A start or end input that does not parse drops every row.
- Two empty display names give `0 / 0`, which is `NaN`. Every comparison with `NaN`
  is false, so `NaN > 0.7` fails and the two are never paired.
- The comment at the result rows speaks of the name "from the first wallet in the
  group". The code looks up the group key, which is an address. It takes the
  display name last recorded for that address, or the key when no name was recorded for it or that name is empty.
- Groups are not guaranteed disjoint. When the first address is found in one group
  and the second lives in another, the second address ends up in both. This is
  `ChainedMergeOverlaps` and `ChainedMergeExample`. It can happen because the pair
  list is fixed before any confirmation.
- After the last decision, `currentPairIndex` is not advanced.
- `processedWallets` is built from `pendingGroups` (line 340), and `processData`
  reads `currentGroupsRef.current`. Both are assigned the same object on every merge
  (lines 161-162), so the model keeps one store.

Caller constraints taken from the page. The popup's buttons are rendered only while
`showConfirmation && currentMatch` (line 404), so `HandleConfirmation` requires the
popup to be shown. The "Process Data" button stays in the page under the overlay and
can still be pressed, from the keyboard for one. `StartProcessing` therefore has no
such requirement. A non-empty candidate list replaces the pair on screen. An empty
list leaves the old pair shown, with the cursor at 0 of an empty list. The class
invariant `Valid` holds on every path. The protocol invariant `Presenting` (the popup
shows the pair under the cursor, or is hidden once every pair has been decided) holds
on every path except that one.

## Model

| member | source | states |
|---|---|---|
| `Labels.StartsWithIff` | packages/nextjs/components/CSVProcessor.tsx:48 | The character-by-character `startsWith` test holds exactly when the label is at least as long as the prefix and its first characters are the prefix. |
| `Labels.RunEnd` | packages/nextjs/components/CSVProcessor.tsx:50 | `[^"]+` is greedy: the run stops at the first `"` or at the end of the label, and it contains no `"`. |
| `Labels.FirstAddressMatch` | packages/nextjs/components/CSVProcessor.tsx:50 | The leftmost position where `address/` is followed by a non-`"` character; no earlier position matches; `None` only when no position matches at all. |
| `Labels.ExtractWalletAddress` | packages/nextjs/components/CSVProcessor.tsx:46-54 | A label that does not start with `=HYPERLINK(` is returned unchanged. |
| `Labels.CaptureFromFirstMatch` | packages/nextjs/components/CSVProcessor.tsx:50-51 | The scan returns the run after the leftmost match, or the whole label when there is no match. |
| `Labels.ExtractWalletAddressSpec` | packages/nextjs/components/CSVProcessor.tsx:46-54 | The address is a substring of the label. For a formula with no match it is the label itself. Otherwise it is the longest non-empty, quote-free run after the leftmost `address/` followed by a non-`"`. |
| `Labels.AddressEmptyIff` | packages/nextjs/components/CSVProcessor.tsx:46-54 | The address is empty exactly when the label is empty. |
| `Labels.AddressOfMarkedFormula` | packages/nextjs/components/CSVProcessor.tsx:48-51 | `=HYPERLINK(address/x` decodes to `x` for every non-empty quote-free `x`. |
| `Labels.AddressNotIdempotent` | packages/nextjs/components/CSVProcessor.tsx:46-54 | A label that nests a second marked formula decodes to that formula, and decoding once more gives a different result. |
| `Labels.FindClose` | packages/nextjs/components/CSVProcessor.tsx:61 | The lazy `(.*?)"\)`: the first `")` not preceded by a line terminator; `None` when no reachable `")` exists. |
| `Labels.FindSplit` | packages/nextjs/components/CSVProcessor.tsx:61 | The lazy `.*?","`: the first `","` from which a closing `")` can be reached, with no line terminator before it; `None` when none exists. |
| `Labels.CaptureFrom` | packages/nextjs/components/CSVProcessor.tsx:50-51 | The scan for `address\/([^"]+)` from a position: the run after the first match at or after it, or the whole label when none follows. |
| `Labels.FindCaption` | packages/nextjs/components/CSVProcessor.tsx:61 | The leftmost start from which the whole caption pattern matches. No earlier start matches. `None` only when no start matches at all. |
| `Labels.ExtractDisplayName` | packages/nextjs/components/CSVProcessor.tsx:57-65 | Non-formula labels and formulas without a match are returned unchanged. A caption is shorter than the label, free of line terminators and free of `")`. |
| `Labels.NoSeparatorKeepsLabel` | packages/nextjs/components/CSVProcessor.tsx:61-62 | A label without `","` is returned whole. |
| `Labels.SpacedCaptionKeepsLabel` | packages/nextjs/components/CSVProcessor.tsx:61-62 | A formula written with `", "` (a space after the comma) does not match, so the whole label is returned. |
| `Labels.NoCloseKeepsLabel` | packages/nextjs/components/CSVProcessor.tsx:61-62 | A label without `")` is returned whole. |
| `Labels.DisplayNameIdempotent` | packages/nextjs/components/CSVProcessor.tsx:57-65 | Decoding a display name a second time gives the same name. |
| `Labels.DisplayNameOfFormula` | packages/nextjs/components/CSVProcessor.tsx:57-65 | `=HYPERLINK("U","C")…` decodes to `C` when `U"` holds no `","`, `C` holds no `")`, and neither has a line terminator. |
| `Similarity.Utf16` | packages/nextjs/components/CSVProcessor.tsx:25-43 | The JavaScript string of a name: at least as many code units as characters, and at most twice as many. |
| `Similarity.Utf16OfBasicPlane` | packages/nextjs/components/CSVProcessor.tsx:25-43 | A name inside the Basic Multilingual Plane has one code unit per character, each equal to the character's code. |
| `Similarity.Utf16EmptyIff` | packages/nextjs/components/CSVProcessor.tsx:41-42 | Only the empty name has no code units, so `maxLength` is 0 exactly for two empty names. |
| `Similarity.EmojiNamesPass` | packages/nextjs/components/CSVProcessor.tsx:30-42 | `ab😀` against `ab😁` differs in one of four code units, scores 0.75 and passes the threshold. |
| `Similarity.EmojiCharactersFail` | packages/nextjs/components/CSVProcessor.tsx:30-42 | Counted in characters, the same two names would differ in one of three and fail. |
| `Similarity.EditDistance` | packages/nextjs/components/CSVProcessor.tsx:26-40 | The unit-cost edit distance: deletion, insertion and substitution from the three shorter prefix pairs. |
| `Similarity.Score` | packages/nextjs/components/CSVProcessor.tsx:41-42 | `1 - d / max(len)`, or `NaN` when both lengths are 0. |
| `Similarity.AboveThreshold` | packages/nextjs/components/CSVProcessor.tsx:373 | `similarity > 0.7`, false for `NaN`. |
| `Similarity.EditDistanceStep` | packages/nextjs/components/CSVProcessor.tsx:37-38 | The distance of two prefixes is the minimum over deletion, insertion and substitution from the three neighbouring prefixes, as in the table update. |
| `Similarity.FillRow` | packages/nextjs/components/CSVProcessor.tsx:36-39 | After the inner loop, every cell of row `j` holds the edit distance of the corresponding prefixes. No other row changes. |
| `Similarity.CalculateSimilarity` | packages/nextjs/components/CSVProcessor.tsx:25-43 | The filled table gives `1 - d / max(len)` over code units, where `d` is the unit-cost edit distance; `NaN` when both strings are empty. |
| `Similarity.EditDistanceSymmetric` | packages/nextjs/components/CSVProcessor.tsx:26-42 | The distance does not depend on argument order. |
| `Similarity.EditDistanceZeroIff` | packages/nextjs/components/CSVProcessor.tsx:26-42 | The distance is zero exactly for equal strings. |
| `Similarity.EditDistanceBounds` | packages/nextjs/components/CSVProcessor.tsx:26-42 | The distance lies between the difference of the lengths and the longer length. |
| `Similarity.EditDistanceEmpty` | packages/nextjs/components/CSVProcessor.tsx:29-34 | Against the empty string the distance is the other length, as the first row and column of the table say. |
| `Similarity.ScoreSymmetric` | packages/nextjs/components/CSVProcessor.tsx:41-42 | The similarity does not depend on argument order. |
| `Similarity.ScoreRange` | packages/nextjs/components/CSVProcessor.tsx:41-42 | The similarity is `NaN` exactly when both strings are empty. Otherwise it lies in [0, 1] and is 1 exactly for equal strings. |
| `Similarity.ThresholdExact` | packages/nextjs/components/CSVProcessor.tsx:373 | `similarity > 0.7` holds exactly when `10 d < 3 m`, with `m` the longer length; this covers `NaN`. |
| `Similarity.EmptyNamesNeverPass` | packages/nextjs/components/CSVProcessor.tsx:41-42 | Two empty names give `NaN`, which fails the threshold. |
| `Similarity.PassingNamesAreNonEmpty` | packages/nextjs/components/CSVProcessor.tsx:373 | Two names that pass the threshold are both non-empty. |
| `Collections.FirstOccurrences` | packages/nextjs/components/CSVProcessor.tsx:335 | The distinct elements, no duplicates, every element of the input present and nothing else. |
| `Collections.FirstOccurrencesOrdered` | packages/nextjs/components/CSVProcessor.tsx:335 | Elements appear in the order of their first occurrence in the input. |
| `Sorting.SortDesc` | packages/nextjs/components/CSVProcessor.tsx:385 | The stable sort by descending key, as repeated insertion. |
| `Sorting.SortDescPermutes` | packages/nextjs/components/CSVProcessor.tsx:385 | The sorted list holds the same elements, each as many times. |
| `Sorting.SortDescSorted` | packages/nextjs/components/CSVProcessor.tsx:385 | The sorted list is in non-increasing key order. |
| `Sorting.SortDescStable` | packages/nextjs/components/CSVProcessor.tsx:385 | Elements with the same key keep their relative order. |
| `Sorting.SortDescSum` | packages/nextjs/components/CSVProcessor.tsx:281 | Sorting does not change the sum of any amount over the list. |
| `Ledger.ToLower` | packages/nextjs/components/CSVProcessor.tsx:113 | ASCII lower-casing: same length, each character lower-cased on its own. |
| `Ledger.Includes` | packages/nextjs/components/CSVProcessor.tsx:113 | `includes` holds exactly when the tag occurs at some position. |
| `Ledger.IsCohort` | packages/nextjs/components/CSVProcessor.tsx:197 | `row.Account?.toLowerCase().includes("cohort")`: a missing account fails. |
| `Ledger.InRange` | packages/nextjs/components/CSVProcessor.tsx:199-204 | The row's date lies inside the inclusive window, with `new Date(0)` and `new Date(8640000000000000)` for unset inputs; any invalid date fails. |
| `Ledger.AmountOf` | packages/nextjs/components/CSVProcessor.tsx:226 | The parsed `Fiat Value Out`, or 0 when it does not parse (`NaN`) or is 0. |
| `Ledger.CohortRows` | packages/nextjs/components/CSVProcessor.tsx:197 | Kept rows carry the tag and come from the input, and every tagged input row is kept. |
| `Ledger.CohortRowsCount` | packages/nextjs/components/CSVProcessor.tsx:197 | A tagged row is kept as many times as it occurs, and an untagged one not at all. |
| `Ledger.CohortRowsAppend` | packages/nextjs/components/CSVProcessor.tsx:197 | The filter of a concatenation is the concatenation of the filters, so the rows keep their order. |
| `Ledger.Filtered` | packages/nextjs/components/CSVProcessor.tsx:197-204 | Kept rows are tagged and inside the inclusive window, and every such row is kept. |
| `Ledger.FilteredCount` | packages/nextjs/components/CSVProcessor.tsx:197-204 | A tagged row inside the window is kept as many times as it occurs, and any other row not at all. |
| `Ledger.FilteredAppend` | packages/nextjs/components/CSVProcessor.tsx:199-204 | The date filter of a concatenation is the concatenation of the filters, so the rows keep their order. |
| `Ledger.CohortIgnoresCase` | packages/nextjs/components/CSVProcessor.tsx:113 | Two accounts equal up to ASCII case are treated alike by the tag test. |
| `Ledger.CohortExampleUpperCase` | packages/nextjs/components/CSVProcessor.tsx:113 | The account `COHORT` passes the tag test. |
| `Ledger.CohortExamplesFailing` | packages/nextjs/components/CSVProcessor.tsx:113 | A missing account (`Account?.`) fails the tag test, and so does a truncated tag. |
| `Ledger.CohortRowsIdempotent` | packages/nextjs/components/CSVProcessor.tsx:197 | Filtering the already-filtered upload again changes nothing. |
| `Ledger.DefaultWindow` | packages/nextjs/components/CSVProcessor.tsx:200-203 | With no dates set, a row passes exactly when its date parses and lies in `[0, 8640000000000000]`. |
| `Ledger.InvalidBoundDropsAll` | packages/nextjs/components/CSVProcessor.tsx:201-203 | A start date that does not parse drops every row. |
| `Ledger.FilteredOfCohort` | packages/nextjs/components/CSVProcessor.tsx:197-204 | Applying the window to the cohort rows is the combined filter. |
| `Groups.MergeTarget` | packages/nextjs/components/CSVProcessor.tsx:140-157 | The key a merge writes: the first truthy key whose group holds either address, else the first label's address. |
| `Groups.Merged` | packages/nextjs/components/CSVProcessor.tsx:126-162 | The store after one "yes": the found group gains each label whose address it lacks, or a new group `[wallet1, wallet2]` is written under the first address. |
| `Groups.Members` | packages/nextjs/components/CSVProcessor.tsx:338-342 | `processedWallets`: every label stored in some group. |
| `Groups.FindGroupIndex` | packages/nextjs/components/CSVProcessor.tsx:140-142 | The first key in insertion order whose group holds either address; no earlier key does; `None` when no key does. |
| `Groups.MergePreservesWellFormed` | packages/nextjs/components/CSVProcessor.tsx:144-158 | A merge keeps keys distinct and equal to the groups' keys, keeps every group non-empty, and keeps each key equal to the address of its group's first member. |
| `Groups.CreateIsNew` | packages/nextjs/components/CSVProcessor.tsx:154-157 | When no group holds either address, the new key is not yet in the store. |
| `Groups.MergeOnlyAppends` | packages/nextjs/components/CSVProcessor.tsx:144-158 | A merge never removes a key or a member. Old keys keep their order, each group is a prefix of its new version, and only the target group changes. |
| `Groups.MergeKeepsNoEmptyKey` | packages/nextjs/components/CSVProcessor.tsx:155-157 | With a non-empty first label, no group is ever keyed by the empty string. |
| `Groups.MergeKeepsMembersDistinct` | packages/nextjs/components/CSVProcessor.tsx:146-152 | When the two addresses differ, member addresses within each group stay pairwise distinct. |
| `Groups.MergeJoins` | packages/nextjs/components/CSVProcessor.tsx:144-158 | Afterwards the target group holds both addresses. |
| `Groups.MergeOfJoined` | packages/nextjs/components/CSVProcessor.tsx:144-153 | Confirming a pair whose found group already holds both addresses leaves the store unchanged. |
| `Groups.TargetComesFirst` | packages/nextjs/components/CSVProcessor.tsx:140-158 | After a merge, the target key is the first key whose group holds either address. |
| `Groups.MergeIdempotent` | packages/nextjs/components/CSVProcessor.tsx:126-162 | Confirming the same pair twice has the effect of confirming it once. |
| `Groups.ChainedMergeOverlaps` | packages/nextjs/components/CSVProcessor.tsx:140-153 | When the target group differs from another group holding the second address, that address ends up in both groups. |
| `Groups.ChainedMergeExample` | packages/nextjs/components/CSVProcessor.tsx:140-158 | Merging `a,b`, then `c,d`, then `a,c` leaves `c` in group `a` and in group `c`. |
| `Enumeration.AllPairsSound` | packages/nextjs/components/CSVProcessor.tsx:346-352 | Every value the nested loops emit comes from positions `a < b` that are accepted and whose first position is not skipped. |
| `Enumeration.AllPairsComplete` | packages/nextjs/components/CSVProcessor.tsx:346-352 | Every accepted pair of positions `a < b` whose first position is not skipped is emitted. |
| `Enumeration.AllPairsCount` | packages/nextjs/components/CSVProcessor.tsx:346-350 | The loops emit at most one value per pair of positions. |
| `Candidates.Wallets` | packages/nextjs/components/CSVProcessor.tsx:334-335 | The distinct `To Wallet` labels of the cohort rows. |
| `Candidates.WalletsSpec` | packages/nextjs/components/CSVProcessor.tsx:334-335 | The label of every cohort row, each once and nothing else, in the order of first occurrence among the cohort rows. |
| `Candidates.NameScore` | packages/nextjs/components/CSVProcessor.tsx:363-370 | The similarity of the two display names, compared as JavaScript strings. |
| `Candidates.Generated` | packages/nextjs/components/CSVProcessor.tsx:346-382 | The pairs the nested loops emit, in emission order. |
| `Candidates.CandidatePairs` | packages/nextjs/components/CSVProcessor.tsx:334-385 | The generated pairs of the data's labels against the grouped labels, sorted by descending similarity. |
| `Candidates.GeneratePairs` | packages/nextjs/components/CSVProcessor.tsx:346-382 | The nested loops emit exactly the pair list of the all-pairs enumeration with the component's tests. |
| `Candidates.GeneratedSound` | packages/nextjs/components/CSVProcessor.tsx:346-382 | Every pair comes from positions `i < j`. Neither label is grouped, the labels differ, their addresses differ, the names pass the threshold, and the recorded similarity is their score. |
| `Candidates.GeneratedComplete` | packages/nextjs/components/CSVProcessor.tsx:346-382 | Every pair of positions `i < j` whose labels pass all those tests is emitted. |
| `Candidates.GeneratedCount` | packages/nextjs/components/CSVProcessor.tsx:346-382 | At most `n (n - 1) / 2` pairs are emitted. |
| `Candidates.EligibleIsValid` | packages/nextjs/components/CSVProcessor.tsx:352-379 | A pair that passes the tests has non-empty labels, different addresses, and a recorded similarity equal to the score and above 0.7. |
| `Candidates.GeneratedValid` | packages/nextjs/components/CSVProcessor.tsx:346-382 | Every generated pair satisfies those facts. |
| `Candidates.GeneratedInFirstOccurrenceOrder` | packages/nextjs/components/CSVProcessor.tsx:335-382 | Both labels of a pair are labels of the rows, and the first one first occurs before the second. |
| `Candidates.CandidatePairsSpec` | packages/nextjs/components/CSVProcessor.tsx:334-385 | The list handed to the popup is a permutation of the generated pairs, in non-increasing similarity, ties in generation order, every pair valid. |
| `Aggregation.IndexGroup` | packages/nextjs/components/CSVProcessor.tsx:215-219 | One group's `wallets.forEach`: each member's address is set to the group's key, later members last. |
| `Aggregation.AddressIndex` | packages/nextjs/components/CSVProcessor.tsx:214-220 | The index after the first `n` groups of the store, in key order. |
| `Aggregation.LastHolder` | packages/nextjs/components/CSVProcessor.tsx:214-220 | The last key in store order whose group holds an address; no later key holds it; `None` when no key does. |
| `Aggregation.BuildAddressIndex` | packages/nextjs/components/CSVProcessor.tsx:213-220 | The nested loops build exactly the index that maps each member address, group after group, to its key. |
| `Aggregation.IndexGroupSpec` | packages/nextjs/components/CSVProcessor.tsx:215-218 | One group maps each of its addresses to its key and leaves every other address as it was. |
| `Aggregation.AddressIndexIsLastHolder` | packages/nextjs/components/CSVProcessor.tsx:214-220 | An address is indexed exactly when some group holds it, and it maps to the last such group: a later group overwrites an earlier one. |
| `Aggregation.CreditTo` | packages/nextjs/components/CSVProcessor.tsx:231-255 | Record the name for the address, then add the amount to the key's total, starting from 0. |
| `Aggregation.Credit` | packages/nextjs/components/CSVProcessor.tsx:225-255 | One row: its display name for its address, and its amount to its truthy group key, else to its own address. |
| `Aggregation.Accumulate` | packages/nextjs/components/CSVProcessor.tsx:224-256 | The tally after crediting the rows in order. |
| `Aggregation.AddAmount` | packages/nextjs/components/CSVProcessor.tsx:238-239 | The key's total grows by the amount, starting from 0; a new key goes to the end of the insertion order. |
| `Aggregation.CreditRow` | packages/nextjs/components/CSVProcessor.tsx:225-255 | After one row, its display name is recorded for its address, and its amount is added to its truthy group key or else to its own address. |
| `Aggregation.AccumulateRows` | packages/nextjs/components/CSVProcessor.tsx:224-256 | The credit loop computes the tally defined row by row. |
| `Aggregation.AccumulateOrder` | packages/nextjs/components/CSVProcessor.tsx:224-256 | The totals' keys are the credited keys in first-credit order, and only they have totals. |
| `Aggregation.AccumulateTotals` | packages/nextjs/components/CSVProcessor.tsx:236-255 | Each key's total is the sum of the amounts of the rows credited to it. |
| `Aggregation.AccumulateNames` | packages/nextjs/components/CSVProcessor.tsx:231 | The name recorded for an address is the display name of the last row with that address. |
| `Aggregation.AccumulateKeys` | packages/nextjs/components/CSVProcessor.tsx:209-256 | The recorded keys are distinct, and they are exactly the keys with a total. |
| `Aggregation.CreditKeepsSum` | packages/nextjs/components/CSVProcessor.tsx:234-255 | One credit adds the row's amount to the sum of all totals. |
| `Aggregation.AccumulateSum` | packages/nextjs/components/CSVProcessor.tsx:224-256 | The totals add up to the sum of the amounts of the rows. |
| `Aggregation.AccumulateSpec` | packages/nextjs/components/CSVProcessor.tsx:224-256 | The conjunction of key order, totals, last-seen names and conservation. |
| `Aggregation.ResultRow` | packages/nextjs/components/CSVProcessor.tsx:259-277 | A key's row: its group or `[key]`, its total, and its recorded name or the key. |
| `Aggregation.ResultRows` | packages/nextjs/components/CSVProcessor.tsx:259-277 | One result row per key, in key order. |
| `Aggregation.ResultRowSpec` | packages/nextjs/components/CSVProcessor.tsx:259-277 | A key's row lists its group (or the key alone) and its credited total. Its name is the last-seen name of the key's address, or the key when that name is missing or empty. |
| `Aggregation.UnsortedReportSpec` | packages/nextjs/components/CSVProcessor.tsx:259-277 | Before sorting there is exactly one such row per distinct credited key, in first-credit order. |
| `Aggregation.UnsortedReport` | packages/nextjs/components/CSVProcessor.tsx:197-277 | The result rows of one pass, before the sort. |
| `Aggregation.Report` | packages/nextjs/components/CSVProcessor.tsx:197-282 | The result rows sorted by descending total. |
| `Aggregation.ReportConserves` | packages/nextjs/components/CSVProcessor.tsx:197-281 | The report's totals add up to the amounts of the cohort rows inside the window. |
| `Aggregation.ReportSpec` | packages/nextjs/components/CSVProcessor.tsx:281 | The report is a permutation of the unsorted rows, in non-increasing total, ties in first-credit order. |
| `Aggregation.EmptyReport` | packages/nextjs/components/CSVProcessor.tsx:224-277 | No rows give no result rows. |
| `Processor.ValidPairIsMergeable` | packages/nextjs/components/CSVProcessor.tsx:352-367 | A valid candidate has a non-empty first label and two different addresses, which is what the merge's invariants need. |
| `Processor.Refreshed` | packages/nextjs/components/CSVProcessor.tsx:184-283 | The report after `processData`: unchanged without data, otherwise the ranked report. |
| `Processor.ComputeCandidates` | packages/nextjs/components/CSVProcessor.tsx:334-385 | The button's computation gives the sorted candidate list of the data and the store, each pair mergeable. |
| `Processor.CsvProcessor.constructor` | packages/nextjs/components/CSVProcessor.tsx:68-80 | The initial state: no data, no dates, no report, no popup, no pairs, an empty store. The invariant holds. |
| `Processor.CsvSuffixIsCaseSensitive` | packages/nextjs/components/CSVProcessor.tsx:94 | The file name test is an exact suffix test: `ledger.csv` passes, while `ledger.CSV` and `csv` do not. |
| `Processor.CsvProcessor.HandleFileUpload` | packages/nextjs/components/CSVProcessor.tsx:82-123 | The error is cleared first. A missing file, a name without `.csv`, a read failure, row-level parse errors and an empty parse each set their own message and keep the data. A clean parse with rows clears the error and keeps the cohort rows. Nothing else changes. |
| `Processor.CsvProcessor.LoadParsedRows` | packages/nextjs/components/CSVProcessor.tsx:101-117 | Parse errors set the parse error and keep the data. A parse with no rows sets the no-data error and keeps the data. Otherwise the data becomes the cohort rows. Nothing else changes. |
| `Processor.CsvProcessor.Merge` | packages/nextjs/components/CSVProcessor.tsx:126-162 | The store becomes `Merged` of the old store and the pair. No other field changes. |
| `Processor.CsvProcessor.ProcessData` | packages/nextjs/components/CSVProcessor.tsx:184-283 | Without data the report is unchanged. Otherwise it is the ranked report of the data, the window and the store. Nothing else changes. |
| `Processor.CsvProcessor.StartProcessing` | packages/nextjs/components/CSVProcessor.tsx:332-397 | Callable with or without the popup open. The pair list becomes the candidate list and the cursor is 0. With pairs, the first is presented. With none, the popup and match are left as they were and the report is refreshed at once. The store never changes. The class invariant is kept, and the protocol is in step unless an empty list was computed with the popup open. |
| `Processor.CsvProcessor.SetCandidates` | packages/nextjs/components/CSVProcessor.tsx:386-392 | The list is stored with the cursor at 0. A non-empty list presents its first pair; an empty one leaves popup and match unchanged. |
| `Processor.CsvProcessor.MergeCurrent` | packages/nextjs/components/CSVProcessor.tsx:126-162 | "Yes" on the presented pair merges it into the store and keeps the invariant: the store stays well formed, has no empty key, and keeps member addresses distinct. Nothing else changes. |
| `Processor.CsvProcessor.Advance` | packages/nextjs/components/CSVProcessor.tsx:167-181 | The decision is counted. The next pair is presented at the next index, or after the last pair the popup hides, the match clears, the index stays, and the report is refreshed. The store does not change. The class invariant is kept, and so is the protocol being in step. |
| `Processor.CsvProcessor.HandleConfirmation` | packages/nextjs/components/CSVProcessor.tsx:125-182 | Each decision counts once. "Yes" merges the current pair and "no" leaves the store alone. Then the next pair is presented at the next index, or after the last pair the popup hides, the match clears and the report is refreshed. The class invariant is kept. When the protocol is in step it stays in step: the presented match is the pair under the cursor, and the popup hides after exactly as many decisions as there are pairs. |

## Left out

- Rendering, JSX and styling: only the state they show is modelled.
- Reading the file and `Papa.parse` itself: these are I/O and a foreign library.
  `HandleFileUpload` takes the chosen file name and the parser's outcome as
  parameters. It runs the parser's callback at once rather than later, so the model
  has no interleaving of a pending parse with other handlers. A parsed row holds only
  the fields the component reads.
- `new Date(...)`: dates are given already parsed, as `Option<int>` milliseconds with
  `None` for an invalid date. A date input is `Unset` or the parsed value, and the
  date setters are plain field assignments.
- `parseFloat` and floating-point numbers: amounts are exact integers (`None` where
  `parseFloat` yields `NaN`, read as 0), and the similarity is an exact real. Float
  rounding at the 0.7 boundary and in the sums is not modelled.
- Unicode case mapping: the cohort test lower-cases ASCII letters only.
- `Groups.Merged`, `Aggregation.ResultRow`: the group store is modelled as a dictionary
  with no inherited properties, whereas the component uses a plain JavaScript object.
  Keys that name properties of `Object.prototype` behave differently there. A label
  `constructor` (or `toString`, `valueOf`, `hasOwnProperty`) in no group makes
  `currentGroupsRef.current[address] || [address]` (line 261) return the inherited
  function, where the model's result row lists `[address]`. A first address
  `__proto__` makes the assignment at line 157 set the object's prototype instead
  of adding a key, so `Object.keys` (line 140), `Object.entries` (line 214) and the
  copy at line 137 never see that group. The model stores it as an ordinary key.
- Object key order for integer-like keys, which JavaScript lists first: the store
  keeps plain insertion order.
- The extra `processData()` calls after each popup answer (lines 425-427 and
  437-439): they recompute the same report from the same state.
- `console.log` output and the `toLocaleString` formatting of totals.
- In-place sorting: both sorts are modelled as a stable sorting function on
  sequences, not as an in-place array algorithm.
- The object copy `{ ...currentGroupsRef.current }` before a merge: the store is a value,
  so there is no aliasing to model.
- Unpaired surrogates: a JavaScript string may hold a lone surrogate code unit, but the
  model's labels are sequences of Unicode characters, so `Utf16` yields only
  well-formed UTF-16. The decoders scan characters rather than code units. Their
  patterns are made of ASCII characters, and no half of a surrogate pair equals an
  ASCII character, so both scans stop at the same places.
- `Labels.ExtractWalletAddress`: its own contract states only the non-formula case.
  The contract for formulas is the lemma `Labels.ExtractWalletAddressSpec`.
- `Ledger.CohortRows`: its own contract states membership both ways. How often each
  row is kept is `Ledger.CohortRowsCount`, and the order is `Ledger.CohortRowsAppend`.
- `Ledger.Filtered`: its own contract states membership both ways. How often each row
  is kept is `Ledger.FilteredCount`, and the order is `Ledger.FilteredAppend`.
- `Processor.CsvProcessor.ProcessData`: does not restate the class invariant, because
  it changes only the report, which the invariant does not read.
- The layout, page and provider files of the application: these are wrappers only.
  They are not part of this model.
