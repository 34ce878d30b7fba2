# Daily performance ledger

A model of the score ledger of the daily performance page
(`src/components/DailyPerformanceApp.tsx`). The user sets a score from 0
to 100 on a slider and saves it for today. Saving updates today's record if
there is one and appends a record otherwise. It then sorts the list by date
and writes the whole list to the browser's local storage under
`dailyPerformanceData`. On mount the page reads that key back. Export writes
the list, indented, to `daily_performance.json`, and refuses when the list is
empty.

The model is pure and functional:

- `DateOrder` (`date_order.dfy`): dates are texts. `Before` is the
  character-by-character order, with its total-order lemmas. On valid
  `YYYY-MM-DD` dates with four-digit years it is the order the source's sort
  produces (`IsoDate`); the model sorts every text by it.
- `IsoDate` (`iso_date.dfy`): the source's comparator subtracts
  `new Date(x).getTime()` values. This module defines that time value for
  valid dates (proleptic Gregorian calendar, midnight UTC, milliseconds since
  1970-01-01). It proves that the comparator's sign agrees with text order,
  and that the comparator is zero exactly for equal texts.
- `Ledger` (`ledger.dfy`): the `ScoreEntry` record, `findIndex`, and the
  insert-or-update step with its `Updated` / `Inserted` outcome.
- `DateSort` (`date_sort.dfy`): the stable sort by date, as an insertion
  sort. Proved: sorted, a permutation, stable per date, idempotent, and it
  keeps dates unique.
- `PerformanceApp` (`performance_app.dfy`): the component state plus local
  storage (`Session`). Covers loading on mount, moving the slider, saving
  and exporting, plus runs of user actions. Proved: the ledger invariant is
  kept, storage mirrors memory, reloading restores what was saved, and
  scores stay in range.
- `Options` (`options.dfy`): the `Option` type.

Inputs the model takes as parameters:

- Today's date is a parameter of `Save`. In the source it is the UTC date
  from `toISOString()`.
- `JSON.stringify`, `JSON.stringify(…, null, 2)` and `JSON.parse` are the
  three fields of a `Json` value. Parsing can fail. `ParseInvertsStringify`
  states the one property of JSON the round-trip lemmas rely on.
- Local storage is a `map<string, string>` inside `Session`.

How the code behaves at its edges:

- "Today" is the UTC calendar date: the first ten characters of
  `toISOString()` (DailyPerformanceApp.tsx:39-42), not the local date.
- Data read from storage is not checked. Every save sorts the list again,
  but it keeps one record per date only when that already held
  (`SaveKeepsDatesUnique`, `RunKeepsWellFormed`).
- The stored value is tested for truthiness (`if (storedData)`). An empty
  stored text therefore counts as nothing stored, with no message
  (`StoredText`).

## Model

| member | source | states |
|---|---|---|
| DateOrder.BeforeIrreflexive | src/components/DailyPerformanceApp.tsx:64 | no date sorts before itself |
| DateOrder.BeforeTransitive | src/components/DailyPerformanceApp.tsx:64 | the date order is transitive |
| DateOrder.BeforeTrichotomy | src/components/DailyPerformanceApp.tsx:64 | any two dates are equal, or one sorts before the other, so the sort's order is total |
| DateOrder.NotAfterTransitive | src/components/DailyPerformanceApp.tsx:64 | "not after" is transitive, so a sorted list is ordered between all pairs |
| DateOrder.BeforeConcat | src/components/DailyPerformanceApp.tsx:64 | two texts whose first parts have equal length compare by those parts first, and by the rest only when the first parts are equal |
| IsoDate.DigitsBefore | src/components/DailyPerformanceApp.tsx:64 | for digit texts of equal length, text order equals the order of the numbers they spell |
| IsoDate.TextOrderIsFieldOrder | src/components/DailyPerformanceApp.tsx:64 | on the `YYYY-MM-DD` layout, text order compares year, then month, then day |
| IsoDate.DayNumberMonotone | src/components/DailyPerformanceApp.tsx:64 | on valid calendar dates, the day count from year 0 grows strictly with (year, month, day) |
| IsoDate.YearLength | src/components/DailyPerformanceApp.tsx:64 | the month table gives 365 days a year, 366 in a Gregorian leap year |
| IsoDate.EpochExample | src/components/DailyPerformanceApp.tsx:64 | `getTime` of 1970-01-01 is 0 and of 1970-01-02 is 86 400 000 |
| IsoDate.ComparatorMatchesTextOrder | src/components/DailyPerformanceApp.tsx:64 | on valid dates the comparator `getTime(a) - getTime(b)` is negative exactly when `a` sorts before `b` as text, and zero exactly when the texts are equal |
| IsoDate.SortedMeansChronological | src/components/DailyPerformanceApp.tsx:64 | on valid dates, a list is sorted in text order exactly when the comparator never puts a later record before an earlier one |
| Ledger.FindIndex | src/components/DailyPerformanceApp.tsx:49 | the result is -1 exactly when no record has the date; otherwise it is the first index holding the date |
| Ledger.Upsert | src/components/DailyPerformanceApp.tsx:49-61 | when today's date is present, the length is the same and only the first record with that date becomes `{today, score}`, with outcome `Updated`; when it is absent, the result is the old list plus `{today, score}` and the outcome is `Inserted` |
| Ledger.UpsertContainsToday | src/components/DailyPerformanceApp.tsx:52-59 | after upsert `{today, score}` is in the list, and the list grew by one exactly when today was absent |
| Ledger.UpsertKeepsDatesUnique | src/components/DailyPerformanceApp.tsx:49-59 | if no two records shared a date before the upsert, none do after it |
| DateSort.Insert | src/components/DailyPerformanceApp.tsx:64 | inserting into a sorted list gives a sorted list with exactly one more copy of the inserted record |
| DateSort.SortByDate | src/components/DailyPerformanceApp.tsx:64 | for any input order, the result is sorted ascending by date and is a permutation (same multiset) of the input |
| DateSort.SortKeepsRecords | src/components/DailyPerformanceApp.tsx:64 | a record is in the sorted list exactly when it was in the input |
| DateSort.SortIsStable | src/components/DailyPerformanceApp.tsx:64 | for every date, the records with that date leave the sort in the order they entered it |
| DateSort.SortOfSortedIsIdentity | src/components/DailyPerformanceApp.tsx:64 | sorting an already sorted list returns it unchanged |
| DateSort.SortIsIdempotent | src/components/DailyPerformanceApp.tsx:64 | sorting twice is the same as sorting once |
| DateSort.SortKeepsDatesUnique | src/components/DailyPerformanceApp.tsx:64 | sorting a list with unique dates gives a list with unique dates |
| PerformanceApp.Mount | src/components/DailyPerformanceApp.tsx:26-36 | nothing stored: empty list, no message; text that fails to parse: empty list and `LoadFailed`, and `LoadFailed` only then; parsed records are taken unchanged; storage is never written; the slider starts at 50 |
| PerformanceApp.ChangeScore | src/components/DailyPerformanceApp.tsx:93-96 | moving the slider sets the pending score and changes nothing else |
| PerformanceApp.Save | src/components/DailyPerformanceApp.tsx:45-69 | the new list is sorted ascending by date and is a permutation of the upserted list. The outcome is `Updated` exactly when a record was dated today, `Inserted` otherwise. The pending score is unchanged. Storage under the key holds the serialised new list, and every other key is unchanged |
| PerformanceApp.SaveKeepsRecords | src/components/DailyPerformanceApp.tsx:49-64 | after a save the list holds `{today, score}`. It keeps every old record except the first one dated today, and holds nothing else. Its length grows by one exactly when no record was dated today |
| PerformanceApp.SaveKeepsDatesUnique | src/components/DailyPerformanceApp.tsx:49-64 | a save keeps dates unique when they were unique before |
| PerformanceApp.SaveLatestAppends | src/components/DailyPerformanceApp.tsx:57-64 | on a sorted list whose dates all sort before today, a save appends `{today, score}` at the end with `Inserted` |
| PerformanceApp.SaveExistingReplacesInPlace | src/components/DailyPerformanceApp.tsx:52-64 | on a sorted list that holds today, a save only replaces the record in place, with `Updated`; the sort moves nothing |
| PerformanceApp.Export | src/components/DailyPerformanceApp.tsx:72-90 | no artifact exactly when the list is empty, with status `NoData`; otherwise `daily_performance.json` (`application/json`) holds the indented serialisation of the list in its current order, with status `Exported`. The list, the score and storage are unchanged |
| PerformanceApp.RunKeepsWellFormed | src/components/DailyPerformanceApp.tsx:45-69 | any sequence of slider moves, saves and exports keeps a sorted, date-unique list sorted and date-unique |
| PerformanceApp.FreshStartStaysWellFormed | src/components/DailyPerformanceApp.tsx:26-36 | starting from empty storage, every reachable list is sorted with one record per date |
| PerformanceApp.RunKeepsMirrored | src/components/DailyPerformanceApp.tsx:67-68 | once storage holds the serialised in-memory list, every later action keeps it that way |
| PerformanceApp.ReloadAfterSave | src/components/DailyPerformanceApp.tsx:26-69 | if JSON parses its own output back, mounting on the storage a save left behind restores the saved list, with no message |
| PerformanceApp.ReloadAfterSession | src/components/DailyPerformanceApp.tsx:26-69 | after a save followed by any actions, mounting on the resulting storage restores the in-memory list |
| PerformanceApp.RunKeepsScoresInRange | src/components/DailyPerformanceApp.tsx:107-115 | if the slider only reports 0..100 and all scores start in range, every recorded score stays in 0..100 |
| PerformanceApp.SaveInsertExample | src/components/DailyPerformanceApp.tsx:57-64 | saving 70 on 2024-01-02 over `[{2024-01-01, 50}]` gives `[{2024-01-01, 50}, {2024-01-02, 70}]` with `Inserted` |
| PerformanceApp.SaveUpdateExample | src/components/DailyPerformanceApp.tsx:52-56 | saving 90 on 2024-01-01 over `[{2024-01-01, 50}]` gives `[{2024-01-01, 90}]` with `Updated` |

## Left out

- Rendering, the chart and the records table (DailyPerformanceApp.tsx:98-197): presentation only, delegated to an external charting library.
- The file download (DailyPerformanceApp.tsx:79-87): the `Blob`, object URL and anchor click are browser I/O. Export returns an `Artifact` record (name, media type, content) instead.
- Failures of `localStorage.setItem`, such as a full quota: the source does not handle them, and the model's storage write always succeeds.
- JSON itself: `Json` is a parameter, so no encoding is modelled. Text that parses to something other than a list of records (a number, an object) is outside the model, because `parse` is typed to return records or fail.
- `getCurrentDate` (DailyPerformanceApp.tsx:39-42): the clock is browser I/O, so today's date is a parameter of `Save`. The time value in `IsoDate` covers only valid dates with four-digit years. The six-digit years of `toISOString` lie outside it.
- Stored dates that are not valid `YYYY-MM-DD` texts with four-digit years: the source orders them by `new Date(x).getTime()`, which for forms such as `2024-01-01T10:00:00+05:00`, `2024/01/05` or `2024-1-5` is a real instant and can disagree with text order, and which is NaN for others, where the resulting order depends on the engine. The model sorts every text by text order, so on such dates its order can differ from the source's; `IsoDate` proves the two agree only on valid four-digit-year dates.
- `parseInt` in `handleScoreChange` (DailyPerformanceApp.tsx:93-96): `MoveSlider` carries the integer the range input reports. Scores are integers, not JavaScript floating-point numbers.
- `console.error` on a parse failure: logging only.
- React state hooks and the mount effect: the state is the `Session` value, and the effect that runs once is `Mount`.
- `src/App.tsx`: a layout wrapper with no logic.
- PerformanceApp.ReloadAfterSave: holds only when JSON parses back its own output. That is a property of the JSON library, which is not modelled, so the lemma states it as the hypothesis `ParseInvertsStringify`.
