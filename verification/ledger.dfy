/** The score ledger: the list of `{date, score}` records the application
    keeps, and the insert-or-update step of saving today's score. */
module Ledger {

  import opened DateOrder

  /** One recorded day: the `ScoreEntry` record of the source. The score is
      whatever number was recorded; the range control bounds fresh scores to
      0..100, but records read back from storage are not re-checked. */
  datatype ScoreEntry = ScoreEntry(date: Date, score: int)

  /** The status message shown under the controls, as a tag. */
  datatype Outcome =
    | Updated     // today's score replaced an existing record
    | Inserted    // today's score was added as a new record
    | NoData      // export was asked for with no records
    | Exported    // the export file was produced
    | LoadFailed  // the stored data could not be parsed

  predicate HasDate(es: seq<ScoreEntry>, d: Date)
  {
    exists i :: 0 <= i < |es| && es[i].date == d
  }

  /** `k` is the first index of `es` holding date `d`. */
  predicate IsFirstMatch(es: seq<ScoreEntry>, k: int, d: Date)
  {
    && 0 <= k < |es|
    && es[k].date == d
    && forall j :: 0 <= j < k ==> es[j].date != d
  }

  /** No two records share a date. */
  predicate DatesUnique(es: seq<ScoreEntry>)
  {
    forall i, j :: 0 <= i < j < |es| ==> es[i].date != es[j].date
  }

  /** `Array.prototype.findIndex` with the predicate `entry.date === d`:
      the first index holding `d`, or -1 when there is none. */
  function FindIndex(es: seq<ScoreEntry>, d: Date): (k: int)
    ensures k == -1 || IsFirstMatch(es, k, d)
    ensures k == -1 <==> !HasDate(es, d)
  {
    FindIndexFrom(es, d, 0)
  }

  function FindIndexFrom(es: seq<ScoreEntry>, d: Date, from: nat): (k: int)
    requires from <= |es|
    requires forall j :: 0 <= j < from ==> es[j].date != d
    ensures k == -1 || IsFirstMatch(es, k, d)
    ensures k == -1 <==> !HasDate(es, d)
    decreases |es| - from
  {
    if from == |es| then -1
    else if es[from].date == d then from
    else FindIndexFrom(es, d, from + 1)
  }

  /** The insert-or-update step of saving, before sorting: the first record
      dated `today` is replaced in place by `{today, score}` and the outcome
      is `Updated`; when no record is dated `today` the new record is
      appended and the outcome is `Inserted`. */
  function Upsert(es: seq<ScoreEntry>, today: Date, score: int): (r: (seq<ScoreEntry>, Outcome))
    ensures r.1 == Updated <==> HasDate(es, today)
    ensures r.1 == Inserted <==> !HasDate(es, today)
    ensures HasDate(es, today) ==>
              && |r.0| == |es|
              && forall j :: 0 <= j < |es| ==>
                   r.0[j] == (if IsFirstMatch(es, j, today) then ScoreEntry(today, score) else es[j])
    ensures !HasDate(es, today) ==> r.0 == es + [ScoreEntry(today, score)]
  {
    var k := FindIndex(es, today);
    if k >= 0 then
      (es[k := ScoreEntry(today, score)], Updated)
    else
      (es + [ScoreEntry(today, score)], Inserted)
  }

  /** After an upsert the record `{today, score}` is in the list, and the
      list grew by one exactly when no record was dated `today`. */
  lemma UpsertContainsToday(es: seq<ScoreEntry>, today: Date, score: int)
    ensures ScoreEntry(today, score) in Upsert(es, today, score).0
    ensures |Upsert(es, today, score).0| == |es| + (if HasDate(es, today) then 0 else 1)
  {
  }

  /** Upsert keeps dates unique: the replaced record keeps its date, and a
      record is appended only when its date was absent. */
  lemma UpsertKeepsDatesUnique(es: seq<ScoreEntry>, today: Date, score: int)
    requires DatesUnique(es)
    ensures DatesUnique(Upsert(es, today, score).0)
  {
  }
}
