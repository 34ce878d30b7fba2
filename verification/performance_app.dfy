/** The daily performance component: loading the ledger on mount, saving
    today's score, exporting the ledger, and browser local storage beside it.

    Rendering, the chart and the file download are not modelled; storage is
    a map from keys to texts, and JSON is reached through the `Json` value
    the caller supplies. */
module PerformanceApp {

  import opened Options
  import opened DateOrder
  import opened Ledger
  import opened DateSort

  /** The local storage key the ledger lives under. */
  const StorageKey: string := "dailyPerformanceData"
  /** Name and media type of the exported file. */
  const ExportFileName: string := "daily_performance.json"
  const ExportMimeType: string := "application/json"
  /** The slider position before the user moves it. */
  const InitialScore: int := 50

  /** The three JSON calls the component makes: compact `JSON.stringify`
      for storage, `JSON.stringify(entries, null, 2)` for export, and
      `JSON.parse`, which fails on text it cannot read. */
  datatype Json = Json(
    stringify: seq<ScoreEntry> -> string,
    stringifyIndented: seq<ScoreEntry> -> string,
    parse: string -> Option<seq<ScoreEntry>>)

  /** What JSON guarantees of its own output: it is never the empty text,
      and parsing it gives back the list that was written. */
  ghost predicate ParseInvertsStringify(json: Json)
  {
    forall es :: json.stringify(es) != "" && json.parse(json.stringify(es)) == Some(es)
  }

  datatype Status = NoMessage | Message(outcome: Outcome)

  /** The component's state (slider score, records, status message) together
      with the browser's local storage. */
  datatype Session = Session(
    score: int,
    entries: seq<ScoreEntry>,
    status: Status,
    storage: map<string, string>)

  /** The downloadable file an export produces. */
  datatype Artifact = Artifact(fileName: string, mimeType: string, content: string)

  /** `localStorage.getItem(StorageKey)` read as a condition: a missing key
      and the empty text both count as nothing stored. */
  function StoredText(storage: map<string, string>): Option<string>
  {
    if StorageKey in storage && storage[StorageKey] != "" then Some(storage[StorageKey]) else None
  }

  /** Loading on mount. Nothing stored leaves the ledger empty without a
      message; stored text that does not parse leaves it empty and reports
      `LoadFailed`; parsed records are taken as they are. Storage is only
      read. */
  function Mount(storage: map<string, string>, json: Json): (s: Session)
    ensures s.storage == storage
    ensures s.score == InitialScore
    ensures StoredText(storage).None? ==> s.entries == [] && s.status == NoMessage
    ensures s.status == Message(LoadFailed) <==>
              StoredText(storage).Some? && json.parse(StoredText(storage).value).None?
    ensures s.status == Message(LoadFailed) ==> s.entries == []
    ensures s.status != Message(LoadFailed) ==> s.status == NoMessage
    ensures StoredText(storage).Some? && json.parse(StoredText(storage).value).Some? ==>
              s.entries == json.parse(StoredText(storage).value).value
  {
    var initial := Session(InitialScore, [], NoMessage, storage);
    match StoredText(storage)
    case None => initial
    case Some(text) =>
      match json.parse(text)
      case Some(es) => initial.(entries := es)
      case None => initial.(status := Message(LoadFailed))
  }

  /** Moving the slider: only the pending score changes. */
  function ChangeScore(s: Session, value: int): (s': Session)
    ensures s'.score == value
    ensures s'.entries == s.entries && s'.status == s.status && s'.storage == s.storage
  {
    s.(score := value)
  }

  /** Saving today's score: upsert by date, sort by date, then write the
      whole list to storage under `StorageKey`. Which records the new list
      holds is stated by `SaveKeepsRecords` and `SaveKeepsDatesUnique`. */
  function Save(s: Session, today: Date, json: Json): (s': Session)
    ensures Sorted(s'.entries)
    ensures multiset(s'.entries) == multiset(Upsert(s.entries, today, s.score).0)
    ensures s'.status == Message(Updated) <==> HasDate(s.entries, today)
    ensures s'.status == Message(Inserted) <==> !HasDate(s.entries, today)
    ensures s'.score == s.score
    ensures StorageKey in s'.storage && s'.storage[StorageKey] == json.stringify(s'.entries)
    ensures s'.storage - {StorageKey} == s.storage - {StorageKey}
  {
    var upserted := Upsert(s.entries, today, s.score);
    var sorted := SortByDate(upserted.0);
    Session(s.score, sorted, Message(upserted.1), s.storage[StorageKey := json.stringify(sorted)])
  }

  /** A save keeps dates unique when they were unique before. */
  lemma SaveKeepsDatesUnique(s: Session, today: Date, json: Json)
    requires DatesUnique(s.entries)
    ensures DatesUnique(Save(s, today, json).entries)
  {
    UpsertKeepsDatesUnique(s.entries, today, s.score);
    SortKeepsDatesUnique(Upsert(s.entries, today, s.score).0);
  }

  /** The records after a save are the old ones, less at most the first
      record dated `today`, plus `{today, score}`; the list grows by one
      exactly when no record was dated `today`. */
  lemma SaveKeepsRecords(s: Session, today: Date, json: Json)
    ensures var r := Save(s, today, json).entries;
            && ScoreEntry(today, s.score) in r
            && |r| == |s.entries| + (if HasDate(s.entries, today) then 0 else 1)
            && (forall x :: x in r ==> x == ScoreEntry(today, s.score) || x in s.entries)
            && (forall j :: 0 <= j < |s.entries| && !IsFirstMatch(s.entries, j, today) ==>
                  s.entries[j] in r)
  {
    var u := Upsert(s.entries, today, s.score).0;
    assert Save(s, today, json).entries == SortByDate(u);
    UpsertContainsToday(s.entries, today, s.score);
    SortKeepsRecords(u, ScoreEntry(today, s.score));
    SaveAddsNothingElse(s.entries, today, s.score);
    SaveLosesNothingElse(s.entries, today, s.score);
  }

  lemma SaveAddsNothingElse(es: seq<ScoreEntry>, today: Date, score: int)
    ensures forall x :: x in SortByDate(Upsert(es, today, score).0) ==> x == ScoreEntry(today, score) || x in es
  {
    var u := Upsert(es, today, score).0;
    forall x | x in SortByDate(u)
      ensures x == ScoreEntry(today, score) || x in es
    {
      SortKeepsRecords(u, x);
      var i :| 0 <= i < |u| && u[i] == x;
      if i < |es| && u[i] != ScoreEntry(today, score) {
        assert x == es[i];
      }
    }
  }

  lemma SaveLosesNothingElse(es: seq<ScoreEntry>, today: Date, score: int)
    ensures forall j :: 0 <= j < |es| && !IsFirstMatch(es, j, today) ==> es[j] in SortByDate(Upsert(es, today, score).0)
  {
    var u := Upsert(es, today, score).0;
    forall j | 0 <= j < |es| && !IsFirstMatch(es, j, today)
      ensures es[j] in SortByDate(u)
    {
      assert u[j] == es[j];
      SortKeepsRecords(u, es[j]);
    }
  }

  /** Exporting: refused with `NoData` when there are no records; otherwise
      the records are written, indented, in their current order into
      `daily_performance.json`. The ledger and storage are not touched. */
  function Export(s: Session, json: Json): (r: (Session, Option<Artifact>))
    ensures r.1.None? <==> |s.entries| == 0
    ensures r.0.status == Message(if |s.entries| == 0 then NoData else Exported)
    ensures r.1.Some? ==>
              && r.1.value.fileName == ExportFileName
              && r.1.value.mimeType == ExportMimeType
              && r.1.value.content == json.stringifyIndented(s.entries)
    ensures r.0.entries == s.entries && r.0.storage == s.storage && r.0.score == s.score
  {
    if |s.entries| == 0 then
      (s.(status := Message(NoData)), None)
    else
      var content := json.stringifyIndented(s.entries);
      (s.(status := Message(Exported)), Some(Artifact(ExportFileName, ExportMimeType, content)))
  }

  /** The user actions the component handles after mounting. */
  datatype Action = MoveSlider(value: int) | SaveToday(today: Date) | ExportNow

  function Step(s: Session, a: Action, json: Json): Session
  {
    match a
    case MoveSlider(v) => ChangeScore(s, v)
    case SaveToday(today) => Save(s, today, json)
    case ExportNow => Export(s, json).0
  }

  function Run(s: Session, actions: seq<Action>, json: Json): Session
    decreases |actions|
  {
    if |actions| == 0 then s else Run(Step(s, actions[0], json), actions[1..], json)
  }

  /** The ledger invariant: sorted ascending by date, at most one record per
      date. */
  predicate WellFormed(es: seq<ScoreEntry>)
  {
    Sorted(es) && DatesUnique(es)
  }

  /** Storage holds exactly the in-memory records. */
  predicate Mirrored(s: Session, json: Json)
  {
    StorageKey in s.storage && s.storage[StorageKey] == json.stringify(s.entries)
  }

  /** Every action keeps a well-formed ledger well-formed. */
  lemma {:induction false} RunKeepsWellFormed(s: Session, actions: seq<Action>, json: Json)
    requires WellFormed(s.entries)
    ensures WellFormed(Run(s, actions, json).entries)
    decreases |actions|
  {
    if |actions| > 0 {
      if actions[0].SaveToday? {
        SaveKeepsDatesUnique(s, actions[0].today, json);
      }
      RunKeepsWellFormed(Step(s, actions[0], json), actions[1..], json);
    }
  }

  /** Starting from empty storage, whatever the user does, the ledger stays
      sorted by date with one record per date. */
  lemma FreshStartStaysWellFormed(storage: map<string, string>, actions: seq<Action>, json: Json)
    requires StoredText(storage).None?
    ensures WellFormed(Run(Mount(storage, json), actions, json).entries)
  {
    RunKeepsWellFormed(Mount(storage, json), actions, json);
  }

  /** Once storage mirrors the records, every later action keeps it so. */
  lemma {:induction false} RunKeepsMirrored(s: Session, actions: seq<Action>, json: Json)
    requires Mirrored(s, json)
    ensures Mirrored(Run(s, actions, json), json)
    decreases |actions|
  {
    if |actions| > 0 {
      RunKeepsMirrored(Step(s, actions[0], json), actions[1..], json);
    }
  }

  /** Reloading after a save gives back the saved records, with no message. */
  lemma ReloadAfterSave(s: Session, today: Date, json: Json)
    requires ParseInvertsStringify(json)
    ensures var saved := Save(s, today, json);
            Mount(saved.storage, json).entries == saved.entries &&
            Mount(saved.storage, json).status == NoMessage
  {
  }

  /** After any sequence of actions that starts with a save, reloading the
      page restores the records in memory. */
  lemma ReloadAfterSession(s: Session, today: Date, actions: seq<Action>, json: Json)
    requires ParseInvertsStringify(json)
    ensures var after := Run(Save(s, today, json), actions, json);
            Mount(after.storage, json).entries == after.entries
  {
    RunKeepsMirrored(Save(s, today, json), actions, json);
    var after := Run(Save(s, today, json), actions, json);
    assert json.stringify(after.entries) != "";
    assert StoredText(after.storage) == Some(json.stringify(after.entries));
  }

  /** Scores within the slider's range stay within it: if every record and
      the pending score are in 0..100 and the slider only reports values in
      0..100, every record is still in 0..100 afterwards. */
  predicate InRange(score: int)
  {
    0 <= score <= 100
  }

  predicate ScoresInRange(s: Session)
  {
    InRange(s.score) && forall x :: x in s.entries ==> InRange(x.score)
  }

  lemma {:induction false} RunKeepsScoresInRange(s: Session, actions: seq<Action>, json: Json)
    requires ScoresInRange(s)
    requires forall i :: 0 <= i < |actions| && actions[i].MoveSlider? ==> InRange(actions[i].value)
    ensures ScoresInRange(Run(s, actions, json))
    decreases |actions|
  {
    if |actions| > 0 {
      var s1 := Step(s, actions[0], json);
      if actions[0].SaveToday? {
        SaveKeepsRecords(s, actions[0].today, json);
      }
      assert ScoresInRange(s1);
      assert forall i :: 0 <= i < |actions[1..]| ==> actions[1..][i] == actions[i + 1];
      RunKeepsScoresInRange(s1, actions[1..], json);
    }
  }

  /** The everyday case: on a sorted ledger, saving a date that no record
      sorts after appends the new record at the end. */
  lemma SaveLatestAppends(s: Session, today: Date, json: Json)
    requires Sorted(s.entries)
    requires forall i :: 0 <= i < |s.entries| ==> Before(s.entries[i].date, today)
    ensures Save(s, today, json).entries == s.entries + [ScoreEntry(today, s.score)]
    ensures Save(s, today, json).status == Message(Inserted)
  {
    var es := s.entries;
    forall i | 0 <= i < |es|
      ensures es[i].date != today
    {
      BeforeIrreflexive(today);
    }
    var u := es + [ScoreEntry(today, s.score)];
    assert Upsert(es, today, s.score).0 == u;
    forall i, j | 0 <= i < j < |u|
      ensures NotAfter(u[i].date, u[j].date)
    {
      if j == |es| {
        BeforeAsymmetric(es[i].date, today);
      }
    }
    SortOfSortedIsIdentity(u);
  }

  /** On a sorted ledger, saving a date it already holds replaces that
      record's score in place; nothing moves. */
  lemma SaveExistingReplacesInPlace(s: Session, today: Date, json: Json)
    requires Sorted(s.entries) && HasDate(s.entries, today)
    ensures Save(s, today, json).entries == Upsert(s.entries, today, s.score).0
    ensures Save(s, today, json).status == Message(Updated)
  {
    var u := Upsert(s.entries, today, s.score).0;
    forall j | 0 <= j < |u|
      ensures u[j].date == s.entries[j].date
    {
    }
    SortOfSortedIsIdentity(u);
  }

  lemma DayTwoAfterDayOne()
    ensures Before("2024-01-01", "2024-01-02")
  {
  }

  /** Saving 70 on 2024-01-02 over a ledger holding only 2024-01-01 appends
      the new day after the old one. */
  lemma SaveInsertExample(json: Json)
    ensures var saved := Save(Session(70, [ScoreEntry("2024-01-01", 50)], NoMessage, map[]), "2024-01-02", json);
            && saved.entries == [ScoreEntry("2024-01-01", 50), ScoreEntry("2024-01-02", 70)]
            && saved.status == Message(Inserted)
  {
    var s := Session(70, [ScoreEntry("2024-01-01", 50)], NoMessage, map[]);
    DayTwoAfterDayOne();
    SaveLatestAppends(s, "2024-01-02", json);
  }

  /** Saving 90 on 2024-01-01 over the same ledger replaces that day's score. */
  lemma SaveUpdateExample(json: Json)
    ensures var saved := Save(Session(90, [ScoreEntry("2024-01-01", 50)], NoMessage, map[]), "2024-01-01", json);
            && saved.entries == [ScoreEntry("2024-01-01", 90)]
            && saved.status == Message(Updated)
  {
  }
}
