/** The exercise table of the workout page and the "Log set" button: the
    table shows the selected exercise's stored entries, and a log either
    edits the clicked set, appends a set to the selected date's entry, or
    starts a new entry for that date, in the table and in the ledger. */
module WorkoutLog {
  import opened Wrappers
  import opened Ledger
  import opened WorkoutForm
  import SetCodec
  import Aggregator
  import JsNumber

  /** A row of the table: a date, its set strings, and whether it is bold. */
  datatype TableRow = TableRow(date: string, sets: seq<string>, isLatest: bool)

  /** `typeof set === 'string' ? set : set.value`, set by set. */
  function SetTexts(sets: seq<RawSet>): (ts: seq<string>)
    ensures |ts| == |sets|
    ensures forall i :: 0 <= i < |sets| ==> ts[i] == SetValue(sets[i])
  {
    seq(|sets|, i requires 0 <= i < |sets| => SetValue(sets[i]))
  }

  /** `convertedData`: one row per stored entry in stored order, the last
      one marked latest. */
  function LoadTable(entries: seq<DayEntry>): (rows: seq<TableRow>)
    ensures |rows| == |entries|
  {
    seq(|entries|, i requires 0 <= i < |entries| =>
      TableRow(entries[i].date, SetTexts(entries[i].sets), i == |entries| - 1))
  }

  /** `Math.max(...rows.map(w => w.sets.length), 0)`. */
  function MaxSets(rows: seq<TableRow>): nat {
    if |rows| == 0 then 0
    else
      var rest := MaxSets(rows[1..]);
      if |rows[0].sets| > rest then |rows[0].sets| else rest
  }

  /** The table shows every stored entry's date and set strings, in order. */
  predicate Mirrors(rows: seq<TableRow>, entries: seq<DayEntry>) {
    && |rows| == |entries|
    && forall i :: 0 <= i < |rows| ==> rows[i].date == entries[i].date && rows[i].sets == SetTexts(entries[i].sets)
  }

  /** Row `k` is the only bold row. */
  predicate OnlyLatest(rows: seq<TableRow>, k: nat) {
    forall i :: 0 <= i < |rows| ==> (rows[i].isLatest <==> i == k)
  }

  /** No row has more sets than the table has columns. */
  predicate Fits(rows: seq<TableRow>, columns: nat) {
    forall i :: 0 <= i < |rows| ==> |rows[i].sets| <= columns
  }

  /** No two stored entries share a date. */
  predicate DistinctDates(entries: seq<DayEntry>) {
    forall i, j :: 0 <= i < j < |entries| ==> entries[i].date != entries[j].date
  }

  /** `maxSets` is the longest row, or 0 for no rows. */
  lemma {:induction false} MaxSetsMeaning(rows: seq<TableRow>)
    ensures Fits(rows, MaxSets(rows))
    ensures MaxSets(rows) == 0 || exists i :: 0 <= i < |rows| && |rows[i].sets| == MaxSets(rows)
  {
    if |rows| > 0 {
      MaxSetsMeaning(rows[1..]);
      forall i | 0 <= i < |rows| ensures |rows[i].sets| <= MaxSets(rows) {
        if i > 0 {
          assert rows[i] == rows[1..][i - 1];
        }
      }
      if MaxSets(rows) != |rows[0].sets| {
        var i :| 0 <= i < |rows[1..]| && |rows[1..][i].sets| == MaxSets(rows[1..]);
        assert rows[i + 1] == rows[1..][i];
      }
    }
  }

  /** The loaded table mirrors the stored entries, fits its columns, and
      exactly its last row is bold. */
  lemma LoadTableMeaning(entries: seq<DayEntry>)
    ensures Mirrors(LoadTable(entries), entries)
    ensures Fits(LoadTable(entries), MaxSets(LoadTable(entries)))
    ensures |entries| > 0 ==> OnlyLatest(LoadTable(entries), |entries| - 1)
    ensures |entries| == 0 ==> MaxSets(LoadTable(entries)) == 0
  {
    MaxSetsMeaning(LoadTable(entries));
  }

  /** The page's state for the selected exercise. `editing` is the pair
      `isEditing`/`editingSet`, which are always set and cleared together. */
  datatype Page = Page(exercise: string, form: Form, rows: seq<TableRow>, maxSets: nat, editing: Option<EditingSet>, ledger: Ledger)

  /** The stored entries of the selected exercise: `storedData[selectedExercise] || []`. */
  function Entries(p: Page): seq<DayEntry> {
    Get(p.ledger, p.exercise).GetOr([])
  }

  /** The effect of selecting an exercise: load its table, and take the form
      values from its first entry's defaults when it has entries. */
  function Select(p: Page, name: string): (r: Page)
    ensures r.ledger == p.ledger && r.editing == p.editing
  {
    if name == "" then p.(exercise := name)
    else
      var entries := Get(p.ledger, name).GetOr([]);
      var rows := LoadTable(entries);
      var form :=
        if |entries| == 0 then p.form
        else
          var d := entries[0].defaults;
          Form(d.reps, NumberText(d.reps), d.weight, NumberText(d.weight), d.weightStep);
      p.(exercise := name, rows := rows, maxSets := MaxSets(rows), form := form)
  }

  /** After selecting an exercise the table mirrors its stored entries and
      the form shows its first entry's defaults. */
  lemma SelectMeaning(p: Page, name: string)
    requires name != ""
    ensures Mirrors(Select(p, name).rows, Entries(Select(p, name)))
    ensures Fits(Select(p, name).rows, Select(p, name).maxSets)
    ensures |Entries(Select(p, name))| > 0 ==>
      var d := Entries(Select(p, name))[0].defaults;
      Select(p, name).form.reps == d.reps && Select(p, name).form.weight == d.weight && Synced(Select(p, name).form)
  {
    var entries := Get(p.ledger, name).GetOr([]);
    LoadTableMeaning(entries);
    if |entries| > 0 {
      TextRoundTrip(entries[0].defaults.reps);
      TextRoundTrip(entries[0].defaults.weight);
    }
  }

  /** The first element of `s` whose date, read by `dateOf`, is `date`:
      `findIndex(w => w.date === date)`. */
  function FirstDated<T>(s: seq<T>, dateOf: T -> string, date: string): (r: Option<nat>)
    ensures r.Some? ==> r.value < |s| && dateOf(s[r.value]) == date
    ensures r.Some? ==> forall j :: 0 <= j < r.value ==> dateOf(s[j]) != date
    ensures r.None? ==> forall j :: 0 <= j < |s| ==> dateOf(s[j]) != date
  {
    if |s| == 0 then None
    else if dateOf(s[0]) == date then Some(0)
    else
      match FirstDated(s[1..], dateOf, date)
      case None =>
        assert forall j :: 1 <= j < |s| ==> s[j] == s[1..][j - 1];
        None
      case Some(i) =>
        assert forall j :: 1 <= j <= i ==> s[j] == s[1..][j - 1];
        Some(i + 1)
  }

  function RowDate(row: TableRow): string {
    row.date
  }

  function EntryDate(entry: DayEntry): string {
    entry.date
  }

  /** The first row dated `date`: `workoutData.findIndex(...)`. */
  function RowIndex(rows: seq<TableRow>, date: string): (r: Option<nat>)
    ensures r.Some? ==> r.value < |rows| && rows[r.value].date == date
    ensures r.Some? ==> forall j :: 0 <= j < r.value ==> rows[j].date != date
    ensures r.None? ==> forall j :: 0 <= j < |rows| ==> rows[j].date != date
  {
    FirstDated(rows, RowDate, date)
  }

  /** The first stored entry dated `date`: `exerciseData.findIndex(...)`. */
  function EntryIndex(entries: seq<DayEntry>, date: string): (r: Option<nat>)
    ensures r.Some? ==> r.value < |entries| && entries[r.value].date == date
    ensures r.Some? ==> forall j :: 0 <= j < r.value ==> entries[j].date != date
    ensures r.None? ==> forall j :: 0 <= j < |entries| ==> entries[j].date != date
  {
    FirstDated(entries, EntryDate, date)
  }

  /** A table that mirrors the entries finds a date where they do. */
  lemma MirroredIndex(rows: seq<TableRow>, entries: seq<DayEntry>, date: string)
    requires Mirrors(rows, entries)
    ensures RowIndex(rows, date) == EntryIndex(entries, date)
  {
  }

  /** Writing a value at an index of a list, as the corrected edit does: in
      place when the index is inside the list, appended otherwise. */
  function WriteAt<T>(s: seq<T>, i: nat, x: T): (r: seq<T>)
    ensures |r| == if i < |s| then |s| else |s| + 1
    ensures i < |s| ==> r[i] == x && forall j :: 0 <= j < |s| && j != i ==> r[j] == s[j]
    ensures i >= |s| ==> r == s + [x]
  {
    if i < |s| then s[i := x] else s + [x]
  }

  /** `updatedData[k].sets.push(setString)` and the bold flag moved to row `k`. */
  function AppendRow(rows: seq<TableRow>, k: nat, text: string): (r: seq<TableRow>)
    requires k < |rows|
    ensures |r| == |rows|
    ensures OnlyLatest(r, k)
    ensures forall i :: 0 <= i < |rows| ==> r[i].date == rows[i].date
    ensures r[k].sets == rows[k].sets + [text]
    ensures forall i :: 0 <= i < |rows| && i != k ==> r[i].sets == rows[i].sets
  {
    seq(|rows|, i requires 0 <= i < |rows| =>
      TableRow(rows[i].date, if i == k then rows[i].sets + [text] else rows[i].sets, i == k))
  }

  /** `newData.forEach(w => w.isLatest = false)` then the new bold row pushed. */
  function AddRow(rows: seq<TableRow>, date: string, text: string): (r: seq<TableRow>)
    ensures |r| == |rows| + 1
    ensures OnlyLatest(r, |rows|)
    ensures r[|rows|] == TableRow(date, [text], true)
    ensures forall i :: 0 <= i < |rows| ==> r[i].date == rows[i].date && r[i].sets == rows[i].sets
  {
    seq(|rows|, i requires 0 <= i < |rows| => rows[i].(isLatest := false)) + [TableRow(date, [text], true)]
  }

  /** The entry a log creates for a date with no stored entry: one set, and
      the form's values as its defaults. */
  function NewEntry(p: Page, date: string): DayEntry {
    DayEntry(p.exercise, date, [Record(SetText(p.form), Some(""))], Defaults(p.form.reps, p.form.weight, p.form.weightStep))
  }

  /** The edit branch: the clicked set of the row and of the stored entry
      for the edited date becomes the form's set; then editing ends. */
  function LogEdit(p: Page, e: EditingSet): (r: Page)
    ensures r.exercise == p.exercise && r.form == p.form && r.maxSets == p.maxSets && r.editing.None?
  {
    var text := SetText(p.form);
    match RowIndex(p.rows, e.date)
    case None => p.(editing := None)
    case Some(di) =>
      var row := p.rows[di];
      var rows := p.rows[di := row.(sets := WriteAt(row.sets, e.setIndex, text))];
      var entries := Entries(p);
      match EntryIndex(entries, e.date)
      case None => p.(rows := rows, editing := None)
      case Some(si) =>
        var en := entries[si];
        var written := entries[si := en.(sets := WriteAt(en.sets, e.setIndex, Record(text, Some(e.notes))))];
        p.(rows := rows, editing := None, ledger := Put(p.ledger, p.exercise, written))
  }

  /** The branch for a date the table already shows: append the set to that
      row and to the stored entry of the date (or store a new entry when
      there is none), and make that row the bold one. */
  function LogAppend(p: Page, date: string, k: nat): (r: Page)
    requires k < |p.rows|
    ensures r.exercise == p.exercise && r.form == p.form && r.editing == p.editing
  {
    var text := SetText(p.form);
    var rows := AppendRow(p.rows, k, text);
    var entries := Entries(p);
    var written :=
      match EntryIndex(entries, date)
      case Some(si) => entries[si := entries[si].(sets := entries[si].sets + [Record(text, Some(""))])]
      case None => entries + [NewEntry(p, date)];
    var columns := if |rows[k].sets| > p.maxSets then |rows[k].sets| else p.maxSets;
    p.(rows := rows, maxSets := columns, ledger := Put(p.ledger, p.exercise, written))
  }

  /** The branch for a date the table does not show: a new bold row and a
      new stored entry. */
  function LogNew(p: Page, date: string): (r: Page)
    ensures r.exercise == p.exercise && r.form == p.form && r.editing == p.editing
  {
    var columns := if p.maxSets > 1 then p.maxSets else 1;
    p.(rows := AddRow(p.rows, date, SetText(p.form)), maxSets := columns,
       ledger := Put(p.ledger, p.exercise, Entries(p) + [NewEntry(p, date)]))
  }

  /** `handleLogSet` for the date picked in the drawer, as "DD.MM". */
  function LogSet(p: Page, date: string): (r: Page)
    ensures r.exercise == p.exercise && r.form == p.form && r.editing.None?
  {
    match p.editing
    case Some(e) => LogEdit(p, e)
    case None =>
      match RowIndex(p.rows, date)
      case Some(k) => LogAppend(p, date, k)
      case None => LogNew(p, date)
  }

  /** A log touches only the selected exercise's key. */
  lemma LogFrame(p: Page, date: string, m: string)
    requires m != p.exercise
    ensures Get(LogSet(p, date).ledger, m) == Get(p.ledger, m)
  {
  }

  /** Two tables with the same dates row by row find a date at the same row. */
  lemma RowIndexByDates(a: seq<TableRow>, b: seq<TableRow>, date: string)
    requires |a| == |b| && forall i :: 0 <= i < |a| ==> a[i].date == b[i].date
    ensures RowIndex(a, date) == RowIndex(b, date)
  {
  }

  /** The same for two entry lists. */
  lemma EntryIndexByDates(a: seq<DayEntry>, b: seq<DayEntry>, date: string)
    requires |a| <= |b| && forall i :: 0 <= i < |a| ==> a[i].date == b[i].date
    requires EntryIndex(a, date).Some?
    ensures EntryIndex(b, date) == EntryIndex(a, date)
  {
  }

  lemma SetTextsWrite(sets: seq<RawSet>, i: nat, text: string, notes: Option<string>)
    ensures SetTexts(WriteAt(sets, i, Record(text, notes))) == WriteAt(SetTexts(sets), i, text)
  {
  }

  lemma SetTextsAppend(sets: seq<RawSet>, text: string, notes: Option<string>)
    ensures SetTexts(sets + [Record(text, notes)]) == SetTexts(sets) + [text]
  {
  }

  /** The edit branch keeps the table mirroring the stored entries. */
  lemma MirrorEdit(p: Page, e: EditingSet)
    requires Mirrors(p.rows, Entries(p)) && DistinctDates(Entries(p))
    ensures Mirrors(LogEdit(p, e).rows, Entries(LogEdit(p, e))) && DistinctDates(Entries(LogEdit(p, e)))
  {
    var entries := Entries(p);
    MirroredIndex(p.rows, entries, e.date);
    match RowIndex(p.rows, e.date)
    case None =>
    case Some(di) =>
      var text := SetText(p.form);
      var en := entries[di];
      SetTextsWrite(en.sets, e.setIndex, text, Some(e.notes));
      var r := LogEdit(p, e);
      assert Entries(r) == entries[di := en.(sets := WriteAt(en.sets, e.setIndex, Record(text, Some(e.notes))))];
  }

  /** The branch for a shown date keeps the table mirroring the stored entries. */
  lemma MirrorAppend(p: Page, date: string, k: nat)
    requires Mirrors(p.rows, Entries(p)) && DistinctDates(Entries(p))
    requires k < |p.rows| && RowIndex(p.rows, date) == Some(k)
    ensures Mirrors(LogAppend(p, date, k).rows, Entries(LogAppend(p, date, k))) && DistinctDates(Entries(LogAppend(p, date, k)))
  {
    var entries := Entries(p);
    MirroredIndex(p.rows, entries, date);
    var text := SetText(p.form);
    SetTextsAppend(entries[k].sets, text, Some(""));
    var r := LogAppend(p, date, k);
    assert Entries(r) == entries[k := entries[k].(sets := entries[k].sets + [Record(text, Some(""))])];
  }

  /** The branch for a new date keeps the table mirroring the stored entries. */
  lemma MirrorNew(p: Page, date: string)
    requires Mirrors(p.rows, Entries(p)) && DistinctDates(Entries(p))
    requires RowIndex(p.rows, date).None?
    ensures Mirrors(LogNew(p, date).rows, Entries(LogNew(p, date))) && DistinctDates(Entries(LogNew(p, date)))
  {
    var entries := Entries(p);
    MirroredIndex(p.rows, entries, date);
    var r := LogNew(p, date);
    assert Entries(r) == entries + [NewEntry(p, date)];
    SetTextsAppend([], SetText(p.form), Some(""));
    assert [] + [Record(SetText(p.form), Some(""))] == [Record(SetText(p.form), Some(""))];
  }

  /** Whatever the branch, after a log the table still mirrors the stored
      entries of the exercise and no two of them share a date. */
  lemma LogMirrors(p: Page, date: string)
    requires Mirrors(p.rows, Entries(p)) && DistinctDates(Entries(p))
    ensures Mirrors(LogSet(p, date).rows, Entries(LogSet(p, date)))
    ensures DistinctDates(Entries(LogSet(p, date)))
  {
    match p.editing
    case Some(e) => MirrorEdit(p, e);
    case None =>
      match RowIndex(p.rows, date)
      case Some(k) => MirrorAppend(p, date, k);
      case None => MirrorNew(p, date);
  }

  /** A log of a new set makes the logged date's row the only bold one. */
  lemma LogLatest(p: Page, date: string)
    requires p.editing.None?
    ensures RowIndex(LogSet(p, date).rows, date).Some?
    ensures OnlyLatest(LogSet(p, date).rows, RowIndex(LogSet(p, date).rows, date).value)
  {
    var text := SetText(p.form);
    match RowIndex(p.rows, date)
    case Some(k) =>
      RowIndexByDates(p.rows, AppendRow(p.rows, k, text), date);
    case None =>
      var rows := AddRow(p.rows, date, text);
      var x := RowIndex(rows, date);
      assert rows[|p.rows|].date == date;
  }

  /** An edit leaves the rows' dates and bold marks as they were, so the
      single bold row stays the single bold row. */
  lemma LogEditKeepsLatest(p: Page, e: EditingSet, k: nat)
    requires OnlyLatest(p.rows, k)
    ensures var rows := LogSet(p.(editing := Some(e)), e.date).rows;
      && |rows| == |p.rows|
      && (forall i :: 0 <= i < |rows| ==> rows[i].date == p.rows[i].date)
      && OnlyLatest(rows, k)
  {
  }

  /** No row outgrows the table's columns, provided an edited cell is one of
      the columns, as it is when it was clicked. */
  lemma LogFits(p: Page, date: string)
    requires Fits(p.rows, p.maxSets)
    requires p.editing.Some? ==> p.editing.value.setIndex < p.maxSets
    ensures Fits(LogSet(p, date).rows, LogSet(p, date).maxSets)
  {
  }

  /** Logging a set while not editing adds exactly reps × weight to the
      volume of the date's stored entry, which starts from nothing when the
      date had no entry. */
  lemma LogAddsVolume(p: Page, date: string)
    requires p.editing.None? && Mirrors(p.rows, Entries(p))
    requires p.form.reps.Some? && p.form.weight.Some?
    ensures var after := Entries(LogSet(p, date));
      && EntryIndex(after, date).Some?
      && Aggregator.Volume(after[EntryIndex(after, date).value].sets) ==
         JsNumber.Add(
           match EntryIndex(Entries(p), date)
           case Some(si) => Aggregator.Volume(Entries(p)[si].sets)
           case None => JsNumber.Finite(0.0),
           JsNumber.Mul(JsNumber.Finite(JsNumber.ThousandthsValue(p.form.reps.value)), JsNumber.Finite(JsNumber.ThousandthsValue(p.form.weight.value))))
  {
    var before := Entries(p);
    var after := Entries(LogSet(p, date));
    LogAppendStores(p, date);
    match EntryIndex(before, date)
    case Some(si) =>
      AppendedVolume(before, after, date, si, p.form.reps.value, p.form.weight.value);
    case None =>
      NewVolume(before, NewEntry(p, date), date, p.form.reps.value, p.form.weight.value);
  }

  /** The volume of an entry grown by one logged set, found where it was. */
  lemma AppendedVolume(before: seq<DayEntry>, after: seq<DayEntry>, date: string, si: nat, reps: nat, weight: nat)
    requires EntryIndex(before, date) == Some(si)
    requires |after| == |before| && forall j :: 0 <= j < |before| && j != si ==> after[j] == before[j]
    requires after[si] == before[si].(sets := before[si].sets + [Record(SetCodec.EncodeSet(reps, weight), Some(""))])
    ensures EntryIndex(after, date) == Some(si)
    ensures Aggregator.Volume(after[si].sets) ==
      JsNumber.Add(Aggregator.Volume(before[si].sets), JsNumber.Mul(JsNumber.Finite(JsNumber.ThousandthsValue(reps)), JsNumber.Finite(JsNumber.ThousandthsValue(weight))))
  {
    EntryIndexByDates(before, after, date);
    Aggregator.VolumeOfLogged(before[si].sets, reps, weight, "");
  }

  /** An entry appended for a date the entries lack is found at the end. */
  lemma AppendedIndex(before: seq<DayEntry>, e: DayEntry, date: string)
    requires EntryIndex(before, date).None? && e.date == date
    ensures EntryIndex(before + [e], date) == Some(|before|)
  {
    var after := before + [e];
    assert after[|before|] == e;
    assert forall j :: 0 <= j < |before| ==> after[j].date == before[j].date;
  }

  /** The volume of a new entry holding one logged set. */
  lemma NewVolume(before: seq<DayEntry>, e: DayEntry, date: string, reps: nat, weight: nat)
    requires EntryIndex(before, date).None?
    requires e.date == date && e.sets == [Record(SetCodec.EncodeSet(reps, weight), Some(""))]
    ensures EntryIndex(before + [e], date) == Some(|before|)
    ensures Aggregator.Volume((before + [e])[|before|].sets) ==
      JsNumber.Add(JsNumber.Finite(0.0), JsNumber.Mul(JsNumber.Finite(JsNumber.ThousandthsValue(reps)), JsNumber.Finite(JsNumber.ThousandthsValue(weight))))
  {
    AppendedIndex(before, e, date);
    assert (before + [e])[|before|] == e;
    var logged: seq<RawSet> := [];
    assert e.sets == logged + [Record(SetCodec.EncodeSet(reps, weight), Some(""))];
    Aggregator.VolumeEmpty();
    Aggregator.VolumeOfLogged(logged, reps, weight, "");
  }

  /** Logging while not editing appends the form's set, with empty notes, to
      the end of the stored entry of the date and leaves every other entry
      as it was; a date without a stored entry gets a new entry at the end. */
  lemma LogAppendStores(p: Page, date: string)
    requires p.editing.None? && Mirrors(p.rows, Entries(p))
    ensures var before := Entries(p); var after := Entries(LogSet(p, date));
      match EntryIndex(before, date)
      case None => after == before + [NewEntry(p, date)]
      case Some(si) =>
        && |after| == |before|
        && (forall j :: 0 <= j < |before| && j != si ==> after[j] == before[j])
        && after[si] == before[si].(sets := before[si].sets + [Record(SetText(p.form), Some(""))])
  {
    MirroredIndex(p.rows, Entries(p), date);
  }

  /** A new date's entry carries the form's values as its defaults, which a
      later selection of the exercise loads back into the form. */
  lemma NewEntryDefaults(p: Page, date: string)
    requires p.editing.None? && RowIndex(p.rows, date).None?
    ensures Entries(LogSet(p, date)) == Entries(p) + [NewEntry(p, date)]
    ensures var d := NewEntry(p, date).defaults;
      d.reps == p.form.reps && d.weight == p.form.weight && d.weightStep == p.form.weightStep
  {
  }

  /** The edit writes the form's set at the clicked index of the stored
      entry of the clicked date, keeps the notes it had, and changes nothing
      else; nothing is stored when the date has no stored entry. */
  lemma LogEditStores(p: Page, e: EditingSet)
    requires Mirrors(p.rows, Entries(p))
    ensures var before := Entries(p); var after := Entries(LogSet(p.(editing := Some(e)), e.date));
      match EntryIndex(before, e.date)
      case None => after == before
      case Some(si) =>
        && |after| == |before|
        && (forall j :: 0 <= j < |before| && j != si ==> after[j] == before[j])
        && after[si].date == e.date
        && |after[si].sets| == (if e.setIndex < |before[si].sets| then |before[si].sets| else |before[si].sets| + 1)
        && (e.setIndex < |before[si].sets| ==> after[si].sets[e.setIndex] == Record(SetText(p.form), Some(e.notes)))
        && (e.setIndex >= |before[si].sets| ==> after[si].sets[|before[si].sets|] == Record(SetText(p.form), Some(e.notes)))
        && (forall j :: 0 <= j < |before[si].sets| && j != e.setIndex ==> after[si].sets[j] == before[si].sets[j])
  {
    MirroredIndex(p.rows, Entries(p), e.date);
  }

  /** The write as the page performs it, `sets[setIndex] = value` on a
      JavaScript array: past the end, the array grows to `setIndex + 1`
      and the slots in between are holes (None). */
  function WriteAsWritten<T>(s: seq<T>, i: nat, x: T): (r: seq<Option<T>>)
    ensures |r| == if i < |s| then |s| else i + 1
    ensures r[i] == Some(x)
    ensures forall j :: 0 <= j < |s| && j != i ==> r[j] == Some(s[j])
  {
    if i < |s| then seq(|s|, j requires 0 <= j < |s| => Some(if j == i then x else s[j]))
    else seq(i + 1, j requires 0 <= j < i + 1 => if j < |s| then Some(s[j]) else if j == i then Some(x) else None)
  }

  /** A list as an array without holes. */
  function Present<T>(s: seq<T>): (r: seq<Option<T>>)
    ensures |r| == |s| && forall j :: 0 <= j < |s| ==> r[j] == Some(s[j])
  {
    seq(|s|, j requires 0 <= j < |s| => Some(s[j]))
  }

  /** Up to one past the end, the page's write and the corrected one agree. */
  lemma WriteAgrees<T>(s: seq<T>, i: nat, x: T)
    requires i <= |s|
    ensures WriteAsWritten(s, i, x) == Present(WriteAt(s, i, x))
  {
  }

  /** Further past the end, the page's write leaves a hole right after the
      old last set, where the corrected write leaves none. */
  lemma WriteLeavesHoles<T>(s: seq<T>, i: nat, x: T)
    requires i > |s|
    ensures WriteAsWritten(s, i, x)[|s|] == None
    ensures |WriteAt(s, i, x)| == |s| + 1 && WriteAt(s, i, x)[|s|] == x
  {
  }

  /** A reachable case: a table whose widest date has four sets shows a
      fourth, empty, cell in a row with one set. Clicking it loads "0xNaN",
      and logging writes that at index 3 of a one-set list: indices 1 and
      2 become holes. */
  lemma HoleExample()
    ensures MaxSets([TableRow("01.01", ["8x50", "8x50", "8x50", "8x50"], false), TableRow("02.01", ["8x50"], true)]) == 4
    ensures WriteAsWritten(["8x50"], 3, "0xNaN") == [Some("8x50"), None, None, Some("0xNaN")]
    ensures WriteAt(["8x50"], 3, "0xNaN") == ["8x50", "0xNaN"]
  {
  }
}
