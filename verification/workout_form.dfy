/** The logging form of the workout page: the reps and weight fields, their
    text inputs, the weight step, the +/- buttons, and the cell click that
    loads a logged set into the form. A field's number is `Some(n)` for a
    value the model represents, in thousandths (reps typed into the number
    input need not be whole), and None for NaN. */
module WorkoutForm {
  import opened Wrappers
  import opened JsNumber
  import SetCodec
  import Ledger

  datatype Form = Form(reps: Option<nat>, repsInput: string, weight: Option<nat>, weightInput: string, weightStep: string)

  /** The form the page starts with: 8 reps of 50 with a step of 5. */
  function Initial(): (f: Form)
    ensures Synced(f)
    ensures f.reps == Some(8000) && f.weight == Some(50000) && Step(f) == Some(5000)
  {
    InitialTexts();
    Form(Some(8000), "8", Some(50000), "50", "5")
  }

  /** The initial inputs "8", "50" and "5" read as 8, 50 and 5. */
  lemma InitialTexts()
    ensures ParseThousandths("8") == Some(8000)
    ensures ParseThousandths("50") == Some(50000)
    ensures ParseThousandths("5") == Some(5000)
  {
    assert NatToString(8) == "8";
    assert NatToString(5) == "5";
    assert NatToString(50) == NatToString(5) + [DigitChar(0)];
    WholeField(8, "8");
    WholeField(50, "50");
    WholeField(5, "5");
  }

  /** `String(n)` for a field. */
  function NumberText(n: Option<nat>): string {
    match n
    case None => "NaN"
    case Some(k) => ThousandthsToString(k)
  }

  /** `value === "" ? 0 : Number(value)`, as both change handlers read a
      field. */
  function ReadNumber(value: string): (n: Option<nat>)
    ensures value == "" ==> n == Some(0)
    ensures value != "" ==> n == ParseThousandths(value)
  {
    if value == "" then Some(0) else ParseThousandths(value)
  }

  /** The text inputs show the numbers the form holds. */
  predicate Synced(f: Form) {
    ReadNumber(f.repsInput) == f.reps && ReadNumber(f.weightInput) == f.weight
  }

  /** Printing a field and reading it back gives the field, NaN included. */
  lemma TextRoundTrip(n: Option<nat>)
    ensures ReadNumber(NumberText(n)) == n
  {
    if n.Some? {
      FieldRoundTrip(n.value);
    } else {
      var nan := "NaN";
      assert !IsDigit(nan[0]);
      assert '.' !in nan;
      assert ParseNumber(nan) == NaN;
    }
  }

  /** `Number(weightStep)`. */
  function Step(f: Form): Option<nat> {
    ParseThousandths(f.weightStep)
  }

  /** One rep, in thousandths. */
  const OneRep: nat := 1000

  /** `increaseReps`: one more rep; NaN stays NaN. */
  function IncreaseReps(f: Form): (r: Form)
    ensures r.weight == f.weight && r.weightInput == f.weightInput && r.weightStep == f.weightStep
  {
    var n := if f.reps.Some? then Some(f.reps.value + OneRep) else None;
    f.(reps := n, repsInput := NumberText(n))
  }

  /** `decreaseReps`: `Math.max(0, reps - 1)`, so at most one rep goes to 0
      and NaN stays NaN. */
  function DecreaseReps(f: Form): (r: Form)
    ensures r.weight == f.weight && r.weightInput == f.weightInput && r.weightStep == f.weightStep
  {
    var n := if f.reps.Some? then Some(if f.reps.value >= OneRep then f.reps.value - OneRep else 0) else None;
    f.(reps := n, repsInput := NumberText(n))
  }

  /** `increaseWeight`: `weight + Number(weightStep)`, NaN when either is NaN. */
  function IncreaseWeight(f: Form): (r: Form)
    ensures r.reps == f.reps && r.repsInput == f.repsInput && r.weightStep == f.weightStep
  {
    var n := if f.weight.Some? && Step(f).Some? then Some(f.weight.value + Step(f).value) else None;
    f.(weight := n, weightInput := NumberText(n))
  }

  /** `decreaseWeight`: `Math.max(0, weight - Number(weightStep))`. */
  function DecreaseWeight(f: Form): (r: Form)
    ensures r.reps == f.reps && r.repsInput == f.repsInput && r.weightStep == f.weightStep
  {
    var n :=
      if f.weight.Some? && Step(f).Some? then
        Some(if f.weight.value >= Step(f).value then f.weight.value - Step(f).value else 0)
      else None;
    f.(weight := n, weightInput := NumberText(n))
  }

  /** Every +/- button leaves the inputs showing the new numbers. */
  lemma ButtonsSync(f: Form)
    ensures Synced(f) ==> Synced(IncreaseReps(f)) && Synced(DecreaseReps(f))
    ensures Synced(f) ==> Synced(IncreaseWeight(f)) && Synced(DecreaseWeight(f))
  {
    TextRoundTrip(IncreaseReps(f).reps);
    TextRoundTrip(DecreaseReps(f).reps);
    TextRoundTrip(IncreaseWeight(f).weight);
    TextRoundTrip(DecreaseWeight(f).weight);
  }

  /** The minus buttons undo the plus buttons, and clamp at 0. */
  lemma ButtonsMeaning(f: Form)
    ensures DecreaseReps(IncreaseReps(f)).reps == f.reps
    ensures f.reps.Some? && f.reps.value <= OneRep ==> DecreaseReps(f).reps == Some(0)
    ensures Step(f).Some? ==> DecreaseWeight(IncreaseWeight(f)).weight == f.weight
    ensures f.weight.Some? && Step(f).Some? && f.weight.value <= Step(f).value ==> DecreaseWeight(f).weight == Some(0)
    ensures Step(f).None? ==> IncreaseWeight(f).weight == None && DecreaseWeight(f).weight == None
  {
    var up := IncreaseWeight(f);
    assert up.weightStep == f.weightStep;
    assert Step(up) == Step(f);
  }

  /** `onRepsChange`: the input shows the text typed, the number is read from it. */
  function RepsChange(f: Form, value: string): (r: Form)
    ensures Synced(f) ==> Synced(r)
    ensures r.repsInput == value && r.reps == ReadNumber(value)
  {
    f.(repsInput := value, reps := ReadNumber(value))
  }

  /** Typing "2.5" in the reps input gives two and a half reps. */
  lemma HalfRep(f: Form)
    ensures RepsChange(f, "2.5").reps == Some(2500)
  {
    assert NatToString(2) == "2";
    assert FracDigits(500) == "5";
    assert ThousandthsToString(2500) == "2.5";
    FieldRoundTrip(2500);
  }

  /** `onWeightChange`. */
  function WeightChange(f: Form, value: string): (r: Form)
    ensures Synced(f) ==> Synced(r)
    ensures r.weightInput == value && r.weight == ReadNumber(value)
  {
    f.(weightInput := value, weight := ReadNumber(value))
  }

  /** `${reps}x${weight}`: the set string a log writes. */
  function SetText(f: Form): (s: string)
    ensures f.reps.Some? && f.weight.Some? ==> s == SetCodec.EncodeSet(f.reps.value, f.weight.value)
  {
    NumberText(f.reps) + "x" + NumberText(f.weight)
  }

  /** `editingSet`: the cell being edited and the notes of its stored set. */
  datatype EditingSet = EditingSet(date: string, setIndex: nat, value: string, notes: string)

  /** `typeof set === 'string' ? "" : (set?.notes || "")`. */
  function NotesOf(stored: Option<Ledger.RawSet>): string {
    match stored
    case None => ""
    case Some(Legacy(_)) => ""
    case Some(Record(_, notes)) => notes.GetOr("")
  }

  /** The stored set under `date` at `setIndex`, if there is one:
      `exerciseData.find(w => w.date === date)?.sets[setIndex]`. */
  function StoredSet(entries: seq<Ledger.DayEntry>, date: string, setIndex: nat): (r: Option<Ledger.RawSet>)
    ensures r.Some? ==> exists i :: 0 <= i < |entries| && entries[i].date == date && setIndex < |entries[i].sets| && r.value == entries[i].sets[setIndex]
  {
    if |entries| == 0 then None
    else if entries[0].date == date then
      if setIndex < |entries[0].sets| then Some(entries[0].sets[setIndex]) else None
    else
      var r := StoredSet(entries[1..], date, setIndex);
      assert r.Some? ==> exists i :: 1 <= i < |entries| && entries[i].date == date && setIndex < |entries[i].sets| && r.value == entries[i].sets[setIndex] by {
        if r.Some? {
          var i :| 0 <= i < |entries[1..]| && entries[1..][i].date == date && setIndex < |entries[1..][i].sets| && r.value == entries[1..][i].sets[setIndex];
          assert entries[i + 1] == entries[1..][i];
        }
      }
      r
  }

  /** `handleCellClick`: load the clicked cell's "RxW" text into the form and
      remember the cell and its notes for the edit. A value without an 'x'
      leaves no weight piece: the weight is `Number(undefined)`, NaN, and the
      input gets no text. */
  function CellClick(f: Form, entries: seq<Ledger.DayEntry>, date: string, setIndex: nat, value: string): (r: (Form, EditingSet))
    ensures r.1 == EditingSet(date, setIndex, value, NotesOf(StoredSet(entries, date, setIndex)))
    ensures r.0.weightStep == f.weightStep
  {
    var pair := SetCodec.SplitPair(value);
    var repsText := pair.0;
    var form := Form(ParseThousandths(repsText), repsText,
      match pair.1 case None => None case Some(w) => ParseThousandths(w),
      pair.1.GetOr(""), f.weightStep);
    (form, EditingSet(date, setIndex, value, NotesOf(StoredSet(entries, date, setIndex))))
  }

  /** `StoredSet` reads the first entry of the date, and nothing when the
      date has no entry. */
  lemma {:induction false} StoredSetFirst(entries: seq<Ledger.DayEntry>, date: string, setIndex: nat)
    ensures (forall j :: 0 <= j < |entries| ==> entries[j].date != date) ==> StoredSet(entries, date, setIndex).None?
    ensures forall i :: 0 <= i < |entries| && entries[i].date == date && (forall j :: 0 <= j < i ==> entries[j].date != date) ==>
      StoredSet(entries, date, setIndex) == (if setIndex < |entries[i].sets| then Some(entries[i].sets[setIndex]) else None)
  {
    if |entries| > 0 && entries[0].date != date {
      StoredSetFirst(entries[1..], date, setIndex);
      forall i | 0 <= i < |entries| && entries[i].date == date && (forall j :: 0 <= j < i ==> entries[j].date != date)
        ensures StoredSet(entries, date, setIndex) == (if setIndex < |entries[i].sets| then Some(entries[i].sets[setIndex]) else None)
      {
        assert i > 0;
        assert entries[1..][i - 1] == entries[i];
        assert forall j :: 0 <= j < i - 1 ==> entries[1..][j].date != date by {
          forall j | 0 <= j < i - 1 ensures entries[1..][j].date != date {
            assert entries[1..][j] == entries[j + 1];
          }
        }
      }
      if forall j :: 0 <= j < |entries| ==> entries[j].date != date {
        assert forall j :: 0 <= j < |entries[1..]| ==> entries[1..][j].date != date by {
          forall j | 0 <= j < |entries[1..]| ensures entries[1..][j].date != date {
            assert entries[1..][j] == entries[j + 1];
          }
        }
      }
    }
  }

  /** A click remembers the cell, its text, and the notes of the set stored
      there in the date's first entry: those of a record, "" for a legacy
      string, and "" when the date or the set is missing. */
  lemma CellClickNotes(f: Form, entries: seq<Ledger.DayEntry>, date: string, setIndex: nat, value: string)
    ensures var e := CellClick(f, entries, date, setIndex, value).1;
      e.date == date && e.setIndex == setIndex && e.value == value
    ensures (forall j :: 0 <= j < |entries| ==> entries[j].date != date) ==>
      CellClick(f, entries, date, setIndex, value).1.notes == ""
    ensures forall i :: 0 <= i < |entries| && entries[i].date == date && (forall j :: 0 <= j < i ==> entries[j].date != date) ==>
      CellClick(f, entries, date, setIndex, value).1.notes ==
        (if setIndex < |entries[i].sets| && entries[i].sets[setIndex].Record? then entries[i].sets[setIndex].notes.GetOr("") else "")
  {
    StoredSetFirst(entries, date, setIndex);
  }

  /** Clicking a logged set loads exactly its reps and weight, the inputs
      show them, and logging the form again writes the same text. */
  lemma CellClickRoundTrip(f: Form, entries: seq<Ledger.DayEntry>, date: string, setIndex: nat, reps: nat, weight: nat)
    ensures var r := CellClick(f, entries, date, setIndex, SetCodec.EncodeSet(reps, weight)).0;
      r.reps == Some(reps) && r.weight == Some(weight) && Synced(r) &&
      SetText(r) == SetCodec.EncodeSet(reps, weight)
  {
    SetCodec.EncodeDecode(reps, weight);
    FieldRoundTrip(reps);
    FieldRoundTrip(weight);
    assert ThousandthsToString(reps) != "";
    assert ThousandthsToString(weight) != "";
  }

  /** Clicking an empty cell (its text is '') loads 0 reps and a NaN weight,
      so an unchanged form then logs "0xNaN". */
  lemma EmptyCellClick(f: Form, entries: seq<Ledger.DayEntry>, date: string, setIndex: nat)
    ensures var r := CellClick(f, entries, date, setIndex, "").0;
      r.reps == Some(0) && r.weight == None && SetText(r) == "0xNaN"
  {
    assert ParseNumber("") == Finite(0.0);
  }
}
