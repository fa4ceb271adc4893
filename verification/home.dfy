/** The workout page's exercise list: the last workout date of every stored
    exercise, the options offered by the exercise picker, the custom
    exercises, adding a custom exercise, and the rule the import applies to
    a parsed file. */
module Home {
  import opened Wrappers
  import opened Ledger
  import opened Assoc
  import Sorting
  import Dates

  /** The comparator of `getLastWorkoutDates` on entries: month descending,
      then day descending. */
  predicate EntryBefore(a: DayEntry, b: DayEntry) {
    Dates.DescBefore(a.date, b.date)
  }

  lemma EntriesPreorder(es: seq<DayEntry>)
    requires forall x :: x in es ==> Dates.ValidDate(x.date)
    ensures Sorting.TotalPreorderOn(es, EntryBefore)
  {
    forall a, b | a in es && b in es ensures EntryBefore(a, b) || EntryBefore(b, a) {
      Dates.DescBeforeMeaning(a.date, b.date);
      Dates.DescBeforeMeaning(b.date, a.date);
      Dates.RecencyTotalPreorder(a.date, b.date, a.date);
    }
    forall a, b, c | a in es && b in es && c in es && EntryBefore(a, b) && EntryBefore(b, c)
      ensures EntryBefore(a, c)
    {
      Dates.DescBeforeMeaning(a.date, b.date);
      Dates.DescBeforeMeaning(b.date, c.date);
      Dates.DescBeforeMeaning(a.date, c.date);
      Dates.RecencyTotalPreorder(a.date, b.date, c.date);
    }
  }

  /** The date of the first entry once sorted most recent first; None for
      an exercise without entries. */
  function LastDate(entries: seq<DayEntry>): (r: Option<string>)
    ensures r.Some? <==> |entries| > 0
    ensures r.Some? ==> exists i :: 0 <= i < |entries| && entries[i].date == r.value
  {
    if |entries| == 0 then None
    else
      var sorted := Sorting.SortBy(entries, EntryBefore);
      Sorting.InElements(sorted[0], entries, sorted);
      Some(sorted[0].date)
  }

  /** On valid dates the last date is at least as recent as every entry's. */
  lemma LastDateLatest(entries: seq<DayEntry>, e: DayEntry)
    requires forall x :: x in entries ==> Dates.ValidDate(x.date)
    requires e in entries
    ensures Dates.AtLeastAsRecent(LastDate(entries).value, e.date)
  {
    EntriesPreorder(entries);
    Sorting.FirstComesFirst(entries, EntryBefore);
    var first := Sorting.SortBy(entries, EntryBefore)[0];
    Dates.DescBeforeMeaning(first.date, e.date);
  }

  /** `getLastWorkoutDates`: one entry per exercise that has entries, in key
      order. */
  function LastWorkoutDates(l: Ledger): seq<Entry<string>> {
    if |l| == 0 then []
    else
      var head := match LastDate(l[0].entries) case None => [] case Some(d) => [Entry(l[0].name, d)];
      head + LastWorkoutDates(l[1..])
  }

  /** Reading an exercise's last date gives the last date of its entries;
      an exercise that is absent or has no entries reads nothing. */
  lemma {:induction false} LastWorkoutDatesLookup(l: Ledger, name: string)
    requires WellKeyed(l)
    ensures Lookup(LastWorkoutDates(l), name) == match Get(l, name) case None => None case Some(es) => LastDate(es)
  {
    if |l| > 0 {
      var rest := LastWorkoutDates(l[1..]);
      LastWorkoutDatesLookup(l[1..], name);
      match LastDate(l[0].entries)
      case None =>
        assert LastWorkoutDates(l) == rest;
      case Some(d) =>
        assert LastWorkoutDates(l) == [Entry(l[0].name, d)] + rest;
        LookupCons(Entry(l[0].name, d), rest, name);
    }
  }

  /** For every exercise with entries on valid dates, the shown date is one
      of its entry dates and no entry is more recent. */
  lemma LastWorkoutDatesMeaning(l: Ledger, name: string)
    requires WellKeyed(l)
    requires Get(l, name).Some? && |Get(l, name).value| > 0
    requires forall x :: x in Get(l, name).value ==> Dates.ValidDate(x.date)
    ensures Lookup(LastWorkoutDates(l), name).Some?
    ensures exists e :: e in Get(l, name).value && e.date == Lookup(LastWorkoutDates(l), name).value
    ensures forall e :: e in Get(l, name).value ==> Dates.AtLeastAsRecent(Lookup(LastWorkoutDates(l), name).value, e.date)
  {
    LastWorkoutDatesLookup(l, name);
    var es := Get(l, name).value;
    var i :| 0 <= i < |es| && es[i].date == LastDate(es).value;
    assert es[i] in es;
    forall e | e in es ensures Dates.AtLeastAsRecent(LastDate(es).value, e.date) {
      LastDateLatest(es, e);
    }
  }

  /** The names of `names` that are not in `excluded`, in order. */
  function Without(names: seq<string>, excluded: seq<string>): (r: seq<string>)
    ensures forall x :: x in r <==> x in names && x !in excluded
  {
    if |names| == 0 then []
    else (if names[0] in excluded then [] else [names[0]]) + Without(names[1..], excluded)
  }

  /** A list without repeats keeps none after filtering. */
  lemma {:induction false} WithoutDistinct(names: seq<string>, excluded: seq<string>)
    requires forall i, j :: 0 <= i < j < |names| ==> names[i] != names[j]
    ensures forall i, j :: 0 <= i < j < |Without(names, excluded)| ==> Without(names, excluded)[i] != Without(names, excluded)[j]
  {
    if |names| > 0 {
      WithoutDistinct(names[1..], excluded);
      assert names[0] !in names[1..];
    }
  }

  /** An option of the exercise picker. `isCustom` is absent for an option
      added in this session. The label always equals the value. */
  datatype Choice = Choice(value: string, isCustom: Option<bool>)

  /** The options: every stored exercise, in key order, then every catalog
      exercise that is not stored. */
  function Choices(l: Ledger, catalog: seq<string>): (r: seq<Choice>)
    ensures |r| == |l| + |Without(catalog, Names(l))|
    ensures forall i :: 0 <= i < |l| ==> r[i] == Choice(l[i].name, Some(true))
    ensures forall i :: |l| <= i < |r| ==> r[i] == Choice(Without(catalog, Names(l))[i - |l|], Some(false))
  {
    var stored := Names(l);
    var predefined := Without(catalog, stored);
    seq(|stored|, i requires 0 <= i < |stored| => Choice(stored[i], Some(true)))
      + seq(|predefined|, i requires 0 <= i < |predefined| => Choice(predefined[i], Some(false)))
  }

  /** An exercise is offered exactly when it is stored or in the catalog,
      and marked custom exactly when it is stored. */
  lemma ChoicesCover(l: Ledger, catalog: seq<string>, name: string)
    ensures (exists i :: 0 <= i < |Choices(l, catalog)| && Choices(l, catalog)[i].value == name) <==> (name in Names(l) || name in catalog)
    ensures forall i :: 0 <= i < |Choices(l, catalog)| ==> (Choices(l, catalog)[i].isCustom == Some(true) <==> Choices(l, catalog)[i].value in Names(l))
  {
    var r := Choices(l, catalog);
    var stored := Names(l);
    var predefined := Without(catalog, stored);
    if name in stored {
      var i :| 0 <= i < |stored| && stored[i] == name;
      assert r[i].value == name;
    } else if name in catalog {
      assert name in predefined;
      var i :| 0 <= i < |predefined| && predefined[i] == name;
      assert r[|stored| + i].value == name;
    }
    forall i | 0 <= i < |r| ensures r[i].isCustom == Some(true) <==> r[i].value in stored {
      if i >= |stored| {
        assert r[i].value in predefined;
      } else {
        assert r[i].value == stored[i];
      }
    }
  }

  /** No exercise is offered twice when the keys and the catalog have no
      repeats. */
  lemma ChoicesDistinct(l: Ledger, catalog: seq<string>)
    requires WellKeyed(l)
    requires forall i, j :: 0 <= i < j < |catalog| ==> catalog[i] != catalog[j]
    ensures forall i, j :: 0 <= i < j < |Choices(l, catalog)| ==> Choices(l, catalog)[i].value != Choices(l, catalog)[j].value
  {
    var r := Choices(l, catalog);
    var stored := Names(l);
    var predefined := Without(catalog, stored);
    WithoutDistinct(catalog, stored);
    forall i, j | 0 <= i < j < |r| ensures r[i].value != r[j].value {
      if j >= |stored| && i < |stored| {
        assert r[j].value in predefined;
        assert r[i].value == stored[i];
      }
    }
  }

  /** `customExercises`: the stored exercises that are not in the catalog. */
  function CustomExercises(l: Ledger, catalog: seq<string>): (r: seq<string>)
    ensures forall x :: x in r <==> x in Names(l) && x !in catalog
  {
    Without(Names(l), catalog)
  }

  /** The picker state: the custom exercise list (saved as it is set), the
      options and the selected exercise. */
  datatype Picker = Picker(customs: seq<string>, choices: seq<Choice>, selected: string)

  /** `handleAddCustomExercise`: the name goes last in the custom list and
      the options, and becomes the selection. The name is not checked
      against the existing options. */
  function AddCustomExercise(p: Picker, name: string): (r: Picker)
    ensures r.selected == name
  {
    Picker(p.customs + [name], p.choices + [Choice(name, None)], name)
  }

  /** Adding keeps every earlier custom exercise and option in place and
      adds exactly one of each. */
  lemma AddCustomMeaning(p: Picker, name: string)
    ensures |AddCustomExercise(p, name).customs| == |p.customs| + 1
    ensures AddCustomExercise(p, name).customs[..|p.customs|] == p.customs
    ensures AddCustomExercise(p, name).customs[|p.customs|] == name
    ensures AddCustomExercise(p, name).choices[..|p.choices|] == p.choices
    ensures AddCustomExercise(p, name).choices[|p.choices|] == Choice(name, None)
    ensures |AddCustomExercise(p, name).choices| == |p.choices| + 1
  {
  }

  /** What `JSON.parse` gave for an imported file, by `typeof` class; a file
      that does not parse is `Unparsable`. */
  datatype Parsed = Unparsable | Null | Boolean | Number | Text | ArrayValue | ObjectValue

  datatype ImportOutcome = Stored | InvalidFormat | ReadError

  /** `importWorkoutData` after reading the file: store only what `typeof`
      calls an object and is not null, which lets arrays through. */
  function Import(parsed: Parsed): (r: ImportOutcome)
    ensures r == Stored <==> parsed == ArrayValue || parsed == ObjectValue
    ensures r == ReadError <==> parsed == Unparsable
  {
    match parsed
    case Unparsable => ReadError
    case ArrayValue => Stored
    case ObjectValue => Stored
    case _ => InvalidFormat
  }

  /** JavaScript's `typeof` of a parsed JSON value. Arrays and null are
      objects too. */
  function TypeOf(parsed: Parsed): string
    requires parsed != Unparsable
  {
    match parsed
    case Null => "object"
    case Boolean => "boolean"
    case Number => "number"
    case Text => "string"
    case ArrayValue => "object"
    case ObjectValue => "object"
  }

  /** The import follows `JSON.parse` and then the guard `typeof parsedData
      === 'object' && parsedData !== null`: a file that does not parse is a
      read error; a parsed value is stored exactly when it passes the guard,
      and is otherwise reported as an invalid format. */
  lemma ImportByTypeof(parsed: Parsed)
    ensures parsed == Unparsable ==> Import(parsed) == ReadError
    ensures parsed != Unparsable ==>
      (Import(parsed) == Stored <==> TypeOf(parsed) == "object" && parsed != Null)
    ensures parsed != Unparsable ==>
      (Import(parsed) == InvalidFormat <==> !(TypeOf(parsed) == "object" && parsed != Null))
  {
  }
}
