/** Deleting from the ledger on the history screen: one exercise on one date,
    or every exercise on one date. A key whose list becomes empty is removed. */
module HistoryEdits {
  import opened Wrappers
  import opened Ledger

  /** `exerciseToDelete`: the date and exercise the delete dialog was opened for. */
  datatype Target = Target(date: string, exerciseName: string)

  /** The entries left under a key once the entries dated `date` are gone;
      None when the key is absent or would be left empty. */
  function Cleaned(entries: Option<seq<DayEntry>>, date: string): Option<seq<DayEntry>> {
    match entries
    case None => None
    case Some(es) =>
      var kept := FilterDate(es, date);
      if |kept| == 0 then None else Some(kept)
  }

  /** `storedData[name] = storedData[name].filter(w => w.date !== date)`,
      then `delete storedData[name]` when nothing is left. */
  function DropDate(l: Ledger, name: string, date: string): (r: Ledger)
    ensures Get(r, name) == Cleaned(Get(l, name), date)
    ensures forall m :: m != name ==> Get(r, m) == Get(l, m)
  {
    match Get(l, name)
    case None => l
    case Some(entries) =>
      var kept := FilterDate(entries, date);
      var written := Put(l, name, kept);
      if |kept| == 0 then Remove(written, name) else written
  }

  /** `handleDelete`: nothing selected or an absent exercise changes nothing. */
  function HandleDelete(l: Ledger, target: Option<Target>): (r: Ledger)
    ensures target.None? ==> r == l
    ensures target.Some? ==> Get(r, target.value.exerciseName) == Cleaned(Get(l, target.value.exerciseName), target.value.date)
    ensures forall m :: target.Some? && m != target.value.exerciseName ==> Get(r, m) == Get(l, m)
  {
    match target
    case None => l
    case Some(t) => if Get(l, t.exerciseName).None? then l else DropDate(l, t.exerciseName, t.date)
  }

  lemma {:induction false} FilterDateIdempotent(entries: seq<DayEntry>, date: string)
    ensures FilterDate(FilterDate(entries, date), date) == FilterDate(entries, date)
  {
    if |entries| > 0 {
      FilterDateIdempotent(entries[1..], date);
      if entries[0].date != date {
        var rest := FilterDate(entries[1..], date);
        assert ([entries[0]] + rest)[1..] == rest;
      }
    }
  }

  lemma CleanedIdempotent(entries: Option<seq<DayEntry>>, date: string)
    ensures Cleaned(Cleaned(entries, date), date) == Cleaned(entries, date)
  {
    if entries.Some? {
      FilterDateIdempotent(entries.value, date);
    }
  }

  /** Deleting one exercise's entries of a date removes exactly those: the
      kept entries are the others, and an absent or emptied key is gone. */
  lemma HandleDeleteMeaning(l: Ledger, t: Target, e: DayEntry)
    requires Get(l, t.exerciseName).Some?
    ensures Get(HandleDelete(l, Some(t)), t.exerciseName).Some? ==>
      (e in Get(HandleDelete(l, Some(t)), t.exerciseName).value <==> e in Get(l, t.exerciseName).value && e.date != t.date)
    ensures Get(HandleDelete(l, Some(t)), t.exerciseName).None? <==>
      forall i :: 0 <= i < |Get(l, t.exerciseName).value| ==> Get(l, t.exerciseName).value[i].date == t.date
  {
    var es := Get(l, t.exerciseName).value;
    var kept := FilterDate(es, t.date);
    FilterDateMembers(es, t.date);
    if |kept| > 0 {
      var x := kept[0];
      assert x in es && x.date != t.date;
    } else {
      forall i | 0 <= i < |es| ensures es[i].date == t.date {
        assert es[i] in es;
      }
    }
  }

  lemma HandleDeleteWellKeyed(l: Ledger, target: Option<Target>)
    requires WellKeyed(l)
    ensures WellKeyed(HandleDelete(l, target))
  {
    if target.Some? && Get(l, target.value.exerciseName).Some? {
      var t := target.value;
      var kept := FilterDate(Get(l, t.exerciseName).value, t.date);
      PutWellKeyed(l, t.exerciseName, kept);
      RemoveWellKeyed(Put(l, t.exerciseName, kept), t.exerciseName);
    }
  }

  /** `handleDeleteDay`: the filter-and-clean step for every key, in key order. */
  function HandleDeleteDay(l: Ledger, date: string): Ledger {
    DeleteDayFrom(l, Names(l), date)
  }

  function DeleteDayFrom(l: Ledger, names: seq<string>, date: string): Ledger
    decreases |names|
  {
    if |names| == 0 then l else DeleteDayFrom(DropDate(l, names[0], date), names[1..], date)
  }

  lemma {:induction false} DeleteDayFromGet(l: Ledger, names: seq<string>, date: string, m: string)
    ensures Get(DeleteDayFrom(l, names, date), m) == if m in names then Cleaned(Get(l, m), date) else Get(l, m)
    decreases |names|
  {
    if |names| > 0 {
      var next := DropDate(l, names[0], date);
      DeleteDayFromGet(next, names[1..], date, m);
      if m == names[0] {
        CleanedIdempotent(Get(l, m), date);
      }
    }
  }

  /** After deleting a day, each key holds its old entries minus those of
      that date, and a key left with none is gone. */
  lemma HandleDeleteDayGet(l: Ledger, date: string, m: string)
    ensures Get(HandleDeleteDay(l, date), m) == Cleaned(Get(l, m), date)
  {
    DeleteDayFromGet(l, Names(l), date, m);
  }

  /** No entry of the deleted date survives anywhere, and no key maps to an
      empty list. */
  lemma HandleDeleteDayClears(l: Ledger, date: string, m: string)
    ensures Get(HandleDeleteDay(l, date), m).Some? ==>
      |Get(HandleDeleteDay(l, date), m).value| > 0 &&
      forall e :: e in Get(HandleDeleteDay(l, date), m).value ==> e.date != date
  {
    HandleDeleteDayGet(l, date, m);
    if Get(l, m).Some? {
      FilterDateMembers(Get(l, m).value, date);
    }
  }

  lemma {:induction false} DeleteDayFromWellKeyed(l: Ledger, names: seq<string>, date: string)
    requires WellKeyed(l)
    ensures WellKeyed(DeleteDayFrom(l, names, date))
    decreases |names|
  {
    if |names| > 0 {
      var name := names[0];
      if Get(l, name).Some? {
        var kept := FilterDate(Get(l, name).value, date);
        PutWellKeyed(l, name, kept);
        RemoveWellKeyed(Put(l, name, kept), name);
      }
      DeleteDayFromWellKeyed(DropDate(l, name, date), names[1..], date);
    }
  }
}
