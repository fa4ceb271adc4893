/** The workout calendar: every entry date is marked, and clicking a day
    opens a dialog with that date's total weight and its exercises. The
    current year given to the `Date` objects is left out; a mark is the
    (day, month) read from the date key. */
module Calendar {
  import opened Wrappers
  import opened JsNumber
  import opened Ledger
  import opened Assoc
  import opened Aggregator
  import Sums
  import Dates

  /** One exercise under a date: its key and its stored sets. */
  datatype Detail = Detail(exerciseName: string, sets: seq<RawSet>)

  datatype Info = Info(totalWeight: Num, details: seq<Detail>)

  function DetailOf(p: Logged): Detail {
    Detail(p.name, p.entry.sets)
  }

  /** `weightByDate[date].totalWeight += workoutWeight` and
      `weightByDate[date].details.push(...)`. */
  function AddEntry(p: Logged): Info -> Info {
    (info: Info) => Info(Add(info.totalWeight, EntryWeight(p)), info.details + [DetailOf(p)])
  }

  /** `weightByDate` after the walk over `ps`: an absent date starts from
      `{ totalWeight: 0, details: [] }`. */
  function Collect(ps: seq<Logged>): seq<Entry<Info>> {
    if |ps| == 0 then []
    else
      var last := ps[|ps| - 1];
      Upsert(Collect(ps[..|ps| - 1]), last.entry.date, Info(Finite(0.0), []), AddEntry(last))
  }

  /** The details of a list of walked entries, one per entry in order. */
  function Details(ps: seq<Logged>): (ds: seq<Detail>)
    ensures |ds| == |ps|
    ensures forall i :: 0 <= i < |ps| ==> ds[i] == Detail(ps[i].name, ps[i].entry.sets)
  {
    seq(|ps|, i requires 0 <= i < |ps| => DetailOf(ps[i]))
  }

  lemma DetailsSnoc(ps: seq<Logged>, p: Logged)
    ensures Details(ps + [p]) == Details(ps) + [DetailOf(p)]
  {
  }

  /** The table holds each entry date once, and nothing else. */
  lemma {:induction false} CollectKeys(ps: seq<Logged>)
    ensures Distinct(Collect(ps))
    ensures Keys(Collect(ps)) == EntryDates(ps)
  {
    if |ps| > 0 {
      var init := ps[..|ps| - 1];
      var last := ps[|ps| - 1];
      CollectKeys(init);
      UpsertKeys(Collect(init), last.entry.date, Info(Finite(0.0), []), AddEntry(last));
      UpsertDistinct(Collect(init), last.entry.date, Info(Finite(0.0), []), AddEntry(last));
      EntryDatesSnoc(ps);
    }
  }

  /** A date's info holds the sum of its entries' weights and one detail per
      entry, in walk order. */
  lemma {:induction false} CollectInfo(ps: seq<Logged>, d: string)
    ensures Lookup(Collect(ps), d).GetOr(Info(Finite(0.0), [])) ==
      Info(Sums.Sum(OnDate(ps, d), EntryWeight), Details(OnDate(ps, d)))
  {
    if |ps| > 0 {
      var init := ps[..|ps| - 1];
      var last := ps[|ps| - 1];
      var prev := Lookup(Collect(init), d).GetOr(Info(Finite(0.0), []));
      CollectInfo(init, d);
      LookupUpsert(Collect(init), last.entry.date, Info(Finite(0.0), []), AddEntry(last), d);
      if last.entry.date == d {
        var before := OnDate(init, d);
        assert OnDate(ps, d) == before + [last];
        Sums.SumAppend(before, last, EntryWeight);
        DetailsSnoc(before, last);
        calc {
          Lookup(Collect(ps), d).GetOr(Info(Finite(0.0), []));
          AddEntry(last)(prev);
          Info(Add(Sums.Sum(before, EntryWeight), EntryWeight(last)), Details(before) + [DetailOf(last)]);
        }
      } else {
        assert OnDate(ps, d) == OnDate(init, d);
      }
    }
  }

  /** The calendar's table: a date has info exactly when some entry carries
      it; its total is the sum of those entries' volumes (NaN when any set
      is malformed) and its details list those entries in walk order. */
  lemma CalendarInfo(l: Ledger, d: string)
    ensures Lookup(Collect(Pairs(l)), d).Some? <==> d in EntryDates(Pairs(l))
    ensures Lookup(Collect(Pairs(l)), d).Some? ==>
      Lookup(Collect(Pairs(l)), d).value == Info(Sums.Sum(OnDate(Pairs(l), d), EntryVolume), Details(OnDate(Pairs(l), d)))
  {
    CollectKeys(Pairs(l));
    CollectInfo(Pairs(l), d);
    EntrySumsMatch(OnDate(Pairs(l), d));
  }

  /** `workoutDates`: a `Set` of the walked dates, in insertion order. */
  function SeenDates(ps: seq<Logged>): seq<string> {
    if |ps| == 0 then []
    else
      var seen := SeenDates(ps[..|ps| - 1]);
      var date := ps[|ps| - 1].entry.date;
      if date in seen then seen else seen + [date]
  }

  /** Each entry date is seen exactly once. */
  lemma {:induction false} SeenDatesMeaning(ps: seq<Logged>)
    ensures forall d :: d in SeenDates(ps) <==> d in EntryDates(ps)
    ensures forall i, j :: 0 <= i < j < |SeenDates(ps)| ==> SeenDates(ps)[i] != SeenDates(ps)[j]
  {
    if |ps| > 0 {
      SeenDatesMeaning(ps[..|ps| - 1]);
      EntryDatesSnoc(ps);
    }
  }

  /** The marks: each seen date read as (day, month). */
  function MarkedDates(l: Ledger): (marks: seq<Dates.DayMonth>)
    ensures |marks| == |SeenDates(Pairs(l))|
    ensures forall i :: 0 <= i < |marks| ==> marks[i] == Dates.ParseDate(SeenDates(Pairs(l))[i])
  {
    var seen := SeenDates(Pairs(l));
    seq(|seen|, i requires 0 <= i < |seen| => Dates.ParseDate(seen[i]))
  }

  /** A day whose formatted key has entries is marked with that day and month. */
  lemma MarkedDay(l: Ledger, day: nat, month: nat)
    requires Dates.FormatDate(day, month) in EntryDates(Pairs(l))
    ensures Dates.DayMonth(Finite(day as real), Finite(month as real)) in MarkedDates(l)
  {
    var seen := SeenDates(Pairs(l));
    SeenDatesMeaning(Pairs(l));
    var i :| 0 <= i < |seen| && seen[i] == Dates.FormatDate(day, month);
    Dates.FormatParse(day, month);
    assert MarkedDates(l)[i] == Dates.ParseDate(seen[i]);
  }

  datatype Selected = Selected(date: string, info: Info)

  /** The dialog: whether it is open, and the date and info it shows. */
  datatype Dialog = Dialog(open: bool, selected: Option<Selected>)

  /** `handleDayClick`: format the clicked day as "DD.MM", look it up, and
      open the dialog on it only when the date has info. */
  function DayClick(dialog: Dialog, table: seq<Entry<Info>>, day: nat, month: nat): (r: Dialog)
    ensures Lookup(table, Dates.FormatDate(day, month)).None? ==> r == dialog
    ensures Lookup(table, Dates.FormatDate(day, month)).Some? ==>
      r.open && r.selected == Some(Selected(Dates.FormatDate(day, month), Lookup(table, Dates.FormatDate(day, month)).value))
  {
    var date := Dates.FormatDate(day, month);
    match Lookup(table, date)
    case None => dialog
    case Some(info) => Dialog(true, Some(Selected(date, info)))
  }

  /** Clicking a day on a closed dialog opens it exactly when that day's
      "DD.MM" key is an entry date, showing that date's info. */
  lemma ClickOpens(l: Ledger, dialog: Dialog, day: nat, month: nat)
    requires !dialog.open
    ensures DayClick(dialog, Collect(Pairs(l)), day, month).open <==> Dates.FormatDate(day, month) in EntryDates(Pairs(l))
  {
    CollectKeys(Pairs(l));
  }
}
