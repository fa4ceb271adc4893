/** The history screen's date-grouped view. Ledger entries are grouped under
    their date, except that an exercise a custom-workout template lists on
    the same date is left out; the template's own snapshot of that date is
    appended instead. Also here: the day statistics and the "last performed"
    date of each template. */
module HistoryView {
  import opened Wrappers
  import opened JsNumber
  import opened Ledger
  import opened Views
  import Aggregator
  import Dates
  import Sorting
  import Sums

  /** One exercise under a date: its name, its (normalised) sets and their volume. */
  datatype Item = Item(exerciseName: string, sets: seq<RawSet>, volume: Num)

  /** A stored custom workout: a name and a snapshot of one date's items. */
  datatype Template = Template(name: string, date: string, exercises: seq<Item>)

  predicate HasExercise(items: seq<Item>, e: string) {
    exists x :: x in items && x.exerciseName == e
  }

  /** Some template dated `d` lists exercise `e`. */
  predicate Covers(ts: seq<Template>, d: string, e: string) {
    exists i :: 0 <= i < |ts| && ts[i].date == d && HasExercise(ts[i].exercises, e)
  }

  predicate HasDate(ts: seq<Template>, d: string) {
    exists i :: 0 <= i < |ts| && ts[i].date == d
  }

  // ---------------------------------------------------------------------------
  // The lookup tables built from the templates

  function ExerciseNames(xs: seq<Item>): (r: set<string>)
    ensures forall e :: e in r <==> HasExercise(xs, e)
  {
    set x | x in xs :: x.exerciseName
  }

  /** `exercisesInCustomWorkouts`: for each template date, the set of
      exercise names listed by the templates of that date. */
  function CoverageIndex(ts: seq<Template>): map<string, set<string>> {
    if |ts| == 0 then map[]
    else
      var m := CoverageIndex(ts[..|ts| - 1]);
      var t := ts[|ts| - 1];
      m[t.date := (if t.date in m then m[t.date] else {}) + ExerciseNames(t.exercises)]
  }

  /** `exercisesInCustomWorkouts[date]?.has(name)`. */
  predicate IsCovered(index: map<string, set<string>>, d: string, e: string) {
    d in index && e in index[d]
  }

  /** The index answers exactly the question "does some template dated `d`
      list `e`", and has a key for exactly the template dates. */
  lemma {:induction false} CoverageIndexMeaning(ts: seq<Template>, d: string, e: string)
    ensures IsCovered(CoverageIndex(ts), d, e) <==> Covers(ts, d, e)
    ensures d in CoverageIndex(ts) <==> HasDate(ts, d)
  {
    if |ts| > 0 {
      var init := ts[..|ts| - 1];
      var t := ts[|ts| - 1];
      CoverageIndexMeaning(init, d, e);
      if Covers(init, d, e) {
        var i :| 0 <= i < |init| && init[i].date == d && HasExercise(init[i].exercises, e);
        assert ts[i] == init[i];
      }
      if Covers(ts, d, e) {
        var i :| 0 <= i < |ts| && ts[i].date == d && HasExercise(ts[i].exercises, e);
        if i < |init| {
          assert init[i] == ts[i];
        }
      }
      if HasDate(init, d) {
        var i :| 0 <= i < |init| && init[i].date == d;
        assert ts[i] == init[i];
      }
      if HasDate(ts, d) {
        var i :| 0 <= i < |ts| && ts[i].date == d;
        if i < |init| {
          assert init[i] == ts[i];
        }
      }
    }
  }

  /** `customWorkoutsByDate`: each template date mapped to a template name;
      a later template overwrites an earlier one of the same date. */
  function NameByDate(ts: seq<Template>): map<string, string> {
    if |ts| == 0 then map[]
    else NameByDate(ts[..|ts| - 1])[ts[|ts| - 1].date := ts[|ts| - 1].name]
  }

  /** The name shown for a date is that of the last template with that date. */
  lemma {:induction false} NameByDateMeaning(ts: seq<Template>, d: string)
    ensures d in NameByDate(ts) <==> HasDate(ts, d)
    ensures d in NameByDate(ts) ==>
      exists i :: 0 <= i < |ts| && ts[i].date == d && NameByDate(ts)[d] == ts[i].name
        && forall j :: i < j < |ts| ==> ts[j].date != d
  {
    if |ts| > 0 {
      var init := ts[..|ts| - 1];
      NameByDateMeaning(init, d);
      if HasDate(init, d) {
        var i :| 0 <= i < |init| && init[i].date == d;
        assert ts[i] == init[i];
      }
      if HasDate(ts, d) && ts[|ts| - 1].date != d {
        var i :| 0 <= i < |ts| && ts[i].date == d;
        assert init[i] == ts[i];
      }
      if d in NameByDate(ts) && ts[|ts| - 1].date != d {
        var i :| 0 <= i < |init| && init[i].date == d && NameByDate(init)[d] == init[i].name
          && forall j :: i < j < |init| ==> init[j].date != d;
        assert ts[i] == init[i];
        forall j | i < j < |ts| ensures ts[j].date != d {
          if j < |init| {
            assert ts[j] == init[j];
          }
        }
      }
    }
  }

  // ---------------------------------------------------------------------------
  // The grouping

  /** A ledger entry as the view shows it: the key as name, the normalised
      sets and their volume. */
  function ToItem(p: Logged): Item {
    var sets := NormalizeAll(p.entry.sets);
    Item(p.name, sets, Aggregator.HistoryCalculateVolume(sets))
  }

  /** One step of the ledger pass: create the date key, then push the entry
      unless a template of that date lists the exercise. */
  function AddLedgerPair(v: View<Item>, p: Logged, index: map<string, set<string>>): View<Item> {
    var t := Touch(v, p.entry.date);
    if IsCovered(index, p.entry.date, p.name) then t
    else Push(t, p.entry.date, ToItem(p))
  }

  function AddLedger(v: View<Item>, ps: seq<Logged>, index: map<string, set<string>>): View<Item>
    decreases |ps|
  {
    if |ps| == 0 then v
    else AddLedger(AddLedgerPair(v, ps[0], index), ps[1..], index)
  }

  /** The template pass: each template's snapshot is appended under its date. */
  function AddTemplates(v: View<Item>, ts: seq<Template>): View<Item>
    decreases |ts|
  {
    if |ts| == 0 then v
    else AddTemplates(PushAll(v, ts[0].date, ts[0].exercises), ts[1..])
  }

  datatype Grouped = Grouped(workouts: View<Item>, customWorkoutsByDate: map<string, string>)

  /** `groupWorkoutsByDate(ledger)` with the stored templates `ts`. */
  function GroupWorkoutsByDate(l: Ledger, ts: seq<Template>): (g: Grouped)
    ensures Valid(g.workouts)
    ensures g.customWorkoutsByDate == NameByDate(ts)
  {
    var v := AddLedger(Empty(), Pairs(l), CoverageIndex(ts));
    AddLedgerValid(Empty(), Pairs(l), CoverageIndex(ts));
    AddTemplatesValid(v, ts);
    Grouped(AddTemplates(v, ts), NameByDate(ts))
  }

  lemma {:induction false} AddLedgerValid(v: View<Item>, ps: seq<Logged>, index: map<string, set<string>>)
    requires Valid(v)
    ensures Valid(AddLedger(v, ps, index))
    decreases |ps|
  {
    if |ps| > 0 {
      var p := ps[0];
      TouchValid(v, p.entry.date);
      if !IsCovered(index, p.entry.date, p.name) {
        PushValid(Touch(v, p.entry.date), p.entry.date, ToItem(p));
      }
      AddLedgerValid(AddLedgerPair(v, p, index), ps[1..], index);
    }
  }

  lemma {:induction false} AddTemplatesValid(v: View<Item>, ts: seq<Template>)
    requires Valid(v)
    ensures Valid(AddTemplates(v, ts))
    decreases |ts|
  {
    if |ts| > 0 {
      PushAllValid(v, ts[0].date, ts[0].exercises);
      AddTemplatesValid(PushAll(v, ts[0].date, ts[0].exercises), ts[1..]);
    }
  }

  // ---------------------------------------------------------------------------
  // What the grouping holds, stated without the passes

  /** The ledger items dated `d` that no template of date `d` covers, in walk order. */
  function LedgerItemsAt(ps: seq<Logged>, ts: seq<Template>, d: string): seq<Item> {
    if |ps| == 0 then []
    else
      (if ps[0].entry.date == d && !Covers(ts, d, ps[0].name) then [ToItem(ps[0])] else [])
      + LedgerItemsAt(ps[1..], ts, d)
  }

  /** The snapshots of the templates dated `d`, one after another. */
  function TemplateItemsAt(ts: seq<Template>, d: string): seq<Item> {
    if |ts| == 0 then []
    else (if ts[0].date == d then ts[0].exercises else []) + TemplateItemsAt(ts[1..], d)
  }

  lemma {:induction false} AddLedgerAt(v: View<Item>, ps: seq<Logged>, ts: seq<Template>, d: string)
    ensures At(AddLedger(v, ps, CoverageIndex(ts)), d) == At(v, d) + LedgerItemsAt(ps, ts, d)
    decreases |ps|
  {
    if |ps| == 0 {
      assert At(v, d) + [] == At(v, d);
    } else {
      var next := AddLedgerPair(v, ps[0], CoverageIndex(ts));
      var head := if ps[0].entry.date == d && !Covers(ts, d, ps[0].name) then [ToItem(ps[0])] else [];
      var rest := LedgerItemsAt(ps[1..], ts, d);
      CoverageIndexMeaning(ts, d, ps[0].name);
      AddLedgerAt(next, ps[1..], ts, d);
      if ps[0].entry.date == d {
        assert At(next, d) == At(v, d) + head;
      } else {
        assert At(next, d) == At(v, d) + head by {
          assert At(v, d) + [] == At(v, d);
        }
      }
      ConcatAssoc(At(v, d), head, rest);
    }
  }

  lemma AddLedgerPairKeys(v: View<Item>, p: Logged, index: map<string, set<string>>)
    ensures AddLedgerPair(v, p, index).groups.Keys == v.groups.Keys + {p.entry.date}
  {
  }

  lemma {:induction false} AddLedgerKeys(v: View<Item>, ps: seq<Logged>, index: map<string, set<string>>)
    ensures AddLedger(v, ps, index).groups.Keys == v.groups.Keys + EntryDates(ps)
    decreases |ps|
  {
    if |ps| > 0 {
      var next := AddLedgerPair(v, ps[0], index);
      AddLedgerKeys(next, ps[1..], index);
      AddLedgerPairKeys(v, ps[0], index);
      EntryDatesCons(ps);
    }
  }

  lemma {:induction false} AddTemplatesAt(v: View<Item>, ts: seq<Template>, d: string)
    ensures At(AddTemplates(v, ts), d) == At(v, d) + TemplateItemsAt(ts, d)
    decreases |ts|
  {
    if |ts| == 0 {
      assert At(v, d) + [] == At(v, d);
    } else {
      var next := PushAll(v, ts[0].date, ts[0].exercises);
      var head := if ts[0].date == d then ts[0].exercises else [];
      var rest := TemplateItemsAt(ts[1..], d);
      AddTemplatesAt(next, ts[1..], d);
      assert At(next, d) == At(v, d) + head;
      ConcatAssoc(At(v, d), head, rest);
    }
  }

  function TemplateDates(ts: seq<Template>): (r: set<string>)
    ensures forall d :: d in r <==> HasDate(ts, d)
  {
    set i | 0 <= i < |ts| :: ts[i].date
  }

  lemma TemplateDatesCons(ts: seq<Template>)
    requires |ts| > 0
    ensures TemplateDates(ts) == {ts[0].date} + TemplateDates(ts[1..])
  {
    forall d | d in TemplateDates(ts) ensures d in {ts[0].date} + TemplateDates(ts[1..]) {
      var i :| 0 <= i < |ts| && ts[i].date == d;
      if i > 0 {
        assert ts[1..][i - 1] == ts[i];
      }
    }
    forall d | d in TemplateDates(ts[1..]) ensures d in TemplateDates(ts) {
      var i :| 0 <= i < |ts[1..]| && ts[1..][i].date == d;
      assert ts[i + 1] == ts[1..][i];
    }
  }

  lemma {:induction false} AddTemplatesKeys(v: View<Item>, ts: seq<Template>)
    ensures AddTemplates(v, ts).groups.Keys == v.groups.Keys + TemplateDates(ts)
    decreases |ts|
  {
    if |ts| > 0 {
      AddTemplatesKeys(PushAll(v, ts[0].date, ts[0].exercises), ts[1..]);
      TemplateDatesCons(ts);
    }
  }

  /** Under each date the view holds the uncovered ledger items dated `d`,
      then the snapshots of the templates dated `d`. */
  lemma GroupedAt(l: Ledger, ts: seq<Template>, d: string)
    ensures At(GroupWorkoutsByDate(l, ts).workouts, d) == LedgerItemsAt(Pairs(l), ts, d) + TemplateItemsAt(ts, d)
  {
    var e: View<Item> := Empty();
    var v := AddLedger(e, Pairs(l), CoverageIndex(ts));
    var items := LedgerItemsAt(Pairs(l), ts, d);
    AddLedgerAt(e, Pairs(l), ts, d);
    assert At(v, d) == items by {
      assert At(e, d) == [];
      assert [] + items == items;
    }
    AddTemplatesAt(v, ts, d);
  }

  /** Every ledger entry date is a key, even when all its entries were left
      out, and so is every template date; there are no other keys. */
  lemma GroupedKeys(l: Ledger, ts: seq<Template>, d: string)
    ensures d in GroupWorkoutsByDate(l, ts).workouts.keys <==> d in EntryDates(Pairs(l)) || HasDate(ts, d)
  {
    var v := AddLedger(Empty(), Pairs(l), CoverageIndex(ts));
    var g := GroupWorkoutsByDate(l, ts).workouts;
    AddLedgerKeys(Empty(), Pairs(l), CoverageIndex(ts));
    AddTemplatesKeys(v, ts);
    assert d in g.groups <==> d in g.keys;
  }

  /** The deduplication: the ledger part under `d` holds exactly the entries
      dated `d` whose exercise no template of that date lists. */
  lemma {:induction false} LedgerItemsDedup(ps: seq<Logged>, ts: seq<Template>, d: string)
    ensures forall x :: x in LedgerItemsAt(ps, ts, d) ==>
      !Covers(ts, d, x.exerciseName) && exists i :: 0 <= i < |ps| && ps[i].entry.date == d && x == ToItem(ps[i])
    ensures forall i :: 0 <= i < |ps| && ps[i].entry.date == d && !Covers(ts, d, ps[i].name) ==>
      ToItem(ps[i]) in LedgerItemsAt(ps, ts, d)
  {
    if |ps| > 0 {
      LedgerItemsDedup(ps[1..], ts, d);
      var rest := LedgerItemsAt(ps[1..], ts, d);
      forall x | x in LedgerItemsAt(ps, ts, d)
        ensures !Covers(ts, d, x.exerciseName) && exists i :: 0 <= i < |ps| && ps[i].entry.date == d && x == ToItem(ps[i])
      {
        if x in rest {
          var i :| 0 <= i < |ps[1..]| && ps[1..][i].entry.date == d && x == ToItem(ps[1..][i]);
          assert ps[i + 1] == ps[1..][i];
        }
      }
      forall i | 0 <= i < |ps| && ps[i].entry.date == d && !Covers(ts, d, ps[i].name)
        ensures ToItem(ps[i]) in LedgerItemsAt(ps, ts, d)
      {
        if i > 0 {
          assert ps[1..][i - 1] == ps[i];
        }
      }
    }
  }

  /** Each template dated `d` has its whole snapshot, unchanged, under `d`. */
  lemma {:induction false} TemplateItemsContain(ts: seq<Template>, d: string, i: nat)
    requires i < |ts| && ts[i].date == d
    ensures forall x :: x in ts[i].exercises ==> x in TemplateItemsAt(ts, d)
  {
    if i > 0 {
      assert ts[1..][i - 1] == ts[i];
      TemplateItemsContain(ts[1..], d, i - 1);
    }
  }

  /** Each grouped item either comes from an uncovered ledger entry of that
      date or from the snapshot of a template of that date, never from a
      covered ledger entry. */
  lemma GroupedDedup(l: Ledger, ts: seq<Template>, d: string, e: string)
    requires Covers(ts, d, e)
    ensures forall x :: x in LedgerItemsAt(Pairs(l), ts, d) ==> x.exerciseName != e
    ensures HasExercise(At(GroupWorkoutsByDate(l, ts).workouts, d), e)
  {
    LedgerItemsDedup(Pairs(l), ts, d);
    GroupedAt(l, ts, d);
    var i :| 0 <= i < |ts| && ts[i].date == d && HasExercise(ts[i].exercises, e);
    TemplateItemsContain(ts, d, i);
  }

  // ---------------------------------------------------------------------------
  // "Last performed"

  /** The keys whose items contain exercise `e`, in key order. */
  function Performed(keys: seq<string>, v: View<Item>, e: string): (r: seq<string>)
    ensures forall k :: k in r <==> k in keys && HasExercise(At(v, k), e)
  {
    if |keys| == 0 then []
    else (if HasExercise(At(v, keys[0]), e) then [keys[0]] else []) + Performed(keys[1..], v, e)
  }

  /** Some date of the view holds at least one item. */
  predicate HasItems(v: View<Item>) {
    exists k :: k in v.keys && |At(v, k)| > 0
  }

  /** `lastPerformed`: the most recent date whose items contain the template's
      first exercise, or the template's own date when there is none (or when
      that date is the empty string). The first exercise is read inside the
      `.some` callback, which runs only on a date that holds items, so None,
      the TypeError, arises for a template without exercises exactly when
      some date holds an item. */
  function LastPerformed(t: Template, v: View<Item>): (r: Option<string>)
    ensures r.None? <==> |t.exercises| == 0 && HasItems(v)
    ensures r.Some? && |t.exercises| == 0 ==> r.value == t.date
    ensures r.Some? && |t.exercises| > 0 ==>
      r.value == t.date || (r.value in v.keys && HasExercise(At(v, r.value), t.exercises[0].exerciseName))
  {
    if |t.exercises| == 0 then
      if HasItems(v) then None else Some(t.date)
    else
      var performed := Performed(v.keys, v, t.exercises[0].exerciseName);
      var dates := Sorting.SortBy(performed, Dates.DescBefore);
      if |dates| > 0 && dates[0] != "" then
        Sorting.InElements(dates[0], performed, dates);
        Some(dates[0])
      else Some(t.date)
  }

  /** On valid date keys, when some date contains the first exercise the
      result is such a date, and it is at least as recent as every other
      such date. The template's own date is used only when none exists. */
  lemma LastPerformedLatest(t: Template, v: View<Item>, d: string)
    requires |t.exercises| > 0
    requires Dates.AllValid(v.keys)
    requires d in v.keys && HasExercise(At(v, d), t.exercises[0].exerciseName)
    ensures LastPerformed(t, v).value in v.keys
    ensures HasExercise(At(v, LastPerformed(t, v).value), t.exercises[0].exerciseName)
    ensures Dates.AtLeastAsRecent(LastPerformed(t, v).value, d)
  {
    var e := t.exercises[0].exerciseName;
    var performed := Performed(v.keys, v, e);
    assert Dates.AllValid(performed);
    Dates.DescTotalPreorder(performed);
    Sorting.FirstComesFirst(performed, Dates.DescBefore);
    var dates := Sorting.SortBy(performed, Dates.DescBefore);
    Dates.ValidNotEmpty(dates[0]);
    Dates.DescBeforeMeaning(dates[0], d);
  }

  /** Since a template's own snapshot is in the view, its last-performed date
      is never older than the date it was saved from. */
  lemma LastPerformedNeverOlder(l: Ledger, ts: seq<Template>, i: nat)
    requires i < |ts| && |ts[i].exercises| > 0
    requires Dates.AllValid(GroupWorkoutsByDate(l, ts).workouts.keys)
    ensures Dates.AtLeastAsRecent(LastPerformed(ts[i], GroupWorkoutsByDate(l, ts).workouts).value, ts[i].date)
  {
    TemplateInView(l, ts, i);
    LastPerformedLatest(ts[i], GroupWorkoutsByDate(l, ts).workouts, ts[i].date);
  }

  /** A template's date is a key of the view and its snapshot is there. */
  lemma TemplateInView(l: Ledger, ts: seq<Template>, i: nat)
    requires i < |ts|
    ensures ts[i].date in GroupWorkoutsByDate(l, ts).workouts.keys
    ensures forall x :: x in ts[i].exercises ==> x in At(GroupWorkoutsByDate(l, ts).workouts, ts[i].date)
  {
    var d := ts[i].date;
    GroupedKeys(l, ts, d);
    GroupedAt(l, ts, d);
    TemplateItemsContain(ts, d, i);
  }

  // ---------------------------------------------------------------------------
  // Day statistics

  datatype Stats = Stats(exerciseCount: nat, totalSets: nat, totalWeight: Num)

  /** `calculateDayStats`: a left fold counting items, sets and volume. */
  function DayStats(items: seq<Item>): Stats {
    StatsFrom(Stats(0, 0, Finite(0.0)), items)
  }

  function StatsFrom(acc: Stats, items: seq<Item>): Stats
    decreases |items|
  {
    if |items| == 0 then acc
    else StatsFrom(Stats(acc.exerciseCount + 1, acc.totalSets + |items[0].sets|, Add(acc.totalWeight, items[0].volume)), items[1..])
  }

  function SetCount(items: seq<Item>): nat {
    if |items| == 0 then 0 else SetCount(items[..|items| - 1]) + |items[|items| - 1].sets|
  }

  function ItemVolume(x: Item): Num {
    x.volume
  }

  function TotalVolume(items: seq<Item>): Num {
    Sums.Sum(items, ItemVolume)
  }

  lemma {:induction false} StatsFromMeaning(done: seq<Item>, items: seq<Item>)
    ensures StatsFrom(Stats(|done|, SetCount(done), TotalVolume(done)), items)
         == Stats(|done + items|, SetCount(done + items), TotalVolume(done + items))
    decreases |items|
  {
    if |items| > 0 {
      var next := done + [items[0]];
      assert next[..|next| - 1] == done;
      assert next + items[1..] == done + items;
      Sums.SumAppend(done, items[0], ItemVolume);
      StatsFromMeaning(next, items[1..]);
    } else {
      assert done + items == done;
    }
  }

  /** The statistics count the items, add up their set counts and add up
      their volumes. */
  lemma DayStatsMeaning(items: seq<Item>)
    ensures DayStats(items) == Stats(|items|, SetCount(items), TotalVolume(items))
  {
    StatsFromMeaning([], items);
    assert [] + items == items;
  }
}
