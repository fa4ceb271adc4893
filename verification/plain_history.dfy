/** The stand-alone history page: every ledger entry grouped under its date,
    with no template handling, and the dates listed most recent first. */
module PlainHistory {
  import opened Ledger
  import opened Views
  import Dates
  import Sorting

  /** One exercise under a date: the ledger key and the stored sets as they are. */
  datatype Item = Item(exerciseName: string, sets: seq<RawSet>)

  function ToItem(p: Logged): Item {
    Item(p.name, p.entry.sets)
  }

  function Group(v: View<Item>, ps: seq<Logged>): View<Item>
    decreases |ps|
  {
    if |ps| == 0 then v
    else Group(Push(v, ps[0].entry.date, ToItem(ps[0])), ps[1..])
  }

  /** `groupWorkoutsByDate(workouts)` of the history page. */
  function GroupWorkoutsByDate(l: Ledger): (v: View<Item>)
    ensures Valid(v)
  {
    GroupValid(Empty(), Pairs(l));
    Group(Empty(), Pairs(l))
  }

  lemma {:induction false} GroupValid(v: View<Item>, ps: seq<Logged>)
    requires Valid(v)
    ensures Valid(Group(v, ps))
    decreases |ps|
  {
    if |ps| > 0 {
      PushValid(v, ps[0].entry.date, ToItem(ps[0]));
      GroupValid(Push(v, ps[0].entry.date, ToItem(ps[0])), ps[1..]);
    }
  }

  /** The entries dated `d`, in walk order. */
  function ItemsAt(ps: seq<Logged>, d: string): seq<Item> {
    if |ps| == 0 then []
    else (if ps[0].entry.date == d then [ToItem(ps[0])] else []) + ItemsAt(ps[1..], d)
  }

  lemma {:induction false} GroupAt(v: View<Item>, ps: seq<Logged>, d: string)
    ensures At(Group(v, ps), d) == At(v, d) + ItemsAt(ps, d)
    decreases |ps|
  {
    if |ps| == 0 {
      assert At(v, d) + [] == At(v, d);
    } else {
      var next := Push(v, ps[0].entry.date, ToItem(ps[0]));
      var head := if ps[0].entry.date == d then [ToItem(ps[0])] else [];
      GroupAt(next, ps[1..], d);
      if ps[0].entry.date != d {
        assert At(v, d) + head == At(v, d);
      }
      ConcatAssoc(At(v, d), head, ItemsAt(ps[1..], d));
    }
  }

  /** Under each date the page lists exactly the entries of that date, each
      under its key with its sets unchanged, in walk order. */
  lemma GroupedAt(l: Ledger, d: string)
    ensures At(GroupWorkoutsByDate(l), d) == ItemsAt(Pairs(l), d)
  {
    var e: View<Item> := Empty();
    GroupAt(e, Pairs(l), d);
    assert [] + ItemsAt(Pairs(l), d) == ItemsAt(Pairs(l), d);
  }

  lemma {:induction false} GroupSize(v: View<Item>, ps: seq<Logged>)
    requires Valid(v)
    ensures Size(Group(v, ps)) == Size(v) + |ps|
    decreases |ps|
  {
    if |ps| > 0 {
      var next := Push(v, ps[0].entry.date, ToItem(ps[0]));
      PushSize(v, ps[0].entry.date, ToItem(ps[0]));
      PushValid(v, ps[0].entry.date, ToItem(ps[0]));
      GroupSize(next, ps[1..]);
    }
  }

  /** Over all dates the page lists exactly as many items as the ledger has entries. */
  lemma GroupedCount(l: Ledger)
    ensures Size(GroupWorkoutsByDate(l)) == EntryCount(l)
  {
    var e: View<Item> := Empty();
    GroupSize(e, Pairs(l));
  }

  lemma {:induction false} GroupKeys(v: View<Item>, ps: seq<Logged>)
    ensures Group(v, ps).groups.Keys == v.groups.Keys + EntryDates(ps)
    decreases |ps|
  {
    if |ps| > 0 {
      GroupKeys(Push(v, ps[0].entry.date, ToItem(ps[0])), ps[1..]);
      EntryDatesCons(ps);
    }
  }

  /** The keys are exactly the dates of the ledger's entries, each once. */
  lemma GroupedKeys(l: Ledger, d: string)
    ensures d in GroupWorkoutsByDate(l).keys <==> d in EntryDates(Pairs(l))
  {
    var v := GroupWorkoutsByDate(l);
    var e: View<Item> := Empty();
    GroupKeys(e, Pairs(l));
    KeyIndex(v, d);
  }

  /** `sortedDates`: the keys sorted by the descending comparator. */
  function SortedDates(v: View<Item>): seq<string> {
    Sorting.SortBy(v.keys, Dates.DescBefore)
  }

  /** On valid dates the listing holds every key once, most recent first. */
  lemma SortedDatesOrder(l: Ledger)
    requires Dates.AllValid(GroupWorkoutsByDate(l).keys)
    ensures multiset(SortedDates(GroupWorkoutsByDate(l))) == multiset(GroupWorkoutsByDate(l).keys)
    ensures var r := SortedDates(GroupWorkoutsByDate(l));
      forall i, j :: 0 <= i < j < |r| ==> Dates.AtLeastAsRecent(r[i], r[j]) && r[i] != r[j]
  {
    var v := GroupWorkoutsByDate(l);
    var r := SortedDates(v);
    Dates.SortDesc(v.keys);
    forall i, j | 0 <= i < j < |r| ensures r[i] != r[j] {
      Sorting.DistinctPermutation(v.keys, r, i, j);
    }
  }
}
