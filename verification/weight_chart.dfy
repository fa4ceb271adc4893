/** The "Weight Lifted" bar chart: the weight of every ledger entry added up
    per date, the dates sorted oldest first by the month/day rule, and the
    last six kept. */
module WeightChart {
  import opened JsNumber
  import opened Ledger
  import opened Assoc
  import opened Aggregator
  import Sums
  import Dates
  import Sorting

  /** The update one entry of weight `w` makes to its date's total. */
  function Accumulate(w: Num): Num -> Num {
    t => Add(OrZero(t), w)
  }

  /** `weightByDate` after the walk over `ps`: each entry does
      `weightByDate[date] = (weightByDate[date] || 0) + workoutWeight`. */
  function WeightByDate(ps: seq<Logged>): seq<Entry<Num>> {
    if |ps| == 0 then []
    else
      var last := ps[|ps| - 1];
      Upsert(WeightByDate(ps[..|ps| - 1]), last.entry.date, Finite(0.0), Accumulate(EntryWeight(last)))
  }

  /** The table holds each entry date once, and nothing else. */
  lemma {:induction false} TableKeys(ps: seq<Logged>)
    ensures Distinct(WeightByDate(ps))
    ensures Keys(WeightByDate(ps)) == EntryDates(ps)
  {
    if |ps| > 0 {
      var init := ps[..|ps| - 1];
      var last := ps[|ps| - 1];
      TableKeys(init);
      UpsertKeys(WeightByDate(init), last.entry.date, Finite(0.0), Accumulate(EntryWeight(last)));
      UpsertDistinct(WeightByDate(init), last.entry.date, Finite(0.0), Accumulate(EntryWeight(last)));
      EntryDatesSnoc(ps);
    }
  }

  /** A date's total is the running total of the weights of that date's
      entries, in walk order. */
  lemma {:induction false} TableTotal(ps: seq<Logged>, d: string)
    ensures Lookup(WeightByDate(ps), d).GetOr(Finite(0.0)) == Sums.Chain(OnDate(ps, d), EntryWeight)
  {
    if |ps| > 0 {
      var init := ps[..|ps| - 1];
      var last := ps[|ps| - 1];
      var prev := Lookup(WeightByDate(init), d);
      TableTotal(init, d);
      LookupUpsert(WeightByDate(init), last.entry.date, Finite(0.0), Accumulate(EntryWeight(last)), d);
      if last.entry.date == d {
        var before := OnDate(init, d);
        assert OnDate(ps, d) == before + [last];
        assert (before + [last])[..|before|] == before;
        calc {
          Lookup(WeightByDate(ps), d).GetOr(Finite(0.0));
          Accumulate(EntryWeight(last))(prev.GetOr(Finite(0.0)));
          Add(OrZero(Sums.Chain(before, EntryWeight)), EntryWeight(last));
          Sums.Chain(before + [last], EntryWeight);
        }
      } else {
        assert OnDate(ps, d) == OnDate(init, d);
      }
    }
  }

  /** Every point of the table is an entry date with its running total. */
  lemma TablePoint(ps: seq<Logged>, x: Entry<Num>)
    requires x in WeightByDate(ps)
    ensures x.key in EntryDates(ps)
    ensures x.value == Sums.Chain(OnDate(ps, x.key), EntryWeight)
  {
    var es := WeightByDate(ps);
    TableKeys(ps);
    var k :| 0 <= k < |es| && es[k] == x;
    LookupAt(es, k);
    TableTotal(ps, x.key);
  }

  /** With well-formed sets a date's total is the sum of its entries'
      volumes, whichever copy of the volume computation is used. */
  lemma TotalIsVolume(ps: seq<Logged>, d: string)
    requires forall p :: p in OnDate(ps, d) ==> EntryVolume(p).Finite?
    ensures Lookup(WeightByDate(ps), d).GetOr(Finite(0.0)) ==
      Sums.Sum(OnDate(ps, d), EntryVolume)
  {
    var on := OnDate(ps, d);
    TableTotal(ps, d);
    forall i | 0 <= i < |on| ensures EntryWeight(on[i]).Finite? {
      InlineCopyMatches(on[i].entry.sets);
      assert on[i] in on;
    }
    Sums.ChainIsSum(on, EntryWeight);
    EntrySumsMatch(on);
  }

  /** The chart's comparator `(monthA - monthB) || (dayA - dayB)` on the points. */
  predicate PointBefore(a: Entry<Num>, b: Entry<Num>) {
    Dates.AscBefore(a.key, b.key)
  }

  lemma PointsPreorder(es: seq<Entry<Num>>)
    requires forall x :: x in es ==> Dates.ValidDate(x.key)
    ensures Sorting.TotalPreorderOn(es, PointBefore)
  {
    forall a, b | a in es && b in es ensures PointBefore(a, b) || PointBefore(b, a) {
      Dates.AscBeforeMeaning(a.key, b.key);
      Dates.AscBeforeMeaning(b.key, a.key);
      Dates.RecencyTotalPreorder(a.key, b.key, a.key);
    }
    forall a, b, c | a in es && b in es && c in es && PointBefore(a, b) && PointBefore(b, c)
      ensures PointBefore(a, c)
    {
      Dates.AscBeforeMeaning(a.key, b.key);
      Dates.AscBeforeMeaning(b.key, c.key);
      Dates.AscBeforeMeaning(a.key, c.key);
      Dates.RecencyTotalPreorder(c.key, b.key, a.key);
    }
  }

  /** Each point's date is at least as recent as every earlier point's. */
  predicate OldestFirst(r: seq<Entry<Num>>) {
    forall i, j :: 0 <= i < j < |r| ==> Dates.AtLeastAsRecent(r[j].key, r[i].key)
  }

  /** The sorted table: the same points, each date once, oldest first. */
  lemma SortedPoints(es: seq<Entry<Num>>)
    requires Distinct(es)
    requires forall x :: x in es ==> Dates.ValidDate(x.key)
    ensures forall x :: x in Sorting.SortBy(es, PointBefore) <==> x in es
    ensures Distinct(Sorting.SortBy(es, PointBefore))
    ensures OldestFirst(Sorting.SortBy(es, PointBefore))
  {
    var r := Sorting.SortBy(es, PointBefore);
    PointsPreorder(es);
    Sorting.SortBySorted(es, PointBefore);
    forall x ensures x in r <==> x in es {
      Sorting.InElements(x, es, r);
    }
    forall i, j | 0 <= i < j < |r| ensures r[i].key != r[j].key && Dates.AtLeastAsRecent(r[j].key, r[i].key) {
      assert r[i] in es && r[j] in es;
      Dates.AscBeforeMeaning(r[i].key, r[j].key);
      if r[i].key == r[j].key {
        // Keys are distinct in `es`, so equal keys mean the same point twice.
        var a :| 0 <= a < |es| && es[a] == r[i];
        var b :| 0 <= b < |es| && es[b] == r[j];
        assert a == b;
        Sorting.DistinctPermutation(es, r, i, j);
      }
    }
  }

  /** `slice(-6)`: the last six elements, or all of them when there are fewer. */
  function LastSix<T>(s: seq<T>): (r: seq<T>)
    ensures |r| == if |s| > 6 then 6 else |s|
    ensures forall i :: 0 <= i < |r| ==> r[i] == s[|s| - |r| + i]
  {
    if |s| > 6 then s[|s| - 6..] else s
  }

  /** `chartData`: the per-date totals, oldest first, the latest six. */
  function ChartData(l: Ledger): seq<Entry<Num>> {
    Chart(Pairs(l))
  }

  function Chart(ps: seq<Logged>): seq<Entry<Num>> {
    LastSix(Sorting.SortBy(WeightByDate(ps), PointBefore))
  }

  /** The sorted table holds the table's points. */
  lemma SortedTableMembers(ps: seq<Logged>)
    ensures forall x :: x in Sorting.SortBy(WeightByDate(ps), PointBefore) <==> x in WeightByDate(ps)
  {
    var es := WeightByDate(ps);
    forall x ensures x in Sorting.SortBy(es, PointBefore) <==> x in es {
      Sorting.InElements(x, es, Sorting.SortBy(es, PointBefore));
    }
  }

  /** The sorted table on valid dates: its points, each date once, oldest first. */
  lemma SortedTable(ps: seq<Logged>)
    requires forall d :: d in EntryDates(ps) ==> Dates.ValidDate(d)
    ensures Distinct(Sorting.SortBy(WeightByDate(ps), PointBefore))
    ensures OldestFirst(Sorting.SortBy(WeightByDate(ps), PointBefore))
  {
    var es := WeightByDate(ps);
    TableKeys(ps);
    forall x | x in es ensures Dates.ValidDate(x.key) {
      var k :| 0 <= k < |es| && es[k] == x;
      assert x.key in Keys(es);
    }
    SortedPoints(es);
  }

  /** Each bar is an entry date shown once, carrying that date's running
      total, and the bars run oldest to newest. */
  lemma ChartBars(l: Ledger)
    requires forall d :: d in EntryDates(Pairs(l)) ==> Dates.ValidDate(d)
    ensures var c := ChartData(l);
      forall i :: 0 <= i < |c| ==>
        c[i].key in EntryDates(Pairs(l)) && c[i].value == Sums.Chain(OnDate(Pairs(l), c[i].key), EntryWeight)
    ensures var c := ChartData(l);
      forall i, j :: 0 <= i < j < |c| ==> c[i].key != c[j].key && Dates.AtLeastAsRecent(c[j].key, c[i].key)
  {
    BarsOf(Pairs(l));
  }

  lemma BarsOf(ps: seq<Logged>)
    requires forall d :: d in EntryDates(ps) ==> Dates.ValidDate(d)
    ensures var c := Chart(ps);
      forall i :: 0 <= i < |c| ==>
        c[i].key in EntryDates(ps) && c[i].value == Sums.Chain(OnDate(ps, c[i].key), EntryWeight)
    ensures Distinct(Chart(ps)) && OldestFirst(Chart(ps))
  {
    BarValues(ps);
    SortedTable(ps);
    SliceKeepsOrder(Sorting.SortBy(WeightByDate(ps), PointBefore));
  }

  /** Each bar carries its date's running total. */
  lemma BarValues(ps: seq<Logged>)
    ensures var c := Chart(ps);
      forall i :: 0 <= i < |c| ==>
        c[i].key in EntryDates(ps) && c[i].value == Sums.Chain(OnDate(ps, c[i].key), EntryWeight)
  {
    var r := Sorting.SortBy(WeightByDate(ps), PointBefore);
    var c := LastSix(r);
    SortedTableMembers(ps);
    forall i | 0 <= i < |c|
      ensures c[i].key in EntryDates(ps) && c[i].value == Sums.Chain(OnDate(ps, c[i].key), EntryWeight)
    {
      assert c[i] == r[|r| - |c| + i];
      assert c[i] in WeightByDate(ps);
      TablePoint(ps, c[i]);
    }
  }

  lemma SliceKeepsOrder(r: seq<Entry<Num>>)
    requires Distinct(r) && OldestFirst(r)
    ensures Distinct(LastSix(r)) && OldestFirst(LastSix(r))
  {
    var c := LastSix(r);
    assert c == r[|r| - |c|..];
    SuffixOrdered(r, |r| - |c|);
  }

  /** Every suffix of a table without repeated keys, oldest first, is one too. */
  lemma SuffixOrdered(r: seq<Entry<Num>>, k: nat)
    requires k <= |r|
    requires Distinct(r) && OldestFirst(r)
    ensures Distinct(r[k..]) && OldestFirst(r[k..])
  {
    var c := r[k..];
    forall i, j | 0 <= i < j < |c| ensures c[i].key != c[j].key && Dates.AtLeastAsRecent(c[j].key, c[i].key) {
      assert c[i] == r[k + i] && c[j] == r[k + j];
    }
  }

  /** At most six bars; a date is left out only when six bars are shown, all
      of them at least as recent as it: the chart shows the six latest dates. */
  lemma ChartLatest(l: Ledger, d: string)
    requires forall d :: d in EntryDates(Pairs(l)) ==> Dates.ValidDate(d)
    requires d in EntryDates(Pairs(l))
    ensures |ChartData(l)| <= 6
    ensures (forall i :: 0 <= i < |ChartData(l)| ==> ChartData(l)[i].key != d) ==>
      |ChartData(l)| == 6 && forall i :: 0 <= i < 6 ==> Dates.AtLeastAsRecent(ChartData(l)[i].key, d)
  {
    LatestOf(Pairs(l), d);
  }

  lemma LatestOf(ps: seq<Logged>, d: string)
    requires forall d :: d in EntryDates(ps) ==> Dates.ValidDate(d)
    requires d in EntryDates(ps)
    ensures |Chart(ps)| <= 6
    ensures (forall i :: 0 <= i < |Chart(ps)| ==> Chart(ps)[i].key != d) ==>
      |Chart(ps)| == 6 && forall i :: 0 <= i < 6 ==> Dates.AtLeastAsRecent(Chart(ps)[i].key, d)
  {
    var r := Sorting.SortBy(WeightByDate(ps), PointBefore);
    var c := LastSix(r);
    var k := PointOf(ps, d);
    var off := |r| - |c|;
    if k >= off {
      // The point of `d` is among the last |c|: it is shown.
      assert c[k - off] == r[k];
    } else {
      SortedTable(ps);
      DroppedIsOlder(r, k);
    }
  }

  /** The sorted table has a point for each entry date. */
  lemma PointOf(ps: seq<Logged>, d: string) returns (k: nat)
    requires d in EntryDates(ps)
    ensures k < |Sorting.SortBy(WeightByDate(ps), PointBefore)|
    ensures Sorting.SortBy(WeightByDate(ps), PointBefore)[k].key == d
  {
    var es := WeightByDate(ps);
    var r := Sorting.SortBy(es, PointBefore);
    TableKeys(ps);
    SortedTableMembers(ps);
    var f := Find(es, d).value;
    assert es[f] in r;
    k :| 0 <= k < |r| && r[k] == es[f];
  }

  /** A point the slice drops leaves six shown points, all at least as recent. */
  lemma DroppedIsOlder(r: seq<Entry<Num>>, k: nat)
    requires OldestFirst(r) && k < |r| - |LastSix(r)|
    ensures |LastSix(r)| == 6
    ensures forall i :: 0 <= i < 6 ==> Dates.AtLeastAsRecent(LastSix(r)[i].key, r[k].key)
  {
    var c := LastSix(r);
    forall i | 0 <= i < 6 ensures Dates.AtLeastAsRecent(c[i].key, r[k].key) {
      assert c[i] == r[|r| - 6 + i];
    }
  }
}
