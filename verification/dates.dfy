/** Year-less "DD.MM" dates. Every view orders them by the same rule: split on
    '.', read day and month with `Number`, then compare month first and day
    second. There is no year, so December sorts after January of the next
    year; the model keeps that. */
module Dates {
  import opened JsNumber
  import Text
  import Sorting

  datatype DayMonth = DayMonth(day: Num, month: Num)

  /** `const [day, month] = date.split('.').map(Number)`. */
  function ParseDate(date: string): (dm: DayMonth)
    ensures '.' !in date ==> dm.month == NaN
  {
    var pieces := Text.Split(date, '.');
    DayMonth(ParseNumber(pieces[0]), if |pieces| > 1 then ParseNumber(pieces[1]) else NaN)
  }

  /** A date whose day and month both read as numbers; the comparator is a
      consistent ordering only on such dates. */
  predicate ValidDate(date: string) {
    var dm := ParseDate(date);
    dm.day.Finite? && dm.month.Finite?
  }

  predicate AllValid(dates: seq<string>) {
    forall d :: d in dates ==> ValidDate(d)
  }

  /** A two-digit zero-padded number, as `String(n).padStart(2, '0')`. */
  function Pad2(n: nat): (s: string)
    ensures AllDigits(s) && DigitsValue(s) == n
    ensures n < 100 ==> |s| == 2
  {
    var digits := NatToString(n);
    NatToStringRoundTrip(n);
    if |digits| >= 2 then digits
    else
      assert n < 10;
      LeadingZero(digits);
      assert Text.PadStart(digits, 2, '0') == "0" + digits;
      Text.PadStart(digits, 2, '0')
  }

  /** The "DD.MM" key of a calendar day: zero-padded day, '.', zero-padded month. */
  function FormatDate(day: nat, month: nat): (date: string)
    ensures day < 100 && month < 100 ==> |date| == 5 && date[2] == '.'
  {
    Pad2(day) + "." + Pad2(month)
  }

  /** Reading a formatted date back gives the day and month it was built from. */
  lemma FormatParse(day: nat, month: nat)
    ensures ParseDate(FormatDate(day, month)) == DayMonth(Finite(day as real), Finite(month as real))
    ensures ValidDate(FormatDate(day, month))
  {
    var a := Pad2(day);
    var b := Pad2(month);
    assert '.' !in a && '.' !in b;
    assert Text.Join([a, b], '.') == FormatDate(day, month);
    Text.SplitJoin([a, b], '.');
  }

  /** The source's descending comparator `monthB - monthA || dayB - dayA`:
      negative when `a` sorts first. */
  function CompareDesc(a: string, b: string): Num {
    var pa := ParseDate(a);
    var pb := ParseDate(b);
    var byMonth := Sub(pb.month, pa.month);
    if Truthy(byMonth) then byMonth else Sub(pb.day, pa.day)
  }

  /** The ascending comparator of the weight chart `(monthA - monthB) || (dayA - dayB)`. */
  function CompareAsc(a: string, b: string): Num {
    var pa := ParseDate(a);
    var pb := ParseDate(b);
    var byMonth := Sub(pa.month, pb.month);
    if Truthy(byMonth) then byMonth else Sub(pa.day, pb.day)
  }

  /** `a` is at least as recent as `b`: a later month, or the same month and
      a day that is not earlier. Only valid dates are compared. */
  predicate AtLeastAsRecent(a: string, b: string) {
    var pa := ParseDate(a);
    var pb := ParseDate(b);
    && ValidDate(a) && ValidDate(b)
    && (pa.month.v > pb.month.v || (pa.month.v == pb.month.v && pa.day.v >= pb.day.v))
  }

  /** The descending comparator puts `a` no later than `b` exactly when `a` is
      at least as recent. */
  lemma CompareDescMeaning(a: string, b: string)
    requires ValidDate(a) && ValidDate(b)
    ensures CompareDesc(a, b).Finite?
    ensures CompareDesc(a, b).v <= 0.0 <==> AtLeastAsRecent(a, b)
  {
  }

  /** The ascending comparator puts `a` no later than `b` exactly when `b` is
      at least as recent. */
  lemma CompareAscMeaning(a: string, b: string)
    requires ValidDate(a) && ValidDate(b)
    ensures CompareAsc(a, b).Finite?
    ensures CompareAsc(a, b).v <= 0.0 <==> AtLeastAsRecent(b, a)
  {
  }

  /** On valid dates the recency relation is total and transitive. */
  lemma RecencyTotalPreorder(a: string, b: string, c: string)
    requires ValidDate(a) && ValidDate(b) && ValidDate(c)
    ensures AtLeastAsRecent(a, b) || AtLeastAsRecent(b, a)
    ensures AtLeastAsRecent(a, b) && AtLeastAsRecent(b, c) ==> AtLeastAsRecent(a, c)
  {
  }

  /** "15.06" is more recent than "01.03": the higher month wins whatever the day. */
  lemma MonthBeatsDay()
    ensures AtLeastAsRecent(FormatDate(15, 6), FormatDate(1, 3))
    ensures !AtLeastAsRecent(FormatDate(1, 3), FormatDate(15, 6))
  {
    FormatParse(15, 6);
    FormatParse(1, 3);
  }

  lemma ValidNotEmpty(d: string)
    requires ValidDate(d)
    ensures d != ""
  {
  }

  /** The order `sort` is asked for by the descending comparator: `a` may
      stay before `b` unless the comparator returns a positive number (a NaN
      result counts as equal). */
  predicate DescBefore(a: string, b: string) {
    var c := CompareDesc(a, b);
    !(c.Finite? && c.v > 0.0)
  }

  /** The same for the ascending comparator. */
  predicate AscBefore(a: string, b: string) {
    var c := CompareAsc(a, b);
    !(c.Finite? && c.v > 0.0)
  }

  lemma DescBeforeMeaning(a: string, b: string)
    requires ValidDate(a) && ValidDate(b)
    ensures DescBefore(a, b) <==> AtLeastAsRecent(a, b)
  {
    CompareDescMeaning(a, b);
  }

  lemma AscBeforeMeaning(a: string, b: string)
    requires ValidDate(a) && ValidDate(b)
    ensures AscBefore(a, b) <==> AtLeastAsRecent(b, a)
  {
    CompareAscMeaning(a, b);
  }

  /** On valid dates both comparators ask for a total preorder. */
  lemma DescTotalPreorder(s: seq<string>)
    requires AllValid(s)
    ensures Sorting.TotalPreorderOn(s, DescBefore)
  {
    forall a, b | a in s && b in s ensures DescBefore(a, b) || DescBefore(b, a) {
      DescBeforeMeaning(a, b);
      DescBeforeMeaning(b, a);
      RecencyTotalPreorder(a, b, a);
    }
    forall a, b, c | a in s && b in s && c in s && DescBefore(a, b) && DescBefore(b, c)
      ensures DescBefore(a, c)
    {
      DescBeforeMeaning(a, b);
      DescBeforeMeaning(b, c);
      DescBeforeMeaning(a, c);
      RecencyTotalPreorder(a, b, c);
    }
  }

  lemma AscTotalPreorder(s: seq<string>)
    requires AllValid(s)
    ensures Sorting.TotalPreorderOn(s, AscBefore)
  {
    forall a, b | a in s && b in s ensures AscBefore(a, b) || AscBefore(b, a) {
      AscBeforeMeaning(a, b);
      AscBeforeMeaning(b, a);
      RecencyTotalPreorder(a, b, a);
    }
    forall a, b, c | a in s && b in s && c in s && AscBefore(a, b) && AscBefore(b, c)
      ensures AscBefore(a, c)
    {
      AscBeforeMeaning(a, b);
      AscBeforeMeaning(b, c);
      AscBeforeMeaning(a, c);
      RecencyTotalPreorder(c, b, a);
    }
  }

  /** `dates.sort(descending comparator)` on valid dates: a permutation, most
      recent first. */
  lemma SortDesc(dates: seq<string>)
    requires AllValid(dates)
    ensures multiset(Sorting.SortBy(dates, DescBefore)) == multiset(dates)
    ensures forall i, j :: 0 <= i < j < |dates| ==> AtLeastAsRecent(Sorting.SortBy(dates, DescBefore)[i], Sorting.SortBy(dates, DescBefore)[j])
  {
    var r := Sorting.SortBy(dates, DescBefore);
    DescTotalPreorder(dates);
    Sorting.SortBySorted(dates, DescBefore);
    forall i, j | 0 <= i < j < |dates| ensures AtLeastAsRecent(r[i], r[j]) {
      Sorting.InElements(r[i], dates, r);
      Sorting.InElements(r[j], dates, r);
      DescBeforeMeaning(r[i], r[j]);
    }
  }

  /** `dates.sort(ascending comparator)` on valid dates: a permutation, most
      recent last. */
  lemma SortAsc(dates: seq<string>)
    requires AllValid(dates)
    ensures multiset(Sorting.SortBy(dates, AscBefore)) == multiset(dates)
    ensures forall i, j :: 0 <= i < j < |dates| ==> AtLeastAsRecent(Sorting.SortBy(dates, AscBefore)[j], Sorting.SortBy(dates, AscBefore)[i])
  {
    var r := Sorting.SortBy(dates, AscBefore);
    AscTotalPreorder(dates);
    Sorting.SortBySorted(dates, AscBefore);
    forall i, j | 0 <= i < j < |dates| ensures AtLeastAsRecent(r[j], r[i]) {
      Sorting.InElements(r[i], dates, r);
      Sorting.InElements(r[j], dates, r);
      AscBeforeMeaning(r[i], r[j]);
    }
  }
}
