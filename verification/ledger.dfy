/** The stored workout ledger: for each exercise name, the list of day entries
    logged for it. The source keeps it as a JavaScript object whose key order
    drives every view, so the model keeps it as a sequence of rows, one per
    key, in key order. */
module Ledger {
  import opened Wrappers

  /** One logged set as stored. Old ledgers hold a bare "RxW" string; newer
      ones hold `{value, notes?}`, with `notes` possibly absent. */
  datatype RawSet = Legacy(text: string) | Record(value: string, notes: Option<string>)

  /** `typeof set === 'string' ? set : set.value`. */
  function SetValue(s: RawSet): string {
    match s
    case Legacy(text) => text
    case Record(value, _) => value
  }

  /** The normaliser: a string set `s` becomes `{value: s, notes: ""}`; an
      object set is returned unchanged. */
  function Normalize(s: RawSet): (r: RawSet)
    ensures r.Record?
    ensures SetValue(r) == SetValue(s)
    ensures s.Record? ==> r == s
    ensures s.Legacy? ==> r.notes == Some("")
  {
    match s
    case Legacy(text) => Record(text, Some(""))
    case Record(_, _) => s
  }

  function NormalizeAll(sets: seq<RawSet>): (r: seq<RawSet>)
    ensures |r| == |sets|
    ensures forall i :: 0 <= i < |sets| ==> r[i] == Normalize(sets[i])
  {
    seq(|sets|, i requires 0 <= i < |sets| => Normalize(sets[i]))
  }

  /** Normalising twice is normalising once. */
  lemma NormalizeIdempotent(sets: seq<RawSet>)
    ensures NormalizeAll(NormalizeAll(sets)) == NormalizeAll(sets)
  {
  }

  /** `defaultValues`: the form values in effect when the entry was created;
      None is a NaN form value. */
  datatype Defaults = Defaults(reps: Option<nat>, weight: Option<nat>, weightStep: string)

  /** One exercise's sets for one "DD.MM" date. */
  datatype DayEntry = DayEntry(exerciseName: string, date: string, sets: seq<RawSet>, defaults: Defaults)

  /** One key of the stored object: an exercise name and its entries. */
  datatype Row = Row(name: string, entries: seq<DayEntry>)

  type Ledger = seq<Row>

  /** Object keys are unique. */
  predicate WellKeyed(l: Ledger) {
    forall i, j :: 0 <= i < j < |l| ==> l[i].name != l[j].name
  }

  /** `Object.keys(storedData)`. */
  function Names(l: Ledger): (names: seq<string>)
    ensures |names| == |l|
    ensures forall i :: 0 <= i < |l| ==> names[i] == l[i].name
  {
    if |l| == 0 then [] else [l[0].name] + Names(l[1..])
  }

  /** `storedData[name]`: the entries under `name`, or None when it is not a key. */
  function Get(l: Ledger, name: string): (r: Option<seq<DayEntry>>)
    ensures r.Some? <==> name in Names(l)
    ensures r.Some? ==> exists i :: 0 <= i < |l| && l[i] == Row(name, r.value)
  {
    if |l| == 0 then None
    else if l[0].name == name then Some(l[0].entries)
    else Get(l[1..], name)
  }

  lemma GetAt(l: Ledger, i: nat)
    requires WellKeyed(l) && i < |l|
    ensures Get(l, l[i].name) == Some(l[i].entries)
  {
    if i > 0 {
      assert l[1..][i - 1] == l[i];
      GetAt(l[1..], i - 1);
    }
  }

  /** `storedData[name] = entries`: an existing key keeps its place, a new key
      goes last. */
  function Put(l: Ledger, name: string, entries: seq<DayEntry>): (r: Ledger)
    ensures Get(r, name) == Some(entries)
    ensures forall m :: m != name ==> Get(r, m) == Get(l, m)
  {
    if |l| == 0 then [Row(name, entries)]
    else if l[0].name == name then
      assert ([Row(name, entries)] + l[1..])[1..] == l[1..];
      [Row(name, entries)] + l[1..]
    else
      var rest := Put(l[1..], name, entries);
      assert ([l[0]] + rest)[1..] == rest;
      [l[0]] + rest
  }

  /** An existing key keeps its place; a new key goes last. */
  lemma {:induction false} PutNames(l: Ledger, name: string, entries: seq<DayEntry>)
    ensures Names(Put(l, name, entries)) == if name in Names(l) then Names(l) else Names(l) + [name]
  {
    if |l| > 0 && l[0].name != name {
      var rest := Put(l[1..], name, entries);
      PutNames(l[1..], name, entries);
      assert Put(l, name, entries) == [l[0]] + rest;
      assert Names([l[0]] + rest) == [l[0].name] + Names(rest);
      assert Names(l) == [l[0].name] + Names(l[1..]);
      assert name in Names(l) <==> name in Names(l[1..]);
    }
  }

  lemma PutWellKeyed(l: Ledger, name: string, entries: seq<DayEntry>)
    requires WellKeyed(l)
    ensures WellKeyed(Put(l, name, entries))
  {
    var r := Put(l, name, entries);
    var names := Names(r);
    PutNames(l, name, entries);
    forall i, j | 0 <= i < j < |r| ensures r[i].name != r[j].name {
      assert names[i] == r[i].name && names[j] == r[j].name;
      if name !in Names(l) && j == |l| {
        assert names[i] == Names(l)[i];
      } else {
        assert names[i] == Names(l)[i] && names[j] == Names(l)[j];
      }
    }
  }

  /** `delete storedData[name]`: the key disappears, every other key keeps its
      entries and its place. */
  function Remove(l: Ledger, name: string): (r: Ledger)
    ensures Get(r, name) == None
    ensures forall m :: m != name ==> Get(r, m) == Get(l, m)
    ensures forall i :: 0 <= i < |r| ==> r[i] in l
  {
    if |l| == 0 then []
    else if l[0].name == name then Remove(l[1..], name)
    else
      var rest := Remove(l[1..], name);
      assert ([l[0]] + rest)[1..] == rest;
      [l[0]] + rest
  }

  lemma RemoveWellKeyed(l: Ledger, name: string)
    requires WellKeyed(l)
    ensures WellKeyed(Remove(l, name))
  {
    if |l| > 0 {
      RemoveWellKeyed(l[1..], name);
      if l[0].name != name {
        var rest := Remove(l[1..], name);
        forall i | 0 <= i < |rest| ensures rest[i].name != l[0].name {
          var k :| 0 <= k < |l[1..]| && l[1..][k] == rest[i];
          assert l[k + 1] == rest[i];
        }
        ConsWellKeyed(l[0], rest);
        assert Remove(l, name) == [l[0]] + rest;
      }
    }
  }

  /** A row whose key is not among a well-keyed ledger's may go in front. */
  lemma ConsWellKeyed(x: Row, rest: Ledger)
    requires WellKeyed(rest)
    requires forall i :: 0 <= i < |rest| ==> rest[i].name != x.name
    ensures WellKeyed([x] + rest)
  {
    var r := [x] + rest;
    forall i, j | 0 <= i < j < |r| ensures r[i].name != r[j].name {
      assert r[j] == rest[j - 1];
      if i > 0 {
        assert r[i] == rest[i - 1];
      }
    }
  }

  /** Total number of day entries over all exercises. */
  function EntryCount(l: Ledger): nat {
    if |l| == 0 then 0 else |l[0].entries| + EntryCount(l[1..])
  }

  /** One (key, entry) pair of the nested walk
      `Object.entries(ledger).forEach(([name, entries]) => entries.forEach(...))`. */
  datatype Logged = Logged(name: string, entry: DayEntry)

  function RowPairs(r: Row): (ps: seq<Logged>)
    ensures |ps| == |r.entries|
    ensures forall j :: 0 <= j < |ps| ==> ps[j] == Logged(r.name, r.entries[j])
  {
    seq(|r.entries|, j requires 0 <= j < |r.entries| => Logged(r.name, r.entries[j]))
  }

  /** The pairs in the order the nested walk visits them. */
  function Pairs(l: Ledger): (ps: seq<Logged>)
    ensures |ps| == EntryCount(l)
  {
    if |l| == 0 then [] else RowPairs(l[0]) + Pairs(l[1..])
  }

  /** The walk visits exactly the entries of the ledger, each under its key. */
  lemma {:induction false} PairsMeaning(l: Ledger, p: Logged)
    ensures p in Pairs(l) <==> exists i, j :: 0 <= i < |l| && 0 <= j < |l[i].entries| && p == Logged(l[i].name, l[i].entries[j])
  {
    if |l| > 0 {
      PairsMeaning(l[1..], p);
      if p in Pairs(l[1..]) {
        var i, j :| 0 <= i < |l[1..]| && 0 <= j < |l[1..][i].entries| && p == Logged(l[1..][i].name, l[1..][i].entries[j]);
        assert l[i + 1] == l[1..][i];
      }
      if exists i, j :: 0 <= i < |l| && 0 <= j < |l[i].entries| && p == Logged(l[i].name, l[i].entries[j]) {
        var i, j :| 0 <= i < |l| && 0 <= j < |l[i].entries| && p == Logged(l[i].name, l[i].entries[j]);
        if i == 0 {
          assert p == RowPairs(l[0])[j];
        } else {
          assert l[1..][i - 1] == l[i];
        }
      }
    }
  }

  /** The dates the walk visits. */
  function EntryDates(ps: seq<Logged>): set<string> {
    set i | 0 <= i < |ps| :: ps[i].entry.date
  }

  lemma EntryDatesCons(ps: seq<Logged>)
    requires |ps| > 0
    ensures EntryDates(ps) == {ps[0].entry.date} + EntryDates(ps[1..])
  {
    forall d | d in EntryDates(ps) ensures d in {ps[0].entry.date} + EntryDates(ps[1..]) {
      var i :| 0 <= i < |ps| && ps[i].entry.date == d;
      if i > 0 {
        assert ps[1..][i - 1] == ps[i];
      }
    }
    forall d | d in EntryDates(ps[1..]) ensures d in EntryDates(ps) {
      var i :| 0 <= i < |ps[1..]| && ps[1..][i].entry.date == d;
      assert ps[i + 1] == ps[1..][i];
    }
  }

  lemma EntryDatesSnoc(ps: seq<Logged>)
    requires |ps| > 0
    ensures EntryDates(ps) == EntryDates(ps[..|ps| - 1]) + {ps[|ps| - 1].entry.date}
  {
    var init := ps[..|ps| - 1];
    forall d | d in EntryDates(ps) ensures d in EntryDates(init) + {ps[|ps| - 1].entry.date} {
      var i :| 0 <= i < |ps| && ps[i].entry.date == d;
      if i < |ps| - 1 {
        assert init[i] == ps[i];
      }
    }
    forall d | d in EntryDates(init) ensures d in EntryDates(ps) {
      var i :| 0 <= i < |init| && init[i].entry.date == d;
      assert ps[i] == init[i];
    }
  }

  /** The walk's pairs dated `d`, in walk order. */
  function OnDate(ps: seq<Logged>, d: string): (r: seq<Logged>)
    ensures forall p :: p in r <==> p in ps && p.entry.date == d
  {
    if |ps| == 0 then []
    else
      var init := ps[..|ps| - 1];
      var last := ps[|ps| - 1];
      assert ps == init + [last];
      OnDate(init, d) + if last.entry.date == d then [last] else []
  }

  /** `entries.filter(workout => workout.date !== date)`. */
  function FilterDate(entries: seq<DayEntry>, date: string): (r: seq<DayEntry>)
    ensures |r| <= |entries|
  {
    if |entries| == 0 then []
    else if entries[0].date == date then FilterDate(entries[1..], date)
    else [entries[0]] + FilterDate(entries[1..], date)
  }

  /** The filter keeps exactly the entries of other dates. */
  lemma {:induction false} FilterDateMembers(entries: seq<DayEntry>, date: string)
    ensures forall e :: e in FilterDate(entries, date) <==> e in entries && e.date != date
  {
    if |entries| > 0 {
      FilterDateMembers(entries[1..], date);
      assert entries == [entries[0]] + entries[1..];
    }
  }

  /** The filter works entry by entry, so it keeps the survivors in order. */
  lemma {:induction false} FilterDateConcat(a: seq<DayEntry>, b: seq<DayEntry>, date: string)
    ensures FilterDate(a + b, date) == FilterDate(a, date) + FilterDate(b, date)
  {
    if |a| > 0 {
      FilterDateConcat(a[1..], b, date);
      FilterDateStep(a, b, date);
    } else {
      assert a + b == b;
    }
  }

  /** One step of the filter over a concatenation starting with `a`. */
  lemma FilterDateStep(a: seq<DayEntry>, b: seq<DayEntry>, date: string)
    requires |a| > 0
    requires FilterDate(a[1..] + b, date) == FilterDate(a[1..], date) + FilterDate(b, date)
    ensures FilterDate(a + b, date) == FilterDate(a, date) + FilterDate(b, date)
  {
    var ab := a + b;
    assert ab[0] == a[0] && ab[1..] == a[1..] + b;
    if a[0].date != date {
      ConcatAssoc([a[0]], FilterDate(a[1..], date), FilterDate(b, date));
    }
  }

  /** Concatenation is associative. */
  lemma ConcatAssoc<T>(a: seq<T>, b: seq<T>, c: seq<T>)
    ensures (a + b) + c == a + (b + c)
  {
  }
}
