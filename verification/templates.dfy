/** The custom-workout templates of the history screen: saving a date's
    items under a name, renaming and deleting by name, and the list shown
    with each template's "last performed" date. The stored document is the
    template list itself; reading and writing it is left out. */
module Templates {
  import opened Wrappers
  import Text
  import opened HistoryView
  import Views

  /** `handleSaveCustomWorkout`: a blank name saves nothing; otherwise a
      template holding the date's items is appended at the end. */
  function SaveTemplate(ts: seq<Template>, name: string, date: string, v: Views.View<Item>): (r: seq<Template>)
    ensures |r| == if Text.IsBlank(name) then |ts| else |ts| + 1
    ensures r[..|ts|] == ts
  {
    if Text.IsBlank(name) then ts
    else ts + [Template(name, date, Views.At(v, date))]
  }

  /** Saving changes the list exactly when the name has a non-whitespace
      character, and then the new template is the last one and holds a copy
      of the date's items. */
  lemma SaveMeaning(ts: seq<Template>, name: string, date: string, v: Views.View<Item>)
    ensures SaveTemplate(ts, name, date, v) == ts <==> forall i :: 0 <= i < |name| ==> Text.IsSpace(name[i])
    ensures SaveTemplate(ts, name, date, v) != ts ==>
      var t := SaveTemplate(ts, name, date, v)[|ts|];
      t.name == name && t.date == date && t.exercises == Views.At(v, date)
  {
    Text.BlankIffAllSpace(name);
  }

  /** The number of templates called `name`. */
  function CountNamed(ts: seq<Template>, name: string): nat {
    if |ts| == 0 then 0 else (if ts[0].name == name then 1 else 0) + CountNamed(ts[1..], name)
  }

  /** `handleRenameCustomWorkout`: with a template selected and a non-blank
      new name, every template carrying the selected name is renamed. */
  function RenameTemplates(ts: seq<Template>, selected: Option<string>, newName: string): (r: seq<Template>)
    ensures |r| == |ts|
    ensures forall i :: 0 <= i < |ts| ==> r[i].date == ts[i].date && r[i].exercises == ts[i].exercises
    ensures forall i :: 0 <= i < |ts| && (selected.None? || ts[i].name != selected.value) ==> r[i] == ts[i]
    ensures forall i :: 0 <= i < |ts| && selected.Some? && ts[i].name == selected.value ==>
      r[i].name == if Text.IsBlank(newName) then ts[i].name else newName
  {
    if selected.None? || Text.IsBlank(newName) then ts
    else
      seq(|ts|, i requires 0 <= i < |ts| =>
        if ts[i].name == selected.value then Template(newName, ts[i].date, ts[i].exercises) else ts[i])
  }

  /** After a rename no template keeps the old name, and the new name counts
      the templates that had either name. */
  lemma {:induction false} RenameCounts(ts: seq<Template>, from: string, newName: string)
    requires !Text.IsBlank(newName) && from != newName
    ensures CountNamed(RenameTemplates(ts, Some(from), newName), from) == 0
    ensures CountNamed(RenameTemplates(ts, Some(from), newName), newName) == CountNamed(ts, from) + CountNamed(ts, newName)
  {
    if |ts| > 0 {
      var r := RenameTemplates(ts, Some(from), newName);
      RenameCounts(ts[1..], from, newName);
      assert r[1..] == RenameTemplates(ts[1..], Some(from), newName);
    }
  }

  /** `handleDeleteCustomWorkout`: every template carrying the selected name is removed. */
  function DeleteTemplates(ts: seq<Template>, selected: Option<string>): (r: seq<Template>)
    ensures forall t :: t in r <==> t in ts && (selected.None? || t.name != selected.value)
  {
    if selected.None? || |ts| == 0 then ts
    else if ts[0].name == selected.value then DeleteTemplates(ts[1..], selected)
    else [ts[0]] + DeleteTemplates(ts[1..], selected)
  }

  /** Deleting removes exactly the templates with the selected name. */
  lemma {:induction false} DeleteCounts(ts: seq<Template>, name: string)
    ensures CountNamed(DeleteTemplates(ts, Some(name)), name) == 0
    ensures |DeleteTemplates(ts, Some(name))| == |ts| - CountNamed(ts, name)
  {
    if |ts| > 0 {
      DeleteCounts(ts[1..], name);
      var rest := DeleteTemplates(ts[1..], Some(name));
      if ts[0].name != name {
        assert ([ts[0]] + rest)[1..] == rest;
      }
    }
  }

  /** The deletion works template by template, so the survivors keep their order. */
  lemma {:induction false} DeleteConcat(a: seq<Template>, b: seq<Template>, name: string)
    ensures DeleteTemplates(a + b, Some(name)) == DeleteTemplates(a, Some(name)) + DeleteTemplates(b, Some(name))
  {
    if |a| > 0 {
      var rest := DeleteTemplates(a[1..], Some(name));
      var tail := DeleteTemplates(b, Some(name));
      assert (a + b)[0] == a[0];
      assert (a + b)[1..] == a[1..] + b;
      DeleteConcat(a[1..], b, name);
      if a[0].name != name {
        assert ([a[0]] + rest) + tail == [a[0]] + (rest + tail);
      }
    } else {
      assert a + b == b;
    }
  }

  /** A template as the list shows it, with the date it was last performed. */
  datatype Loaded = Loaded(template: Template, lastPerformed: string)

  /** `customWorkouts.map(workout => ({...workout, lastPerformed}))`; None when
      a template without exercises makes the computation throw, which it
      does once some date of the view holds an item. */
  function LoadTemplates(ts: seq<Template>, v: Views.View<Item>): (r: Option<seq<Loaded>>)
    ensures r.Some? <==> !HasItems(v) || forall i :: 0 <= i < |ts| ==> |ts[i].exercises| > 0
    ensures r.Some? ==> |r.value| == |ts|
    ensures r.Some? ==> forall i :: 0 <= i < |ts| ==> r.value[i] == Loaded(ts[i], LastPerformed(ts[i], v).value)
  {
    if |ts| == 0 then Some([])
    else
      match LastPerformed(ts[0], v)
      case None => None
      case Some(last) =>
        match LoadTemplates(ts[1..], v)
        case None => None
        case Some(rest) => Some([Loaded(ts[0], last)] + rest)
  }

  /** A rest day saved as a template without exercises, over an empty
      ledger: no date holds an item, so the list loads and the template is
      last performed on its own date. */
  lemma RestDayLoads()
    ensures var ts := [Template("Rest", "01.01", [])];
      LoadTemplates(ts, GroupWorkoutsByDate([], ts).workouts) == Some([Loaded(ts[0], "01.01")])
  {
    var ts := [Template("Rest", "01.01", [])];
    var v := GroupWorkoutsByDate([], ts).workouts;
    forall k | k in v.keys ensures |Views.At(v, k)| == 0 {
      GroupedKeys([], ts, k);
      GroupedAt([], ts, k);
    }
    assert !HasItems(v);
    assert LastPerformed(ts[0], v) == Some("01.01");
    assert LoadTemplates(ts[1..], v) == Some([]);
    assert [Loaded(ts[0], "01.01")] + [] == [Loaded(ts[0], "01.01")];
    assert LoadTemplates(ts, v) == Some([Loaded(ts[0], "01.01")] + []);
  }
}
