/** The exercise picker: choosing an option toggles the selection, the
    trigger shows the chosen option's label, each option carries the last
    workout date as a badge, and the dialog adds a custom exercise. */
module Combobox {
  import opened Wrappers
  import Text
  import opened Assoc
  import Ledger
  import Home
  import Dates

  datatype Labelled = Labelled(value: string, text: string)

  /** `onSelect`: choosing the selected option clears the selection,
      choosing any other sets it. */
  function Pick(selected: string, chosen: string): (r: string)
    ensures chosen == selected ==> r == ""
    ensures chosen != selected ==> r == chosen
  {
    if chosen == selected then "" else chosen
  }

  /** Choosing the same option twice from nothing, or from that option,
      comes back to where it started. */
  lemma PickTwice(selected: string, chosen: string)
    requires chosen != ""
    requires selected == "" || selected == chosen
    ensures Pick(Pick(selected, chosen), chosen) == selected
  {
  }

  /** The first option with a given value: `options.find(...)`. */
  function FindOption(options: seq<Labelled>, value: string): (r: Option<Labelled>)
    ensures r.Some? ==> r.value in options && r.value.value == value
    ensures r.None? <==> forall i :: 0 <= i < |options| ==> options[i].value != value
  {
    if |options| == 0 then None
    else if options[0].value == value then Some(options[0])
    else
      var r := FindOption(options[1..], value);
      assert forall i :: 1 <= i < |options| ==> options[i] == options[1..][i - 1];
      r
  }

  /** The trigger's text: the placeholder when nothing is selected or there
      are no options, else the label of the selected option. None is the
      `undefined` shown (as nothing) when no option has the selected value. */
  function TriggerText(selected: string, options: seq<Labelled>, placeholder: string): (r: Option<string>)
    ensures selected == "" || |options| == 0 ==> r == Some(placeholder)
  {
    if selected == "" || |options| == 0 then Some(placeholder)
    else
      match FindOption(options, selected)
      case Some(o) => Some(o.text)
      case None => None
  }

  /** With a selection and some options, the trigger shows a label exactly
      when an option has the selected value, and then that option's label;
      it never falls back to the placeholder. */
  lemma TriggerMeaning(selected: string, options: seq<Labelled>, placeholder: string)
    requires selected != "" && |options| > 0
    ensures TriggerText(selected, options, placeholder).Some? <==> exists i :: 0 <= i < |options| && options[i].value == selected
    ensures TriggerText(selected, options, placeholder).Some? ==>
      exists i :: 0 <= i < |options| && options[i] == Labelled(selected, TriggerText(selected, options, placeholder).value)
  {
    var r := FindOption(options, selected);
    if r.Some? {
      var i :| 0 <= i < |options| && options[i] == r.value;
    }
  }

  /** The badge next to an option: `lastWorkoutDates[value]` when truthy. */
  function Badge(lastDates: seq<Entry<string>>, value: string): (r: Option<string>)
    ensures r.Some? ==> r.value != "" && Lookup(lastDates, value) == r
  {
    match Lookup(lastDates, value)
    case Some(d) => if d != "" then Some(d) else None
    case None => None
  }

  /** Over the page's last workout dates, an option shows a badge exactly
      when its exercise has entries, and the badge is its last date. */
  lemma BadgeShowsLastDate(l: Ledger.Ledger, name: string)
    requires Ledger.WellKeyed(l)
    requires forall e :: e in Ledger.Get(l, name).GetOr([]) ==> Dates.ValidDate(e.date)
    ensures Badge(Home.LastWorkoutDates(l), name) == Home.LastDate(Ledger.Get(l, name).GetOr([]))
  {
    Home.LastWorkoutDatesLookup(l, name);
    var es := Ledger.Get(l, name).GetOr([]);
    var last := Home.LastDate(es);
    if last.Some? {
      var i :| 0 <= i < |es| && es[i].date == last.value;
      assert es[i] in es;
      Dates.ValidNotEmpty(es[i].date);
    }
  }

  /** The add dialog: whether it is open and the name typed in it. */
  datatype AddDialog = AddDialog(open: bool, name: string)

  /** `handleAddExercise`: a name that is blank once trimmed changes nothing;
      any other is forwarded trimmed, and the dialog is emptied and closed. */
  function AddExercise(d: AddDialog): (r: (AddDialog, Option<string>))
  {
    var trimmed := Text.Trim(d.name);
    if trimmed != "" then (AddDialog(false, ""), Some(trimmed)) else (d, None)
  }

  /** A name is forwarded exactly when it has a non-space character, and
      what is forwarded neither starts nor ends with white space. */
  lemma AddExerciseMeaning(d: AddDialog)
    ensures AddExercise(d).1.None? <==> forall i :: 0 <= i < |d.name| ==> Text.IsSpace(d.name[i])
    ensures AddExercise(d).1.None? ==> AddExercise(d).0 == d
    ensures AddExercise(d).1.Some? ==>
      && AddExercise(d).0 == AddDialog(false, "")
      && AddExercise(d).1.value == Text.Trim(d.name)
      && !Text.IsSpace(AddExercise(d).1.value[0])
      && !Text.IsSpace(AddExercise(d).1.value[|AddExercise(d).1.value| - 1])
  {
    var t := Text.Trim(d.name);
    Text.BlankIffAllSpace(d.name);
    assert AddExercise(d) == if t != "" then (AddDialog(false, ""), Some(t)) else (d, None);
  }
}
