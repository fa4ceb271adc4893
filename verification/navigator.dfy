/** Following a custom workout on the workout page: picking a template,
    stepping through its exercises with next and previous, and the target
    reps and weight read from the first set of the current exercise. */
module Navigator {
  import opened Wrappers
  import opened JsNumber
  import opened Ledger
  import SetCodec
  import opened HistoryView

  /** The picked template, if any, and the index of the current exercise. */
  datatype Nav = Nav(workout: Option<Template>, index: nat)

  /** With a template picked, the index names one of its exercises. */
  predicate InRange(n: Nav) {
    n.workout.Some? ==> n.index < |n.workout.value.exercises|
  }

  /** The state before any template is picked, and after "back". */
  function Back(): (n: Nav)
    ensures InRange(n) && n.workout.None?
  {
    Nav(None, 0)
  }

  /** `handleWorkoutClick`: pick the template, start at its first exercise
      and select that exercise on the page. None is the TypeError raised by
      a template without exercises. */
  function WorkoutClick(w: Template): (r: Option<(Nav, string)>)
    ensures r.Some? <==> |w.exercises| > 0
    ensures r.Some? ==> InRange(r.value.0) && r.value.0 == Nav(Some(w), 0) && r.value.1 == w.exercises[0].exerciseName
  {
    if |w.exercises| == 0 then None
    else Some((Nav(Some(w), 0), w.exercises[0].exerciseName))
  }

  /** `handleNextClick`: step forward unless at the last exercise; the new
      exercise is selected on the page. */
  function Next(n: Nav): (r: (Nav, Option<string>))
    requires InRange(n)
  {
    if n.workout.Some? && n.index + 1 < |n.workout.value.exercises| then
      (n.(index := n.index + 1), Some(n.workout.value.exercises[n.index + 1].exerciseName))
    else (n, None)
  }

  /** `handlePrevClick`: step back unless at the first exercise. */
  function Prev(n: Nav): (r: (Nav, Option<string>))
    requires InRange(n)
  {
    if n.workout.Some? && n.index > 0 then
      (n.(index := n.index - 1), Some(n.workout.value.exercises[n.index - 1].exerciseName))
    else (n, None)
  }

  /** Stepping keeps the index on an exercise; it moves by one exactly when
      there is an exercise in that direction, and the page is told to select
      the exercise it lands on; otherwise nothing happens. */
  lemma StepMeaning(n: Nav)
    requires InRange(n)
    ensures InRange(Next(n).0) && InRange(Prev(n).0)
    ensures Next(n).0.workout == n.workout && Prev(n).0.workout == n.workout
    ensures Next(n).1.Some? <==> n.workout.Some? && n.index < |n.workout.value.exercises| - 1
    ensures Next(n).1.Some? ==> Next(n).0.index == n.index + 1 && Next(n).1.value == n.workout.value.exercises[Next(n).0.index].exerciseName
    ensures Next(n).1.None? ==> Next(n).0 == n
    ensures Prev(n).1.Some? <==> n.workout.Some? && n.index > 0
    ensures Prev(n).1.Some? ==> Prev(n).0.index == n.index - 1 && Prev(n).1.value == n.workout.value.exercises[Prev(n).0.index].exerciseName
    ensures Prev(n).1.None? ==> Prev(n).0 == n
  {
  }

  /** Previous undoes next whenever next moved, and the other way round. */
  lemma PrevUndoesNext(n: Nav)
    requires InRange(n)
    ensures Next(n).1.Some? ==> Prev(Next(n).0).0 == n
    ensures Prev(n).1.Some? ==> Next(Prev(n).0).0 == n
  {
  }

  /** Pressing next `k` times. */
  function NextTimes(n: Nav, k: nat): (r: Nav)
    requires InRange(n)
    ensures InRange(r) && r.workout == n.workout
    decreases k
  {
    StepMeaning(n);
    if k == 0 then n else NextTimes(Next(n).0, k - 1)
  }

  /** From any exercise, `k` presses of next go `k` exercises further, but
      stop at the last one. */
  lemma {:induction false} NextTimesStops(n: Nav, k: nat)
    requires InRange(n) && n.workout.Some?
    ensures var last := |n.workout.value.exercises| - 1;
      NextTimes(n, k).index == if n.index + k <= last then n.index + k else last
    decreases k
  {
    StepMeaning(n);
    if k > 0 {
      NextTimesStops(Next(n).0, k - 1);
    }
  }

  /** The card of the current exercise: its name, the target reps and
      weight, and its number of sets. */
  datatype ExerciseInfo = ExerciseInfo(name: string, targetReps: Num, targetWeight: Num, totalSets: nat)

  /** What the card shows: nothing without a template, or the TypeError of
      reading the first set of an exercise that has none. */
  datatype Card = NoCard | Shows(info: ExerciseInfo) | Fails

  /** `getCurrentExerciseInfo`: the targets are the first set's value split
      on 'x', each read with `Number`. */
  function CurrentInfo(n: Nav): (r: Card)
    requires InRange(n)
    ensures r.NoCard? <==> n.workout.None?
    ensures r.Fails? <==> n.workout.Some? && |n.workout.value.exercises[n.index].sets| == 0
    ensures r.Shows? ==> r.info.name == n.workout.value.exercises[n.index].exerciseName && r.info.totalSets == |n.workout.value.exercises[n.index].sets|
  {
    match n.workout
    case None => NoCard
    case Some(w) =>
      var exercise := w.exercises[n.index];
      if |exercise.sets| == 0 then Fails
      else
        var target := SetCodec.DecodeSet(SetValue(exercise.sets[0]));
        Shows(ExerciseInfo(exercise.exerciseName, target.reps, target.weight, |exercise.sets|))
  }

  /** A first set logged as `reps`x`weight` gives exactly those targets. */
  lemma TargetsRoundTrip(n: Nav, reps: nat, weight: nat)
    requires InRange(n) && n.workout.Some?
    requires |n.workout.value.exercises[n.index].sets| > 0
    requires SetValue(n.workout.value.exercises[n.index].sets[0]) == SetCodec.EncodeSet(reps, weight)
    ensures CurrentInfo(n).Shows?
    ensures CurrentInfo(n).info.targetReps == Finite(ThousandthsValue(reps))
    ensures CurrentInfo(n).info.targetWeight == Finite(ThousandthsValue(weight))
  {
    SetCodec.EncodeDecode(reps, weight);
  }
}
