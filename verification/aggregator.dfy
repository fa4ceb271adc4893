/** Volume: Σ reps × weight over a list of sets, each read from its "RxW"
    value. The source computes it in three places (the history view, the
    weight chart and the calendar); `Volume` is the one shared definition and
    each copy is shown to agree with it. */
module Aggregator {
  import opened Wrappers
  import opened JsNumber
  import opened Ledger
  import SetCodec
  import Sums

  /** One set's reps × weight, read from its "RxW" value. */
  function SetTerm(s: RawSet): Num {
    SetCodec.SetVolume(SetValue(s))
  }

  /** The reference definition: the volume of the sets before the last one,
      plus the last set's reps × weight. NaN anywhere makes the total NaN. */
  function Volume(sets: seq<RawSet>): Num {
    Sums.Sum(sets, SetTerm)
  }

  lemma VolumeEmpty()
    ensures Volume([]) == Finite(0.0)
  {
  }

  /** The volume of a concatenation is the sum of the two volumes. */
  lemma VolumeConcat(a: seq<RawSet>, b: seq<RawSet>)
    ensures Volume(a + b) == Add(Volume(a), Volume(b))
  {
    Sums.SumConcat(a, b, SetTerm);
  }

  /** Logging a set adds exactly its reps × weight to the volume. */
  lemma VolumeOfLogged(sets: seq<RawSet>, reps: nat, weight: nat, notes: string)
    ensures Volume(sets + [Record(SetCodec.EncodeSet(reps, weight), Some(notes))])
         == Add(Volume(sets), Mul(Finite(ThousandthsValue(reps)), Finite(ThousandthsValue(weight))))
  {
    Sums.SumAppend(sets, Record(SetCodec.EncodeSet(reps, weight), Some(notes)), SetTerm);
    SetCodec.EncodedVolume(reps, weight);
  }

  /** Normalising the sets does not change their volume. */
  lemma VolumeNormalized(sets: seq<RawSet>)
    ensures Volume(NormalizeAll(sets)) == Volume(sets)
  {
    Sums.SumCongruent(NormalizeAll(sets), SetTerm, sets, SetTerm);
  }

  /** The strings logged for 10 reps of 50 and 5 reps of 60. */
  lemma ExampleEncodings()
    ensures SetCodec.EncodeSet(10000, 50000) == "10x50"
    ensures SetCodec.EncodeSet(5000, 60000) == "5x60"
  {
    assert ThousandthsToString(10000) == "10";
    assert ThousandthsToString(5000) == "5";
    assert ThousandthsToString(50000) == "50";
    assert ThousandthsToString(60000) == "60";
  }

  /** A legacy set followed by a record: each contributes its reps × weight. */
  lemma VolumeOfPair(r1: nat, w1: nat, r2: nat, w2: nat, notes: Option<string>)
    ensures Volume([Legacy(SetCodec.EncodeSet(r1, w1)), Record(SetCodec.EncodeSet(r2, w2), notes)])
         == Add(Mul(Finite(ThousandthsValue(r1)), Finite(ThousandthsValue(w1))), Mul(Finite(ThousandthsValue(r2)), Finite(ThousandthsValue(w2))))
  {
    var a := SetCodec.EncodeSet(r1, w1);
    var b := SetCodec.EncodeSet(r2, w2);
    Sums.SumSingle(Legacy(a), SetTerm);
    assert [Legacy(a), Record(b, notes)] == [Legacy(a)] + [Record(b, notes)];
    Sums.SumAppend([Legacy(a)], Record(b, notes), SetTerm);
    SetCodec.EncodedVolume(r1, w1);
    SetCodec.EncodedVolume(r2, w2);
  }

  /** "10x50" then "5x60" make 10·50 + 5·60 = 800. */
  lemma VolumeExample()
    ensures Volume([Legacy("10x50"), Record("5x60", None)]) == Finite(800.0)
  {
    ExampleEncodings();
    VolumeOfPair(10000, 50000, 5000, 60000, None);
    ExampleProducts();
  }

  /** 10 × 50 + 5 × 60, with reps and weights in thousandths. */
  lemma ExampleProducts()
    ensures Add(Mul(Finite(ThousandthsValue(10000)), Finite(ThousandthsValue(50000))),
                Mul(Finite(ThousandthsValue(5000)), Finite(ThousandthsValue(60000)))) == Finite(800.0)
  {
    assert ThousandthsValue(10000) == 10.0 && ThousandthsValue(50000) == 50.0;
    assert ThousandthsValue(5000) == 5.0 && ThousandthsValue(60000) == 60.0;
  }

  /** The history view's `calculateVolume`: `sets.reduce((total, set) =>
      total + reps * weight, 0)` over sets the normaliser has already turned
      into records, reading `set.value`. */
  function HistoryCalculateVolume(sets: seq<RawSet>): Num
    requires forall i :: 0 <= i < |sets| ==> sets[i].Record?
  {
    HistoryReduce(Finite(0.0), sets)
  }

  function HistoryReduce(total: Num, sets: seq<RawSet>): Num
    requires forall i :: 0 <= i < |sets| ==> sets[i].Record?
    decreases |sets|
  {
    if |sets| == 0 then total
    else HistoryReduce(Add(total, SetCodec.SetVolume(sets[0].value)), sets[1..])
  }

  /** On record sets the history copy is the generic left-to-right reduce. */
  lemma {:induction false} HistoryReduceIsFold(total: Num, sets: seq<RawSet>)
    requires forall i :: 0 <= i < |sets| ==> sets[i].Record?
    ensures HistoryReduce(total, sets) == Sums.FoldFrom(total, sets, SetTerm)
    decreases |sets|
  {
    if |sets| > 0 {
      HistoryReduceIsFold(Add(total, SetTerm(sets[0])), sets[1..]);
    }
  }

  /** The history view's copy agrees with the shared definition on the
      normalised sets it is given. */
  lemma HistoryCopyMatches(sets: seq<RawSet>)
    ensures HistoryCalculateVolume(NormalizeAll(sets)) == Volume(sets)
  {
    HistoryReduceIsFold(Finite(0.0), NormalizeAll(sets));
    Sums.FoldIsSum(NormalizeAll(sets), SetTerm);
    VolumeNormalized(sets);
  }

  /** The inline copy of the weight chart and the calendar:
      `workout.sets.reduce((total, set) => { const value = typeof set ===
      'string' ? set : set.value; ... return total + reps * weight }, 0)`. */
  function InlineWorkoutWeight(sets: seq<RawSet>): Num {
    InlineReduce(Finite(0.0), sets)
  }

  function InlineReduce(total: Num, sets: seq<RawSet>): Num
    decreases |sets|
  {
    if |sets| == 0 then total
    else
      var value := match sets[0] case Legacy(text) => text case Record(v, _) => v;
      InlineReduce(Add(total, SetCodec.SetVolume(value)), sets[1..])
  }

  lemma {:induction false} InlineReduceIsFold(total: Num, sets: seq<RawSet>)
    ensures InlineReduce(total, sets) == Sums.FoldFrom(total, sets, SetTerm)
    decreases |sets|
  {
    if |sets| > 0 {
      InlineReduceIsFold(Add(total, SetTerm(sets[0])), sets[1..]);
    }
  }

  /** The inline copy accepts legacy string sets and agrees with the shared
      definition on every input. */
  lemma InlineCopyMatches(sets: seq<RawSet>)
    ensures InlineWorkoutWeight(sets) == Volume(sets)
  {
    InlineReduceIsFold(Finite(0.0), sets);
    Sums.FoldIsSum(sets, SetTerm);
  }

  /** The weight one walked entry adds to its date in the chart and the
      calendar, by their inline reduce. */
  function EntryWeight(p: Logged): Num {
    InlineWorkoutWeight(p.entry.sets)
  }

  /** The same weight by the shared definition. */
  function EntryVolume(p: Logged): Num {
    Volume(p.entry.sets)
  }

  /** Sums of entry weights are sums of entry volumes. */
  lemma EntrySumsMatch(ps: seq<Logged>)
    ensures Sums.Sum(ps, EntryWeight) == Sums.Sum(ps, EntryVolume)
  {
    forall i | 0 <= i < |ps| ensures EntryWeight(ps[i]) == EntryVolume(ps[i]) {
      InlineCopyMatches(ps[i].entry.sets);
    }
    Sums.SumCongruent(ps, EntryWeight, ps, EntryVolume);
  }
}
