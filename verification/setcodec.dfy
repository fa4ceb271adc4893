/** The "RxW" set value: built as `${reps}x${weight}` when a set is logged
    and read back with `value.split('x').map(Number)` wherever a volume or a
    target is computed. */
module SetCodec {
  import opened Wrappers
  import opened JsNumber
  import Text

  /** The set string logged for `reps` and `weight`, both in thousandths:
      reps typed into the form need not be whole. */
  function EncodeSet(reps: nat, weight: nat): (value: string)
    ensures |value| >= 3
  {
    ThousandthsToString(reps) + "x" + ThousandthsToString(weight)
  }

  datatype RepsWeight = RepsWeight(reps: Num, weight: Num)

  /** `const [reps, weight] = value.split('x').map(Number)`: a missing second
      piece is `Number(undefined)`, which is NaN; pieces after the second are
      ignored. */
  function DecodeSet(value: string): (rw: RepsWeight)
    ensures 'x' !in value ==> rw.weight == NaN
  {
    var pieces := Text.Split(value, 'x');
    RepsWeight(ParseNumber(pieces[0]), if |pieces| > 1 then ParseNumber(pieces[1]) else NaN)
  }

  /** `const [repsStr, weightStr] = value.split('x')`: the two raw pieces;
      the second is undefined when the value has no 'x'. */
  function SplitPair(value: string): (pair: (string, Option<string>))
    ensures 'x' !in value ==> pair == (value, None)
  {
    var pieces := Text.Split(value, 'x');
    (pieces[0], if |pieces| > 1 then Some(pieces[1]) else None)
  }

  /** reps × weight of one set value. */
  function SetVolume(value: string): Num {
    var rw := DecodeSet(value);
    Mul(rw.reps, rw.weight)
  }

  lemma EncodeSplits(reps: nat, weight: nat)
    ensures Text.Split(EncodeSet(reps, weight), 'x') == [ThousandthsToString(reps), ThousandthsToString(weight)]
  {
    var a := ThousandthsToString(reps);
    var b := ThousandthsToString(weight);
    assert 'x' !in a;
    assert Text.Join([a, b], 'x') == EncodeSet(reps, weight);
    Text.SplitJoin([a, b], 'x');
  }

  /** The codec round trip: reading a logged set back gives the reps and the
      weight it was built from. */
  lemma EncodeDecode(reps: nat, weight: nat)
    ensures DecodeSet(EncodeSet(reps, weight)) == RepsWeight(Finite(ThousandthsValue(reps)), Finite(ThousandthsValue(weight)))
    ensures SplitPair(EncodeSet(reps, weight)) == (ThousandthsToString(reps), Some(ThousandthsToString(weight)))
  {
    EncodeSplits(reps, weight);
    ThousandthsRoundTrip(reps);
    ThousandthsRoundTrip(weight);
  }

  /** A logged set contributes reps × weight to every volume. */
  lemma EncodedVolume(reps: nat, weight: nat)
    ensures SetVolume(EncodeSet(reps, weight)) == Mul(Finite(ThousandthsValue(reps)), Finite(ThousandthsValue(weight)))
  {
    EncodeDecode(reps, weight);
  }
}
