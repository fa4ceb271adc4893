/** A JavaScript object used as a map from a string key to an array, filled
    in insertion order: `if (!grouped[k]) grouped[k] = []` followed by
    `grouped[k].push(x)`. The keys are kept in the order they were first
    created, which is the order `Object.keys` reports them in. */
module Views {

  datatype View<T> = View(keys: seq<string>, groups: map<string, seq<T>>)

  /** Keys are distinct and are exactly the domain of the map. */
  predicate Valid<T>(v: View<T>) {
    && (forall i, j :: 0 <= i < j < |v.keys| ==> v.keys[i] != v.keys[j])
    && v.groups.Keys == set i | 0 <= i < |v.keys| :: v.keys[i]
  }

  function Empty<T>(): (v: View<T>)
    ensures Valid(v)
    ensures forall k :: k !in v.keys
  {
    View([], map[])
  }

  /** `grouped[k] || []`: the array under `k`, empty when `k` is not a key. */
  function At<T>(v: View<T>, k: string): seq<T> {
    if k in v.groups then v.groups[k] else []
  }

  /** `if (!grouped[k]) grouped[k] = []`: creates the key, last, when it is
      missing; the arrays are untouched. */
  function Touch<T>(v: View<T>, k: string): (r: View<T>)
    ensures r.keys == if k in v.groups then v.keys else v.keys + [k]
    ensures r.groups.Keys == v.groups.Keys + {k}
    ensures forall j :: At(r, j) == At(v, j)
  {
    if k in v.groups then v
    else
      var r := View(v.keys + [k], v.groups[k := []]);
      assert forall j :: At(r, j) == At(v, j);
      r
  }

  lemma TouchValid<T>(v: View<T>, k: string)
    requires Valid(v)
    ensures Valid(Touch(v, k))
  {
    if k !in v.groups {
      NewKeyValid(v, k);
    }
  }

  lemma NewKeyValid<T>(v: View<T>, k: string)
    requires k !in v.groups
    ensures Valid(v) ==> Valid(View(v.keys + [k], v.groups[k := []]))
  {
    if Valid(v) {
      var keys := v.keys + [k];
      var ks := set i | 0 <= i < |keys| :: keys[i];
      forall j | j in ks ensures j in v.groups || j == k {
        var i :| 0 <= i < |keys| && keys[i] == j;
        if i < |v.keys| {
          assert j == v.keys[i];
        }
      }
      forall j | j in v.groups ensures j in ks {
        var i :| 0 <= i < |v.keys| && v.keys[i] == j;
        assert keys[i] == j;
      }
      assert keys[|v.keys|] == k;
    }
  }

  /** `grouped[k].push(x)` on a key that `Touch` has created. */
  function Push<T>(v: View<T>, k: string, x: T): (r: View<T>)
    ensures r.keys == if k in v.groups then v.keys else v.keys + [k]
    ensures r.groups.Keys == v.groups.Keys + {k}
    ensures At(r, k) == At(v, k) + [x]
    ensures forall j :: j != k ==> At(r, j) == At(v, j)
  {
    var t := Touch(v, k);
    View(t.keys, t.groups[k := At(t, k) + [x]])
  }

  lemma PushValid<T>(v: View<T>, k: string, x: T)
    requires Valid(v)
    ensures Valid(Push(v, k, x))
  {
    TouchValid(v, k);
  }

  /** `xs.forEach(x => grouped[k].push(x))` after creating the key. */
  function PushAll<T>(v: View<T>, k: string, xs: seq<T>): (r: View<T>)
    ensures r.keys == if k in v.groups then v.keys else v.keys + [k]
    ensures r.groups.Keys == v.groups.Keys + {k}
    ensures At(r, k) == At(v, k) + xs
    ensures forall j :: j != k ==> At(r, j) == At(v, j)
    decreases |xs|
  {
    if |xs| == 0 then Touch(v, k)
    else
      var r := PushAll(Push(v, k, xs[0]), k, xs[1..]);
      assert At(v, k) + xs == At(v, k) + [xs[0]] + xs[1..];
      r
  }

  lemma {:induction false} PushAllValid<T>(v: View<T>, k: string, xs: seq<T>)
    requires Valid(v)
    ensures Valid(PushAll(v, k, xs))
    decreases |xs|
  {
    if |xs| == 0 {
      TouchValid(v, k);
    } else {
      PushValid(v, k, xs[0]);
      PushAllValid(Push(v, k, xs[0]), k, xs[1..]);
    }
  }

  /** The total number of elements over all keys. */
  function Size<T>(v: View<T>): nat {
    SizeOf(v, v.keys)
  }

  function SizeOf<T>(v: View<T>, keys: seq<string>): nat {
    if |keys| == 0 then 0 else |At(v, keys[0])| + SizeOf(v, keys[1..])
  }

  lemma {:induction false} SizeOfFrame<T>(v: View<T>, w: View<T>, keys: seq<string>)
    requires forall k :: k in keys ==> At(v, k) == At(w, k)
    ensures SizeOf(v, keys) == SizeOf(w, keys)
  {
    if |keys| > 0 {
      SizeOfFrame(v, w, keys[1..]);
    }
  }

  lemma {:induction false} SizeOfAppend<T>(v: View<T>, keys: seq<string>, k: string)
    ensures SizeOf(v, keys + [k]) == SizeOf(v, keys) + |At(v, k)|
  {
    if |keys| == 0 {
      assert keys + [k] == [k];
      assert [k][1..] == [];
    } else {
      assert (keys + [k])[1..] == keys[1..] + [k];
      SizeOfAppend(v, keys[1..], k);
    }
  }

  /** Growing the array of one key that occurs once grows the total by as much. */
  lemma {:induction false} SizeOfBump<T>(v: View<T>, w: View<T>, keys: seq<string>, k: string, n: nat)
    requires forall i, j :: 0 <= i < j < |keys| ==> keys[i] != keys[j]
    requires k in keys
    requires |At(w, k)| == |At(v, k)| + n
    requires forall j :: j != k ==> At(v, j) == At(w, j)
    ensures SizeOf(w, keys) == SizeOf(v, keys) + n
  {
    if keys[0] == k {
      forall j | j in keys[1..] ensures At(v, j) == At(w, j) {
        var i :| 0 <= i < |keys[1..]| && keys[1..][i] == j;
        assert keys[i + 1] == j;
      }
      SizeOfFrame(v, w, keys[1..]);
    } else {
      SizeOfBump(v, w, keys[1..], k, n);
    }
  }

  lemma KeyIndex<T>(v: View<T>, k: string)
    requires Valid(v)
    ensures k in v.groups <==> k in v.keys
  {
    if k in v.keys {
      var i :| 0 <= i < |v.keys| && v.keys[i] == k;
      assert k in set i | 0 <= i < |v.keys| :: v.keys[i];
    }
  }

  /** Adding `n` elements under one key, creating it if needed, adds `n` to the total. */
  lemma GrowSize<T>(v: View<T>, w: View<T>, k: string, n: nat)
    requires Valid(v)
    requires w.keys == if k in v.groups then v.keys else v.keys + [k]
    requires |At(w, k)| == |At(v, k)| + n
    requires forall j :: j != k ==> At(v, j) == At(w, j)
    ensures Size(w) == Size(v) + n
  {
    KeyIndex(v, k);
    if k in v.groups {
      SizeOfBump(v, w, v.keys, k, n);
    } else {
      SizeOfAppend(w, v.keys, k);
      SizeOfFrame(v, w, v.keys);
    }
  }

  lemma PushSize<T>(v: View<T>, k: string, x: T)
    requires Valid(v)
    ensures Size(Push(v, k, x)) == Size(v) + 1
  {
    GrowSize(v, Push(v, k, x), k, 1);
  }

  lemma PushAllSize<T>(v: View<T>, k: string, xs: seq<T>)
    requires Valid(v)
    ensures Size(PushAll(v, k, xs)) == Size(v) + |xs|
  {
    GrowSize(v, PushAll(v, k, xs), k, |xs|);
  }

  lemma TouchSize<T>(v: View<T>, k: string)
    requires Valid(v)
    ensures Size(Touch(v, k)) == Size(v)
  {
    GrowSize(v, Touch(v, k), k, 0);
  }
}
