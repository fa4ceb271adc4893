/** A JavaScript object used as a dictionary keyed by strings, as its entries
    in insertion order: assigning to a present key keeps its place, a new key
    goes last. The chart and calendar tables keyed by date are such objects. */
module Assoc {
  import opened Wrappers

  datatype Entry<V> = Entry(key: string, value: V)

  predicate Distinct<V>(es: seq<Entry<V>>) {
    forall i, j :: 0 <= i < j < |es| ==> es[i].key != es[j].key
  }

  function Keys<V>(es: seq<Entry<V>>): set<string> {
    set i | 0 <= i < |es| :: es[i].key
  }

  /** The position of key `k`, if present: the first entry carrying it. */
  function Find<V>(es: seq<Entry<V>>, k: string): (r: Option<nat>)
    ensures r.Some? ==> r.value < |es| && es[r.value].key == k
    ensures r.Some? ==> forall j :: 0 <= j < r.value ==> es[j].key != k
    ensures r.None? <==> k !in Keys(es)
  {
    if |es| == 0 then None
    else if es[0].key == k then Some(0)
    else
      match Find(es[1..], k)
      case None =>
        assert forall j :: 0 <= j < |es| ==> es[j].key != k by {
          forall j | 0 <= j < |es| ensures es[j].key != k {
            if j > 0 {
              assert es[j] == es[1..][j - 1];
            }
          }
        }
        None
      case Some(i) => Some(i + 1)
  }

  /** `obj[k]`: the value stored under `k`, None when `k` is absent. */
  function Lookup<V>(es: seq<Entry<V>>, k: string): (r: Option<V>)
    ensures r.Some? <==> k in Keys(es)
  {
    match Find(es, k)
    case None => None
    case Some(i) => Some(es[i].value)
  }

  /** Looking up in a table whose first entry is `e`. */
  lemma LookupCons<V>(e: Entry<V>, rest: seq<Entry<V>>, k: string)
    ensures Lookup([e] + rest, k) == if e.key == k then Some(e.value) else Lookup(rest, k)
  {
    assert ([e] + rest)[1..] == rest;
  }

  /** `obj[k] = step(obj[k] ?? initial)`: update a present key in place, or
      append a new entry built from `initial`. */
  function Upsert<V>(es: seq<Entry<V>>, k: string, initial: V, step: V -> V): (r: seq<Entry<V>>)
    ensures |r| == if k in Keys(es) then |es| else |es| + 1
    ensures forall i :: 0 <= i < |es| ==> r[i].key == es[i].key
  {
    match Find(es, k)
    case None => es + [Entry(k, step(initial))]
    case Some(i) => es[i := Entry(k, step(es[i].value))]
  }

  /** After an upsert, `k` holds the step applied to its old value (or to
      `initial`), and every other key reads as before. */
  lemma LookupUpsert<V>(es: seq<Entry<V>>, k: string, initial: V, step: V -> V, e: string)
    ensures Lookup(Upsert(es, k, initial, step), e) ==
      if e == k then Some(step(Lookup(es, k).GetOr(initial))) else Lookup(es, e)
  {
    var r := Upsert(es, k, initial, step);
    var fe := Find(es, e);
    var fr := Find(r, e);
    if fe.Some? {
      // `e` is first found at the same position before and after.
      assert fr.Some? && fr.value == fe.value;
    } else {
      if e != k {
        assert e !in Keys(r) by {
          forall j | 0 <= j < |r| ensures r[j].key != e {
            if j < |es| {
              assert r[j].key == es[j].key;
            }
          }
        }
      } else {
        assert r[|es|].key == k;
        assert fr.Some?;
      }
    }
  }

  lemma UpsertKeys<V>(es: seq<Entry<V>>, k: string, initial: V, step: V -> V)
    ensures Keys(Upsert(es, k, initial, step)) == Keys(es) + {k}
  {
    var r := Upsert(es, k, initial, step);
    match Find(es, k)
    case None =>
      assert r[|es|].key == k;
    case Some(i) =>
      forall x | x in Keys(r) ensures x in Keys(es) {
        var j :| 0 <= j < |r| && r[j].key == x;
        assert es[j].key == x;
      }
  }

  /** An upsert never introduces a repeated key. */
  lemma UpsertDistinct<V>(es: seq<Entry<V>>, k: string, initial: V, step: V -> V)
    requires Distinct(es)
    ensures Distinct(Upsert(es, k, initial, step))
  {
  }

  /** In a table without repeated keys, each entry is what its key reads. */
  lemma LookupAt<V>(es: seq<Entry<V>>, i: nat)
    requires Distinct(es) && i < |es|
    ensures Lookup(es, es[i].key) == Some(es[i].value)
  {
    assert es[i].key in Keys(es);
  }
}
