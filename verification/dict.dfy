/**
 * Python dicts whose iteration order matters, as ordered association
 * lists: insertion order is list order, and assigning to a present key
 * replaces its value where it stands.
 */
module Dict {
  import opened Wrappers

  type Dict<K, V> = seq<(K, V)>

  function Keys<K, V>(m: Dict<K, V>): (ks: set<K>)
    ensures forall i :: 0 <= i < |m| ==> m[i].0 in ks
  {
    set i | 0 <= i < |m| :: m[i].0
  }

  predicate DistinctKeys<K(==), V>(m: Dict<K, V>)
  {
    forall i, j :: 0 <= i < j < |m| ==> m[i].0 != m[j].0
  }

  /** The position of key `k`, if present. */
  function IndexOfKey<K(==), V>(m: Dict<K, V>, k: K): (r: Option<nat>)
    ensures r.Some? ==> r.value < |m| && m[r.value].0 == k
    ensures r.None? ==> k !in Keys(m)
  {
    if m == [] then None
    else if m[0].0 == k then Some(0)
    else
      match IndexOfKey(m[1..], k)
      case Some(i) => Some(i + 1)
      case None =>
        assert forall i :: 1 <= i < |m| ==> m[i] == m[1..][i - 1];
        None
  }

  /** `m[k] = v`. */
  function Put<K(==), V>(m: Dict<K, V>, k: K, v: V): (r: Dict<K, V>)
    ensures Keys(r) == Keys(m) + {k}
    ensures DistinctKeys(m) ==> DistinctKeys(r)
    ensures DistinctKeys(m) ==> forall i :: 0 <= i < |r| && r[i].0 == k ==> r[i].1 == v
    ensures |r| == if k in Keys(m) then |m| else |m| + 1
    ensures forall i :: 0 <= i < |m| ==> r[i] == m[i] || (m[i].0 == k && r[i] == (k, v))
    ensures |r| == |m| + 1 ==> r[|m|] == (k, v)
  {
    match IndexOfKey(m, k)
    case Some(i) =>
      KeysOfUpdate(m, i, v);
      m[i := (k, v)]
    case None =>
      KeysOfAppend(m, k, v);
      m + [(k, v)]
  }

  lemma KeysOfUpdate<K, V>(m: Dict<K, V>, i: nat, v: V)
    requires i < |m|
    ensures Keys(m[i := (m[i].0, v)]) == Keys(m)
  {
    var r := m[i := (m[i].0, v)];
    assert forall j :: 0 <= j < |r| ==> r[j].0 == m[j].0;
  }

  lemma KeysOfAppend<K, V>(m: Dict<K, V>, k: K, v: V)
    ensures Keys(m + [(k, v)]) == Keys(m) + {k}
  {
    var r := m + [(k, v)];
    assert forall j :: 0 <= j < |m| ==> r[j] == m[j];
    assert r[|m|].0 == k;
  }
}
