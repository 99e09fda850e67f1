/**
 * A Python `dict` as an association list in insertion order. Assigning to
 * an existing key keeps its position; a new key goes to the end.
 */
module Dict {
  import opened Wrappers

  type Dict<K, V> = seq<(K, V)>

  function Keys<K, V>(d: Dict<K, V>): (ks: seq<K>)
    ensures |ks| == |d|
    ensures forall i :: 0 <= i < |d| ==> ks[i] == d[i].0
  {
    if d == [] then [] else [d[0].0] + Keys(d[1..])
  }

  /** No key occurs twice: every dict a program can build has this shape. */
  predicate DistinctKeys<K(==), V>(d: Dict<K, V>) {
    forall i, j :: 0 <= i < j < |d| ==> d[i].0 != d[j].0
  }

  /** `d.get(k)`. */
  function Get<K(==), V>(d: Dict<K, V>, k: K): (r: Option<V>)
    ensures r.None? <==> k !in Keys(d)
  {
    if d == [] then None
    else if d[0].0 == k then Some(d[0].1)
    else Get(d[1..], k)
  }

  /** With distinct keys, looking up the key of an entry finds that entry's value. */
  lemma {:induction false} GetAt<K, V>(d: Dict<K, V>, i: nat)
    requires DistinctKeys(d) && i < |d|
    ensures Get(d, d[i].0) == Some(d[i].1)
  {
    if i > 0 {
      assert d[0].0 != d[i].0;
      assert DistinctKeys(d[1..]) by {
        forall a, b | 0 <= a < b < |d| - 1 ensures d[1..][a].0 != d[1..][b].0 {
          assert d[1..][a] == d[a + 1] && d[1..][b] == d[b + 1];
        }
      }
      GetAt(d[1..], i - 1);
    }
  }

  /** Appending an entry appends its key. */
  lemma KeysSnoc<K, V>(d: Dict<K, V>, k: K, v: V)
    ensures Keys(d + [(k, v)]) == Keys(d) + [k]
  {
    var r := d + [(k, v)];
    assert forall i :: 0 <= i < |d| ==> Keys(r)[i] == r[i].0 == d[i].0;
  }

  /** Looking up in a list with one more entry at the end. */
  lemma {:induction false} GetSnoc<K, V>(d: Dict<K, V>, k: K, v: V, j: K)
    ensures Get(d + [(k, v)], j) == if j in Keys(d) then Get(d, j) else if j == k then Some(v) else None
  {
    if d != [] {
      assert (d + [(k, v)])[1..] == d[1..] + [(k, v)];
      GetSnoc(d[1..], k, v, j);
    }
  }

  /** A prefix of a list with distinct keys has distinct keys, none of them a later key. */
  lemma DistinctPrefix<K, V>(d: Dict<K, V>, n: nat)
    requires DistinctKeys(d) && n < |d|
    ensures DistinctKeys(d[..n]) && d[n].0 !in Keys(d[..n])
  {
    var p := d[..n];
    assert forall i :: 0 <= i < |p| ==> p[i] == d[i];
    forall i | 0 <= i < |p| ensures Keys(p)[i] != d[n].0 {
      assert Keys(p)[i] == d[i].0;
    }
  }

  /** With distinct keys, the last entry decides its own key and leaves the others to the rest. */
  lemma GetLast<K, V>(d: Dict<K, V>, j: K)
    requires DistinctKeys(d) && d != []
    ensures var n := |d| - 1;
      && DistinctKeys(d[..n])
      && (j in Keys(d) <==> j == d[n].0 || j in Keys(d[..n]))
      && Get(d, j) == if j == d[n].0 then Some(d[n].1) else Get(d[..n], j)
  {
    var n := |d| - 1;
    var p, k, v := d[..n], d[n].0, d[n].1;
    DistinctPrefix(d, n);
    assert d == p + [(k, v)];
    GetSnoc(p, k, v, j);
    KeysSnoc(p, k, v);
  }

  /** `d[k] = v`. */
  function Set<K(==), V>(d: Dict<K, V>, k: K, v: V): (r: Dict<K, V>)
    ensures k in Keys(d) ==> Keys(r) == Keys(d)
    ensures k !in Keys(d) ==> Keys(r) == Keys(d) + [k]
  {
    if d == [] then [(k, v)]
    else if d[0].0 == k then [(k, v)] + d[1..]
    else [d[0]] + Set(d[1..], k, v)
  }

  lemma {:induction false} GetSet<K, V>(d: Dict<K, V>, k: K, v: V, j: K)
    ensures Get(Set(d, k, v), j) == if j == k then Some(v) else Get(d, j)
  {
    if d != [] && d[0].0 != k {
      GetSet(d[1..], k, v, j);
    }
  }

  lemma {:induction false} SetKeepsDistinct<K, V>(d: Dict<K, V>, k: K, v: V)
    requires DistinctKeys(d)
    ensures DistinctKeys(Set(d, k, v))
  {
    var r := Set(d, k, v);
    forall i, j | 0 <= i < j < |r| ensures r[i].0 != r[j].0 {
      assert Keys(r)[i] == r[i].0 && Keys(r)[j] == r[j].0;
      if j == |d| {
        assert k !in Keys(d) && Keys(r)[j] == k;
        assert Keys(r)[i] == Keys(d)[i];
      } else {
        assert Keys(r)[i] == Keys(d)[i] && Keys(r)[j] == Keys(d)[j];
      }
    }
  }
}
