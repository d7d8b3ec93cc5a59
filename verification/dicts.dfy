/**
 * Python dictionaries as the sequence of their items in insertion order.
 * Lookup finds the first item with the key; every dictionary built by the
 * operations below from distinct keys keeps its keys distinct.
 */
module Dicts {

  type Dict<K(==), V> = seq<(K, V)>

  function Keys<K(==), V>(d: Dict<K, V>): set<K>
  {
    if d == [] then {} else {d[0].0} + Keys(d[1..])
  }

  /** No key occurs twice, as in every Python dict. */
  predicate Distinct<K(==), V>(d: Dict<K, V>)
  {
    d == [] || (d[0].0 !in Keys(d[1..]) && Distinct(d[1..]))
  }

  /** `d[k]`. */
  function Get<K(==), V>(d: Dict<K, V>, k: K): (v: V)
    requires k in Keys(d)
    ensures (k, v) in d
  {
    if d[0].0 == k then d[0].1 else Get(d[1..], k)
  }

  /** A dictionary of one item. */
  lemma Singleton<K, V>(k: K, v: V)
    ensures Keys([(k, v)]) == {k}
    ensures Distinct([(k, v)])
    ensures Get([(k, v)], k) == v
  {
    assert [(k, v)][1..] == [];
  }

  /** `d[k] = v`: an existing key keeps its position, a new key goes last. */
  function Put<K(==), V>(d: Dict<K, V>, k: K, v: V): (r: Dict<K, V>)
    ensures Keys(r) == Keys(d) + {k}
    ensures Get(r, k) == v
    ensures forall k' :: k' in Keys(d) && k' != k ==> Get(r, k') == Get(d, k')
    ensures k !in Keys(d) ==> r == d + [(k, v)]
    ensures k in Keys(d) ==> |r| == |d|
    ensures forall i :: 0 <= i < |d| ==> r[i].0 == d[i].0
    ensures Distinct(d) ==> Distinct(r)
    ensures forall p :: p in r ==> p in d || p == (k, v)
  {
    if d == [] then [(k, v)]
    else if d[0].0 == k then [(k, v)] + d[1..]
    else [d[0]] + Put(d[1..], k, v)
  }

  /** `d.setdefault(k, v)`: inserts `k` with `v` only when `k` is absent. */
  function SetDefault<K(==), V>(d: Dict<K, V>, k: K, v: V): (r: Dict<K, V>)
    ensures Keys(r) == Keys(d) + {k}
    ensures k in Keys(d) ==> r == d
    ensures k !in Keys(d) ==> r == d + [(k, v)] && Get(r, k) == v
    ensures forall k' :: k' in Keys(d) ==> Get(r, k') == Get(d, k')
    ensures Distinct(d) ==> Distinct(r)
    ensures forall p :: p in r ==> p in d || p == (k, v)
  {
    if k in Keys(d) then d else Put(d, k, v)
  }

  /**
   * `{**a, **b}`: the items of `a`, then those of `b` in order; a key of `b`
   * that `a` already has takes `b`'s value in `a`'s position.
   */
  function Union<K(==), V>(a: Dict<K, V>, b: Dict<K, V>): (r: Dict<K, V>)
    ensures Keys(r) == Keys(a) + Keys(b)
    decreases |b|
  {
    if b == [] then a else Union(Put(a, b[0].0, b[0].1), b[1..])
  }

  /**
   * In `{**a, **b}` a key of `b` has `b`'s value, every other key keeps
   * `a`'s, the keys of `a` keep their positions, and no item comes from
   * elsewhere.
   */
  lemma {:induction false} UnionItems<K, V>(a: Dict<K, V>, b: Dict<K, V>)
    ensures var r := Union(a, b);
      && (forall k :: k in Keys(a) && k !in Keys(b) ==> Get(r, k) == Get(a, k))
      && (Distinct(b) ==> forall k :: k in Keys(b) ==> Get(r, k) == Get(b, k))
      && |a| <= |r| && (forall i :: 0 <= i < |a| ==> r[i].0 == a[i].0)
      && (Distinct(a) ==> Distinct(r))
      && (forall p :: p in r ==> p in a || p in b)
    decreases |b|
  {
    if b != [] {
      UnionItems(Put(a, b[0].0, b[0].1), b[1..]);
    }
  }
}
