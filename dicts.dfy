/** The optional value of a lookup that may miss. */
module Wrappers {
  datatype Option<+T> = None | Some(value: T)
}

/**
 * Insertion-ordered dictionaries, as the program's dictionaries behave:
 * a dictionary is the list of its items in insertion order, assigning to a
 * present key replaces its value in place, and assigning to a new key
 * appends the item at the end.
 */
module Dicts {
  import opened Wrappers

  type Dict<K, V> = seq<(K, V)>

  /** The keys of `d`, in item order. */
  function Keys<K, V>(d: Dict<K, V>): (ks: seq<K>)
    ensures |ks| == |d|
    ensures forall i | 0 <= i < |d| :: ks[i] == d[i].0
  {
    if d == [] then [] else [d[0].0] + Keys(d[1..])
  }

  /** The position of the first item with key `k`, if any. */
  function IndexOf<K(==), V>(d: Dict<K, V>, k: K): (r: Option<nat>)
    ensures r.None? <==> forall i | 0 <= i < |d| :: d[i].0 != k
    ensures r.Some? ==> r.value < |d| && d[r.value].0 == k && forall j | 0 <= j < r.value :: d[j].0 != k
  {
    if d == [] then None
    else if d[0].0 == k then Some(0)
    else
      assert forall i | 1 <= i < |d| :: d[i] == d[1..][i - 1];
      match IndexOf(d[1..], k)
      case Some(i) => Some(i + 1)
      case None => None
  }

  /** The value stored under `k`, if any (`k in d` and `d[k]`). */
  function Get<K(==), V>(d: Dict<K, V>, k: K): Option<V> {
    match IndexOf(d, k)
    case Some(i) => Some(d[i].1)
    case None => None
  }

  /** `d.get(k, dflt)`. */
  function GetOr<K(==), V>(d: Dict<K, V>, k: K, dflt: V): (v: V)
    ensures Get(d, k).Some? ==> v == Get(d, k).value
    ensures Get(d, k).None? ==> v == dflt
  {
    match Get(d, k)
    case Some(v) => v
    case None => dflt
  }

  /** `d[k] = v`: replaces the value of a present key, appends a new key. */
  function Put<K(==,!new), V>(d: Dict<K, V>, k: K, v: V): (r: Dict<K, V>)
    ensures Get(r, k) == Some(v)
    ensures forall k' | k' != k :: Get(r, k') == Get(d, k')
  {
    if d == [] then [(k, v)]
    else if d[0].0 == k then [(k, v)] + d[1..]
    else
      var rest := Put(d[1..], k, v);
      assert d == [d[0]] + d[1..];
      GetCons(d[0], d[1..], k);
      GetCons(d[0], rest, k);
      assert forall k' | k' != k :: Get([d[0]] + rest, k') == Get(d, k') by {
        forall k' | k' != k ensures Get([d[0]] + rest, k') == Get(d, k') {
          GetCons(d[0], d[1..], k');
          GetCons(d[0], rest, k');
        }
      }
      [d[0]] + rest
  }

  /** Assigning to a present key keeps the keys and their order. */
  lemma {:induction false} PutKeepsKeys<K(!new), V>(d: Dict<K, V>, k: K, v: V)
    requires k in Keys(d)
    ensures Keys(Put(d, k, v)) == Keys(d)
  {
    KeysCons(d[0], d[1..]);
    assert d == [d[0]] + d[1..];
    if d[0].0 != k {
      PutKeepsKeys(d[1..], k, v);
      KeysCons(d[0], Put(d[1..], k, v));
    } else {
      KeysCons((k, v), d[1..]);
    }
  }

  /** Assigning to a new key appends its item at the end. */
  lemma {:induction false} PutAppends<K(!new), V>(d: Dict<K, V>, k: K, v: V)
    requires k !in Keys(d)
    ensures Put(d, k, v) == d + [(k, v)]
  {
    if d != [] {
      KeysCons(d[0], d[1..]);
      assert d == [d[0]] + d[1..];
      PutAppends(d[1..], k, v);
      assert [d[0]] + (d[1..] + [(k, v)]) == d + [(k, v)];
    }
  }

  /** No key occurs twice. */
  predicate Distinct<K(==)>(ks: seq<K>) {
    forall i, j | 0 <= i < j < |ks| :: ks[i] != ks[j]
  }

  /** Assignment keeps a dictionary's keys distinct, so its items are one per key. */
  lemma PutKeepsDistinct<K(!new), V>(d: Dict<K, V>, k: K, v: V)
    requires Distinct(Keys(d))
    ensures Distinct(Keys(Put(d, k, v)))
  {
    if k in Keys(d) {
      PutKeepsKeys(d, k, v);
    } else {
      PutAppends(d, k, v);
      AppendNewKey(Keys(d), Keys(d + [(k, v)]), k);
    }
  }

  lemma AppendNewKey<K>(ks: seq<K>, ks': seq<K>, k: K)
    requires Distinct(ks) && k !in ks
    requires |ks'| == |ks| + 1 && ks'[|ks|] == k && forall i | 0 <= i < |ks| :: ks'[i] == ks[i]
    ensures Distinct(ks')
  {
  }

  lemma GetCons<K, V>(x: (K, V), d: Dict<K, V>, k: K)
    ensures Get([x] + d, k) == if x.0 == k then Some(x.1) else Get(d, k)
  {
    assert ([x] + d)[1..] == d;
  }

  lemma KeysCons<K, V>(x: (K, V), d: Dict<K, V>)
    ensures Keys([x] + d) == [x.0] + Keys(d)
  {
    assert ([x] + d)[1..] == d;
  }
}
