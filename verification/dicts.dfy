/** Python's `dict`, as the program uses it: entries in insertion order,
    assignment to an existing key keeping its place, and iteration over
    keys or values in that order. */
module Dicts {
  import opened Wrappers

  /** The entries of a dict, oldest first. */
  type Dict<K, V> = seq<(K, V)>

  /** `d.keys()`, in insertion order. */
  function Keys<K, V>(d: Dict<K, V>): (ks: seq<K>)
    ensures |ks| == |d|
    ensures forall i :: 0 <= i < |d| ==> ks[i] == d[i].0
  {
    if |d| == 0 then [] else [d[0].0] + Keys(d[1..])
  }

  /** `d.values()`, in insertion order. */
  function Values<K, V>(d: Dict<K, V>): seq<V> {
    seq(|d|, i requires 0 <= i < |d| => d[i].1)
  }

  /** Every key occurs once, as in any Python dict. */
  predicate Valid<K(==), V>(d: Dict<K, V>) {
    forall i, j :: 0 <= i < j < |d| ==> d[i].0 != d[j].0
  }

  /** `d[k]`, with `None` for the `KeyError`. */
  function Get<K(==), V>(d: Dict<K, V>, k: K): Option<V> {
    if |d| == 0 then None
    else if d[0].0 == k then Some(d[0].1)
    else Get(d[1..], k)
  }

  /** `d[k] = v`: an existing key keeps its place and takes the new value;
      a new key goes last. */
  function Put<K(==), V>(d: Dict<K, V>, k: K, v: V): Dict<K, V> {
    if |d| == 0 then [(k, v)]
    else if d[0].0 == k then [(k, v)] + d[1..]
    else [d[0]] + Put(d[1..], k, v)
  }

  /** `d[k]` raises exactly when `k` is not a key, and otherwise gives the
      value of an entry for `k`. */
  lemma {:induction false} GetSpec<K, V>(d: Dict<K, V>, k: K)
    ensures Get(d, k).None? <==> k !in Keys(d)
    ensures Get(d, k).Some? ==> exists i :: 0 <= i < |d| && d[i] == (k, Get(d, k).value)
    decreases |d|
  {
    if |d| > 0 {
      GetSpec(d[1..], k);
      assert Keys(d) == [d[0].0] + Keys(d[1..]);
      if d[0].0 != k && Get(d[1..], k).Some? {
        var i :| 0 <= i < |d[1..]| && d[1..][i] == (k, Get(d, k).value);
        assert d[i + 1] == (k, Get(d, k).value);
      }
    }
  }

  /** The keys of two dicts' entries side by side. */
  lemma KeysAppend<K, V>(a: Dict<K, V>, b: Dict<K, V>)
    ensures Keys(a + b) == Keys(a) + Keys(b)
  {
  }

  /** Assignment keeps the keys in place and appends a new key. */
  lemma {:induction false} PutKeys<K, V>(d: Dict<K, V>, k: K, v: V)
    ensures k in Keys(d) ==> Keys(Put(d, k, v)) == Keys(d)
    ensures k !in Keys(d) ==> Keys(Put(d, k, v)) == Keys(d) + [k]
    decreases |d|
  {
    if |d| > 0 {
      var rest := d[1..];
      assert d == [d[0]] + rest;
      KeysAppend([d[0]], rest);
      if d[0].0 == k {
        KeysAppend([(k, v)], rest);
      } else {
        PutKeys(rest, k, v);
        KeysAppend([d[0]], Put(rest, k, v));
        assert k in Keys(d) <==> k in Keys(rest);
        if k !in Keys(rest) {
          assert [d[0].0] + (Keys(rest) + [k]) == ([d[0].0] + Keys(rest)) + [k];
        }
      }
    }
  }

  /** After `d[k] = v`, `k` looks up `v` and every other key what it did. */
  lemma {:induction false} PutGet<K, V>(d: Dict<K, V>, k: K, v: V, k': K)
    ensures Get(Put(d, k, v), k) == Some(v)
    ensures k' != k ==> Get(Put(d, k, v), k') == Get(d, k')
    decreases |d|
  {
    if |d| > 0 && d[0].0 != k {
      var r := Put(d, k, v);
      assert r[1..] == Put(d[1..], k, v);
      PutGet(d[1..], k, v, k');
    } else if |d| > 0 {
      assert Put(d, k, v)[1..] == d[1..];
    }
  }

  /** `d.get(k, dflt)`. */
  function GetOr<K(==), V>(d: Dict<K, V>, k: K, dflt: V): V {
    match Get(d, k)
    case Some(v) => v
    case None => dflt
  }

  /** `d.get(k, dflt)` is the default exactly for a missing key, and
      otherwise the value of an entry for `k`. */
  lemma GetOrSpec<K, V>(d: Dict<K, V>, k: K, dflt: V)
    ensures k !in Keys(d) ==> GetOr(d, k, dflt) == dflt
    ensures k in Keys(d) ==> exists i :: 0 <= i < |d| && d[i] == (k, GetOr(d, k, dflt))
  {
    GetSpec(d, k);
  }

  /** In a valid dict the entry at `i` is what its key looks up. */
  lemma {:induction false} GetEntry<K, V>(d: Dict<K, V>, i: nat)
    requires Valid(d) && i < |d|
    ensures Get(d, d[i].0) == Some(d[i].1)
  {
    var r := Get(d, d[i].0);
    GetSpec(d, d[i].0);
    assert d[i].0 in Keys(d);
    var j :| 0 <= j < |d| && d[j] == (d[i].0, r.value);
    assert i == j;
  }

  /** Assignment keeps a dict valid. */
  lemma PutValid<K, V>(d: Dict<K, V>, k: K, v: V)
    requires Valid(d)
    ensures Valid(Put(d, k, v))
  {
    var r := Put(d, k, v);
    PutKeys(d, k, v);
    forall i, j | 0 <= i < j < |r| ensures r[i].0 != r[j].0 {
      assert Keys(r)[i] == r[i].0 && Keys(r)[j] == r[j].0;
      if k !in Keys(d) && j == |d| {
        assert Keys(r)[i] == Keys(d)[i];
      } else {
        assert Keys(r)[i] == Keys(d)[i] && Keys(r)[j] == Keys(d)[j];
      }
    }
  }

  /** In a valid dict, `k` looks up `v` exactly when `(k, v)` is an entry. */
  lemma GetValid<K, V>(d: Dict<K, V>, k: K, v: V)
    requires Valid(d)
    ensures Get(d, k) == Some(v) <==> (k, v) in d
  {
    if (k, v) in d {
      var i :| 0 <= i < |d| && d[i] == (k, v);
      GetEntry(d, i);
    }
  }

  /** Two valid dicts that look every key up alike hold the same entries,
      perhaps in another order. */
  lemma SameGetsSameEntries<K, V>(d1: Dict<K, V>, d2: Dict<K, V>)
    requires Valid(d1) && Valid(d2)
    requires forall k :: Get(d1, k) == Get(d2, k)
    ensures forall e :: e in d1 <==> e in d2
  {
    forall e | e in d1 ensures e in d2 {
      GetValid(d1, e.0, e.1);
      GetValid(d2, e.0, e.1);
    }
    forall e | e in d2 ensures e in d1 {
      GetValid(d1, e.0, e.1);
      GetValid(d2, e.0, e.1);
    }
  }
}
