/**
 * Python's `dict`, which remembers insertion order: an association list with
 * distinct keys. `d[k] = v` replaces the value of an existing key where it stands
 * and appends a new key at the end. The order shows up in the source's output:
 * the order of postings within a block record, the order `heapq.nlargest` sees
 * pub ids in (which breaks ties), and the order of the tokenizer's result.
 */
module OrderedDict {
  import opened Wrappers

  datatype Entry<K, V> = Entry(key: K, value: V)

  type Dict<K, V> = seq<Entry<K, V>>

  /** The keys, in insertion order. */
  function Keys<K, V>(d: Dict<K, V>): (ks: seq<K>)
    ensures |ks| == |d| && forall i :: 0 <= i < |d| ==> ks[i] == d[i].key
    decreases |d|
  {
    if d == [] then [] else [d[0].key] + Keys(d[1..])
  }

  /** No key occurs twice: what makes an association list a dict. */
  predicate DistinctKeys<K(==), V>(d: Dict<K, V>) {
    forall i, j :: 0 <= i < j < |d| ==> d[i].key != d[j].key
  }

  /** `d.get(k)`: the value of the first entry with key `k`. */
  function Get<K(==), V>(d: Dict<K, V>, k: K): Option<V>
    decreases |d|
  {
    if d == [] then None
    else if d[0].key == k then Some(d[0].value)
    else Get(d[1..], k)
  }

  /** `d.get(k)` finds something exactly when `k` is a key of `d`. */
  lemma {:induction false} GetFinds<K, V>(d: Dict<K, V>, k: K)
    ensures Get(d, k).Some? <==> k in Keys(d)
    decreases |d|
  {
    if d != [] {
      assert Keys(d) == [d[0].key] + Keys(d[1..]);
      GetFinds(d[1..], k);
    }
  }

  /** `d[k] = v`. */
  function Put<K(==,!new), V>(d: Dict<K, V>, k: K, v: V): (r: Dict<K, V>)
    ensures Get(r, k) == Some(v)
    ensures forall k' :: k' != k ==> Get(r, k') == Get(d, k')
    decreases |d|
  {
    if d == [] then [Entry(k, v)]
    else if d[0].key == k then [Entry(k, v)] + d[1..]
    else [d[0]] + Put(d[1..], k, v)
  }

  /** `d[k] = v` keeps the key order: an existing key stays where it is, a new one goes last. */
  lemma {:induction false} PutKeys<K(!new), V>(d: Dict<K, V>, k: K, v: V)
    ensures Keys(Put(d, k, v)) == if k in Keys(d) then Keys(d) else Keys(d) + [k]
    decreases |d|
  {
    var r := Put(d, k, v);
    if d == [] {
    } else if d[0].key == k {
      assert r[1..] == d[1..];
      assert Keys(r) == [k] + Keys(d[1..]);
      assert Keys(d) == [k] + Keys(d[1..]);
    } else {
      PutKeys(d[1..], k, v);
      var rest := Put(d[1..], k, v);
      assert Keys(d) == [d[0].key] + Keys(d[1..]);
      assert r == [d[0]] + rest;
      assert Keys(r) == [d[0].key] + Keys(rest);
      assert k in Keys(d) <==> k in Keys(d[1..]);
    }
  }

  /** A dict stays a dict after `d[k] = v`. */
  lemma PutDistinct<K(!new), V>(d: Dict<K, V>, k: K, v: V)
    requires DistinctKeys(d)
    ensures DistinctKeys(Put(d, k, v))
  {
    PutKeys(d, k, v);
    var r := Put(d, k, v);
    forall i, j | 0 <= i < j < |r|
      ensures r[i].key != r[j].key
    {
      assert Keys(r)[i] == r[i].key && Keys(r)[j] == r[j].key;
      if j < |d| {
        assert Keys(d)[i] == d[i].key && Keys(d)[j] == d[j].key;
      } else {
        assert k !in Keys(d) && Keys(r)[j] == k;
        assert Keys(r)[i] == Keys(d)[i];
      }
    }
  }

  /** In a dict with distinct keys, the entry at position i is what `Get` finds for its key. */
  lemma {:induction false} GetAt<K, V>(d: Dict<K, V>, i: nat)
    requires DistinctKeys(d) && i < |d|
    ensures Get(d, d[i].key) == Some(d[i].value)
    decreases |d|
  {
    if i > 0 {
      GetAt(d[1..], i - 1);
    }
  }

  /** Appending an entry changes what `Get` finds only for a key that was missing. */
  lemma {:induction false} GetAppend<K, V>(d: Dict<K, V>, e: Entry<K, V>, k: K)
    ensures Get(d + [e], k) == if k in Keys(d) then Get(d, k) else if e.key == k then Some(e.value) else None
    decreases |d|
  {
    if d != [] {
      assert (d + [e])[1..] == d[1..] + [e];
      assert Keys(d) == [d[0].key] + Keys(d[1..]);
      GetAppend(d[1..], e, k);
    }
  }

  /** In a dict, an entry's key does not occur among the entries before it. */
  lemma KeyNotBefore<K, V>(d: Dict<K, V>, n: nat)
    requires DistinctKeys(d) && n < |d|
    ensures d[n].key !in Keys(d[..n])
  {
    forall i | 0 <= i < n
      ensures Keys(d[..n])[i] != d[n].key
    {
      assert Keys(d[..n])[i] == d[i].key;
    }
  }

  /** The position of the entry `Get` finds: the first one with that key. */
  lemma {:induction false} GetIndex<K, V>(d: Dict<K, V>, k: K) returns (i: nat)
    requires Get(d, k).Some?
    ensures i < |d| && d[i].key == k && d[i].value == Get(d, k).value
    ensures forall j :: 0 <= j < i ==> d[j].key != k
    decreases |d|
  {
    if d[0].key == k {
      i := 0;
    } else {
      var j := GetIndex(d[1..], k);
      i := j + 1;
    }
  }

  /** A value found at two positions of a sequence occurs there at least twice. */
  lemma RepeatCount<T>(s: seq<T>, i: nat, j: nat)
    requires i < j < |s| && s[i] == s[j]
    ensures multiset(s)[s[i]] >= 2
  {
    assert s == s[..i] + [s[i]] + s[i + 1..j] + [s[j]] + s[j + 1..];
  }
}
