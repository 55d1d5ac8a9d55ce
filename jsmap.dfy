/**
 * A JavaScript `Map` (and a plain object with string keys) as the sequence
 * of its entries in insertion order. `get` answers from the entry of the key;
 * `set` on a key already present changes that entry's value where it stands,
 * and on a new key appends an entry. The column drag depends on this order.
 * A real Map never holds a key twice; DistinctKeys states that here, and
 * every operation keeps it.
 */
module JsMap {
  import opened Options
  import opened JsArray

  /** The position of the entry for `k`, or -1 when there is none. */
  function KeyIndex<K(==), V>(m: seq<(K, V)>, k: K): (r: int)
    ensures -1 <= r < |m|
    ensures r >= 0 ==> m[r].0 == k && forall j :: 0 <= j < r ==> m[j].0 != k
    ensures r == -1 ==> forall j :: 0 <= j < |m| ==> m[j].0 != k
  {
    if m == [] then -1
    else if m[0].0 == k then 0
    else
      var r := KeyIndex(m[1..], k);
      if r == -1 then -1 else r + 1
  }

  /** The keys in iteration order (`Array.from(m.keys())`). */
  function Keys<K, V>(m: seq<(K, V)>): (ks: seq<K>)
    ensures |ks| == |m|
    ensures forall j :: 0 <= j < |m| ==> ks[j] == m[j].0
  {
    seq(|m|, j requires 0 <= j < |m| => m[j].0)
  }

  /** No key occurs twice, as in every JavaScript Map. */
  predicate DistinctKeys<K(==), V>(m: seq<(K, V)>) {
    forall i, j :: 0 <= i < j < |m| ==> m[i].0 != m[j].0
  }

  /** `m.get(k)`. */
  function Get<K(==), V>(m: seq<(K, V)>, k: K): (r: Option<V>)
    ensures r.Some? <==> k in Keys(m)
    ensures r.Some? ==> (k, r.value) in m
  {
    var p := KeyIndex(m, k);
    if p >= 0 then
      assert Keys(m)[p] == k;
      Some(m[p].1)
    else
      None
  }

  /** The first position holding `k` is the one KeyIndex finds. */
  lemma KeyIndexIs<K, V>(m: seq<(K, V)>, k: K, p: int)
    requires -1 <= p < |m|
    requires p >= 0 ==> m[p].0 == k
    requires forall j :: 0 <= j < |m| && (p == -1 || j < p) ==> m[j].0 != k
    ensures KeyIndex(m, k) == p
  {
  }

  /** `m.set(k, v)`. */
  function Set<K(==, !new), V>(m: seq<(K, V)>, k: K, v: V): (r: seq<(K, V)>)
    ensures Get(r, k) == Some(v)
    ensures forall k' :: k' != k ==> Get(r, k') == Get(m, k')
    ensures Get(m, k).Some? ==> Keys(r) == Keys(m)
    ensures Get(m, k).None? ==> Keys(r) == Keys(m) + [k]
    ensures DistinctKeys(m) ==> DistinctKeys(r)
  {
    var p := KeyIndex(m, k);
    var r := if p >= 0 then m[p := (k, v)] else m + [(k, v)];
    assert Get(r, k) == Some(v) by {
      KeyIndexIs(r, k, if p >= 0 then p else |m|);
    }
    assert forall k' :: k' != k ==> Get(r, k') == Get(m, k') by {
      forall k' | k' != k ensures Get(r, k') == Get(m, k') {
        KeyIndexIs(r, k', KeyIndex(m, k'));
      }
    }
    r
  }

  /** In a map without repeated keys, the entry holding `k` is the one `get` reads. */
  lemma GetEntry<K, V>(m: seq<(K, V)>, k: K, v: V)
    requires DistinctKeys(m) && (k, v) in m
    ensures Get(m, k) == Some(v)
  {
    var i :| 0 <= i < |m| && m[i] == (k, v);
    assert KeyIndex(m, k) == i;
  }

  /** The value `get` reads is the one stored at the key's position. */
  lemma GetAt<K, V>(m: seq<(K, V)>, i: nat)
    requires DistinctKeys(m) && i < |m|
    ensures Get(m, m[i].0) == Some(m[i].1)
  {
    GetEntry(m, m[i].0, m[i].1);
  }

  /** Two maps with the same entries in any order answer every `get` alike. */
  lemma {:induction false} GetOfPermutation<K, V>(a: seq<(K, V)>, b: seq<(K, V)>)
    requires DistinctKeys(a) && DistinctKeys(b)
    requires multiset(a) == multiset(b)
    ensures forall k :: Get(a, k) == Get(b, k)
  {
    forall k ensures Get(a, k) == Get(b, k) {
      if Get(a, k).Some? {
        var e := (k, Get(a, k).value);
        assert e in multiset(b);
        GetEntry(b, k, e.1);
      }
      if Get(b, k).Some? {
        var e := (k, Get(b, k).value);
        assert e in multiset(a);
        GetEntry(a, k, e.1);
      }
    }
  }

  /** Removing an entry keeps the keys distinct. */
  lemma DistinctKeysRemoveAt<K, V>(m: seq<(K, V)>, i: nat)
    requires DistinctKeys(m)
    ensures DistinctKeys(RemoveAt(m, i))
  {
    var r := RemoveAt(m, i);
    if i < |m| {
      forall a, b | 0 <= a < b < |r| ensures r[a].0 != r[b].0 {
        var a', b' := if a < i then a else a + 1, if b < i then b else b + 1;
        assert r[a] == m[a'] && r[b] == m[b'];
      }
    }
  }

  /** Inserting an entry whose key is new keeps the keys distinct. */
  lemma DistinctKeysInsertAt<K, V>(m: seq<(K, V)>, i: nat, e: (K, V))
    requires DistinctKeys(m) && e.0 !in Keys(m)
    ensures DistinctKeys(InsertAt(m, i, e))
  {
    var r := InsertAt(m, i, e);
    var p := Clamp(i, |m|);
    forall a, b | 0 <= a < b < |r| ensures r[a].0 != r[b].0 {
      if a != p && b != p {
        var a', b' := if a < p then a else a - 1, if b < p then b else b - 1;
        assert r[a] == m[a'] && r[b] == m[b'];
      } else if a == p {
        assert r[b] == m[b - 1] && Keys(m)[b - 1] == m[b - 1].0;
      } else {
        assert r[a] == m[a] && Keys(m)[a] == m[a].0;
      }
    }
  }

  /** Moving one entry to another position keeps the keys distinct. */
  lemma DistinctKeysMoveWithin<K, V>(m: seq<(K, V)>, from: nat, to: nat)
    requires DistinctKeys(m) && from < |m|
    ensures DistinctKeys(MoveWithin(m, from, to))
  {
    var rest := RemoveAt(m, from);
    DistinctKeysRemoveAt(m, from);
    DistinctKeysInsertAt(rest, to, m[from]);
  }

  /** Setting a key that is absent appends its entry at the end. */
  lemma SetNew<K(!new), V>(m: seq<(K, V)>, k: K, v: V)
    requires Get(m, k).None?
    ensures Set(m, k, v) == m + [(k, v)]
  {
  }

  /** Two maps with the same keys in the same order find every key at the same position. */
  lemma SameKeys<K, V, W>(a: seq<(K, V)>, b: seq<(K, W)>, k: K)
    requires |a| == |b| && forall j :: 0 <= j < |a| ==> a[j].0 == b[j].0
    ensures KeyIndex(b, k) == KeyIndex(a, k)
    ensures Keys(b) == Keys(a)
    ensures DistinctKeys(a) ==> DistinctKeys(b)
  {
    KeyIndexIs(b, k, KeyIndex(a, k));
  }

  /**
   * One step of a fold that sets each entry's key in turn: when the object so
   * far has the keys of all but the last entry, setting the last entry's key
   * gives the keys of all entries.
   */
  lemma KeysStep<K(!new), V, W>(entries: seq<(K, V)>, prev: seq<(K, W)>, w: W)
    requires entries != []
    requires forall k :: k in Keys(prev) <==> k in Keys(entries[..|entries| - 1])
    ensures forall k :: k in Keys(Set(prev, entries[|entries| - 1].0, w)) <==> k in Keys(entries)
  {
    var init, last := entries[..|entries| - 1], entries[|entries| - 1];
    assert entries == init + [last];
    assert Keys(entries) == Keys(init) + [last.0];
  }
}
