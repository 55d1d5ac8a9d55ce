/**
 * `Array.prototype.sort` with a comparator of the form `(a, b) => key(a) - key(b)`.
 * The sort of ECMAScript 2019 and later is stable, so its result is fixed:
 * sorted by key, with the elements of equal key in their original order.
 * SortBy defines that result (as an insertion sort); SortedStableIsSortBy
 * shows that any sorted, stable rearrangement is exactly it, whatever
 * algorithm the engine runs.
 */
module StableSort {

  /** Keys never decrease from left to right. */
  predicate SortedBy<T>(s: seq<T>, key: T -> int) {
    forall i, j :: 0 <= i < j < |s| ==> key(s[i]) <= key(s[j])
  }

  /** The tail of a sorted sequence is sorted, and no element of it is below the head. */
  lemma SortedTail<T>(s: seq<T>, key: T -> int)
    requires SortedBy(s, key) && s != []
    ensures SortedBy(s[1..], key)
    ensures forall i :: 0 <= i < |s[1..]| ==> key(s[0]) <= key(s[1..][i])
  {
    forall i, j | 0 <= i < j < |s[1..]| ensures key(s[1..][i]) <= key(s[1..][j]) {
      assert s[1..][i] == s[i + 1] && s[1..][j] == s[j + 1];
    }
    forall i | 0 <= i < |s[1..]| ensures key(s[0]) <= key(s[1..][i]) {
      assert s[1..][i] == s[i + 1];
    }
  }

  /** All of a sorted sequence but its last element is sorted, and none of it is above the last. */
  lemma SortedInit<T>(s: seq<T>, init: seq<T>, key: T -> int)
    requires SortedBy(s, key) && s != [] && init == s[..|s| - 1]
    ensures SortedBy(init, key)
    ensures forall i :: 0 <= i < |init| ==> key(init[i]) <= key(s[|s| - 1])
  {
    forall i, j | 0 <= i < j < |init| ensures key(init[i]) <= key(init[j]) {
      assert init[i] == s[i] && init[j] == s[j];
    }
    forall i | 0 <= i < |init| ensures key(init[i]) <= key(s[|s| - 1]) {
      assert init[i] == s[i];
    }
  }

  /** The elements of `s` whose key is `k`, in their order in `s`. */
  function WithKey<T>(s: seq<T>, key: T -> int, k: int): (r: seq<T>)
    ensures |r| <= |s|
  {
    if s == [] then [] else (if key(s[0]) == k then [s[0]] else []) + WithKey(s[1..], key, k)
  }

  /** Inserts `x` before the first element whose key is greater than its own. */
  function InsertBy<T>(s: seq<T>, x: T, key: T -> int): (r: seq<T>)
    ensures |r| == |s| + 1
    ensures multiset(r) == multiset(s) + multiset{x}
  {
    if s == [] then [x]
    else if key(s[0]) <= key(x) then
      assert s == [s[0]] + s[1..];
      [s[0]] + InsertBy(s[1..], x, key)
    else
      [x] + s
  }

  /** Inserting into a sorted sequence keeps it sorted. */
  lemma {:induction false} InsertBySorted<T>(s: seq<T>, x: T, key: T -> int)
    requires SortedBy(s, key)
    ensures SortedBy(InsertBy(s, x, key), key)
  {
    if s != [] && key(s[0]) <= key(x) {
      var tail := InsertBy(s[1..], x, key);
      InsertBySorted(s[1..], x, key);
      forall j | 0 <= j < |tail| ensures key(s[0]) <= key(tail[j]) {
        assert tail[j] in multiset(tail);
        assert tail[j] in s[1..] || tail[j] == x;
      }
    }
  }

  /** The stable sort of `s` by `key`. */
  function SortBy<T>(s: seq<T>, key: T -> int): (r: seq<T>)
    ensures |r| == |s|
    ensures multiset(r) == multiset(s)
  {
    if s == [] then []
    else
      assert s == s[..|s| - 1] + [s[|s| - 1]];
      InsertBy(SortBy(s[..|s| - 1], key), s[|s| - 1], key)
  }

  /** One step of SortBy: the last element is inserted into the sorted rest. */
  lemma SortByLast<T>(s: seq<T>, key: T -> int)
    requires s != []
    ensures SortBy(s, key) == InsertBy(SortBy(s[..|s| - 1], key), s[|s| - 1], key)
  {
  }

  lemma InitLast<T>(s: seq<T>)
    requires s != []
    ensures s == s[..|s| - 1] + [s[|s| - 1]]
  {
  }

  /** The result of SortBy is sorted. */
  lemma {:induction false} SortBySorts<T>(s: seq<T>, key: T -> int)
    ensures SortedBy(SortBy(s, key), key)
  {
    if s != [] {
      SortBySorts(s[..|s| - 1], key);
      InsertBySorted(SortBy(s[..|s| - 1], key), s[|s| - 1], key);
    }
  }

  lemma {:induction false} WithKeyConcat<T>(a: seq<T>, b: seq<T>, key: T -> int, k: int)
    ensures WithKey(a + b, key, k) == WithKey(a, key, k) + WithKey(b, key, k)
  {
    if a == [] {
      assert a + b == b;
    } else {
      var head := if key(a[0]) == k then [a[0]] else [];
      assert (a + b)[0] == a[0];
      assert (a + b)[1..] == a[1..] + b;
      WithKeyConcat(a[1..], b, key, k);
      calc {
        WithKey(a + b, key, k);
        head + WithKey(a[1..] + b, key, k);
        head + (WithKey(a[1..], key, k) + WithKey(b, key, k));
        (head + WithKey(a[1..], key, k)) + WithKey(b, key, k);
      }
    }
  }

  lemma {:induction false} WithKeyAbsent<T>(s: seq<T>, key: T -> int, k: int)
    requires forall i :: 0 <= i < |s| ==> key(s[i]) != k
    ensures WithKey(s, key, k) == []
  {
    if s != [] {
      WithKeyAbsent(s[1..], key, k);
    }
  }

  /** Inserting into a sorted sequence puts `x` after every element of its own key. */
  lemma {:induction false} InsertByWithKey<T>(s: seq<T>, x: T, key: T -> int, k: int)
    requires SortedBy(s, key)
    ensures WithKey(InsertBy(s, x, key), key, k) == WithKey(s, key, k) + WithKey([x], key, k)
  {
    if s == [] {
      assert [x] == [x] + [];
    } else if key(s[0]) <= key(x) {
      SortedTail(s, key);
      InsertByWithKey(s[1..], x, key, k);
      assert InsertBy(s, x, key) == [s[0]] + InsertBy(s[1..], x, key);
      WithKeyConcat([s[0]], InsertBy(s[1..], x, key), key, k);
      WithKeyConcat([s[0]], s[1..], key, k);
      assert [s[0]] + s[1..] == s;
    } else {
      assert InsertBy(s, x, key) == [x] + s;
      WithKeyConcat([x], s, key, k);
      if key(x) == k {
        forall i | 0 <= i < |s| ensures key(s[i]) != k {
          if i > 0 {
            assert key(s[0]) <= key(s[i]);
          }
        }
        WithKeyAbsent(s, key, k);
        assert WithKey(s, key, k) == [];
      } else {
        assert WithKey([x], key, k) == [];
      }
    }
  }

  /** Sorting keeps, for every key, the elements of that key in their original order. */
  lemma {:induction false} SortByIsStable<T>(s: seq<T>, key: T -> int, k: int)
    ensures WithKey(SortBy(s, key), key, k) == WithKey(s, key, k)
  {
    if s != [] {
      var init, last := s[..|s| - 1], s[|s| - 1];
      SortByIsStable(init, key, k);
      SortBySorts(init, key);
      InsertByWithKey(SortBy(init, key), last, key, k);
      assert s == init + [last];
      WithKeyConcat(init, [last], key, k);
    }
  }

  /** Appending an element whose key is not below any other key is already sorted in place. */
  lemma {:induction false} InsertByAtEnd<T>(s: seq<T>, x: T, key: T -> int)
    requires forall i :: 0 <= i < |s| ==> key(s[i]) <= key(x)
    ensures InsertBy(s, x, key) == s + [x]
  {
    if s != [] {
      InsertByAtEnd(s[1..], x, key);
      assert s == [s[0]] + s[1..];
    }
  }

  /** Sorting a sorted sequence changes nothing. */
  lemma {:induction false} SortBySorted<T>(s: seq<T>, key: T -> int)
    requires SortedBy(s, key)
    ensures SortBy(s, key) == s
  {
    if s != [] {
      var init, last := s[..|s| - 1], s[|s| - 1];
      SortedInit(s, init, key);
      SortBySorted(init, key);
      InsertByAtEnd(init, last, key);
      SortByLast(s, key);
      InitLast(s);
    }
  }

  /** A sorted sequence is the list of its keys' groups; the minimum key heads it. */
  lemma {:induction false} SortedHead<T>(s: seq<T>, key: T -> int)
    requires SortedBy(s, key) && s != []
    ensures WithKey(s, key, key(s[0])) != [] && WithKey(s, key, key(s[0]))[0] == s[0]
  {
  }

  /** In a sorted sequence, no element has a key below the head's. */
  lemma SortedNoneBelow<T>(s: seq<T>, key: T -> int, k: int)
    requires SortedBy(s, key) && s != [] && k < key(s[0])
    ensures WithKey(s, key, k) == []
  {
    WithKeyAbsent(s, key, k);
  }

  /**
   * Any two sorted sequences with the same elements of every key, in the same
   * order, are equal: a stable sort has exactly one possible result.
   */
  lemma {:induction false} SortedStableUnique<T>(a: seq<T>, b: seq<T>, key: T -> int)
    requires SortedBy(a, key) && SortedBy(b, key)
    requires forall k :: WithKey(a, key, k) == WithKey(b, key, k)
    ensures a == b
    decreases |a|
  {
    if a == [] {
      if b != [] {
        SortedHead(b, key);
        assert false;
      }
    } else if b == [] {
      SortedHead(a, key);
      assert false;
    } else {
      SameHead(a, b, key);
      SameTails(a, b, key);
      SortedTail(a, key);
      SortedTail(b, key);
      SortedStableUnique(a[1..], b[1..], key);
      assert a == [a[0]] + a[1..] && b == [b[0]] + b[1..];
    }
  }

  /** Two sorted sequences with the same groups start with the same element. */
  lemma SameHead<T>(a: seq<T>, b: seq<T>, key: T -> int)
    requires SortedBy(a, key) && SortedBy(b, key) && a != [] && b != []
    requires forall k :: WithKey(a, key, k) == WithKey(b, key, k)
    ensures a[0] == b[0]
  {
    var ka, kb := key(a[0]), key(b[0]);
    SortedHead(a, key);
    SortedHead(b, key);
    if ka < kb {
      SortedNoneBelow(b, key, ka);
      assert false;
    } else if kb < ka {
      SortedNoneBelow(a, key, kb);
      assert false;
    }
    assert WithKey(a, key, ka)[0] == a[0] && WithKey(b, key, ka)[0] == b[0];
  }

  /** Sequences with the same head and the same groups have tails with the same groups. */
  lemma SameTails<T>(a: seq<T>, b: seq<T>, key: T -> int)
    requires a != [] && b != [] && a[0] == b[0]
    requires forall k :: WithKey(a, key, k) == WithKey(b, key, k)
    ensures forall k :: WithKey(a[1..], key, k) == WithKey(b[1..], key, k)
  {
    forall k ensures WithKey(a[1..], key, k) == WithKey(b[1..], key, k) {
      var head := if key(a[0]) == k then [a[0]] else [];
      assert WithKey(a, key, k) == head + WithKey(a[1..], key, k);
      assert WithKey(b, key, k) == head + WithKey(b[1..], key, k);
      assert WithKey(a[1..], key, k) == WithKey(a, key, k)[|head|..];
      assert WithKey(b[1..], key, k) == WithKey(b, key, k)[|head|..];
    }
  }

  /**
   * JS sort specification: SortBy is sorted, a permutation, stable, and the
   * only sequence with those three properties.
   */
  lemma SortedStableIsSortBy<T>(s: seq<T>, r: seq<T>, key: T -> int)
    requires SortedBy(r, key)
    requires forall k :: WithKey(r, key, k) == WithKey(s, key, k)
    ensures r == SortBy(s, key)
  {
    forall k ensures WithKey(r, key, k) == WithKey(SortBy(s, key), key, k) {
      SortByIsStable(s, key, k);
    }
    SortBySorts(s, key);
    SortedStableUnique(r, SortBy(s, key), key);
  }

  /**
   * A sorted sequence whose keys all lie in 0..2 is its key-0 elements,
   * then its key-1 elements, then its key-2 elements.
   */
  lemma {:induction false} SortedThreeGroups<T>(s: seq<T>, key: T -> int)
    requires SortedBy(s, key)
    requires forall i :: 0 <= i < |s| ==> 0 <= key(s[i]) <= 2
    ensures s == WithKey(s, key, 0) + WithKey(s, key, 1) + WithKey(s, key, 2)
  {
    if s != [] {
      var x, rest := s[0], s[1..];
      SortedTail(s, key);
      forall i | 0 <= i < |rest| ensures 0 <= key(rest[i]) <= 2 {
        assert rest[i] == s[i + 1];
      }
      SortedThreeGroups(rest, key);
      if key(x) >= 1 {
        WithKeyAbsent(rest, key, 0);
      }
      if key(x) == 2 {
        WithKeyAbsent(rest, key, 1);
      }
      assert WithKey(s, key, 0) == (if key(x) == 0 then [x] else []) + WithKey(rest, key, 0);
      assert WithKey(s, key, 1) == (if key(x) == 1 then [x] else []) + WithKey(rest, key, 1);
      assert WithKey(s, key, 2) == (if key(x) == 2 then [x] else []) + WithKey(rest, key, 2);
      PrependGroups(x, rest, WithKey(rest, key, 0), WithKey(rest, key, 1), WithKey(rest, key, 2), key(x));
      assert s == [x] + rest;
    }
  }

  /** Putting `x` in front of three groups puts it at the head of group `c`, when the groups before `c` are empty. */
  lemma PrependGroups<T>(x: T, rest: seq<T>, w0: seq<T>, w1: seq<T>, w2: seq<T>, c: int)
    requires rest == w0 + w1 + w2 && 0 <= c <= 2
    requires c >= 1 ==> w0 == []
    requires c == 2 ==> w1 == []
    ensures [x] + rest
      == ((if c == 0 then [x] else []) + w0) + ((if c == 1 then [x] else []) + w1) + ((if c == 2 then [x] else []) + w2)
  {
    if c == 0 {
      assert [x] + (w0 + w1 + w2) == ([x] + w0) + w1 + w2;
    } else if c == 1 {
      assert [x] + (w1 + w2) == ([x] + w1) + w2;
    } else {
      assert [] + w0 + w1 == [];
    }
  }

  /** An element whose key no other element shares forms its key's group alone. */
  lemma WithKeySingle<T>(s: seq<T>, key: T -> int, i: nat)
    requires i < |s|
    requires forall j :: 0 <= j < |s| && j != i ==> key(s[j]) != key(s[i])
    ensures WithKey(s, key, key(s[i])) == [s[i]]
  {
    var k := key(s[i]);
    var pre, post := s[..i], s[i + 1..];
    forall j | 0 <= j < |pre| ensures key(pre[j]) != k {
      assert pre[j] == s[j];
    }
    forall j | 0 <= j < |post| ensures key(post[j]) != k {
      assert post[j] == s[i + 1 + j];
    }
    WithKeyAbsent(pre, key, k);
    WithKeyAbsent(post, key, k);
    SplitAt(s, i);
    WithKeyAround(pre, s[i], post, key);
  }

  lemma SplitAt<T>(s: seq<T>, i: nat)
    requires i < |s|
    ensures s == s[..i] + [s[i]] + s[i + 1..]
  {
  }

  /** The group of `x`'s key in `pre + [x] + post`, when neither side holds that key. */
  lemma WithKeyAround<T>(pre: seq<T>, x: T, post: seq<T>, key: T -> int)
    requires WithKey(pre, key, key(x)) == [] && WithKey(post, key, key(x)) == []
    ensures WithKey(pre + [x] + post, key, key(x)) == [x]
  {
    WithKeyConcat(pre + [x], post, key, key(x));
    WithKeyConcat(pre, [x], key, key(x));
    assert [x][1..] == [];
  }

  /** A sorted sequence whose three groups are single elements is those three elements. */
  lemma SortedThreeSingles<T>(s: seq<T>, key: T -> int, a: T, b: T, c: T)
    requires SortedBy(s, key)
    requires forall i :: 0 <= i < |s| ==> 0 <= key(s[i]) <= 2
    requires WithKey(s, key, 0) == [a] && WithKey(s, key, 1) == [b] && WithKey(s, key, 2) == [c]
    ensures s == [a, b, c]
  {
    SortedThreeGroups(s, key);
    ConcatSingles(s, WithKey(s, key, 0), WithKey(s, key, 1), WithKey(s, key, 2), a, b, c);
  }

  lemma ConcatSingles<T>(s: seq<T>, w0: seq<T>, w1: seq<T>, w2: seq<T>, a: T, b: T, c: T)
    requires s == w0 + w1 + w2 && w0 == [a] && w1 == [b] && w2 == [c]
    ensures s == [a, b, c]
  {
  }
}
