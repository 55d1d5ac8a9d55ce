/**
 * The JavaScript array built-ins the board code relies on: `splice` used to
 * remove one element or to insert one element, `findIndex` and `indexOf`.
 * Arrays are values here. The board component splices fresh copies
 * (`Array.from`); the store splices, pushes into and sorts arrays that the
 * previous board still shares, which a value model does not show.
 */
module JsArray {

  /** The position `splice(start, …)` actually starts at: a start past the end is the end. */
  function Clamp(start: nat, length: nat): (p: nat)
    ensures p <= length
    ensures start <= length ==> p == start
    ensures start > length ==> p == length
  {
    if start <= length then start else length
  }

  /** `s.splice(i, 1)`: removes the element at `i`; an index past the end removes nothing. */
  function RemoveAt<T>(s: seq<T>, i: nat): (r: seq<T>)
    ensures i < |s| ==> |r| == |s| - 1
    ensures i < |s| ==> forall j :: 0 <= j < i ==> r[j] == s[j]
    ensures i < |s| ==> forall j :: i <= j < |r| ==> r[j] == s[j + 1]
    ensures i < |s| ==> multiset(r) + multiset{s[i]} == multiset(s)
    ensures i >= |s| ==> r == s
  {
    if i < |s| then
      assert s == s[..i] + [s[i]] + s[i + 1..];
      s[..i] + s[i + 1..]
    else
      s
  }

  /** `s.splice(i, 0, x)`: inserts `x` so that it ends at `i`, or at the end when `i` is past it. */
  function InsertAt<T>(s: seq<T>, i: nat, x: T): (r: seq<T>)
    ensures |r| == |s| + 1
    ensures r[Clamp(i, |s|)] == x
    ensures forall j :: 0 <= j < Clamp(i, |s|) ==> r[j] == s[j]
    ensures forall j :: Clamp(i, |s|) < j < |r| ==> r[j] == s[j - 1]
    ensures multiset(r) == multiset(s) + multiset{x}
  {
    var p := Clamp(i, |s|);
    assert s == s[..p] + s[p..];
    s[..p] + [x] + s[p..]
  }

  /**
   * Removing the element at `from` and inserting it again at `to`, the two
   * splices of a drag within one list.
   */
  function MoveWithin<T>(s: seq<T>, from: nat, to: nat): (r: seq<T>)
    requires from < |s|
  {
    InsertAt(RemoveAt(s, from), to, s[from])
  }

  /** The element inserted at the clamped position is removed again by a splice there. */
  lemma RemoveAfterInsert<T>(s: seq<T>, i: nat, x: T)
    ensures RemoveAt(InsertAt(s, i, x), Clamp(i, |s|)) == s
  {
    var r := RemoveAt(InsertAt(s, i, x), Clamp(i, |s|));
    assert |r| == |s|;
    forall j | 0 <= j < |s| ensures r[j] == s[j] {
    }
  }

  /**
   * A move within one list keeps its length and its elements, puts the moved
   * element at the (clamped) destination, and keeps every other element in
   * its relative order.
   */
  lemma {:induction false} MoveWithinProperties<T>(s: seq<T>, from: nat, to: nat)
    requires from < |s|
    ensures |MoveWithin(s, from, to)| == |s|
    ensures multiset(MoveWithin(s, from, to)) == multiset(s)
    ensures MoveWithin(s, from, to)[Clamp(to, |s| - 1)] == s[from]
    ensures RemoveAt(MoveWithin(s, from, to), Clamp(to, |s| - 1)) == RemoveAt(s, from)
  {
    var rest := RemoveAt(s, from);
    RemoveAfterInsert(rest, to, s[from]);
  }

  /** `s.findIndex(p)`: the first index whose element satisfies `p`, or -1. */
  function FindIndex<T>(s: seq<T>, p: T -> bool): (r: int)
    ensures -1 <= r < |s|
    ensures r >= 0 ==> p(s[r]) && forall j :: 0 <= j < r ==> !p(s[j])
    ensures r == -1 ==> forall j :: 0 <= j < |s| ==> !p(s[j])
  {
    if s == [] then -1
    else if p(s[0]) then 0
    else
      var r := FindIndex(s[1..], p);
      if r == -1 then -1 else r + 1
  }

  /** `s.indexOf(x)`: the first index holding `x`, or -1. */
  function IndexOf<T(==)>(s: seq<T>, x: T): (r: int)
    ensures -1 <= r < |s|
    ensures r >= 0 ==> s[r] == x && x !in s[..r]
    ensures r == -1 <==> x !in s
  {
    FindIndex(s, y => y == x)
  }
}
