/**
 * The board summary sent to the suggestion service (lib/formatTodosForAI.ts):
 * the board's entries are folded into an object from column id to todos, and
 * that object into one from column id to the number of its todos. Object
 * keys of this kind iterate in insertion order, as Map keys do.
 */
module Summary {
  import opened Options
  import opened JsMap
  import opened Typings

  /** The first `reduce`: `map[key] = value.todos` for each entry in turn. */
  function Flatten(entries: seq<(TypedColumn, Column)>): (r: seq<(TypedColumn, seq<Todo>)>)
    ensures forall k :: k in Keys(r) <==> k in Keys(entries)
  {
    if entries == [] then []
    else
      var init, last := entries[..|entries| - 1], entries[|entries| - 1];
      KeysStep(entries, Flatten(init), last.1.todos);
      Set(Flatten(init), last.0, last.1.todos)
  }

  /** The second `reduce`: `map[key] = value.length` for each entry of the first object. */
  function CountEach(flat: seq<(TypedColumn, seq<Todo>)>): (r: seq<(TypedColumn, nat)>)
    ensures forall k :: k in Keys(r) <==> k in Keys(flat)
  {
    if flat == [] then []
    else
      var init, last := flat[..|flat| - 1], flat[|flat| - 1];
      KeysStep<TypedColumn, seq<Todo>, nat>(flat, CountEach(init), |last.1|);
      Set<TypedColumn, nat>(CountEach(init), last.0, |last.1|)
  }

  /** The object `formatTodosForAI(board)` returns, as its entries in key order. */
  function FormatTodosForAI(board: Board): seq<(TypedColumn, nat)> {
    CountEach(Flatten(board.columns))
  }

  /** With distinct keys the first fold keeps every entry in place and takes its todos. */
  lemma {:induction false} FlattenEntries(m: seq<(TypedColumn, Column)>)
    requires DistinctKeys(m)
    ensures |Flatten(m)| == |m|
    ensures forall i :: 0 <= i < |m| ==> Flatten(m)[i] == (m[i].0, m[i].1.todos)
  {
    if m != [] {
      var init, last := m[..|m| - 1], m[|m| - 1];
      FlattenEntries(init);
      var f := Flatten(init);
      assert Keys(f) == Keys(init);
      assert last.0 !in Keys(f);
      SetNew(f, last.0, last.1.todos);
    }
  }

  /** With distinct keys the second fold keeps every entry in place and takes its length. */
  lemma {:induction false} CountEachEntries(m: seq<(TypedColumn, seq<Todo>)>)
    requires DistinctKeys(m)
    ensures |CountEach(m)| == |m|
    ensures forall i :: 0 <= i < |m| ==> CountEach(m)[i] == (m[i].0, |m[i].1|)
  {
    if m != [] {
      var init, last := m[..|m| - 1], m[|m| - 1];
      CountEachEntries(init);
      var c := CountEach(init);
      assert Keys(c) == Keys(init);
      assert last.0 !in Keys(c);
      SetNew<TypedColumn, nat>(c, last.0, |last.1|);
    }
  }

  /**
   * The summary of a board names its columns once each, in board order, with
   * the number of todos of each.
   */
  lemma FormatEntries(b: Board)
    requires DistinctKeys(b.columns)
    ensures |FormatTodosForAI(b)| == |b.columns|
    ensures forall i :: 0 <= i < |b.columns| ==> FormatTodosForAI(b)[i] == (b.columns[i].0, |b.columns[i].1.todos|)
    ensures Keys(FormatTodosForAI(b)) == Keys(b.columns)
    ensures DistinctKeys(FormatTodosForAI(b))
  {
    FlattenEntries(b.columns);
    var f := Flatten(b.columns);
    SameKeys(b.columns, f, TodoCol);
    CountEachEntries(f);
    SameKeys(f, FormatTodosForAI(b), TodoCol);
  }

  /** The count the summary gives a column is the length of that column's todos. */
  lemma FormatCounts(b: Board, k: TypedColumn)
    requires DistinctKeys(b.columns)
    ensures Get(FormatTodosForAI(b), k).Some? <==> Get(b.columns, k).Some?
    ensures Get(b.columns, k).Some? ==> Get(FormatTodosForAI(b), k) == Some(|Get(b.columns, k).value.todos|)
  {
    FormatEntries(b);
    var r := FormatTodosForAI(b);
    if Get(b.columns, k).Some? {
      KeyIndexIs(r, k, KeyIndex(b.columns, k));
    }
  }

  /** The sum of the counts of a summary. */
  function Total(s: seq<(TypedColumn, nat)>): nat {
    if s == [] then 0 else s[0].1 + Total(s[1..])
  }

  lemma {:induction false} TotalOfLengths(s: seq<(TypedColumn, nat)>, m: seq<(TypedColumn, Column)>)
    requires |s| == |m|
    requires forall i :: 0 <= i < |m| ==> s[i].1 == |m[i].1.todos|
    ensures Total(s) == TodoCount(m)
  {
    if s != [] {
      TotalOfLengths(s[1..], m[1..]);
    }
  }

  /** The counts of a summary add up to the number of todos on the board. */
  lemma FormatTotal(b: Board)
    requires DistinctKeys(b.columns)
    ensures Total(FormatTodosForAI(b)) == TodoCount(b.columns)
  {
    FormatEntries(b);
    TotalOfLengths(FormatTodosForAI(b), b.columns);
  }

  /**
   * The summary sees only how many todos each column has: boards with the
   * same keys in the same order and the same column lengths summarise alike.
   */
  lemma FormatDependsOnLengths(a: Board, b: Board)
    requires DistinctKeys(a.columns) && DistinctKeys(b.columns)
    requires Keys(a.columns) == Keys(b.columns)
    requires forall i :: 0 <= i < |a.columns| ==> |a.columns[i].1.todos| == |b.columns[i].1.todos|
    ensures FormatTodosForAI(a) == FormatTodosForAI(b)
  {
    FormatEntries(a);
    FormatEntries(b);
    assert |a.columns| == |Keys(a.columns)|;
    forall i | 0 <= i < |a.columns| ensures FormatTodosForAI(a)[i] == FormatTodosForAI(b)[i] {
      assert Keys(a.columns)[i] == Keys(b.columns)[i];
    }
  }
}
