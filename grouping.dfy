/**
 * Loading the board (lib/getTodosGroupedByColumn.ts): the documents of the
 * signed-in user are grouped by status into columns, the three columns are
 * made present, each column is sorted by `order`, and the columns are put
 * in the fixed order todo, inprogress, done.
 */
module Grouping {
  import opened Options
  import opened JsArray
  import opened JsMap
  import opened StableSort
  import opened Typings

  /**
   * A stored task as the database returns it; `image` is the JSON text of an
   * image (or missing), and `dueDate` and `priority` may be missing.
   */
  datatype Document = Document(
    id: string,
    createdAt: string,
    title: string,
    status: TypedColumn,
    order: int,
    image: Nullable<string>,
    userId: string,
    dueDate: Nullable<string>,
    priority: Nullable<Priority>)

  /** `x ?? null`: a missing value becomes null. */
  function OrNull<T>(x: Nullable<T>): (r: Nullable<T>)
    ensures !r.Undefined?
    ensures x.Value? <==> r.Value?
    ensures x.Value? ==> r == x
  {
    if x.Undefined? then Null else x
  }

  /**
   * The todo built from one document: the image is parsed when the text is
   * non-empty and stays null on text that is not JSON (the error is caught)
   * or is `null`; every other field is copied, with missing optional fields
   * made null.
   */
  function Convert(d: Document, codec: ImageCodec): (t: Todo)
    ensures t.id == d.id && t.createdAt == d.createdAt && t.title == d.title
    ensures t.status == d.status && t.order == d.order && t.userId == d.userId
    ensures t.image.Value? <==> d.image.Value? && d.image.value != "" && codec.parse(d.image.value).JsonValue?
    ensures t.image.Value? ==> t.image.value == Parsed(codec.parse(d.image.value).image)
    ensures !t.image.Undefined? && !t.dueDate.Undefined? && !t.priority.Undefined?
    ensures d.dueDate.Value? ==> t.dueDate == d.dueDate
    ensures d.priority.Value? ==> t.priority == d.priority
    ensures !d.dueDate.Value? ==> t.dueDate == Null
    ensures !d.priority.Value? ==> t.priority == Null
  {
    var image :=
      if d.image.Value? && d.image.value != "" then
        match codec.parse(d.image.value)
        case JsonValue(img) => Value(Parsed(img))
        case JsonNull => Null
        case SyntaxError => Null
      else Null;
    Todo(d.id, d.createdAt, d.title, d.status, d.order, image, d.userId, OrNull(d.dueDate), OrNull(d.priority))
  }

  /** Every document converted, in order. */
  function Converted(docs: seq<Document>, codec: ImageCodec): (r: seq<Todo>)
    ensures |r| == |docs|
    ensures forall i :: 0 <= i < |r| ==> r[i] == Convert(docs[i], codec)
  {
    if docs == [] then [] else Converted(docs[..|docs| - 1], codec) + [Convert(docs[|docs| - 1], codec)]
  }

  /** The converted documents of status `k`, in the order the database returned them. */
  function Bucket(docs: seq<Document>, k: TypedColumn, codec: ImageCodec): (r: seq<Todo>)
    ensures |r| <= |docs|
    ensures forall t :: t in r ==> t.status == k && t in Converted(docs, codec)
  {
    if docs == [] then []
    else
      var last := docs[|docs| - 1];
      Bucket(docs[..|docs| - 1], k, codec) + (if last.status == k then [Convert(last, codec)] else [])
  }

  /** The column the grouping step has for `k`: none until a document of that status is seen. */
  function Group(docs: seq<Document>, k: TypedColumn, codec: ImageCodec): Option<Column> {
    var b := Bucket(docs, k, codec);
    if b == [] then None else Some(Column(k, b))
  }

  /** The final column of `k`: its documents sorted by `order`. */
  function Entry(docs: seq<Document>, k: TypedColumn, codec: ImageCodec): (TypedColumn, Column) {
    (k, Column(k, SortBy(Bucket(docs, k, codec), ByOrder)))
  }

  /** The board the loader returns for the documents `docs`. */
  function GroupedBoard(docs: seq<Document>, codec: ImageCodec): Board {
    Board([Entry(docs, TodoCol, codec), Entry(docs, InProgressCol, codec), Entry(docs, DoneCol, codec)])
  }

  /** The position of a column id in the fixed order. */
  function Rank(c: TypedColumn): int {
    match c
    case TodoCol => 0
    case InProgressCol => 1
    case DoneCol => 2
  }

  /** `columnTypes.indexOf(c)` is Rank(c): every id is listed once. */
  lemma RankOf(c: TypedColumn)
    ensures IndexOf(ColumnTypes, c) == Rank(c)
  {
    var r := IndexOf(ColumnTypes, c);
    assert ColumnTypes[Rank(c)] == c;
    assert r >= 0;
    assert ColumnTypes[r] == c;
  }

  /** The comparator key of the column sort, `columnTypes.indexOf(key)` (see RankOf). */
  function EntryRank<V>(e: (TypedColumn, V)): int {
    Rank(e.0)
  }

  /**
   * The loader. `response` is the user's document list, or None when the
   * account or the database call fails, in which case the board is empty.
   */
  method GetTodosGroupedByColumn(response: Option<seq<Document>>, codec: ImageCodec) returns (board: Board)
    ensures response.None? ==> board == Board([])
    ensures response.Some? ==> board == GroupedBoard(response.value, codec)
  {
    if response.None? {
      return Board([]);
    }
    var todos := response.value;
    var columns := GroupByStatus(todos, codec);
    columns := EnsureAllColumns(columns, todos, codec);
    columns := SortColumnTodos(columns, todos, codec);
    // order the columns as columnTypes lists them
    var entries := SortBy(columns, EntryRank);
    ColumnOrder(columns, todos, codec);
    board := Board(entries);
  }

  /**
   * The `reduce` step: a column is opened at the first document of each
   * status, and every document's todo is appended to its status's column.
   */
  method GroupByStatus(todos: seq<Document>, codec: ImageCodec) returns (columns: seq<(TypedColumn, Column)>)
    ensures Valid(Board(columns))
    ensures forall k :: Get(columns, k) == Group(todos, k, codec)
  {
    columns := [];
    var i := 0;
    while i < |todos|
      invariant 0 <= i <= |todos|
      invariant Valid(Board(columns))
      invariant forall k :: Get(columns, k) == Group(todos[..i], k, codec)
    {
      var todo := todos[i];
      assert todos[..i + 1] == todos[..i] + [todo];
      GroupStep(columns, todos[..i], todo, codec);
      if Get(columns, todo.status).None? {
        columns := Set(columns, todo.status, Column(todo.status, []));
      }
      var newTodo := Convert(todo, codec);
      var col := Get(columns, todo.status).value;
      columns := Set(columns, todo.status, Column(col.id, col.todos + [newTodo]));
      i := i + 1;
    }
    assert todos[..i] == todos;
  }

  /** One step of the `reduce`: open the document's column if needed, then append its todo. */
  lemma GroupStep(columns: seq<(TypedColumn, Column)>, docs: seq<Document>, d: Document, codec: ImageCodec)
    requires Valid(Board(columns))
    requires forall k :: Get(columns, k) == Group(docs, k, codec)
    ensures var withCol := if Get(columns, d.status).None? then Set(columns, d.status, Column(d.status, [])) else columns;
      var col := Get(withCol, d.status).value;
      var r := Set(withCol, d.status, Column(col.id, col.todos + [Convert(d, codec)]));
      && Valid(Board(r))
      && forall k :: Get(r, k) == Group(docs + [d], k, codec)
  {
    var withCol := if Get(columns, d.status).None? then Set(columns, d.status, Column(d.status, [])) else columns;
    if Get(columns, d.status).None? {
      ValidSet(Board(columns), d.status, Column(d.status, []));
    }
    var col := Get(withCol, d.status).value;
    var newTodo := Convert(d, codec);
    ValidSet(Board(withCol), d.status, Column(col.id, col.todos + [newTodo]));
    var r := Set(withCol, d.status, Column(col.id, col.todos + [newTodo]));
    assert (docs + [d])[..|docs|] == docs;
    forall k ensures Get(r, k) == Group(docs + [d], k, codec) {
      assert Bucket(docs + [d], k, codec) == Bucket(docs, k, codec) + (if d.status == k then [newTodo] else []);
      if k == d.status {
        ColumnIdIsKey(Board(withCol), k);
        assert col.todos == Bucket(docs, k, codec);
      } else {
        assert Get(r, k) == Get(columns, k);
        assert Bucket(docs, k, codec) + [] == Bucket(docs, k, codec);
      }
    }
  }

  /** The loop over `columnTypes`: an empty column is added for every id that has none. */
  method EnsureAllColumns(grouped: seq<(TypedColumn, Column)>, todos: seq<Document>, codec: ImageCodec)
    returns (columns: seq<(TypedColumn, Column)>)
    requires Valid(Board(grouped))
    requires forall k :: Get(grouped, k) == Group(todos, k, codec)
    ensures Valid(Board(columns))
    ensures forall k :: Get(columns, k) == Some(Column(k, Bucket(todos, k, codec)))
  {
    columns := grouped;
    for j := 0 to |ColumnTypes|
      invariant Valid(Board(columns))
      invariant forall k :: Get(columns, k) == (if k in ColumnTypes[..j] then Some(Column(k, Bucket(todos, k, codec))) else Group(todos, k, codec))
    {
      var columnType := ColumnTypes[j];
      assert ColumnTypes[..j + 1] == ColumnTypes[..j] + [columnType];
      if Get(columns, columnType).None? {
        ValidSet(Board(columns), columnType, Column(columnType, []));
        columns := Set(columns, columnType, Column(columnType, []));
      }
    }
    assert ColumnTypes[..3] == ColumnTypes;
    forall k ensures Get(columns, k) == Some(Column(k, Bucket(todos, k, codec))) {
      assert ColumnTypes[Rank(k)] == k;
    }
  }

  /** The `forEach` step: every column's todos are sorted by `order`, in place. */
  method SortColumnTodos(filled: seq<(TypedColumn, Column)>, todos: seq<Document>, codec: ImageCodec)
    returns (columns: seq<(TypedColumn, Column)>)
    requires Valid(Board(filled))
    requires forall k :: Get(filled, k) == Some(Column(k, Bucket(todos, k, codec)))
    ensures DistinctKeys(columns)
    ensures forall k :: Get(columns, k) == Some(Entry(todos, k, codec).1)
  {
    columns := filled;
    for n := 0 to |columns|
      invariant |columns| == |filled|
      invariant forall j :: 0 <= j < n ==> columns[j] == (filled[j].0, Column(filled[j].1.id, SortBy(filled[j].1.todos, ByOrder)))
      invariant forall j :: n <= j < |columns| ==> columns[j] == filled[j]
    {
      columns := columns[n := (columns[n].0, Column(columns[n].1.id, SortBy(columns[n].1.todos, ByOrder)))];
    }
    SortedColumns(filled, columns, todos, codec);
  }

  /** After the per-column sort, every key maps to its sorted bucket. */
  lemma SortedColumns(filled: seq<(TypedColumn, Column)>, columns: seq<(TypedColumn, Column)>, docs: seq<Document>, codec: ImageCodec)
    requires Valid(Board(filled))
    requires forall k :: Get(filled, k) == Some(Column(k, Bucket(docs, k, codec)))
    requires |columns| == |filled|
    requires forall j :: 0 <= j < |columns| ==> columns[j] == (filled[j].0, Column(filled[j].1.id, SortBy(filled[j].1.todos, ByOrder)))
    ensures DistinctKeys(columns)
    ensures forall k :: Get(columns, k) == Some(Entry(docs, k, codec).1)
  {
    forall k ensures Get(columns, k) == Some(Entry(docs, k, codec).1) {
      SameKeys(filled, columns, k);
      var p := KeyIndex(filled, k);
      assert Get(filled, k).Some?;
      assert filled[p].1 == Column(k, Bucket(docs, k, codec));
    }
    SameKeys(filled, columns, TodoCol);
  }

  /** The group of each key after the column sort is that key's entry alone. */
  lemma SortedGroupOf<V>(m: seq<(TypedColumn, V)>, k: TypedColumn, v: V)
    requires DistinctKeys(m) && Get(m, k) == Some(v)
    ensures WithKey(SortBy(m, EntryRank), EntryRank, Rank(k)) == [(k, v)]
  {
    var p := KeyIndex(m, k);
    assert m[p] == (k, v);
    WithKeySingle(m, EntryRank, p);
    SortByIsStable(m, EntryRank, EntryRank(m[p]));
  }

  /** Sorting the entries of a map holding all three ids by their rank yields todo, inprogress, done. */
  lemma RankSorted<V>(m: seq<(TypedColumn, V)>, v0: V, v1: V, v2: V)
    requires DistinctKeys(m)
    requires Get(m, TodoCol) == Some(v0) && Get(m, InProgressCol) == Some(v1) && Get(m, DoneCol) == Some(v2)
    ensures SortBy(m, EntryRank) == [(TodoCol, v0), (InProgressCol, v1), (DoneCol, v2)]
  {
    SortBySorts(m, EntryRank);
    SortedGroupOf(m, TodoCol, v0);
    SortedGroupOf(m, InProgressCol, v1);
    SortedGroupOf(m, DoneCol, v2);
    SortedThreeSingles(SortBy(m, EntryRank), EntryRank, (TodoCol, v0), (InProgressCol, v1), (DoneCol, v2));
  }

  /** The final column sort yields exactly todo, inprogress, done. */
  lemma ColumnOrder(columns: seq<(TypedColumn, Column)>, docs: seq<Document>, codec: ImageCodec)
    requires DistinctKeys(columns)
    requires forall k :: Get(columns, k) == Some(Entry(docs, k, codec).1)
    ensures SortBy(columns, EntryRank) == GroupedBoard(docs, codec).columns
  {
    RankSorted(columns, Entry(docs, TodoCol, codec).1, Entry(docs, InProgressCol, codec).1, Entry(docs, DoneCol, codec).1);
  }

  /**
   * The loaded board holds exactly the three columns, in the fixed order,
   * each under its own id and holding its bucket sorted by `order`.
   */
  lemma GroupedBoardShape(docs: seq<Document>, codec: ImageCodec)
    ensures Valid(GroupedBoard(docs, codec))
    ensures Complete(GroupedBoard(docs, codec))
    ensures Keys(GroupedBoard(docs, codec).columns) == ColumnTypes
    ensures forall k :: Get(GroupedBoard(docs, codec).columns, k) == Some(Column(k, SortBy(Bucket(docs, k, codec), ByOrder)))
  {
    ThreeColumns(Entry(docs, TodoCol, codec).1, Entry(docs, InProgressCol, codec).1, Entry(docs, DoneCol, codec).1);
    forall k ensures Get(GroupedBoard(docs, codec).columns, k) == Some(Entry(docs, k, codec).1) {
      match k
      case TodoCol =>
      case InProgressCol =>
      case DoneCol =>
    }
  }

  /** Each document lands in exactly one bucket, so the buckets split the converted documents. */
  lemma {:induction false} BucketsPartition(docs: seq<Document>, codec: ImageCodec)
    ensures multiset(Bucket(docs, TodoCol, codec)) + multiset(Bucket(docs, InProgressCol, codec)) + multiset(Bucket(docs, DoneCol, codec))
      == multiset(Converted(docs, codec))
    ensures |Bucket(docs, TodoCol, codec)| + |Bucket(docs, InProgressCol, codec)| + |Bucket(docs, DoneCol, codec)| == |docs|
  {
    if docs != [] {
      var p, d := docs[..|docs| - 1], docs[|docs| - 1];
      BucketsPartition(p, codec);
      PartitionStep(Bucket(p, TodoCol, codec), Bucket(p, InProgressCol, codec), Bucket(p, DoneCol, codec), Converted(p, codec),
                    Convert(d, codec), d.status == TodoCol, d.status == InProgressCol, d.status == DoneCol);
    }
  }

  /** Three sequences that split `all` still split it once exactly one of them gains the element `all` gains. */
  lemma PartitionStep<T>(a: seq<T>, b: seq<T>, c: seq<T>, all: seq<T>, x: T, inA: bool, inB: bool, inC: bool)
    requires multiset(a) + multiset(b) + multiset(c) == multiset(all) && |a| + |b| + |c| == |all|
    requires inA || inB || inC
    requires !(inA && inB) && !(inA && inC) && !(inB && inC)
    ensures var a', b', c' := a + (if inA then [x] else []), b + (if inB then [x] else []), c + (if inC then [x] else []);
      && multiset(a') + multiset(b') + multiset(c') == multiset(all + [x])
      && |a'| + |b'| + |c'| == |all + [x]|
  {
  }

  /**
   * The loaded board loses and invents no task: its todos are the converted
   * documents, one per document.
   */
  lemma GroupedBoardPartition(docs: seq<Document>, codec: ImageCodec)
    ensures AllTodos(GroupedBoard(docs, codec).columns) == multiset(Converted(docs, codec))
    ensures TodoCount(GroupedBoard(docs, codec).columns) == |docs|
  {
    BucketsPartition(docs, codec);
    ThreeColumnsTodos(Entry(docs, TodoCol, codec).1, Entry(docs, InProgressCol, codec).1, Entry(docs, DoneCol, codec).1);
  }

  /**
   * Every column of the loaded board holds only todos of its status, sorted
   * by `order`, with the todos of equal `order` in the order the database
   * returned them.
   */
  lemma GroupedColumnsSorted(docs: seq<Document>, codec: ImageCodec, k: TypedColumn)
    ensures Get(GroupedBoard(docs, codec).columns, k).Some?
    ensures var todos := Get(GroupedBoard(docs, codec).columns, k).value.todos;
      && (forall t :: t in todos ==> t.status == k)
      && SortedBy(todos, ByOrder)
      && (forall o :: WithKey(todos, ByOrder, o) == WithKey(Bucket(docs, k, codec), ByOrder, o))
  {
    GroupedBoardShape(docs, codec);
    var b := Bucket(docs, k, codec);
    SortBySorts(b, ByOrder);
    forall t | t in SortBy(b, ByOrder) ensures t.status == k {
      assert t in multiset(SortBy(b, ByOrder));
    }
    forall o ensures WithKey(SortBy(b, ByOrder), ByOrder, o) == WithKey(b, ByOrder, o) {
      SortByIsStable(b, ByOrder, o);
    }
  }
}
