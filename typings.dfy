/**
 * The entities of the board (typings.d.ts): the three column ids, a todo,
 * a column and the board, a map from column id to column in insertion order.
 */
module Typings {
  import opened Options
  import opened JsMap
  import opened JsArray

  /** `"todo" | "inprogress" | "done"`. */
  datatype TypedColumn = TodoCol | InProgressCol | DoneCol

  /** The fixed display order of the columns. */
  const ColumnTypes: seq<TypedColumn> := [TodoCol, InProgressCol, DoneCol]

  /** The string a column id is written as (the drop targets' `droppableId`). */
  function Name(c: TypedColumn): string {
    match c
    case TodoCol => "todo"
    case InProgressCol => "inprogress"
    case DoneCol => "done"
  }

  /** The column a `droppableId` names, if any (`id as TypedColumn` looked up in the map). */
  function ParseColumn(s: string): (r: Option<TypedColumn>)
    ensures r.Some? ==> Name(r.value) == s
    ensures r.None? ==> forall c :: Name(c) != s
  {
    if s == "todo" then Some(TodoCol)
    else if s == "inprogress" then Some(InProgressCol)
    else if s == "done" then Some(DoneCol)
    else None
  }

  /** A field that may be `undefined`, `null` or hold a value; the source tells the first two apart. */
  datatype Nullable<T> = Undefined | Null | Value(value: T)

  /** A stored file: the bucket and the file id inside it. */
  datatype Image = Image(bucketId: string, fileId: string)

  /** The `image` field holds the structured value or its JSON text (`string | Image`). */
  datatype ImageRef = Parsed(image: Image) | Serialized(json: string)

  datatype Priority = Low | Medium | High

  /** A task; `id` and `createdAt` are the store's `$id` and `$createdAt`. */
  datatype Todo = Todo(
    id: string,
    createdAt: string,
    title: string,
    status: TypedColumn,
    order: int,
    image: Nullable<ImageRef>,
    userId: string,
    dueDate: Nullable<string>,
    priority: Nullable<Priority>)

  datatype Column = Column(id: TypedColumn, todos: seq<Todo>)

  datatype Board = Board(columns: seq<(TypedColumn, Column)>)

  /** The sort key of the comparator `(a, b) => a.order - b.order`. */
  function ByOrder(t: Todo): int {
    t.order
  }

  /** Whether `if (todo.image)` takes its branch: an object, or a non-empty string. */
  predicate ImageTruthy(i: Nullable<ImageRef>): (b: bool)
    ensures b ==> i.Value?
    ensures i.Value? && i.value.Parsed? ==> b
    ensures i.Value? && i.value.Serialized? ==> (b <==> i.value.json != "")
  {
    match i
    case Value(Parsed(_)) => true
    case Value(Serialized(s)) => s != ""
    case _ => false
  }

  /**
   * What `JSON.parse` of an image field gives: it throws on text that is not
   * JSON, gives `null` for the text `null` (reading a field of which throws),
   * and otherwise gives a value whose `bucketId` and `fileId` the code reads.
   */
  datatype Json = SyntaxError | JsonNull | JsonValue(image: Image)

  /** `JSON.parse` and `JSON.stringify` of the image field. */
  datatype ImageCodec = ImageCodec(parse: string -> Json, stringify: Image -> string)

  /** The value the code reads an image field as: the object itself, or the parse of its text. */
  function ImageObject(ref: ImageRef, codec: ImageCodec): (r: Json)
    ensures ref.Parsed? ==> r == JsonValue(ref.image)
    ensures ref.Serialized? ==> r == codec.parse(ref.json)
  {
    match ref
    case Parsed(img) => JsonValue(img)
    case Serialized(s) => codec.parse(s)
  }

  /** Every Map the source builds: no key twice, and each column's `id` equal to its key. */
  predicate Valid(b: Board) {
    && DistinctKeys(b.columns)
    && forall i :: 0 <= i < |b.columns| ==> b.columns[i].1.id == b.columns[i].0
  }

  /** All three columns are present. */
  predicate Complete(b: Board) {
    forall c :: Get(b.columns, c).Some?
  }

  lemma ColumnIdIsKey(b: Board, k: TypedColumn)
    requires Valid(b) && Get(b.columns, k).Some?
    ensures Get(b.columns, k).value.id == k
  {
    var i := KeyIndex(b.columns, k);
    assert b.columns[i].1.id == b.columns[i].0;
  }

  /** Taking the same todos away from two equal collections leaves equal collections. */
  lemma MultisetCancel<T>(a: multiset<T>, b: multiset<T>, c: multiset<T>)
    requires a + c == b + c
    ensures a == b
  {
    forall x ensures a[x] == b[x] {
      assert (a + c)[x] == (b + c)[x];
    }
  }

  /** Two trades in a row: the todos of a board set twice, against those of the original. */
  lemma MultisetShift<T>(a0: multiset<T>, a1: multiset<T>, a2: multiset<T>,
                         os: multiset<T>, of: multiset<T>, ns: multiset<T>, nf: multiset<T>)
    requires a1 + os == a0 + ns && a2 + of == a1 + nf
    ensures a2 + os + of == a0 + ns + nf
  {
    forall x ensures (a2 + os + of)[x] == (a0 + ns + nf)[x] {
      assert (a1 + os)[x] == (a0 + ns)[x];
      assert (a2 + of)[x] == (a1 + nf)[x];
    }
  }

  /** A todo taken from one column and given to another leaves the board's todos as they were. */
  lemma MultisetMove<T>(a0: multiset<T>, a2: multiset<T>, os: multiset<T>, of: multiset<T>,
                        ns: multiset<T>, nf: multiset<T>, x: T)
    requires a2 + os + of == a0 + ns + nf
    requires ns + multiset{x} == os && nf == of + multiset{x}
    ensures a2 == a0
  {
    forall y ensures a2[y] == a0[y] {
      assert (a2 + os + of)[y] == (a0 + ns + nf)[y];
      assert (ns + multiset{x})[y] == os[y];
    }
  }

  /** No two todos share an id (document ids are unique). */
  predicate DistinctIds(s: seq<Todo>) {
    forall i, j :: 0 <= i < j < |s| ==> s[i].id != s[j].id
  }

  /** Exchanging the middle part of a sum: the sum gains the new part and loses the old. */
  lemma MultisetTrade<T>(whole: multiset<T>, whole': multiset<T>, pre: multiset<T>, post: multiset<T>,
                         m: multiset<T>, m': multiset<T>)
    requires whole == pre + m + post && whole' == pre + m' + post
    ensures whole' + m == whole + m'
  {
    forall x ensures (whole' + m)[x] == (whole + m')[x] {
      assert whole[x] == (pre + m + post)[x];
      assert whole'[x] == (pre + m' + post)[x];
    }
  }

  /** Adding a middle part to a sum. */
  lemma MultisetInsert<T>(whole: multiset<T>, whole': multiset<T>, pre: multiset<T>, post: multiset<T>, m: multiset<T>)
    requires whole == pre + m + post && whole' == pre + post
    ensures whole == whole' + m
  {
    forall x ensures whole[x] == (whole' + m)[x] {
      assert whole[x] == (pre + m + post)[x];
      assert whole'[x] == (pre + post)[x];
    }
  }

  /** The todos of every column together. */
  function AllTodos(cols: seq<(TypedColumn, Column)>): multiset<Todo> {
    if cols == [] then multiset{} else multiset(cols[0].1.todos) + AllTodos(cols[1..])
  }

  /** The number of todos on the board. */
  function TodoCount(cols: seq<(TypedColumn, Column)>): nat {
    if cols == [] then 0 else |cols[0].1.todos| + TodoCount(cols[1..])
  }

  lemma {:induction false} AllTodosConcat(a: seq<(TypedColumn, Column)>, b: seq<(TypedColumn, Column)>)
    ensures AllTodos(a + b) == AllTodos(a) + AllTodos(b)
    ensures TodoCount(a + b) == TodoCount(a) + TodoCount(b)
  {
    if a == [] {
      assert a + b == b;
    } else {
      assert (a + b)[1..] == a[1..] + b;
      AllTodosConcat(a[1..], b);
    }
  }

  /** The todos of the board minus one column, split around that column. */
  lemma AllTodosAt(cols: seq<(TypedColumn, Column)>, i: nat)
    requires i < |cols|
    ensures AllTodos(cols) == AllTodos(cols[..i]) + multiset(cols[i].1.todos) + AllTodos(cols[i + 1..])
    ensures TodoCount(cols) == TodoCount(cols[..i]) + |cols[i].1.todos| + TodoCount(cols[i + 1..])
  {
    assert cols == cols[..i] + [cols[i]] + cols[i + 1..];
    AllTodosConcat(cols[..i] + [cols[i]], cols[i + 1..]);
    AllTodosConcat(cols[..i], [cols[i]]);
    assert [cols[i]][1..] == [];
  }

  /**
   * Replacing the column of `k` by `c'` trades that column's todos for those
   * of `c'`; setting a new key adds the todos of `c'`.
   */
  lemma AllTodosSet(cols: seq<(TypedColumn, Column)>, k: TypedColumn, c': Column)
    ensures Get(cols, k).Some? ==>
      AllTodos(Set(cols, k, c')) + multiset(Get(cols, k).value.todos) == AllTodos(cols) + multiset(c'.todos)
    ensures Get(cols, k).Some? ==>
      TodoCount(Set(cols, k, c')) + |Get(cols, k).value.todos| == TodoCount(cols) + |c'.todos|
    ensures Get(cols, k).None? ==> AllTodos(Set(cols, k, c')) == AllTodos(cols) + multiset(c'.todos)
    ensures Get(cols, k).None? ==> TodoCount(Set(cols, k, c')) == TodoCount(cols) + |c'.todos|
  {
    var p := KeyIndex(cols, k);
    var r := Set(cols, k, c');
    if p >= 0 {
      assert r == cols[p := (k, c')];
      AllTodosAt(cols, p);
      AllTodosAt(r, p);
      assert r[..p] == cols[..p] && r[p + 1..] == cols[p + 1..];
      MultisetTrade(AllTodos(cols), AllTodos(r), AllTodos(cols[..p]), AllTodos(cols[p + 1..]),
        multiset(cols[p].1.todos), multiset(c'.todos));
    } else {
      assert r == cols + [(k, c')];
      AllTodosConcat(cols, [(k, c')]);
      assert [(k, c')][1..] == [];
    }
  }

  /** Setting a column under its own id keeps the board invariant. */
  lemma ValidSet(b: Board, k: TypedColumn, c: Column)
    requires Valid(b) && c.id == k
    ensures Valid(Board(Set(b.columns, k, c)))
  {
    var p := KeyIndex(b.columns, k);
    var r := Set(b.columns, k, c);
    if p >= 0 {
      assert r == b.columns[p := (k, c)];
    } else {
      assert r == b.columns + [(k, c)];
    }
  }

  /**
   * Replacing two present columns, each under its own id: both read back,
   * every other key and the key order are kept, the board stays valid, and
   * the board's todos trade the old columns' todos for the new ones'.
   */
  lemma SetTwo(b: Board, ks: TypedColumn, kf: TypedColumn, cs: Column, cf: Column)
    requires Valid(b) && ks != kf && cs.id == ks && cf.id == kf
    requires Get(b.columns, ks).Some? && Get(b.columns, kf).Some?
    ensures var r := Set(Set(b.columns, ks, cs), kf, cf);
      && Get(r, ks) == Some(cs)
      && Get(r, kf) == Some(cf)
      && (forall k :: k != ks && k != kf ==> Get(r, k) == Get(b.columns, k))
      && Keys(r) == Keys(b.columns)
      && Valid(Board(r))
      && AllTodos(r) + multiset(Get(b.columns, ks).value.todos) + multiset(Get(b.columns, kf).value.todos)
         == AllTodos(b.columns) + multiset(cs.todos) + multiset(cf.todos)
      && TodoCount(r) + |Get(b.columns, ks).value.todos| + |Get(b.columns, kf).value.todos|
         == TodoCount(b.columns) + |cs.todos| + |cf.todos|
  {
    var mid := Set(b.columns, ks, cs);
    ValidSet(b, ks, cs);
    ValidSet(Board(mid), kf, cf);
    assert Get(mid, kf) == Get(b.columns, kf);
    AllTodosSet(b.columns, ks, cs);
    AllTodosSet(mid, kf, cf);
    MultisetShift(AllTodos(b.columns), AllTodos(mid), AllTodos(Set(mid, kf, cf)),
      multiset(Get(b.columns, ks).value.todos), multiset(Get(b.columns, kf).value.todos),
      multiset(cs.todos), multiset(cf.todos));
  }

  lemma AllTodosRemoveAt(cols: seq<(TypedColumn, Column)>, i: nat)
    requires i < |cols|
    ensures AllTodos(RemoveAt(cols, i)) + multiset(cols[i].1.todos) == AllTodos(cols)
    ensures TodoCount(RemoveAt(cols, i)) + |cols[i].1.todos| == TodoCount(cols)
  {
    AllTodosAt(cols, i);
    assert RemoveAt(cols, i) == cols[..i] + cols[i + 1..];
    AllTodosConcat(cols[..i], cols[i + 1..]);
  }

  lemma AllTodosInsertAt(cols: seq<(TypedColumn, Column)>, i: nat, e: (TypedColumn, Column))
    ensures AllTodos(InsertAt(cols, i, e)) == AllTodos(cols) + multiset(e.1.todos)
    ensures TodoCount(InsertAt(cols, i, e)) == TodoCount(cols) + |e.1.todos|
  {
    var p := Clamp(i, |cols|);
    var pre, post := cols[..p], cols[p..];
    assert InsertAt(cols, i, e) == pre + [e] + post;
    assert cols == pre + post;
    AllTodosConcat(pre + [e], post);
    AllTodosConcat(pre, [e]);
    AllTodosConcat(pre, post);
    assert [e][1..] == [];
    MultisetInsert(AllTodos(InsertAt(cols, i, e)), AllTodos(cols), AllTodos(pre), AllTodos(post), AllTodos([e]));
  }

  /** Moving one column entry elsewhere keeps the board's todos. */
  lemma AllTodosMoveWithin(cols: seq<(TypedColumn, Column)>, from: nat, to: nat)
    requires from < |cols|
    ensures AllTodos(MoveWithin(cols, from, to)) == AllTodos(cols)
    ensures TodoCount(MoveWithin(cols, from, to)) == TodoCount(cols)
  {
    AllTodosRemoveAt(cols, from);
    AllTodosInsertAt(RemoveAt(cols, from), to, cols[from]);
  }

  /** A board whose entries are a permutation of a valid board's is valid. */
  lemma ValidOfPermutation(b: Board, cols: seq<(TypedColumn, Column)>)
    requires Valid(b) && multiset(cols) == multiset(b.columns) && DistinctKeys(cols)
    ensures Valid(Board(cols))
  {
    forall i | 0 <= i < |cols| ensures cols[i].1.id == cols[i].0 {
      assert cols[i] in multiset(b.columns);
    }
  }

  /** The board of the three columns in the fixed order. */
  lemma ThreeColumns(c0: Column, c1: Column, c2: Column)
    requires c0.id == TodoCol && c1.id == InProgressCol && c2.id == DoneCol
    ensures var b := Board([(TodoCol, c0), (InProgressCol, c1), (DoneCol, c2)]);
      && Valid(b)
      && Complete(b)
      && Keys(b.columns) == ColumnTypes
      && Get(b.columns, TodoCol) == Some(c0)
      && Get(b.columns, InProgressCol) == Some(c1)
      && Get(b.columns, DoneCol) == Some(c2)
  {
    var cols := [(TodoCol, c0), (InProgressCol, c1), (DoneCol, c2)];
    GetAt(cols, 0);
    GetAt(cols, 1);
    GetAt(cols, 2);
    forall c ensures Get(cols, c).Some? {
      match c
      case TodoCol =>
      case InProgressCol =>
      case DoneCol =>
    }
  }

  /** The todos of a three-column board are those of its columns. */
  lemma ThreeColumnsTodos(c0: Column, c1: Column, c2: Column)
    ensures var cols := [(TodoCol, c0), (InProgressCol, c1), (DoneCol, c2)];
      && AllTodos(cols) == multiset(c0.todos) + multiset(c1.todos) + multiset(c2.todos)
      && TodoCount(cols) == |c0.todos| + |c1.todos| + |c2.todos|
  {
    var cols := [(TodoCol, c0), (InProgressCol, c1), (DoneCol, c2)];
    assert cols[1..] == [(InProgressCol, c1), (DoneCol, c2)];
    assert cols[1..][1..] == [(DoneCol, c2)];
    assert cols[1..][1..][1..] == [];
    assert AllTodos(cols[1..][1..]) == multiset(c2.todos);
    assert TodoCount(cols[1..][1..]) == |c2.todos|;
  }
}
