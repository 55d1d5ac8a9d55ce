/**
 * The drag-end handler of the board component (components/Board.tsx).
 * It receives the board and the drop result, and yields the board it hands
 * to `setBoardState` and, for a task move, the arguments it hands to
 * `updateTodoInDB`.
 */
module DragEnd {
  import opened Options
  import opened JsArray
  import opened JsMap
  import opened Typings
  import BoardStore
  import Summary

  /** Where a drag started or ended: a drop target and a position in it. */
  datatype DraggableLocation = DraggableLocation(droppableId: string, index: nat)

  /** What the drag-and-drop library reports when a drag ends; no destination means a cancelled drop. */
  datatype DropResult = DropResult(dragType: string, source: DraggableLocation, destination: Option<DraggableLocation>)

  /** The arguments of `updateTodoInDB(todo, columnId, newTodos)`. */
  datatype SyncRequest = SyncRequest(todo: Todo, columnId: TypedColumn, newTodos: seq<Todo>)

  /** `board.columns.get(droppableId as TypedColumn)`. */
  function Lookup(board: Board, droppableId: string): (r: Option<Column>)
    ensures ParseColumn(droppableId).None? ==> r.None?
    ensures ParseColumn(droppableId).Some? ==> r == Get(board.columns, ParseColumn(droppableId).value)
    ensures r.Some? <==> exists c :: Name(c) == droppableId && c in Keys(board.columns)
  {
    match ParseColumn(droppableId)
    case None => None
    case Some(k) => Get(board.columns, k)
  }

  predicate IsColumnDrag(r: DropResult) {
    r.destination.Some? && r.dragType == "column"
  }

  predicate IsTaskDrag(r: DropResult) {
    r.destination.Some? && r.dragType != "column"
  }

  /** A task dropped back where it started (`startCol === finishCol`: the same map entry). */
  predicate DropInPlace(r: DropResult) {
    && r.destination.Some?
    && r.source.index == r.destination.value.index
    && r.source.droppableId == r.destination.value.droppableId
  }

  /** A task drag that reaches the splices: both columns exist and the task moved. */
  predicate IsTaskMove(b: Board, r: DropResult) {
    && IsTaskDrag(r)
    && Lookup(b, r.source.droppableId).Some?
    && Lookup(b, r.destination.value.droppableId).Some?
    && !DropInPlace(r)
  }

  /**
   * What the library guarantees: a drag starts at an element that exists.
   * Only the drags that splice their source need it.
   */
  predicate SourceInRange(b: Board, r: DropResult) {
    && (IsColumnDrag(r) ==> r.source.index < |b.columns|)
    && (IsTaskMove(b, r) ==> r.source.index < |Lookup(b, r.source.droppableId).value.todos|)
  }

  method HandleOnDragEnd(board: Board, result: DropResult) returns (next: Board, sync: Option<SyncRequest>)
    requires SourceInRange(board, result)
    // a cancelled drop changes nothing and writes nothing
    ensures result.destination.None? ==> next == board && sync == None
    // a column drag moves one entry of the map and writes nothing
    ensures IsColumnDrag(result) ==>
      && sync == None
      && next.columns == MoveWithin(board.columns, result.source.index, result.destination.value.index)
    // a missing column, or a task dropped where it was, changes nothing and writes nothing
    ensures IsTaskDrag(result) && !IsTaskMove(board, result) ==> next == board && sync == None
    // a task move hands the destination column's new todos, with the moved todo unchanged, to the sync
    ensures IsTaskMove(board, result) ==>
      var from := Lookup(board, result.source.droppableId).value;
      var to := Lookup(board, result.destination.value.droppableId).value;
      var moved := from.todos[result.source.index];
      && sync.Some?
      && sync.value.todo == moved
      && sync.value.columnId == to.id
      && moved in sync.value.newTodos
      && Get(next.columns, to.id) == Some(Column(to.id, sync.value.newTodos))
      && (from.id == to.id ==>
            && sync.value.newTodos == MoveWithin(from.todos, result.source.index, result.destination.value.index)
            && next.columns == Set(board.columns, from.id, Column(from.id, sync.value.newTodos)))
      && (from.id != to.id ==>
            && sync.value.newTodos == InsertAt(to.todos, result.destination.value.index, moved)
            && next.columns == Set(Set(board.columns, from.id, Column(from.id, RemoveAt(from.todos, result.source.index))),
                                   to.id, Column(to.id, sync.value.newTodos)))
    // no drag loses, duplicates or breaks anything
    ensures Valid(board) ==> Valid(next)
    ensures Valid(board) ==> AllTodos(next.columns) == AllTodos(board.columns)
    ensures Valid(board) ==> forall k :: Get(next.columns, k).Some? <==> Get(board.columns, k).Some?
  {
    if result.destination.None? {
      return board, None;
    }
    var destination, source := result.destination.value, result.source;

    if result.dragType == "column" {
      var columns := board.columns;
      var moved := columns[source.index];
      columns := RemoveAt(columns, source.index);
      columns := InsertAt(columns, destination.index, moved);
      next, sync := Board(columns), None;
      if Valid(board) {
        ColumnDragEffect(board, source.index, destination.index);
      }
      return;
    }

    var startCol := Lookup(board, source.droppableId);
    var finishCol := Lookup(board, destination.droppableId);
    if startCol.None? || finishCol.None? {
      return board, None;
    }
    if source.index == destination.index && source.droppableId == destination.droppableId {
      return board, None;
    }
    var from, to := startCol.value, finishCol.value;
    if Valid(board) {
      ColumnIdIsKey(board, ParseColumn(source.droppableId).value);
      ColumnIdIsKey(board, ParseColumn(destination.droppableId).value);
    }
    var request;
    if from.id == to.id {
      next, request := MoveTaskWithin(board, from, source.index, destination.index);
    } else {
      next, request := MoveTaskAcross(board, from, to, source.index, destination.index);
    }
    sync := Some(request);
  }

  /** The task move inside one column; the board is valid afterwards when it was before. */
  method MoveTaskWithin(board: Board, col: Column, fromIndex: nat, toIndex: nat) returns (next: Board, request: SyncRequest)
    requires fromIndex < |col.todos|
    ensures request == SyncRequest(col.todos[fromIndex], col.id, MoveWithin(col.todos, fromIndex, toIndex))
    ensures next.columns == Set(board.columns, col.id, Column(col.id, request.newTodos))
    ensures request.todo in request.newTodos
    ensures Valid(board) && Get(board.columns, col.id) == Some(col) ==>
      && Valid(next)
      && AllTodos(next.columns) == AllTodos(board.columns)
      && Keys(next.columns) == Keys(board.columns)
  {
    var newTodos := col.todos;
    var todoMoved := newTodos[fromIndex];
    newTodos := RemoveAt(newTodos, fromIndex);
    newTodos := InsertAt(newTodos, toIndex, todoMoved);
    next := Board(Set(board.columns, col.id, Column(col.id, newTodos)));
    request := SyncRequest(todoMoved, col.id, newTodos);
    if Valid(board) && Get(board.columns, col.id) == Some(col) {
      SameColumnMoveEffect(board, col.id, fromIndex, toIndex);
    }
  }

  /**
   * The task move from column `src` to column `dst`; the board is valid
   * afterwards when it was before and the two are distinct entries of it.
   */
  method MoveTaskAcross(board: Board, src: Column, dst: Column, fromIndex: nat, toIndex: nat)
    returns (next: Board, request: SyncRequest)
    requires fromIndex < |src.todos|
    ensures request == SyncRequest(src.todos[fromIndex], dst.id, InsertAt(dst.todos, toIndex, src.todos[fromIndex]))
    ensures next.columns ==
      Set(Set(board.columns, src.id, Column(src.id, RemoveAt(src.todos, fromIndex))), dst.id, Column(dst.id, request.newTodos))
    ensures request.todo in request.newTodos
    ensures Valid(board) && src.id != dst.id && Get(board.columns, src.id) == Some(src) && Get(board.columns, dst.id) == Some(dst) ==>
      && Valid(next)
      && AllTodos(next.columns) == AllTodos(board.columns)
      && Keys(next.columns) == Keys(board.columns)
  {
    var newTodos := src.todos;
    var todoMoved := newTodos[fromIndex];
    newTodos := RemoveAt(newTodos, fromIndex);
    var finishTodos := InsertAt(dst.todos, toIndex, todoMoved);
    var newColumns := Set(board.columns, src.id, Column(src.id, newTodos));
    newColumns := Set(newColumns, dst.id, Column(dst.id, finishTodos));
    request := SyncRequest(todoMoved, dst.id, finishTodos);
    next := Board(newColumns);
    if Valid(board) && src.id != dst.id && Get(board.columns, src.id) == Some(src) && Get(board.columns, dst.id) == Some(dst) {
      CrossColumnMoveEffect(board, src.id, dst.id, fromIndex, toIndex);
    }
  }

  /**
   * A column drag permutes the entries: the moved entry lands at the
   * (clamped) destination, every key keeps its column and todos, and the
   * board stays valid.
   */
  lemma ColumnDragEffect(b: Board, from: nat, to: nat)
    requires Valid(b) && from < |b.columns|
    ensures var r := MoveWithin(b.columns, from, to);
      && |r| == |b.columns|
      && multiset(r) == multiset(b.columns)
      && r[Clamp(to, |b.columns| - 1)] == b.columns[from]
      && (forall k :: Get(r, k) == Get(b.columns, k))
      && Valid(Board(r))
      && AllTodos(r) == AllTodos(b.columns)
  {
    var r := MoveWithin(b.columns, from, to);
    MoveWithinProperties(b.columns, from, to);
    DistinctKeysMoveWithin(b.columns, from, to);
    GetOfPermutation(r, b.columns);
    ValidOfPermutation(b, r);
    AllTodosMoveWithin(b.columns, from, to);
  }

  /**
   * A move inside column `k` keeps the column's length and todos, puts the
   * moved todo at the (clamped) destination with the others in their order,
   * and leaves every other column and the key order alone.
   */
  lemma SameColumnMoveEffect(b: Board, k: TypedColumn, from: nat, to: nat)
    requires Valid(b) && Get(b.columns, k).Some? && from < |Get(b.columns, k).value.todos|
    ensures var todos := Get(b.columns, k).value.todos;
      var moved := MoveWithin(todos, from, to);
      var r := Set(b.columns, k, Column(k, moved));
      && |moved| == |todos|
      && multiset(moved) == multiset(todos)
      && moved[Clamp(to, |todos| - 1)] == todos[from]
      && RemoveAt(moved, Clamp(to, |todos| - 1)) == RemoveAt(todos, from)
      && Get(r, k) == Some(Column(k, moved))
      && (forall k' :: k' != k ==> Get(r, k') == Get(b.columns, k'))
      && Keys(r) == Keys(b.columns)
      && Valid(Board(r))
      && AllTodos(r) == AllTodos(b.columns)
  {
    var todos := Get(b.columns, k).value.todos;
    var moved := MoveWithin(todos, from, to);
    MoveWithinProperties(todos, from, to);
    ValidSet(b, k, Column(k, moved));
    AllTodosSet(b.columns, k, Column(k, moved));
    var r := Set(b.columns, k, Column(k, moved));
    MultisetCancel(AllTodos(r), AllTodos(b.columns), multiset(todos));
  }

  /**
   * A move from column `ks` to column `kf`: the source loses exactly the
   * todo at `from`, the destination gains that same record at the (clamped)
   * destination, the third column and the key order stay as they were.
   */
  lemma CrossColumnMoveEffect(b: Board, ks: TypedColumn, kf: TypedColumn, from: nat, to: nat)
    requires Valid(b) && ks != kf
    requires Get(b.columns, ks).Some? && Get(b.columns, kf).Some?
    requires from < |Get(b.columns, ks).value.todos|
    ensures var src := Get(b.columns, ks).value.todos;
      var dst := Get(b.columns, kf).value.todos;
      var src' := RemoveAt(src, from);
      var dst' := InsertAt(dst, to, src[from]);
      var r := Set(Set(b.columns, ks, Column(ks, src')), kf, Column(kf, dst'));
      && |src'| == |src| - 1
      && |dst'| == |dst| + 1
      && multiset(src') + multiset{src[from]} == multiset(src)
      && multiset(dst') == multiset(dst) + multiset{src[from]}
      && dst'[Clamp(to, |dst|)] == src[from]
      && RemoveAt(dst', Clamp(to, |dst|)) == dst
      && Get(r, ks) == Some(Column(ks, src'))
      && Get(r, kf) == Some(Column(kf, dst'))
      && (forall k :: k != ks && k != kf ==> Get(r, k) == Get(b.columns, k))
      && Keys(r) == Keys(b.columns)
      && Valid(Board(r))
      && AllTodos(r) == AllTodos(b.columns)
      && TodoCount(r) == TodoCount(b.columns)
  {
    var src := Get(b.columns, ks).value.todos;
    var dst := Get(b.columns, kf).value.todos;
    var src' := RemoveAt(src, from);
    var dst' := InsertAt(dst, to, src[from]);
    RemoveAfterInsert(dst, to, src[from]);
    SetTwo(b, ks, kf, Column(ks, src'), Column(kf, dst'));
    var r := Set(Set(b.columns, ks, Column(ks, src')), kf, Column(kf, dst'));
    MultisetMove(AllTodos(b.columns), AllTodos(r), multiset(src), multiset(dst), multiset(src'), multiset(dst'), src[from]);
  }

  /**
   * The moved record is not rewritten: after a move out of a column whose
   * todos all carry that column's status, the destination holds a todo whose
   * `status` still names the source column.
   */
  lemma CrossMoveKeepsStaleStatus(b: Board, ks: TypedColumn, kf: TypedColumn, from: nat, to: nat)
    requires Valid(b) && ks != kf
    requires Get(b.columns, ks).Some? && Get(b.columns, kf).Some?
    requires from < |Get(b.columns, ks).value.todos|
    requires forall t :: t in Get(b.columns, ks).value.todos ==> t.status == ks
    ensures var src := Get(b.columns, ks).value.todos;
      var dst' := InsertAt(Get(b.columns, kf).value.todos, to, src[from]);
      && dst'[Clamp(to, |Get(b.columns, kf).value.todos|)] == src[from]
      && src[from].status == ks
      && exists t :: t in dst' && t.status == ks && t.status != kf
  {
    var src := Get(b.columns, ks).value.todos;
    var dst' := InsertAt(Get(b.columns, kf).value.todos, to, src[from]);
    assert dst'[Clamp(to, |Get(b.columns, kf).value.todos|)] == src[from];
  }

  /**
   * After a move inside a column whose ids are distinct, the order the sync
   * writes for the moved task is the (clamped) position it was dropped at.
   */
  lemma SameColumnSyncOrder(todos: seq<Todo>, k: TypedColumn, from: nat, to: nat)
    requires from < |todos| && DistinctIds(todos)
    ensures BoardStore.UpdateTodoInDB(todos[from], k, MoveWithin(todos, from, to), true)[0].order == Clamp(to, |todos| - 1)
  {
    var moved := MoveWithin(todos, from, to);
    var p := Clamp(to, |todos| - 1);
    var rest := RemoveAt(todos, from);
    MoveWithinProperties(todos, from, to);
    forall j | 0 <= j < p ensures moved[j].id != todos[from].id {
      assert moved[j] == rest[j];
      if j < from {
        assert rest[j] == todos[j];
      } else {
        assert rest[j] == todos[j + 1];
      }
    }
    FirstMatchIs(moved, todos[from].id, p);
  }

  /**
   * After a move into another column that holds no task with the same id,
   * the order the sync writes for the moved task is the (clamped) position
   * it was dropped at.
   */
  lemma CrossColumnSyncOrder(src: seq<Todo>, dst: seq<Todo>, k: TypedColumn, from: nat, to: nat)
    requires from < |src|
    requires forall t :: t in dst ==> t.id != src[from].id
    ensures BoardStore.UpdateTodoInDB(src[from], k, InsertAt(dst, to, src[from]), true)[0].order == Clamp(to, |dst|)
  {
    var s := InsertAt(dst, to, src[from]);
    var p := Clamp(to, |dst|);
    forall j | 0 <= j < p ensures s[j].id != src[from].id {
      assert s[j] == dst[j];
    }
    FirstMatchIs(s, src[from].id, p);
  }

  lemma FirstMatchIs(s: seq<Todo>, id: string, p: nat)
    requires p < |s| && s[p].id == id
    requires forall j :: 0 <= j < p ==> s[j].id != id
    ensures FindIndex(s, BoardStore.HasId(id)) == p
  {
    assert BoardStore.HasId(id)(s[p]);
  }

  /** A move inside one column leaves the board summary as it was. */
  lemma SameColumnMoveKeepsSummary(b: Board, k: TypedColumn, from: nat, to: nat)
    requires Valid(b) && Get(b.columns, k).Some? && from < |Get(b.columns, k).value.todos|
    ensures Summary.FormatTodosForAI(Board(Set(b.columns, k, Column(k, MoveWithin(Get(b.columns, k).value.todos, from, to)))))
         == Summary.FormatTodosForAI(b)
  {
    var todos := Get(b.columns, k).value.todos;
    var r := Set(b.columns, k, Column(k, MoveWithin(todos, from, to)));
    SameColumnMoveEffect(b, k, from, to);
    var p := KeyIndex(b.columns, k);
    assert r == b.columns[p := (k, Column(k, MoveWithin(todos, from, to)))];
    Summary.FormatDependsOnLengths(Board(r), b);
  }
}
