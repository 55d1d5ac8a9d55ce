/**
 * The board store (store/BoardStore.ts): the board the page shows, the
 * new-task form fields, and the operations that change the board locally
 * and write to the database and file storage. Each operation is one
 * sequential step; the answers of the remote services are parameters, and
 * the writes an operation issues are returned, in order, as RemoteCalls.
 */
module BoardStore {
  import opened Options
  import opened JsArray
  import opened JsMap
  import opened StableSort
  import opened Typings
  import Grouping
  import AlertStore

  /** A request to the database or the file storage. */
  datatype RemoteCall =
    | UploadFile
    | DeleteFile(file: Image)
    | CreateDocument(title: string, status: TypedColumn, order: int, userId: string, image: Option<string>)
    | UpdateOrder(docId: string, newStatus: Option<TypedColumn>, order: int)
    | UpdateTitleAndImage(docId: string, title: string, image: Option<string>)
    | ClearImage(docId: string)
    | DeleteDocument(docId: string)

  /**
   * The image a task refers to, as the image-deleting code reads it: none,
   * text that is not JSON, the text `null`, or a file.
   */
  datatype StoredImage = NoImage | Malformed | NullImage | Stored(file: Image)

  /**
   * `if (todo.image)`, then `JSON.parse` for text or the object itself:
   * a missing or empty image is none, text that does not parse is malformed,
   * and text that parses to `null` is a null image.
   */
  function ImageToDelete(image: Nullable<ImageRef>, codec: ImageCodec): (r: StoredImage)
    ensures r.NoImage? <==> !ImageTruthy(image)
    ensures r.Stored? <==> ImageTruthy(image) && ImageObject(image.value, codec).JsonValue?
    ensures r.Stored? ==> ImageObject(image.value, codec) == JsonValue(r.file)
    ensures r.Malformed? <==> ImageTruthy(image) && image.value.Serialized? && codec.parse(image.value.json).SyntaxError?
    ensures r.NullImage? <==> ImageTruthy(image) && image.value.Serialized? && codec.parse(image.value.json).JsonNull?
  {
    if !ImageTruthy(image) then NoImage
    else match ImageObject(image.value, codec)
      case JsonValue(file) => Stored(file)
      case JsonNull => NullImage
      case SyntaxError => Malformed
  }

  /** The image field written for an uploaded file: its JSON text, or nothing. */
  function FileField(file: Option<Image>, codec: ImageCodec): (r: Option<string>)
    ensures r.Some? <==> file.Some?
    ensures file.Some? ==> r.value == codec.stringify(file.value)
  {
    match file
    case Some(f) => Some(codec.stringify(f))
    case None => None
  }

  // ---------------------------------------------------------------- updateTodoInDB

  /** The search predicate `t => t.$id === id`. */
  function HasId(id: string): (r: Todo -> bool)
    ensures forall t :: r(t) <==> t.id == id
  {
    (t: Todo) => t.id == id
  }

  /**
   * The writes of `updateTodoInDB(todo, columnId, newTodos)`: first the moved
   * task's status and its position in `newTodos`, then, when that write
   * succeeds and `newTodos` is not empty, every task's position as its order.
   */
  function UpdateTodoInDB(todo: Todo, columnId: TypedColumn, newTodos: seq<Todo>, firstWriteOk: bool): (calls: seq<RemoteCall>)
    ensures |calls| >= 1
    ensures calls[0] == UpdateOrder(todo.id, Some(columnId), FindIndex(newTodos, HasId(todo.id)))
    ensures !firstWriteOk ==> |calls| == 1
    ensures firstWriteOk ==> |calls| == 1 + |newTodos|
  {
    var first := UpdateOrder(todo.id, Some(columnId), FindIndex(newTodos, HasId(todo.id)));
    if !firstWriteOk || |newTodos| == 0 then [first]
    else [first] + seq(|newTodos|, i requires 0 <= i < |newTodos| => UpdateOrder(newTodos[i].id, None, i))
  }

  /** Every task of `newTodos` is written its own index, so the written orders are 0 .. n-1. */
  lemma OrdersArePositions(todo: Todo, columnId: TypedColumn, newTodos: seq<Todo>)
    ensures var calls := UpdateTodoInDB(todo, columnId, newTodos, true);
      forall i :: 0 <= i < |newTodos| ==> calls[i + 1] == UpdateOrder(newTodos[i].id, None, i)
  {
  }

  /**
   * The moved task's order is the first index holding its id, or -1 when
   * `newTodos` has none; with distinct ids the batch writes the same order.
   */
  lemma MovedTaskOrder(todo: Todo, columnId: TypedColumn, newTodos: seq<Todo>)
    ensures var o := UpdateTodoInDB(todo, columnId, newTodos, true)[0].order;
      && (o >= 0 ==> newTodos[o].id == todo.id && forall j :: 0 <= j < o ==> newTodos[j].id != todo.id)
      && (o == -1 <==> forall j :: 0 <= j < |newTodos| ==> newTodos[j].id != todo.id)
    ensures (forall i, j :: 0 <= i < j < |newTodos| ==> newTodos[i].id != newTodos[j].id) ==>
      forall i :: 0 <= i < |newTodos| && newTodos[i].id == todo.id ==>
        UpdateTodoInDB(todo, columnId, newTodos, true)[i + 1].order == UpdateTodoInDB(todo, columnId, newTodos, true)[0].order
  {
    var calls := UpdateTodoInDB(todo, columnId, newTodos, true);
    var o := calls[0].order;
    forall i | 0 <= i < |newTodos| && newTodos[i].id == todo.id &&
      (forall i, j :: 0 <= i < j < |newTodos| ==> newTodos[i].id != newTodos[j].id)
      ensures calls[i + 1].order == o
    {
      assert o >= 0;
      assert calls[i + 1] == UpdateOrder(newTodos[i].id, None, i);
    }
  }

  // ---------------------------------------------------------------- local updates

  /** The board after `deleteTask(taskIndex, todo, id)` removed the task locally. */
  function AfterDelete(b: Board, taskIndex: nat, id: TypedColumn): Board {
    match Get(b.columns, id)
    case None => b
    case Some(col) => Board(Set(b.columns, id, Column(col.id, RemoveAt(col.todos, taskIndex))))
  }

  /**
   * The writes of `deleteTask` after the local removal. Text that is not JSON
   * returns before any write; for a null image, reading its `bucketId` throws
   * inside the `try` around the file delete, which is caught, so only the
   * document is deleted.
   */
  function DeleteTaskCalls(todo: Todo, codec: ImageCodec): seq<RemoteCall> {
    match ImageToDelete(todo.image, codec)
    case Malformed => []
    case NoImage => [DeleteDocument(todo.id)]
    case NullImage => [DeleteDocument(todo.id)]
    case Stored(file) => [DeleteFile(file), DeleteDocument(todo.id)]
  }

  /** The order a new task in `columnId` gets: the column's length, or 0 without the column. */
  function NewTaskOrder(b: Board, columnId: TypedColumn): nat {
    match Get(b.columns, columnId)
    case None => 0
    case Some(col) => |col.todos|
  }

  /** The board after `addTask` put `newTodo` into `columnId`. */
  function AfterAdd(b: Board, columnId: TypedColumn, newTodo: Todo): Board {
    match Get(b.columns, columnId)
    case None => Board(Set(b.columns, columnId, Column(columnId, [newTodo])))
    case Some(col) => Board(Set(b.columns, columnId, Column(col.id, SortBy(col.todos + [newTodo], ByOrder))))
  }

  /** The task `addTask` builds locally; no due date or priority, and an image only with a file. */
  function NewTodo(id: string, createdAt: string, title: string, columnId: TypedColumn, order: int,
                   file: Option<Image>, userId: string, codec: ImageCodec): Todo
  {
    var image := match file case Some(f) => Value(Serialized(codec.stringify(f))) case None => Undefined;
    Todo(id, createdAt, title, columnId, order, image, userId, Undefined, Undefined)
  }

  /** A task with a new title and image, as `updateTask` writes it; every other field is kept. */
  function Retitled(t: Todo, title: string, image: Option<string>): (r: Todo)
    ensures r.title == title
    ensures image.Some? ==> r.image == Value(Serialized(image.value))
    ensures image.None? ==> r.image == Null
    ensures r.(title := t.title, image := t.image) == t
  {
    t.(title := title, image := match image case Some(s) => Value(Serialized(s)) case None => Null)
  }

  /** A column's tasks after `updateTask`: the first task with id `id` retitled, if there is one. */
  function RetitleFirst(todos: seq<Todo>, id: string, title: string, image: Option<string>): (r: seq<Todo>)
    ensures |r| == |todos|
  {
    var p := FindIndex(todos, HasId(id));
    if p == -1 then todos else todos[p := Retitled(todos[p], title, image)]
  }

  /** The board after `updateTask` changed, in column `columnId`, the first task with id `id`. */
  function AfterUpdate(b: Board, id: string, columnId: TypedColumn, title: string, image: Option<string>): Board {
    match Get(b.columns, columnId)
    case None => b
    case Some(col) =>
      if FindIndex(col.todos, HasId(id)) == -1 then b
      else Board(Set(b.columns, columnId, Column(col.id, RetitleFirst(col.todos, id, title, image))))
  }

  /** One column's tasks after `deleteImage`: every task with id `taskId` loses its image. */
  function ClearedTodos(todos: seq<Todo>, taskId: string): (r: seq<Todo>)
    ensures |r| == |todos|
  {
    seq(|todos|, j requires 0 <= j < |todos| => if todos[j].id == taskId then todos[j].(image := Undefined) else todos[j])
  }

  /** Every column after `deleteImage`, keys and order kept. */
  function ClearedColumns(columns: seq<(TypedColumn, Column)>, taskId: string): (r: seq<(TypedColumn, Column)>)
    ensures |r| == |columns|
  {
    seq(|columns|, i requires 0 <= i < |columns| =>
      (columns[i].0, Column(columns[i].1.id, ClearedTodos(columns[i].1.todos, taskId))))
  }

  /** The collaborators' answers to `addTask`. */
  datatype AddReplies = AddReplies(
    uploaded: Option<Image>,        // the file `uploadImage` stored, when an image was given and the upload worked
    userId: Option<string>,         // the signed-in user, or None when the account lookup fails
    createdId: Option<string>,      // the new document's id, or None when the create fails
    now: string)                    // the clock, as an ISO string

  /** The collaborators' answers to `updateTask`. */
  datatype UpdateReplies = UpdateReplies(uploaded: Option<Image>, deleteOk: bool, updateOk: bool)

  class BoardState {
    var board: Board
    var newTaskInput: string
    var newTaskType: TypedColumn
    var searchString: string

    /** The store as created: an empty board and an empty form for the todo column. */
    constructor()
      ensures board == Board([]) && newTaskInput == "" && newTaskType == TodoCol && searchString == ""
      ensures Valid(board)
    {
      board, newTaskInput, newTaskType, searchString := Board([]), "", TodoCol, "";
    }

    /** `getBoard()`: replaces the board by the loaded one. */
    method GetBoard(response: Option<seq<Grouping.Document>>, codec: ImageCodec)
      modifies this
      ensures response.None? ==> board == Board([])
      ensures response.Some? ==> board == Grouping.GroupedBoard(response.value, codec)
      ensures Valid(board)
      ensures newTaskInput == old(newTaskInput) && newTaskType == old(newTaskType) && searchString == old(searchString)
    {
      board := Grouping.GetTodosGroupedByColumn(response, codec);
      if response.Some? {
        Grouping.GroupedBoardShape(response.value, codec);
      }
    }

    /** `setBoardState(board)`. */
    method SetBoardState(b: Board)
      modifies this
      ensures board == b
      ensures newTaskInput == old(newTaskInput) && newTaskType == old(newTaskType) && searchString == old(searchString)
    {
      board := b;
    }

    method SetSearchString(s: string)
      modifies this
      ensures searchString == s
      ensures board == old(board) && newTaskInput == old(newTaskInput) && newTaskType == old(newTaskType)
    {
      searchString := s;
    }

    method SetNewTaskInput(input: string)
      modifies this
      ensures newTaskInput == input
      ensures board == old(board) && newTaskType == old(newTaskType) && searchString == old(searchString)
    {
      newTaskInput := input;
    }

    method SetNewTaskType(columnId: TypedColumn)
      modifies this
      ensures newTaskType == columnId
      ensures board == old(board) && newTaskInput == old(newTaskInput) && searchString == old(searchString)
    {
      newTaskType := columnId;
    }

    /**
     * `deleteTask(taskIndex, todo, id)`: the task is removed locally first,
     * then its image and its document are deleted; an image text that is
     * not JSON ends the operation before the document delete.
     */
    method DeleteTask(taskIndex: nat, todo: Todo, id: TypedColumn, codec: ImageCodec) returns (calls: seq<RemoteCall>)
      modifies this
      ensures board == AfterDelete(old(board), taskIndex, id)
      ensures calls == DeleteTaskCalls(todo, codec)
      ensures Valid(old(board)) ==> Valid(board)
      ensures newTaskInput == old(newTaskInput) && newTaskType == old(newTaskType) && searchString == old(searchString)
    {
      var newColumns := board.columns;
      var column := Get(newColumns, id);
      if column.Some? {
        newColumns := Set(newColumns, id, Column(column.value.id, RemoveAt(column.value.todos, taskIndex)));
        if Valid(board) {
          ColumnIdIsKey(board, id);
          ValidSet(board, id, Column(column.value.id, RemoveAt(column.value.todos, taskIndex)));
        }
      }
      board := Board(newColumns);

      calls := [];
      var imageObj := ImageToDelete(todo.image, codec);
      if imageObj.Malformed? {
        return;
      }
      if imageObj.Stored? {
        calls := calls + [DeleteFile(imageObj.file)];
      }
      calls := calls + [DeleteDocument(todo.id)];
    }

    /**
     * `addTask(title, columnId, image)`: the order is taken before the remote
     * calls; when the user lookup and the create succeed, the form input is
     * cleared and the new task is added to its column.
     */
    method AddTask(title: string, columnId: TypedColumn, hasImage: bool, replies: AddReplies, codec: ImageCodec)
      returns (calls: seq<RemoteCall>)
      modifies this
      ensures var file := if hasImage then replies.uploaded else None;
        var order := NewTaskOrder(old(board), columnId);
        && calls == (if hasImage then [UploadFile] else [])
                    + (if replies.userId.None? then []
                       else [CreateDocument(title, columnId, order, replies.userId.value, FileField(file, codec))])
        && (replies.userId.Some? && replies.createdId.Some? ==>
              && newTaskInput == ""
              && board == AfterAdd(old(board), columnId,
                   NewTodo(replies.createdId.value, replies.now, title, columnId, order, file, replies.userId.value, codec)))
        && (replies.userId.None? || replies.createdId.None? ==>
              board == old(board) && newTaskInput == old(newTaskInput))
      ensures Valid(old(board)) ==> Valid(board)
      ensures newTaskType == old(newTaskType) && searchString == old(searchString)
    {
      calls := [];
      var file: Option<Image> := None;
      if hasImage {
        calls := calls + [UploadFile];
        file := replies.uploaded;
      }

      var columns := board.columns;
      var column := Get(columns, columnId);
      var order := if column.Some? then |column.value.todos| else 0;
      assert order == NewTaskOrder(board, columnId);

      if replies.userId.None? {
        return;
      }
      var userId := replies.userId.value;
      calls := calls + [CreateDocument(title, columnId, order, userId, FileField(file, codec))];
      if replies.createdId.None? {
        return;
      }

      newTaskInput := "";
      AddLocally(columnId, NewTodo(replies.createdId.value, replies.now, title, columnId, order, file, userId, codec));
    }

    /** The `set` of `addTask`: the new task joins its column, which is sorted by order again. */
    method AddLocally(columnId: TypedColumn, newTodo: Todo)
      modifies this
      ensures board == AfterAdd(old(board), columnId, newTodo)
      ensures Valid(old(board)) ==> Valid(board)
      ensures newTaskInput == old(newTaskInput) && newTaskType == old(newTaskType) && searchString == old(searchString)
    {
      var newColumns := board.columns;
      var col := Get(newColumns, columnId);
      if col.None? {
        newColumns := Set(newColumns, columnId, Column(columnId, [newTodo]));
      } else {
        var todos := col.value.todos + [newTodo];
        todos := SortBy(todos, ByOrder);
        newColumns := Set(newColumns, columnId, Column(col.value.id, todos));
      }
      if Valid(board) {
        AddValid(board, columnId, newTodo);
      }
      board := Board(newColumns);
    }

    /**
     * `updateTask(todo, title, columnId, image)`: with a new image it is
     * uploaded; any image the task had is deleted (its text not being JSON,
     * being `null`, or the delete failing, ends the operation, since nothing
     * here catches); the document gets the new
     * title and image, and then the task in `columnId` with the same id does.
     */
    method UpdateTask(todo: Todo, updatedTitle: string, columnId: TypedColumn, hasImage: bool,
                      replies: UpdateReplies, codec: ImageCodec) returns (calls: seq<RemoteCall>)
      modifies this
      ensures var file := if hasImage then replies.uploaded else None;
        var old_ := ImageToDelete(todo.image, codec);
        var upload := if hasImage then [UploadFile] else [];
        var update := UpdateTitleAndImage(todo.id, updatedTitle, FileField(file, codec));
        && (old_.Malformed? || old_.NullImage? ==> calls == upload && board == old(board))
        && (old_.Stored? && !replies.deleteOk ==> calls == upload + [DeleteFile(old_.file)] && board == old(board))
        && (old_.Stored? && replies.deleteOk ==> calls == upload + [DeleteFile(old_.file), update])
        && (old_.NoImage? ==> calls == upload + [update])
        && (old_.Malformed? || old_.NullImage? || (old_.Stored? && !replies.deleteOk) || !replies.updateOk ==> board == old(board))
        && ((old_.NoImage? || (old_.Stored? && replies.deleteOk)) && replies.updateOk ==>
              board == AfterUpdate(old(board), todo.id, columnId, updatedTitle, FileField(file, codec)))
      ensures Valid(old(board)) ==> Valid(board)
      ensures newTaskInput == old(newTaskInput) && newTaskType == old(newTaskType) && searchString == old(searchString)
    {
      calls := [];
      var file: Option<Image> := None;
      if hasImage {
        calls := calls + [UploadFile];
        file := replies.uploaded;
      }
      var imageObj := ImageToDelete(todo.image, codec);
      if imageObj.Malformed? || imageObj.NullImage? {
        return;
      }
      if imageObj.Stored? {
        calls := calls + [DeleteFile(imageObj.file)];
        if !replies.deleteOk {
          return;
        }
      }
      var image := FileField(file, codec);
      calls := calls + [UpdateTitleAndImage(todo.id, updatedTitle, image)];
      if !replies.updateOk {
        return;
      }
      UpdateLocally(todo.id, columnId, updatedTitle, image);
    }

    /** The `set` of `updateTask`: the first task with the id in `columnId` gets the new title and image. */
    method UpdateLocally(id: string, columnId: TypedColumn, title: string, image: Option<string>)
      modifies this
      ensures board == AfterUpdate(old(board), id, columnId, title, image)
      ensures Valid(old(board)) ==> Valid(board)
      ensures newTaskInput == old(newTaskInput) && newTaskType == old(newTaskType) && searchString == old(searchString)
    {
      var newColumns := board.columns;
      var column := Get(newColumns, columnId);
      if column.Some? {
        var taskIndex := FindIndex(column.value.todos, HasId(id));
        if taskIndex != -1 {
          var todos := column.value.todos[taskIndex := Retitled(column.value.todos[taskIndex], title, image)];
          newColumns := Set(newColumns, columnId, Column(column.value.id, todos));
        }
      }
      if Valid(board) {
        UpdateValid(board, id, columnId, title, image);
      }
      board := Board(newColumns);
    }

    /**
     * `deleteImage(taskId, image)` as written: the file is deleted, then the
     * document's image is cleared, then every task with that id loses its
     * image locally and a success alert is shown; a failure of either remote
     * call shows the failure alert with the default type, which is success.
     */
    method DeleteImage(taskId: string, image: Image, deleteOk: bool, updateOk: bool, alert: AlertStore.AlertState)
      returns (calls: seq<RemoteCall>)
      modifies this, alert
      ensures calls == [DeleteFile(image)] + (if deleteOk then [ClearImage(taskId)] else [])
      ensures deleteOk && updateOk ==> board == Board(ClearedColumns(old(board).columns, taskId))
      ensures !(deleteOk && updateOk) ==> board == old(board)
      ensures alert.isVisible && alert.alertType == AlertStore.Success
      ensures alert.message == if deleteOk && updateOk then "Image deleted successfully!" else "Failed to delete image."
      ensures Valid(old(board)) ==> Valid(board)
      ensures newTaskInput == old(newTaskInput) && newTaskType == old(newTaskType) && searchString == old(searchString)
    {
      calls := DeleteImageReporting(taskId, image, deleteOk, updateOk, AlertStore.Success, alert);
    }

    /**
     * `deleteImage` with the failure reported as the error alert its comment
     * announces; everything else is as written.
     */
    method DeleteImageWithErrorAlert(taskId: string, image: Image, deleteOk: bool, updateOk: bool, alert: AlertStore.AlertState)
      returns (calls: seq<RemoteCall>)
      modifies this, alert
      ensures calls == [DeleteFile(image)] + (if deleteOk then [ClearImage(taskId)] else [])
      ensures deleteOk && updateOk ==> board == Board(ClearedColumns(old(board).columns, taskId))
      ensures !(deleteOk && updateOk) ==> board == old(board)
      ensures alert.isVisible
      ensures alert.alertType == if deleteOk && updateOk then AlertStore.Success else AlertStore.Error
      ensures alert.message == if deleteOk && updateOk then "Image deleted successfully!" else "Failed to delete image."
      ensures Valid(old(board)) ==> Valid(board)
      ensures newTaskInput == old(newTaskInput) && newTaskType == old(newTaskType) && searchString == old(searchString)
    {
      calls := DeleteImageReporting(taskId, image, deleteOk, updateOk, AlertStore.Error, alert);
    }

    /** The steps of `deleteImage`, with the alert type a failure is shown with. */
    method DeleteImageReporting(taskId: string, image: Image, deleteOk: bool, updateOk: bool,
                                failureType: AlertStore.AlertType, alert: AlertStore.AlertState)
      returns (calls: seq<RemoteCall>)
      modifies this, alert
      ensures calls == [DeleteFile(image)] + (if deleteOk then [ClearImage(taskId)] else [])
      ensures deleteOk && updateOk ==> board == Board(ClearedColumns(old(board).columns, taskId))
      ensures !(deleteOk && updateOk) ==> board == old(board)
      ensures alert.isVisible
      ensures alert.alertType == if deleteOk && updateOk then AlertStore.Success else failureType
      ensures alert.message == if deleteOk && updateOk then "Image deleted successfully!" else "Failed to delete image."
      ensures Valid(old(board)) ==> Valid(board)
      ensures newTaskInput == old(newTaskInput) && newTaskType == old(newTaskType) && searchString == old(searchString)
    {
      calls := [DeleteFile(image)];
      if !deleteOk {
        alert.ShowAlert("Failed to delete image.", failureType);
        return;
      }
      calls := calls + [ClearImage(taskId)];
      if !updateOk {
        alert.ShowAlert("Failed to delete image.", failureType);
        return;
      }
      var newColumns := ClearTaskImage(board.columns, taskId);
      if Valid(board) {
        ClearedValid(board, taskId);
      }
      board := Board(newColumns);
      alert.ShowAlert("Image deleted successfully!");
    }
  }

  /** The nested `forEach` of `deleteImage`, over every column and every task. */
  method ClearTaskImage(columns: seq<(TypedColumn, Column)>, taskId: string) returns (newColumns: seq<(TypedColumn, Column)>)
    ensures newColumns == ClearedColumns(columns, taskId)
  {
    newColumns := columns;
    for i := 0 to |columns|
      invariant |newColumns| == |columns|
      invariant forall c :: 0 <= c < i ==> newColumns[c] == ClearedColumns(columns, taskId)[c]
      invariant forall c :: i <= c < |columns| ==> newColumns[c] == columns[c]
    {
      var todos := newColumns[i].1.todos;
      for j := 0 to |todos|
        invariant |todos| == |columns[i].1.todos|
        invariant forall t :: 0 <= t < j ==> todos[t] == ClearedTodos(columns[i].1.todos, taskId)[t]
        invariant forall t :: j <= t < |todos| ==> todos[t] == columns[i].1.todos[t]
      {
        if todos[j].id == taskId {
          todos := todos[j := todos[j].(image := Undefined)];
        }
      }
      assert todos == ClearedTodos(columns[i].1.todos, taskId);
      newColumns := newColumns[i := (newColumns[i].0, Column(newColumns[i].1.id, todos))];
    }
  }

  // ---------------------------------------------------------------- properties of the local updates

  /**
   * `deleteTask` deletes the document unless the image text is not JSON,
   * always as its last write, and deletes first exactly the file the task's
   * image field denotes.
   */
  lemma DeleteTaskWrites(todo: Todo, codec: ImageCodec)
    ensures var calls := DeleteTaskCalls(todo, codec);
      && (DeleteDocument(todo.id) in calls <==> !ImageToDelete(todo.image, codec).Malformed?)
      && (calls != [] ==> calls[|calls| - 1] == DeleteDocument(todo.id))
      && (forall f :: DeleteFile(f) in calls <==> ImageTruthy(todo.image) && ImageObject(todo.image.value, codec) == JsonValue(f))
  {
  }

  /**
   * Image text that parses to `null` still lets `deleteTask` delete the
   * document: the failing field read is caught with the file delete.
   */
  lemma DeleteTaskNullImage(todo: Todo, codec: ImageCodec, text: string)
    requires todo.image == Value(Serialized(text)) && text != "" && codec.parse(text) == JsonNull
    ensures ImageToDelete(todo.image, codec) == NullImage
    ensures DeleteTaskCalls(todo, codec) == [DeleteDocument(todo.id)]
  {
  }

  /**
   * A task added to a column gets that column's length as its order, so
   * two tasks added one after the other get consecutive orders.
   */
  lemma ConsecutiveOrders(b: Board, columnId: TypedColumn, t: Todo)
    requires Valid(b)
    ensures NewTaskOrder(b, columnId) == if Get(b.columns, columnId).Some? then |Get(b.columns, columnId).value.todos| else 0
    ensures NewTaskOrder(AfterAdd(b, columnId, t), columnId) == NewTaskOrder(b, columnId) + 1
  {
    AddEffect(b, columnId, t);
    if Get(b.columns, columnId).Some? {
      var todos := Get(AfterAdd(b, columnId, t).columns, columnId).value.todos;
      assert |todos| == |multiset(todos)|;
    }
  }

  /**
   * Deleting removes exactly the task at `taskIndex` from column `id`, keeps
   * the others in order and every other column as it was, and keeps the
   * board valid. An index past the end removes nothing.
   */
  lemma DeleteEffect(b: Board, taskIndex: nat, id: TypedColumn)
    requires Valid(b) && Get(b.columns, id).Some?
    ensures var todos := Get(b.columns, id).value.todos;
      var r := AfterDelete(b, taskIndex, id);
      && Valid(r)
      && Keys(r.columns) == Keys(b.columns)
      && Get(r.columns, id) == Some(Column(id, RemoveAt(todos, taskIndex)))
      && (forall k :: k != id ==> Get(r.columns, k) == Get(b.columns, k))
      && (taskIndex < |todos| ==> AllTodos(r.columns) + multiset{todos[taskIndex]} == AllTodos(b.columns))
      && (taskIndex < |todos| ==> TodoCount(r.columns) + 1 == TodoCount(b.columns))
      && (taskIndex >= |todos| ==> r == b)
  {
    var todos := Get(b.columns, id).value.todos;
    ColumnIdIsKey(b, id);
    ValidSet(b, id, Column(id, RemoveAt(todos, taskIndex)));
    AllTodosSet(b.columns, id, Column(id, RemoveAt(todos, taskIndex)));
    if taskIndex < |todos| {
      var r := AfterDelete(b, taskIndex, id);
      MultisetCancel(AllTodos(r.columns) + multiset{todos[taskIndex]}, AllTodos(b.columns), multiset(RemoveAt(todos, taskIndex)));
    } else {
      KeyIndexIs(b.columns, id, KeyIndex(b.columns, id));
      assert b.columns[KeyIndex(b.columns, id)] == (id, Column(id, todos));
    }
  }

  /** Deleting in a column the board does not have changes nothing. */
  lemma DeleteMissingColumn(b: Board, taskIndex: nat, id: TypedColumn)
    requires Get(b.columns, id).None?
    ensures AfterDelete(b, taskIndex, id) == b
  {
  }

  lemma AddValid(b: Board, columnId: TypedColumn, t: Todo)
    requires Valid(b)
    ensures Valid(AfterAdd(b, columnId, t))
  {
    match Get(b.columns, columnId)
    case None =>
      ValidSet(b, columnId, Column(columnId, [t]));
    case Some(col) =>
      ColumnIdIsKey(b, columnId);
      ValidSet(b, columnId, Column(col.id, SortBy(col.todos + [t], ByOrder)));
  }

  /**
   * Adding creates the column with only the new task when it is missing
   * (after the other columns), and otherwise gives the column its old tasks
   * and the new one sorted by order; other columns stay as they were.
   */
  lemma AddEffect(b: Board, columnId: TypedColumn, t: Todo)
    requires Valid(b)
    ensures var r := AfterAdd(b, columnId, t);
      && Valid(r)
      && (forall k :: k != columnId ==> Get(r.columns, k) == Get(b.columns, k))
      && AllTodos(r.columns) == AllTodos(b.columns) + multiset{t}
      && TodoCount(r.columns) == TodoCount(b.columns) + 1
      && (Get(b.columns, columnId).None? ==>
            Get(r.columns, columnId) == Some(Column(columnId, [t])) && Keys(r.columns) == Keys(b.columns) + [columnId])
      && (Get(b.columns, columnId).Some? ==>
            var todos := Get(r.columns, columnId).value.todos;
            && Keys(r.columns) == Keys(b.columns)
            && Get(r.columns, columnId).value.id == columnId
            && SortedBy(todos, ByOrder)
            && multiset(todos) == multiset(Get(b.columns, columnId).value.todos) + multiset{t})
  {
    AddValid(b, columnId, t);
    match Get(b.columns, columnId)
    case None =>
      AllTodosSet(b.columns, columnId, Column(columnId, [t]));
    case Some(col) =>
      ColumnIdIsKey(b, columnId);
      SortBySorts(col.todos + [t], ByOrder);
      AllTodosSet(b.columns, columnId, Column(col.id, SortBy(col.todos + [t], ByOrder)));
      MultisetCancel(AllTodos(AfterAdd(b, columnId, t).columns), AllTodos(b.columns) + multiset{t}, multiset(col.todos));
  }

  /**
   * In a column already sorted by order whose orders do not exceed its
   * length, the new task of order `NewTaskOrder` goes last, and deleting
   * that last position gives the board back.
   */
  lemma AddThenDeleteRestores(b: Board, columnId: TypedColumn, t: Todo)
    requires Valid(b) && Get(b.columns, columnId).Some?
    requires SortedBy(Get(b.columns, columnId).value.todos, ByOrder)
    requires forall u :: u in Get(b.columns, columnId).value.todos ==> u.order <= NewTaskOrder(b, columnId)
    requires t.order == NewTaskOrder(b, columnId)
    ensures Get(AfterAdd(b, columnId, t).columns, columnId).value.todos == Get(b.columns, columnId).value.todos + [t]
    ensures AfterDelete(AfterAdd(b, columnId, t), NewTaskOrder(b, columnId), columnId) == b
  {
    var col := Get(b.columns, columnId).value;
    ColumnIdIsKey(b, columnId);
    var s := col.todos + [t];
    assert SortedBy(s, ByOrder) by {
      forall i, j | 0 <= i < j < |s| ensures ByOrder(s[i]) <= ByOrder(s[j]) {
        if j == |col.todos| {
          assert s[i] in col.todos;
        }
      }
    }
    SortBySorted(s, ByOrder);
    var mid := AfterAdd(b, columnId, t);
    assert Get(mid.columns, columnId) == Some(Column(columnId, s));
    assert RemoveAt(s, |col.todos|) == col.todos;
    var p := KeyIndex(b.columns, columnId);
    var back := Set(mid.columns, columnId, Column(columnId, col.todos));
    assert back == b.columns by {
      KeyIndexIs(mid.columns, columnId, p);
      KeyIndexIs(back, columnId, p);
      assert b.columns[p] == (columnId, col);
    }
  }

  /**
   * Only the first task with id `id` changes, in title and image only; with
   * no such task nothing changes.
   */
  lemma RetitleFirstEffect(todos: seq<Todo>, id: string, title: string, image: Option<string>)
    ensures var r := RetitleFirst(todos, id, title, image);
      && ((forall j :: 0 <= j < |todos| ==> todos[j].id != id) ==> r == todos)
      && (forall j :: 0 <= j < |todos| && todos[j].id == id && (forall i :: 0 <= i < j ==> todos[i].id != id) ==>
            && r[j] == Retitled(todos[j], title, image)
            && (forall i :: 0 <= i < |todos| && i != j ==> r[i] == todos[i]))
  {
    var p := FindIndex(todos, HasId(id));
    var r := RetitleFirst(todos, id, title, image);
    assert forall i :: 0 <= i < |todos| ==> HasId(id)(todos[i]) == (todos[i].id == id);
    forall j | 0 <= j < |todos| && todos[j].id == id && (forall i :: 0 <= i < j ==> todos[i].id != id)
      ensures r[j] == Retitled(todos[j], title, image)
      ensures forall i :: 0 <= i < |todos| && i != j ==> r[i] == todos[i]
    {
      assert p == j;
    }
  }

  lemma UpdateValid(b: Board, id: string, columnId: TypedColumn, title: string, image: Option<string>)
    requires Valid(b)
    ensures Valid(AfterUpdate(b, id, columnId, title, image))
  {
    if Get(b.columns, columnId).Some? {
      ColumnIdIsKey(b, columnId);
      var col := Get(b.columns, columnId).value;
      if FindIndex(col.todos, HasId(id)) != -1 {
        ValidSet(b, columnId, Column(col.id, RetitleFirst(col.todos, id, title, image)));
      }
    }
  }

  /**
   * Updating replaces the tasks of column `columnId` by RetitleFirst of them
   * (see RetitleFirstEffect); every other column, the key order and the
   * number of tasks are as they were. With no such task (or no such column)
   * nothing changes.
   */
  lemma UpdateEffect(b: Board, id: string, columnId: TypedColumn, title: string, image: Option<string>)
    requires Valid(b)
    ensures var r := AfterUpdate(b, id, columnId, title, image);
      && Valid(r)
      && Keys(r.columns) == Keys(b.columns)
      && (forall k :: k != columnId ==> Get(r.columns, k) == Get(b.columns, k))
      && TodoCount(r.columns) == TodoCount(b.columns)
      && (Get(b.columns, columnId).None? ==> r == b)
      && (Get(b.columns, columnId).Some? ==>
            var old_ := Get(b.columns, columnId).value.todos;
            && Get(r.columns, columnId) == Some(Column(columnId, RetitleFirst(old_, id, title, image)))
            && ((forall j :: 0 <= j < |old_| ==> old_[j].id != id) ==> r == b))
  {
    UpdateValid(b, id, columnId, title, image);
    if Get(b.columns, columnId).Some? {
      ColumnIdIsKey(b, columnId);
      var col := Get(b.columns, columnId).value;
      var todos' := RetitleFirst(col.todos, id, title, image);
      RetitleFirstEffect(col.todos, id, title, image);
      if FindIndex(col.todos, HasId(id)) != -1 {
        var r := Set(b.columns, columnId, Column(col.id, todos'));
        assert TodoCount(r) == TodoCount(b.columns) by {
          AllTodosSet(b.columns, columnId, Column(col.id, todos'));
        }
      } else {
        assert AfterUpdate(b, id, columnId, title, image) == b;
        assert RetitleFirst(col.todos, id, title, image) == col.todos;
      }
    }
  }

  /** Properties of one column's tasks after `deleteImage`. */
  lemma ClearedTodosEffect(todos: seq<Todo>, taskId: string)
    ensures forall j :: 0 <= j < |todos| && todos[j].id == taskId ==>
      ClearedTodos(todos, taskId)[j] == todos[j].(image := Undefined)
    ensures forall j :: 0 <= j < |todos| && todos[j].id != taskId ==> ClearedTodos(todos, taskId)[j] == todos[j]
    ensures ClearedTodos(ClearedTodos(todos, taskId), taskId) == ClearedTodos(todos, taskId)
  {
  }

  lemma ClearedValid(b: Board, taskId: string)
    requires Valid(b)
    ensures Valid(Board(ClearedColumns(b.columns, taskId)))
    ensures Keys(ClearedColumns(b.columns, taskId)) == Keys(b.columns)
  {
    var r := ClearedColumns(b.columns, taskId);
    assert forall i :: 0 <= i < |r| ==> r[i].0 == b.columns[i].0;
  }

  /**
   * After `deleteImage`, every task with id `taskId`, in whichever column,
   * has no image and is otherwise unchanged; every other task is unchanged;
   * the columns, their order and their lengths are kept; doing it twice is
   * doing it once.
   */
  lemma ClearedEffect(b: Board, taskId: string, k: TypedColumn)
    requires Valid(b)
    ensures var r := ClearedColumns(b.columns, taskId);
      && Valid(Board(r))
      && Keys(r) == Keys(b.columns)
      && (Get(r, k).Some? <==> Get(b.columns, k).Some?)
      && (Get(b.columns, k).Some? ==> Get(r, k) == Some(Column(k, ClearedTodos(Get(b.columns, k).value.todos, taskId))))
      && ClearedColumns(r, taskId) == r
  {
    var r := ClearedColumns(b.columns, taskId);
    ClearedValid(b, taskId);
    if Get(b.columns, k).Some? {
      var p := KeyIndex(b.columns, k);
      ColumnIdIsKey(b, k);
      KeyIndexIs(r, k, p);
    } else {
      assert k !in Keys(r);
    }
    var rr := ClearedColumns(r, taskId);
    forall i | 0 <= i < |r| ensures rr[i] == r[i] {
      ClearedTodosEffect(b.columns[i].1.todos, taskId);
    }
  }
}
