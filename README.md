# KanbanZen board core in Dafny

A model of the client-side state of the KanbanZen Kanban board and the proofs
about it. The board is a map from the three column ids (`todo`, `inprogress`,
`done`) to columns of tasks. The model covers:

- loading the board from the user's stored documents: grouping by status,
  adding missing columns, sorting each column by `order`, and ordering the
  columns;
- the drag-end handler, which moves a column or a task and returns the
  database sync request that follows a task move;
- the board store: getting and setting the board, the form fields and the
  search string, deleting, adding and updating a task, deleting a task's
  image, and the order write-back;
- the board summary handed to the suggestion service;
- the alert store and the edit-dialog store.

Files and modules:

| file | module | what it holds |
|---|---|---|
| `options.dfy` | `Options` | `Option` |
| `jsarray.dfy` | `JsArray` | `splice` with JavaScript's clamping, `findIndex`, `indexOf` |
| `jsmap.dfy` | `JsMap` | a JavaScript `Map` as entries in insertion order; `get` and `set` |
| `stablesort.dfy` | `StableSort` | `Array.prototype.sort` with a key comparator, a stable sort |
| `typings.dfy` | `Typings` | the entities: `Todo`, `Column`, `Board`, the column ids, `Image` |
| `grouping.dfy` | `Grouping` | `getTodosGroupedByColumn` |
| `dragend.dfy` | `DragEnd` | `handleOnDragEnd` of the board component |
| `boardstore.dfy` | `BoardStore` | the board store, as class `BoardState` |
| `summary.dfy` | `Summary` | `formatTodosForAI` |
| `alertstore.dfy` | `AlertStore` | the alert store, as class `AlertState` |
| `editmodalstore.dfy` | `EditModalStore` | the edit-dialog store, as class `EditModalState` |

How the model is built:

- The two stores and the edit dialog are classes whose fields the methods
  update, as the stores' `set` calls do.
- The loader's `reduce` and `for` loops are `while` or `for` loops. The same
  holds for `deleteImage`'s nested `forEach`.
- The splice, sort and map operations are functions on values, and every
  board is a value. In the board component this matches the code, which
  splices fresh copies (`Array.from`) and builds a new `Map`. The store does
  not copy: `new Map(...)` shares the column objects, and `deleteTask`,
  `addTask`, `updateTask` and `deleteImage` change arrays or tasks that the
  previous board still holds. The model gives the new board only; see
  "Left out".
- A JavaScript `Map` is the sequence of its entries. `get` reads the entry of
  the key. `set` overwrites that entry in place, or appends a new one.
  `Valid(board)` states what every map the source builds satisfies: no key
  occurs twice, and each column's `id` equals its key.
- Remote calls to the database and the file store are not performed. Each
  store operation returns the sequence of `RemoteCall`s it issues. The
  collaborators' answers are parameters:
  - the uploaded file, the user lookup and the created document id for
    `addTask`;
  - whether the delete and the update succeed for `updateTask` and
    `deleteImage`;
  - the document list, or its failure, for the loader.
- `JSON.parse`/`JSON.stringify` of the image field are an `ImageCodec`: two
  function values made parameters. A parse has three outcomes (`Json`):
  - it throws on text that is not JSON;
  - it gives `null`, and reading a field of it throws;
  - it gives a value whose `bucketId` and `fileId` the code reads.

Where the intended behaviour and the code differ, the model follows the code:

- The `order` fields are meant to match the tasks' positions after every
  change, and `status` to name the task's column. On a drag the code
  rewrites them only in the database, never in memory. On a delete it
  rewrites them nowhere, so a column's orders can have gaps.
  `CrossMoveKeepsStaleStatus` shows a moved task keeping the status of its old
  column.
- The board is meant to hold the three columns at all times. It is empty at
  start and after a failed load. `addTask` into a missing column appends that column at the
  end.
- An update is meant to go through even when the old image cannot be
  deleted. `updateTask` stops after the upload instead when the old image's
  delete fails, its text is not JSON, or its text is `null`.
- A deleted task is meant to leave the database too. When the image text is
  not JSON, `deleteTask` returns before `deleteDocument`
  (store/BoardStore.ts:74). The task then disappears from the board but stays
  stored (`DeleteTaskWrites`).

## Model

| member | source | states |
|---|---|---|
| Typings.ImageTruthy | kanban-board-project/store/BoardStore.ts:66 | `if (todo.image)` passes only for a present image: always for an object, and for text exactly when it is non-empty |
| Typings.ImageObject | kanban-board-project/store/BoardStore.ts:69-79 | the image read as a value: an object is itself, text is the parse of that text |
| Typings.ParseColumn | kanban-board-project/typings.d.ts:7 | the column a drop-target id names, exactly when it is one of the three column names |
| Typings.ColumnIdIsKey | kanban-board-project/typings.d.ts:3-12 | on a valid board, the column under key `k` has `id == k` |
| Typings.AllTodosSet | kanban-board-project/typings.d.ts:3-5 | replacing a column trades its todos for the new column's; setting a new key adds the new column's todos |
| Typings.ValidSet | kanban-board-project/typings.d.ts:3-12 | setting a column under its own id keeps the board valid |
| Typings.SetTwo | kanban-board-project/components/Board.tsx:63-70 | setting two distinct keys of a valid board reads back both new columns, leaves every other column and the key order alone, keeps the board valid, and trades the two old columns' todos for the new ones |
| Typings.AllTodosMoveWithin | kanban-board-project/components/Board.tsx:28-31 | moving a map entry keeps every todo and the count |
| Typings.ValidOfPermutation | kanban-board-project/components/Board.tsx:31 | a rebuilt map holding the same entries with distinct keys is valid |
| Typings.ThreeColumns | kanban-board-project/lib/getTodosGroupedByColumn.ts:56-76 | the board of the three columns in the fixed order is valid and complete, has keys todo, inprogress, done, and `get` reads each column under its id |
| Typings.ThreeColumnsTodos | kanban-board-project/lib/getTodosGroupedByColumn.ts:56-76 | the three-column board holds exactly the todos of its columns, and their number |
| JsArray.Clamp | kanban-board-project/components/Board.tsx:30 | a splice start past the end acts at the end |
| JsArray.RemoveAt | kanban-board-project/components/Board.tsx:44 | `splice(i, 1)` drops element `i` and keeps the rest in order; an index past the end removes nothing |
| JsArray.InsertAt | kanban-board-project/components/Board.tsx:47 | `splice(i, 0, x)` puts `x` at the clamped position and keeps the other elements in order |
| JsArray.RemoveAfterInsert | kanban-board-project/components/Board.tsx:61 | removing at the clamped insert position gives the list back |
| JsArray.MoveWithin | kanban-board-project/components/Board.tsx:29-30 | the two splices of a drag inside one list: remove at the source, insert the removed element at the destination (its properties: MoveWithinProperties) |
| JsArray.MoveWithinProperties | kanban-board-project/components/Board.tsx:29-30 | the two splices of a move keep length and elements, put the moved element at the clamped destination, and keep the others in order |
| JsArray.FindIndex | kanban-board-project/store/BoardStore.ts:114 | the first index whose element satisfies the predicate, or -1 when none does |
| JsArray.IndexOf | kanban-board-project/lib/getTodosGroupedByColumn.ts:74 | the first index holding `x`, or -1 exactly when `x` is absent |
| JsMap.KeyIndex | kanban-board-project/typings.d.ts:4 | the first entry holding a key, or -1 when no entry does |
| JsMap.Keys | kanban-board-project/components/Board.tsx:28 | the keys in iteration order, one per entry |
| JsMap.Get | kanban-board-project/components/Board.tsx:36-37 | `get` finds a value exactly for the present keys, and that value is stored under the key |
| JsMap.Set | kanban-board-project/components/Board.tsx:53 | `get` then reads the new value and every other key as before; an existing key keeps its place, a new key goes last; distinct keys stay distinct |
| JsMap.GetOfPermutation | kanban-board-project/components/Board.tsx:31 | two maps with the same entries in any order answer every `get` alike |
| JsMap.DistinctKeysMoveWithin | kanban-board-project/components/Board.tsx:28-31 | moving an entry keeps the keys distinct |
| JsMap.SetNew | kanban-board-project/lib/formatTodosForAI.ts:5 | setting an absent key appends its entry |
| StableSort.SortBy | kanban-board-project/lib/getTodosGroupedByColumn.ts:68 | the sort is a permutation of its input |
| StableSort.SortBySorts | kanban-board-project/lib/getTodosGroupedByColumn.ts:68 | the sort's result is sorted by key |
| StableSort.SortByIsStable | kanban-board-project/store/BoardStore.ts:200 | elements with equal keys keep their original order |
| StableSort.SortBySorted | kanban-board-project/store/BoardStore.ts:200 | sorting a sorted list changes nothing |
| StableSort.SortedStableIsSortBy | kanban-board-project/lib/getTodosGroupedByColumn.ts:68 | any sorted rearrangement that keeps each key's elements in order is exactly the sort's result |
| StableSort.SortedStableUnique | kanban-board-project/lib/getTodosGroupedByColumn.ts:68 | two sorted lists with the same elements of every key, in the same order, are equal |
| StableSort.SortedThreeGroups | kanban-board-project/lib/getTodosGroupedByColumn.ts:72-76 | a sorted list with keys in 0..2 is its key-0, key-1 and key-2 elements in turn |
| StableSort.SortedThreeSingles | kanban-board-project/lib/getTodosGroupedByColumn.ts:72-76 | a sorted list whose three key groups are single elements is those three |
| Grouping.OrNull | kanban-board-project/lib/getTodosGroupedByColumn.ts:46-47 | `?? null` turns a missing value into null and keeps a present one |
| Grouping.Convert | kanban-board-project/lib/getTodosGroupedByColumn.ts:29-48 | id, createdAt, title, status, order and userId are copied; a present due date and priority are kept, and missing ones become null; the image is set exactly when its text is non-empty and parses to a non-null value, and is null otherwise |
| Grouping.Converted | kanban-board-project/lib/getTodosGroupedByColumn.ts:20-53 | one todo per document, and the todo at each position is the conversion of the document at that position |
| Grouping.Bucket | kanban-board-project/lib/getTodosGroupedByColumn.ts:20-53 | never more todos than documents; every todo in it has the bucket's status and is one of the converted documents (partition: BucketsPartition) |
| Grouping.GroupedBoard | kanban-board-project/lib/getTodosGroupedByColumn.ts:56-82 | the loaded board in closed form: todo, inprogress, done, each its bucket sorted by order (properties: GroupedBoardShape, GroupedBoardPartition, GroupedColumnsSorted) |
| Grouping.RankOf | kanban-board-project/lib/getTodosGroupedByColumn.ts:74 | `columnTypes.indexOf(c)` is the column's rank |
| Grouping.GetTodosGroupedByColumn | kanban-board-project/lib/getTodosGroupedByColumn.ts:5-87 | a failed fetch gives the empty board; otherwise the board is the three sorted buckets in the fixed order |
| Grouping.GroupByStatus | kanban-board-project/lib/getTodosGroupedByColumn.ts:20-53 | after the `reduce`, each status with documents has its column of converted todos in fetch order, and no other column exists |
| Grouping.GroupStep | kanban-board-project/lib/getTodosGroupedByColumn.ts:21-52 | one `reduce` step (open the status's column if missing, append the converted todo) keeps the board valid and takes every column to the bucket of the documents seen so far |
| Grouping.EnsureAllColumns | kanban-board-project/lib/getTodosGroupedByColumn.ts:56-64 | the loop adds the missing columns, so every id maps to its bucket |
| Grouping.SortColumnTodos | kanban-board-project/lib/getTodosGroupedByColumn.ts:67-69 | every column ends up with its bucket sorted by order |
| Grouping.SortedColumns | kanban-board-project/lib/getTodosGroupedByColumn.ts:67-69 | sorting each column's todos in place maps every key to its sorted bucket |
| Grouping.RankSorted | kanban-board-project/lib/getTodosGroupedByColumn.ts:72-76 | sorting a three-key map by rank yields todo, inprogress, done |
| Grouping.ColumnOrder | kanban-board-project/lib/getTodosGroupedByColumn.ts:72-76 | the column sort yields exactly the loaded board's entries |
| Grouping.GroupedBoardShape | kanban-board-project/lib/getTodosGroupedByColumn.ts:56-80 | the loaded board is valid and complete, has keys todo, inprogress, done, and each column holds its bucket sorted by order |
| Grouping.BucketsPartition | kanban-board-project/lib/getTodosGroupedByColumn.ts:20-53 | every document lands in exactly one bucket |
| Grouping.GroupedBoardPartition | kanban-board-project/lib/getTodosGroupedByColumn.ts:20-80 | the loaded board's todos are the converted documents, one per document |
| Grouping.GroupedColumnsSorted | kanban-board-project/lib/getTodosGroupedByColumn.ts:67-76 | each column is present, holds only its status, is sorted by order, and keeps equal orders in fetch order |
| DragEnd.Lookup | kanban-board-project/components/Board.tsx:36-37 | a drop id naming no column finds nothing; otherwise the result is the map's `get` of that column, so a column is found exactly when the id names a present key |
| DragEnd.HandleOnDragEnd | kanban-board-project/components/Board.tsx:22-78 | the result for a cancelled drop, a column drag, a no-op drag and a task move (same column or cross column), with the sync arguments; every drag keeps the board valid, its todos and its keys |
| DragEnd.MoveTaskWithin | kanban-board-project/components/Board.tsx:43-58 | a same-column move removes then reinserts the task, sets the column under its id, and asks to sync the moved task, that column and its new todos; a valid board stays valid with the same todos and keys |
| DragEnd.MoveTaskAcross | kanban-board-project/components/Board.tsx:43-76 | a cross-column move sets the shortened source and the extended destination, and asks to sync the moved task with the destination's new todos; a valid board with two distinct columns stays valid with the same todos and keys |
| DragEnd.ColumnDragEffect | kanban-board-project/components/Board.tsx:27-33 | a column drag permutes the entries, lands the moved entry at the clamped destination, keeps every `get`, and keeps the board valid with the same todos |
| DragEnd.SameColumnMoveEffect | kanban-board-project/components/Board.tsx:43-58 | a move inside a column keeps its todos, puts the moved one at the clamped destination with the others in order, and changes no other column or key |
| DragEnd.CrossColumnMoveEffect | kanban-board-project/components/Board.tsx:59-76 | the source loses exactly the moved todo; the destination gains it at the clamped position; the third column, the keys and the board's todos are unchanged |
| DragEnd.CrossMoveKeepsStaleStatus | kanban-board-project/components/Board.tsx:59-71 | the moved todo is put unchanged at the clamped destination position, its status still names the source column, so the destination holds a todo whose status is not the destination's |
| DragEnd.SameColumnSyncOrder | kanban-board-project/components/Board.tsx:58 | with distinct ids, the order written for the moved todo is its clamped drop position |
| DragEnd.CrossColumnSyncOrder | kanban-board-project/components/Board.tsx:74 | when the destination has no todo with that id, the order written is the clamped drop position |
| DragEnd.FirstMatchIs | kanban-board-project/store/BoardStore.ts:114 | `findIndex` by id returns the first position holding that id |
| DragEnd.SameColumnMoveKeepsSummary | kanban-board-project/components/Board.tsx:46-55 | a move inside one column leaves the board summary unchanged |
| BoardStore.ImageToDelete | kanban-board-project/store/BoardStore.ts:66-79 | no image exactly when the field is not truthy; otherwise a file exactly when the object or parsed text is a value, and it is that value; malformed exactly for text that is not JSON; a null image exactly for text that parses to `null` |
| BoardStore.FileField | kanban-board-project/store/BoardStore.ts:255-257 | an image field is written exactly when a file was uploaded, and it is that file's JSON text |
| BoardStore.HasId | kanban-board-project/store/BoardStore.ts:114 | the search predicate holds exactly for the todo with the given id |
| BoardStore.DeleteTaskCalls | kanban-board-project/store/BoardStore.ts:66-93 | the writes after the local removal: none for text that is not JSON; only the document for no image or a `null` image, whose field read throws inside the caught `try`; the file then the document otherwise (properties: DeleteTaskWrites) |
| BoardStore.DeleteTaskNullImage | kanban-board-project/store/BoardStore.ts:69-89 | image text that parses to `null` is a null image, and `deleteTask` then deletes only the document |
| BoardStore.AfterDelete | kanban-board-project/store/BoardStore.ts:57-63 | the board after the local removal, at the column's key (properties: DeleteEffect, DeleteMissingColumn) |
| BoardStore.NewTaskOrder | kanban-board-project/store/BoardStore.ts:149-153 | a new task's order: its column's length, or 0 without the column (properties: ConsecutiveOrders) |
| BoardStore.AfterAdd | kanban-board-project/store/BoardStore.ts:177-208 | the board after the local add: a new column with the task at the end when missing, else the column's tasks plus the new one sorted by order (properties: AddEffect, AddValid, AddThenDeleteRestores) |
| BoardStore.NewTodo | kanban-board-project/store/BoardStore.ts:180-189 | the task built locally: the created id, the clock, title, column and order, the file's JSON text when a file was uploaded, and no due date or priority |
| BoardStore.RetitleFirst | kanban-board-project/store/BoardStore.ts:267-276 | a column's tasks after the update, as many as before (properties: RetitleFirstEffect) |
| BoardStore.AfterUpdate | kanban-board-project/store/BoardStore.ts:262-284 | the board after the local update; unchanged without the column or a task with the id (properties: UpdateEffect, UpdateValid) |
| BoardStore.ClearedTodos | kanban-board-project/store/BoardStore.ts:310-314 | one column's tasks after `deleteImage`, as many as before (properties: ClearedTodosEffect) |
| BoardStore.ClearedColumns | kanban-board-project/store/BoardStore.ts:307-317 | every column after `deleteImage`, keys kept in place (properties: ClearedValid, ClearedEffect) |
| BoardStore.UpdateTodoInDB | kanban-board-project/store/BoardStore.ts:106-133 | the first write is the moved task's status and `findIndex` position; the batch follows only if that write succeeds, one write per task |
| BoardStore.OrdersArePositions | kanban-board-project/store/BoardStore.ts:119-131 | the batch writes every task its own index |
| BoardStore.MovedTaskOrder | kanban-board-project/store/BoardStore.ts:114 | the moved task's order is the first index holding its id, or -1 exactly when none does; with distinct ids the batch writes that same order |
| BoardStore.Retitled | kanban-board-project/store/BoardStore.ts:269-275 | the title and image are replaced, image null without a new file, and every other field is kept |
| BoardStore.BoardState.constructor | kanban-board-project/store/BoardStore.ts:39-51 | an empty, valid board; empty input; the todo column; empty search |
| BoardStore.BoardState.GetBoard | kanban-board-project/store/BoardStore.ts:43-46 | the board becomes the loaded board, or the empty board when loading fails, and is valid; nothing else changes |
| BoardStore.BoardState.SetBoardState | kanban-board-project/store/BoardStore.ts:55 | the board is replaced; nothing else changes |
| BoardStore.BoardState.SetSearchString | kanban-board-project/store/BoardStore.ts:53 | the search string is replaced; nothing else changes |
| BoardStore.BoardState.SetNewTaskInput | kanban-board-project/store/BoardStore.ts:100 | the form input is replaced; nothing else changes |
| BoardStore.BoardState.SetNewTaskType | kanban-board-project/store/BoardStore.ts:102 | the form column is replaced; nothing else changes |
| BoardStore.BoardState.DeleteTask | kanban-board-project/store/BoardStore.ts:57-98 | the task is removed locally; then the file (if any) and the document are deleted; image text that is not JSON skips both deletes; validity is kept |
| BoardStore.BoardState.AddTask | kanban-board-project/store/BoardStore.ts:135-213 | the upload, the create with the precomputed order, then the cleared input and the task added; nothing local changes when the user lookup or the create fails; validity is kept |
| BoardStore.BoardState.AddLocally | kanban-board-project/store/BoardStore.ts:177-208 | the board becomes the one with the new task in its column (a new column at the end when missing, else the column re-sorted by order); validity and the other fields are kept |
| BoardStore.BoardState.UpdateTask | kanban-board-project/store/BoardStore.ts:215-289 | the upload, the old image's delete, the document update, then the local update, each stopping point by case; validity is kept |
| BoardStore.BoardState.UpdateLocally | kanban-board-project/store/BoardStore.ts:262-284 | the board becomes the one with the first task holding the id retitled in its column; validity and the other fields are kept |
| BoardStore.BoardState.DeleteImage | kanban-board-project/store/BoardStore.ts:291-326 | the file delete, then the image clear, then every task with the id loses its image and the success alert shows; on failure, the failure alert shows with type success and the board is unchanged |
| BoardStore.BoardState.DeleteImageWithErrorAlert | kanban-board-project/store/BoardStore.ts:321-325 | as `DeleteImage`, but a failure is shown as an error alert |
| BoardStore.BoardState.DeleteImageReporting | kanban-board-project/store/BoardStore.ts:291-326 | the steps of `deleteImage` for a given failure alert type |
| BoardStore.ClearTaskImage | kanban-board-project/store/BoardStore.ts:307-317 | the nested loops produce every column with the id's tasks cleared |
| BoardStore.DeleteTaskWrites | kanban-board-project/store/BoardStore.ts:66-93 | the document is deleted unless the image text is malformed, as the last write; a file is deleted exactly when the image field denotes it |
| BoardStore.ConsecutiveOrders | kanban-board-project/store/BoardStore.ts:149-153 | a new task's order is its column's length (0 without the column), so two additions get consecutive orders |
| BoardStore.DeleteEffect | kanban-board-project/store/BoardStore.ts:58-63 | exactly the task at the index leaves its column, the others keep their order, other columns are unchanged, the board stays valid; an index past the end changes nothing |
| BoardStore.DeleteMissingColumn | kanban-board-project/store/BoardStore.ts:61 | deleting in a missing column changes nothing |
| BoardStore.AddValid | kanban-board-project/store/BoardStore.ts:177-208 | adding a task keeps the board valid |
| BoardStore.AddEffect | kanban-board-project/store/BoardStore.ts:191-201 | a missing column is created with just the new task, at the end; otherwise the column gets its old tasks plus the new one, sorted; other columns and the rest of the board are unchanged |
| BoardStore.AddThenDeleteRestores | kanban-board-project/store/BoardStore.ts:153-200 | in a sorted column with orders up to its length, the new task goes last and deleting it gives the board back |
| BoardStore.UpdateValid | kanban-board-project/store/BoardStore.ts:262-284 | updating keeps the board valid |
| BoardStore.RetitleFirstEffect | kanban-board-project/store/BoardStore.ts:267-276 | only the first task with the id changes, to its retitled form; every other task is unchanged; with no such task nothing changes |
| BoardStore.UpdateEffect | kanban-board-project/store/BoardStore.ts:262-284 | the column becomes its tasks with the first one holding the id retitled; every other column, the keys and the number of tasks are unchanged, and the board stays valid; with no such task or column nothing changes |
| BoardStore.ClearedTodosEffect | kanban-board-project/store/BoardStore.ts:310-314 | tasks with the id lose their image and nothing else; other tasks are unchanged; clearing twice is clearing once |
| BoardStore.ClearedValid | kanban-board-project/store/BoardStore.ts:307-317 | clearing images keeps the board valid and its keys |
| BoardStore.ClearedEffect | kanban-board-project/store/BoardStore.ts:307-317 | each key's column is its cleared column, the keys and their order are kept, and clearing is idempotent |
| Summary.FlattenEntries | kanban-board-project/lib/formatTodosForAI.ts:4-7 | with distinct keys the first fold keeps every entry in place and takes its todos |
| Summary.Flatten | kanban-board-project/lib/formatTodosForAI.ts:4-7 | the first fold's object has exactly the board's keys |
| Summary.CountEach | kanban-board-project/lib/formatTodosForAI.ts:10-16 | the second fold's object has exactly the first object's keys |
| Summary.FormatTodosForAI | kanban-board-project/lib/formatTodosForAI.ts:1-19 | the summary: the two folds in turn (properties: FormatEntries, FormatCounts, FormatTotal, FormatDependsOnLengths) |
| Summary.CountEachEntries | kanban-board-project/lib/formatTodosForAI.ts:10-15 | with distinct keys the second fold keeps every entry in place and takes its length |
| Summary.FormatEntries | kanban-board-project/lib/formatTodosForAI.ts:1-19 | the summary names each column once, in board order, with its number of todos |
| Summary.FormatCounts | kanban-board-project/lib/formatTodosForAI.ts:1-19 | the summary has a key exactly when the board does, with that column's length |
| Summary.TotalOfLengths | kanban-board-project/lib/formatTodosForAI.ts:12 | counts equal to the column lengths add up to the board's number of todos |
| Summary.FormatTotal | kanban-board-project/lib/formatTodosForAI.ts:1-19 | the counts add up to the board's number of todos |
| Summary.FormatDependsOnLengths | kanban-board-project/lib/formatTodosForAI.ts:10-15 | boards with the same keys in order and the same column lengths get the same summary |
| AlertStore.AlertState.constructor | kanban-board-project/store/AlertStore.ts:14-16 | the alert starts hidden, with no message and type success |
| AlertStore.AlertState.ShowAlert | kanban-board-project/store/AlertStore.ts:17 | shows the message with the given type, success by default |
| AlertStore.AlertState.HideAlert | kanban-board-project/store/AlertStore.ts:18 | back to the initial hidden alert from any state |
| EditModalStore.EditModalState.constructor | kanban-board-project/store/EditModalStore.ts:15-17 | the dialog starts closed, with no task and no column |
| EditModalStore.EditModalState.OpenEditModal | kanban-board-project/store/EditModalStore.ts:18 | opens the dialog and keeps the task and column |
| EditModalStore.EditModalState.CloseEditModal | kanban-board-project/store/EditModalStore.ts:19-20 | back to the closed dialog from any state |
| EditModalStore.EditModalState.SetTaskToEdit | kanban-board-project/store/EditModalStore.ts:21-22 | records the task and column and leaves the open flag as it was |

## Left out

- The database, the file store and the account service are not modelled as
  I/O. Their answers are parameters and the issued writes are results:
  - `UploadFile` marks an upload, and `uploadImage` itself is not part of this
    model;
  - the batch of `updateTodoInDB` is one sequence, without `Promise.all`'s
    concurrency or a failure partway through.
- The interleaving of asynchronous operations is not modelled. Each store
  operation runs start to finish on the board it read first.
- The timestamp `new Date().toISOString()` is a parameter, and `ID.unique()`
  is the document id the create returns.
- `JSON.parse` is abstracted as `ImageCodec.parse`, with three outcomes. A
  parse that gives a value other than `null` is `JsonValue` of the `bucketId`
  and `fileId` the code reads from it. A number, a string or an object
  without those fields reads them as `undefined`, and the model does not tell
  that apart from an image with string fields. So `deleteTask` and
  `updateTask` issue a `DeleteFile` for such text, as the source does with
  `undefined` arguments. The loader stores such a value as the todo's image.
- Statuses outside the three column ids are not modelled. A document's status
  is a `TypedColumn`.
- `order` is an unbounded integer. The JavaScript number, its floating-point
  subtraction in the comparator, and `NaN` are not modelled.
- Sharing of mutable objects is not modelled:
  - `new Map(...)` copies entries but shares column objects;
  - the following also change any older board that refers to those objects:
    - `deleteTask`'s `splice`;
    - `addTask`'s `push` and `sort`;
    - `updateTask`'s `column.todos[taskIndex] = …`;
    - `deleteImage`'s `task.image = undefined`;
  - the edit dialog's `taskToEdit` shares the task record.
  The model treats each board as a value and states only the new board.
- The store's `image` field, `setImage`, the `File` object and the `imageUrl`
  field of a todo are left out: nothing in this core reads them.
- `console.error` logging is left out.
- The React components are not part of this model: rendering, the modals, the
  search filter, login and the layout. The suggestion fetch and the API route
  are not part of it either.
- BoardStore.UpdateTodoInDB: the default `newTodos = []` is not a separate
  entry point; a caller passes the empty sequence.
- BoardStore.BoardState.DeleteTask: `taskIndex` is a `nat`, so a negative
  splice index, which counts from the end in JavaScript, is not modelled.
- DragEnd.HandleOnDragEnd: requires that the dragged element exists at its
  source index (`SourceInRange`), as the drag-and-drop library guarantees. A
  splice past the end is not modelled for the source.

## Findings

| source | as written | input that shows it | evidently intended | confidence | as-written member | corrected member |
|---|---|---|---|---|---|---|
| kanban-board-project/store/BoardStore.ts:323-324 | the failure branch calls `showAlert('Failed to delete image.')` without a type, so the alert's type defaults to success | any `deleteImage` whose file delete fails (`deleteOk` false) | the error alert the comment above the call announces, type `error` | medium, not executed | BoardStore.BoardState.DeleteImage | BoardStore.BoardState.DeleteImageWithErrorAlert |
