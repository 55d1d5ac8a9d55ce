/** The edit dialog's state (store/EditModalStore.ts): whether it is open, and the task and column it edits. */
module EditModalStore {
  import opened Options
  import opened Typings

  class EditModalState {
    var isOpen: bool
    var taskToEdit: Option<Todo>
    var columnId: Option<TypedColumn>

    /** The closed dialog: not open, no task, no column. */
    predicate IsClosed()
      reads this
    {
      !isOpen && taskToEdit.None? && columnId.None?
    }

    constructor()
      ensures IsClosed()
    {
      isOpen, taskToEdit, columnId := false, None, None;
    }

    /** `openEditModal()`: opens the dialog and keeps the task and column. */
    method OpenEditModal()
      modifies this
      ensures isOpen
      ensures taskToEdit == old(taskToEdit) && columnId == old(columnId)
    {
      isOpen := true;
    }

    /** `closeEditModal()`: back to the closed dialog from any state, so closing twice is closing once. */
    method CloseEditModal()
      modifies this
      ensures IsClosed()
    {
      isOpen, taskToEdit, columnId := false, None, None;
    }

    /** `setTaskToEdit(task, columnId)`: records both and leaves the dialog open or closed as it was. */
    method SetTaskToEdit(task: Todo, columnId: TypedColumn)
      modifies this
      ensures taskToEdit == Some(task) && this.columnId == Some(columnId)
      ensures isOpen == old(isOpen)
    {
      taskToEdit, this.columnId := Some(task), Some(columnId);
    }
  }
}
