/**
 * The task slice of `slices/taskSlice.ts`. Its plain reducers and its get and
 * create-category cases are the same code as in `reducer/taskSlice.ts` and are
 * taken from `TaskReducer`; its create, update and delete cases differ: they
 * store the task list the server sends back instead of patching the local one.
 */
module TaskSlice {
  import opened Records
  import opened TaskReducer

  /** The create-task case: the server's list replaces the tasks and the edited task is reset. */
  function CreateTaskFulfilled(s: TaskState, payload: seq<ReadTask>): (r: TaskState)
    ensures r.tasks == payload && r.editedTask == BlankPostTask
    ensures r.selectedTask == s.selectedTask && r.users == s.users && r.category == s.category
  {
    s.(tasks := payload, editedTask := BlankPostTask)
  }

  /** The update-task case: the server's list replaces the tasks; edited and selected task are reset. */
  function UpdateTaskFulfilled(s: TaskState, payload: seq<ReadTask>): (r: TaskState)
    ensures r.tasks == payload && r.editedTask == BlankPostTask && r.selectedTask == BlankReadTask
    ensures r.users == s.users && r.category == s.category
  {
    s.(tasks := payload, editedTask := BlankPostTask, selectedTask := BlankReadTask)
  }

  /** The delete-task case: as the update case, with the list the delete request returns. */
  function DeleteTaskFulfilled(s: TaskState, payload: seq<ReadTask>): (r: TaskState)
    ensures r.tasks == payload && r.editedTask == BlankPostTask && r.selectedTask == BlankReadTask
    ensures r.users == s.users && r.category == s.category
  {
    s.(tasks := payload, editedTask := BlankPostTask, selectedTask := BlankReadTask)
  }

  /** Create is a get-tasks followed by resetting the edited task. */
  lemma CreateIsGetThenReset(s: TaskState, payload: seq<ReadTask>)
    ensures CreateTaskFulfilled(s, payload) == EditTask(GetTasksFulfilled(s, payload), BlankPostTask)
  {
  }

  /** Update and delete are a get-tasks followed by resetting both the edited and the selected task. */
  lemma UpdateIsGetThenReset(s: TaskState, payload: seq<ReadTask>)
    ensures UpdateTaskFulfilled(s, payload) == SelectTask(EditTask(GetTasksFulfilled(s, payload), BlankPostTask), BlankReadTask)
    ensures DeleteTaskFulfilled(s, payload) == UpdateTaskFulfilled(s, payload)
  {
  }

  /**
   * The two slices agree whenever the server's list is the local list patched
   * the way the other slice patches it.
   */
  lemma AgreesWithLocalPatch(s: TaskState, t: ReadTask, id: int)
    ensures CreateTaskFulfilled(s, [t] + s.tasks) == TaskReducer.CreateTaskFulfilled(s, t)
    ensures UpdateTaskFulfilled(s, ReplaceById(s.tasks, t.id, t)) == TaskReducer.UpdateTaskFulfilled(s, t)
    ensures DeleteTaskFulfilled(s, RemoveById(s.tasks, id)) == TaskReducer.DeleteTaskFulfilled(s, id)
  {
  }
}
