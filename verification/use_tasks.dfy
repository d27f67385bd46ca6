/**
 * The local task list of the `useTasks` hook: its initial state and the list
 * updates `createTask`, `updateTask` and `deleteTask` make once their request
 * has answered. The requests are left out; each update takes the answer.
 */
module UseTasks {
  import opened Wrappers
  import opened Records
  import TaskReducer

  /** The hook's state; `null` selections are `None`. */
  datatype HookState = HookState(
    tasks: seq<ReadTask>,
    selectedTask: Option<ReadTask>,
    editedTask: Option<PostTask>,
    users: seq<Member>,
    category: seq<Category>)

  /** The state before any request answers: empty lists and nothing selected or edited. */
  const Initial := HookState([], None, None, [], [])

  /** `createTask`: the created task goes in front and the edit is cleared. */
  function CreateTask(s: HookState, created: ReadTask): (r: HookState)
    ensures r.tasks == [created] + s.tasks
    ensures r.editedTask == None
    ensures r.selectedTask == s.selectedTask && r.users == s.users && r.category == s.category
  {
    s.(tasks := [created] + s.tasks, editedTask := None)
  }

  /**
   * `updateTask`: entries carrying the submitted task's id become the task the
   * server returned; edit and selection are cleared.
   */
  function UpdateTask(s: HookState, submitted: PostTask, returned: ReadTask): (r: HookState)
    ensures |r.tasks| == |s.tasks|
    ensures forall i :: 0 <= i < |r.tasks| && s.tasks[i].id == submitted.id ==> r.tasks[i] == returned
    ensures forall i :: 0 <= i < |r.tasks| && s.tasks[i].id != submitted.id ==> r.tasks[i] == s.tasks[i]
    ensures r.editedTask == None && r.selectedTask == None
    ensures r.users == s.users && r.category == s.category
  {
    s.(tasks := ReplaceById(s.tasks, submitted.id, returned), editedTask := None, selectedTask := None)
  }

  /** `deleteTask`: entries carrying the id are dropped; edit and selection are cleared. */
  function DeleteTask(s: HookState, id: int): (r: HookState)
    ensures forall t :: t in r.tasks <==> t in s.tasks && t.id != id
    ensures r.editedTask == None && r.selectedTask == None
    ensures r.users == s.users && r.category == s.category
  {
    s.(tasks := RemoveById(s.tasks, id), editedTask := None, selectedTask := None)
  }

  /**
   * When the server answers with the id that was submitted, the hook's update
   * patches the list exactly as the reducer's update case does.
   */
  lemma UpdateAgreesWithReducer(s: HookState, t: TaskReducer.TaskState, submitted: PostTask, returned: ReadTask)
    requires t.tasks == s.tasks
    requires returned.id == submitted.id
    ensures UpdateTask(s, submitted, returned).tasks == TaskReducer.UpdateTaskFulfilled(t, returned).tasks
  {
  }

  /**
   * The hook matches on the submitted id, not on the returned one: an answer
   * carrying another id still replaces the submitted id's entries, and a
   * second update with the same id then finds none of them.
   */
  lemma UpdateMatchesSubmittedId(s: HookState, submitted: PostTask, returned: ReadTask)
    requires returned.id != submitted.id
    ensures !HasId(UpdateTask(s, submitted, returned).tasks, submitted.id)
    ensures UpdateTask(UpdateTask(s, submitted, returned), submitted, returned).tasks == UpdateTask(s, submitted, returned).tasks
  {
    var r := UpdateTask(s, submitted, returned);
    ReplaceAbsentId(r.tasks, submitted.id, returned);
  }

  /** Deleting after creating takes out the created task and everything else with its id, and keeps the rest in order. */
  lemma DeleteAfterCreate(s: HookState, created: ReadTask)
    ensures DeleteTask(CreateTask(s, created), created.id).tasks == RemoveById(s.tasks, created.id)
  {
    RemoveAppend([created], s.tasks, created.id);
  }

  /** Deleting twice is deleting once. */
  lemma DeleteIdempotent(s: HookState, id: int)
    ensures DeleteTask(DeleteTask(s, id), id) == DeleteTask(s, id)
  {
    RemoveIdempotent(s.tasks, id);
  }
}
