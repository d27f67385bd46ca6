/**
 * The task slice of `reducer/taskSlice.ts`: the two plain reducers
 * (`editTask`, `selectTask`) and the fulfilled cases of the task, user and
 * category requests. The requests themselves are left out; each case takes the
 * value the request resolved with.
 */
module TaskReducer {
  import opened Wrappers
  import opened Sorting
  import opened Records

  /**
   * `TASK_STATE`. The category list is optional: the create-category case
   * tests it for presence before appending to it.
   */
  datatype TaskState = TaskState(
    tasks: seq<ReadTask>,
    editedTask: PostTask,
    selectedTask: ReadTask,
    users: seq<Member>,
    category: Option<seq<Category>>)

  /** `initialState`: one placeholder in each list, the blank records as edited and selected task. */
  const Initial := TaskState([BlankReadTask], BlankPostTask, BlankReadTask, [Member(0, "")], Some([Category(0, "")]))

  /** `editTask`: the payload becomes the edited task. */
  function EditTask(s: TaskState, payload: PostTask): (r: TaskState)
    ensures r.editedTask == payload
    ensures r.tasks == s.tasks && r.selectedTask == s.selectedTask
    ensures r.users == s.users && r.category == s.category
  {
    s.(editedTask := payload)
  }

  /** `selectTask`: the payload becomes the selected task. */
  function SelectTask(s: TaskState, payload: ReadTask): (r: TaskState)
    ensures r.selectedTask == payload
    ensures r.tasks == s.tasks && r.editedTask == s.editedTask
    ensures r.users == s.users && r.category == s.category
  {
    s.(selectedTask := payload)
  }

  /** The get-tasks case: the server's list replaces the tasks. */
  function GetTasksFulfilled(s: TaskState, payload: seq<ReadTask>): (r: TaskState)
    ensures r.tasks == payload
    ensures r.editedTask == s.editedTask && r.selectedTask == s.selectedTask
    ensures r.users == s.users && r.category == s.category
  {
    s.(tasks := payload)
  }

  /** The get-users case: the server's list replaces the users. */
  function GetUsersFulfilled(s: TaskState, payload: seq<Member>): (r: TaskState)
    ensures r.users == payload
    ensures r.tasks == s.tasks && r.editedTask == s.editedTask
    ensures r.selectedTask == s.selectedTask && r.category == s.category
  {
    s.(users := payload)
  }

  /** The get-category case: the server's value replaces the category list. */
  function GetCategoryFulfilled(s: TaskState, payload: Option<seq<Category>>): (r: TaskState)
    ensures r.category == payload
    ensures r.tasks == s.tasks && r.editedTask == s.editedTask
    ensures r.selectedTask == s.selectedTask && r.users == s.users
  {
    s.(category := payload)
  }

  /** The collation order on categories: `a.Category.localeCompare(b.Category) <= 0`, with `collate` standing for the comparison. */
  function ByName(collate: (string, string) -> bool): (r: (Category, Category) -> bool)
    ensures forall a, b :: r(a, b) == collate(a.category, b.category)
  {
    (a: Category, b: Category) => collate(a.category, b.category)
  }

  /** A total preorder on names orders categories totally by name. */
  lemma ByNameIsTotal(collate: (string, string) -> bool)
    requires TotalPreorder(collate)
    ensures TotalPreorder(ByName(collate))
  {
    var le := ByName(collate);
    forall x, y, z | le(x, y) && le(y, z)
      ensures le(x, z)
    {
      assert collate(x.category, y.category) && collate(y.category, z.category);
    }
  }

  /**
   * The create-category case: the new category is appended to the list (or
   * starts a list when there is none) and the result is sorted by name.
   */
  function CreateCategoryFulfilled(s: TaskState, payload: Category, collate: (string, string) -> bool): (r: TaskState)
    requires TotalPreorder(collate)
    ensures r.category.Some?
    ensures SortedBy(r.category.value, ByName(collate))
    ensures s.category.Some? ==> multiset(r.category.value) == multiset(s.category.value) + multiset{payload}
    ensures s.category.None? ==> r.category.value == [payload]
    ensures r.tasks == s.tasks && r.editedTask == s.editedTask
    ensures r.selectedTask == s.selectedTask && r.users == s.users
  {
    ByNameIsTotal(collate);
    var updated := match s.category
      case Some(list) => list + [payload]
      case None => [payload];
    s.(category := Some(Sort(updated, ByName(collate))))
  }

  /** The create-task case: the created task goes first and the edited task is reset. */
  function CreateTaskFulfilled(s: TaskState, payload: ReadTask): (r: TaskState)
    ensures |r.tasks| == |s.tasks| + 1
    ensures r.tasks[0] == payload && r.tasks[1..] == s.tasks
    ensures r.editedTask == BlankPostTask
    ensures r.selectedTask == s.selectedTask && r.users == s.users && r.category == s.category
  {
    s.(tasks := [payload] + s.tasks, editedTask := BlankPostTask)
  }

  /** The update-task case: entries with the payload's id become the payload; edited and selected task are reset. */
  function UpdateTaskFulfilled(s: TaskState, payload: ReadTask): (r: TaskState)
    ensures |r.tasks| == |s.tasks|
    ensures forall i :: 0 <= i < |r.tasks| ==> r.tasks[i] == (if s.tasks[i].id == payload.id then payload else s.tasks[i])
    ensures r.editedTask == BlankPostTask && r.selectedTask == BlankReadTask
    ensures r.users == s.users && r.category == s.category
  {
    s.(tasks := ReplaceById(s.tasks, payload.id, payload), editedTask := BlankPostTask, selectedTask := BlankReadTask)
  }

  /** The delete-task case: entries with the deleted id are dropped; edited and selected task are reset. */
  function DeleteTaskFulfilled(s: TaskState, id: int): (r: TaskState)
    ensures forall t :: t in r.tasks <==> t in s.tasks && t.id != id
    ensures r.editedTask == BlankPostTask && r.selectedTask == BlankReadTask
    ensures r.users == s.users && r.category == s.category
  {
    s.(tasks := RemoveById(s.tasks, id), editedTask := BlankPostTask, selectedTask := BlankReadTask)
  }

  /** Editing and selecting touch different fields, so their order does not matter. */
  lemma EditSelectCommute(s: TaskState, p: PostTask, q: ReadTask)
    ensures EditTask(SelectTask(s, q), p) == SelectTask(EditTask(s, p), q)
  {
  }

  /** The last edit wins. */
  lemma EditOverwrites(s: TaskState, p: PostTask, p': PostTask)
    ensures EditTask(EditTask(s, p), p') == EditTask(s, p')
  {
  }

  /** An update whose id no task carries leaves the task list as it was. */
  lemma UpdateAbsentId(s: TaskState, payload: ReadTask)
    requires !HasId(s.tasks, payload.id)
    ensures UpdateTaskFulfilled(s, payload).tasks == s.tasks
  {
    ReplaceAbsentId(s.tasks, payload.id, payload);
  }

  /** Deleting twice is deleting once. */
  lemma DeleteIdempotent(s: TaskState, id: int)
    ensures DeleteTaskFulfilled(DeleteTaskFulfilled(s, id), id) == DeleteTaskFulfilled(s, id)
  {
    RemoveIdempotent(s.tasks, id);
  }

  /** The kept tasks stay in order: deleting from a list split in two deletes from each part. */
  lemma DeleteKeepsOrder(s: TaskState, front: seq<ReadTask>, back: seq<ReadTask>, id: int)
    requires s.tasks == front + back
    ensures DeleteTaskFulfilled(s, id).tasks == RemoveById(front, id) + RemoveById(back, id)
  {
    RemoveAppend(front, back, id);
  }

  /** Deleting a task just created removes it and whatever else carried its id, and nothing more. */
  lemma CreateThenDelete(s: TaskState, payload: ReadTask)
    ensures DeleteTaskFulfilled(CreateTaskFulfilled(s, payload), payload.id).tasks == RemoveById(s.tasks, payload.id)
  {
    RemoveAppend([payload], s.tasks, payload.id);
  }

  /** When the new category already sorts last, the list becomes the old one with it appended. */
  lemma CreateCategoryOnSorted(s: TaskState, payload: Category, collate: (string, string) -> bool)
    requires TotalPreorder(collate)
    requires s.category.Some?
    requires SortedBy(s.category.value + [payload], ByName(collate))
    ensures CreateCategoryFulfilled(s, payload, collate).category == Some(s.category.value + [payload])
  {
    ByNameIsTotal(collate);
    SortSorted(s.category.value + [payload], ByName(collate));
  }
}
