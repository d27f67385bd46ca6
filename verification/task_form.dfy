/**
 * The task editor (`components/task/TaskForm.tsx`): the save and category-save
 * gates, the handlers that each change one field of the edited task, the
 * option lists of the two selects, the create-or-update choice of the save
 * button, cancel, and the new-category dialog. The requests are left out; a
 * click yields the request it would send.
 */
module TaskForm {
  import opened Wrappers
  import opened Records
  import TaskReducer
  import TaskList

  /** The two free-text fields handled by `handleInputChange`. */
  datatype TextField = TaskText | DescriptionText

  /** One entry of a select: the value it stands for and the caption shown. */
  datatype Choice = Choice(id: int, caption: string)

  /** The request a save sends. */
  datatype SaveRequest = UpdateTask(task: PostTask) | CreateTask(task: PostTask)

  /** The new-category dialog: whether it is open and what was typed in it. */
  datatype CategoryDialog = CategoryDialog(open: bool, inputText: string)

  /** The dialog after its save button, and the category name sent, if any. */
  datatype CategorySaved = CategorySaved(dialog: CategoryDialog, request: Option<string>)

  /** `isDisabled`: save is off while the task or description is empty or no responsible or category is chosen. */
  function IsDisabled(t: PostTask): (r: bool)
    ensures r <==> t.task == [] || t.description == [] || t.responsible == 0 || t.category == 0
  {
    |t.task| == 0 || |t.description| == 0 || t.responsible == 0 || t.category == 0
  }

  /** `isCatDisabled`: category save is off while nothing is typed. */
  function IsCatDisabled(d: CategoryDialog): (r: bool)
    ensures r <==> d.inputText == []
  {
    |d.inputText| == 0
  }

  /** `handleInputChange` on the task or description field. */
  function ChangeText(s: TaskReducer.TaskState, field: TextField, value: string): (r: TaskReducer.TaskState)
    ensures field == TaskText ==> r.editedTask == s.editedTask.(task := value)
    ensures field == DescriptionText ==> r.editedTask == s.editedTask.(description := value)
    ensures r.tasks == s.tasks && r.selectedTask == s.selectedTask
    ensures r.users == s.users && r.category == s.category
  {
    match field
    case TaskText => TaskReducer.EditTask(s, s.editedTask.(task := value))
    case DescriptionText => TaskReducer.EditTask(s, s.editedTask.(description := value))
  }

  /** `handleInputChange` on the estimate field, once the input is converted to a number. */
  function ChangeEstimate(s: TaskReducer.TaskState, value: int): (r: TaskReducer.TaskState)
    ensures r.editedTask == s.editedTask.(estimate := value)
    ensures r.tasks == s.tasks && r.selectedTask == s.selectedTask
    ensures r.users == s.users && r.category == s.category
  {
    TaskReducer.EditTask(s, s.editedTask.(estimate := value))
  }

  /** `handleSelectRespChange`: only the responsible user changes. */
  function SelectResponsible(s: TaskReducer.TaskState, id: int): (r: TaskReducer.TaskState)
    ensures r.editedTask == s.editedTask.(responsible := id)
    ensures r.tasks == s.tasks && r.selectedTask == s.selectedTask
    ensures r.users == s.users && r.category == s.category
  {
    TaskReducer.EditTask(s, s.editedTask.(responsible := id))
  }

  /** `handleSelectStatusChange`: only the status changes. */
  function SelectStatus(s: TaskReducer.TaskState, status: string): (r: TaskReducer.TaskState)
    ensures r.editedTask == s.editedTask.(status := status)
    ensures r.tasks == s.tasks && r.selectedTask == s.selectedTask
    ensures r.users == s.users && r.category == s.category
  {
    TaskReducer.EditTask(s, s.editedTask.(status := status))
  }

  /** `handleSelectCatChange`: only the category changes. */
  function SelectCategory(s: TaskReducer.TaskState, id: int): (r: TaskReducer.TaskState)
    ensures r.editedTask == s.editedTask.(category := id)
    ensures r.tasks == s.tasks && r.selectedTask == s.selectedTask
    ensures r.users == s.users && r.category == s.category
  {
    TaskReducer.EditTask(s, s.editedTask.(category := id))
  }

  /** `userOptions`: a blank entry with id 0, then every user in order. */
  function UserChoices(users: seq<Member>): (r: seq<Choice>)
    ensures |r| == |users| + 1
    ensures r[0] == Choice(0, "")
    ensures forall i :: 0 <= i < |users| ==> r[i + 1] == Choice(users[i].id, users[i].name)
  {
    [Choice(0, "")] + seq(|users|, i requires 0 <= i < |users| => Choice(users[i].id, users[i].name))
  }

  /** `categoryOptions`: a blank entry with id 0, then every category in order. */
  function CategoryChoices(cats: seq<Category>): (r: seq<Choice>)
    ensures |r| == |cats| + 1
    ensures r[0] == Choice(0, "")
    ensures forall i :: 0 <= i < |cats| ==> r[i + 1] == Choice(cats[i].id, cats[i].category)
  {
    [Choice(0, "")] + seq(|cats|, i requires 0 <= i < |cats| => Choice(cats[i].id, cats[i].category))
  }

  /** The save button: nothing while disabled, otherwise update for a task that has an id and create for one that does not. */
  function Save(t: PostTask): (r: Option<SaveRequest>)
    ensures r.None? <==> IsDisabled(t)
    ensures r.Some? ==> r.value.task == t
    ensures r.Some? ==> (r.value.UpdateTask? <==> t.id != 0)
  {
    if IsDisabled(t) then None
    else if t.id != 0 then Some(UpdateTask(t))
    else Some(CreateTask(t))
  }

  /** Cancel: the edited and the selected task go back to the blank records. */
  function Cancel(s: TaskReducer.TaskState): (r: TaskReducer.TaskState)
    ensures r.editedTask == BlankPostTask && r.selectedTask == BlankReadTask
    ensures r.tasks == s.tasks && r.users == s.users && r.category == s.category
  {
    TaskReducer.SelectTask(TaskReducer.EditTask(s, BlankPostTask), BlankReadTask)
  }

  /** `handleOpen`. */
  function OpenDialog(d: CategoryDialog): (r: CategoryDialog)
    ensures r.open && r.inputText == d.inputText
  {
    d.(open := true)
  }

  /** `handleInputTextChange`. */
  function ChangeCategoryText(d: CategoryDialog, value: string): (r: CategoryDialog)
    ensures r.inputText == value && r.open == d.open
  {
    d.(inputText := value)
  }

  /** The dialog's save button: while enabled it sends the typed name and closes; the typed text is kept. */
  function SaveCategory(d: CategoryDialog): (r: CategorySaved)
    ensures r.request.None? <==> d.inputText == []
    ensures r.request.Some? ==> r.request.value == d.inputText && !r.dialog.open
    ensures r.dialog.inputText == d.inputText
    ensures r.request.None? ==> r.dialog == d
  {
    if IsCatDisabled(d) then CategorySaved(d, None)
    else CategorySaved(d.(open := false), Some(d.inputText))
  }

  /** Whatever the user picks in a select, the entry shown for that id is in the list, after the blank one. */
  lemma ChosenUserListed(users: seq<Member>, i: nat)
    requires i < |users|
    ensures Choice(users[i].id, users[i].name) in UserChoices(users)[1..]
  {
    assert UserChoices(users)[1..][i] == Choice(users[i].id, users[i].name);
  }

  /** Leaving the responsible select on the blank entry keeps save disabled. */
  lemma BlankChoiceDisables(s: TaskReducer.TaskState, users: seq<Member>)
    ensures IsDisabled(SelectResponsible(s, UserChoices(users)[0].id).editedTask)
  {
  }

  /** The select handlers touch different fields, so the order of two selections does not matter. */
  lemma SelectionsCommute(s: TaskReducer.TaskState, resp: int, cat: int, status: string)
    ensures SelectResponsible(SelectCategory(s, cat), resp) == SelectCategory(SelectResponsible(s, resp), cat)
    ensures SelectStatus(SelectCategory(s, cat), status) == SelectCategory(SelectStatus(s, status), cat)
  {
  }

  /**
   * Starting from "Add new" in the task table and filling in task,
   * description and a category, save sends a create request carrying the
   * login user as responsible.
   */
  lemma AddNewSavesAsCreate(s: TaskReducer.TaskState, loginId: int, task: string, description: string, cat: int)
    requires loginId != 0 && task != [] && description != [] && cat != 0
    ensures var filled := SelectCategory(ChangeText(ChangeText(TaskList.AddNew(s, loginId), TaskText, task), DescriptionText, description), cat);
      Save(filled.editedTask) == Some(CreateTask(PostTask(0, task, description, "", loginId, 0, cat, "1")))
  {
  }

  /** The edit button of an owned, filled-in row with an id leads to an update of that row's editable fields. */
  lemma EditRowSavesAsUpdate(s: TaskReducer.TaskState, row: ReadTask, loginId: int)
    requires row.owner == loginId && row.id != 0
    requires row.task != [] && row.description != [] && row.responsible != 0 && row.category != 0
    ensures Save(TaskList.EditClick(s, row, loginId).editedTask) == Some(UpdateTask(TaskList.ToPost(row)))
  {
  }

  /** After cancel, and after a created task comes back, save is disabled again. */
  lemma SaveDisabledAfterReset(s: TaskReducer.TaskState, created: ReadTask)
    ensures Save(Cancel(s).editedTask) == None
    ensures Save(TaskReducer.CreateTaskFulfilled(s, created).editedTask) == None
  {
  }

  /** Saving a category twice in a row sends the same name twice: the dialog keeps its text. */
  lemma CategoryTextKept(d: CategoryDialog)
    requires d.inputText != []
    ensures SaveCategory(OpenDialog(SaveCategory(d).dialog)).request == Some(d.inputText)
  {
  }
}
