/**
 * The task table (`components/task/TaskList.tsx`): the sort state behind the
 * clickable column headers, the reset of its rows when the task list changes,
 * and the row actions (select on click, owner-gated delete and edit, add new).
 */
module TaskList {
  import opened Wrappers
  import opened Sorting
  import Records
  import TaskReducer

  datatype Order = Asc | Desc

  /** The keys of a task row (`keyof READ_TASK`), one per field. */
  datatype Key =
    | Id | Task | Description | StartDate | Owner | OwnerUsername
    | Responsible | ResponsibleUsername | Estimate | Category | CategoryItem
    | Status | StatusName | CreatedAt | UpdatedAt

  /** `SORT_STATE`. The empty `activeKey` of the initial state is `None`. */
  datatype SortState = SortState(rows: seq<Records.ReadTask>, order: Order, activeKey: Option<Key>)

  /** A field's value: the numeric fields and the text fields of a row. */
  datatype Cell = Num(n: int) | Text(t: string)

  /** Whether a key names one of the numeric fields. */
  predicate IsNumeric(key: Key) {
    key in {Id, Owner, Responsible, Estimate, Category}
  }

  /** `row[key]`. */
  function CellOf(row: Records.ReadTask, key: Key): (c: Cell)
    ensures c.Num? <==> IsNumeric(key)
  {
    match key
    case Id => Num(row.id)
    case Task => Text(row.task)
    case Description => Text(row.description)
    case StartDate => Text(row.startDate)
    case Owner => Num(row.owner)
    case OwnerUsername => Text(row.ownerUsername)
    case Responsible => Num(row.responsible)
    case ResponsibleUsername => Text(row.responsibleUsername)
    case Estimate => Num(row.estimate)
    case Category => Num(row.category)
    case CategoryItem => Text(row.categoryItem)
    case Status => Text(row.status)
    case StatusName => Text(row.statusName)
    case CreatedAt => Text(row.createdAt)
    case UpdatedAt => Text(row.updatedAt)
  }

  /** `a < b` on strings: the first differing character decides, and a proper prefix comes first. */
  predicate TextLess(a: string, b: string)
    decreases |a|
  {
    if a == [] then b != []
    else if b == [] then false
    else if a[0] != b[0] then a[0] < b[0]
    else TextLess(a[1..], b[1..])
  }

  /** `a < b` on two values of the same field. */
  predicate CellLess(a: Cell, b: Cell) {
    match (a, b)
    case (Num(x), Num(y)) => x < y
    case (Text(x), Text(y)) => TextLess(x, y)
    case _ => false
  }

  /** No string sorts before itself. */
  lemma {:induction false} TextLessIrreflexive(a: string)
    ensures !TextLess(a, a)
  {
    if a != [] {
      TextLessIrreflexive(a[1..]);
    }
  }

  /** String order is transitive. */
  lemma {:induction false} TextLessTransitive(a: string, b: string, c: string)
    requires TextLess(a, b) && TextLess(b, c)
    ensures TextLess(a, c)
  {
    if a != [] && a[0] == b[0] && b[0] == c[0] {
      TextLessTransitive(a[1..], b[1..], c[1..]);
    }
  }

  /** Two different strings are ordered one way or the other. */
  lemma {:induction false} TextLessTotal(a: string, b: string)
    ensures a == b || TextLess(a, b) || TextLess(b, a)
  {
    if a != [] && b != [] && a[0] == b[0] {
      TextLessTotal(a[1..], b[1..]);
      assert a == [a[0]] + a[1..] && b == [b[0]] + b[1..];
    }
  }

  /** On the values of one field, `<` is a strict total order. */
  lemma CellLessOrder(x: Cell, y: Cell, z: Cell)
    requires x.Num? == y.Num? && y.Num? == z.Num?
    ensures !CellLess(x, x)
    ensures CellLess(x, y) && CellLess(y, z) ==> CellLess(x, z)
    ensures x == y || CellLess(x, y) || CellLess(y, x)
  {
    if x.Text? {
      TextLessIrreflexive(x.t);
      if CellLess(x, y) && CellLess(y, z) {
        TextLessTransitive(x.t, y.t, z.t);
      }
      TextLessTotal(x.t, y.t);
    }
  }

  /**
   * "a may stay before b" under the comparator of the click handler: in `Asc`
   * it answers 1 exactly when `a[key] > b[key]`, in `Desc` exactly when
   * `a[key] < b[key]`.
   */
  function Precedes(key: Key, order: Order): (le: (Records.ReadTask, Records.ReadTask) -> bool)
    ensures forall a, b :: le(a, b) == (if order == Asc then !CellLess(CellOf(b, key), CellOf(a, key)) else !CellLess(CellOf(a, key), CellOf(b, key)))
  {
    (a: Records.ReadTask, b: Records.ReadTask) =>
      if order == Asc then !CellLess(CellOf(b, key), CellOf(a, key)) else !CellLess(CellOf(a, key), CellOf(b, key))
  }

  /** The comparator orders rows totally, so the sort is well defined. */
  lemma PrecedesIsTotal(key: Key, order: Order)
    ensures TotalPreorder(Precedes(key, order))
  {
    var le := Precedes(key, order);
    forall x
      ensures le(x, x)
    {
      CellLessOrder(CellOf(x, key), CellOf(x, key), CellOf(x, key));
    }
    forall x, y
      ensures le(x, y) || le(y, x)
    {
      CellLessOrder(CellOf(x, key), CellOf(y, key), CellOf(x, key));
    }
    forall x, y, z | le(x, y) && le(y, z)
      ensures le(x, z)
    {
      var cx, cy, cz := CellOf(x, key), CellOf(y, key), CellOf(z, key);
      CellLessOrder(cx, cy, cz);
      CellLessOrder(cz, cy, cx);
      CellLessOrder(cx, cz, cy);
      CellLessOrder(cy, cx, cz);
    }
  }

  /** The state on mount: the rows as given, descending, no active column. */
  function Initial(tasks: seq<Records.ReadTask>): (r: SortState)
    ensures r.rows == tasks && r.order == Desc && r.activeKey == None
  {
    SortState(tasks, Desc, None)
  }

  /**
   * `handleClickSortColumn`: a click on the active column while it is
   * descending switches to ascending; any other click sorts descending. The
   * rows are sorted stably by the clicked field and the column becomes active.
   */
  function ClickSort(s: SortState, column: Key): (r: SortState)
    ensures r.activeKey == Some(column)
    ensures s.activeKey != Some(column) ==> r.order == Desc
    ensures s.activeKey == Some(column) ==> r.order != s.order
    ensures multiset(r.rows) == multiset(s.rows)
    ensures r.order == Asc ==> forall i, j :: 0 <= i < j < |r.rows| ==> !CellLess(CellOf(r.rows[j], column), CellOf(r.rows[i], column))
    ensures r.order == Desc ==> forall i, j :: 0 <= i < j < |r.rows| ==> !CellLess(CellOf(r.rows[i], column), CellOf(r.rows[j], column))
  {
    var isDesc := s.activeKey == Some(column) && s.order == Desc;
    var newOrder := if isDesc then Asc else Desc;
    PrecedesIsTotal(column, newOrder);
    SortState(Sort(s.rows, Precedes(column, newOrder)), newOrder, Some(column))
  }

  /** The effect on a change of `tasks`: the rows become the new list; order and active column stay. */
  function ResetRows(s: SortState, tasks: seq<Records.ReadTask>): (r: SortState)
    ensures r.rows == tasks
    ensures r.order == s.order && r.activeKey == s.activeKey
  {
    s.(rows := tasks)
  }

  /** Repeated clicks on one column alternate between the two orders. */
  lemma ClickAgainFlips(s: SortState, column: Key)
    ensures ClickSort(ClickSort(s, column), column).order != ClickSort(s, column).order
    ensures ClickSort(ClickSort(ClickSort(s, column), column), column).order == ClickSort(s, column).order
  {
  }

  /** Within one field's values, "no later row is smaller" means each row's value is at most the next one's. */
  lemma AscendingMeansNonDecreasing(s: SortState, column: Key, i: nat, j: nat)
    requires ClickSort(s, column).order == Asc
    requires i < j < |ClickSort(s, column).rows|
    ensures var rows := ClickSort(s, column).rows;
      CellOf(rows[i], column) == CellOf(rows[j], column) || CellLess(CellOf(rows[i], column), CellOf(rows[j], column))
  {
    var rows := ClickSort(s, column).rows;
    CellLessOrder(CellOf(rows[i], column), CellOf(rows[j], column), CellOf(rows[i], column));
  }

  /** Rows already in the order a click asks for are left exactly as they are. */
  lemma ClickOnSortedRows(s: SortState, column: Key)
    requires SortedBy(s.rows, Precedes(column, ClickSort(s, column).order))
    ensures ClickSort(s, column).rows == s.rows
  {
    PrecedesIsTotal(column, ClickSort(s, column).order);
    SortSorted(s.rows, Precedes(column, ClickSort(s, column).order));
  }

  /** Rows whose clicked field holds equal values keep the order they had before the click. */
  lemma ClickSortStable(s: SortState, column: Key, x: Records.ReadTask)
    ensures var r := ClickSort(s, column);
      Ties(r.rows, x, Precedes(column, r.order)) == Ties(s.rows, x, Precedes(column, r.order))
  {
    var r := ClickSort(s, column);
    PrecedesIsTotal(column, r.order);
    SortStable(s.rows, x, Precedes(column, r.order));
  }

  /** A second click on the same column with no task change in between only re-sorts the same rows. */
  lemma ClickTwiceKeepsRows(s: SortState, column: Key)
    ensures multiset(ClickSort(ClickSort(s, column), column).rows) == multiset(s.rows)
  {
  }

  /**
   * A task change after a sort throws the sorted order away: the rows are the
   * new list as given while the header still shows the clicked column and order.
   */
  lemma ResetAfterSort(s: SortState, column: Key, tasks: seq<Records.ReadTask>)
    ensures ResetRows(ClickSort(s, column), tasks) == SortState(tasks, ClickSort(s, column).order, Some(column))
  {
  }

  /** Whether the delete and edit buttons of a row are enabled for the logged-in user. */
  predicate OwnerMayChange(row: Records.ReadTask, loginId: int) {
    row.owner == loginId
  }

  /** The delete button: the id `fetchAsyncDeleteTask` is dispatched with, if the button is enabled. */
  function DeleteClick(row: Records.ReadTask, loginId: int): (r: Option<int>)
    ensures r.Some? <==> row.owner == loginId
    ensures r.Some? ==> r.value == row.id
  {
    if OwnerMayChange(row, loginId) then Some(row.id) else None
  }

  /** The editable part of a row, as the form reads it back. */
  function ToPost(row: Records.ReadTask): (p: Records.PostTask)
    ensures p.id == row.id && p.task == row.task && p.description == row.description
    ensures p.startDate == row.startDate && p.responsible == row.responsible
    ensures p.estimate == row.estimate && p.category == row.category && p.status == row.status
  {
    Records.PostTask(row.id, row.task, row.description, row.startDate, row.responsible, row.estimate, row.category, row.status)
  }

  /** The edit button: if enabled, the row becomes the edited task; otherwise nothing happens. */
  function EditClick(ts: TaskReducer.TaskState, row: Records.ReadTask, loginId: int): (r: TaskReducer.TaskState)
    ensures row.owner == loginId ==> r.editedTask == ToPost(row)
    ensures row.owner != loginId ==> r == ts
    ensures r.tasks == ts.tasks && r.selectedTask == ts.selectedTask
    ensures r.users == ts.users && r.category == ts.category
  {
    if OwnerMayChange(row, loginId) then TaskReducer.EditTask(ts, ToPost(row)) else ts
  }

  /** A click on a row's cells: the row is selected and the edited task goes back to the blank record. */
  function RowClick(ts: TaskReducer.TaskState, row: Records.ReadTask): (r: TaskReducer.TaskState)
    ensures r.selectedTask == row && r.editedTask == Records.BlankPostTask
    ensures r.tasks == ts.tasks && r.users == ts.users && r.category == ts.category
  {
    TaskReducer.EditTask(TaskReducer.SelectTask(ts, row), Records.BlankPostTask)
  }

  /**
   * The "Add new" button: a fresh edited task with id 0, the login user as
   * responsible, status "1" and category 1, and the selection cleared.
   */
  function AddNew(ts: TaskReducer.TaskState, loginId: int): (r: TaskReducer.TaskState)
    ensures r.editedTask == Records.PostTask(0, "", "", "", loginId, 0, 1, "1")
    ensures r.selectedTask == Records.BlankReadTask
    ensures r.tasks == ts.tasks && r.users == ts.users && r.category == ts.category
  {
    TaskReducer.SelectTask(TaskReducer.EditTask(ts, Records.PostTask(0, "", "", "", loginId, 0, 1, "1")), Records.BlankReadTask)
  }

  /** A row click discards whatever was being edited: the outcome depends only on the row. */
  lemma RowClickForgetsEdit(ts: TaskReducer.TaskState, p: Records.PostTask, row: Records.ReadTask)
    ensures RowClick(TaskReducer.EditTask(ts, p), row) == RowClick(ts, row)
  {
  }

  /**
   * Only the owner can delete through the table: a delete that goes through,
   * once answered, leaves no task with the row's id.
   */
  lemma DeleteOnlyOwn(ts: TaskReducer.TaskState, row: Records.ReadTask, loginId: int)
    requires DeleteClick(row, loginId).Some?
    ensures row.owner == loginId
    ensures forall t :: t in TaskReducer.DeleteTaskFulfilled(ts, DeleteClick(row, loginId).value).tasks ==> t.id != row.id
  {
  }

  /** An enabled edit of a row, then a row click, leaves the row selected and no edit pending. */
  lemma EditThenRowClick(ts: TaskReducer.TaskState, row: Records.ReadTask, loginId: int)
    ensures RowClick(EditClick(ts, row, loginId), row) == RowClick(ts, row)
  {
  }
}
