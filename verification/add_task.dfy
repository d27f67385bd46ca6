/**
 * The add-task form a column opens (`AddTask.tsx`): a text area whose submit
 * hands a new card and the column's insertion index to `updateTasks`, and whose
 * cancel closes it. The column's `isOpen` flag is kept next to the text.
 */
module AddTask {
  import opened Wrappers
  import opened Board
  import opened Projection
  import opened Column

  /** The form's text and whether the column currently shows the form. */
  datatype Form = Form(text: string, isOpen: bool)

  /** The arguments of one `updateTasks(newTask, index)` call. */
  datatype UpdateCall = UpdateCall(item: Item, index: nat)

  /** The form after an event, and the `updateTasks` call the event made, if any. */
  datatype Outcome = Outcome(form: Form, call: Option<UpdateCall>)

  /** `handleOnChange`: the text area's new value replaces the text. */
  function ChangeText(form: Form, value: string): (r: Form)
    ensures r.text == value && r.isOpen == form.isOpen
  {
    form.(text := value)
  }

  /**
   * `handleOnSubmit`. The new card's key comes from `uuidv4()`, which is a
   * parameter here. Empty text does nothing; otherwise one call is made and the
   * form is cleared and closed.
   */
  function Submit(form: Form, key: string, groupName: string, index: nat): (r: Outcome)
    ensures form.text == [] <==> r.call == None
    ensures form.text == [] ==> r.form == form
    ensures r.call.Some? ==> r.call.value == UpdateCall(Item(key, groupName, form.text, Card), index)
    ensures r.call.Some? ==> r.form == Form([], false)
  {
    if form.text == [] then Outcome(form, None)
    else Outcome(Form([], false), Some(UpdateCall(Item(key, groupName, form.text, Card), index)))
  }

  /** `handleCancel`: clears the text and closes the form; `updateTasks` is not called. */
  function Cancel(form: Form): (r: Outcome)
    ensures r.call == None
    ensures r.form.text == [] && !r.form.isOpen
  {
    Outcome(Form([], false), None)
  }

  /** A second submit right after a successful one does nothing: the text it would send is gone. */
  lemma SubmitOnce(form: Form, key: string, key': string, groupName: string, index: nat)
    requires form.text != []
    ensures var once := Submit(form, key, groupName, index);
      Submit(once.form, key', groupName, index) == Outcome(once.form, None)
  {
  }

  /** Whatever was typed, submit sends exactly that text as the new card's contents, or sends nothing when it is empty. */
  lemma SubmitSendsTyped(form: Form, value: string, key: string, groupName: string, index: nat)
    ensures var r := Submit(ChangeText(form, value), key, groupName, index);
      && (value == [] ==> r.call == None)
      && (value != [] ==> r.call.Some? && r.call.value.item.contents == value && r.call.value.item.groupName == groupName)
  {
  }

  /**
   * Submitting column k's form, with the index the column hands over, applied
   * through the assumed insert-at: the new card ends column k, the store stays
   * arranged, and the column grows by exactly that card.
   */
  lemma SubmitAppendsToColumn(tasks: seq<Item>, k: nat, form: Form, key: string)
    requires k < 3
    requires Arranged(tasks)
    requires form.text != []
    ensures var r := Submit(form, key, ColumnNames[k], AddIndex(Columns(tasks)[k]));
      && r.call.Some?
      && r.call.value.index <= |tasks|
      && InsertAt(tasks, r.call.value.index, r.call.value.item) == AddCard(tasks, k, r.call.value.item)
      && Arranged(AddCard(tasks, k, r.call.value.item))
      && Filter(AddCard(tasks, k, r.call.value.item), ColumnNames[k]) == Filter(tasks, ColumnNames[k]) + [r.call.value.item]
  {
    var x := Item(key, ColumnNames[k], form.text, Card);
    ColumnsInRange(tasks, k);
    AddCardAtColumnEnd(tasks, k, x);
  }
}
