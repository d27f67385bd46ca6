/**
 * One board column (`Column.tsx`): the hover handler that turns a card from
 * another column into a `swapTasks` call, the index handed to the add-task
 * form, the global index of each rendered card, and the form's open flag.
 */
module Column {
  import opened Wrappers
  import opened Board
  import opened Projection
  import opened Runs

  /** `DraggableItemWithIndex`: the dragged card plus the global index it was last placed at. */
  datatype DragItem = DragItem(item: Item, index: int)

  /** The arguments of one `swapTasks(dragIndex, hoverIndex, groupName)` call. */
  datatype SwapCall = SwapCall(dragIndex: int, hoverIndex: int, groupName: string)

  /** The effect of one hover: the swap requested, if any, and the drag item as the handler leaves it. */
  datatype DropResult = DropResult(call: Option<SwapCall>, dragItem: DragItem)

  /**
   * The insertion index for a card entering a column: a card coming from an
   * earlier position lands one before the column's end (its removal shifts the
   * run down by one); a card coming from a later position lands just past the end.
   */
  function TargetIndex(dragIndex: int, firstIndex: nat, len: nat): (r: int)
    ensures firstIndex - 1 <= r <= firstIndex + len
    ensures 0 <= dragIndex ==> 0 <= r
  {
    if dragIndex < firstIndex then firstIndex + len - 1 else firstIndex + len
  }

  /** `handleDrop`, fired on every hover over the column. */
  function HandleDrop(drag: DragItem, columnName: string, firstIndex: nat, len: nat): (r: DropResult)
    ensures drag.item.groupName == columnName ==> r == DropResult(None, drag)
    ensures drag.item.groupName != columnName && drag.index < firstIndex ==>
      r.call == Some(SwapCall(drag.index, firstIndex + len - 1, columnName))
    ensures drag.item.groupName != columnName && firstIndex <= drag.index ==>
      r.call == Some(SwapCall(drag.index, firstIndex + len, columnName))
    ensures r.call.Some? ==> r.dragItem == DragItem(drag.item.(groupName := columnName), r.call.value.hoverIndex)
    ensures r.dragItem.item.groupName == columnName
  {
    if drag.item.groupName == columnName then DropResult(None, drag)
    else
      var target := TargetIndex(drag.index, firstIndex, len);
      DropResult(Some(SwapCall(drag.index, target, columnName)),
                 DragItem(drag.item.(groupName := columnName), target))
  }

  /** After one hover has moved the card, further hovers over the same column request nothing. */
  lemma SecondHoverIsNoOp(drag: DragItem, columnName: string, firstIndex: nat, len: nat, firstIndex': nat, len': nat)
    ensures HandleDrop(HandleDrop(drag, columnName, firstIndex, len).dragItem, columnName, firstIndex', len').call == None
  {
  }

  /**
   * The move a cross-column hover requests, stated on runs: a card from
   * outside column k's run, taken out and re-inserted at the target index with
   * column k's name, becomes the last card of column k; the store stays
   * rank-sorted and the run grows by one.
   */
  lemma MoveToRunEnd(s: seq<Item>, d: nat, k: nat, f: nat, n: nat)
    requires k < 3
    requires RankSorted(s)
    requires IsRun(s, k, f, n)
    requires d < |s|
    requires s[d].groupName != ColumnNames[k]
    ensures 0 <= TargetIndex(d, f, n) < |s|
    ensures TargetIndex(d, f, n) == (if d < f then f - 1 else f) + n
    ensures RankSorted(Swap(s, d, TargetIndex(d, f, n), ColumnNames[k]))
    ensures IsRun(Swap(s, d, TargetIndex(d, f, n), ColumnNames[k]), k, if d < f then f - 1 else f, n + 1)
    ensures Filter(Swap(s, d, TargetIndex(d, f, n), ColumnNames[k]), ColumnNames[k])
         == Filter(s, ColumnNames[k]) + [s[d].(groupName := ColumnNames[k])]
  {
    var g := ColumnNames[k];
    var x := s[d].(groupName := g);
    RankNamesColumn(s[d], k);
    RemoveOutsideRun(s, d, k, f, n);
    var rest := RemoveAt(s, d);
    var f2: nat := if d < f then f - 1 else f;
    var t := TargetIndex(d, f, n);
    assert t == f2 + n;
    assert Swap(s, d, t, g) == InsertAt(rest, f2 + n, x);
    RemoveKeepsRankSorted(s, d);
    AppendToRun(rest, k, f2, n, x);
    FilterRemoveOther(s, d, g);
  }

  /** The drag item names the card it carries: its index is in range and the store holds that card there. */
  predicate Tracks(tasks: seq<Item>, drag: DragItem) {
    0 <= drag.index < |tasks| && tasks[drag.index] == drag.item
  }

  /** The store and the drag item after one hover. */
  datatype Moved = Moved(tasks: seq<Item>, drag: DragItem)

  /**
   * One hover of `drag` over column k of the rendered board, with the
   * requested `swapTasks` applied through the assumed remove-then-insert.
   */
  function Hover(tasks: seq<Item>, drag: DragItem, k: nat): (r: Moved)
    requires k < 3
    requires Arranged(tasks)
    requires Tracks(tasks, drag)
    ensures |r.tasks| == |tasks|
    ensures drag.item.groupName == ColumnNames[k] ==> r == Moved(tasks, drag)
    ensures drag.item.groupName != ColumnNames[k] ==> r.drag.item == drag.item.(groupName := ColumnNames[k])
    ensures Tracks(r.tasks, r.drag)
  {
    var v := Columns(tasks)[k];
    assert v.name == ColumnNames[k];
    var res := HandleDrop(drag, v.name, v.firstIndex, |v.tasks|);
    match res.call
    case None => Moved(tasks, res.dragItem)
    case Some(c) =>
      RunBounds(tasks, k);
      ArrangedIsRankSorted(tasks);
      MoveToRunEnd(tasks, drag.index, k, v.firstIndex, |v.tasks|);
      Moved(Swap(tasks, c.dragIndex, c.hoverIndex, c.groupName), res.dragItem)
  }

  /** A hover keeps the store arranged: every column stays one contiguous run, in column order. */
  lemma HoverKeepsArranged(tasks: seq<Item>, drag: DragItem, k: nat)
    requires k < 3
    requires Arranged(tasks)
    requires Tracks(tasks, drag)
    ensures Arranged(Hover(tasks, drag, k).tasks)
  {
    var v := Columns(tasks)[k];
    if drag.item.groupName != ColumnNames[k] {
      RunBounds(tasks, k);
      ArrangedIsRankSorted(tasks);
      MoveToRunEnd(tasks, drag.index, k, v.firstIndex, |v.tasks|);
      RankSortedIsArranged(Hover(tasks, drag, k).tasks);
    }
  }

  /** The store after a cross-column hover is the assumed swap at the target index. */
  lemma HoverSwaps(tasks: seq<Item>, drag: DragItem, k: nat)
    requires k < 3
    requires Arranged(tasks)
    requires Tracks(tasks, drag)
    requires drag.item.groupName != ColumnNames[k]
    ensures var v := Columns(tasks)[k];
      && 0 <= TargetIndex(drag.index, v.firstIndex, |v.tasks|) < |tasks|
      && Hover(tasks, drag, k).drag.index == TargetIndex(drag.index, v.firstIndex, |v.tasks|)
      && Hover(tasks, drag, k).tasks == Swap(tasks, drag.index, TargetIndex(drag.index, v.firstIndex, |v.tasks|), ColumnNames[k])
      && IsRun(Hover(tasks, drag, k).tasks, k, if drag.index < v.firstIndex then v.firstIndex - 1 else v.firstIndex, |v.tasks| + 1)
  {
    var v := Columns(tasks)[k];
    RunBounds(tasks, k);
    ArrangedIsRankSorted(tasks);
    MoveToRunEnd(tasks, drag.index, k, v.firstIndex, |v.tasks|);
  }

  /** A hover from another column adds exactly the moved card to the end of column k. */
  lemma HoverFillsColumn(tasks: seq<Item>, drag: DragItem, k: nat)
    requires k < 3
    requires Arranged(tasks)
    requires Tracks(tasks, drag)
    requires drag.item.groupName != ColumnNames[k]
    ensures Filter(Hover(tasks, drag, k).tasks, ColumnNames[k])
         == Filter(tasks, ColumnNames[k]) + [Hover(tasks, drag, k).drag.item]
  {
    var v := Columns(tasks)[k];
    RunBounds(tasks, k);
    ArrangedIsRankSorted(tasks);
    MoveToRunEnd(tasks, drag.index, k, v.firstIndex, |v.tasks|);
    HoverSwaps(tasks, drag, k);
  }

  /** After a hover from another column, the moved card is the last card column k renders. */
  lemma HoverLandsLast(tasks: seq<Item>, drag: DragItem, k: nat)
    requires k < 3
    requires Arranged(tasks)
    requires Tracks(tasks, drag)
    requires drag.item.groupName != ColumnNames[k]
    ensures var r := Hover(tasks, drag, k);
      r.drag.index + 1 == Columns(r.tasks)[k].firstIndex + |Columns(r.tasks)[k].tasks|
  {
    var v := Columns(tasks)[k];
    var f2: nat := if drag.index < v.firstIndex then v.firstIndex - 1 else v.firstIndex;
    HoverSwaps(tasks, drag, k);
    HoverKeepsArranged(tasks, drag, k);
    LastOfRun(Hover(tasks, drag, k).tasks, k, f2, |v.tasks| + 1);
  }

  /** Taking the moved card back out leaves every other card where it was, in the same order. */
  lemma HoverKeepsOrder(tasks: seq<Item>, drag: DragItem, k: nat)
    requires k < 3
    requires Arranged(tasks)
    requires Tracks(tasks, drag)
    requires drag.item.groupName != ColumnNames[k]
    ensures var r := Hover(tasks, drag, k);
      RemoveAt(r.tasks, r.drag.index) == RemoveAt(tasks, drag.index)
  {
    HoverSwaps(tasks, drag, k);
  }

  /** A hover over column k changes no other column beyond taking the moved card out of its old one. */
  lemma HoverLeavesOtherColumns(tasks: seq<Item>, drag: DragItem, k: nat, h: string)
    requires k < 3
    requires Arranged(tasks)
    requires Tracks(tasks, drag)
    requires drag.item.groupName != ColumnNames[k]
    requires h != ColumnNames[k]
    ensures Filter(Hover(tasks, drag, k).tasks, h) == Filter(RemoveAt(tasks, drag.index), h)
  {
    var r := Hover(tasks, drag, k);
    HoverSwaps(tasks, drag, k);
    assert r.tasks == InsertAt(RemoveAt(tasks, drag.index), r.drag.index, r.drag.item);
    FilterInsertOther(RemoveAt(tasks, drag.index), r.drag.index, r.drag.item, h);
  }

  /** Hovering again over the same column leaves store and drag item as they are. */
  lemma HoverIdempotent(tasks: seq<Item>, drag: DragItem, k: nat)
    requires k < 3
    requires Arranged(tasks)
    requires Tracks(tasks, drag)
    ensures var r := Hover(tasks, drag, k);
      Arranged(r.tasks) && Hover(r.tasks, r.drag, k) == r
  {
    HoverKeepsArranged(tasks, drag, k);
  }

  /** The index `AddTask` receives: one past the column's last card. */
  function AddIndex(v: ColumnView): nat {
    v.firstIndex + |v.tasks|
  }

  /** The assumed `updateTasks(newTask, index)`, called by column k's add-task form. */
  function AddCard(tasks: seq<Item>, k: nat, x: Item): (r: seq<Item>)
    requires k < 3
    ensures multiset(r) == multiset(tasks) + multiset{x}
  {
    ColumnsInRange(tasks, k);
    var i := AddIndex(Columns(tasks)[k]);
    assert tasks == tasks[..i] + tasks[i..];
    InsertAt(tasks, i, x)
  }

  /** A card added through column k's form becomes that column's last card, and the store stays arranged. */
  lemma AddCardAtColumnEnd(tasks: seq<Item>, k: nat, x: Item)
    requires k < 3
    requires Arranged(tasks)
    requires x.groupName == ColumnNames[k]
    ensures Arranged(AddCard(tasks, k, x))
    ensures Filter(AddCard(tasks, k, x), ColumnNames[k]) == Filter(tasks, ColumnNames[k]) + [x]
  {
    var v := Columns(tasks)[k];
    RunBounds(tasks, k);
    ArrangedIsRankSorted(tasks);
    AppendToRun(tasks, k, v.firstIndex, |v.tasks|, x);
    assert AddCard(tasks, k, x) == InsertAt(tasks, v.firstIndex + |v.tasks|, x);
    RankSortedIsArranged(AddCard(tasks, k, x));
  }

  /** Adding a card to column k leaves every other column as it was. */
  lemma AddCardLeavesOtherColumns(tasks: seq<Item>, k: nat, x: Item, h: string)
    requires k < 3
    requires h != x.groupName
    ensures Filter(AddCard(tasks, k, x), h) == Filter(tasks, h)
  {
    ColumnsInRange(tasks, k);
    FilterInsertOther(tasks, AddIndex(Columns(tasks)[k]), x, h);
  }

  /** The global index each rendered card is given (`firstIndex + index` in the card loop). */
  function CardIndices(v: ColumnView): (r: seq<nat>)
    ensures |r| == |v.tasks|
    ensures forall i :: 0 <= i < |r| ==> r[i] == v.firstIndex + i
  {
    seq(|v.tasks|, i => v.firstIndex + i)
  }

  /** On an arranged store every card index names the card it is rendered for. */
  lemma CardIndicesAreExact(tasks: seq<Item>, k: nat, i: nat)
    requires Arranged(tasks)
    requires k < 3
    requires i < |Columns(tasks)[k].tasks|
    ensures CardIndices(Columns(tasks)[k])[i] < |tasks|
    ensures tasks[CardIndices(Columns(tasks)[k])[i]] == Columns(tasks)[k].tasks[i]
  {
    CardAtGlobalIndex(tasks, k, i);
  }

  /** The `isOpen` flag toggled by the column's plus button. */
  function ToggleOpen(isOpen: bool): (r: bool)
    ensures r != isOpen
  {
    !isOpen
  }
}
