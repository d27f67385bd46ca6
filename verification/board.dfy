/**
 * The kanban board's ordering store: one flat sequence of draggable cards,
 * kept so that the cards of each column form one run, the runs in column order.
 * The store primitives (`swapTasks`, `updateTasks`, `deleteTasks`) are assumed
 * to be remove-at / insert-at on that sequence.
 */
module Board {

  /** The only drag type the board registers (`ItemTypes.card`). */
  datatype ItemType = Card

  /** A draggable card: client-generated key, owning column, text, drag type. */
  datatype Item = Item(key: string, groupName: string, contents: string, itemType: ItemType)

  const Todo: string := "TODO"
  const Doing: string := "作業中"
  const Done: string := "完了"

  /** The fixed column order the board renders. */
  const ColumnNames: seq<string> := [Todo, Doing, Done]

  predicate Known(g: string) {
    g in ColumnNames
  }

  /** Position of a column name in the column order; unknown names rank past the last column. */
  function Rank(g: string): (r: nat)
    ensures r < |ColumnNames| <==> Known(g)
    ensures Known(g) ==> ColumnNames[r] == g
  {
    if g == Todo then 0 else if g == Doing then 1 else if g == Done then 2 else 3
  }

  /** The cards of column `g`, in store order (`tasks.filter(t => t.groupName === g)`). */
  function Filter(tasks: seq<Item>, g: string): (r: seq<Item>)
    ensures |r| <= |tasks|
  {
    if tasks == [] then []
    else (if tasks[0].groupName == g then [tasks[0]] else []) + Filter(tasks[1..], g)
  }

  /** A column holds exactly the store's cards carrying its name. */
  lemma {:induction false} FilterContents(tasks: seq<Item>, g: string)
    ensures forall i :: 0 <= i < |Filter(tasks, g)| ==> Filter(tasks, g)[i].groupName == g
    ensures forall x :: x in Filter(tasks, g) <==> x in tasks && x.groupName == g
  {
    if tasks != [] {
      FilterContents(tasks[1..], g);
      assert tasks == [tasks[0]] + tasks[1..];
    }
  }

  lemma {:induction false} FilterAppend(a: seq<Item>, b: seq<Item>, g: string)
    ensures Filter(a + b, g) == Filter(a, g) + Filter(b, g)
  {
    if a == [] {
      assert a + b == b;
    } else {
      var ab := a + b;
      assert ab[0] == a[0];
      assert ab[1..] == a[1..] + b;
      FilterAppend(a[1..], b, g);
      var head := if a[0].groupName == g then [a[0]] else [];
      assert Filter(ab, g) == head + (Filter(a[1..], g) + Filter(b, g));
      assert Filter(a, g) == head + Filter(a[1..], g);
    }
  }

  /** A filter finds nothing when no card carries the name. */
  lemma {:induction false} FilterAbsent(tasks: seq<Item>, g: string)
    requires forall i :: 0 <= i < |tasks| ==> tasks[i].groupName != g
    ensures Filter(tasks, g) == []
  {
    if tasks != [] {
      FilterAbsent(tasks[1..], g);
    }
  }

  /** A filter keeps a run that carries only that name. */
  lemma {:induction false} FilterAll(tasks: seq<Item>, g: string)
    requires forall i :: 0 <= i < |tasks| ==> tasks[i].groupName == g
    ensures Filter(tasks, g) == tasks
  {
    if tasks != [] {
      FilterAll(tasks[1..], g);
    }
  }

  /** The contiguity invariant as the board's callers state it: the store is its three columns laid end to end. */
  predicate Arranged(tasks: seq<Item>) {
    tasks == Filter(tasks, Todo) + Filter(tasks, Doing) + Filter(tasks, Done)
  }

  /** The same invariant pointwise: every card is in a known column, and column ranks never decrease along the store. */
  ghost predicate RankSorted(tasks: seq<Item>) {
    && (forall i :: 0 <= i < |tasks| ==> Known(tasks[i].groupName))
    && (forall i, j :: 0 <= i < j < |tasks| ==> Rank(tasks[i].groupName) <= Rank(tasks[j].groupName))
  }

  lemma FilterSingle(a: Item, g: string)
    ensures Filter([a], g) == if a.groupName == g then [a] else []
  {
    assert [a][1..] == [];
  }

  /** Every card after the head of a rank-sorted store ranks at least as high as the head. */
  lemma HeadRanksLowest(tasks: seq<Item>)
    requires RankSorted(tasks)
    requires tasks != []
    ensures RankSorted(tasks[1..])
    ensures forall i :: 0 <= i < |tasks[1..]| ==> Rank(tasks[0].groupName) <= Rank(tasks[1..][i].groupName)
  {
  }

  lemma PrependToRun(a: Item, f0: seq<Item>, f1: seq<Item>, f2: seq<Item>)
    ensures [a] + (f0 + f1 + f2) == ([a] + f0) + f1 + f2
  {
  }

  lemma {:induction false} RankSortedIsArranged(tasks: seq<Item>)
    requires RankSorted(tasks)
    ensures Arranged(tasks)
  {
    if tasks != [] {
      var a, rest := tasks[0], tasks[1..];
      assert tasks == [a] + rest;
      HeadRanksLowest(tasks);
      RankSortedIsArranged(rest);
      var f0, f1, f2 := Filter(rest, Todo), Filter(rest, Doing), Filter(rest, Done);
      assert rest == f0 + f1 + f2;
      FilterAppend([a], rest, Todo);
      FilterAppend([a], rest, Doing);
      FilterAppend([a], rest, Done);
      FilterSingle(a, Todo);
      FilterSingle(a, Doing);
      FilterSingle(a, Done);
      var ra := Rank(a.groupName);
      if ra == 0 {
        assert Filter(tasks, Todo) == [a] + f0;
        assert Filter(tasks, Doing) == f1;
        assert Filter(tasks, Done) == f2;
        PrependToRun(a, f0, f1, f2);
      } else if ra == 1 {
        FilterAbsent(rest, Todo);
        assert Filter(tasks, Todo) == [];
        assert Filter(tasks, Doing) == [a] + f1;
        assert Filter(tasks, Done) == f2;
        PrependToRun(a, [], f1, f2);
      } else {
        FilterAbsent(rest, Todo);
        FilterAbsent(rest, Doing);
        assert Filter(tasks, Todo) == [];
        assert Filter(tasks, Doing) == [];
        assert Filter(tasks, Done) == [a] + f2;
        PrependToRun(a, [], [], f2);
      }
    }
  }

  lemma ArrangedIsRankSorted(tasks: seq<Item>)
    requires Arranged(tasks)
    ensures RankSorted(tasks)
  {
    var f0, f1, f2 := Filter(tasks, Todo), Filter(tasks, Doing), Filter(tasks, Done);
    FilterContents(tasks, Todo);
    FilterContents(tasks, Doing);
    FilterContents(tasks, Done);
    var b1, b2 := |f0|, |f0| + |f1|;
    forall i | 0 <= i < |tasks|
      ensures Rank(tasks[i].groupName) == (if i < b1 then 0 else if i < b2 then 1 else 2)
    {
      if i < b1 {
        assert tasks[i] == f0[i];
      } else if i < b2 {
        assert tasks[i] == f1[i - b1];
      } else {
        assert tasks[i] == f2[i - b2];
      }
    }
  }

  /** The two statements of the contiguity invariant agree. */
  lemma ArrangedIffRankSorted(tasks: seq<Item>)
    ensures Arranged(tasks) <==> RankSorted(tasks)
  {
    if Arranged(tasks) {
      ArrangedIsRankSorted(tasks);
    }
    if RankSorted(tasks) {
      RankSortedIsArranged(tasks);
    }
  }

  /** Inserts `x` before position `i`, shifting later cards up by one. */
  function InsertAt(tasks: seq<Item>, i: nat, x: Item): (r: seq<Item>)
    requires i <= |tasks|
    ensures |r| == |tasks| + 1
    ensures r[i] == x
    ensures forall k :: 0 <= k < i ==> r[k] == tasks[k]
    ensures forall k :: i <= k < |tasks| ==> r[k + 1] == tasks[k]
  {
    tasks[..i] + [x] + tasks[i..]
  }

  /** Removes the card at position `i`, shifting later cards down by one. */
  function RemoveAt(tasks: seq<Item>, i: nat): (r: seq<Item>)
    requires i < |tasks|
    ensures |r| == |tasks| - 1
    ensures forall k :: 0 <= k < i ==> r[k] == tasks[k]
    ensures forall k :: i <= k < |r| ==> r[k] == tasks[k + 1]
  {
    tasks[..i] + tasks[i + 1..]
  }

  /** Removing what was just inserted restores the store. */
  lemma InsertRemoveRoundTrip(tasks: seq<Item>, i: nat, x: Item)
    requires i <= |tasks|
    ensures RemoveAt(InsertAt(tasks, i, x), i) == tasks
  {
  }

  /** Re-inserting what was just removed, at the same place, restores the store. */
  lemma RemoveInsertRoundTrip(tasks: seq<Item>, i: nat)
    requires i < |tasks|
    ensures InsertAt(RemoveAt(tasks, i), i, tasks[i]) == tasks
  {
  }

  /**
   * The assumed `swapTasks(dragIndex, hoverIndex, groupName)`: take the card at
   * `dragIndex` out, give it column `groupName`, and insert it at `hoverIndex`
   * of the shortened store.
   */
  function Swap(tasks: seq<Item>, dragIndex: nat, hoverIndex: nat, groupName: string): (r: seq<Item>)
    requires dragIndex < |tasks|
    requires hoverIndex < |tasks|
    ensures |r| == |tasks|
    ensures r[hoverIndex] == tasks[dragIndex].(groupName := groupName)
    ensures RemoveAt(r, hoverIndex) == RemoveAt(tasks, dragIndex)
  {
    InsertAt(RemoveAt(tasks, dragIndex), hoverIndex, tasks[dragIndex].(groupName := groupName))
  }

  /** The assumed `deleteTasks(target)`: drops every card carrying the target's key. */
  function DeleteByKey(tasks: seq<Item>, key: string): (r: seq<Item>)
    ensures forall x :: x in r <==> x in tasks && x.key != key
    ensures |r| <= |tasks|
  {
    if tasks == [] then []
    else (if tasks[0].key != key then [tasks[0]] else []) + DeleteByKey(tasks[1..], key)
  }

  /** Deleting distributes over concatenation, so the kept cards stay in their order and none is repeated. */
  lemma {:induction false} DeleteByKeyAppend(a: seq<Item>, b: seq<Item>, key: string)
    ensures DeleteByKey(a + b, key) == DeleteByKey(a, key) + DeleteByKey(b, key)
  {
    if a == [] {
      assert a + b == b;
    } else {
      assert (a + b)[1..] == a[1..] + b;
      DeleteByKeyAppend(a[1..], b, key);
    }
  }

  /** Each column after a delete is that column before it, with the key's cards dropped in place. */
  lemma {:induction false} DeleteByKeyPerColumn(tasks: seq<Item>, key: string, g: string)
    ensures Filter(DeleteByKey(tasks, key), g) == DeleteByKey(Filter(tasks, g), key)
  {
    if tasks != [] {
      var head := if tasks[0].key != key then [tasks[0]] else [];
      DeleteByKeyPerColumn(tasks[1..], key, g);
      FilterAppend(head, DeleteByKey(tasks[1..], key), g);
      var fhead := if tasks[0].groupName == g then [tasks[0]] else [];
      DeleteByKeyAppend(fhead, Filter(tasks[1..], g), key);
    }
  }

  /** Deleting a card keeps the store arranged. */
  lemma {:induction false} DeletePreservesArranged(tasks: seq<Item>, key: string)
    requires RankSorted(tasks)
    ensures RankSorted(DeleteByKey(tasks, key))
  {
    if tasks != [] {
      DeletePreservesArranged(tasks[1..], key);
      var rest := DeleteByKey(tasks[1..], key);
      forall k | 0 <= k < |rest|
        ensures Rank(tasks[0].groupName) <= Rank(rest[k].groupName)
      {
        assert rest[k] in tasks[1..];
      }
    }
  }
}
