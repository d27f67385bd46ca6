/**
 * The column projection that `TaskArea` and `Sidebar` compute on every render:
 * walk the column names in order, filter the store by each name, and hand each
 * column a running `firstIndex` offset into the flat store.
 */
module Projection {
  import opened Board

  /** What one `Column` receives: its name, its first global index and its cards. */
  datatype ColumnView = ColumnView(name: string, firstIndex: nat, tasks: seq<Item>)

  /** The projection loop over `names`, with the running offset starting at `index`. */
  function Project(tasks: seq<Item>, names: seq<string>, index: nat): (r: seq<ColumnView>)
    ensures |r| == |names|
    ensures forall k :: 0 <= k < |r| ==> r[k].name == names[k]
    ensures forall k :: 0 <= k < |r| ==> r[k].tasks == Filter(tasks, names[k])
    ensures |r| > 0 ==> r[0].firstIndex == index
    ensures forall k :: 0 <= k < |r| - 1 ==> r[k + 1].firstIndex == r[k].firstIndex + |r[k].tasks|
  {
    if names == [] then []
    else
      var grouped := Filter(tasks, names[0]);
      [ColumnView(names[0], index, grouped)] + Project(tasks, names[1..], index + |grouped|)
  }

  /** The board as rendered: the three fixed columns, offsets starting at 0. */
  function Columns(tasks: seq<Item>): (r: seq<ColumnView>)
    ensures |r| == 3
    ensures r[0].firstIndex == 0
    ensures r[1].firstIndex == |r[0].tasks|
    ensures r[2].firstIndex == |r[0].tasks| + |r[1].tasks|
    ensures r[0] == ColumnView(Todo, 0, Filter(tasks, Todo))
    ensures r[1].name == Doing && r[1].tasks == Filter(tasks, Doing)
    ensures r[2].name == Done && r[2].tasks == Filter(tasks, Done)
  {
    Project(tasks, ColumnNames, 0)
  }

  /** Number of cards whose column is one of the three known names. */
  function CountKnown(tasks: seq<Item>): (r: nat)
    ensures r <= |tasks|
  {
    if tasks == [] then 0
    else (if Known(tasks[0].groupName) then 1 else 0) + CountKnown(tasks[1..])
  }

  /** The three columns together show exactly the cards with a known column name. */
  lemma {:induction false} TotalShown(tasks: seq<Item>)
    ensures var r := Columns(tasks); r[2].firstIndex + |r[2].tasks| == CountKnown(tasks)
  {
    if tasks != [] {
      TotalShown(tasks[1..]);
    }
  }

  /** Every column ends inside the store, arranged or not. */
  lemma ColumnsInRange(tasks: seq<Item>, k: nat)
    requires k < 3
    ensures Columns(tasks)[k].firstIndex + |Columns(tasks)[k].tasks| <= |tasks|
  {
    TotalShown(tasks);
  }

  /** A card whose column name is unknown appears in no column; every shown card is in the store. */
  lemma UnknownDropped(tasks: seq<Item>, x: Item)
    ensures (exists k :: 0 <= k < 3 && x in Columns(tasks)[k].tasks) <==> x in tasks && Known(x.groupName)
  {
    var r := Columns(tasks);
    FilterContents(tasks, Todo);
    FilterContents(tasks, Doing);
    FilterContents(tasks, Done);
    if x in tasks && Known(x.groupName) {
      assert x in r[Rank(x.groupName)].tasks;
    }
  }

  /**
   * On an arranged store the offsets are exact: the i-th card of column k sits
   * at global index `firstIndex + i`.
   */
  lemma CardAtGlobalIndex(tasks: seq<Item>, k: nat, i: nat)
    requires Arranged(tasks)
    requires k < 3
    requires i < |Columns(tasks)[k].tasks|
    ensures Columns(tasks)[k].firstIndex + i < |tasks|
    ensures tasks[Columns(tasks)[k].firstIndex + i] == Columns(tasks)[k].tasks[i]
  {
  }

  /**
   * Cards `[f, f + n)` form column k's run in `s`: every card before the run
   * ranks lower than k, every card inside it has rank k, every card after it ranks higher.
   */
  ghost predicate IsRun(s: seq<Item>, k: nat, f: nat, n: nat) {
    && f + n <= |s|
    && (forall i :: 0 <= i < f ==> Rank(s[i].groupName) < k)
    && (forall i :: f <= i < f + n ==> Rank(s[i].groupName) == k)
    && (forall i :: f + n <= i < |s| ==> k < Rank(s[i].groupName))
  }

  /** Ranks along `s` are 0 before `b1`, 1 from `b1` to `b2`, and 2 from `b2` on. */
  ghost predicate Banded(s: seq<Item>, b1: nat, b2: nat) {
    && b1 <= b2 <= |s|
    && forall i :: 0 <= i < |s| ==> Rank(s[i].groupName) == (if i < b1 then 0 else if i < b2 then 1 else 2)
  }

  /** Three runs carrying the three names, laid end to end, are banded at their lengths. */
  lemma ThreeBands(s: seq<Item>, f0: seq<Item>, f1: seq<Item>, f2: seq<Item>)
    requires s == f0 + f1 + f2
    requires forall i :: 0 <= i < |f0| ==> f0[i].groupName == Todo
    requires forall i :: 0 <= i < |f1| ==> f1[i].groupName == Doing
    requires forall i :: 0 <= i < |f2| ==> f2[i].groupName == Done
    ensures Banded(s, |f0|, |f0| + |f1|)
  {
    forall i | 0 <= i < |s|
      ensures Rank(s[i].groupName) == (if i < |f0| then 0 else if i < |f0| + |f1| then 1 else 2)
    {
      if i < |f0| {
        assert s[i] == f0[i];
      } else if i < |f0| + |f1| {
        assert s[i] == f1[i - |f0|];
      } else {
        assert s[i] == f2[i - |f0| - |f1|];
      }
    }
  }

  /** In a banded store, each band is its column's run. */
  lemma BandedRuns(s: seq<Item>, b1: nat, b2: nat, k: nat)
    requires Banded(s, b1, b2)
    requires k < 3
    ensures k == 0 ==> IsRun(s, 0, 0, b1)
    ensures k == 1 ==> IsRun(s, 1, b1, b2 - b1)
    ensures k == 2 ==> IsRun(s, 2, b2, |s| - b2)
  {
  }

  /** On an arranged store, the offset and length column k is rendered with describe its run exactly. */
  lemma RunBounds(tasks: seq<Item>, k: nat)
    requires Arranged(tasks)
    requires k < 3
    ensures IsRun(tasks, k, Columns(tasks)[k].firstIndex, |Columns(tasks)[k].tasks|)
  {
    var r := Columns(tasks);
    var f0, f1, f2 := r[0].tasks, r[1].tasks, r[2].tasks;
    FilterContents(tasks, Todo);
    FilterContents(tasks, Doing);
    FilterContents(tasks, Done);
    ThreeBands(tasks, f0, f1, f2);
    BandedRuns(tasks, |f0|, |f0| + |f1|, k);
  }
}
