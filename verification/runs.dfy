/**
 * The store primitives the board relies on, taken as remove-at / insert-at,
 * and what they do to a column's run. Everything here speaks of a run by its
 * offset and length (`IsRun`), so the proofs never have to unfold the rendered
 * projection.
 */
module Runs {
  import opened Board
  import opened Projection

  /** Each known column name has the rank of its position. */
  lemma RankOfName(k: nat)
    requires k < 3
    ensures Rank(ColumnNames[k]) == k
  {
  }

  /** Known column names are told apart by their rank. */
  lemma RankSeparates(g: string, h: string)
    requires Known(g) && Known(h)
    ensures Rank(g) == Rank(h) <==> g == h
  {
  }

  /** A card of rank k carries column k's name, and only such a card does. */
  lemma RankNamesColumn(x: Item, k: nat)
    requires k < 3
    ensures Rank(x.groupName) == k <==> x.groupName == ColumnNames[k]
  {
    RankOfName(k);
  }

  /** Removing a card keeps the store rank-sorted. */
  lemma RemoveKeepsRankSorted(s: seq<Item>, d: nat)
    requires d < |s|
    requires RankSorted(s)
    ensures RankSorted(RemoveAt(s, d))
  {
    var r := RemoveAt(s, d);
    forall i, j | 0 <= i < j < |r|
      ensures Rank(r[i].groupName) <= Rank(r[j].groupName)
    {
      var i0 := if i < d then i else i + 1;
      var j0 := if j < d then j else j + 1;
      assert r[i] == s[i0] && r[j] == s[j0];
    }
  }

  /** Inserting a known card between the lower and the higher ranks keeps the store rank-sorted. */
  lemma InsertKeepsRankSorted(s: seq<Item>, t: nat, x: Item)
    requires t <= |s|
    requires RankSorted(s)
    requires Known(x.groupName)
    requires forall i :: 0 <= i < t ==> Rank(s[i].groupName) <= Rank(x.groupName)
    requires forall i :: t <= i < |s| ==> Rank(x.groupName) <= Rank(s[i].groupName)
    ensures RankSorted(InsertAt(s, t, x))
  {
    var r := InsertAt(s, t, x);
    forall i | 0 <= i < |r|
      ensures Known(r[i].groupName)
    {
      if i > t {
        assert r[i] == s[i - 1];
      }
    }
    forall i, j | 0 <= i < j < |r|
      ensures Rank(r[i].groupName) <= Rank(r[j].groupName)
    {
      if j < t {
        assert r[i] == s[i] && r[j] == s[j];
      } else if j == t {
        assert r[i] == s[i];
      } else if i == t {
        assert r[j] == s[j - 1];
      } else if i < t {
        assert r[i] == s[i] && r[j] == s[j - 1];
      } else {
        assert r[i] == s[i - 1] && r[j] == s[j - 1];
      }
    }
  }

  /** Filtering an inserted sequence filters the two halves around the new card. */
  lemma FilterInsertAt(s: seq<Item>, t: nat, x: Item, h: string)
    requires t <= |s|
    ensures Filter(InsertAt(s, t, x), h) == Filter(s[..t], h) + Filter([x], h) + Filter(s[t..], h)
  {
    var a, b := s[..t], s[t..];
    var ax := a + [x];
    assert InsertAt(s, t, x) == ax + b;
    FilterAppend(ax, b, h);
    FilterAppend(a, [x], h);
  }

  /** Inserting a card leaves every other column's filter as it was. */
  lemma FilterInsertOther(s: seq<Item>, t: nat, x: Item, h: string)
    requires t <= |s|
    requires h != x.groupName
    ensures Filter(InsertAt(s, t, x), h) == Filter(s, h)
  {
    var a, b := s[..t], s[t..];
    FilterInsertAt(s, t, x, h);
    FilterSingle(x, h);
    assert Filter(InsertAt(s, t, x), h) == Filter(a, h) + Filter(b, h);
    assert s == a + b;
    FilterAppend(a, b, h);
  }

  /** Removing a card leaves every other column's filter as it was. */
  lemma FilterRemoveOther(s: seq<Item>, d: nat, h: string)
    requires d < |s|
    requires h != s[d].groupName
    ensures Filter(RemoveAt(s, d), h) == Filter(s, h)
  {
    assert InsertAt(RemoveAt(s, d), d, s[d]) == s;
    FilterInsertOther(RemoveAt(s, d), d, s[d], h);
  }

  /** Column k's filter is exactly its run. */
  lemma {:induction false} RunFilter(s: seq<Item>, k: nat, f: nat, n: nat)
    requires k < 3
    requires IsRun(s, k, f, n)
    ensures Filter(s, ColumnNames[k]) == s[f..f + n]
  {
    var g := ColumnNames[k];
    var a, m, b := s[..f], s[f..f + n], s[f + n..];
    RankOfName(k);
    assert s == a + m + b;
    FilterAppend(a + m, b, g);
    FilterAppend(a, m, g);
    forall i | 0 <= i < |a|
      ensures a[i].groupName != g
    {
      assert a[i] == s[i];
    }
    FilterAbsent(a, g);
    forall i | 0 <= i < |b|
      ensures b[i].groupName != g
    {
      assert b[i] == s[f + n + i];
    }
    FilterAbsent(b, g);
    forall i | 0 <= i < |m|
      ensures m[i].groupName == g
    {
      assert m[i] == s[f + i];
      RankNamesColumn(m[i], k);
    }
    FilterAll(m, g);
  }

  /** A column's run is determined by the store: its offset and length are unique. */
  lemma RunUnique(s: seq<Item>, k: nat, f: nat, n: nat, f': nat, n': nat)
    requires IsRun(s, k, f, n)
    requires IsRun(s, k, f', n')
    ensures f == f' && n == n'
  {
    if f < f' {
      RankAroundRun(s, k, f', n', f);
      assert false;
    } else if f' < f {
      RankAroundRun(s, k, f, n, f');
      assert false;
    }
    if f + n < f' + n' {
      RankAroundRun(s, k, f, n, f + n);
      assert false;
    } else if f' + n' < f + n {
      RankAroundRun(s, k, f', n', f' + n');
      assert false;
    }
  }

  /** Where a card sits relative to column k's run decides how its rank compares with k. */
  lemma RankAroundRun(s: seq<Item>, k: nat, f: nat, n: nat, i: nat)
    requires IsRun(s, k, f, n)
    requires i < |s|
    ensures i < f <==> Rank(s[i].groupName) < k
    ensures f + n <= i <==> k < Rank(s[i].groupName)
  {
  }

  /**
   * Removing a card from outside column k's run: a card before the run shifts
   * it down by one, a card after it leaves it in place.
   */
  lemma RemoveOutsideRun(s: seq<Item>, d: nat, k: nat, f: nat, n: nat)
    requires IsRun(s, k, f, n)
    requires d < |s|
    requires Rank(s[d].groupName) != k
    ensures d < f ==> 0 < f && IsRun(RemoveAt(s, d), k, f - 1, n)
    ensures f <= d ==> f + n <= d && IsRun(RemoveAt(s, d), k, f, n)
  {
    var r := RemoveAt(s, d);
    var f2: nat := if d < f then f - 1 else f;
    forall i | 0 <= i < |r|
      ensures i < f2 ==> Rank(r[i].groupName) < k
      ensures f2 <= i < f2 + n ==> Rank(r[i].groupName) == k
      ensures f2 + n <= i ==> k < Rank(r[i].groupName)
    {
      if i < d {
        assert r[i] == s[i];
      } else {
        assert r[i] == s[i + 1];
      }
    }
  }

  /** A card of rank k inserted just past column k's run extends the run by one. */
  lemma InsertAtRunEnd(s: seq<Item>, k: nat, f: nat, n: nat, x: Item)
    requires IsRun(s, k, f, n)
    requires Rank(x.groupName) == k
    ensures IsRun(InsertAt(s, f + n, x), k, f, n + 1)
  {
    var r := InsertAt(s, f + n, x);
    forall i | 0 <= i < |r|
      ensures i < f ==> Rank(r[i].groupName) < k
      ensures f <= i < f + n + 1 ==> Rank(r[i].groupName) == k
      ensures f + n + 1 <= i ==> k < Rank(r[i].groupName)
    {
      if i < f + n {
        assert r[i] == s[i];
      } else if i > f + n {
        assert r[i] == s[i - 1];
      }
    }
  }

  /**
   * Appending a card to the end of column k's run keeps the store rank-sorted
   * and adds exactly that card to the end of column k.
   */
  lemma AppendToRun(s: seq<Item>, k: nat, f: nat, n: nat, x: Item)
    requires k < 3
    requires RankSorted(s)
    requires IsRun(s, k, f, n)
    requires x.groupName == ColumnNames[k]
    ensures RankSorted(InsertAt(s, f + n, x))
    ensures IsRun(InsertAt(s, f + n, x), k, f, n + 1)
    ensures Filter(InsertAt(s, f + n, x), ColumnNames[k]) == Filter(s, ColumnNames[k]) + [x]
  {
    var r := InsertAt(s, f + n, x);
    RankOfName(k);
    InsertKeepsRankSorted(s, f + n, x);
    InsertAtRunEnd(s, k, f, n, x);
    RunFilter(s, k, f, n);
    RunFilter(r, k, f, n + 1);
    assert r[f..f + n + 1] == s[f..f + n] + [x];
  }

  /** On an arranged store, the position just before a column's run ends is the column's last global index. */
  lemma LastOfRun(s: seq<Item>, k: nat, f: nat, n: nat)
    requires k < 3
    requires Arranged(s)
    requires IsRun(s, k, f, n)
    ensures f + n == Columns(s)[k].firstIndex + |Columns(s)[k].tasks|
  {
    RunBounds(s, k);
    RunUnique(s, k, f, n, Columns(s)[k].firstIndex, |Columns(s)[k].tasks|);
  }
}
