/**
 * The stable comparison sort behind `Array.prototype.sort`, over an abstract
 * total preorder `le` ("a may come before b"). Used by the table sort of the
 * task list and by the category list kept in collation order.
 */
module Sorting {

  /** `le` is reflexive, transitive and relates every pair one way or the other. */
  ghost predicate TotalPreorder<T(!new)>(le: (T, T) -> bool) {
    && (forall x :: le(x, x))
    && (forall x, y, z :: le(x, y) && le(y, z) ==> le(x, z))
    && (forall x, y :: le(x, y) || le(y, x))
  }

  ghost predicate SortedBy<T>(s: seq<T>, le: (T, T) -> bool) {
    forall i, j :: 0 <= i < j < |s| ==> le(s[i], s[j])
  }

  /** `a` sorts strictly before `b`. */
  predicate Before<T>(le: (T, T) -> bool, a: T, b: T) {
    le(a, b) && !le(b, a)
  }

  /**
   * Inserts `x` into the sorted `s` after every element that does not sort
   * strictly after it, so equal elements keep their arrival order.
   */
  function Insert<T(!new)>(x: T, s: seq<T>, le: (T, T) -> bool): (r: seq<T>)
    requires TotalPreorder(le)
    requires SortedBy(s, le)
    ensures SortedBy(r, le)
    ensures multiset(r) == multiset(s) + multiset{x}
    ensures |r| == |s| + 1
  {
    if s == [] then [x]
    else if Before(le, x, s[0]) then [x] + s
    else
      var tail := Insert(x, s[1..], le);
      HeadBeforeAll(s[0], x, s[1..], tail, le);
      assert s == [s[0]] + s[1..];
      [s[0]] + tail
  }

  /** Every element of `tail` (a permutation of `rest` plus `x`) follows `h`. */
  lemma HeadBeforeAll<T(!new)>(h: T, x: T, rest: seq<T>, tail: seq<T>, le: (T, T) -> bool)
    requires TotalPreorder(le)
    requires le(h, x)
    requires forall k :: 0 <= k < |rest| ==> le(h, rest[k])
    requires SortedBy(tail, le)
    requires multiset(tail) == multiset(rest) + multiset{x}
    ensures SortedBy([h] + tail, le)
  {
    forall k | 0 <= k < |tail|
      ensures le(h, tail[k])
    {
      assert tail[k] in multiset(tail);
      if tail[k] != x {
        assert tail[k] in multiset(rest);
        var m :| 0 <= m < |rest| && rest[m] == tail[k];
      }
    }
  }

  /** The elements of `s` that tie with `x` under `le`, in their order in `s`. */
  function Ties<T>(s: seq<T>, x: T, le: (T, T) -> bool): seq<T> {
    if s == [] then []
    else (if le(s[0], x) && le(x, s[0]) then [s[0]] else []) + Ties(s[1..], x, le)
  }

  /** Ties split over concatenation. */
  lemma {:induction false} TiesAppend<T>(a: seq<T>, b: seq<T>, x: T, le: (T, T) -> bool)
    ensures Ties(a + b, x, le) == Ties(a, x, le) + Ties(b, x, le)
  {
    if a == [] {
      assert a + b == b;
    } else {
      assert (a + b)[1..] == a[1..] + b;
      TiesAppend(a[1..], b, x, le);
    }
  }

  /** The tail of a sorted sequence is sorted. */
  lemma SortedTail<T>(s: seq<T>, le: (T, T) -> bool)
    requires s != [] && SortedBy(s, le)
    ensures SortedBy(s[1..], le)
  {
    forall i, j | 0 <= i < j < |s[1..]|
      ensures le(s[1..][i], s[1..][j])
    {
      assert s[1..][i] == s[i + 1] && s[1..][j] == s[j + 1];
    }
  }

  /** Nothing in a sorted `s` whose head sorts strictly after `y` ties with an element that ties with `y`. */
  lemma {:induction false} NoTiesAfter<T(!new)>(y: T, s: seq<T>, x: T, le: (T, T) -> bool)
    requires TotalPreorder(le)
    requires SortedBy(s, le)
    requires s != [] && Before(le, y, s[0])
    requires le(y, x) && le(x, y)
    ensures Ties(s, x, le) == []
  {
    if |s| > 1 {
      SortedTail(s, le);
      assert le(s[0], s[1]);
      NoTiesAfter(y, s[1..], x, le);
    }
  }

  /** An element inserted in front of the sorted `s` ties with nothing in `s`, so it still ends its ties. */
  lemma InsertTiesFront<T(!new)>(y: T, s: seq<T>, x: T, le: (T, T) -> bool)
    requires TotalPreorder(le)
    requires SortedBy(s, le)
    requires s != [] && Before(le, y, s[0])
    ensures Ties([y] + s, x, le) == Ties(s, x, le) + Ties([y], x, le)
  {
    TiesAppend([y], s, x, le);
    if le(y, x) && le(x, y) {
      NoTiesAfter(y, s, x, le);
    }
  }

  /** When `y` does not sort strictly before the head, insertion keeps the head and inserts into the tail. */
  lemma InsertBehindHead<T(!new)>(y: T, s: seq<T>, le: (T, T) -> bool)
    requires TotalPreorder(le)
    requires SortedBy(s, le)
    requires s != [] && !Before(le, y, s[0])
    ensures SortedBy(s[1..], le)
    ensures Insert(y, s, le) == [s[0]] + Insert(y, s[1..], le)
  {
    SortedTail(s, le);
  }

  /** Putting the same head in front of both sides keeps a ties equation. */
  lemma TiesCons<T>(h: T, tail: seq<T>, rest: seq<T>, y: T, x: T, le: (T, T) -> bool)
    requires Ties(tail, x, le) == Ties(rest, x, le) + Ties([y], x, le)
    ensures Ties([h] + tail, x, le) == Ties([h] + rest, x, le) + Ties([y], x, le)
  {
    TiesAppend([h], tail, x, le);
    TiesAppend([h], rest, x, le);
  }

  /** Inserting `y` puts it after every element it ties with. */
  lemma {:induction false} InsertTies<T(!new)>(y: T, s: seq<T>, x: T, le: (T, T) -> bool)
    requires TotalPreorder(le)
    requires SortedBy(s, le)
    ensures Ties(Insert(y, s, le), x, le) == Ties(s, x, le) + Ties([y], x, le)
  {
    if s == [] {
    } else if Before(le, y, s[0]) {
      InsertTiesFront(y, s, x, le);
    } else {
      InsertBehindHead(y, s, le);
      InsertTies(y, s[1..], x, le);
      TiesCons(s[0], Insert(y, s[1..], le), s[1..], y, x, le);
      assert s == [s[0]] + s[1..];
    }
  }

  /** Sorting is stable: the elements that tie with any `x` keep their order. */
  lemma {:induction false} SortStable<T(!new)>(s: seq<T>, x: T, le: (T, T) -> bool)
    requires TotalPreorder(le)
    ensures Ties(Sort(s, le), x, le) == Ties(s, x, le)
  {
    if s != [] {
      var init, last := s[..|s| - 1], s[|s| - 1];
      assert s == init + [last];
      SortStable(init, x, le);
      InsertTies(last, Sort(init, le), x, le);
      TiesAppend(init, [last], x, le);
    }
  }

  /** Sorts `s` by `le`, stably, as insertion sort does. */
  function Sort<T(!new)>(s: seq<T>, le: (T, T) -> bool): (r: seq<T>)
    requires TotalPreorder(le)
    ensures SortedBy(r, le)
    ensures multiset(r) == multiset(s)
    ensures |r| == |s|
  {
    if s == [] then []
    else
      assert s == s[..|s| - 1] + [s[|s| - 1]];
      Insert(s[|s| - 1], Sort(s[..|s| - 1], le), le)
  }

  /** An element that nothing in `s` sorts strictly after is inserted at the end. */
  lemma {:induction false} InsertAtEnd<T(!new)>(x: T, s: seq<T>, le: (T, T) -> bool)
    requires TotalPreorder(le)
    requires SortedBy(s, le)
    requires forall k :: 0 <= k < |s| ==> le(s[k], x)
    ensures Insert(x, s, le) == s + [x]
  {
    if s != [] {
      assert !Before(le, x, s[0]);
      InsertAtEnd(x, s[1..], le);
      assert s == [s[0]] + s[1..];
    }
  }

  /** Sorting a sequence that is already sorted leaves it as it is. */
  lemma {:induction false} SortSorted<T(!new)>(s: seq<T>, le: (T, T) -> bool)
    requires TotalPreorder(le)
    requires SortedBy(s, le)
    ensures Sort(s, le) == s
  {
    if s != [] {
      var init, last := s[..|s| - 1], s[|s| - 1];
      assert s == init + [last];
      assert SortedBy(init, le) by {
        forall i, j | 0 <= i < j < |init|
          ensures le(init[i], init[j])
        {
          assert init[i] == s[i] && init[j] == s[j];
        }
      }
      assert forall k :: 0 <= k < |init| ==> le(init[k], last) by {
        forall k | 0 <= k < |init|
          ensures le(init[k], last)
        {
          assert init[k] == s[k];
        }
      }
      SortSorted(init, le);
      InsertAtEnd(last, init, le);
      assert Sort(s, le) == Insert(last, Sort(init, le), le);
    }
  }

  /** Sorting twice is sorting once. */
  lemma SortIdempotent<T(!new)>(s: seq<T>, le: (T, T) -> bool)
    requires TotalPreorder(le)
    ensures Sort(Sort(s, le), le) == Sort(s, le)
  {
    SortSorted(Sort(s, le), le);
  }
}
