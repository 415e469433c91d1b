/** Client-side sorting (src/lib/hooks/use-sort.ts): two state cells, the field
    to sort by and the direction, a `sort` that copies the list and sorts the
    copy with a three-way comparator on that field, and `toggleSort`, which
    flips the direction on the current field or switches to a new field in
    ascending order.

    A row is any value; `valueOf(row, field)` reads the field the rows are
    compared on (`row[field]`), as a number. */
module Sorting {
  import opened Basics

  datatype Direction = Asc | Desc

  /** The comparator of `sort`: negative when `a` goes first, positive when
      `b` goes first, zero for equal values. */
  function Compare<T>(a: T, b: T, valueOf: (T, string) -> int, field: string, dir: Direction): (c: int)
    ensures c == 0 <==> valueOf(a, field) == valueOf(b, field)
    ensures c > 0 <==> if dir == Asc then valueOf(a, field) > valueOf(b, field)
                                     else valueOf(a, field) < valueOf(b, field)
  {
    var x, y := valueOf(a, field), valueOf(b, field);
    if x < y then (if dir == Asc then -1 else 1)
    else if x > y then (if dir == Asc then 1 else -1)
    else 0
  }

  /** Inserting `x` behind the sorted prefix `t`: `x` moves left past every
      element that the comparator puts after it, and stops behind the first
      one that is not (so equal values keep their order). */
  function Insert<T>(t: seq<T>, x: T, valueOf: (T, string) -> int, field: string, dir: Direction): (r: seq<T>)
    ensures |r| == |t| + 1
  {
    if |t| == 0 || Compare(t[|t| - 1], x, valueOf, field, dir) <= 0 then t + [x]
    else Insert(t[..|t| - 1], x, valueOf, field, dir) + [t[|t| - 1]]
  }

  /** The stable sort of `s` under the comparator: its elements inserted one
      by one, front to back. */
  function SortSpec<T>(s: seq<T>, valueOf: (T, string) -> int, field: string, dir: Direction): (r: seq<T>)
    ensures |r| == |s|
  {
    if |s| == 0 then []
    else Insert(SortSpec(s[..|s| - 1], valueOf, field, dir), s[|s| - 1], valueOf, field, dir)
  }

  /** Keys in the order of the direction: non-decreasing for `Asc`,
      non-increasing for `Desc`. */
  predicate InOrder(u: int, v: int, dir: Direction)
  {
    if dir == Asc then u <= v else u >= v
  }

  predicate Sorted<T>(r: seq<T>, valueOf: (T, string) -> int, field: string, dir: Direction)
  {
    forall i, j :: 0 <= i < j < |r| ==> InOrder(valueOf(r[i], field), valueOf(r[j], field), dir)
  }

  /** The elements of `s` whose field holds `v`, in their order in `s`. */
  function WithValue<T>(s: seq<T>, valueOf: (T, string) -> int, field: string, v: int): seq<T>
  {
    if |s| == 0 then []
    else WithValue(s[..|s| - 1], valueOf, field, v)
         + (if valueOf(s[|s| - 1], field) == v then [s[|s| - 1]] else [])
  }

  /** The copy-and-sort of `sort`: the input is copied into a fresh array,
      which is sorted in place by insertion; the input itself is a value and
      stays as it was. */
  method SortCopy<T>(items: seq<T>, valueOf: (T, string) -> int, field: string, dir: Direction)
    returns (r: seq<T>)
    ensures r == SortSpec(items, valueOf, field, dir)
  {
    var n := |items|;
    var a := new T[n](k requires 0 <= k < n => items[k]);
    var i := 0;
    while i < n
      invariant 0 <= i <= n
      invariant a[..i] == SortSpec(items[..i], valueOf, field, dir)
      invariant forall k :: i <= k < n ==> a[k] == items[k]
    {
      ghost var done := a[..i];
      assert items[..i + 1][..i] == items[..i];
      assert SortSpec(items[..i + 1], valueOf, field, dir) == Insert(done, items[i], valueOf, field, dir);
      InsertLast(a, i, valueOf, field, dir);
      i := i + 1;
    }
    assert items[..n] == items;
    r := a[..];
  }

  /** One step of insertion sort: `a[i]` moves left into the sorted prefix
      `a[..i]`, shifting every element that goes after it one place right. */
  method InsertLast<T>(a: array<T>, i: nat, valueOf: (T, string) -> int, field: string, dir: Direction)
    requires i < a.Length
    modifies a
    ensures a[..i + 1] == Insert(old(a[..i]), old(a[i]), valueOf, field, dir)
    ensures forall k :: i < k < a.Length ==> a[k] == old(a[k])
  {
    ghost var t := a[..i];
    var x := a[i];
    var j := i;
    while j > 0 && Compare(a[j - 1], x, valueOf, field, dir) > 0
      invariant 0 <= j <= i
      invariant forall k :: 0 <= k < j ==> a[k] == t[k]
      invariant forall k :: j < k <= i ==> a[k] == t[k - 1]
      invariant forall k :: i < k < a.Length ==> a[k] == old(a[k])
      invariant forall k :: j <= k < i ==> Compare(t[k], x, valueOf, field, dir) > 0
    {
      a[j] := a[j - 1];
      j := j - 1;
    }
    InsertAt(t, x, j, valueOf, field, dir);
    a[j] := x;
    ghost var want := t[..j] + [x] + t[j..];
    assert forall k :: 0 <= k <= i ==> a[k] == want[k];
    assert a[..i + 1] == want;
  }

  /** Where insertion puts `x`: behind the last element that does not go
      after it, with every later element going after it. */
  lemma {:induction false} InsertAt<T>(t: seq<T>, x: T, j: nat, valueOf: (T, string) -> int, field: string, dir: Direction)
    requires j <= |t|
    requires j == 0 || Compare(t[j - 1], x, valueOf, field, dir) <= 0
    requires forall k :: j <= k < |t| ==> Compare(t[k], x, valueOf, field, dir) > 0
    ensures Insert(t, x, valueOf, field, dir) == t[..j] + [x] + t[j..]
  {
    if j < |t| {
      var front, last := t[..|t| - 1], t[|t| - 1];
      assert Compare(last, x, valueOf, field, dir) > 0;
      assert Insert(t, x, valueOf, field, dir) == Insert(front, x, valueOf, field, dir) + [last];
      InsertAt(front, x, j, valueOf, field, dir);
      assert front[..j] == t[..j] && t[j..] == front[j..] + [last];
    } else {
      assert t[..j] == t;
    }
  }

  // ---------------------------------------------------------------------
  // What the sort promises

  /** Insertion adds exactly `x`. */
  lemma {:induction false} InsertPermutes<T>(t: seq<T>, x: T, valueOf: (T, string) -> int, field: string, dir: Direction)
    ensures multiset(Insert(t, x, valueOf, field, dir)) == multiset(t) + multiset{x}
  {
    if |t| > 0 && Compare(t[|t| - 1], x, valueOf, field, dir) > 0 {
      InsertPermutes(t[..|t| - 1], x, valueOf, field, dir);
      assert t == t[..|t| - 1] + [t[|t| - 1]];
    }
  }

  /** The result is a rearrangement of the input. */
  lemma {:induction false} SortSpecPermutes<T>(s: seq<T>, valueOf: (T, string) -> int, field: string, dir: Direction)
    ensures multiset(SortSpec(s, valueOf, field, dir)) == multiset(s)
  {
    if |s| > 0 {
      SortSpecPermutes(s[..|s| - 1], valueOf, field, dir);
      InsertPermutes(SortSpec(s[..|s| - 1], valueOf, field, dir), s[|s| - 1], valueOf, field, dir);
      assert s == s[..|s| - 1] + [s[|s| - 1]];
    }
  }

  /** Insertion keeps a sorted sequence sorted. */
  lemma {:induction false} InsertSorted<T>(t: seq<T>, x: T, valueOf: (T, string) -> int, field: string, dir: Direction)
    requires Sorted(t, valueOf, field, dir)
    ensures Sorted(Insert(t, x, valueOf, field, dir), valueOf, field, dir)
  {
    var r := Insert(t, x, valueOf, field, dir);
    if |t| == 0 || Compare(t[|t| - 1], x, valueOf, field, dir) <= 0 {
      forall i, j | 0 <= i < j < |r|
        ensures InOrder(valueOf(r[i], field), valueOf(r[j], field), dir)
      {
        if j == |t| && i < |t| - 1 {
          assert InOrder(valueOf(t[i], field), valueOf(t[|t| - 1], field), dir);
        }
      }
    } else {
      var last := t[|t| - 1];
      var front := t[..|t| - 1];
      var u := Insert(front, x, valueOf, field, dir);
      InsertSorted(front, x, valueOf, field, dir);
      InsertPermutes(front, x, valueOf, field, dir);
      assert r == u + [last];
      forall y | y in u
        ensures InOrder(valueOf(y, field), valueOf(last, field), dir)
      {
        assert y in multiset(u);
        if y != x {
          assert y in multiset(front);
          var k :| 0 <= k < |front| && front[k] == y;
          assert t[k] == y;
        }
      }
      forall i, j | 0 <= i < j < |r|
        ensures InOrder(valueOf(r[i], field), valueOf(r[j], field), dir)
      {
        if j == |u| {
          assert r[i] == u[i] && u[i] in u;
        } else {
          assert r[i] == u[i] && r[j] == u[j];
        }
      }
    }
  }

  /** The result is ordered by the field in the chosen direction. */
  lemma {:induction false} SortSpecSorted<T>(s: seq<T>, valueOf: (T, string) -> int, field: string, dir: Direction)
    ensures Sorted(SortSpec(s, valueOf, field, dir), valueOf, field, dir)
  {
    if |s| > 0 {
      SortSpecSorted(s[..|s| - 1], valueOf, field, dir);
      InsertSorted(SortSpec(s[..|s| - 1], valueOf, field, dir), s[|s| - 1], valueOf, field, dir);
    }
  }

  /** Picking out one value distributes over concatenation. */
  lemma {:induction false} WithValueAppend<T>(a: seq<T>, b: seq<T>, valueOf: (T, string) -> int, field: string, v: int)
    ensures WithValue(a + b, valueOf, field, v) == WithValue(a, valueOf, field, v) + WithValue(b, valueOf, field, v)
  {
    if |b| == 0 {
      assert a + b == a;
    } else {
      WithValueAppend(a, b[..|b| - 1], valueOf, field, v);
      assert (a + b)[..|a + b| - 1] == a + b[..|b| - 1];
    }
  }

  /** Insertion puts `x` behind every element with the same value. */
  lemma {:induction false} InsertStable<T>(t: seq<T>, x: T, valueOf: (T, string) -> int, field: string, dir: Direction, v: int)
    ensures WithValue(Insert(t, x, valueOf, field, dir), valueOf, field, v)
         == WithValue(t, valueOf, field, v) + WithValue([x], valueOf, field, v)
  {
    if |t| == 0 || Compare(t[|t| - 1], x, valueOf, field, dir) <= 0 {
      WithValueAppend(t, [x], valueOf, field, v);
    } else {
      var last := t[|t| - 1];
      var front := t[..|t| - 1];
      InsertStable(front, x, valueOf, field, dir, v);
      WithValueAppend(Insert(front, x, valueOf, field, dir), [last], valueOf, field, v);
      WithValueAppend(front, [last], valueOf, field, v);
      assert front + [last] == t;
      assert valueOf(last, field) != valueOf(x, field);
    }
  }

  /** The sort is stable: the rows holding any one value appear in the
      result in the same order as in the input. */
  lemma {:induction false} SortSpecStable<T>(s: seq<T>, valueOf: (T, string) -> int, field: string, dir: Direction, v: int)
    ensures WithValue(SortSpec(s, valueOf, field, dir), valueOf, field, v) == WithValue(s, valueOf, field, v)
  {
    if |s| > 0 {
      var front, x := s[..|s| - 1], s[|s| - 1];
      var sorted := SortSpec(front, valueOf, field, dir);
      assert SortSpec(s, valueOf, field, dir) == Insert(sorted, x, valueOf, field, dir);
      SortSpecStable(front, valueOf, field, dir, v);
      InsertStable(sorted, x, valueOf, field, dir, v);
      assert WithValue(s, valueOf, field, v) == WithValue(front, valueOf, field, v) + WithValue([x], valueOf, field, v) by {
        assert [x][..0] == [];
      }
    }
  }

  // ---------------------------------------------------------------------
  // The state cells

  /** The two cells as a value. */
  datatype SortView = SortView(sortField: Option<string>, direction: Direction)

  /** `toggleSort(field)`: the same field flips the direction, another field
      becomes the sort field in ascending order. */
  function Toggled(v: SortView, field: string): (w: SortView)
    ensures v.sortField == Some(field) ==> w.sortField == v.sortField && w.direction != v.direction
    ensures v.sortField != Some(field) ==> w == SortView(Some(field), Asc)
  {
    if v.sortField == Some(field) then
      SortView(v.sortField, if v.direction == Asc then Desc else Asc)
    else SortView(Some(field), Asc)
  }

  /** `if (!sortField)`: no field, or the empty name, means no sorting. */
  predicate Active(sortField: Option<string>)
  {
    sortField.Some? && sortField.value != ""
  }

  /** Toggling the current field twice restores both cells. */
  lemma ToggleTwice(v: SortView, field: string)
    requires v.sortField == Some(field)
    ensures Toggled(Toggled(v, field), field) == v
  {
  }

  /** Toggling a new field twice ends descending on that field. */
  lemma ToggleNewFieldTwice(v: SortView, field: string)
    requires v.sortField != Some(field)
    ensures Toggled(Toggled(v, field), field) == SortView(Some(field), Desc)
  {
  }

  class Sorter {
    var sortField: Option<string>
    var direction: Direction

    /** The field starts as given (or unset) and the direction as given,
        ascending by default. */
    constructor (initialSortField: Option<string>, initialDirection: Option<Direction>)
      ensures sortField == initialSortField
      ensures direction == if initialDirection.Some? then initialDirection.value else Asc
    {
      sortField := initialSortField;
      direction := if initialDirection.Some? then initialDirection.value else Asc;
    }

    function View(): SortView
      reads this
    {
      SortView(sortField, direction)
    }

    /** `toggleSort`. */
    method ToggleSort(field: string)
      modifies this
      ensures View() == Toggled(old(View()), field)
    {
      if Some(field) == sortField {
        direction := if direction == Asc then Desc else Asc;
      } else {
        sortField := Some(field);
        direction := Asc;
      }
    }

    /** `sort`: the list unchanged when no field is set, else a sorted
        copy. */
    method Sort<T>(items: seq<T>, valueOf: (T, string) -> int) returns (r: seq<T>)
      ensures !Active(sortField) ==> r == items
      ensures Active(sortField) ==> multiset(r) == multiset(items)
      ensures Active(sortField) ==> Sorted(r, valueOf, sortField.value, direction)
      ensures Active(sortField) ==> forall v ::
        WithValue(r, valueOf, sortField.value, v) == WithValue(items, valueOf, sortField.value, v)
    {
      if !Active(sortField) {
        return items;
      }
      r := SortCopy(items, valueOf, sortField.value, direction);
      SortSpecPermutes(items, valueOf, sortField.value, direction);
      SortSpecSorted(items, valueOf, sortField.value, direction);
      forall v
        ensures WithValue(r, valueOf, sortField.value, v) == WithValue(items, valueOf, sortField.value, v)
      {
        SortSpecStable(items, valueOf, sortField.value, direction, v);
      }
    }
  }
}
