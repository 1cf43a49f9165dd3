/** The stable sort behind `list.sort(key=...)` and `sorted(..., key=...)`; `less` compares the keys. */
module Sorting {

  ghost predicate Strict<T(!new)>(less: (T, T) -> bool) {
    && (forall a, b :: less(a, b) ==> !less(b, a))
    && (forall a, b, c :: !less(b, a) && !less(c, b) ==> !less(c, a))
  }

  predicate Ordered<T>(xs: seq<T>, less: (T, T) -> bool) {
    forall i, j :: 0 <= i < j < |xs| ==> !less(xs[j], xs[i])
  }

  function Insert<T>(xs: seq<T>, x: T, less: (T, T) -> bool): (r: seq<T>)
    ensures |r| == |xs| + 1
  {
    if xs != [] && less(x, xs[|xs| - 1]) then Insert(xs[..|xs| - 1], x, less) + [xs[|xs| - 1]] else xs + [x]
  }

  function Sorted<T>(xs: seq<T>, less: (T, T) -> bool): (r: seq<T>)
    ensures |r| == |xs|
  {
    if xs == [] then [] else Insert(Sorted(xs[..|xs| - 1], less), xs[|xs| - 1], less)
  }

  function Filter<T>(xs: seq<T>, keep: T -> bool): seq<T> {
    if xs == [] then [] else Filter(xs[..|xs| - 1], keep) + if keep(xs[|xs| - 1]) then [xs[|xs| - 1]] else []
  }

  lemma AppendOrdered<T>(xs: seq<T>, x: T, less: (T, T) -> bool)
    requires Ordered(xs, less) && forall y :: y in xs ==> !less(x, y)
    ensures Ordered(xs + [x], less)
  {
  }

  lemma {:induction false} InsertKeeps<T>(xs: seq<T>, x: T, less: (T, T) -> bool)
    ensures multiset(Insert(xs, x, less)) == multiset(xs) + multiset{x}
  {
    if xs != [] && less(x, xs[|xs| - 1]) {
      var front, last := xs[..|xs| - 1], xs[|xs| - 1];
      InsertKeeps(front, x, less);
      assert xs == front + [last];
    }
  }

  lemma {:induction false} InsertOrders<T(!new)>(xs: seq<T>, x: T, less: (T, T) -> bool)
    requires Strict(less) && Ordered(xs, less)
    ensures Ordered(Insert(xs, x, less), less)
  {
    if xs != [] {
      var n := |xs| - 1;
      var front, last := xs[..n], xs[n];
      assert xs == front + [last];
      if less(x, last) {
        InsertOrders(front, x, less);
        InsertKeeps(front, x, less);
        forall y | y in Insert(front, x, less) ensures !less(last, y) {
          assert y in multiset(Insert(front, x, less));
        }
        AppendOrdered(Insert(front, x, less), last, less);
      } else {
        AppendOrdered(xs, x, less);
      }
    }
  }

  lemma OneMore<T>(front: seq<T>, last: T)
    ensures multiset(front + [last]) == multiset(front) + multiset{last}
  {
  }

  lemma SortedStep<T>(front: seq<T>, last: T, sorted: seq<T>, less: (T, T) -> bool)
    requires multiset(sorted) == multiset(front)
    ensures multiset(Insert(sorted, last, less)) == multiset(front + [last])
  {
    InsertKeeps(sorted, last, less);
    OneMore(front, last);
  }

  lemma SortedSnoc<T>(front: seq<T>, last: T, less: (T, T) -> bool)
    ensures Sorted(front + [last], less) == Insert(Sorted(front, less), last, less)
  {
    assert (front + [last])[..|front|] == front;
  }

  lemma {:induction false} SortedKeeps<T>(xs: seq<T>, less: (T, T) -> bool)
    ensures multiset(Sorted(xs, less)) == multiset(xs)
  {
    if xs != [] {
      var front, last := xs[..|xs| - 1], xs[|xs| - 1];
      assert front + [last] == xs;
      SortedKeeps(front, less);
      SortedSnoc(front, last, less);
      SortedStep(front, last, Sorted(front, less), less);
    }
  }

  lemma SameMembers<T(!new)>(a: seq<T>, b: seq<T>)
    requires multiset(a) == multiset(b)
    ensures |a| == |b| && forall x :: x in a <==> x in b
  {
    assert |a| == |multiset(a)| && |b| == |multiset(b)|;
    assert forall x :: x in a <==> x in multiset(a);
    assert forall x :: x in b <==> x in multiset(b);
  }

  lemma {:induction false} SortedIsOrdered<T(!new)>(xs: seq<T>, less: (T, T) -> bool)
    requires Strict(less)
    ensures Ordered(Sorted(xs, less), less)
  {
    if xs != [] {
      SortedIsOrdered(xs[..|xs| - 1], less);
      InsertOrders(Sorted(xs[..|xs| - 1], less), xs[|xs| - 1], less);
    }
  }

  lemma FilterSnoc<T>(xs: seq<T>, x: T, keep: T -> bool)
    ensures Filter(xs + [x], keep) == Filter(xs, keep) + if keep(x) then [x] else []
  {
    assert (xs + [x])[..|xs|] == xs;
  }

  lemma {:induction false} InsertIsStable<T(!new)>(xs: seq<T>, x: T, less: (T, T) -> bool, keep: T -> bool)
    requires forall a, b :: keep(a) && keep(b) ==> !less(a, b)
    ensures Filter(Insert(xs, x, less), keep) == Filter(xs + [x], keep)
  {
    FilterSnoc(xs, x, keep);
    if xs != [] && less(x, xs[|xs| - 1]) {
      var n := |xs| - 1;
      InsertIsStable(xs[..n], x, less, keep);
      FilterSnoc(xs[..n], x, keep);
      FilterSnoc(Insert(xs[..n], x, less), xs[n], keep);
    }
  }

  /** Elements of equal keys keep their order. */
  lemma {:induction false} SortedIsStable<T(!new)>(xs: seq<T>, less: (T, T) -> bool, keep: T -> bool)
    requires forall a, b :: keep(a) && keep(b) ==> !less(a, b)
    ensures Filter(Sorted(xs, less), keep) == Filter(xs, keep)
  {
    if xs != [] {
      var n := |xs| - 1;
      SortedIsStable(xs[..n], less, keep);
      InsertIsStable(Sorted(xs[..n], less), xs[n], less, keep);
      FilterSnoc(Sorted(xs[..n], less), xs[n], keep);
    }
  }

  // ---------------------------------------------------------------------------------------------
  // Which of two elements comes first
  // ---------------------------------------------------------------------------------------------

  ghost predicate Before<T(!new)>(xs: seq<T>, a: T, b: T) {
    exists i, j :: 0 <= i < j < |xs| && xs[i] == a && xs[j] == b
  }

  lemma BeforeAppend<T(!new)>(xs: seq<T>, x: T, a: T, b: T)
    requires Before(xs, a, b) || (a in xs && b == x)
    ensures Before(xs + [x], a, b)
  {
    var ys := xs + [x];
    if Before(xs, a, b) {
      var i, j :| 0 <= i < j < |xs| && xs[i] == a && xs[j] == b;
      assert ys[i] == a && ys[j] == b;
    } else {
      var i :| 0 <= i < |xs| && xs[i] == a;
      assert ys[i] == a && ys[|xs|] == b;
    }
  }

  lemma BeforeFront<T(!new)>(front: seq<T>, last: T, a: T, b: T)
    requires Before(front + [last], a, b)
    ensures Before(front, a, b) || (a in front && b == last)
  {
    var i, j :| 0 <= i < j < |front + [last]| && (front + [last])[i] == a && (front + [last])[j] == b;
    assert front[i] == a;
    if j < |front| {
      assert front[j] == b;
    }
  }

  lemma {:induction false} InsertMembers<T(!new)>(xs: seq<T>, x: T, less: (T, T) -> bool, y: T)
    ensures y in Insert(xs, x, less) <==> y == x || y in xs
  {
    if xs != [] && less(x, xs[|xs| - 1]) {
      InsertMembers(xs[..|xs| - 1], x, less, y);
      assert xs == xs[..|xs| - 1] + [xs[|xs| - 1]];
    }
  }

  /** Inserting moves no two elements past each other. */
  lemma {:induction false} InsertKeepsBefore<T(!new)>(xs: seq<T>, x: T, less: (T, T) -> bool, a: T, b: T)
    requires Before(xs, a, b)
    ensures Before(Insert(xs, x, less), a, b)
  {
    var front, last := xs[..|xs| - 1], xs[|xs| - 1];
    assert xs == front + [last];
    if less(x, last) {
      BeforeFront(front, last, a, b);
      InsertMembers(front, x, less, a);
      if Before(front, a, b) {
        InsertKeepsBefore(front, x, less, a, b);
      }
      BeforeAppend(Insert(front, x, less), last, a, b);
    } else {
      BeforeAppend(xs, x, a, b);
    }
  }

  /** The new element goes behind those that are not greater, and before those that are. */
  lemma {:induction false} InsertPlaces<T(!new)>(xs: seq<T>, x: T, less: (T, T) -> bool, y: T)
    requires Strict(less) && Ordered(xs, less) && y in xs
    ensures if less(x, y) then Before(Insert(xs, x, less), x, y) else Before(Insert(xs, x, less), y, x)
  {
    var front, last := xs[..|xs| - 1], xs[|xs| - 1];
    assert xs == front + [last];
    if !less(x, last) {
      var i :| 0 <= i < |xs| && xs[i] == y;
      assert i < |front| ==> !less(last, y);
      BeforeAppend(xs, x, y, x);
    } else {
      InsertMembers(front, x, less, x);
      if y in front {
        InsertPlaces(front, x, less, y);
        BeforeAppend(Insert(front, x, less), last, if less(x, y) then x else y, if less(x, y) then y else x);
      } else {
        BeforeAppend(Insert(front, x, less), last, x, y);
      }
    }
  }

  lemma LastPlaced<T(!new)>(front: seq<T>, last: T, less: (T, T) -> bool, i: nat)
    requires Strict(less) && i < |front|
    ensures var r := Sorted(front + [last], less);
            if less(last, front[i]) then Before(r, last, front[i]) else Before(r, front[i], last)
  {
    SortedIsOrdered(front, less);
    SortedKeeps(front, less);
    SameMembers(Sorted(front, less), front);
    SortedSnoc(front, last, less);
    InsertPlaces(Sorted(front, less), last, less, front[i]);
  }

  /** The earlier one of two elements stays first exactly when the other is not less. */
  lemma {:induction false} SortedBefore<T(!new)>(xs: seq<T>, less: (T, T) -> bool, i: nat, j: nat)
    requires Strict(less) && i < j < |xs|
    ensures if less(xs[j], xs[i]) then Before(Sorted(xs, less), xs[j], xs[i]) else Before(Sorted(xs, less), xs[i], xs[j])
  {
    var front, last := xs[..|xs| - 1], xs[|xs| - 1];
    SortedIsOrdered(front, less);
    if j < |front| {
      SortedBefore(front, less, i, j);
      if less(xs[j], xs[i]) {
        InsertKeepsBefore(Sorted(front, less), last, less, xs[j], xs[i]);
      } else {
        InsertKeepsBefore(Sorted(front, less), last, less, xs[i], xs[j]);
      }
    } else {
      LastPlaced(front, last, less, i);
      assert xs == front + [last];
    }
  }
}
