/** Sorting lists whose elements are pairwise comparable: the result is the only ascending list of them. */
module StrictSort {

  ghost predicate IsOrder<T(!new)>(less: (T, T) -> bool)
  {
    && (forall a, b :: less(a, b) ==> !less(b, a))
    && forall a, b, c :: less(a, b) && less(b, c) ==> less(a, c)
  }

  ghost predicate Ascending<T>(less: (T, T) -> bool, xs: seq<T>)
  {
    forall i, j :: 0 <= i < j < |xs| ==> less(xs[i], xs[j])
  }

  ghost predicate Comparable<T>(less: (T, T) -> bool, xs: seq<T>)
  {
    forall i, j :: 0 <= i < j < |xs| ==> less(xs[i], xs[j]) || less(xs[j], xs[i])
  }

  function Insert<T(!new)>(less: (T, T) -> bool, x: T, xs: seq<T>): (r: seq<T>)
    ensures |r| == |xs| + 1
    ensures forall y :: y in r <==> y == x || y in xs
  {
    if xs == [] || less(x, xs[0]) then [x] + xs else [xs[0]] + Insert(less, x, xs[1..])
  }

  function Sort<T(!new)>(less: (T, T) -> bool, xs: seq<T>): (r: seq<T>)
    ensures |r| == |xs|
    ensures forall y :: y in r <==> y in xs
  {
    if xs == [] then [] else Insert(less, xs[0], Sort(less, xs[1..]))
  }

  lemma AscendingCons<T(!new)>(less: (T, T) -> bool, x: T, xs: seq<T>)
    requires Ascending(less, xs) && forall y :: y in xs ==> less(x, y)
    ensures Ascending(less, [x] + xs)
  {
    assert forall i :: 0 <= i < |xs| ==> xs[i] in xs;
  }

  lemma {:induction false} InsertAscending<T(!new)>(less: (T, T) -> bool, x: T, xs: seq<T>)
    requires IsOrder(less) && Ascending(less, xs)
    requires forall y :: y in xs ==> less(x, y) || less(y, x)
    ensures Ascending(less, Insert(less, x, xs))
  {
    if xs == [] {
    } else if less(x, xs[0]) {
      forall y | y in xs ensures less(x, y) {
        var j :| 0 <= j < |xs| && xs[j] == y;
        assert j > 0 ==> less(xs[0], xs[j]);
      }
      AscendingCons(less, x, xs);
    } else {
      assert xs[0] in xs;
      InsertAscending(less, x, xs[1..]);
      forall y | y in Insert(less, x, xs[1..]) ensures less(xs[0], y) {
        if y in xs[1..] {
          var j :| 0 <= j < |xs[1..]| && xs[1..][j] == y;
          assert less(xs[0], xs[j + 1]);
        }
      }
      AscendingCons(less, xs[0], Insert(less, x, xs[1..]));
    }
  }

  lemma {:induction false} SortAscending<T(!new)>(less: (T, T) -> bool, xs: seq<T>)
    requires IsOrder(less) && Comparable(less, xs)
    ensures Ascending(less, Sort(less, xs))
  {
    if xs != [] {
      assert forall i, j :: 0 <= i < j < |xs[1..]| ==> xs[1..][i] == xs[i + 1] && xs[1..][j] == xs[j + 1];
      SortAscending(less, xs[1..]);
      forall y | y in Sort(less, xs[1..]) ensures less(xs[0], y) || less(y, xs[0]) {
        assert y in xs[1..];
        var j :| 0 <= j < |xs[1..]| && xs[1..][j] == y;
        assert xs[j + 1] == y;
      }
      InsertAscending(less, xs[0], Sort(less, xs[1..]));
    }
  }

  /** An ascending list is determined by the set of its elements. */
  lemma {:induction false} AscendingUnique<T(!new)>(less: (T, T) -> bool, a: seq<T>, b: seq<T>)
    requires IsOrder(less) && Ascending(less, a) && Ascending(less, b)
    requires forall x :: x in a <==> x in b
    ensures a == b
  {
    if a == [] {
      if b != [] {
        HasElement(b);
      }
    } else {
      assert a[0] in b && b != [];
      assert b[0] in a;
      SameHead(less, a, b);
      forall x ensures x in a[1..] <==> x in b[1..] {
        HeadIsNotInTail(less, a);
        HeadIsNotInTail(less, b);
        assert x in a <==> x == a[0] || x in a[1..];
        assert x in b <==> x == b[0] || x in b[1..];
      }
      AscendingUnique(less, a[1..], b[1..]);
    }
  }

  lemma HasElement<T(!new)>(a: seq<T>)
    requires a != []
    ensures exists x :: x in a
  {
    assert a[0] in a;
  }

  lemma SameHead<T(!new)>(less: (T, T) -> bool, a: seq<T>, b: seq<T>)
    requires IsOrder(less) && Ascending(less, a) && Ascending(less, b)
    requires a != [] && b != [] && a[0] in b && b[0] in a
    ensures a[0] == b[0]
  {
    var i :| 0 <= i < |a| && a[i] == b[0];
    var j :| 0 <= j < |b| && b[j] == a[0];
    assert i > 0 ==> less(a[0], a[i]);
    assert j > 0 ==> less(b[0], b[j]);
  }

  lemma HeadIsNotInTail<T(!new)>(less: (T, T) -> bool, a: seq<T>)
    requires IsOrder(less) && Ascending(less, a) && a != []
    ensures a[0] !in a[1..]
  {
    assert forall j :: 0 <= j < |a[1..]| ==> a[1..][j] == a[j + 1] && less(a[0], a[j + 1]);
  }
}
