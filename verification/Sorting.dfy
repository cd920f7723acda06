/** Stable sorting by a total preorder, standing for the sort package and for
    ORDER BY: what comes out is in order, holds the same elements, and leaves
    elements that compare equal in the order they came. */
module Sorting {

  ghost predicate TotalPreorder<T(!new)>(le: (T, T) -> bool) {
    && (forall x, y :: le(x, y) || le(y, x))
    && (forall x, y, z :: le(x, y) && le(y, z) ==> le(x, z))
  }

  ghost predicate SortedBy<T>(xs: seq<T>, le: (T, T) -> bool) {
    forall i, j | 0 <= i < j < |xs| :: le(xs[i], xs[j])
  }

  /** Puts x before the first element that is not smaller. */
  function Insert<T>(x: T, xs: seq<T>, le: (T, T) -> bool): (r: seq<T>)
    ensures multiset(r) == multiset(xs) + multiset{x}
  {
    if xs == [] then [x]
    else if le(x, xs[0]) then [x] + xs
    else
      assert xs == [xs[0]] + xs[1..];
      [xs[0]] + Insert(x, xs[1..], le)
  }

  function StableSort<T>(xs: seq<T>, le: (T, T) -> bool): (r: seq<T>)
    ensures multiset(r) == multiset(xs)
  {
    if xs == [] then []
    else
      assert xs == [xs[0]] + xs[1..];
      Insert(xs[0], StableSort(xs[1..], le), le)
  }

  lemma SortKeepsElements<T>(xs: seq<T>, le: (T, T) -> bool)
    ensures |StableSort(xs, le)| == |xs|
    ensures forall x :: x in StableSort(xs, le) <==> x in xs
  {
    var r := StableSort(xs, le);
    assert |multiset(r)| == |multiset(xs)|;
    forall x ensures x in r <==> x in xs {
      assert x in r <==> x in multiset(r);
      assert x in xs <==> x in multiset(xs);
    }
  }

  /** The order of a stable sort: x strictly below y, or equal and x R y. */
  predicate Before<T>(x: T, y: T, le: (T, T) -> bool, R: (T, T) -> bool) {
    le(x, y) && (le(y, x) ==> R(x, y))
  }

  ghost predicate InOrder<T>(xs: seq<T>, le: (T, T) -> bool, R: (T, T) -> bool) {
    forall i, j | 0 <= i < j < |xs| :: Before(xs[i], xs[j], le, R)
  }

  lemma {:induction false} InsertInOrder<T(!new)>(x: T, xs: seq<T>, le: (T, T) -> bool, R: (T, T) -> bool)
    requires TotalPreorder(le)
    requires InOrder(xs, le, R)
    requires forall y | y in xs :: R(x, y)
    ensures InOrder(Insert(x, xs, le), le, R)
  {
    if xs == [] || le(x, xs[0]) {
      var r := [x] + xs;
      forall i, j | 0 <= i < j < |r| ensures Before(r[i], r[j], le, R) {
        if i == 0 {
          assert r[j] == xs[j - 1] && r[j] in xs;
          assert j == 1 || Before(xs[0], xs[j - 1], le, R);
        }
      }
      assert Insert(x, xs, le) == r;
    } else {
      var rest := Insert(x, xs[1..], le);
      InsertInOrder(x, xs[1..], le, R);
      var r := [xs[0]] + rest;
      forall j | 1 <= j < |r| ensures Before(r[0], r[j], le, R) {
        assert r[j] in multiset(rest);
        assert r[j] == x || r[j] in xs[1..];
      }
    }
  }

  /** Stability: whatever relation R the input order respects, ties keep it. */
  lemma {:induction false} SortInOrder<T(!new)>(xs: seq<T>, le: (T, T) -> bool, R: (T, T) -> bool)
    requires TotalPreorder(le)
    requires forall i, j | 0 <= i < j < |xs| :: R(xs[i], xs[j])
    ensures InOrder(StableSort(xs, le), le, R)
  {
    if xs != [] {
      SortInOrder(xs[1..], le, R);
      forall y | y in StableSort(xs[1..], le) ensures R(xs[0], y) {
        SortKeepsElements(xs[1..], le);
        var j :| 0 <= j < |xs[1..]| && xs[1..][j] == y;
        assert y == xs[j + 1];
      }
      InsertInOrder(xs[0], StableSort(xs[1..], le), le, R);
    }
  }

  lemma SortIsSorted<T(!new)>(xs: seq<T>, le: (T, T) -> bool)
    requires TotalPreorder(le)
    ensures SortedBy(StableSort(xs, le), le)
  {
    SortInOrder(xs, le, (x, y) => true);
  }

  lemma HeadIsLeast<T(!new)>(xs: seq<T>, x: T, le: (T, T) -> bool)
    requires TotalPreorder(le) && SortedBy(xs, le) && x in xs
    ensures le(xs[0], x)
  {
    var i :| 0 <= i < |xs| && xs[i] == x;
    assert le(x, x);
  }

  lemma DropHead<T>(xs: seq<T>)
    requires xs != []
    ensures multiset(xs[1..]) == multiset(xs) - multiset{xs[0]}
  {
    assert xs == [xs[0]] + xs[1..];
  }

  /** Taking one equal element out of two permutations leaves permutations. */
  lemma TakeOut<T>(xs: seq<T>, ys: seq<T>, i: nat)
    requires xs != [] && i < |ys| && ys[i] == xs[0] && multiset(xs) == multiset(ys)
    ensures multiset(ys[..i] + ys[i + 1..]) == multiset(xs[1..])
  {
    assert ys == ys[..i] + ([ys[i]] + ys[i + 1..]);
    assert multiset(ys) == multiset(ys[..i]) + multiset{ys[i]} + multiset(ys[i + 1..]);
    assert multiset(ys[..i] + ys[i + 1..]) == multiset(ys[..i]) + multiset(ys[i + 1..]);
    assert xs == [xs[0]] + xs[1..];
    assert multiset(xs) == multiset{xs[0]} + multiset(xs[1..]);
    assert multiset(ys[..i]) + multiset(ys[i + 1..]) == multiset(ys) - multiset{ys[i]};
  }

  lemma TailSorted<T>(xs: seq<T>, le: (T, T) -> bool)
    requires SortedBy(xs, le) && xs != []
    ensures SortedBy(xs[1..], le)
  {
    assert forall i | 0 <= i < |xs[1..]| :: xs[1..][i] == xs[i + 1];
  }

  ghost predicate NeverTies<T>(xs: seq<T>, le: (T, T) -> bool) {
    forall x, y | x in xs && y in xs && le(x, y) && le(y, x) :: x == y
  }

  /** An order that never ties determines the sorted sequence. */
  lemma {:induction false} SortedUnique<T(!new)>(xs: seq<T>, ys: seq<T>, le: (T, T) -> bool)
    requires TotalPreorder(le) && NeverTies(xs, le)
    requires multiset(xs) == multiset(ys)
    requires SortedBy(xs, le) && SortedBy(ys, le)
    ensures xs == ys
  {
    hide TotalPreorder, SortedBy, NeverTies;
    assert |xs| == |multiset(xs)| == |ys|;
    if xs != [] {
      SameLeast(xs, ys, le);
      TailSorted(xs, le);
      TailSorted(ys, le);
      TailNeverTies(xs, le);
      DropHead(xs);
      DropHead(ys);
      SortedUnique(xs[1..], ys[1..], le);
      assert xs == [xs[0]] + xs[1..] && ys == [ys[0]] + ys[1..];
    }
  }

  lemma TailNeverTies<T>(xs: seq<T>, le: (T, T) -> bool)
    requires NeverTies(xs, le) && xs != []
    ensures NeverTies(xs[1..], le)
  {
    assert forall x | x in xs[1..] :: x in xs;
  }

  lemma SameLeast<T(!new)>(xs: seq<T>, ys: seq<T>, le: (T, T) -> bool)
    requires TotalPreorder(le) && xs != [] && ys != [] && NeverTies(xs, le)
    requires multiset(xs) == multiset(ys) && SortedBy(xs, le) && SortedBy(ys, le)
    ensures xs[0] == ys[0]
  {
    hide TotalPreorder, SortedBy;
    assert ys[0] in multiset(xs) && xs[0] in multiset(ys);
    HeadIsLeast(xs, ys[0], le);
    HeadIsLeast(ys, xs[0], le);
  }

  lemma NoMembers<T(!new)>(s: set<T>)
    requires forall e :: e !in s
    ensures s == {}
  {
  }

  lemma SomeMember<T(!new)>(s: set<T>) returns (e: T)
    requires s != {}
    ensures e in s
  {
    if forall x :: x !in s {
      NoMembers(s);
    }
    e :| e in s;
  }
}
