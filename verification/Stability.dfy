/** When sorting forgets the original order: exactly when elements that tie are equal. */
module Stability {
  import opened Filtering
  import opened Ordering
  import opened Sequences

  /** The elements that tie with `x`. */
  function Tied<T>(le: (T, T) -> bool, x: T): T -> bool {
    y => le(x, y) && le(y, x)
  }

  /** Sorting is stable: elements that tie with `x` keep their order. */
  lemma {:induction false} SortKeepsTies<T(!new)>(xs: seq<T>, le: (T, T) -> bool, x: T)
    requires TotalPreorder(le)
    ensures Filter(Sort(xs, le), Tied(le, x)) == Filter(xs, Tied(le, x))
  {
    if xs != [] {
      hide Tied;
      SortKeepsTies(xs[1..], le, x);
      InsertKeepsTies(xs[0], Sort(xs[1..], le), le, x);
      FilterCons(xs[0], xs[1..], Tied(le, x));
      FilterCons(xs[0], Sort(xs[1..], le), Tied(le, x));
      assert xs == [xs[0]] + xs[1..];
    }
  }

  lemma {:induction false} InsertKeepsTies<T(!new)>(y: T, xs: seq<T>, le: (T, T) -> bool, x: T)
    requires TotalPreorder(le)
    ensures Filter(Insert(y, xs, le), Tied(le, x)) == Filter([y] + xs, Tied(le, x))
  {
    if xs != [] && !le(y, xs[0]) {
      assert Tied(le, x)(y) ==> !Tied(le, x)(xs[0]);
      assert Insert(y, xs, le) == [xs[0]] + Insert(y, xs[1..], le);
      hide Tied, Filter, Insert, TotalPreorder;
      InsertKeepsTies(y, xs[1..], le, x);
      FilterCons(xs[0], Insert(y, xs[1..], le), Tied(le, x));
      FilterCons(y, xs[1..], Tied(le, x));
      FilterCons(y, xs, Tied(le, x));
      FilterCons(xs[0], xs[1..], Tied(le, x));
      assert xs == [xs[0]] + xs[1..];
    }
  }

  ghost predicate SortsAllAlike<T(!new)>(xs: seq<T>, le: (T, T) -> bool) {
    forall ys :: multiset(ys) == multiset(xs) ==> Sort(ys, le) == Sort(xs, le)
  }

  lemma TiesKeepFirst<T(!new)>(xs: seq<T>, le: (T, T) -> bool, i: nat, x: T)
    requires TotalPreorder(le) && SortsAllAlike(xs, le) && i < |xs| && le(x, xs[i]) && le(xs[i], x)
    ensures Filter(xs, Tied(le, x)) != []
    ensures Filter(xs, Tied(le, x))[0] == xs[i]
  {
    assert Tied(le, x)(xs[i]);
    hide Sort, Filter, Tied, Without, TotalPreorder;
    var ys := [xs[i]] + Without(xs, i);
    MovedToFront(xs, i);
    SortKeepsTies(xs, le, x);
    SortKeepsTies(ys, le, x);
    FilterCons(xs[i], Without(xs, i), Tied(le, x));
  }

  lemma MovedToFront<T>(xs: seq<T>, i: nat)
    requires i < |xs|
    ensures multiset([xs[i]] + Without(xs, i)) == multiset(xs)
  {
    WithoutMultiset(xs, i);
  }

  /** Sorting gives every permutation the same result exactly when elements that tie are equal. */
  lemma SortIgnoresOrderIff<T(!new)>(xs: seq<T>, le: (T, T) -> bool)
    requires TotalPreorder(le)
    ensures SortsAllAlike(xs, le) <==> TiesAreEqual(xs, le)
  {
    if TiesAreEqual(xs, le) {
      forall ys | multiset(ys) == multiset(xs) ensures Sort(ys, le) == Sort(xs, le) {
        SortIgnoresOrder(xs, ys, le);
      }
    }
    if SortsAllAlike(xs, le) {
      forall x, y | x in xs && y in xs && le(x, y) && le(y, x) ensures x == y {
        var i :| 0 <= i < |xs| && xs[i] == x;
        var j :| 0 <= j < |xs| && xs[j] == y;
        TiesKeepFirst(xs, le, i, x);
        TiesKeepFirst(xs, le, j, x);
      }
    }
  }

  // ----- what a sorted list remembers -----

  /** The same elements, and those that tie in the same order. */
  ghost predicate TiesAlike<T(!new)>(xs: seq<T>, ys: seq<T>, le: (T, T) -> bool) {
    forall x :: Filter(xs, Tied(le, x)) == Filter(ys, Tied(le, x))
  }

  /** Two lists sort alike exactly when they hold the same elements, with those that tie in the same order. */
  lemma SortsAlikeIff<T(!new)>(xs: seq<T>, ys: seq<T>, le: (T, T) -> bool)
    requires TotalPreorder(le)
    ensures Sort(xs, le) == Sort(ys, le) <==> TiesAlike(xs, ys, le)
  {
    SortSorted(xs, le);
    SortSorted(ys, le);
    hide Sort;
    forall x
      ensures Filter(Sort(xs, le), Tied(le, x)) == Filter(xs, Tied(le, x))
      ensures Filter(Sort(ys, le), Tied(le, x)) == Filter(ys, Tied(le, x))
    {
      SortKeepsTies(xs, le, x);
      SortKeepsTies(ys, le, x);
    }
    if TiesAlike(xs, ys, le) {
      SortedByTies(Sort(xs, le), Sort(ys, le), le);
    }
  }

  /** A sorted list is determined by what it holds of each tie, in order. */
  lemma {:induction false} SortedByTies<T(!new)>(a: seq<T>, b: seq<T>, le: (T, T) -> bool)
    requires TotalPreorder(le) && Sorted(a, le) && Sorted(b, le) && TiesAlike(a, b, le)
    ensures a == b
    decreases |a|
  {
    hide Tied, TiesAlike, Sorted, TotalPreorder, Filter;
    TiesFirst(a, b, le);
    if a != [] {
      SameHead(a, b, le);
      SortedTail(a, le);
      SortedTail(b, le);
      assert a == [a[0]] + a[1..] && b == [a[0]] + b[1..];
      TailsAlike(a[0], a[1..], b[1..], le);
      SortedByTies(a[1..], b[1..], le);
    }
  }

  lemma TailsAlike<T(!new)>(x: T, a: seq<T>, b: seq<T>, le: (T, T) -> bool)
    requires TiesAlike([x] + a, [x] + b, le)
    ensures TiesAlike(a, b, le)
  {
    forall y ensures Filter(a, Tied(le, y)) == Filter(b, Tied(le, y)) {
      var tied := Tied(le, y);
      var head := if tied(x) then [x] else [];
      FilterCons(x, a, tied);
      FilterCons(x, b, tied);
      assert Filter([x] + a, tied) == Filter([x] + b, tied);
      assert Filter(a, tied) == (head + Filter(a, tied))[|head|..];
      assert Filter(b, tied) == (head + Filter(b, tied))[|head|..];
    }
  }

  /** The first element of each list occurs in the other. */
  lemma TiesFirst<T(!new)>(a: seq<T>, b: seq<T>, le: (T, T) -> bool)
    requires TotalPreorder(le) && TiesAlike(a, b, le)
    ensures a == [] <==> b == []
    ensures a != [] && b != [] ==> a[0] in b && b[0] in a
  {
    if b != [] {
      assert b[0] in Filter(b, Tied(le, b[0]));
      assert b[0] in Filter(a, Tied(le, b[0]));
    }
    if a != [] {
      assert a[0] in Filter(a, Tied(le, a[0]));
      assert a[0] in Filter(b, Tied(le, a[0]));
    }
  }

  lemma SameHead<T(!new)>(a: seq<T>, b: seq<T>, le: (T, T) -> bool)
    requires TotalPreorder(le) && Sorted(a, le) && Sorted(b, le) && TiesAlike(a, b, le)
    requires a != [] && b != [] && a[0] in b && b[0] in a
    ensures a[0] == b[0]
  {
    var i :| 0 <= i < |b| && b[i] == a[0];
    var j :| 0 <= j < |a| && a[j] == b[0];
    assert le(b[0], b[i]) && le(a[0], a[j]);
    var tied := Tied(le, a[0]);
    FilterCons(a[0], a[1..], tied);
    FilterCons(b[0], b[1..], tied);
    assert a == [a[0]] + a[1..] && b == [b[0]] + b[1..];
    assert Filter(a, tied) == Filter(b, tied);
  }

  // ----- sorting by one order and then by another -----

  /** Ordered by `major`, and among its ties by `minor`. */
  function Lexicographic<T>(major: (T, T) -> bool, minor: (T, T) -> bool): (T, T) -> bool {
    (x, y) => major(x, y) && (!major(y, x) || minor(x, y))
  }

  lemma LexicographicIsTotal<T(!new)>(major: (T, T) -> bool, minor: (T, T) -> bool)
    requires TotalPreorder(major) && TotalPreorder(minor)
    ensures TotalPreorder(Lexicographic(major, minor))
  {
    var both := Lexicographic(major, minor);
    forall x, y ensures both(x, y) || both(y, x) {
      assert major(x, y) || major(y, x);
      assert minor(x, y) || minor(y, x);
    }
    forall x, y, z | both(x, y) && both(y, z) ensures both(x, z) {
      assert major(x, y) && major(y, z) && major(x, z);
      if major(z, x) {
        assert major(z, y) && major(y, x);
      }
    }
  }

  lemma {:induction false} InsertByMajor<T(!new)>(x: T, ys: seq<T>, major: (T, T) -> bool, minor: (T, T) -> bool)
    requires TotalPreorder(major) && TotalPreorder(minor)
    requires Sorted(ys, Lexicographic(major, minor)) && forall y :: y in ys ==> minor(x, y)
    ensures Sorted(Insert(x, ys, major), Lexicographic(major, minor))
  {
    var both := Lexicographic(major, minor);
    var r := Insert(x, ys, major);
    LexicographicIsTotal(major, minor);
    if ys != [] {
      if major(x, ys[0]) {
        assert both(x, ys[0]) by { assert ys[0] in ys; }
        forall j | 0 <= j < |ys| ensures both(x, ys[j]) {
          assert j > 0 ==> both(ys[0], ys[j]);
        }
        HeadSorts(x, ys, both);
      } else {
        var t := Insert(x, ys[1..], major);
        assert forall y :: y in ys[1..] ==> y in ys;
        InsertByMajor(x, ys[1..], major, minor);
        InsertMultiset(x, ys[1..], major);
        assert major(ys[0], x) && !major(x, ys[0]);
        forall j | 0 <= j < |t| ensures both(ys[0], t[j]) {
          assert t[j] in multiset(t);
          if t[j] != x {
            assert t[j] in ys[1..];
            var k :| 0 <= k < |ys| - 1 && ys[1..][k] == t[j];
            assert both(ys[0], ys[k + 1]);
          }
        }
        HeadSorts(ys[0], t, both);
      }
    }
  }

  lemma HeadSorts<T>(x: T, ys: seq<T>, le: (T, T) -> bool)
    requires Sorted(ys, le) && forall j :: 0 <= j < |ys| ==> le(x, ys[j])
    ensures Sorted([x] + ys, le)
  {
    var r := [x] + ys;
    forall i, j | 0 <= i < j < |r| ensures le(r[i], r[j]) {
      if i > 0 { assert le(ys[i - 1], ys[j - 1]); }
    }
  }

  lemma {:induction false} SortedAgain<T(!new)>(xs: seq<T>, major: (T, T) -> bool, minor: (T, T) -> bool)
    requires TotalPreorder(major) && TotalPreorder(minor) && Sorted(xs, minor)
    ensures Sorted(Sort(xs, major), Lexicographic(major, minor))
  {
    if xs != [] {
      SortedTail(xs, minor);
      SortedAgain(xs[1..], major, minor);
      var rest := Sort(xs[1..], major);
      SortMultiset(xs[1..], major);
      MultisetMembers(rest, xs[1..]);
      forall y | y in rest ensures minor(xs[0], y) {
        assert y in xs[1..];
        var k :| 0 <= k < |xs| - 1 && xs[1..][k] == y;
        assert minor(xs[0], xs[k + 1]);
      }
      InsertByMajor(xs[0], rest, major, minor);
    }
  }

  /** Sorting by a minor and then by a major order is sorting by both, for every list. */
  lemma SortTwice<T(!new)>(xs: seq<T>, major: (T, T) -> bool, minor: (T, T) -> bool)
    requires TotalPreorder(major) && TotalPreorder(minor)
    ensures Sort(Sort(xs, minor), major) == Sort(xs, Lexicographic(major, minor))
  {
    var both := Lexicographic(major, minor);
    var once, twice := Sort(xs, minor), Sort(Sort(xs, minor), major);
    LexicographicIsTotal(major, minor);
    SortSorted(xs, minor);
    SortedAgain(once, major, minor);
    SortSorted(xs, both);
    hide Sort;
    forall x ensures Filter(twice, Tied(both, x)) == Filter(Sort(xs, both), Tied(both, x)) {
      SortKeepsTies(once, major, x);
      SortKeepsTies(xs, minor, x);
      SortKeepsTies(xs, both, x);
      TiedInBoth(twice, major, minor, x);
      TiedInBoth(once, major, minor, x);
      TiedInBoth(xs, major, minor, x);
    }
    SortedByTies(twice, Sort(xs, both), both);
  }

  /** To tie lexicographically is to tie in both orders, taken in either sequence. */
  lemma TiedInBoth<T(!new)>(xs: seq<T>, major: (T, T) -> bool, minor: (T, T) -> bool, x: T)
    ensures Filter(Filter(xs, Tied(major, x)), Tied(minor, x)) == Filter(xs, Tied(Lexicographic(major, minor), x))
    ensures Filter(Filter(xs, Tied(minor, x)), Tied(major, x)) == Filter(xs, Tied(Lexicographic(major, minor), x))
  {
    FilterBoth(xs, Tied(major, x), Tied(minor, x), Tied(Lexicographic(major, minor), x));
    FilterBoth(xs, Tied(minor, x), Tied(major, x), Tied(Lexicographic(major, minor), x));
  }

  /** Sorting by an order on the images and then mapping is mapping and then sorting. */
  lemma {:induction false} MapOfSort<A(!new), B>(f: A -> B, xs: seq<A>, le: (A, A) -> bool, le': (B, B) -> bool)
    requires forall x, y :: le(x, y) <==> le'(f(x), f(y))
    ensures Map(f, Sort(xs, le)) == Sort(Map(f, xs), le')
  {
    if xs != [] {
      MapOfSort(f, xs[1..], le, le');
      assert Map(f, xs)[1..] == Map(f, xs[1..]);
      hide Map;
      MapOfInsert(f, xs[0], Sort(xs[1..], le), le, le');
    }
  }

  lemma {:induction false} MapOfInsert<A(!new), B>(f: A -> B, x: A, ys: seq<A>, le: (A, A) -> bool, le': (B, B) -> bool)
    requires forall x, y :: le(x, y) <==> le'(f(x), f(y))
    ensures Map(f, Insert(x, ys, le)) == Insert(f(x), Map(f, ys), le')
  {
    if ys == [] {
      MapCons(f, x, []);
    } else if le(x, ys[0]) {
      MapCons(f, x, ys);
    } else {
      MapOfInsert(f, x, ys[1..], le, le');
      MapCons(f, ys[0], Insert(x, ys[1..], le));
    }
  }
}
