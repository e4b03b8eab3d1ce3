/**
 Orders and sorting: code-point order on strings, the lexicographic order on pairs of
 strings, and the stable sort every `sorted(...)` / `.sort(...)` call of the code relies on.
 */
module Ordering {
  // ----- orders -----

  /** Python's `<` on strings: code point by code point, a proper prefix comes first. */
  predicate Less(a: string, b: string) {
    if |b| == 0 then false
    else if |a| == 0 then true
    else if a[0] != b[0] then a[0] < b[0]
    else Less(a[1..], b[1..])
  }

  predicate StringLe(a: string, b: string) {
    !Less(b, a)
  }

  /** Python's order on `(pn, location)` tuples. */
  predicate PairLe(a: (string, string), b: (string, string)) {
    if a.0 != b.0 then Less(a.0, b.0) else !Less(b.1, a.1)
  }

  lemma {:induction false} LessAsymmetric(a: string, b: string)
    ensures !(Less(a, b) && Less(b, a))
    ensures !Less(a, a)
    decreases |a|
  {
    if |a| > 0 {
      LessAsymmetric(a[1..], a[1..]);
      if |b| > 0 {
        LessAsymmetric(a[1..], b[1..]);
      }
    }
  }

  lemma {:induction false} LessTransitive(a: string, b: string, c: string)
    requires Less(a, b) && Less(b, c)
    ensures Less(a, c)
  {
    if |a| > 0 && a[0] == b[0] == c[0] {
      LessTransitive(a[1..], b[1..], c[1..]);
    }
  }

  lemma {:induction false} LessTotal(a: string, b: string)
    ensures Less(a, b) || a == b || Less(b, a)
  {
    if |a| > 0 && |b| > 0 && a[0] == b[0] {
      LessTotal(a[1..], b[1..]);
      assert a == [a[0]] + a[1..] && b == [b[0]] + b[1..];
    }
  }

  /** The strings agree on their first `n` characters, and there `a` ends or has the smaller character. */
  ghost predicate SmallerAt(a: string, b: string, n: nat) {
    && n <= |a| && n < |b| && a[..n] == b[..n]
    && (n < |a| ==> a[n] < b[n])
  }

  lemma SameFirstCharacter(a: string, b: string, n: nat)
    ensures SmallerAt(a, b, n) && n > 0 ==> a != "" && b != "" && a[0] == b[0]
  {
    if SmallerAt(a, b, n) && n > 0 {
      assert a[..n][0] == b[..n][0];
    }
  }

  /** The order of strings is decided where they first differ; a proper prefix comes first. */
  lemma {:induction false} LessIff(a: string, b: string)
    ensures Less(a, b) <==> exists n: nat :: SmallerAt(a, b, n)
  {
    if a != "" && b != "" && a[0] == b[0] {
      LessIff(a[1..], b[1..]);
      if n: nat :| SmallerAt(a[1..], b[1..], n) {
        assert a[..n + 1] == [a[0]] + a[1..][..n] && b[..n + 1] == [b[0]] + b[1..][..n];
        assert SmallerAt(a, b, n + 1);
      }
      if n: nat :| SmallerAt(a, b, n) {
        assert n > 0;
        assert a[1..][..n - 1] == a[..n][1..] && b[1..][..n - 1] == b[..n][1..];
        assert SmallerAt(a[1..], b[1..], n - 1);
      }
    } else if b != "" && (a == "" || a[0] < b[0]) {
      assert SmallerAt(a, b, 0);
    } else {
      forall n: nat ensures !SmallerAt(a, b, n) {
        SameFirstCharacter(a, b, n);
      }
    }
  }

  /** Pairs compare by their first strings, and by the second where these are the same. */
  lemma PairLeIff(a: (string, string), b: (string, string))
    ensures PairLe(a, b) <==> a == b || Less(a.0, b.0) || (a.0 == b.0 && Less(a.1, b.1))
  {
    LessTotal(a.1, b.1);
    LessAsymmetric(a.0, b.0);
    LessAsymmetric(a.1, b.1);
  }

  // ----- sorting with a total preorder -----

  ghost predicate TotalPreorder<T(!new)>(le: (T, T) -> bool) {
    && (forall x, y :: le(x, y) || le(y, x))
    && (forall x, y, z :: le(x, y) && le(y, z) ==> le(x, z))
  }

  ghost predicate Antisymmetric<T(!new)>(le: (T, T) -> bool) {
    forall x, y :: le(x, y) && le(y, x) ==> x == y
  }

  ghost predicate Sorted<T>(xs: seq<T>, le: (T, T) -> bool) {
    forall i, j :: 0 <= i < j < |xs| ==> le(xs[i], xs[j])
  }

  /** Elements that tie under `le` and occur in `xs` are the same element. */
  ghost predicate TiesAreEqual<T>(xs: seq<T>, le: (T, T) -> bool) {
    forall x, y :: x in xs && y in xs && le(x, y) && le(y, x) ==> x == y
  }

  ghost predicate ReflexiveOn<T>(xs: seq<T>, le: (T, T) -> bool) {
    forall x :: x in xs ==> le(x, x)
  }

  function Insert<T>(x: T, xs: seq<T>, le: (T, T) -> bool): seq<T> {
    if xs == [] then [x]
    else if le(x, xs[0]) then [x] + xs
    else [xs[0]] + Insert(x, xs[1..], le)
  }

  /** The stable insertion sort: among ties the earlier element stays first. */
  function Sort<T>(xs: seq<T>, le: (T, T) -> bool): seq<T> {
    if xs == [] then [] else Insert(xs[0], Sort(xs[1..], le), le)
  }

  lemma {:induction false} InsertMultiset<T>(x: T, xs: seq<T>, le: (T, T) -> bool)
    ensures multiset(Insert(x, xs, le)) == multiset{x} + multiset(xs)
  {
    if xs != [] {
      assert xs == [xs[0]] + xs[1..];
      if !le(x, xs[0]) {
        InsertMultiset(x, xs[1..], le);
      }
    }
  }

  lemma {:induction false} SortMultiset<T>(xs: seq<T>, le: (T, T) -> bool)
    ensures multiset(Sort(xs, le)) == multiset(xs)
  {
    if xs != [] {
      assert xs == [xs[0]] + xs[1..];
      SortMultiset(xs[1..], le);
      InsertMultiset(xs[0], Sort(xs[1..], le), le);
    }
  }

  lemma MultisetMembers<T>(xs: seq<T>, ys: seq<T>)
    requires multiset(xs) == multiset(ys)
    ensures |xs| == |ys|
    ensures forall x :: x in xs <==> x in ys
  {
    assert |multiset(xs)| == |xs| && |multiset(ys)| == |ys|;
    forall x ensures x in xs <==> x in ys {
      assert x in xs <==> x in multiset(xs);
      assert x in ys <==> x in multiset(ys);
    }
  }

  lemma {:induction false} InsertSorted<T(!new)>(x: T, xs: seq<T>, le: (T, T) -> bool)
    requires TotalPreorder(le) && Sorted(xs, le)
    ensures Sorted(Insert(x, xs, le), le)
  {
    if xs != [] {
      var r := Insert(x, xs, le);
      if le(x, xs[0]) {
        forall i, j | 0 <= i < j < |r| ensures le(r[i], r[j]) {
          if i == 0 && j > 1 { assert le(xs[0], xs[j - 1]); }
        }
      } else {
        InsertSorted(x, xs[1..], le);
        InsertMultiset(x, xs[1..], le);
        var t := Insert(x, xs[1..], le);
        forall j | 0 <= j < |t| ensures le(xs[0], t[j]) {
          assert t[j] in multiset(t);
          if t[j] != x {
            assert t[j] in xs[1..];
          }
        }
      }
    }
  }

  lemma {:induction false} SortSorted<T(!new)>(xs: seq<T>, le: (T, T) -> bool)
    requires TotalPreorder(le)
    ensures Sorted(Sort(xs, le), le)
  {
    if xs != [] {
      SortSorted(xs[1..], le);
      InsertSorted(xs[0], Sort(xs[1..], le), le);
    }
  }

  lemma SortedHeadsAgree<T>(a: seq<T>, b: seq<T>, le: (T, T) -> bool)
    requires Sorted(a, le) && Sorted(b, le) && TiesAreEqual(a, le)
    requires a != [] && b != [] && a[0] in b && b[0] in a
    requires ReflexiveOn(a, le)
    ensures a[0] == b[0]
  {
    var i :| 0 <= i < |b| && b[i] == a[0];
    var j :| 0 <= j < |a| && a[j] == b[0];
    if i != 0 && j != 0 {
      assert le(b[0], b[i]) && le(a[0], a[j]);
    }
  }

  lemma HeadsAreMembers<T>(a: seq<T>, b: seq<T>)
    requires multiset(a) == multiset(b) && a != []
    ensures |a| == |b| && a[0] in a && a[0] in b && b[0] in a
  {
    MultisetMembers(a, b);
    assert a[0] in a && b[0] in b;
  }

  /** A sorted list without unequal ties is determined by its multiset of elements. */
  lemma {:induction false} SortedUnique<T>(a: seq<T>, b: seq<T>, le: (T, T) -> bool)
    requires Sorted(a, le) && Sorted(b, le)
    requires multiset(a) == multiset(b) && TiesAreEqual(a, le) && ReflexiveOn(a, le)
    ensures a == b
  {
    hide Sorted, TiesAreEqual, ReflexiveOn;
    if a == [] {
      MultisetMembers(a, b);
    } else {
      HeadsAreMembers(a, b);
      SortedHeadsAgree(a, b, le);
      SortedTail(a, le);
      SortedTail(b, le);
      SortedUnique(a[1..], b[1..], le);
      assert a == [a[0]] + a[1..] && b == [b[0]] + b[1..];
    }
  }

  lemma SortedTail<T>(a: seq<T>, le: (T, T) -> bool)
    requires Sorted(a, le) && a != []
    ensures Sorted(a[1..], le)
    ensures multiset(a[1..]) == multiset(a) - multiset{a[0]}
    ensures TiesAreEqual(a, le) ==> TiesAreEqual(a[1..], le)
    ensures ReflexiveOn(a, le) ==> ReflexiveOn(a[1..], le)
  {
    assert a == [a[0]] + a[1..];
  }

  /**
   Sorting forgets the original order exactly when no two different elements tie:
   then two lists sort alike if and only if they are permutations of each other.
   */
  lemma SortIgnoresOrder<T(!new)>(xs: seq<T>, ys: seq<T>, le: (T, T) -> bool)
    requires TotalPreorder(le) && TiesAreEqual(xs, le)
    ensures Sort(xs, le) == Sort(ys, le) <==> multiset(xs) == multiset(ys)
  {
    SortMultiset(xs, le);
    SortMultiset(ys, le);
    if multiset(xs) == multiset(ys) {
      SortSorted(xs, le);
      SortSorted(ys, le);
      MultisetMembers(Sort(xs, le), xs);
      SortedUnique(Sort(xs, le), Sort(ys, le), le);
    }
  }

  lemma {:induction false} SortOfSorted<T(!new)>(xs: seq<T>, le: (T, T) -> bool)
    requires TotalPreorder(le) && Sorted(xs, le)
    ensures Sort(xs, le) == xs
  {
    if xs != [] {
      SortOfSorted(xs[1..], le);
      if |xs| > 1 {
        assert le(xs[0], xs[1]);
      }
    }
  }

  // ----- the two concrete orders are total orders -----

  lemma StringLeIsTotalOrder()
    ensures TotalPreorder(StringLe) && Antisymmetric(StringLe)
  {
    forall x, y ensures StringLe(x, y) || StringLe(y, x) {
      LessAsymmetric(x, y);
    }
    forall x, y | StringLe(x, y) && StringLe(y, x) ensures x == y {
      LessTotal(x, y);
    }
    forall x, y, z | StringLe(x, y) && StringLe(y, z) ensures StringLe(x, z) {
      LessTotal(x, y);
      LessTotal(y, z);
      if Less(z, x) {
        if x == y || y == z {
        } else {
          LessTransitive(x, y, z);
          LessAsymmetric(x, z);
        }
      }
    }
  }

  lemma PairLeIsTotalOrder()
    ensures TotalPreorder(PairLe) && Antisymmetric(PairLe)
  {
    StringLeIsTotalOrder();
    forall x, y ensures PairLe(x, y) || PairLe(y, x) {
      LessTotal(x.0, y.0);
      LessAsymmetric(x.1, y.1);
    }
    forall x, y | PairLe(x, y) && PairLe(y, x) ensures x == y {
      LessAsymmetric(x.0, y.0);
      assert x.0 == y.0;
      assert StringLe(x.1, y.1) && StringLe(y.1, x.1);
    }
    forall x, y, z | PairLe(x, y) && PairLe(y, z) ensures PairLe(x, z) {
      if x.0 == y.0 == z.0 {
        assert StringLe(x.1, y.1) && StringLe(y.1, z.1);
        assert StringLe(x.1, z.1);
      } else if x.0 != y.0 && y.0 != z.0 {
        LessTransitive(x.0, y.0, z.0);
        LessAsymmetric(x.0, z.0);
      }
    }
  }

  // ----- sorted listings of a set -----

  /** `r` lists exactly the members of `s`, each once, in increasing order. */
  ghost predicate Lists<T>(r: seq<T>, s: set<T>, le: (T, T) -> bool) {
    && Sorted(r, le)
    && (forall i, j :: 0 <= i < j < |r| ==> r[i] != r[j])
    && (forall x :: x in r ==> x in s)
    && (forall x :: x in s ==> x in r)
  }

  lemma {:induction false} DistinctLength<T>(r: seq<T>, s: set<T>)
    requires forall i, j :: 0 <= i < j < |r| ==> r[i] != r[j]
    requires forall x :: x in r <==> x in s
    ensures |r| == |s|
  {
    if r == [] {
      assert s == {};
    } else {
      var t := s - {r[0]};
      forall x ensures x in r[1..] <==> x in t {
        if x in r[1..] {
          var i :| 0 <= i < |r| - 1 && r[1..][i] == x;
          assert r[i + 1] == x;
        }
      }
      DistinctLength(r[1..], t);
    }
  }

  /** `sorted(some_set)`, element by element. */
  method SortedList<T(==,!new)>(s: set<T>, le: (T, T) -> bool) returns (r: seq<T>)
    requires TotalPreorder(le)
    ensures Lists(r, s, le)
    ensures |r| == |s|
  {
    r := [];
    var rest := s;
    while rest != {}
      invariant rest <= s
      invariant Sorted(r, le)
      invariant multiset(r) == multiset(s - rest)
      decreases rest
    {
      var x :| x in rest;
      InsertSorted(x, r, le);
      InsertMultiset(x, r, le);
      r := Insert(x, r, le);
      assert s - (rest - {x}) == (s - rest) + {x};
      rest := rest - {x};
    }
    assert s - rest == s;
    forall i, j | 0 <= i < j < |r| ensures r[i] != r[j] {
      DuplicateCounts(r, i, j);
    }
    forall x ensures x in r <==> x in s {
      assert x in r <==> x in multiset(r);
    }
    DistinctLength(r, s);
  }

  lemma DuplicateCounts<T>(r: seq<T>, i: nat, j: nat)
    requires i < j < |r|
    ensures r[i] == r[j] ==> multiset(r)[r[i]] >= 2
  {
    assert r == r[..j] + [r[j]] + r[j + 1..];
    assert r[..j][i] == r[i];
    assert r[i] in multiset(r[..j]);
  }
}
