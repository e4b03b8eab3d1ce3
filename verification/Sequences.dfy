/** Mapping and removing on sequences, and how they treat permutations. */
module Sequences {

  function Without<T>(xs: seq<T>, i: nat): seq<T>
    requires i < |xs|
  {
    xs[..i] + xs[i + 1..]
  }

  lemma WithoutMultiset<T>(xs: seq<T>, i: nat)
    requires i < |xs|
    ensures multiset(xs) == multiset{xs[i]} + multiset(Without(xs, i))
    ensures multiset(Without(xs, i)) == multiset(xs) - multiset{xs[i]}
  {
    assert xs == xs[..i] + [xs[i]] + xs[i + 1..];
  }

  lemma WithoutAt<T>(xs: seq<T>, i: nat, k: nat)
    requires i < |xs|
    ensures |Without(xs, i)| == |xs| - 1
    ensures k < |xs| - 1 ==> Without(xs, i)[k] == xs[if k < i then k else k + 1]
  {
  }

  lemma PermutationLength<T>(xs: seq<T>, ys: seq<T>)
    requires multiset(xs) == multiset(ys)
    ensures |xs| == |ys|
  {
    assert |multiset(xs)| == |xs| && |multiset(ys)| == |ys|;
  }

  lemma FindFirst<T>(xs: seq<T>, ys: seq<T>) returns (j: nat)
    requires multiset(xs) == multiset(ys) && xs != []
    ensures j < |ys| && ys[j] == xs[0]
  {
    assert xs[0] in multiset(xs);
    assert xs[0] in multiset(ys);
    j :| 0 <= j < |ys| && ys[j] == xs[0];
  }

  function Map<A, B>(f: A -> B, xs: seq<A>): (r: seq<B>)
    ensures |r| == |xs| && forall i :: 0 <= i < |xs| ==> r[i] == f(xs[i])
  {
    if xs == [] then [] else [f(xs[0])] + Map(f, xs[1..])
  }

  lemma MapWithout<A, B>(f: A -> B, xs: seq<A>, i: nat)
    requires i < |xs|
    ensures Map(f, Without(xs, i)) == Without(Map(f, xs), i)
  {
    WithoutAt(xs, i, 0);
    WithoutAt(Map(f, xs), i, 0);
    hide Without, Map;
    forall k | 0 <= k < |xs| - 1 ensures Map(f, Without(xs, i))[k] == Without(Map(f, xs), i)[k] {
      WithoutAt(xs, i, k);
      WithoutAt(Map(f, xs), i, k);
    }
  }

  lemma MapRemoved<A, B>(f: A -> B, xs: seq<A>, i: nat)
    requires i < |xs|
    ensures multiset(Map(f, xs)) == multiset{Map(f, xs)[i]} + multiset(Map(f, Without(xs, i)))
    ensures multiset(Map(f, Without(xs, i))) == multiset(Map(f, xs)) - multiset{Map(f, xs)[i]}
  {
    hide Map, Without;
    WithoutMultiset(Map(f, xs), i);
    MapWithout(f, xs, i);
  }

  /** If `f` tells apart whatever `g` does, lists with the same images under `f` have the same images under `g`. */
  lemma {:induction false} CoarserImages<A(!new), B, C>(f: A -> B, g: A -> C, xs: seq<A>, ys: seq<A>)
    requires forall x, y :: f(x) == f(y) ==> g(x) == g(y)
    requires multiset(Map(f, xs)) == multiset(Map(f, ys))
    ensures multiset(Map(g, xs)) == multiset(Map(g, ys))
    decreases |xs|
  {
    PermutationLength(Map(f, xs), Map(f, ys));
    hide Without, Map;
    if xs == [] {
      assert Map(g, xs) == [] && Map(g, ys) == [];
    } else {
      var j := FindFirst(Map(f, xs), Map(f, ys));
      MapRemoved(f, xs, 0);
      MapRemoved(f, ys, j);
      WithoutAt(xs, 0, 0);
      CoarserImages(f, g, Without(xs, 0), Without(ys, j));
      MapRemoved(g, xs, 0);
      MapRemoved(g, ys, j);
      assert f(xs[0]) == f(ys[j]);
    }
  }

  /** Mapping a permutation gives a permutation. */
  lemma MapPermuted<A(!new), B>(f: A -> B, xs: seq<A>, ys: seq<A>)
    requires multiset(xs) == multiset(ys)
    ensures multiset(Map(f, xs)) == multiset(Map(f, ys))
  {
    var id := (x: A) => x;
    assert Map(id, xs) == xs && Map(id, ys) == ys;
    CoarserImages(id, f, xs, ys);
  }

  /** A permutation of the images is the image of a permutation. */
  lemma {:induction false} LiftPermutation<A, B>(f: A -> B, zs: seq<B>, xs: seq<A>) returns (ys: seq<A>)
    requires multiset(zs) == multiset(Map(f, xs))
    ensures multiset(ys) == multiset(xs) && Map(f, ys) == zs
    decreases |xs|
  {
    PermutationLength(zs, Map(f, xs));
    hide Without, Map;
    if zs == [] {
      ys := [];
      assert xs == [] && Map(f, ys) == zs;
    } else {
      var j := FindFirst(zs, Map(f, xs));
      MapRemoved(f, xs, j);
      WithoutMultiset(zs, 0);
      WithoutAt(xs, j, 0);
      var rest := LiftPermutation(f, Without(zs, 0), Without(xs, j));
      ys := [xs[j]] + rest;
      WithoutMultiset(xs, j);
      MapCons(f, xs[j], rest);
      HeadAndRest(zs);
    }
  }

  lemma MapCons<A, B>(f: A -> B, x: A, xs: seq<A>)
    ensures Map(f, [x] + xs) == [f(x)] + Map(f, xs)
  {
    assert ([x] + xs)[1..] == xs;
  }

  lemma HeadAndRest<T>(xs: seq<T>)
    requires xs != []
    ensures xs == [xs[0]] + Without(xs, 0)
  {
  }
}
