/**
 * Facts about sequences that several modules share: joining the lists of
 * a sequence's elements, growing a prefix one element at a time, and the
 * prefix order.
 */
module Seqs {
  /** The lists `f` gives the elements of `xs`, joined in order. */
  function FlatMap<A, B>(f: A -> seq<B>, xs: seq<A>): seq<B>
  {
    if |xs| == 0 then [] else FlatMap(f, xs[..|xs| - 1]) + f(xs[|xs| - 1])
  }

  /** The lists of a prefix begin the lists of the whole. */
  lemma {:induction false} FlatMapPrefix<A, B>(f: A -> seq<B>, xs: seq<A>, i: nat)
    requires i <= |xs|
    ensures FlatMap(f, xs[..i]) <= FlatMap(f, xs)
  {
    if i < |xs| {
      var n := |xs| - 1;
      FlatMapPrefix(f, xs[..n], i);
      assert xs[..n][..i] == xs[..i];
    } else {
      assert xs[..i] == xs;
    }
  }

  /** One more element. */
  lemma FlatMapSnoc<A, B>(f: A -> seq<B>, xs: seq<A>, i: nat)
    requires i < |xs|
    ensures FlatMap(f, xs[..i + 1]) == FlatMap(f, xs[..i]) + f(xs[i])
  {
    assert xs[..i + 1][..i] == xs[..i];
  }

  /** Every element of the joined lists comes from the list of some element. */
  lemma {:induction false} FlatMapFrom<A, B>(f: A -> seq<B>, xs: seq<A>, y: B)
    requires y in FlatMap(f, xs)
    ensures exists x :: x in xs && y in f(x)
  {
    var n := |xs| - 1;
    if y in FlatMap(f, xs[..n]) {
      FlatMapFrom(f, xs[..n], y);
      var x :| x in xs[..n] && y in f(x);
      assert x in xs;
    } else {
      assert xs[n] in xs;
    }
  }

  /** One more element of `items` after `done`. */
  lemma AppendSlice<T>(done: seq<T>, items: seq<T>, i: nat)
    requires i < |items|
    ensures done + items[..i + 1] == (done + items[..i]) + [items[i]]
  {
    assert items[..i + 1] == items[..i] + [items[i]];
  }

  /** `a <= b` for sequences is "a is a prefix of b"; it is transitive. */
  lemma PrefixTransitive<T>(a: seq<T>, b: seq<T>, c: seq<T>)
    requires a <= b && b <= c
    ensures a <= c
  {
    assert c[..|a|] == c[..|b|][..|a|];
  }

  /** The elements of `xs` that satisfy `p`, in order. */
  function Filter<T(!new)>(xs: seq<T>, p: T -> bool): (r: seq<T>)
    ensures |r| <= |xs|
    ensures forall x :: x in r <==> x in xs && p(x)
  {
    if xs == [] then [] else (if p(xs[0]) then [xs[0]] else []) + Filter(xs[1..], p)
  }

  /** `xs.index(x)`: the first position of `x`. */
  function IndexOf<T(==)>(xs: seq<T>, x: T): (i: nat)
    requires x in xs
    ensures i < |xs| && xs[i] == x && forall j :: 0 <= j < i ==> xs[j] != x
  {
    if xs[0] == x then 0 else 1 + IndexOf(xs[1..], x)
  }
}
