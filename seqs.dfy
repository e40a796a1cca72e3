/** List helpers used by several components. */
module Seqs {

  /** Each element's contribution, concatenated in order: a filter and a map in one. */
  function FlatMap<T, U>(xs: seq<T>, f: T -> seq<U>): seq<U> {
    if xs == [] then [] else FlatMap(xs[..|xs| - 1], f) + f(xs[|xs| - 1])
  }

  /** The contributions of two lists in a row are those of the first, then those of the second. */
  lemma {:induction false} FlatMapConcat<T, U>(a: seq<T>, b: seq<T>, f: T -> seq<U>)
    ensures FlatMap(a + b, f) == FlatMap(a, f) + FlatMap(b, f)
  {
    if b == [] {
      assert a + b == a;
    } else {
      var b' := b[..|b| - 1];
      FlatMapConcat(a, b', f);
      assert (a + b)[..|a + b| - 1] == a + b';
      assert (a + b)[|a + b| - 1] == b[|b| - 1];
    }
  }

  /** When every element contributes exactly the matching element of `ys`, the result is `ys`. */
  lemma {:induction false} FlatMapOneEach<T, U>(xs: seq<T>, ys: seq<U>, f: T -> seq<U>)
    requires |xs| == |ys|
    requires forall k :: 0 <= k < |xs| ==> f(xs[k]) == [ys[k]]
    ensures FlatMap(xs, f) == ys
  {
    if xs != [] {
      var n := |xs| - 1;
      FlatMapOneEach(xs[..n], ys[..n], f);
      assert ys == ys[..n] + [ys[n]];
    }
  }
}
