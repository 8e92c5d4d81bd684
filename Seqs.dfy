/** Concatenating what a loop appends for each element of a sequence. */
module Seqs {

  /** `f(xs[0]) + f(xs[1]) + ...`, built from the left as a loop that
      appends for each element does. */
  function FlatMap<T, U>(xs: seq<T>, f: T -> seq<U>): seq<U>
    decreases |xs|
  {
    if xs == [] then [] else FlatMap(xs[..|xs| - 1], f) + f(xs[|xs| - 1])
  }

  /** The same, where what is appended also depends on the element's
      position. */
  function FlatMapIndexed<T, U>(xs: seq<T>, f: (nat, T) -> seq<U>): seq<U>
    decreases |xs|
  {
    if xs == [] then [] else FlatMapIndexed(xs[..|xs| - 1], f) + f(|xs| - 1, xs[|xs| - 1])
  }

  /** One more element adds its contribution at the end. */
  lemma FlatMapPrefix<T, U>(xs: seq<T>, f: T -> seq<U>, i: nat)
    requires i < |xs|
    ensures FlatMap(xs[..i + 1], f) == FlatMap(xs[..i], f) + f(xs[i])
  {
    assert xs[..i + 1][..i] == xs[..i];
  }

  /** Each element's contribution is part of the whole. */
  lemma {:induction false} FlatMapInclude<T, U>(xs: seq<T>, f: T -> seq<U>, k: nat, y: U)
    requires k < |xs| && y in f(xs[k])
    ensures y in FlatMap(xs, f)
    decreases |xs|
  {
    var n := |xs| - 1;
    if k < n {
      assert xs[..n][k] == xs[k];
      FlatMapInclude(xs[..n], f, k, y);
    }
  }

  /** Everything in the whole comes from some element. */
  lemma {:induction false} FlatMapFrom<T, U>(xs: seq<T>, f: T -> seq<U>, y: U)
    requires y in FlatMap(xs, f)
    ensures exists k | 0 <= k < |xs| :: y in f(xs[k])
    decreases |xs|
  {
    var n := |xs| - 1;
    if y !in f(xs[n]) {
      FlatMapFrom(xs[..n], f, y);
      var k :| 0 <= k < n && y in f(xs[..n][k]);
      assert xs[..n][k] == xs[k];
    }
  }

  lemma {:induction false} FlatMapIndexedInclude<T, U>(xs: seq<T>, f: (nat, T) -> seq<U>, k: nat, y: U)
    requires k < |xs| && y in f(k, xs[k])
    ensures y in FlatMapIndexed(xs, f)
    decreases |xs|
  {
    var n := |xs| - 1;
    if k < n {
      assert xs[..n][k] == xs[k];
      FlatMapIndexedInclude(xs[..n], f, k, y);
    }
  }

  lemma {:induction false} FlatMapIndexedFrom<T, U>(xs: seq<T>, f: (nat, T) -> seq<U>, y: U)
    requires y in FlatMapIndexed(xs, f)
    ensures exists k | 0 <= k < |xs| :: y in f(k, xs[k])
    decreases |xs|
  {
    var n := |xs| - 1;
    if y !in f(n, xs[n]) {
      FlatMapIndexedFrom(xs[..n], f, y);
      var k :| 0 <= k < n && y in f(k, xs[..n][k]);
      assert xs[..n][k] == xs[k];
    }
  }
}
