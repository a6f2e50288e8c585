/** Joining the pieces produced for each element of a sequence, in order. */
module Seqs {

  /** `f(xs[0]) + f(xs[1]) + ... + f(xs[|xs| - 1])`. */
  function FlatMap<T, U>(f: T -> seq<U>, xs: seq<T>): seq<U>
  {
    if |xs| == 0 then [] else FlatMap(f, xs[..|xs| - 1]) + f(xs[|xs| - 1])
  }

  /** Joining distributes over concatenation of the inputs. */
  lemma {:induction false} FlatMapAppend<T, U>(f: T -> seq<U>, a: seq<T>, b: seq<T>)
    ensures FlatMap(f, a + b) == FlatMap(f, a) + FlatMap(f, b)
    decreases |b|
  {
    if |b| == 0 {
      assert a + b == a;
    } else {
      var b' := b[..|b| - 1];
      assert (a + b)[..|a + b| - 1] == a + b';
      assert (a + b)[|a + b| - 1] == b[|b| - 1];
      FlatMapAppend(f, a, b');
    }
  }

  /** The joined output splits around element `i`. */
  lemma FlatMapSplit<T, U>(f: T -> seq<U>, xs: seq<T>, i: nat)
    requires i < |xs|
    ensures FlatMap(f, xs) == FlatMap(f, xs[..i]) + f(xs[i]) + FlatMap(f, xs[i + 1..])
  {
    var upto := xs[..i + 1];
    var rest := xs[i + 1..];
    assert xs == upto + rest;
    FlatMapAppend(f, upto, rest);
    assert upto[..|upto| - 1] == xs[..i];
    assert upto[|upto| - 1] == xs[i];
    assert FlatMap(f, upto) == FlatMap(f, xs[..i]) + f(xs[i]);
  }

  /** When every piece has between `lo` and `hi` elements, so does the join
      per input element. */
  lemma {:induction false} FlatMapBounds<T, U>(f: T -> seq<U>, xs: seq<T>, lo: nat, hi: nat)
    requires forall x :: lo <= |f(x)| <= hi
    ensures lo * |xs| <= |FlatMap(f, xs)| <= hi * |xs|
    decreases |xs|
  {
    if |xs| > 0 {
      FlatMapBounds(f, xs[..|xs| - 1], lo, hi);
      assert lo * |xs| == lo * (|xs| - 1) + lo;
      assert hi * |xs| == hi * (|xs| - 1) + hi;
    }
  }

  /** The middle part of `p + x + q` is `x`. */
  lemma SliceOfJoin<T>(p: seq<T>, x: seq<T>, q: seq<T>)
    ensures (p + x + q)[|p|..|p| + |x|] == x
  {
  }

  /** Slicing after a prefix is slicing the rest. */
  lemma SliceAfter<T>(p: seq<T>, e: seq<T>, lo: nat, hi: nat)
    requires lo <= hi <= |e|
    ensures (p + e)[|p| + lo..|p| + hi] == e[lo..hi]
  {
  }
}
