/** Sequence helpers used by the drawing model. */
module Seqs {

  /** The results of `f` on each element, concatenated in order. */
  function FlatMap<T, U>(xs: seq<T>, f: T -> seq<U>): seq<U>
  {
    if xs == [] then [] else f(xs[0]) + FlatMap(xs[1..], f)
  }

  lemma {:induction false} FlatMapAppend<T, U>(a: seq<T>, b: seq<T>, f: T -> seq<U>)
    ensures FlatMap(a + b, f) == FlatMap(a, f) + FlatMap(b, f)
  {
    if a == [] {
      assert a + b == b;
    } else {
      assert (a + b)[0] == a[0] && (a + b)[1..] == a[1..] + b;
      FlatMapAppend(a[1..], b, f);
    }
  }

  /** When every element yields three results, element `j` owns positions 3j to 3j+2. */
  lemma {:induction false} FlatMapAt<T, U>(xs: seq<T>, f: T -> seq<U>, j: nat)
    requires j < |xs|
    requires forall x :: |f(x)| == 3
    ensures |FlatMap(xs, f)| == 3 * |xs|
    ensures FlatMap(xs, f)[3 * j .. 3 * j + 3] == f(xs[j])
  {
    var head := f(xs[0]);
    var rest := FlatMap(xs[1..], f);
    if j == 0 {
      if |xs| > 1 {
        FlatMapAt(xs[1..], f, 0);
      }
      assert (head + rest)[0 .. 3] == head;
    } else {
      FlatMapAt(xs[1..], f, j - 1);
      assert xs[1..][j - 1] == xs[j];
      assert (head + rest)[3 * j .. 3 * j + 3] == rest[3 * (j - 1) .. 3 * (j - 1) + 3];
    }
  }
}
