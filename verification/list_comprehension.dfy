/** The list-comprehension helpers: `range(N)`, the vector 0..N-1, and
    `f | c`, the vector of `f` applied to each element of `c` in order. The
    member projection `&T::m | c` is `f | c` with `f` the field accessor, so it
    is `Map` with a datatype destructor as `f`. */
module ListComprehension {

  /** `range(N)`: the indices 0 to N - 1, in order. */
  function Range(n: nat): (r: seq<nat>)
    ensures |r| == n
    ensures forall i :: 0 <= i < n ==> r[i] == i
  {
    if n == 0 then [] else Range(n - 1) + [n - 1]
  }

  /** `f | c`: `f` applied to every element of `c`, keeping the order. */
  function Map<T, U>(f: T -> U, c: seq<T>): (r: seq<U>)
    ensures |r| == |c|
    ensures forall k :: 0 <= k < |c| ==> r[k] == f(c[k])
  {
    if c == [] then [] else [f(c[0])] + Map(f, c[1..])
  }

  /** Mapping twice is mapping the composition once. */
  lemma {:induction false} MapFusion<T, U, V>(f: U -> V, g: T -> U, c: seq<T>)
    ensures Map(f, Map(g, c)) == Map(x => f(g(x)), c)
  {
    if c != [] {
      MapFusion(f, g, c[1..]);
      assert Map(g, c)[1..] == Map(g, c[1..]);
    }
  }

  /** Mapping distributes over concatenation. */
  lemma {:induction false} MapAppend<T, U>(f: T -> U, a: seq<T>, b: seq<T>)
    ensures Map(f, a + b) == Map(f, a) + Map(f, b)
  {
    if a != [] {
      assert (a + b)[1..] == a[1..] + b;
      MapAppend(f, a[1..], b);
    }
  }

  /** `f | range(N)` tabulates `f` on 0..N-1. */
  lemma MapRange<U>(f: nat -> U, n: nat)
    ensures Map(f, Range(n)) == seq(n, i requires 0 <= i => f(i))
  {
  }
}
