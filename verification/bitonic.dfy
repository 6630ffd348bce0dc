/** `BitonicSort` and `BitonicMerge` of `BitonicSort.hpp`, the arbitrary-length
    bitonic network kept as a stand-in for `std::sort`. The vector is modelled
    as a sequence of integers ordered by `<`; each call returns the rearranged
    range. Elements only ever move by exchanging a pair, so every call returns
    a permutation of its input. */
module Bitonic {

  datatype Direction = Up | Down

  function Opposite(dir: Direction): Direction
  {
    if dir == Up then Down else Up
  }

  /** A pair in the order `dir` asks for: ascending for `up`, descending for
      `down`. */
  predicate Ordered(a: int, b: int, dir: Direction)
  {
    if dir == Up then a <= b else b <= a
  }

  predicate IsPow2(p: nat)
  {
    if p <= 1 then p == 1 else p % 2 == 0 && IsPow2(p / 2)
  }

  /** `while (lPower2 < lSize) lPower2 <<= 1` from 1: the least power of two
      at or above `n`. */
  method Ceil2(n: nat) returns (p: nat)
    ensures IsPow2(p) && n <= p
    ensures p == 1 || p / 2 < n
  {
    p := 1;
    while p < n
      invariant IsPow2(p)
      invariant p == 1 || p / 2 < n
    {
      p := 2 * p;
    }
  }

  /** The pair exchange of `BitonicMerge`: the two are swapped exactly when
      `(second < first) == (dir == up)`. */
  function Exchange(s: seq<int>, k: nat, m: nat, dir: Direction): (r: seq<int>)
    requires k + m < |s|
  {
    if (s[k + m] < s[k]) == (dir == Up) then s[k := s[k + m]][k + m := s[k]] else s
  }

  /** An exchange puts its pair in order, keeps every other element and keeps
      the multiset. */
  lemma ExchangeOrders(s: seq<int>, k: nat, m: nat, dir: Direction)
    requires 0 < m && k + m < |s|
    ensures var r := Exchange(s, k, m, dir);
            |r| == |s| && multiset(r) == multiset(s) && Ordered(r[k], r[k + m], dir) &&
            forall i :: 0 <= i < |s| && i != k && i != k + m ==> r[i] == s[i]
  {
  }

  /** The compare-exchange loop of `BitonicMerge`: element k against k + m for
      every k + m < n. With `m` at least half of `n` the pairs are disjoint, so
      on return every pair is in order. */
  method Sweep(s: seq<int>, m: nat, dir: Direction) returns (r: seq<int>)
    requires 0 < m < |s| <= 2 * m
    ensures |r| == |s| && multiset(r) == multiset(s)
    ensures forall k :: 0 <= k < |s| - m ==> Ordered(r[k], r[k + m], dir)
    ensures forall i :: |s| - m <= i < m ==> r[i] == s[i]
  {
    r := s;
    var k := 0;
    while k + m != |s|
      invariant k + m <= |s|
      invariant |r| == |s| && multiset(r) == multiset(s)
      invariant forall j :: 0 <= j < k ==> Ordered(r[j], r[j + m], dir)
      invariant forall i :: k <= i < m || k + m <= i < |s| ==> r[i] == s[i]
    {
      ExchangeOrders(r, k, m, dir);
      r := Exchange(r, k, m, dir);
      k := k + 1;
    }
  }

  /** `BitonicMerge<dir>`: ranges of at most one element are left alone;
      otherwise one sweep at half the next power of two, then both parts
      merged. A pair of two comes out in order. */
  method Merge(s: seq<int>, dir: Direction) returns (r: seq<int>)
    ensures |r| == |s| && multiset(r) == multiset(s)
    ensures |s| <= 1 ==> r == s
    ensures |s| == 2 ==> Ordered(r[0], r[1], dir)
    decreases |s|
  {
    if |s| <= 1 {
      return s;
    }
    var p := Ceil2(|s|);
    var m := p / 2;
    var t := Sweep(s, m, dir);
    var a := Merge(t[..m], dir);
    var b := Merge(t[m..], dir);
    assert t == t[..m] + t[m..];
    r := a + b;
  }

  /** `BitonicSort<dir>`: the first half sorted the other way, the rest this
      way, then merged this way. */
  method Sort(s: seq<int>, dir: Direction) returns (r: seq<int>)
    ensures |r| == |s| && multiset(r) == multiset(s)
    ensures |s| <= 1 ==> r == s
    ensures |s| == 2 ==> Ordered(r[0], r[1], dir)
    decreases |s|
  {
    if |s| <= 1 {
      return s;
    }
    var h := |s| / 2;
    var a := Sort(s[..h], Opposite(dir));
    var b := Sort(s[h..], dir);
    assert s == s[..h] + s[h..];
    r := Merge(a + b, dir);
  }
}
