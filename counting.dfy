/**
 * Counting over sequences: occurrence counts, sums, duplicate-free
 * sequences and the "count every key, add the counts up" argument that
 * both output tables of the statistics pipeline rely on.
 */
module Counting {

  /** Number of occurrences of `x` in `xs`. */
  function Count<T(==)>(xs: seq<T>, x: T): (n: nat)
    ensures n <= |xs|
    ensures n == 0 <==> x !in xs
    decreases |xs|
  {
    if xs == [] then 0
    else
      assert xs == xs[..|xs| - 1] + [xs[|xs| - 1]];
      Count(xs[..|xs| - 1], x) + (if xs[|xs| - 1] == x then 1 else 0)
  }

  /** Sum of a sequence of integers. */
  function Sum(xs: seq<int>): int
    decreases |xs|
  {
    if xs == [] then 0 else Sum(xs[..|xs| - 1]) + xs[|xs| - 1]
  }

  /** No element occurs twice. */
  predicate NoDup<T(==)>(xs: seq<T>) {
    forall i, j :: 0 <= i < j < |xs| ==> xs[i] != xs[j]
  }

  /**
   * The distinct elements of `xs`, each kept at its first occurrence (the
   * order of pandas' Series.unique()).
   */
  function Distinct<T(==)>(xs: seq<T>): (r: seq<T>)
    ensures NoDup(r)
    ensures forall i :: 0 <= i < |xs| ==> xs[i] in r
    ensures forall i :: 0 <= i < |r| ==> r[i] in xs
    ensures |r| <= |xs|
    decreases |xs|
  {
    if xs == [] then []
    else
      var d := Distinct(xs[..|xs| - 1]);
      var last := xs[|xs| - 1];
      assert xs == xs[..|xs| - 1] + [last];
      if last in d then d else d + [last]
  }

  /** For each key, how often it occurs in `xs`. */
  function CountsOf<T(==)>(xs: seq<T>, keys: seq<T>): (counts: seq<nat>)
    ensures |counts| == |keys|
    ensures forall i :: 0 <= i < |keys| ==> counts[i] == Count(xs, keys[i])
  {
    seq(|keys|, i requires 0 <= i < |keys| => Count(xs, keys[i]))
  }

  /** Default-zero lookup, as a Python Counter reads a missing key. */
  function Get<K>(m: map<K, int>, k: K): int {
    if k in m then m[k] else 0
  }

  /** `counter[k] += d` on a Counter: only `k` changes, by `d`. */
  function Bump<K(!new)>(m: map<K, int>, k: K, d: int): (r: map<K, int>)
    ensures Get(r, k) == Get(m, k) + d
    ensures forall x :: x != k ==> Get(r, x) == Get(m, x)
  {
    m[k := Get(m, k) + d]
  }

  lemma CountAppend<T>(xs: seq<T>, x: T, k: T)
    ensures Count(xs + [x], k) == Count(xs, k) + (if x == k then 1 else 0)
  {
    assert (xs + [x])[..|xs|] == xs;
  }

  /** Appending one element raises the counts of a duplicate-free key list by one in total exactly when it is a key. */
  lemma {:induction false} SumCountsAppend<T>(xs: seq<T>, x: T, keys: seq<T>)
    requires NoDup(keys)
    ensures Sum(CountsOf(xs + [x], keys)) == Sum(CountsOf(xs, keys)) + (if x in keys then 1 else 0)
    decreases |keys|
  {
    if keys != [] {
      var n := |keys| - 1;
      var front := keys[..n];
      assert keys == front + [keys[n]];
      assert CountsOf(xs + [x], keys)[..n] == CountsOf(xs + [x], front);
      assert CountsOf(xs, keys)[..n] == CountsOf(xs, front);
      SumCountsAppend(xs, x, front);
      CountAppend(xs, x, keys[n]);
      assert x == keys[n] ==> x !in front;
    }
  }

  /**
   * When every element of `xs` is one of a duplicate-free list of keys, the
   * per-key counts add up to the length of `xs`.
   */
  lemma {:induction false} SumCountsCover<T>(xs: seq<T>, keys: seq<T>)
    requires NoDup(keys)
    requires forall x :: x in xs ==> x in keys
    ensures Sum(CountsOf(xs, keys)) == |xs|
    decreases |xs|
  {
    if xs == [] {
      var zeros := CountsOf(xs, keys);
      ZeroSum(zeros);
    } else {
      var n := |xs| - 1;
      assert xs == xs[..n] + [xs[n]];
      SumCountsCover(xs[..n], keys);
      SumCountsAppend(xs[..n], xs[n], keys);
    }
  }

  lemma {:induction false} ZeroSum(xs: seq<int>)
    requires forall i :: 0 <= i < |xs| ==> xs[i] == 0
    ensures Sum(xs) == 0
    decreases |xs|
  {
    if xs != [] {
      ZeroSum(xs[..|xs| - 1]);
    }
  }

  /** Two sequences that agree element by element have the same sum; used to move between table columns and counts. */
  lemma SumPointwise(xs: seq<int>, ys: seq<int>)
    requires |xs| == |ys|
    requires forall i :: 0 <= i < |xs| ==> xs[i] == ys[i]
    ensures Sum(xs) == Sum(ys)
  {
    assert xs == ys;
  }
}
