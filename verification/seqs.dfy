/**
 * Sequence operations the pages perform on their locally held lists:
 * `Array.prototype.filter`, `filter(..).length`, and per-label tallies.
 */
module Seqs {

  /** `s.filter(p)`: the elements satisfying `p`, in their original order. */
  function Filter<T>(s: seq<T>, p: T -> bool): (r: seq<T>)
    ensures |r| <= |s|
    ensures forall k :: 0 <= k < |r| ==> r[k] in s && p(r[k])
    ensures forall k :: 0 <= k < |s| && p(s[k]) ==> s[k] in r
  {
    if s == [] then []
    else (if p(s[0]) then [s[0]] else []) + Filter(s[1..], p)
  }

  /** Filtering distributes over concatenation, so the relative order of the
      kept elements is the order they had in the input. */
  lemma {:induction false} FilterAppend<T>(s: seq<T>, t: seq<T>, p: T -> bool)
    ensures Filter(s + t, p) == Filter(s, p) + Filter(t, p)
  {
    if s == [] {
      assert s + t == t;
    } else {
      assert (s + t)[1..] == s[1..] + t;
      FilterAppend(s[1..], t, p);
    }
  }

  /** Nothing is dropped when every element passes. */
  lemma {:induction false} FilterKeepsAll<T>(s: seq<T>, p: T -> bool)
    requires forall k :: 0 <= k < |s| ==> p(s[k])
    ensures Filter(s, p) == s
  {
    if s != [] {
      FilterKeepsAll(s[1..], p);
    }
  }

  /** Two tests that agree on every element keep the same elements. */
  lemma {:induction false} FilterSameTest<T>(s: seq<T>, p: T -> bool, q: T -> bool)
    requires forall k :: 0 <= k < |s| ==> p(s[k]) == q(s[k])
    ensures Filter(s, p) == Filter(s, q)
  {
    if s != [] {
      FilterSameTest(s[1..], p, q);
    }
  }

  /** The position of the first `x` in `s`, or -1: what a `switch` over the
      elements of `s` as case labels selects. */
  function IndexOf<T(==)>(s: seq<T>, x: T): (r: int)
    ensures -1 <= r < |s|
    ensures r == -1 <==> x !in s
    ensures 0 <= r ==> s[r] == x && forall j :: 0 <= j < r ==> s[j] != x
  {
    if s == [] then -1
    else if s[0] == x then 0
    else
      var r := IndexOf(s[1..], x);
      if r == -1 then -1 else r + 1
  }

  /** In a sequence without repetitions, each element is found where it is. */
  lemma IndexOfDistinct<T>(s: seq<T>, k: int)
    requires 0 <= k < |s|
    requires forall i, j :: 0 <= i < j < |s| ==> s[i] != s[j]
    ensures IndexOf(s, s[k]) == k
  {
  }

  /** The number of elements a bucket function sends to label `k`. */
  function Occurrences<T>(s: seq<T>, bucket: T -> int, k: int): nat {
    if s == [] then 0
    else Occurrences(s[..|s| - 1], bucket, k) + (if bucket(s[|s| - 1]) == k then 1 else 0)
  }

  /** The number of elements a bucket function sends to one of `0 .. n-1`. */
  function Recognised<T>(s: seq<T>, bucket: T -> int, n: nat): (r: nat)
    ensures r <= |s|
  {
    if s == [] then 0
    else Recognised(s[..|s| - 1], bucket, n) + (if 0 <= bucket(s[|s| - 1]) < n then 1 else 0)
  }

  function Sum(c: seq<nat>): nat {
    if c == [] then 0 else Sum(c[..|c| - 1]) + c[|c| - 1]
  }

  lemma {:induction false} SumIncrement(c: seq<nat>, b: nat)
    requires b < |c|
    ensures Sum(c[b := c[b] + 1]) == Sum(c) + 1
  {
    var d := c[b := c[b] + 1];
    if b == |c| - 1 {
      assert d[..|d| - 1] == c[..|c| - 1];
    } else {
      assert d[..|d| - 1] == c[..|c| - 1][b := c[b] + 1];
      SumIncrement(c[..|c| - 1], b);
    }
  }

  lemma {:induction false} SumZeros(n: nat)
    ensures Sum(seq(n, _ => 0)) == 0
  {
    if n > 0 {
      assert seq(n, _ => 0)[..n - 1] == seq(n - 1, _ => 0);
      SumZeros(n - 1);
    }
  }

  /** One counter per label `0 .. n-1`, fed one element at a time. Elements the
      bucket function does not recognise leave every counter as it is. */
  function Tallies<T>(s: seq<T>, bucket: T -> int, n: nat): (r: seq<nat>)
    ensures |r| == n
    ensures forall k :: 0 <= k < n ==> r[k] == Occurrences(s, bucket, k)
    ensures Sum(r) == Recognised(s, bucket, n)
  {
    if s == [] then
      SumZeros(n);
      seq(n, _ => 0)
    else
      var c := Tallies(s[..|s| - 1], bucket, n);
      var b := bucket(s[|s| - 1]);
      if 0 <= b < n then
        SumIncrement(c, b);
        c[b := c[b] + 1]
      else c
  }

  lemma OccurrencesAppendOne<T>(s: seq<T>, x: T, bucket: T -> int, k: int)
    ensures Occurrences(s + [x], bucket, k) == Occurrences(s, bucket, k) + (if bucket(x) == k then 1 else 0)
  {
    assert (s + [x])[..|s + [x]| - 1] == s;
  }

  /** Counting the elements that map to `k` is counting the filter of any
      test that holds exactly for them. */
  lemma {:induction false} OccurrencesIsFilterLength<T>(s: seq<T>, bucket: T -> int, k: int, p: T -> bool)
    requires forall x :: p(x) == (bucket(x) == k)
    ensures Occurrences(s, bucket, k) == |Filter(s, p)|
  {
    if s != [] {
      var init := s[..|s| - 1];
      var x := s[|s| - 1];
      assert s == init + [x];
      OccurrencesIsFilterLength(init, bucket, k, p);
      FilterAppend(init, [x], p);
    }
  }

  /** `tallyInto`: the counters of `Tallies`, filled in one pass. */
  method CountInto<T>(s: seq<T>, bucket: T -> int, n: nat) returns (counts: seq<nat>)
    ensures counts == Tallies(s, bucket, n)
  {
    counts := seq(n, _ => 0);
    var i := 0;
    while i < |s|
      invariant 0 <= i <= |s|
      invariant counts == Tallies(s[..i], bucket, n)
    {
      var b := bucket(s[i]);
      if 0 <= b < n {
        counts := counts[b := counts[b] + 1];
      }
      assert s[..i + 1][..i] == s[..i];
      i := i + 1;
    }
    assert s[..i] == s;
  }

  /** A bucket function that sends to `k` at least what another sends there
      counts at least as many elements for `k`. */
  lemma {:induction false} OccurrencesMonotone<T>(s: seq<T>, small: T -> int, large: T -> int, k: int)
    requires forall x :: small(x) == k ==> large(x) == k
    ensures Occurrences(s, small, k) <= Occurrences(s, large, k)
  {
    if s != [] {
      OccurrencesMonotone(s[..|s| - 1], small, large, k);
    }
  }
}
