/** Counting the raised flags of a row of on/off markers: the `dataset.ok`
    flags of the Sudoku inputs and the `dataset.open` flags of the memory
    cards are both kept in step with a counter. Also the index range
    `[...Array(n).keys()]` and how often it holds each value. */
module Counting {

  /** `[...Array(n).keys()]`: 0, 1, ..., n-1. */
  function Keys(n: nat): (r: seq<int>)
    ensures |r| == n && forall k :: 0 <= k < n ==> r[k] == k
  {
    if n == 0 then [] else Keys(n - 1) + [n - 1]
  }

  /** Each of 0..n-1 occurs in the range exactly once, and nothing else. */
  lemma {:induction false} KeysOnce(n: nat, v: int)
    ensures multiset(Keys(n))[v] == if 0 <= v < n then 1 else 0
  {
    if n > 0 {
      KeysOnce(n - 1, v);
      var r := Keys(n - 1);
      assert Keys(n) == r + [n - 1];
      assert multiset(r + [n - 1])[v] == multiset(r)[v] + multiset([n - 1])[v];
    }
  }

  function CountTrue(s: seq<bool>): (n: nat)
    ensures n <= |s|
  {
    if s == [] then 0 else CountTrue(s[..|s| - 1]) + (if s[|s| - 1] then 1 else 0)
  }

  /** A set of flags that is pointwise below another counts no more. */
  lemma {:induction false} CountMonotone(a: seq<bool>, b: seq<bool>)
    requires |a| == |b| && forall i :: 0 <= i < |a| && a[i] ==> b[i]
    ensures CountTrue(a) <= CountTrue(b)
    ensures CountTrue(a) == CountTrue(b) ==> a == b
    decreases |a|
  {
    if a != [] {
      var n := |a| - 1;
      CountMonotone(a[..n], b[..n]);
      if CountTrue(a) == CountTrue(b) {
        assert a[n] == b[n];
        assert a == a[..n] + [a[n]] && b == b[..n] + [b[n]];
      }
    }
  }

  lemma {:induction false} CountUpdate(s: seq<bool>, i: int, v: bool)
    requires 0 <= i < |s|
    ensures CountTrue(s[i := v]) == CountTrue(s) - (if s[i] then 1 else 0) + (if v then 1 else 0)
    decreases |s|
  {
    var n := |s| - 1;
    if i < n {
      assert s[i := v][..n] == s[..n][i := v];
      CountUpdate(s[..n], i, v);
    } else {
      assert s[i := v][..n] == s[..n];
    }
  }

  lemma {:induction false} ZeroCount(n: nat)
    ensures CountTrue(seq(n, _ => false)) == 0
  {
    if n > 0 {
      assert seq(n, _ => false)[..n - 1] == seq(n - 1, _ => false);
      ZeroCount(n - 1);
    }
  }

  /** The flags of two rows laid end to end count as the two rows do. */
  lemma {:induction false} CountAppend(a: seq<bool>, b: seq<bool>)
    ensures CountTrue(a + b) == CountTrue(a) + CountTrue(b)
    decreases |b|
  {
    if b != [] {
      var n := |b| - 1;
      assert (a + b)[..|a + b| - 1] == a + b[..n];
      CountAppend(a, b[..n]);
    } else {
      assert a + b == a;
    }
  }
}
