/** `shuffle(arr)` (script.js:100): an in-place Fisher-Yates pass. Each
    `Math.floor(Math.random() * (i+1))` is supplied as `picks[i]`. */
module Shuffle {

  /** The values Math.random can make the loop draw: `picks[i]` is the
      index swapped with position i, somewhere in 0..i. */
  ghost predicate ValidPicks(picks: seq<int>, n: int)
  {
    |picks| == n && forall i :: 0 < i < n ==> 0 <= picks[i] <= i
  }

  function Swap<T>(s: seq<T>, i: int, j: int): (r: seq<T>)
    requires 0 <= i < |s| && 0 <= j < |s|
    ensures |r| == |s| && r[i] == s[j] && r[j] == s[i]
    ensures forall k :: 0 <= k < |s| && k != i && k != j ==> r[k] == s[k]
  {
    s[i := s[j]][j := s[i]]
  }

  lemma SwapPermutes<T>(s: seq<T>, i: int, j: int)
    requires 0 <= i < |s| && 0 <= j < |s|
    ensures multiset(Swap(s, i, j)) == multiset(s)
  {
  }

  /** The loop's iterations for i, i-1, ..., 1 applied to s. */
  function FisherYates<T>(s: seq<T>, picks: seq<int>, i: int): (r: seq<T>)
    requires i < |s| && ValidPicks(picks, |s|)
    ensures |r| == |s|
    decreases i
  {
    if i <= 0 then s else FisherYates(Swap(s, i, picks[i]), picks, i - 1)
  }

  /** The whole pass, `i` from `arr.length - 1` down to 1. */
  function Shuffled<T>(s: seq<T>, picks: seq<int>): seq<T>
    requires ValidPicks(picks, |s|)
  {
    FisherYates(s, picks, |s| - 1)
  }

  /** Whatever Math.random returns, the pass rearranges the elements and
      neither adds, drops nor duplicates any. */
  lemma {:induction false} FisherYatesPermutes<T>(s: seq<T>, picks: seq<int>, i: int)
    requires i < |s| && ValidPicks(picks, |s|)
    ensures multiset(FisherYates(s, picks, i)) == multiset(s)
    decreases i
  {
    if i > 0 {
      SwapPermutes(s, i, picks[i]);
      FisherYatesPermutes(Swap(s, i, picks[i]), picks, i - 1);
    }
  }

  /** Positions above i are not touched by the iterations for i..1. */
  lemma {:induction false} FisherYatesKeepsTail<T>(s: seq<T>, picks: seq<int>, i: int, k: int)
    requires ValidPicks(picks, |s|)
    requires 0 <= i < k < |s|
    ensures var r := FisherYates(s, picks, i); |r| == |s| && r[k] == s[k]
    decreases i
  {
    if i > 0 {
      var t := Swap(s, i, picks[i]);
      assert picks[i] <= i;
      assert t[k] == s[k];
      FisherYatesKeepsTail(t, picks, i - 1, k);
      assert FisherYates(s, picks, i) == FisherYates(t, picks, i - 1);
    }
  }

  /** Once iteration i has run, position i holds for good the element
      drawn from 0..i: the last position gets `s[picks[n-1]]`. */
  lemma LastPositionIsPicked<T>(s: seq<T>, picks: seq<int>)
    requires ValidPicks(picks, |s|) && |s| >= 2
    ensures |Shuffled(s, picks)| == |s|
    ensures Shuffled(s, picks)[|s| - 1] == s[picks[|s| - 1]]
  {
    var n := |s|;
    var t := Swap(s, n - 1, picks[n - 1]);
    FisherYatesKeepsTail(t, picks, n - 2, n - 1);
  }

  lemma ShuffledPermutes<T>(s: seq<T>, picks: seq<int>)
    requires ValidPicks(picks, |s|)
    ensures |Shuffled(s, picks)| == |s| && multiset(Shuffled(s, picks)) == multiset(s)
  {
    FisherYatesPermutes(s, picks, |s| - 1);
  }

  /** shuffle(arr) itself, in place. */
  method ShuffleInPlace<T>(a: array<T>, picks: seq<int>)
    requires ValidPicks(picks, a.Length)
    modifies a
    ensures a[..] == Shuffled(old(a[..]), picks)
    ensures multiset(a[..]) == multiset(old(a[..]))
  {
    ghost var original := a[..];
    var i := a.Length - 1;
    while i > 0
      invariant -1 <= i < a.Length
      invariant FisherYates(a[..], picks, i) == Shuffled(original, picks)
    {
      var j := picks[i];
      ghost var before := a[..];
      a[i], a[j] := a[j], a[i];
      assert a[..] == before[i := before[j]][j := before[i]];
      assert FisherYates(before, picks, i) == FisherYates(a[..], picks, i - 1);
      i := i - 1;
    }
    ShuffledPermutes(original, picks);
  }
}
