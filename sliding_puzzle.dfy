/** Sliding Puzzle 3x3 (script.js:582-629): the board is an array holding
    0..8, where 8 is the blank and tile v belongs at index v. */
module SlidingPuzzle {
  import opened Scoring
  import Shuffle
  import Counting

  /** The board's width, N. */
  const Width: int := 3
  /** `N*N - 1`, the value that marks the blank. */
  const Blank: int := 8
  /** The solved board, `[...Array(N*N).keys()]`. */
  const Solved: seq<int> := Counting.Keys(Width * Width)

  /** A board holds each of 0..8 exactly once. */
  ghost predicate IsBoard(b: seq<int>)
  {
    |b| == 9 && multiset(b) == multiset(Solved)
  }

  /** `arr.filter(v => v !== N*N-1)`. */
  function WithoutBlank(s: seq<int>): (r: seq<int>)
    ensures Blank !in r
    ensures |r| <= |s|
    ensures Blank !in s ==> r == s
  {
    if s == [] then []
    else if s[|s| - 1] == Blank then WithoutBlank(s[..|s| - 1])
    else WithoutBlank(s[..|s| - 1]) + [s[|s| - 1]]
  }

  /** How many elements of s are smaller than x. */
  function Below(x: int, s: seq<int>): nat
  {
    if s == [] then 0 else Below(x, s[..|s| - 1]) + (if s[|s| - 1] < x then 1 else 0)
  }

  /** The number of pairs i < j with a[i] > a[j]. */
  function Inversions(a: seq<int>): nat
  {
    if a == [] then 0 else Below(a[0], a[1..]) + Inversions(a[1..])
  }

  /** The number of pairs (x from s, y from t) with x > y. */
  function Cross(s: seq<int>, t: seq<int>): nat
  {
    if s == [] then 0 else Below(s[0], t) + Cross(s[1..], t)
  }

  /** What isSolvable decides: the tiles, read without the blank, have an
      even number of inversions. */
  ghost predicate Solvable(b: seq<int>)
  {
    Inversions(WithoutBlank(b)) % 2 == 0
  }

  /** The tiles `move` may swap with the blank: one step apart on the grid. */
  predicate Adjacent(i: int, k: int)
  {
    Abs(k % Width - i % Width) + Abs(k / Width - i / Width) == 1
  }

  /** `board.indexOf(v)`. */
  function IndexOf(s: seq<int>, v: int): (k: int)
    ensures -1 <= k < |s|
    ensures k >= 0 ==> s[k] == v && forall j :: 0 <= j < k ==> s[j] != v
    ensures k == -1 <==> v !in s
  {
    if s == [] then -1
    else if s[0] == v then 0
    else var k := IndexOf(s[1..], v); if k == -1 then -1 else k + 1
  }

  /** How many of the first n cells hold their own tile, the blank not
      counted (render's `if(v===i) correct++` in the non-blank branch). */
  function CorrectIn(s: seq<int>, n: int): nat
    requires 0 <= n <= |s|
  {
    if n == 0 then 0
    else CorrectIn(s, n - 1) + (if s[n - 1] == n - 1 && s[n - 1] != Blank then 1 else 0)
  }

  function CorrectTiles(s: seq<int>): nat
  {
    CorrectIn(s, |s|)
  }

  // ---------------------------------------------------------------------
  // Facts about boards

  lemma SolvedIsBoard()
    ensures IsBoard(Solved)
  {
  }

  lemma BoardRange(b: seq<int>, x: int)
    requires IsBoard(b) && 0 <= x < |b|
    ensures 0 <= b[x] <= Blank
  {
    assert b[x] in multiset(b);
    assert b[x] in multiset(Solved);
  }

  lemma SolvedCount(v: int)
    ensures multiset(Solved)[v] == (if 0 <= v <= Blank then 1 else 0)
  {
    Counting.KeysOnce(Width * Width, v);
  }

  lemma TwoCopies(b: seq<int>, x: int, y: int)
    requires 0 <= x < y < |b| && b[x] == b[y]
    ensures multiset(b)[b[x]] >= 2
  {
    var v := b[x];
    var p, m, q := b[..x], b[x + 1..y], b[y + 1..];
    assert b == p + [v] + m + [v] + q;
    assert multiset(b) == multiset(p) + multiset([v]) + multiset(m) + multiset([v]) + multiset(q);
  }

  lemma BoardDistinct(b: seq<int>, x: int, y: int)
    requires IsBoard(b) && 0 <= x < |b| && 0 <= y < |b| && x != y
    ensures b[x] != b[y]
  {
    if b[x] == b[y] {
      if x < y { TwoCopies(b, x, y); } else { TwoCopies(b, y, x); }
      SolvedCount(b[x]);
    }
  }

  lemma BlankPresent(b: seq<int>)
    requires IsBoard(b)
    ensures Blank in b && 0 <= IndexOf(b, Blank) < 9 && b[IndexOf(b, Blank)] == Blank
  {
    assert Blank in multiset(Solved);
    assert Blank in multiset(b);
  }

  lemma SwapKeepsBoard(b: seq<int>, i: int, k: int)
    requires IsBoard(b) && 0 <= i < 9 && 0 <= k < 9
    ensures IsBoard(Shuffle.Swap(b, i, k))
  {
    Shuffle.SwapPermutes(b, i, k);
  }

  lemma AdjacentGap(i: int, k: int)
    requires 0 <= i < 9 && 0 <= k < 9 && Adjacent(i, k)
    ensures i - k == 1 || k - i == 1 || i - k == 3 || k - i == 3
  {
  }

  // ---------------------------------------------------------------------
  // Inversion counting

  lemma {:induction false} BelowAppend(x: int, s: seq<int>, t: seq<int>)
    ensures Below(x, s + t) == Below(x, s) + Below(x, t)
    decreases |t|
  {
    if t != [] {
      assert (s + t)[..|s + t| - 1] == s + t[..|t| - 1];
      BelowAppend(x, s, t[..|t| - 1]);
    } else {
      assert s + t == s;
    }
  }

  lemma {:induction false} CrossAppendRight(s: seq<int>, t: seq<int>, u: seq<int>)
    ensures Cross(s, t + u) == Cross(s, t) + Cross(s, u)
    decreases |s|
  {
    if s != [] {
      BelowAppend(s[0], t, u);
      CrossAppendRight(s[1..], t, u);
    }
  }

  lemma {:induction false} InversionsAppend(s: seq<int>, t: seq<int>)
    ensures Inversions(s + t) == Inversions(s) + Inversions(t) + Cross(s, t)
    decreases |s|
  {
    if s == [] {
      assert s + t == t;
    } else {
      assert (s + t)[0] == s[0];
      assert (s + t)[1..] == s[1..] + t;
      BelowAppend(s[0], s[1..], t);
      InversionsAppend(s[1..], t);
    }
  }

  function Ind(c: bool): nat { if c then 1 else 0 }

  lemma BelowThree(x: int, t: int, u: int, v: int)
    ensures Below(x, [t, u, v]) == Ind(t < x) + Ind(u < x) + Ind(v < x)
    ensures Below(x, [t, u]) == Ind(t < x) + Ind(u < x)
    ensures Below(x, [t]) == Ind(t < x)
  {
    assert [t, u, v][..2] == [t, u];
    assert [t, u][..1] == [t];
    assert [t][..0] == [];
    assert Below(x, [t]) == Below(x, []) + Ind(t < x);
    assert Below(x, [t, u]) == Below(x, [t]) + Ind(u < x);
    assert Below(x, [t, u, v]) == Below(x, [t, u]) + Ind(v < x);
  }

  /** Below only looks at which elements are there, not their order. */
  lemma BelowRotate(x: int, t: int, u: int, v: int)
    ensures Below(x, [t, u, v]) == Below(x, [u, v, t])
  {
    BelowThree(x, t, u, v);
    BelowThree(x, u, v, t);
  }

  lemma {:induction false} CrossRotate(p: seq<int>, t: int, u: int, v: int)
    ensures Cross(p, [t, u, v]) == Cross(p, [u, v, t])
    decreases |p|
  {
    if p != [] {
      BelowRotate(p[0], t, u, v);
      CrossRotate(p[1..], t, u, v);
    }
  }

  lemma InversionsThree(t: int, u: int, v: int)
    ensures Inversions([t, u, v]) == Ind(u < t) + Ind(v < t) + Ind(v < u)
  {
    assert [t, u, v][1..] == [u, v] && [u, v][1..] == [v] && [v][1..] == [];
    BelowThree(t, u, v, v);
    BelowThree(u, v, v, v);
    assert Inversions([v]) == Below(v, []) + Inversions([]);
    assert Inversions([u, v]) == Below(u, [v]) + Inversions([v]);
    assert Inversions([t, u, v]) == Below(t, [u, v]) + Inversions([u, v]);
  }

  /** Moving one tile t across the two tiles u, v changes the number of
      inversions by an even amount. */
  lemma RotateParity(t: int, u: int, v: int)
    requires t != u && t != v
    ensures Inversions([t, u, v]) % 2 == Inversions([u, v, t]) % 2
  {
    InversionsThree(t, u, v);
    InversionsThree(u, v, t);
  }

  lemma CrossThree(t: int, u: int, v: int, q: seq<int>)
    ensures Cross([t, u, v], q) == Below(t, q) + Below(u, q) + Below(v, q)
  {
    assert [t, u, v][1..] == [u, v] && [u, v][1..] == [v] && [v][1..] == [];
    assert Cross([v], q) == Below(v, q) + Cross([], q);
    assert Cross([u, v], q) == Below(u, q) + Cross([v], q);
    assert Cross([t, u, v], q) == Below(t, q) + Cross([u, v], q);
  }

  lemma CrossLeftRotate(t: int, u: int, v: int, q: seq<int>)
    ensures Cross([t, u, v], q) == Cross([u, v, t], q)
  {
    CrossThree(t, u, v, q);
    CrossThree(u, v, t, q);
  }

  /** A tile that jumps over zero or two other tiles keeps the parity of
      the inversion count. */
  lemma JumpKeepsParity(p: seq<int>, t: int, m: seq<int>, q: seq<int>)
    requires |m| == 0 || (|m| == 2 && t != m[0] && t != m[1])
    ensures Inversions(p + [t] + m + q) % 2 == Inversions(p + m + [t] + q) % 2
  {
    if |m| == 2 {
      var x1, x2 := [t, m[0], m[1]], [m[0], m[1], t];
      assert p + [t] + m + q == p + (x1 + q);
      assert p + m + [t] + q == p + (x2 + q);
      SplitInversions(p, x1, q);
      SplitInversions(p, x2, q);
      CrossRotate(p, t, m[0], m[1]);
      CrossLeftRotate(t, m[0], m[1], q);
      RotateParity(t, m[0], m[1]);
    } else {
      assert p + [t] + m + q == p + m + [t] + q;
    }
  }

  /** The inversions of p + x + q, piece by piece. */
  lemma SplitInversions(p: seq<int>, x: seq<int>, q: seq<int>)
    ensures Inversions(p + (x + q))
         == Inversions(p) + Inversions(x) + Inversions(q) + Cross(x, q) + Cross(p, x) + Cross(p, q)
  {
    InversionsAppend(p, x + q);
    InversionsAppend(x, q);
    CrossAppendRight(p, x, q);
  }

  lemma {:induction false} WithoutBlankAppend(s: seq<int>, t: seq<int>)
    ensures WithoutBlank(s + t) == WithoutBlank(s) + WithoutBlank(t)
    decreases |t|
  {
    if t == [] {
      assert s + t == s;
    } else {
      assert (s + t)[..|s + t| - 1] == s + t[..|t| - 1];
      WithoutBlankAppend(s, t[..|t| - 1]);
    }
  }

  lemma WithoutBlankPieces(p: seq<int>, x: int, m: seq<int>, y: int, q: seq<int>)
    requires Blank !in m
    ensures WithoutBlank(p + [x] + m + [y] + q)
         == WithoutBlank(p) + WithoutBlank([x]) + m + WithoutBlank([y]) + WithoutBlank(q)
  {
    WithoutBlankAppend(p + [x] + m + [y], q);
    WithoutBlankAppend(p + [x] + m, [y]);
    WithoutBlankAppend(p + [x], m);
    WithoutBlankAppend(p, [x]);
  }

  /** The board around a swap of cells lo < hi: what comes before, the two
      cells, what lies between and what comes after. */
  lemma SplitAround(b: seq<int>, lo: int, hi: int)
    requires 0 <= lo < hi < |b|
    ensures b == b[..lo] + [b[lo]] + b[lo + 1..hi] + [b[hi]] + b[hi + 1..]
    ensures Shuffle.Swap(b, lo, hi) == b[..lo] + [b[hi]] + b[lo + 1..hi] + [b[lo]] + b[hi + 1..]
    ensures Shuffle.Swap(b, hi, lo) == Shuffle.Swap(b, lo, hi)
  {
  }

  /** Dropping the blank from either end of the traded stretch. */
  lemma DropBlankLeft(p: seq<int>, t: int, m: seq<int>, q: seq<int>)
    requires t != Blank && Blank !in m
    ensures WithoutBlank(p + [Blank] + m + [t] + q) == WithoutBlank(p) + m + [t] + WithoutBlank(q)
  {
    WithoutSingletons(t);
    var wp, wq := WithoutBlank(p), WithoutBlank(q);
    WithoutBlankPieces(p, Blank, m, t, q);
    assert wp + [] + m + [t] + wq == wp + m + [t] + wq;
  }

  lemma DropBlankRight(p: seq<int>, t: int, m: seq<int>, q: seq<int>)
    requires t != Blank && Blank !in m
    ensures WithoutBlank(p + [t] + m + [Blank] + q) == WithoutBlank(p) + [t] + m + WithoutBlank(q)
  {
    WithoutSingletons(t);
    var wp, wq := WithoutBlank(p), WithoutBlank(q);
    WithoutBlankPieces(p, t, m, Blank, q);
    assert wp + [t] + m + [] + wq == wp + [t] + m + wq;
  }

  lemma WithoutSingletons(t: int)
    requires t != Blank
    ensures WithoutBlank([Blank]) == [] && WithoutBlank([t]) == [t]
  {
    assert [Blank][..0] == [] && [t][..0] == [];
  }

  /** The blank and a tile t trade places across m, which holds no blank. */
  lemma TradeKeepsParity(p: seq<int>, t: int, m: seq<int>, q: seq<int>)
    requires t != Blank && Blank !in m
    requires |m| == 0 || (|m| == 2 && t != m[0] && t != m[1])
    ensures Inversions(WithoutBlank(p + [Blank] + m + [t] + q)) % 2
         == Inversions(WithoutBlank(p + [t] + m + [Blank] + q)) % 2
  {
    DropBlankLeft(p, t, m, q);
    DropBlankRight(p, t, m, q);
    JumpKeepsParity(WithoutBlank(p), t, m, WithoutBlank(q));
  }

  /** The board after `move(i)`: tile i and the blank trade cells when
      they are neighbours, and nothing changes otherwise. */
  function Moved(b: seq<int>, i: int): seq<int>
    requires IsBoard(b) && 0 <= i < 9
  {
    BlankPresent(b);
    var k := IndexOf(b, Blank);
    if Adjacent(i, k) then Shuffle.Swap(b, i, k) else b
  }

  /** A move yields a board again, changes it exactly when the tile
      touches the blank, and keeps its solvability either way. */
  lemma MovedKeepsBoard(b: seq<int>, i: int)
    requires IsBoard(b) && 0 <= i < 9
    ensures IsBoard(Moved(b, i))
    ensures Solvable(Moved(b, i)) <==> Solvable(b)
    ensures Moved(b, i) != b <==> Adjacent(i, IndexOf(b, Blank))
  {
    BlankPresent(b);
    var k := IndexOf(b, Blank);
    if Adjacent(i, k) {
      SwapKeepsBoard(b, i, k);
      MoveKeepsSolvable(b, i, k);
      assert i != k;
      assert Moved(b, i)[k] != b[k] by {
        BoardDistinct(b, i, k);
      }
    }
  }

  /** `move` keeps a solvable board solvable, and an unsolvable one
      unsolvable: sliding a tile into the blank never changes the parity
      isSolvable tests. */
  lemma MoveKeepsSolvable(b: seq<int>, i: int, k: int)
    requires IsBoard(b) && 0 <= i < 9 && 0 <= k < 9 && b[k] == Blank && Adjacent(i, k)
    ensures Solvable(Shuffle.Swap(b, i, k)) <==> Solvable(b)
  {
    AdjacentGap(i, k);
    var lo, hi := if i < k then i else k, if i < k then k else i;
    var p, m, q := b[..lo], b[lo + 1..hi], b[hi + 1..];
    var t := b[i];
    SplitAround(b, lo, hi);
    assert Blank !in m by {
      forall j | 0 <= j < |m| ensures m[j] != Blank {
        BoardDistinct(b, lo + 1 + j, k);
      }
    }
    BoardDistinct(b, i, k);
    if |m| == 2 {
      BoardDistinct(b, i, lo + 1);
      BoardDistinct(b, i, lo + 2);
    }
    TradeKeepsParity(p, t, m, q);
  }

  // ---------------------------------------------------------------------
  // Counting correct tiles

  lemma {:induction false} CorrectInAtMost(s: seq<int>, n: int)
    requires 0 <= n <= |s|
    ensures CorrectIn(s, n) <= n
    decreases n
  {
    if n > 0 {
      CorrectInAtMost(s, n - 1);
    }
  }

  lemma {:induction false} OneMiss(s: seq<int>, n: int, x: int)
    requires 0 <= x < n <= |s| && (s[x] != x || s[x] == Blank)
    ensures CorrectIn(s, n) <= n - 1
    decreases n
  {
    if x == n - 1 {
      CorrectInAtMost(s, n - 1);
    } else {
      OneMiss(s, n - 1, x);
    }
  }

  lemma {:induction false} TwoMisses(s: seq<int>, n: int, x: int, y: int)
    requires 0 <= x < y < n <= |s|
    requires s[x] != x || s[x] == Blank
    requires s[y] != y || s[y] == Blank
    ensures CorrectIn(s, n) <= n - 2
    decreases n
  {
    if y == n - 1 {
      OneMiss(s, n - 1, x);
    } else {
      TwoMisses(s, n - 1, x, y);
    }
  }

  /** As written, render finishes the game when `correct === N*N`, but the
      blank is never counted, so `correct` is at most 8 and the puzzle
      never finishes, however it is solved. */
  lemma CorrectNeverNine(b: seq<int>)
    requires IsBoard(b)
    ensures CorrectTiles(b) <= Blank
    ensures !FinishesAsWritten(b)
  {
    BlankPresent(b);
    OneMiss(b, 9, IndexOf(b, Blank));
  }

  /** render's finishing test as written. */
  predicate FinishesAsWritten(b: seq<int>)
  {
    CorrectTiles(b) == Width * Width
  }

  /** The finishing test corrected to the number of tiles, `N*N - 1`. */
  predicate Finishes(b: seq<int>)
  {
    CorrectTiles(b) == Width * Width - 1
  }

  lemma {:induction false} CorrectInSolved(n: int)
    requires 0 <= n <= 9
    ensures CorrectIn(Solved, n) == if n == 9 then 8 else n
  {
    if n > 0 {
      CorrectInSolved(n - 1);
    }
  }

  /** The solved board, and only the solved board, passes the corrected
      test. */
  lemma FinishesIffSolved(b: seq<int>)
    requires IsBoard(b)
    ensures Finishes(b) <==> b == Solved
  {
    CorrectInSolved(9);
    if b != Solved {
      var x :| 0 <= x < 9 && b[x] != Solved[x];
      BlankPresent(b);
      var k := IndexOf(b, Blank);
      if b[x] != Blank {
        assert x != k;
        if x < k { TwoMisses(b, 9, x, k); } else { TwoMisses(b, 9, k, x); }
      } else {
        assert x != 8;
        BoardDistinct(b, x, 8);
        TwoMisses(b, 9, x, 8);
      }
    }
  }

  // ---------------------------------------------------------------------
  // The start of the game

  /** The binding of `let last` when render reads it. */
  datatype Binding = Uninitialized | Holds(value: real)

  /** The outcome of startSlidingPuzzle: the ReferenceError a read of an
      uninitialised `let` binding throws, or a started game with its `last`. */
  datatype StartOutcome = ReferenceError | Started(last: real)

  /** render's update `last = Math.max(last, prog)` on the given binding. */
  function RenderLast(last: Binding, b: seq<int>): StartOutcome
  {
    match last
    case Uninitialized => ReferenceError
    case Holds(v) => Started(Max(v, CorrectTiles(b) as real / 9.0))
  }

  /** The start as written: render() (script.js:625) runs before
      `let last=0` (script.js:627) has initialised the binding. */
  function StartAsWritten(b: seq<int>): StartOutcome
  {
    RenderLast(Uninitialized, b)
  }

  /** Only the binding differs: as written every start throws, while on
      any board the start with `last` initialised succeeds. */
  lemma StartAsWrittenThrows(b: seq<int>)
    ensures StartAsWritten(b) == ReferenceError
    ensures IsBoard(b) ==> Start(b).Started? && Start(b).last == CorrectTiles(b) as real / 9.0
  {
  }

  /** The start with `last` initialised before the first render. */
  function Start(b: seq<int>): (r: StartOutcome)
    requires IsBoard(b)
    ensures r.Started? && 0.0 <= r.last <= 8.0 / 9.0
    ensures r.last == CorrectTiles(b) as real / 9.0
  {
    CorrectNeverNine(b);
    RenderLast(Holds(0.0), b)
  }

  // ---------------------------------------------------------------------
  // The loops of the source

  /** The inversions from position i: those of a[i] with what follows,
      then the rest. */
  lemma InversionsFrom(a: seq<int>, i: int)
    requires 0 <= i < |a|
    ensures Inversions(a[i..]) == Below(a[i], a[i + 1..]) + Inversions(a[i + 1..])
  {
    assert a[i..][0] == a[i] && a[i..][1..] == a[i + 1..];
  }

  /** Extending the slice a[lo..j] by a[j] counts a[j] once more if it
      lies below x. */
  lemma BelowExtend(x: int, a: seq<int>, lo: int, j: int)
    requires 0 <= lo <= j < |a|
    ensures Below(x, a[lo..j + 1]) == Below(x, a[lo..j]) + (if a[j] < x then 1 else 0)
  {
    assert a[lo..j + 1][..j - lo] == a[lo..j];
  }

  /** isSolvable(arr). */
  method IsSolvable(arr: seq<int>) returns (solvable: bool)
    ensures solvable == Solvable(arr)
  {
    var a := WithoutBlank(arr);
    var inv := 0;
    var i := 0;
    while i < |a|
      invariant 0 <= i <= |a|
      invariant inv + Inversions(a[i..]) == Inversions(a)
    {
      InversionsFrom(a, i);
      ghost var before := inv;
      var j := i + 1;
      while j < |a|
        invariant i + 1 <= j <= |a|
        invariant inv == before + Below(a[i], a[i + 1..j])
      {
        BelowExtend(a[i], a, i + 1, j);
        if a[i] > a[j] {
          inv := inv + 1;
        }
        j := j + 1;
      }
      assert a[i + 1..j] == a[i + 1..];
      i := i + 1;
    }
    assert a[i..] == [];
    solvable := inv % 2 == 0;
  }

  /** The counting loop of render (board.forEach). */
  method CountCorrect(board: array<int>) returns (correct: nat)
    ensures correct == CorrectTiles(board[..])
  {
    correct := 0;
    var i := 0;
    while i < board.Length
      invariant 0 <= i <= board.Length
      invariant correct == CorrectIn(board[..], i)
    {
      var v := board[i];
      if v != Blank && v == i {
        correct := correct + 1;
      }
      i := i + 1;
    }
  }

  /** The puzzle's state: the board array and the best progress `last`. */
  class Puzzle {
    const board: array<int>
    var last: real

    ghost predicate Valid()
      reads this, board
    {
      board.Length == 9 && IsBoard(board[..]) && 0.0 <= last <= 1.0
    }

    /** `const board = [...Array(N*N).keys()]`, with `last` initialised
        first (the corrected order). */
    constructor ()
      ensures Valid() && fresh(board) && board[..] == Solved && last == 0.0
    {
      board := new int[9] [0, 1, 2, 3, 4, 5, 6, 7, 8];
      last := 0.0;
      new;
      assert board[..] == Solved;
    }

    /** `do { shuffle(board); } while(!isSolvable(board));`, with one
        round of Math.random draws per entry of `rounds`. It stops at the
        first solvable board; if the draws run out first, the board is not
        solvable and the source would keep drawing. */
    method Scramble(rounds: seq<seq<int>>) returns (found: bool)
      requires Valid() && |rounds| > 0
      requires forall r :: 0 <= r < |rounds| ==> Shuffle.ValidPicks(rounds[r], 9)
      modifies board
      ensures Valid()
      ensures found <==> Solvable(board[..])
    {
      var r := 0;
      found := false;
      while !found && r < |rounds|
        invariant 0 <= r <= |rounds|
        invariant board.Length == 9 && IsBoard(board[..])
        invariant found ==> Solvable(board[..])
        invariant !found && r > 0 ==> !Solvable(board[..])
        invariant r == 0 ==> !found
        decreases |rounds| - r, !found
      {
        Shuffle.ShuffleInPlace(board, rounds[r]);
        found := IsSolvable(board[..]);
        r := r + 1;
      }
    }

    /** render: count the correct tiles, raise `last`, and report the
        finishGame(1) call when the corrected test passes. */
    method Render() returns (finish: Option<Progress>)
      requires Valid()
      modifies this
      ensures Valid() && last == Max(old(last), CorrectTiles(board[..]) as real / 9.0)
      ensures finish == (if board[..] == Solved then Some(Number(1.0)) else None)
    {
      var correct := CountCorrect(board);
      CorrectNeverNine(board[..]);
      last := Max(last, correct as real / 9.0);
      FinishesIffSolved(board[..]);
      finish := if correct == Width * Width - 1 then Some(Number(1.0)) else None;
    }

    /** move(i): slide tile i into the blank when they are neighbours,
        then render. */
    method Move(i: int) returns (finish: Option<Progress>)
      requires Valid() && 0 <= i < 9
      modifies this, board
      ensures Valid() && board[..] == Moved(old(board[..]), i)
      ensures board[..] != old(board[..]) ==>
        last == Max(old(last), CorrectTiles(board[..]) as real / 9.0)
        && finish == (if board[..] == Solved then Some(Number(1.0)) else None)
      ensures board[..] == old(board[..]) ==> last == old(last) && finish == None
    {
      ghost var before := board[..];
      MovedKeepsBoard(before, i);
      BlankPresent(before);
      var blank := IndexOf(board[..], Blank);
      var blankCol, blankRow := blank % Width, blank / Width;
      var col, row := i % Width, i / Width;
      finish := None;
      if Abs(blankCol - col) + Abs(blankRow - row) == 1 {
        board[i], board[blank] := board[blank], board[i];
        assert board[..] == Moved(before, i);
        finish := Render();
      }
    }
  }
}
