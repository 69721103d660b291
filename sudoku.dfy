/** Sudoku Mini 4x4 (script.js:273-330): a fixed puzzle, its solution, and
    the `correct` counter kept by the input handlers of the empty cells. */
module Sudoku {
  import opened Scoring
  import opened Counting

  const Size: int := 4
  const Cells: int := 16

  /** `puzzle`; 0 marks an empty cell. */
  const Puzzle: seq<seq<int>> := [
    [0, 0, 3, 4],
    [3, 4, 0, 0],
    [0, 0, 4, 2],
    [4, 2, 0, 0]]

  /** `solution`. */
  const Solution: seq<seq<int>> := [
    [2, 1, 3, 4],
    [3, 4, 2, 1],
    [1, 3, 4, 2],
    [4, 2, 1, 3]]

  /** Cell i in row-major order, the order the set-up loops visit them. */
  function At(g: seq<seq<int>>, i: int): int
    requires |g| == Size && forall r :: 0 <= r < Size ==> |g[r]| == Size
    requires 0 <= i < Cells
  {
    g[i / Size][i % Size]
  }

  /** The cells that get an input box (and add one to `total`). */
  predicate Empty(i: int)
    requires 0 <= i < Cells
  {
    At(Puzzle, i) == 0
  }

  /** Which cells are empty, in row-major order. */
  const EmptyCells: seq<bool> := seq(Cells, i requires 0 <= i < Cells => Empty(i))

  /** `total`, the number of empty cells. */
  const Total: int := 8

  /** The digits a solution grid holds in four given cells. */
  function Digits(g: seq<seq<int>>, cells: seq<(int, int)>): seq<int>
    requires |g| == Size && forall r :: 0 <= r < Size ==> |g[r]| == Size
    requires |cells| == 4
    requires forall k :: 0 <= k < 4 ==> 0 <= cells[k].0 < Size && 0 <= cells[k].1 < Size
  {
    [g[cells[0].0][cells[0].1], g[cells[1].0][cells[1].1],
     g[cells[2].0][cells[2].1], g[cells[3].0][cells[3].1]]
  }

  /** Four digits that are 1, 2, 3 and 4 in some order. */
  predicate OneToFour(d: seq<int>)
  {
    |d| == 4 && (forall k :: 0 <= k < 4 ==> 1 <= d[k] <= 4)
    && forall j, k :: 0 <= j < k < 4 ==> d[j] != d[k]
  }

  function Row(r: int): seq<(int, int)> { [(r, 0), (r, 1), (r, 2), (r, 3)] }
  function Column(c: int): seq<(int, int)> { [(0, c), (1, c), (2, c), (3, c)] }
  function Box(b: int): seq<(int, int)>
  {
    var r, c := 2 * (b / 2), 2 * (b % 2);
    [(r, c), (r, c + 1), (r + 1, c), (r + 1, c + 1)]
  }

  // ---------------------------------------------------------------------
  // The fixed grids

  /** The solution fills every given digit of the puzzle unchanged. */
  lemma SolutionExtendsPuzzle()
    ensures forall r, c :: 0 <= r < Size && 0 <= c < Size && Puzzle[r][c] != 0 ==>
      Solution[r][c] == Puzzle[r][c]
  {
  }

  /** Every row of the solution holds 1, 2, 3 and 4 once each. */
  lemma SolutionRowsValid()
    ensures forall r :: 0 <= r < Size ==> OneToFour(Digits(Solution, Row(r)))
  {
    assert Digits(Solution, Row(0)) == [2, 1, 3, 4];
    assert Digits(Solution, Row(1)) == [3, 4, 2, 1];
    assert Digits(Solution, Row(2)) == [1, 3, 4, 2];
    assert Digits(Solution, Row(3)) == [4, 2, 1, 3];
  }

  /** Every column of the solution holds 1, 2, 3 and 4 once each. */
  lemma SolutionColumnsValid()
    ensures forall c :: 0 <= c < Size ==> OneToFour(Digits(Solution, Column(c)))
  {
    assert Digits(Solution, Column(0)) == [2, 3, 1, 4];
    assert Digits(Solution, Column(1)) == [1, 4, 3, 2];
    assert Digits(Solution, Column(2)) == [3, 2, 4, 1];
    assert Digits(Solution, Column(3)) == [4, 1, 2, 3];
  }

  /** Every 2x2 box of the solution holds 1, 2, 3 and 4 once each. */
  lemma SolutionBoxesValid()
    ensures forall b :: 0 <= b < Size ==> OneToFour(Digits(Solution, Box(b)))
  {
    assert Digits(Solution, Box(0)) == [2, 1, 3, 4];
    assert Digits(Solution, Box(1)) == [3, 4, 2, 1];
    assert Digits(Solution, Box(2)) == [1, 3, 4, 2];
    assert Digits(Solution, Box(3)) == [4, 2, 1, 3];
  }

  /** `total` ends the set-up loops at 8. */
  lemma TotalIsEight()
    ensures |EmptyCells| == Cells && CountTrue(EmptyCells) == Total
  {
    var t, f := [true], [false];
    assert CountTrue(t) == 1 && CountTrue(f) == 0 by {
      assert t[..0] == [] && f[..0] == [];
    }
    CountAppend(t, t);
    CountAppend(f, f);
    var tt, ff := t + t, f + f;
    CountAppend(tt, ff);
    CountAppend(ff, tt);
    var top, bottom := tt + ff, ff + tt;
    assert EmptyCells == top + bottom + top + bottom;
    CountAppend(top, bottom);
    CountAppend(top + bottom, top);
    CountAppend(top + bottom + top, bottom);
  }

  /** A flag is up exactly on the empty cells holding their solution digit. */
  ghost predicate Flagged(values: seq<Option<int>>, ok: seq<bool>)
  {
    && |values| == Cells && |ok| == Cells
    && forall i :: 0 <= i < Cells ==> (ok[i] <==> Empty(i) && values[i] == Some(At(Solution, i)))
  }

  /** A new value in empty cell i and the flag the handler sets for it
      keep every flag right. */
  lemma InputKeepsFlags(values: seq<Option<int>>, ok: seq<bool>, i: int, val: Option<int>)
    requires Flagged(values, ok) && 0 <= i < Cells && Empty(i)
    ensures Flagged(values[i := val], ok[i := val == Some(At(Solution, i))])
  {
  }

  /** The board: what each input box holds (parseInt of its text; None is
      NaN), the `dataset.ok` flags, `correct` and `latest`. Given cells
      have no input box; their entries stay None and false. */
  class Board {
    var values: seq<Option<int>>
    var ok: seq<bool>
    var correct: int
    var latest: real

    /** A flag is up exactly on the empty cells holding their solution
        digit, and `correct` is the number of flags up. */
    ghost predicate Valid()
      reads this
    {
      && |values| == Cells && |ok| == Cells
      && Flagged(values, ok)
      && correct == CountTrue(ok)
      && 0.0 <= latest <= 1.0
    }

    constructor ()
      ensures Valid() && correct == 0 && latest == 0.0
      ensures values == seq(Cells, _ => None) && ok == seq(Cells, _ => false)
    {
      values := seq(Cells, _ => None);
      ok := seq(Cells, _ => false);
      correct := 0;
      latest := 0.0;
      new;
      ZeroCount(Cells);
    }

    /** The `input` handler of empty cell i = 4 * r + c. */
    method Input(i: int, val: Option<int>) returns (finish: Option<Progress>)
      requires Valid() && 0 <= i < Cells && Empty(i)
      modifies this
      ensures Valid()
      ensures values == old(values)[i := val]
      ensures 0 <= correct <= Total
      ensures finish.Some? <==> correct == Total
      ensures finish.Some? ==> finish == Some(Number(1.0)) && latest == old(latest)
      ensures finish.None? ==> latest == Max(old(latest), correct as real / Total as real)
    {
      InputKeepsFlags(values, ok, i, val);
      ghost var flags := ok[i := val == Some(At(Solution, i))];
      values := values[i := val];
      if val == Some(At(Solution, i)) {
        if !ok[i] {
          CountUpdate(ok, i, true);
          correct := correct + 1;
          ok := ok[i := true];
        }
      } else {
        if ok[i] {
          CountUpdate(ok, i, false);
          correct := correct - 1;
          ok := ok[i := false];
        }
      }
      assert ok == flags;
      FlagsBound(ok);
      if correct as real / Total as real >= 1.0 {
        finish := Some(Number(1.0));
      } else {
        finish := None;
        latest := Max(latest, correct as real / Total as real);
      }
    }
  }

  /** Flags that are only ever up on empty cells number at most `total`,
      and reach it exactly when all of them are up. */
  lemma FlagsBound(ok: seq<bool>)
    requires |ok| == Cells && forall i :: 0 <= i < Cells && ok[i] ==> Empty(i)
    ensures CountTrue(ok) <= Total
    ensures CountTrue(ok) == Total <==> forall i :: 0 <= i < Cells ==> (ok[i] <==> Empty(i))
  {
    TotalIsEight();
    CountMonotone(ok, EmptyCells);
    if forall i :: 0 <= i < Cells ==> (ok[i] <==> Empty(i)) {
      assert ok == EmptyCells;
    }
  }

  /** The game finishes exactly when every empty cell holds its solution
      digit: `correct/total >= 1` is that condition. */
  lemma FinishIffSolved(values: seq<Option<int>>, ok: seq<bool>)
    requires |values| == Cells && |ok| == Cells
    requires forall i :: 0 <= i < Cells ==> (ok[i] <==> Empty(i) && values[i] == Some(At(Solution, i)))
    ensures CountTrue(ok) as real / Total as real >= 1.0 <==>
      forall i :: 0 <= i < Cells && Empty(i) ==> values[i] == Some(At(Solution, i))
  {
    FlagsBound(ok);
  }

}
