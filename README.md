# Ten-game challenge: a verified model of its core

The challenge is a single-page browser script (`script.js`). It plays ten
mini-games in a row. Each game gets a 60-second countdown and reports a
progress value. `finishGame` turns that value into 0 to 10 marks, adds them to
the score and queues the next game.

This project models in Dafny:

- the orchestrator: `startChallenge`, `nextGame`, `finishGame` and the countdown
  callback, over `currentGame`, `totalScore`, `timeLeft`, the interval and
  `cleanupCurrent`;
- the rules of eight of the mini-games: the `shuffle` helper, the maze's
  carving and moves, the 4x4 Sudoku's grids and counter, the memory cards'
  click state machine, the math drill's questions and counters, Simon's
  `playInput`, the typing accuracy count, the snake's `tick`, key handler and
  `spawnApple`, and the sliding puzzle's `isSolvable`, `move` and tile count.

State the script changes in place is modelled as a class whose methods change
those fields. Each class also has a pure description: a `Snapshot()` value and
transition functions, or specification functions over the fields. The lemmas
are proved about these pure descriptions.

Each mini-game handler returns the `finishGame` call it makes as an
`Option<Progress>`. `Challenge.Orchestrator.FinishGame` is the receiving end.

`Math.random` becomes a parameter supplying the values it would have drawn:

- `shuffle` gets the swap indices;
- the maze gets a carve order per cell;
- the snake gets the apple cells drawn;
- the math drill gets the operands and operator index;
- Simon gets the colour.

Timers become explicit steps: a countdown tick, a queued `nextGame`, Simon's
playback end, and the memory cards' flip-back.

Four behaviours of the code that the model keeps as written:

- `finishGame` has no "already finished" guard. Every game's cleanup closure
  calls `finishGame(last)` again when `nextGame` runs it. So a game that ends,
  by finishing itself or by timing out, is scored twice, the index advances
  twice, and the next game is skipped. The last game can even end one past the
  number of games (`Challenge.SelfFinishSkipsNextGame`,
  `Challenge.TimeoutScoredTwice`, `Challenge.IndexCanPassGameCount`).
- Worse, the queue of `nextGame` callbacks never drains once a game has ended.
  Each queued `nextGame` runs the cleanup, whose `finishGame` queues the next
  `nextGame`. So every later game is loaded and then killed 0.7 s later with
  the progress its cleanup has seen by then, normally its starting value. The cascade stops only at a
  game that installs no cleanup (the sliding puzzle, whose start throws before
  it installs one) or at the end of the list. At the sliding puzzle, the
  last queued `nextGame` runs the no-op cleanup left in place and loads the
  sliding puzzle a second time at the same index; only then is the queue
  empty (`Challenge.QueueNeverDrains`,
  `Challenge.QueueCascade`, `Challenge.DoubleScoreExample`).
- The snake's reversal guard compares with the pending direction, not the
  last step taken. Two key presses between ticks can turn the snake onto its
  own neck (`Snake.TwoKeysReverse`, `Snake.ReverseKillsSnake`).
- After Simon's round is repeated, input stays open until the next round
  plays. One more press counts as a mistake and schedules a second round
  (`Simon.ExtraPressAddsRound`).

The one place the model departs from the code is the sliding puzzle. It has two
evident bugs (see Findings). The model exhibits both as written and then uses
the corrected start and finishing test.

## Model

| member | source | states |
|---|---|---|
| Scoring.Clamp | script.js:84 | the clamped progress lies in [0, 1]; a falsy value gives 0; a number in range is kept; below 0 gives 0 and above 1 gives 1 |
| Scoring.Round | script.js:85 | `Math.round`: the nearest integer, with halves rounded up |
| Scoring.Marks | script.js:84-86 | marks lie in 0..10; 10 exactly when the clamped progress is at least 0.95; 0 exactly when it is below 0.05; always within half a mark of ten times the clamped progress |
| Scoring.MarksMonotone | script.js:84-86 | more progress never earns fewer marks |
| Scoring.MarksOfTenths | script.js:84-86 | a progress of k tenths earns exactly k marks |
| Challenge.AfterCleanup | script.js:53-56 | the effect of the installed cleanup: nothing for a no-op, and one more finishGame(last) for a game's cleanup (its properties: AfterCleanupInv, CleanupScoresAgain) |
| Challenge.Next | script.js:52-80 | nextGame: run the cleanup, reset it and stop the countdown; then end the challenge or load the game at the index with a 60-second countdown (its properties: NextInv, NextEndsIffPastLast) |
| Challenge.CountDown | script.js:69-76 | the interval callback: one second off, and finishGame(0) once the count is at most 0 (its properties: CountDownInv, CountdownRunning, CountdownExpires) |
| Challenge.Begin | script.js:42-50 | startChallenge: hide the final view, zero the index and the score, then nextGame (its properties: BeginInv, BeginHidesFinalView, StartLoadsFirstGame) |
| Challenge.Step | script.js:19-96 | one event of the page: a start click, a queued nextGame, a game finishing itself, a countdown tick or a cleanup change (its properties: StepInv) |
| Challenge.Run | script.js:19-96 | a sequence of such events in order (its properties: RunInv, ScoreBound) |
| Challenge.Finish | script.js:82-90 | finishGame stops the countdown, adds exactly the marks of the progress (0..10), advances the index by one and queues one nextGame |
| Challenge.InitialInv | script.js:19-23 | the script's initial values satisfy the orchestrator invariant |
| Challenge.FinishInv | script.js:82-90 | finishGame keeps the invariant: the index counts the calls and the score is the sum of their marks |
| Challenge.AfterCleanupInv | script.js:53-56 | running the cleanup, resetting it to a no-op and clearing the interval keep the invariant |
| Challenge.LoadInv | script.js:60-79 | loading game `currentGame` with a 60-second countdown keeps the invariant, including the running countdown belonging to the last game loaded |
| Challenge.NextInv | script.js:52-80 | nextGame keeps the invariant on both of its branches |
| Challenge.ZeroedInv | script.js:42-50 | zeroing the index and the score gives a state satisfying the invariant, from any state |
| Challenge.BeginInv | script.js:42-50 | startChallenge establishes the invariant from any state |
| Challenge.BeginStopsTimer | script.js:42-56 | stopping the countdown before nextGame gives the same state as leaving it to nextGame's clearInterval |
| Challenge.PendingInv | script.js:89 | the queue of `setTimeout(nextGame, 700)` callbacks plays no part in the invariant |
| Challenge.CountDownInv | script.js:69-76 | a countdown tick keeps the invariant, including the forced finishGame(0) |
| Challenge.StepInv | script.js:19-96 | every event (start click, queued nextGame, self-finish, tick, cleanup change) keeps the invariant |
| Challenge.RunInv | script.js:19-96 | every sequence of events keeps the invariant |
| Challenge.ScoreBound | script.js:82-90 | in every run the index equals the number of finishGame calls, the score is the sum of their marks, and the score is at most 10 per call |
| Challenge.BeginHidesFinalView | script.js:42-56 | from any state, startChallenge hides the final view and leaves a running 60-second countdown for the game it loads, with the new cleanup installed; a stale cleanup can advance the index to 1 at most |
| Challenge.StartLoadsFirstGame | script.js:42-66 | with no stale cleanup, startChallenge hides the final view, zeroes index and score and loads game 0 with 60 seconds, its cleanup installed |
| Challenge.NextEndsIffPastLast | script.js:52-66 | nextGame ends the challenge exactly when the index after the cleanup is at least the number of games; otherwise it loads that game with 60 seconds and the new cleanup |
| Challenge.CleanupScoresAgain | script.js:52-56 | a pending cleanup is one more finishGame: nextGame adds its marks and advances the index once more |
| Challenge.NoCompletionGuard | script.js:82-90 | two finishGame calls score twice, advance the index twice and queue two nextGame calls |
| Challenge.SelfFinishSkipsNextGame | script.js:52-90 | a game that finishes itself with its cleanup installed is scored twice, and the next game is never loaded |
| Challenge.DoubleScoreExample | script.js:42-90 | from the first click, a maze whose cleanup last saw 15/16 (the cell next to the goal) and that then finishes at full progress scores 10 + 9 = 19 and loads Sudoku next, skipping Dodge Rain; Sudoku's own cleanup then kills it with no marks and Memory Flip is loaded, with one nextGame still queued |
| Challenge.RunAppend | script.js:19-96 | running two event sequences one after the other is running their concatenation |
| Challenge.QueueNeverDrains | script.js:52-89 | with a nextGame queued and a game's cleanup installed, the queued nextGame leaves as many calls queued as before, scores the cleanup's marks, advances the index by one and loads the next game with its cleanup |
| Challenge.QueueCascade | script.js:52-89 | from a queued nextGame and an installed cleanup, k queued callbacks load the next k games in turn, one call always stays queued, and the last game loaded holds the last cleanup |
| Challenge.TimeoutScoredTwice | script.js:69-89 | a game that times out is scored 0 by the countdown and again with its cleanup's progress by the queued nextGame, which skips the following game |
| Challenge.IndexCanPassGameCount | script.js:52-58 | when the last game is scored twice the index ends at the number of games plus one, and the final view is shown |
| Challenge.CountdownRunning | script.js:69-76 | before the count reaches zero, k ticks take exactly k seconds off and change nothing else |
| Challenge.CountdownExpires | script.js:69-76 | a countdown with n seconds left ends on the n-th tick with finishGame(0), which adds no marks; later ticks change nothing |
| Challenge.StoppedTicks | script.js:69-76 | ticks of a cleared interval change nothing |
| Challenge.TimeoutAfterSixtyTicks | script.js:63-76 | a freshly loaded game is still running after 59 ticks and is finished with no marks by the 60th |
| Challenge.Orchestrator.constructor | script.js:19-23 | the fields start at the script's initial values, which satisfy the invariant |
| Challenge.Orchestrator.FinishGame | script.js:82-90 | the new state is Finish of the old one, and the invariant holds |
| Challenge.Orchestrator.CleanUp | script.js:53-56 | runs the installed cleanup, then leaves a no-op cleanup and a stopped countdown |
| Challenge.Orchestrator.NextGame | script.js:52-80 | the new state is Next of the old one, and the invariant holds |
| Challenge.Orchestrator.StartChallenge | script.js:42-50 | the new state is Begin of the old one from any state, and the invariant holds; the final view is hidden and a countdown is running |
| Challenge.Orchestrator.RunQueuedNextGame | script.js:89 | a queued nextGame callback runs nextGame and uses up one queued call |
| Challenge.Orchestrator.Tick | script.js:69-76 | the new state is CountDown of the old one, and the invariant holds |
| Challenge.Orchestrator.Reassign | script.js:186-189 | a game installing or updating its cleanup changes only the cleanup |
| Shuffle.Swap | script.js:100 | the destructuring swap exchanges positions i and j and leaves every other position alone |
| Shuffle.SwapPermutes | script.js:100 | a swap keeps the multiset of elements |
| Shuffle.FisherYates | script.js:100 | the iterations i down to 1 keep the length |
| Shuffle.FisherYatesPermutes | script.js:100 | whatever Math.random returns, the pass is a permutation of its input |
| Shuffle.FisherYatesKeepsTail | script.js:100 | the iterations i down to 1 never touch positions above i |
| Shuffle.LastPositionIsPicked | script.js:100 | the last position ends up holding the element drawn from 0..n-1 by the first iteration |
| Shuffle.Shuffled | script.js:100 | `shuffle`: the Fisher-Yates pass from the last position down to 1 (its properties: ShuffledPermutes, LastPositionIsPicked) |
| Shuffle.ShuffledPermutes | script.js:100 | shuffle returns a permutation of its input, of the same length |
| Shuffle.ShuffleInPlace | script.js:100 | the in-place loop leaves the array equal to the shuffle of its old contents, a permutation of them |
| Counting.CountMonotone | script.js:309-317 | flags that are pointwise below others count no more, and count as many only when they are equal |
| Counting.CountUpdate | script.js:309-314 | raising a lowered flag adds one to the count and lowering a raised one takes one off; otherwise the count is unchanged |
| Counting.Keys | script.js:584 | `[...Array(n).keys()]` has length n and holds k at index k |
| Counting.KeysOnce | script.js:584 | each of 0..n-1 occurs in that range exactly once, and no other value occurs |
| Counting.ZeroCount | script.js:294 | no raised flags count zero |
| Sudoku.SolutionExtendsPuzzle | script.js:275-286 | the solution agrees with every given digit of the puzzle |
| Sudoku.SolutionRowsValid | script.js:281-286 | every row of the solution holds 1, 2, 3 and 4 once each |
| Sudoku.SolutionColumnsValid | script.js:281-286 | every column of the solution holds 1, 2, 3 and 4 once each |
| Sudoku.SolutionBoxesValid | script.js:281-286 | every 2x2 box of the solution holds 1, 2, 3 and 4 once each |
| Sudoku.TotalIsEight | script.js:295-303 | the set-up loops count 8 empty cells, so `total` is 8 |
| Sudoku.InputKeepsFlags | script.js:307-315 | a new value in an empty cell, flagged exactly when it is the solution digit, keeps every flag right |
| Sudoku.FlagsBound | script.js:294-318 | `correct` never exceeds `total`, and reaches it exactly when every empty cell is flagged |
| Sudoku.FinishIffSolved | script.js:316-317 | `correct/total >= 1` holds exactly when every empty cell holds its solution digit |
| Sudoku.Board.constructor | script.js:294 | no input holds a value, no flag is up, and `correct` and `latest` are 0 |
| Sudoku.Board.Input | script.js:307-318 | the input handler stores the value and keeps `correct` equal to the raised flags, in 0..8; it finishes exactly when all 8 are right, and otherwise raises `latest` to the new share |
| MemoryFlip.Deck | script.js:337 | the shuffled pairs of the twelve symbols (its properties: DeckHasPairs) |
| MemoryFlip.DeckHasPairs | script.js:337 | however it is shuffled, the deck holds 24 cards and each of the 12 symbols exactly twice |
| MemoryFlip.Board.MatchedBound | script.js:343-359 | the face-up cards bound the pairs found, so `matched` never exceeds 12 |
| MemoryFlip.Board.constructor | script.js:337-343 | the deck is the shuffled pairs, all cards are face down, there is no first card, no lock and no match |
| MemoryFlip.Board.Click | script.js:350-369 | a click while locked or on an open card changes nothing (`flipping` included); otherwise the card opens and becomes `first`, completes a pair (finishing at 12 pairs, otherwise raising `last` to the matched share), or locks the board for the flip-back timer |
| MemoryFlip.Board.FlipBack | script.js:362-366 | after a mismatch both cards go face down, `first` is cleared and the lock released; `matched` and `last` are unchanged |
| MathDrill.Value | script.js:404-406 | the exact value of a question shown (its properties: AnswerIsExact) |
| MathDrill.NewQuestion | script.js:396-410 | the question uses the drawn operator; for +, - and x it shows the drawn operands |
| MathDrill.AnswerIsExact | script.js:404-406 | every answer is the exact value of the question shown; a division has a non-zero divisor and no remainder |
| MathDrill.ExactQuotient | script.js:405 | (a*b) divided by b is a, with nothing left over |
| MathDrill.AnswerRange | script.js:397-407 | every answer lies between -10 and 144 |
| MathDrill.DrillProgress | script.js:418 | `Math.min(1, correct/20)` (its properties: ProgressShape) |
| MathDrill.ProgressShape | script.js:418 | progress grows with the number of right answers, stays in [0, 1], and is 1 from the twentieth on |
| MathDrill.Drill.constructor | script.js:383-411 | the counters start at 0 and the first question is the one drawn |
| MathDrill.Drill.Submit | script.js:413-421 | counts the attempt, counts a right answer exactly when the input equals the old answer, asks the new question, never lowers `last`, and finishes exactly when 20 are right |
| Simon.NextRound | script.js:461-464 | nextRound appends the drawn colour and starts a playback that closes input |
| Simon.EndPlayback | script.js:455-457 | the end of a playback opens input at the start of the sequence |
| Simon.InitialInv | script.js:450-480 | the set-up state satisfies the invariant |
| Simon.NextRoundInv | script.js:461-464 | nextRound keeps the invariant |
| Simon.EndPlaybackInv | script.js:455-457 | the end of a playback keeps the invariant |
| Simon.PlayInput | script.js:465-479 | the pad handler: ignored while input is closed; the right pad advances `userIndex`, and completing a round raises `best` and `last`, finishing at 8 and otherwise scheduling the next round; a wrong pad closes input and schedules a new round (its properties: PlayInputInv, PressOutcome) |
| Simon.PlayInputInv | script.js:465-479 | a press keeps `userIndex <= seq.length`, never lowers `best` or `last`, keeps the sequence, and finishes exactly when it completes a round of 8 or more |
| Simon.PressOutcome | script.js:465-479 | the right pad advances `userIndex` by one; a wrong pad closes input and schedules a new round, keeping `best` |
| Simon.ExtraPressAddsRound | script.js:465-479 | after a completed short round input stays open, and one more press schedules a second round |
| Simon.Game.constructor | script.js:450-480 | the fields start empty, with `rounds` at 1 counting the synchronous `nextRound()` call at the end of set-up, which the caller runs as its first step (NextRoundStep with the drawn colour) |
| Simon.Game.NextRoundStep | script.js:461-464 | the new state is NextRound of the old one, and the invariant holds |
| Simon.Game.EndPlaybackStep | script.js:455-457 | the new state is EndPlayback of the old one, and the invariant holds |
| Simon.Game.Input | script.js:465-479 | the new state and the finishGame call are those of PlayInput, the invariant holds, and `best` never drops |
| Typing.Agreements | script.js:501-502 | the number of agreeing positions is at most the number compared |
| Typing.AllAgreeIffSamePrefix | script.js:501-502 | every compared position agrees exactly when the typed prefix equals the target's prefix |
| Typing.CountCorrect | script.js:500-503 | the loop counts the positions, up to the shorter length, where the typed text agrees with the sentence |
| Typing.FullIffTypedText | script.js:501-507 | the count reaches the sentence's length exactly when the sentence is a prefix of what was typed |
| Typing.Accuracy | script.js:504 | `Math.min(1, correct/text.length)` (its properties: AccuracyRange) |
| Typing.AccuracyRange | script.js:504 | accuracy lies in [0, 1] and is 1 exactly for a full count |
| Typing.TypingGame.constructor | script.js:511 | `last` starts at 0 |
| Typing.TypingGame.Update | script.js:498-508 | `last` becomes the larger of itself and the accuracy, and the game finishes exactly when the sentence has been typed |
| Snake.FirstFree | script.js:528-533 | the first drawn cell not under the snake; all earlier draws are under it |
| Snake.SpawnApple | script.js:528-533 | the loop returns the first drawn cell off the snake, which is on the grid |
| Snake.Steer | script.js:563-568 | the key handler's new `dir`: an arrow turns unless it points straight back along `dir` (its properties: SteerNeverReverses, TwoKeysReverse) |
| Snake.SteerNeverReverses | script.js:563-568 | one key press keeps `dir` a unit step and never turns it straight back |
| Snake.TwoKeysReverse | script.js:563-568 | Up then Left while moving right turns the snake around |
| Snake.Initial | script.js:525-533 | one segment at the start moving right, 110 ms, nothing eaten, and the first drawn apple off the snake (its properties: InitialInv) |
| Snake.InitialInv | script.js:525 | the set-up state satisfies the snake invariant |
| Snake.Grow | script.js:553 | putting a free in-bounds head one step ahead keeps the segments on the grid, distinct and connected |
| Snake.DropTail | script.js:559 | removing the tail keeps them so |
| Snake.Tick | script.js:547-561 | one tick: step the head, die on a wall or the body, eat the apple (growing, drawing a new one, raising `last`, finishing at 10, and 5 ms faster while above 70 ms) or drop the tail (its properties: TickInv, TickMoves, TickFinish) |
| Snake.TickInv | script.js:547-561 | a tick keeps the snake on the grid, distinct and connected, its length 1 + eaten, the apple free, and the interval between 70 and 110 |
| Snake.EatInv | script.js:554-558 | the eating tick keeps the invariant with a new free apple and an interval at most 5 ms shorter |
| Snake.SlideInv | script.js:559 | the moving tick keeps the invariant |
| Snake.NextHead | script.js:549 | the head one step along `dir` (its properties: TickMoves) |
| Snake.TickMoves | script.js:549-559 | a surviving tick puts the new head one step along `dir` with the old body behind it, and grows the snake exactly when the apple is eaten |
| Snake.TickFinish | script.js:550-557 | a tick finishes the game exactly on dying (with the progress so far) or on eating the tenth apple |
| Snake.ReverseKillsSnake | script.js:549-551 | after the reversing presses, a valid two-cell snake in the middle of the grid dies on the next tick |
| Snake.Game.constructor | script.js:525 | the fields are the initial state with the first apple drawn |
| Snake.Game.KeyDown | script.js:563-568 | only `dir` changes, as Steer says, and never to its opposite |
| Snake.Game.TickStep | script.js:547-561 | the new state and the finishGame call are those of Tick, and the invariant holds |
| Maze.SetPath | script.js:118 | opens exactly one cell and leaves all others alone |
| Maze.AllWalls | script.js:116 | every cell starts as wall |
| Maze.TopRowOpen | script.js:117-128 | when (1, 1) is open and every open room has its neighbouring rooms open, every room of the top row is open |
| Maze.ColumnOpen | script.js:117-128 | under the same conditions every room, row by row down its column, is open |
| Maze.AllRoomsOpen | script.js:117-128 | when (1, 1) is open and every open room has its neighbouring rooms open, every room is open |
| Maze.OrderHasAllSteps | script.js:119 | every shuffled order holds all four directions |
| Maze.ShrinkWalledRooms | script.js:122-124 | opening a walled room shrinks the set of walled rooms, so the recursion ends |
| Maze.Between | script.js:123 | the wall between two rooms lies off the border and the pillars and is no room |
| Maze.StepTarget | script.js:121-122 | carve's bounds test holds exactly when the cell two steps away is a room |
| Maze.OpenKeepsFrame | script.js:118-123 | opening a cell off the border and the pillars keeps the outer wall and pillars |
| Maze.SameRooms | script.js:123-124 | opening a wall cell leaves the walled rooms as they were |
| Maze.CarveStepKeeps | script.js:120-126 | one break-through and recursive carve keep every newly opened room explored |
| Maze.StepsOpenGrow | script.js:120-126 | each pass of the loop leaves the room in that direction open, if there is one |
| Maze.AllExplored | script.js:120-127 | after the four passes every room opened by this carve has all its neighbouring rooms open |
| Maze.ReachGrows | script.js:118-123 | opening more cells keeps every walk a walk, so what was reachable stays reachable |
| Maze.ReachJoin | script.js:165-175 | a walk from a to b followed by one from b to c is a walk from a to c |
| Maze.ReachThroughWall | script.js:122-123 | two open rooms with the open wall cell between them can be walked between |
| Maze.StartReached | script.js:118 | right after `grid[y][x]=0`, every room opened so far can be walked to from (x, y) |
| Maze.CarveStepReaches | script.js:120-126 | after a break-through and the carve beyond it, every room opened since the outer carve began can still be walked to from its room: through the wall, then on |
| Maze.StartCarving | script.js:117-118 | opening (x, y) on a framed grid starts the loop's facts: frame, (x, y) open, nothing closed, and every opened room reachable from (x, y) |
| Maze.OpenWall | script.js:123 | opening the wall cell keeps the frame, leaves the room beyond walled in and the walled rooms as they were |
| Maze.BreakThroughKeeps | script.js:120-126 | one break-through and the carve beyond it keep every loop fact at (x, y), reachability included, and only open cells |
| Maze.CarvedConnected | script.js:116-132 | when every room is open and every room opened by `carve(1,1)` is reachable from (1, 1), every room is, and so is the goal |
| Maze.MoveProgress | script.js:169-170 | `1 - dist/baseDist` for a cell (its properties: ProgressRange, BorderProgressNegative) |
| Maze.ProgressRange | script.js:135-170 | `baseDist` is 16; on any cell off the border progress lies in [0, 1] and is 1 only on the goal |
| Maze.BorderProgressNegative | script.js:170 | on the border the progress formula can go below 0 |
| Maze.Runner.Carve | script.js:117-127 | carve opens (x, y), only ever opens cells, keeps the frame, leaves every room it opened with all its neighbouring rooms open, and every room it opened reachable from (x, y) |
| Maze.Runner.CarveFrom | script.js:120-126 | the loop keeps those facts, reachability from (x, y) included, across the four directions |
| Maze.Runner.BreakThrough | script.js:122-125 | breaking through opens the room beyond and keeps the facts the loop needs, every opened room still reachable from (x, y) |
| Maze.Runner.constructor | script.js:116-132 | the carved maze has every room open and reachable from the start, the goal can be walked to from the start, and the player is on the open start cell |
| Maze.Runner.TryMove | script.js:165-175 | a move onto an open in-grid cell is taken, finishes exactly on the goal, and otherwise raises `lastProgress`; any other move changes nothing |
| Maze.Runner.OnKey | script.js:178-183 | each arrow tries the one-cell move in its direction, as TryMove states: a taken move finishes with progress 1 exactly on the goal and otherwise raises `lastProgress` to the move's progress; any other key, or a blocked move, changes nothing |
| SlidingPuzzle.WithoutBlank | script.js:593 | the filtered array holds no blank, and equals the input when it had none |
| SlidingPuzzle.IndexOf | script.js:616 | `indexOf` gives the first position holding the value, or -1 exactly when it is absent |
| SlidingPuzzle.SolvedCount | script.js:584 | the solved board holds each of 0..8 exactly once |
| SlidingPuzzle.BlankPresent | script.js:616 | every board holds the blank, so `indexOf` finds it |
| SlidingPuzzle.SwapKeepsBoard | script.js:620 | swapping two cells leaves a board |
| SlidingPuzzle.InversionsAppend | script.js:595 | the inversions of a concatenation are those of each part plus the pairs across |
| SlidingPuzzle.Solvable | script.js:592-597 | an even number of inversions among the tiles without the blank (its properties: IsSolvable, MoveKeepsSolvable) |
| SlidingPuzzle.JumpKeepsParity | script.js:592-597 | a tile jumping over zero or two others keeps the parity of the inversion count |
| SlidingPuzzle.MoveKeepsSolvable | script.js:615-623 | sliding a tile into an adjacent blank never changes what isSolvable answers |
| SlidingPuzzle.Moved | script.js:615-623 | the board after `move(i)`: tile and blank swapped when they are neighbours, the board unchanged otherwise (its properties: MovedKeepsBoard, MoveKeepsSolvable) |
| SlidingPuzzle.MovedKeepsBoard | script.js:615-623 | a move leaves a board, changes it exactly when the tile is next to the blank, and keeps its solvability |
| SlidingPuzzle.CorrectTiles | script.js:601-606 | the non-blank tiles in their own cell (its properties: CountCorrect, CorrectNeverNine, FinishesIffSolved) |
| SlidingPuzzle.FinishesAsWritten | script.js:612 | render's test `correct === N*N` as written (its properties: CorrectNeverNine) |
| SlidingPuzzle.Finishes | script.js:612 | the test corrected to `correct === N*N-1` (its properties: FinishesIffSolved) |
| SlidingPuzzle.CorrectNeverNine | script.js:601-612 | the blank is never counted, so `correct` is at most 8 and the test `correct === N*N` never passes |
| SlidingPuzzle.FinishesIffSolved | script.js:601-612 | the corrected test `correct === N*N-1` passes exactly on the solved board |
| SlidingPuzzle.RenderLast | script.js:610 | render's `last = Math.max(last, prog)` on the binding of `last`: a ReferenceError while uninitialised, the larger value otherwise (its properties: StartAsWrittenThrows, Start) |
| SlidingPuzzle.StartAsWritten | script.js:625-627 | the start as written, with render running before `let last=0` (its properties: StartAsWrittenThrows) |
| SlidingPuzzle.StartAsWrittenThrows | script.js:625-627 | only the binding differs: as written every start throws, while on every board the start with `last` initialised succeeds with `last` the correct share |
| SlidingPuzzle.Start | script.js:625-627 | with `last` initialised first, the start succeeds with `last` the correct share, at most 8/9 |
| SlidingPuzzle.IsSolvable | script.js:592-597 | the double loop answers exactly whether the tiles without the blank have an even number of inversions |
| SlidingPuzzle.CountCorrect | script.js:601-606 | the counting loop gives the number of non-blank tiles in their own cell |
| SlidingPuzzle.Puzzle.constructor | script.js:584 | the board starts solved and `last` at 0 |
| SlidingPuzzle.Puzzle.Scramble | script.js:586 | the do-while loop stops with a solvable board; if the draws run out first, the board is unsolvable |
| SlidingPuzzle.Puzzle.Render | script.js:599-613 | `last` becomes the larger of itself and the correct share, and the game finishes exactly when the board is solved |
| SlidingPuzzle.Puzzle.Move | script.js:615-623 | the board becomes the moved board; a change renders, and no change leaves `last` and the finish untouched |

## Left out

- Dodge Rain (script.js:195-268) and Reaction Duel are not modelled. They rest
  on animation-frame physics, `performance.now()` timings and floating-point
  averages.
- The DOM, the canvas drawing, HUD text and the registering and removing of
  listeners are not modelled. Only the state changes they trigger are.
- Timers (`setInterval`, `setTimeout`) become explicit steps. The order in
  which the event loop delivers them is a choice of the caller. The 700 ms,
  420 ms, 500 ms and 600/800 ms delays are not modelled.
- `Math.random` draws are parameters. The maze takes one order per cell, which
  is enough because each cell is carved at most once.
- Snake.SpawnApple: requires a free cell among the draws. The source loops
  until it draws one.
- The restart button's `location.reload()` is not modelled. Neither is an
  exception thrown by a game's start function inside nextGame: the source has
  no recovery for it.
- Progress and marks use exact reals, not IEEE doubles.
- The emoji, colour and sentence strings are stood for by indices, or by the
  sentence itself as a character sequence. Only their equality matters.
- Simon.Game: `rounds` and `playbacks` count scheduled callbacks. They are
  ghost fields, because the source keeps them only in the timer queue.
- Challenge.Orchestrator: `pendingNext`, `scored` and `loaded` are ghost logs
  of the queue, the marks and the loaded indices. They are not source
  variables.
- Simon.Game.EndPlaybackStep: playSeq closes input again on each 420 ms step (script.js:455-459). The model has one playback-end event per playback. With two playbacks overlapping, it keeps input open from the end of the first to the end of the second; the source closes it again at the second playback's next step.
- Typing.CountCorrect: JavaScript indexes strings by UTF-16 code units; the model indexes characters. Text with characters outside the Basic Multilingual Plane (emoji, say) would be compared position by position differently.
- Snake: after the tenth apple, the interval keeps ticking until nextGame's
  cleanup clears it. The model lets ticks go on; `eaten` can then exceed 10.

## Findings

| source | as written | input that shows it | evidently intended | confidence | as-written member | corrected member |
|---|---|---|---|---|---|---|
| script.js:625-627 | `render()` runs before `let last=0`, so its `Math.max(last, prog)` reads `last` in its temporal dead zone and throws a ReferenceError | every start of the sliding puzzle, any scrambled board | `last` initialised before the first render | not executed | SlidingPuzzle.StartAsWrittenThrows | SlidingPuzzle.Start |
| script.js:606-612 | `correct` counts only non-blank tiles in place (at most 8), but the game finishes only when `correct === N*N` (9) | the solved board 0,1,...,8 gives `correct` 8 and no finishGame(1) | finish when `correct === N*N-1`, that is, on the solved board | not executed | SlidingPuzzle.CorrectNeverNine | SlidingPuzzle.FinishesIffSolved |
