/** The challenge orchestrator (script.js:19-96): the module-level variables
    currentGame, totalScore, timeLeft, timerId and cleanupCurrent, and the
    functions startChallenge, nextGame, finishGame and the countdown callback. */
module Challenge {
  import opened Scoring

  /** The ten entries of GAMES, in the order they are played. */
  datatype Game =
    | MazeRunner | DodgeRain | Sudoku | MemoryFlip | MathDrill
    | SimonSays | TypingAccuracy | Snake | SlidingPuzzle | ReactionDuel

  const Games: seq<Game> :=
    [MazeRunner, DodgeRain, Sudoku, MemoryFlip, MathDrill,
     SimonSays, TypingAccuracy, Snake, SlidingPuzzle, ReactionDuel]

  const GameCount: int := |Games|

  /** Seconds each game gets (`timeLeft = 60`). */
  const GameTime: int := 60

  /** What `cleanupCurrent()` does: nothing (the `() => {}` that nextGame
      installs), or what every mini-game installs, `finishGame(last)` with
      the progress its closure has seen so far. */
  datatype Cleanup = NoOp | FinishWith(last: Progress)

  /** The orchestrator's state as a value. The first six fields are the
      source's variables (timerRunning stands for a live `timerId`,
      finalShown for the final view that endChallenge reveals); the last
      three are bookkeeping of the model: how many `setTimeout(nextGame, 700)`
      callbacks are still queued, the marks each finishGame call added
      since the challenge started, and the indices nextGame loaded. */
  datatype Session = Session(
    currentGame: int,
    totalScore: int,
    timeLeft: int,
    timerRunning: bool,
    cleanup: Cleanup,
    finalShown: bool,
    pendingNext: nat,
    scored: seq<int>,
    loaded: seq<int>)

  /** The state the script is in before the start button is clicked. */
  const Initial: Session :=
    Session(0, 0, GameTime, false, NoOp, false, 0, [], [])

  /** Everything that can run the orchestrator's code: a click on start,
      a queued nextGame callback, a mini-game calling finishGame itself,
      one countdown tick, and a mini-game changing what its cleanup
      closure will report (installing it, or raising its `last`). */
  datatype Event =
    | Start(installed: Cleanup)
    | RunNext(installed: Cleanup)
    | Complete(progress: Progress)
    | TimerTick
    | Reassign(cleanup: Cleanup)

  function Sum(xs: seq<int>): int
  {
    if xs == [] then 0 else Sum(xs[..|xs| - 1]) + xs[|xs| - 1]
  }

  /** finishGame(p): stop the countdown, add the marks, advance the index,
      queue nextGame. There is no "already finished" check. */
  function Finish(s: Session, p: Progress): (r: Session)
    ensures r.currentGame == s.currentGame + 1
    ensures r.totalScore - s.totalScore == Marks(p)
    ensures s.totalScore <= r.totalScore <= s.totalScore + MaxMarks
    ensures !r.timerRunning && r.pendingNext == s.pendingNext + 1
  {
    var m := Marks(p);
    s.(timerRunning := false,
       totalScore := s.totalScore + m,
       currentGame := s.currentGame + 1,
       pendingNext := s.pendingNext + 1,
       scored := s.scored + [m])
  }

  /** The state right after the cleanup call of nextGame (script.js:54). */
  function AfterCleanup(s: Session): Session
  {
    match s.cleanup
    case NoOp => s
    case FinishWith(last) => Finish(s, last)
  }

  /** nextGame: run the cleanup, reset it to a no-op, stop the countdown,
      then end the challenge or load GAMES[currentGame] with a fresh
      countdown. `installed` is what the loaded game's start function
      leaves in cleanupCurrent. */
  function Next(s: Session, installed: Cleanup): Session
  {
    var c := AfterCleanup(s).(cleanup := NoOp, timerRunning := false);
    if c.currentGame >= GameCount then c.(finalShown := true)
    else c.(timeLeft := GameTime, timerRunning := true, cleanup := installed,
             loaded := c.loaded + [c.currentGame])
  }

  /** The countdown callback: one second less, and finishGame(0) once the
      count reaches zero. */
  function CountDown(s: Session): Session
  {
    var t := s.(timeLeft := s.timeLeft - 1);
    if t.timeLeft <= 0 then Finish(t, Number(0.0)) else t
  }

  /** startChallenge: hide the final view, zero the index and the score,
      then nextGame. The model's marks log and load log start afresh with it. */
  function Begin(s: Session, installed: Cleanup): Session
  {
    Next(s.(currentGame := 0, totalScore := 0, finalShown := false, scored := [], loaded := []), installed)
  }

  /** One event. A cleared interval and an empty timeout queue deliver
      nothing, so those events leave the state as it is. */
  function Step(s: Session, e: Event): Session
  {
    match e
    case Start(g) => Begin(s, g)
    case RunNext(g) =>
      if s.pendingNext == 0 then s else Next(s.(pendingNext := s.pendingNext - 1), g)
    case Complete(p) => Finish(s, p)
    case TimerTick => if s.timerRunning then CountDown(s) else s
    case Reassign(c) => s.(cleanup := c)
  }

  function Run(s: Session, es: seq<Event>): Session
    decreases |es|
  {
    if es == [] then s else Run(Step(s, es[0]), es[1..])
  }

  /** n countdown callbacks in a row. */
  function Ticks(n: nat): (es: seq<Event>)
    ensures |es| == n
    ensures forall i :: 0 <= i < n ==> es[i] == TimerTick
  {
    seq(n, _ => TimerTick)
  }

  /** What holds of every state reached after the script loads: the index
      counts the finishGame calls, the score is the sum of their marks, a
      running countdown belongs to the last game loaded and has 1 to 60
      seconds left, and games were loaded in non-decreasing order. */
  ghost predicate Inv(s: Session)
  {
    && s.currentGame == |s.scored|
    && s.totalScore == Sum(s.scored)
    && (forall i :: 0 <= i < |s.scored| ==> 0 <= s.scored[i] <= MaxMarks)
    && (s.timerRunning ==>
          1 <= s.timeLeft <= GameTime && |s.loaded| > 0 && s.loaded[|s.loaded| - 1] == s.currentGame)
    && (forall i :: 0 <= i < |s.loaded| ==> 0 <= s.loaded[i] < GameCount && s.loaded[i] <= s.currentGame)
    && (forall i, j :: 0 <= i < j < |s.loaded| ==> s.loaded[i] <= s.loaded[j])
  }

  lemma {:induction false} SumBounds(xs: seq<int>)
    requires forall i :: 0 <= i < |xs| ==> 0 <= xs[i] <= MaxMarks
    ensures 0 <= Sum(xs) <= MaxMarks * |xs|
    decreases |xs|
  {
    if xs != [] {
      SumBounds(xs[..|xs| - 1]);
    }
  }

  lemma InitialInv()
    ensures Inv(Initial)
  {
  }

  lemma FinishInv(s: Session, p: Progress)
    requires Inv(s)
    ensures Inv(Finish(s, p))
  {
    var r := Finish(s, p);
    assert r.scored[..|r.scored| - 1] == s.scored;
  }

  lemma AfterCleanupInv(s: Session)
    requires Inv(s)
    ensures Inv(AfterCleanup(s).(cleanup := NoOp, timerRunning := false))
  {
    if s.cleanup.FinishWith? {
      FinishInv(s, s.cleanup.last);
    }
  }

  /** Loading the game at the index keeps the invariant. */
  lemma LoadInv(c: Session, g: Cleanup)
    requires Inv(c) && 0 <= c.currentGame < GameCount
    ensures Inv(c.(timeLeft := GameTime, timerRunning := true, cleanup := g,
                   loaded := c.loaded + [c.currentGame]))
  {
    var l := c.loaded + [c.currentGame];
    forall i, j | 0 <= i < j < |l| ensures l[i] <= l[j] {
      if j < |c.loaded| {
        assert l[i] == c.loaded[i] && l[j] == c.loaded[j];
      } else {
        assert l[i] == c.loaded[i] && l[j] == c.currentGame;
      }
    }
  }

  lemma NextInv(s: Session, g: Cleanup)
    requires Inv(s)
    ensures Inv(Next(s, g))
  {
    AfterCleanupInv(s);
    var c := AfterCleanup(s).(cleanup := NoOp, timerRunning := false);
    if c.currentGame < GameCount {
      LoadInv(c, g);
    }
  }

  /** The state startChallenge hands to nextGame keeps the invariant,
      whatever it started from. */
  lemma ZeroedInv(s: Session)
    ensures Inv(s.(currentGame := 0, totalScore := 0, finalShown := false, scored := [], loaded := [], timerRunning := false))
  {
  }

  lemma BeginInv(s: Session, g: Cleanup)
    ensures Inv(Begin(s, g))
  {
    var z := s.(currentGame := 0, totalScore := 0, finalShown := false, scored := [], loaded := [], timerRunning := false);
    ZeroedInv(s);
    NextInv(z, g);
    BeginStopsTimer(s, g);
  }

  /** Stopping the countdown before nextGame makes no difference: nextGame
      stops it itself before reading it. */
  lemma BeginStopsTimer(s: Session, g: Cleanup)
    ensures Begin(s, g) == Next(s.(currentGame := 0, totalScore := 0, finalShown := false, scored := [], loaded := [], timerRunning := false), g)
  {
    var z0 := s.(currentGame := 0, totalScore := 0, finalShown := false, scored := [], loaded := []);
    var z := z0.(timerRunning := false);
    assert AfterCleanup(z).(cleanup := NoOp, timerRunning := false)
        == AfterCleanup(z0).(cleanup := NoOp, timerRunning := false);
  }

  /** The queue of nextGame callbacks plays no part in the invariant. */
  lemma PendingInv(s: Session, n: nat)
    requires Inv(s)
    ensures Inv(s.(pendingNext := n))
  {
  }

  lemma CountDownInv(s: Session)
    requires Inv(s) && s.timerRunning
    ensures Inv(CountDown(s))
  {
    if s.timeLeft - 1 <= 0 {
      var t := s.(timeLeft := s.timeLeft - 1, timerRunning := false);
      FinishInv(t, Number(0.0));
      assert Finish(t, Number(0.0)) == CountDown(s);
    }
  }

  /** Every event keeps the invariant, whatever the event and its data. */
  lemma StepInv(s: Session, e: Event)
    requires Inv(s)
    ensures Inv(Step(s, e))
  {
    match e
    case Start(g) => BeginInv(s, g);
    case RunNext(g) =>
      if s.pendingNext > 0 {
        NextInv(s.(pendingNext := s.pendingNext - 1), g);
      }
    case Complete(p) => FinishInv(s, p);
    case TimerTick =>
      if s.timerRunning {
        CountDownInv(s);
      }
    case Reassign(c) =>
  }

  lemma {:induction false} RunInv(s: Session, es: seq<Event>)
    requires Inv(s)
    ensures Inv(Run(s, es))
    decreases |es|
  {
    if es != [] {
      StepInv(s, es[0]);
      RunInv(Step(s, es[0]), es[1..]);
    }
  }

  /** In every run of the script the index equals the number of finishGame
      calls since the challenge started and the score is the sum of their
      marks, so it never exceeds ten per call. */
  lemma ScoreBound(es: seq<Event>)
    ensures var r := Run(Initial, es);
      && r.currentGame == |r.scored|
      && r.totalScore == Sum(r.scored)
      && 0 <= r.totalScore <= MaxMarks * r.currentGame
  {
    InitialInv();
    RunInv(Initial, es);
    var r := Run(Initial, es);
    SumBounds(r.scored);
  }

  /** startChallenge hides the final view and zeroes the run and loads
      game 0, provided no cleanup from an earlier run is still installed
      (as on the first click). */
  lemma StartLoadsFirstGame(s: Session, g: Cleanup)
    requires s.cleanup == NoOp
    ensures var r := Begin(s, g);
      && r.currentGame == 0 && r.totalScore == 0
      && r.timerRunning && r.timeLeft == GameTime
      && r.cleanup == g && r.loaded == [0] && !r.finalShown
  {
  }

  /** Whatever state it is clicked in, even with a stale cleanup that
      scores once more, startChallenge leaves the final view hidden and a
      game loaded: the index after the cleanup is at most 1. */
  lemma BeginHidesFinalView(s: Session, g: Cleanup)
    ensures var r := Begin(s, g);
      && !r.finalShown && r.timerRunning && r.timeLeft == GameTime
      && r.currentGame <= 1 && r.loaded == [r.currentGame] && r.cleanup == g
  {
  }

  /** nextGame ends the challenge exactly when the index, after the
      cleanup has run, is past the last game; otherwise it loads that game
      with a full minute and the new game's cleanup. Either way the old
      cleanup is gone. */
  lemma NextEndsIffPastLast(s: Session, g: Cleanup)
    ensures var c := AfterCleanup(s); var r := Next(s, g);
      && r.currentGame == c.currentGame && r.totalScore == c.totalScore
      && (r.timerRunning <==> c.currentGame < GameCount)
      && (c.currentGame >= GameCount ==> r.finalShown && r.cleanup == NoOp && r.loaded == s.loaded)
      && (c.currentGame < GameCount ==>
            r.timeLeft == GameTime && r.cleanup == g && r.loaded == s.loaded + [c.currentGame])
  {
  }

  /** The cleanup is one more finishGame call: it adds the marks of the
      progress its closure last saw and advances the index once more. */
  lemma CleanupScoresAgain(s: Session, g: Cleanup, last: Progress)
    requires s.cleanup == FinishWith(last)
    ensures Next(s, g).currentGame == s.currentGame + 1
    ensures Next(s, g).totalScore == s.totalScore + Marks(last)
  {
  }

  /** finishGame has no "already finished" guard: a second call for the
      same game scores again and advances the index again. */
  lemma NoCompletionGuard(s: Session, p: Progress, q: Progress)
    ensures Finish(Finish(s, p), q).currentGame == s.currentGame + 2
    ensures Finish(Finish(s, p), q).totalScore == s.totalScore + Marks(p) + Marks(q)
    ensures Finish(Finish(s, p), q).pendingNext == s.pendingNext + 2
  {
  }

  /** A game that finishes itself while its cleanup is installed is scored
      twice: the queued nextGame runs the cleanup, which calls finishGame
      again, and the following game is never loaded. */
  lemma SelfFinishSkipsNextGame(s: Session, p: Progress, last: Progress, g: Cleanup)
    requires Inv(s) && s.timerRunning && s.cleanup == FinishWith(last)
    requires s.currentGame + 2 < GameCount
    ensures var r := Step(Step(s, Complete(p)), RunNext(g));
      && r.currentGame == s.currentGame + 2
      && r.totalScore == s.totalScore + Marks(p) + Marks(last)
      && r.loaded == s.loaded + [s.currentGame + 2]
      && s.currentGame + 1 !in r.loaded
      && r.pendingNext == s.pendingNext + 1
  {
    var r := Step(Step(s, Complete(p)), RunNext(g));
    assert r.loaded == s.loaded + [s.currentGame + 2];
    assert forall i :: 0 <= i < |r.loaded| ==> r.loaded[i] != s.currentGame + 1;
  }

  /** The same from the very first click. Game 0 (Maze Runner) installs
      its cleanup with `lastProgress` 0; the player's step onto the cell
      next to the goal raises it to 1 - 1/16; the step onto the goal calls
      finishGame(1). The queued nextGame then runs the cleanup, which scores
      the maze again with 15/16 and loads game 2, so Dodge Rain is never
      played. Sudoku installs its cleanup with `latest` 0, and the nextGame
      that cleanup queued kills it 0.7 s later with no marks: Memory Flip
      is loaded, and one nextGame is still queued. */
  lemma DoubleScoreExample()
    ensures var r := Run(Initial,
                         [Start(FinishWith(Number(0.0))), Reassign(FinishWith(Number(0.9375))),
                          Complete(Number(1.0)), RunNext(FinishWith(Number(0.0))),
                          RunNext(FinishWith(Number(0.0)))]);
      && r.totalScore == 19 && r.currentGame == 3
      && r.loaded == [0, 2, 3] && Games[r.loaded[1]] == Sudoku && Games[r.loaded[2]] == MemoryFlip
      && r.pendingNext == 1
  {
    var zero := FinishWith(Number(0.0));
    var s1 := Step(Initial, Start(zero));
    var s2 := Step(s1, Reassign(FinishWith(Number(0.9375))));
    var s3 := Step(s2, Complete(Number(1.0)));
    var s4 := Step(s3, RunNext(zero));
    var s5 := Step(s4, RunNext(zero));
    MarksOfTenths(0);
    MarksOfTenths(10);
    assert Marks(Number(0.9375)) == 9 && Marks(Number(1.0)) == 10;
    var tail := [RunNext(zero), RunNext(zero)];
    assert Run(s4, tail[1..]) == s5;
    assert Run(s3, tail) == s5;
    assert Run(s2, [Complete(Number(1.0))] + tail) == s5;
    assert Run(s1, [Reassign(FinishWith(Number(0.9375))), Complete(Number(1.0))] + tail) == s5;
  }

  /** When the last game finishes itself and is scored again by its
      cleanup, the index ends one past the number of games. */
  lemma IndexCanPassGameCount(s: Session, p: Progress, last: Progress, g: Cleanup)
    requires s.currentGame == GameCount - 1 && s.cleanup == FinishWith(last)
    ensures var r := Step(Step(s, Complete(p)), RunNext(g));
      r.currentGame == GameCount + 1 && r.finalShown && !r.timerRunning
  {
  }

  /** Before the count reaches zero, k ticks only take k seconds off. */
  lemma {:induction false} CountdownRunning(s: Session, k: nat)
    requires s.timerRunning && k < s.timeLeft
    ensures Run(s, Ticks(k)) == s.(timeLeft := s.timeLeft - k)
    decreases k
  {
    if k > 0 {
      var t := CountDown(s);
      assert t == s.(timeLeft := s.timeLeft - 1);
      assert Ticks(k)[1..] == Ticks(k - 1);
      CountdownRunning(t, k - 1);
    }
  }

  /** Timeout law: a countdown with n seconds left ends on the n-th tick
      with finishGame(0), which adds no marks and stops the countdown, so
      any further ticks change nothing. */
  lemma {:induction false} CountdownExpires(s: Session, extra: nat)
    requires s.timerRunning && 1 <= s.timeLeft
    ensures var r := Run(s, Ticks(s.timeLeft + extra));
      && r == Finish(s.(timeLeft := 0), Number(0.0))
      && r.totalScore == s.totalScore && r.currentGame == s.currentGame + 1
    decreases s.timeLeft + extra
  {
    var n := s.timeLeft;
    var f := Finish(s.(timeLeft := 0), Number(0.0));
    MarksOfTenths(0);
    if n == 1 {
      assert CountDown(s) == f;
      StoppedTicks(f, extra);
      assert Ticks(1 + extra)[1..] == Ticks(extra);
    } else {
      var t := CountDown(s);
      assert t == s.(timeLeft := n - 1);
      assert Ticks(n + extra)[1..] == Ticks(n - 1 + extra);
      CountdownExpires(t, extra);
      assert t.(timeLeft := 0) == s.(timeLeft := 0);
    }
  }

  lemma {:induction false} StoppedTicks(s: Session, n: nat)
    requires !s.timerRunning
    ensures Run(s, Ticks(n)) == s
    decreases n
  {
    if n > 0 {
      assert Ticks(n)[1..] == Ticks(n - 1);
      StoppedTicks(s, n - 1);
    }
  }

  /** A freshly loaded game that never finishes itself is finished by the
      countdown on its 60th tick with zero marks. */
  lemma TimeoutAfterSixtyTicks(s: Session, g: Cleanup)
    requires Inv(s)
    requires AfterCleanup(s).currentGame < GameCount
    ensures var loadedState := Next(s, g);
      var r := Run(loadedState, Ticks(GameTime));
      && Run(loadedState, Ticks(GameTime - 1)).timerRunning
      && r.totalScore == loadedState.totalScore
      && r.currentGame == loadedState.currentGame + 1
      && !r.timerRunning
  {
    var l := Next(s, g);
    CountdownRunning(l, GameTime - 1);
    CountdownExpires(l, 0);
  }

  /** Running two event sequences one after the other. */
  lemma {:induction false} RunAppend(s: Session, a: seq<Event>, b: seq<Event>)
    ensures Run(s, a + b) == Run(Run(s, a), b)
    decreases |a|
  {
    if a == [] {
      assert a + b == b;
    } else {
      assert (a + b)[0] == a[0] && (a + b)[1..] == a[1..] + b;
      RunAppend(Step(s, a[0]), a[1..], b);
    }
  }

  /** Once a game has ended, the queue of nextGame callbacks never drains
      while games keep installing their cleanup: the queued nextGame runs
      the cleanup, whose finishGame queues the next nextGame, and the index
      advances once more. */
  lemma QueueNeverDrains(s: Session, last: Progress, g: Cleanup)
    requires s.pendingNext >= 1 && s.cleanup == FinishWith(last)
    ensures var r := Step(s, RunNext(g));
      && r.pendingNext == s.pendingNext
      && r.currentGame == s.currentGame + 1
      && r.totalScore == s.totalScore + Marks(last)
      && (r.currentGame < GameCount ==> r.cleanup == g && r.loaded == s.loaded + [s.currentGame + 1])
  {
  }

  /** The queued nextGame callbacks, each loading a game that installs a
      cleanup reporting the given progress. */
  function Reloads(cs: seq<Progress>): (es: seq<Event>)
    ensures |es| == |cs|
    ensures forall i :: 0 <= i < |cs| ==> es[i] == RunNext(FinishWith(cs[i]))
  {
    seq(|cs|, i requires 0 <= i < |cs| => RunNext(FinishWith(cs[i])))
  }

  /** The cascade: from a state with a nextGame queued and a cleanup
      installed, each queued callback loads the following game and, 0.7 s
      later, the next callback kills it with the progress its cleanup saw.
      Every later game is loaded in turn, one queued call is always left,
      and the last game loaded holds the last cleanup. */
  lemma {:induction false} QueueCascade(s: Session, last: Progress, cs: seq<Progress>)
    requires s.pendingNext >= 1 && s.cleanup == FinishWith(last)
    requires s.currentGame + |cs| < GameCount
    ensures var r := Run(s, Reloads(cs));
      && r.pendingNext == s.pendingNext
      && r.currentGame == s.currentGame + |cs|
      && r.loaded == s.loaded + seq(|cs|, i => s.currentGame + 1 + i)
      && (|cs| > 0 ==> r.cleanup == FinishWith(cs[|cs| - 1]) && r.timerRunning)
    decreases |cs|
  {
    if cs == [] {
      assert s.loaded + seq(0, i => s.currentGame + 1 + i) == s.loaded;
    } else {
      var s1 := Step(s, RunNext(FinishWith(cs[0])));
      QueueNeverDrains(s, last, FinishWith(cs[0]));
      assert Reloads(cs)[1..] == Reloads(cs[1..]);
      QueueCascade(s1, cs[0], cs[1..]);
      var r := Run(s1, Reloads(cs[1..]));
      assert r.loaded == s.loaded + [s.currentGame + 1] + seq(|cs| - 1, i => s1.currentGame + 1 + i);
      assert s.loaded + [s.currentGame + 1] + seq(|cs| - 1, i => s1.currentGame + 1 + i)
          == s.loaded + seq(|cs|, i => s.currentGame + 1 + i);
      if |cs| > 1 {
        assert cs[1..][|cs| - 2] == cs[|cs| - 1];
      }
    }
  }

  /** A game that times out is scored twice too: the countdown calls
      finishGame(0), and the queued nextGame runs the cleanup, which calls
      finishGame(last). The following game is skipped. */
  lemma TimeoutScoredTwice(s: Session, last: Progress, g: Cleanup)
    requires s.timerRunning && 1 <= s.timeLeft && s.cleanup == FinishWith(last)
    requires s.currentGame + 2 < GameCount
    ensures var r := Run(s, Ticks(s.timeLeft) + [RunNext(g)]);
      && r.currentGame == s.currentGame + 2
      && r.totalScore == s.totalScore + Marks(last)
      && r.scored == s.scored + [0, Marks(last)]
      && r.loaded == s.loaded + [s.currentGame + 2]
      && r.pendingNext == s.pendingNext + 1
  {
    var f := Finish(s.(timeLeft := 0), Number(0.0));
    CountdownExpires(s, 0);
    assert Run(s, Ticks(s.timeLeft)) == f;
    RunAppend(s, Ticks(s.timeLeft), [RunNext(g)]);
    MarksOfTenths(0);
    assert f.scored == s.scored + [0] && f.cleanup == FinishWith(last) && f.pendingNext >= 1;
    var r := Step(f, RunNext(g));
    assert Run(f, [RunNext(g)]) == r;
    assert r.scored == f.scored + [Marks(last)];
  }

  /** The orchestrator object: the source's module-level variables as
      fields, plus the model's bookkeeping as ghost fields. */
  class Orchestrator {
    var currentGame: int
    var totalScore: int
    var timeLeft: int
    var timerRunning: bool
    var cleanupCurrent: Cleanup
    var finalShown: bool
    ghost var pendingNext: nat
    ghost var scored: seq<int>
    ghost var loaded: seq<int>

    ghost function Snapshot(): Session
      reads this
    {
      Session(currentGame, totalScore, timeLeft, timerRunning, cleanupCurrent,
              finalShown, pendingNext, scored, loaded)
    }

    ghost predicate Valid()
      reads this
    {
      Inv(Snapshot())
    }

    /** The script's top-level initialisers (script.js:19-23). */
    constructor ()
      ensures Snapshot() == Initial && Valid()
    {
      currentGame, totalScore, timeLeft := 0, 0, GameTime;
      timerRunning, cleanupCurrent, finalShown := false, NoOp, false;
      pendingNext, scored, loaded := 0, [], [];
      InitialInv();
    }

    /** finishGame(progress). */
    method FinishGame(p: Progress)
      requires Valid()
      modifies this
      ensures Snapshot() == Finish(old(Snapshot()), p) && Valid()
    {
      FinishInv(Snapshot(), p);
      timerRunning := false;
      var marks := Marks(p);
      totalScore := totalScore + marks;
      currentGame := currentGame + 1;
      pendingNext := pendingNext + 1;
      scored := scored + [marks];
    }

    /** The first lines of nextGame: run the cleanup, reset it to a
        no-op, and clear the countdown. */
    method CleanUp()
      requires Valid()
      modifies this
      ensures Snapshot() == AfterCleanup(old(Snapshot())).(cleanup := NoOp, timerRunning := false)
      ensures Valid()
    {
      AfterCleanupInv(Snapshot());
      match cleanupCurrent {
        case NoOp =>
        case FinishWith(last) => FinishGame(last);
      }
      cleanupCurrent := NoOp;
      timerRunning := false;
    }

    /** nextGame; `installed` is what the loaded game's start function
        stores in cleanupCurrent. */
    method NextGame(installed: Cleanup)
      requires Valid()
      modifies this
      ensures Snapshot() == Next(old(Snapshot()), installed) && Valid()
    {
      NextInv(Snapshot(), installed);
      CleanUp();
      if currentGame >= GameCount {
        finalShown := true;
        return;
      }
      loaded := loaded + [currentGame];
      timeLeft := GameTime;
      timerRunning := true;
      cleanupCurrent := installed;
    }

    /** startChallenge. The countdown is marked stopped before nextGame
        rather than by nextGame's own clearInterval a few lines later;
        nothing in between reads it (BeginStopsTimer). */
    method StartChallenge(installed: Cleanup)
      modifies this
      ensures Snapshot() == Begin(old(Snapshot()), installed) && Valid()
      ensures !finalShown && timerRunning && currentGame <= 1
    {
      ghost var before := Snapshot();
      ghost var z := before.(currentGame := 0, totalScore := 0, finalShown := false, scored := [], loaded := [], timerRunning := false);
      BeginStopsTimer(before, installed);
      ZeroedInv(before);
      finalShown := false;
      currentGame := 0;
      totalScore := 0;
      scored, loaded := [], [];
      timerRunning := false;
      assert Snapshot() == z;
      NextGame(installed);
      BeginHidesFinalView(before, installed);
    }

    /** A queued `setTimeout(nextGame, 700)` callback. */
    method RunQueuedNextGame(installed: Cleanup)
      requires Valid() && pendingNext > 0
      modifies this
      ensures Snapshot() == Step(old(Snapshot()), RunNext(installed)) && Valid()
    {
      ghost var before := Snapshot();
      ghost var mid := before.(pendingNext := before.pendingNext - 1);
      assert Step(before, RunNext(installed)) == Next(mid, installed);
      pendingNext := pendingNext - 1;
      assert Snapshot() == mid;
      PendingInv(before, before.pendingNext - 1);
      NextGame(installed);
    }

    /** The countdown callback; it only fires while the interval is live. */
    method Tick()
      requires Valid() && timerRunning
      modifies this
      ensures Snapshot() == CountDown(old(Snapshot())) && Valid()
    {
      ghost var before := Snapshot();
      CountDownInv(before);
      timeLeft := timeLeft - 1;
      if timeLeft <= 0 {
        timerRunning := false;
        assert Snapshot() == before.(timeLeft := before.timeLeft - 1, timerRunning := false);
        FinishGame(Number(0.0));
      }
    }

    /** The running game (re)assigns cleanupCurrent, or the `last` its
        closure captured changes. */
    method Reassign(c: Cleanup)
      requires Valid()
      modifies this
      ensures Snapshot() == old(Snapshot()).(cleanup := c) && Valid()
    {
      cleanupCurrent := c;
    }
  }
}
