/** Snake Advanced (script.js:517-577): the snake on a 20 x 14 grid, the
    `tick` step, the arrow-key handler and `spawnApple`. */
module Snake {
  import opened Scoring

  const Cols: int := 20
  const Rows: int := 14
  /** The interval starts at 110 ms and shrinks by 5 per apple while above 70. */
  const StartSpeed: int := 110
  const MinSpeed: int := 70
  const SpeedStep: int := 5
  /** Ten apples give full progress. */
  const Apples: int := 10

  /** A grid cell, or a direction as a step (dx, dy). */
  datatype Cell = Cell(x: int, y: int)

  datatype Key = ArrowLeft | ArrowRight | ArrowUp | ArrowDown | OtherKey

  const Start: Cell := Cell(5, 7)
  const Right: Cell := Cell(1, 0)

  predicate InBounds(c: Cell)
  {
    0 <= c.x < Cols && 0 <= c.y < Rows
  }

  predicate IsStep(d: Cell)
  {
    (d.x == 0 && (d.y == 1 || d.y == -1)) || (d.y == 0 && (d.x == 1 || d.x == -1))
  }

  function Plus(c: Cell, d: Cell): Cell
  {
    Cell(c.x + d.x, c.y + d.y)
  }

  function Opposite(d: Cell): Cell
  {
    Cell(-d.x, -d.y)
  }

  predicate Distinct(s: seq<Cell>)
  {
    forall i, j :: 0 <= i < j < |s| ==> s[i] != s[j]
  }

  /** Each segment is one step from the next. */
  predicate Connected(s: seq<Cell>)
  {
    forall i :: 0 <= i < |s| - 1 ==> IsStep(Cell(s[i].x - s[i + 1].x, s[i].y - s[i + 1].y))
  }

  // ---------------------------------------------------------------------
  // spawnApple

  /** The first drawn cell not covered by the snake: where `spawnApple`'s
      loop stops for the cells `randInt` draws. */
  function FirstFree(snake: seq<Cell>, draws: seq<Cell>): (k: nat)
    requires exists k :: 0 <= k < |draws| && draws[k] !in snake
    ensures k < |draws| && draws[k] !in snake
    ensures forall j :: 0 <= j < k ==> draws[j] in snake
  {
    if draws[0] !in snake then 0
    else
      assert exists k :: 0 <= k < |draws[1..]| && draws[1..][k] !in snake by {
        var k :| 0 <= k < |draws| && draws[k] !in snake;
        assert k > 0 && draws[1..][k - 1] == draws[k];
      }
      1 + FirstFree(snake, draws[1..])
  }

  /** Draws as `randInt(0, COLS-1)`, `randInt(0, ROWS-1)` make them, with
      a free cell among them (otherwise the loop would not stop). */
  ghost predicate GoodDraws(snake: seq<Cell>, draws: seq<Cell>)
  {
    (forall k :: 0 <= k < |draws| ==> InBounds(draws[k]))
    && exists k :: 0 <= k < |draws| && draws[k] !in snake
  }

  /** `spawnApple`'s `while(true)` loop over the draws. */
  method SpawnApple(snake: seq<Cell>, draws: seq<Cell>) returns (apple: Cell)
    requires GoodDraws(snake, draws)
    ensures apple == draws[FirstFree(snake, draws)]
    ensures InBounds(apple) && apple !in snake
  {
    var k := 0;
    while true
      invariant 0 <= k <= FirstFree(snake, draws)
      decreases FirstFree(snake, draws) - k
    {
      var a := draws[k];
      if a !in snake {
        return a;
      }
      k := k + 1;
    }
  }

  // ---------------------------------------------------------------------
  // The key handler

  /** The `keydown` handler: an arrow turns the snake unless it points
      straight back along the current `dir`. */
  function Steer(dir: Cell, key: Key): (d: Cell)
  {
    match key
    case ArrowLeft => if dir.x != 1 then Cell(-1, 0) else dir
    case ArrowRight => if dir.x != -1 then Cell(1, 0) else dir
    case ArrowUp => if dir.y != 1 then Cell(0, -1) else dir
    case ArrowDown => if dir.y != -1 then Cell(0, 1) else dir
    case OtherKey => dir
  }

  /** One key press keeps `dir` a unit step and never turns it around. */
  lemma SteerNeverReverses(dir: Cell, key: Key)
    requires IsStep(dir)
    ensures IsStep(Steer(dir, key)) && Steer(dir, key) != Opposite(dir)
  {
    assert dir == Cell(1, 0) || dir == Cell(-1, 0) || dir == Cell(0, 1) || dir == Cell(0, -1);
  }

  /** The guard looks only at `dir`, which a key press changes at once,
      not at the step the snake last made: two presses between ticks (Up,
      then Left, while moving right) turn it around. */
  lemma TwoKeysReverse()
    ensures Steer(Steer(Right, ArrowUp), ArrowLeft) == Opposite(Right)
  {
  }

  // ---------------------------------------------------------------------
  // tick

  datatype State = State(
    snake: seq<Cell>,    // head first
    dir: Cell,
    apple: Cell,
    speed: int,
    eaten: nat,
    alive: bool,
    last: real)

  /** What a tick does: the new state and the finishGame call, if any. */
  datatype Outcome = Outcome(next: State, finish: Option<Progress>)

  function AppleProgress(eaten: nat): real
  {
    Min(1.0, eaten as real / Apples as real)
  }

  /** The snake lies on the grid, never over itself, in one connected
      line one cell longer than the apples eaten; the apple is on a free
      cell; the interval is 110, 105, ... down to 70. */
  ghost predicate Inv(s: State)
  {
    && |s.snake| == 1 + s.eaten
    && (forall i :: 0 <= i < |s.snake| ==> InBounds(s.snake[i]))
    && Distinct(s.snake)
    && Connected(s.snake)
    && IsStep(s.dir)
    && InBounds(s.apple) && s.apple !in s.snake
    && MinSpeed <= s.speed <= StartSpeed && s.speed % SpeedStep == 0
    && s.last == AppleProgress(s.eaten)
  }

  /** The state after set-up, with the first apple drawn. */
  function Initial(draws: seq<Cell>): State
    requires GoodDraws([Start], draws)
  {
    State([Start], Right, draws[FirstFree([Start], draws)], StartSpeed, 0, true, 0.0)
  }

  function NextHead(s: State): Cell
    requires |s.snake| > 0
  {
    Plus(s.snake[0], s.dir)
  }

  /** The draws a tick may use for a new apple. */
  ghost predicate TickDraws(s: State, draws: seq<Cell>)
    requires |s.snake| > 0
  {
    GoodDraws([NextHead(s)] + s.snake, draws)
  }

  /** `tick`. A dead snake does nothing; leaving the grid or running into
      any segment (the tail included) kills it and finishes the game with
      `last`; otherwise the head moves on, the tail follows unless the
      apple is eaten, and an apple is followed by a new one, the progress
      update, the finish at ten apples, or a faster interval. */
  function Tick(s: State, draws: seq<Cell>): Outcome
    requires |s.snake| > 0 && TickDraws(s, draws)
  {
    if !s.alive then Outcome(s, None)
    else
      var head := NextHead(s);
      if !InBounds(head) || head in s.snake then
        Outcome(s.(alive := false), Some(Number(s.last)))
      else
        var body := [head] + s.snake;
        if head == s.apple then
          var eaten := s.eaten + 1;
          var t := s.(snake := body, eaten := eaten, apple := draws[FirstFree(body, draws)],
                      last := Max(s.last, AppleProgress(eaten)));
          if eaten >= Apples then Outcome(t, Some(Number(1.0)))
          else Outcome(t.(speed := if s.speed > MinSpeed then s.speed - SpeedStep else s.speed), None)
        else
          Outcome(s.(snake := body[..|body| - 1]), None)
  }

  lemma InitialInv(draws: seq<Cell>)
    requires GoodDraws([Start], draws)
    ensures Inv(Initial(draws))
  {
  }

  lemma {:induction false} ConnectedCons(head: Cell, s: seq<Cell>)
    requires |s| > 0 && Connected(s)
    requires IsStep(Cell(head.x - s[0].x, head.y - s[0].y))
    ensures Connected([head] + s)
  {
    var b := [head] + s;
    forall i | 0 <= i < |b| - 1
      ensures IsStep(Cell(b[i].x - b[i + 1].x, b[i].y - b[i + 1].y))
    {
      if i > 0 {
        assert b[i] == s[i - 1] && b[i + 1] == s[i];
      }
    }
  }

  /** The shape the invariant asks of the segments. */
  ghost predicate Laid(s: seq<Cell>)
  {
    (forall i :: 0 <= i < |s| ==> InBounds(s[i])) && Distinct(s) && Connected(s)
  }

  lemma Grow(snake: seq<Cell>, head: Cell)
    requires |snake| > 0 && Laid(snake)
    requires InBounds(head) && head !in snake
    requires IsStep(Cell(head.x - snake[0].x, head.y - snake[0].y))
    ensures Laid([head] + snake)
  {
    var body := [head] + snake;
    ConnectedCons(head, snake);
    forall i, j | 0 <= i < j < |body| ensures body[i] != body[j] {
      if i > 0 {
        assert body[i] == snake[i - 1] && body[j] == snake[j - 1];
      }
    }
  }

  lemma DropTail(body: seq<Cell>)
    requires |body| > 0 && Laid(body)
    ensures Laid(body[..|body| - 1])
  {
    var t := body[..|body| - 1];
    assert forall i :: 0 <= i < |t| ==> t[i] == body[i];
  }

  /** A tick keeps the invariant: while alive the snake stays on the grid,
      never overlaps itself, grows by exactly the apples eaten, and the
      interval never drops below 70. */
  lemma TickInv(s: State, draws: seq<Cell>)
    requires Inv(s) && TickDraws(s, draws)
    ensures Inv(Tick(s, draws).next)
  {
    if s.alive {
      var head := NextHead(s);
      if InBounds(head) && head !in s.snake {
        Grow(s.snake, head);
        if head == s.apple {
          EatInv(s, draws);
        } else {
          SlideInv(s, draws);
        }
      }
    }
  }

  /** The tick that eats the apple: one segment more, a new apple off the
      snake, and an interval at most 5 ms shorter. */
  lemma EatInv(s: State, draws: seq<Cell>)
    requires Inv(s) && TickDraws(s, draws) && s.alive
    requires InBounds(NextHead(s)) && NextHead(s) !in s.snake && NextHead(s) == s.apple
    requires Laid([NextHead(s)] + s.snake)
    ensures Inv(Tick(s, draws).next)
  {
    var body := [NextHead(s)] + s.snake;
    var eaten := s.eaten + 1;
    var t := s.(snake := body, eaten := eaten, apple := draws[FirstFree(body, draws)],
                last := Max(s.last, AppleProgress(eaten)));
    assert t.last == AppleProgress(eaten);
    assert Tick(s, draws).next ==
      if eaten >= Apples then t
      else t.(speed := if s.speed > MinSpeed then s.speed - SpeedStep else s.speed);
  }

  /** The tick that moves without eating: the tail follows the head. */
  lemma SlideInv(s: State, draws: seq<Cell>)
    requires Inv(s) && TickDraws(s, draws) && s.alive
    requires InBounds(NextHead(s)) && NextHead(s) !in s.snake && NextHead(s) != s.apple
    requires Laid([NextHead(s)] + s.snake)
    ensures Inv(Tick(s, draws).next)
  {
    var body := [NextHead(s)] + s.snake;
    DropTail(body);
    assert Tick(s, draws).next == s.(snake := body[..|body| - 1]);
    assert s.apple !in body[..|body| - 1];
  }

  /** A tick that does not kill the snake moves the head one step along
      `dir`; the snake grows exactly when the apple is eaten. */
  lemma TickMoves(s: State, draws: seq<Cell>)
    requires Inv(s) && TickDraws(s, draws) && s.alive
    ensures var r := Tick(s, draws).next;
      r.alive <==> InBounds(NextHead(s)) && NextHead(s) !in s.snake
    ensures var r := Tick(s, draws).next;
      r.alive ==> (
        && r.snake[0] == NextHead(s)
        && r.snake[1..] == s.snake[..|r.snake| - 1]
        && (r.eaten == s.eaten + 1 <==> NextHead(s) == s.apple)
        && (r.eaten == s.eaten <==> NextHead(s) != s.apple))
  {
  }

  /** The game finishes on the tick that dies (with the progress so far)
      or on the tick that eats the tenth apple or a later one. */
  lemma TickFinish(s: State, draws: seq<Cell>)
    requires Inv(s) && TickDraws(s, draws) && s.alive
    ensures var o := Tick(s, draws);
      o.finish.Some? <==> !o.next.alive || (NextHead(s) == s.apple && s.eaten + 1 >= Apples)
    ensures var o := Tick(s, draws);
      !o.next.alive ==> o.finish == Some(Number(AppleProgress(s.eaten)))
  {
  }

  /** After the reversing key presses of TwoKeysReverse, the next tick
      runs the head into the neck: a snake of two moving right dies in
      the middle of the grid. */
  lemma ReverseKillsSnake()
    ensures var s := State([Cell(6, 7), Cell(5, 7)], Steer(Steer(Right, ArrowUp), ArrowLeft),
                           Cell(0, 0), 105, 1, true, 0.1);
      && Inv(s.(dir := Right))
      && [Cell(0, 0)][0] !in [NextHead(s)] + s.snake
      && !Tick(s, [Cell(0, 0)]).next.alive
  {
    var s := State([Cell(6, 7), Cell(5, 7)], Steer(Steer(Right, ArrowUp), ArrowLeft),
                   Cell(0, 0), 105, 1, true, 0.1);
    assert NextHead(s) == Cell(5, 7) == s.snake[1];
    assert Distinct(s.snake) by {
      assert s.snake[0] != s.snake[1];
    }
  }

  // ---------------------------------------------------------------------
  // The game object

  class Game {
    var snake: seq<Cell>
    var dir: Cell
    var apple: Cell
    var speed: int
    var eaten: nat
    var alive: bool
    var last: real

    ghost function Snapshot(): State
      reads this
    {
      State(snake, dir, apple, speed, eaten, alive, last)
    }

    ghost predicate Valid()
      reads this
    {
      Inv(Snapshot())
    }

    constructor (draws: seq<Cell>)
      requires GoodDraws([Start], draws)
      ensures Snapshot() == Initial(draws) && Valid()
    {
      var first := SpawnApple([Start], draws);
      snake := [Start];
      dir := Right;
      apple := first;
      speed := StartSpeed;
      eaten := 0;
      alive := true;
      last := 0.0;
      new;
      InitialInv(draws);
    }

    method KeyDown(key: Key)
      requires Valid()
      modifies this
      ensures Snapshot() == old(Snapshot()).(dir := Steer(old(dir), key)) && Valid()
      ensures dir != Opposite(old(dir))
    {
      SteerNeverReverses(dir, key);
      if key == ArrowLeft && dir.x != 1 {
        dir := Cell(-1, 0);
      } else if key == ArrowRight && dir.x != -1 {
        dir := Cell(1, 0);
      } else if key == ArrowUp && dir.y != 1 {
        dir := Cell(0, -1);
      } else if key == ArrowDown && dir.y != -1 {
        dir := Cell(0, 1);
      }
    }

    method TickStep(draws: seq<Cell>) returns (finish: Option<Progress>)
      requires Valid() && TickDraws(Snapshot(), draws)
      modifies this
      ensures Snapshot() == Tick(old(Snapshot()), draws).next
      ensures finish == Tick(old(Snapshot()), draws).finish
      ensures Valid()
    {
      ghost var before := Snapshot();
      TickInv(before, draws);
      if !alive {
        return None;
      }
      var head := Cell(snake[0].x + dir.x, snake[0].y + dir.y);
      assert head == NextHead(before);
      if head.x < 0 || head.y < 0 || head.x >= Cols || head.y >= Rows || head in snake {
        alive := false;
        return Some(Number(last));
      }
      snake := [head] + snake;
      if head == apple {
        eaten := eaten + 1;
        apple := SpawnApple(snake, draws);
        last := Max(last, Min(1.0, eaten as real / Apples as real));
        if eaten >= Apples {
          return Some(Number(1.0));
        }
        if speed > MinSpeed {
          speed := speed - SpeedStep;
        }
      } else {
        snake := snake[..|snake| - 1];
        assert Snapshot() == before.(snake := ([head] + before.snake)[..|before.snake|]);
      }
      finish := None;
    }
  }
}
