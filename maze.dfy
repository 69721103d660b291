/** Maze Runner (script.js:105-190): a 13 x 9 grid of walls carved by a
    randomised depth-first search from cell (1, 1), and the player's moves
    towards the goal (11, 7). */
module Maze {
  import opened Scoring
  import Shuffle

  const W: int := 13
  const H: int := 9
  const Wall: int := 1
  const Path: int := 0

  /** A carving step: two cells along one axis. */
  datatype Step = Step(dx: int, dy: int)

  /** `[[2,0],[-2,0],[0,2],[0,-2]]`, the directions `carve` shuffles. */
  const Steps: seq<Step> := [Step(2, 0), Step(-2, 0), Step(0, 2), Step(0, -2)]

  /** The grid is H rows of W cells. */
  ghost predicate Shape(g: seq<seq<int>>)
  {
    |g| == H && forall y :: 0 <= y < H ==> |g[y]| == W
  }

  predicate InGrid(x: int, y: int)
  {
    0 <= x < W && 0 <= y < H
  }

  function Get(g: seq<seq<int>>, x: int, y: int): int
    requires Shape(g) && InGrid(x, y)
  {
    g[y][x]
  }

  function SetPath(g: seq<seq<int>>, x: int, y: int): (r: seq<seq<int>>)
    requires Shape(g) && InGrid(x, y)
    ensures Shape(r)
    ensures forall i, j :: InGrid(i, j) ==> Get(r, i, j) == if i == x && j == y then Path else Get(g, i, j)
  {
    g[y := g[y][x := Path]]
  }

  /** The cells `carve` can visit: odd coordinates away from the border. */
  predicate Room(x: int, y: int)
  {
    0 < x < W - 1 && 0 < y < H - 1 && x % 2 == 1 && y % 2 == 1
  }

  /** Cells off the border. */
  predicate Interior(x: int, y: int)
  {
    0 < x < W - 1 && 0 < y < H - 1
  }

  /** Every cell is wall or path, and only rooms and the walls between two
      rooms are ever opened: the border and the even-even pillars stay wall. */
  ghost predicate Framed(g: seq<seq<int>>)
    requires Shape(g)
  {
    forall x, y :: InGrid(x, y) && Get(g, x, y) != Wall ==>
      Get(g, x, y) == Path && Interior(x, y) && (x % 2 == 1 || y % 2 == 1)
  }

  /** (x, y) is no room, or an open one. */
  ghost predicate OpenIfRoom(g: seq<seq<int>>, x: int, y: int)
    requires Shape(g)
  {
    !Room(x, y) || Get(g, x, y) == Path
  }

  /** All four rooms two cells away from (x, y) are open. */
  ghost predicate Explored(g: seq<seq<int>>, x: int, y: int)
    requires Shape(g)
  {
    OpenIfRoom(g, x + 2, y) && OpenIfRoom(g, x - 2, y) && OpenIfRoom(g, x, y + 2) && OpenIfRoom(g, x, y - 2)
  }

  /** Carving only ever opens cells. */
  ghost predicate Opened(g0: seq<seq<int>>, g1: seq<seq<int>>)
    requires Shape(g0) && Shape(g1)
  {
    forall x, y :: InGrid(x, y) && Get(g0, x, y) == Path ==> Get(g1, x, y) == Path
  }

  /** Every room `carve` opened since g0 has all its neighbouring rooms open. */
  ghost predicate NewRoomsExplored(g0: seq<seq<int>>, g1: seq<seq<int>>)
    requires Shape(g0) && Shape(g1)
  {
    forall x, y :: Room(x, y) && Get(g0, x, y) == Wall && Get(g1, x, y) == Path ==> Explored(g1, x, y)
  }

  /** The rooms still walled in: what each recursive `carve` call shrinks. */
  ghost function WalledRooms(g: seq<seq<int>>): set<(int, int)>
    requires Shape(g)
  {
    set x, y | 0 <= x < W && 0 <= y < H && Room(x, y) && Get(g, x, y) == Wall :: (x, y)
  }

  /** `Array.from({length:H}, ()=>Array(W).fill(1))`. */
  function AllWalls(): (g: seq<seq<int>>)
    ensures Shape(g) && forall x, y :: InGrid(x, y) ==> Get(g, x, y) == Wall
  {
    seq(H, _ => seq(W, _ => Wall))
  }

  /** Every open room having all its neighbouring rooms open, and (1, 1)
      open, every room is open. */
  ghost predicate Closed(g: seq<seq<int>>)
    requires Shape(g)
  {
    forall x, y :: Room(x, y) && Get(g, x, y) == Path ==> Explored(g, x, y)
  }

  lemma {:induction false} TopRowOpen(g: seq<seq<int>>, x: int)
    requires Shape(g) && Closed(g) && Get(g, 1, 1) == Path
    requires Room(x, 1)
    ensures Get(g, x, 1) == Path
    decreases x
  {
    if x > 1 {
      TopRowOpen(g, x - 2);
      assert Explored(g, x - 2, 1);
    }
  }

  lemma {:induction false} ColumnOpen(g: seq<seq<int>>, x: int, y: int)
    requires Shape(g) && Closed(g) && Get(g, 1, 1) == Path
    requires Room(x, y)
    ensures Get(g, x, y) == Path
    decreases y
  {
    if y == 1 {
      TopRowOpen(g, x);
    } else {
      ColumnOpen(g, x, y - 2);
      assert Explored(g, x, y - 2);
    }
  }

  lemma AllRoomsOpen(g: seq<seq<int>>)
    requires Shape(g) && Closed(g) && Get(g, 1, 1) == Path
    ensures forall x, y :: Room(x, y) ==> Get(g, x, y) == Path
  {
    forall x, y | Room(x, y) ensures Get(g, x, y) == Path {
      ColumnOpen(g, x, y);
    }
  }

  /** Each carve order is a shuffle of the four steps, so it holds all four. */
  lemma OrderHasAllSteps(picks: seq<int>)
    requires Shuffle.ValidPicks(picks, 4)
    ensures var order := Shuffle.Shuffled(Steps, picks);
      |order| == 4 && forall s :: s in Steps <==> s in order
  {
    Shuffle.ShuffledPermutes(Steps, picks);
    var order := Shuffle.Shuffled(Steps, picks);
    forall s ensures s in Steps <==> s in order {
      assert s in Steps <==> s in multiset(Steps);
      assert s in order <==> s in multiset(order);
    }
  }

  lemma ShrinkWalledRooms(g0: seq<seq<int>>, g1: seq<seq<int>>, x: int, y: int)
    requires Shape(g0) && Shape(g1) && Framed(g0) && Opened(g0, g1)
    requires Room(x, y) && Get(g0, x, y) == Wall && Get(g1, x, y) == Path
    ensures WalledRooms(g1) < WalledRooms(g0)
  {
    assert (x, y) in WalledRooms(g0) && (x, y) !in WalledRooms(g1);
    forall p | p in WalledRooms(g1) ensures p in WalledRooms(g0) {
      var a, b := p.0, p.1;
      assert InGrid(a, b) && Room(a, b) && Get(g1, a, b) == Wall;
      assert Get(g0, a, b) == Wall;
    }
  }

  /** The wall between room (x, y) and the room one step away lies off
      the border and off the pillars. */
  lemma Between(g: seq<seq<int>>, x: int, y: int, step: Step)
    requires Shape(g) && Room(x, y) && step in Steps && Room(x + step.dx, y + step.dy)
    ensures var mx, my := x + step.dx / 2, y + step.dy / 2;
      && InGrid(mx, my) && Interior(mx, my) && (mx % 2 == 1 || my % 2 == 1) && !Room(mx, my)
      && Adjacent((x, y), (mx, my)) && Adjacent((mx, my), (x + step.dx, y + step.dy))
      && forall i, j :: Room(i, j) ==> Get(SetPath(g, mx, my), i, j) == Get(g, i, j)
  {
  }

  /** For room (x, y) and a carving step, `carve`'s bounds test is exactly
      "the cell two away is a room"; a room it passes over is open. */
  lemma StepTarget(g: seq<seq<int>>, x: int, y: int, step: Step)
    requires Shape(g) && Framed(g) && Room(x, y) && step in Steps
    ensures var nx, ny := x + step.dx, y + step.dy;
      (ny > 0 && ny < H - 1 && nx > 0 && nx < W - 1 <==> Room(nx, ny))
      && (Room(nx, ny) && Get(g, nx, ny) != Wall ==> Get(g, nx, ny) == Path)
  {
  }

  /** Opening a cell off the border and the pillars keeps the frame. */
  lemma OpenKeepsFrame(g: seq<seq<int>>, x: int, y: int)
    requires Shape(g) && Framed(g) && InGrid(x, y) && Interior(x, y) && (x % 2 == 1 || y % 2 == 1)
    ensures Framed(SetPath(g, x, y)) && Opened(g, SetPath(g, x, y))
  {
  }

  /** Rooms opened since g0, apart from (x, y) itself, have all their
      neighbouring rooms open. */
  ghost predicate OthersExplored(g0: seq<seq<int>>, g: seq<seq<int>>, x: int, y: int)
    requires Shape(g0) && Shape(g)
  {
    forall i, j :: Room(i, j) && (i, j) != (x, y) && Get(g0, i, j) == Wall && Get(g, i, j) == Path ==>
      Explored(g, i, j)
  }

  /** Grids that agree on every room have the same rooms walled in. */
  lemma SameRooms(g1: seq<seq<int>>, g2: seq<seq<int>>)
    requires Shape(g1) && Shape(g2)
    requires forall i, j :: Room(i, j) ==> Get(g2, i, j) == Get(g1, i, j)
    ensures WalledRooms(g1) == WalledRooms(g2)
  {
  }

  /** One pass of `carve`'s loop that breaks through the wall (g1 to g2)
      and carves from the room beyond (g2 to g3) keeps what the loop knows. */
  lemma CarveStepKeeps(g0: seq<seq<int>>, g1: seq<seq<int>>, g2: seq<seq<int>>, g3: seq<seq<int>>, x: int, y: int)
    requires Shape(g0) && Shape(g1) && Shape(g2) && Shape(g3)
    requires Opened(g0, g1) && Opened(g1, g2) && Opened(g2, g3) && Framed(g1)
    requires forall i, j :: Room(i, j) ==> Get(g2, i, j) == Get(g1, i, j)
    requires OthersExplored(g0, g1, x, y) && NewRoomsExplored(g2, g3)
    ensures Opened(g0, g3) && Opened(g1, g3) && OthersExplored(g0, g3, x, y)
  {
    forall i, j | Room(i, j) && (i, j) != (x, y) && Get(g0, i, j) == Wall && Get(g3, i, j) == Path
      ensures Explored(g3, i, j)
    {
      if Get(g1, i, j) == Path {
        assert Explored(g1, i, j);
      } else {
        assert Get(g2, i, j) == Wall;
      }
    }
  }

  /** The first k steps of a carve order from (x, y) lead to no room, or
      to an open one. */
  ghost predicate StepsOpen(g: seq<seq<int>>, x: int, y: int, order: seq<Step>, k: int)
    requires Shape(g) && 0 <= k <= |order|
  {
    forall j :: 0 <= j < k ==> OpenIfRoom(g, x + order[j].dx, y + order[j].dy)
  }

  /** Opening more cells keeps the steps already taken open, and a step
      whose target is open joins them. */
  lemma StepsOpenGrow(g1: seq<seq<int>>, g2: seq<seq<int>>, x: int, y: int, order: seq<Step>, k: int)
    requires Shape(g1) && Shape(g2) && 0 <= k < |order|
    requires StepsOpen(g1, x, y, order, k) && Opened(g1, g2)
    requires OpenIfRoom(g2, x + order[k].dx, y + order[k].dy)
    ensures StepsOpen(g2, x, y, order, k + 1)
  {
    forall j | 0 <= j < k + 1 ensures OpenIfRoom(g2, x + order[j].dx, y + order[j].dy) {
      if j < k {
        assert OpenIfRoom(g1, x + order[j].dx, y + order[j].dy);
      }
    }
  }

  /** Once every step of an order holding all four is open, the room
      (x, y) is explored, and with it every room opened since g0. */
  lemma AllExplored(g0: seq<seq<int>>, g: seq<seq<int>>, x: int, y: int, order: seq<Step>)
    requires Shape(g0) && Shape(g) && |order| == 4 && forall s :: s in Steps <==> s in order
    requires StepsOpen(g, x, y, order, 4) && OthersExplored(g0, g, x, y)
    ensures NewRoomsExplored(g0, g)
  {
    assert Explored(g, x, y) by {
      assert forall s :: s in Steps ==> OpenIfRoom(g, x + s.dx, y + s.dy);
    }
  }

  // ---------------------------------------------------------------------
  // Walks: the moves `tryMove` accepts, one cell at a time onto open cells

  predicate Adjacent(a: (int, int), b: (int, int))
  {
    Abs(a.0 - b.0) + Abs(a.1 - b.1) == 1
  }

  /** A sequence of open cells, each next to the one before. */
  ghost predicate IsWalk(g: seq<seq<int>>, p: seq<(int, int)>)
    requires Shape(g)
  {
    && |p| > 0
    && (forall i :: 0 <= i < |p| ==> InGrid(p[i].0, p[i].1) && Get(g, p[i].0, p[i].1) == Path)
    && (forall i :: 0 <= i < |p| - 1 ==> Adjacent(p[i], p[i + 1]))
  }

  /** Some walk leads from a to b. */
  ghost predicate Reachable(g: seq<seq<int>>, a: (int, int), b: (int, int))
    requires Shape(g)
  {
    exists p :: IsWalk(g, p) && p[0] == a && p[|p| - 1] == b
  }

  /** Every room `carve` opened since g0 can be walked to from (x, y). */
  ghost predicate ReachedFrom(g0: seq<seq<int>>, g: seq<seq<int>>, x: int, y: int)
    requires Shape(g0) && Shape(g)
  {
    forall i, j {:trigger Reachable(g, (x, y), (i, j))} ::
      Room(i, j) && Get(g0, i, j) == Wall && Get(g, i, j) == Path ==> Reachable(g, (x, y), (i, j))
  }

  /** Opening cells keeps every walk a walk. */
  lemma ReachGrows(g1: seq<seq<int>>, g2: seq<seq<int>>, a: (int, int), b: (int, int))
    requires Shape(g1) && Shape(g2) && Opened(g1, g2) && Reachable(g1, a, b)
    ensures Reachable(g2, a, b)
  {
    var p :| IsWalk(g1, p) && p[0] == a && p[|p| - 1] == b;
    assert IsWalk(g2, p);
  }

  /** A walk from a to b followed by one from b to c leads from a to c. */
  lemma ReachJoin(g: seq<seq<int>>, a: (int, int), b: (int, int), c: (int, int))
    requires Shape(g) && Reachable(g, a, b) && Reachable(g, b, c)
    ensures Reachable(g, a, c)
  {
    var p :| IsWalk(g, p) && p[0] == a && p[|p| - 1] == b;
    var q :| IsWalk(g, q) && q[0] == b && q[|q| - 1] == c;
    var r: seq<(int, int)> := p + q[1..];
    forall i: int | 0 <= i < |r| ensures InGrid(r[i].0, r[i].1) && Get(g, r[i].0, r[i].1) == Path {
      if i >= |p| {
        assert r[i] == q[i - |p| + 1];
      }
    }
    forall i: int | 0 <= i < |r| - 1 ensures Adjacent(r[i], r[i + 1]) {
      if i < |p| - 1 {
        assert r[i] == p[i] && r[i + 1] == p[i + 1];
      } else {
        assert r[i] == q[i - |p| + 1] && r[i + 1] == q[i - |p| + 2];
      }
    }
    assert IsWalk(g, r);
    assert r[|r| - 1] == c;
  }

  /** Two rooms with the open wall cell between them reach each other. */
  lemma ReachThroughWall(g: seq<seq<int>>, a: (int, int), m: (int, int), c: (int, int))
    requires Shape(g) && InGrid(a.0, a.1) && InGrid(m.0, m.1) && InGrid(c.0, c.1)
    requires Get(g, a.0, a.1) == Path && Get(g, m.0, m.1) == Path && Get(g, c.0, c.1) == Path
    requires Adjacent(a, m) && Adjacent(m, c)
    ensures Reachable(g, a, c)
  {
    assert IsWalk(g, [a, m, c]);
  }

  /** Right after `grid[y][x]=0`, the only room opened is (x, y) itself. */
  lemma StartReached(g0: seq<seq<int>>, x: int, y: int)
    requires Shape(g0) && InGrid(x, y)
    ensures ReachedFrom(g0, SetPath(g0, x, y), x, y)
  {
    var g := SetPath(g0, x, y);
    forall i, j | Room(i, j) && Get(g0, i, j) == Wall && Get(g, i, j) == Path
      ensures Reachable(g, (x, y), (i, j))
    {
      assert IsWalk(g, [(x, y)]);
    }
  }

  /** One pass of `carve`'s loop that opens the wall (mx, my) (g1 to g2)
      and carves from the room (nx, ny) beyond (g2 to g3) keeps every room
      opened since g0 reachable from (x, y): through the wall to (nx, ny),
      then on to what the inner carve opened. */
  lemma CarveStepReaches(g0: seq<seq<int>>, g1: seq<seq<int>>, g2: seq<seq<int>>, g3: seq<seq<int>>,
                         x: int, y: int, mx: int, my: int, nx: int, ny: int)
    requires Shape(g0) && Shape(g1) && Shape(g2) && Shape(g3) && Framed(g1)
    requires Opened(g1, g2) && Opened(g2, g3) && Opened(g1, g3)
    requires forall i, j :: Room(i, j) ==> Get(g2, i, j) == Get(g1, i, j)
    requires ReachedFrom(g0, g1, x, y) && ReachedFrom(g2, g3, nx, ny)
    requires InGrid(x, y) && InGrid(mx, my) && InGrid(nx, ny)
    requires Get(g1, x, y) == Path && Get(g2, mx, my) == Path && Get(g3, nx, ny) == Path
    requires Adjacent((x, y), (mx, my)) && Adjacent((mx, my), (nx, ny))
    ensures ReachedFrom(g0, g3, x, y)
  {
    ReachThroughWall(g3, (x, y), (mx, my), (nx, ny));
    forall i, j | Room(i, j) && Get(g0, i, j) == Wall && Get(g3, i, j) == Path
      ensures Reachable(g3, (x, y), (i, j))
    {
      if Get(g1, i, j) == Path {
        ReachGrows(g1, g3, (x, y), (i, j));
      } else {
        assert Get(g2, i, j) == Wall;
        ReachJoin(g3, (x, y), (nx, ny), (i, j));
      }
    }
  }

  /** What `carve`'s loop at room (x, y) keeps, g0 being the grid before
      (x, y) was opened: the frame is intact, (x, y) is open, cells were
      only opened, and every other room opened since g0 has its neighbouring
      rooms open, while every room opened since g0 can be walked to from
      (x, y). */
  ghost predicate Carving(g0: seq<seq<int>>, g: seq<seq<int>>, x: int, y: int)
  {
    && Shape(g0) && Shape(g) && Framed(g) && Room(x, y) && Get(g, x, y) == Path
    && Opened(g0, g) && OthersExplored(g0, g, x, y) && ReachedFrom(g0, g, x, y)
  }

  /** `grid[y][x]=0` on a framed grid starts the loop's facts. */
  lemma StartCarving(g0: seq<seq<int>>, x: int, y: int)
    requires Shape(g0) && Framed(g0) && Room(x, y) && Get(g0, x, y) == Wall
    ensures Carving(g0, SetPath(g0, x, y), x, y)
  {
    OpenKeepsFrame(g0, x, y);
    StartReached(g0, x, y);
  }

  /** Opening the wall between room (x, y) and the walled-in room one
      step away keeps the frame and leaves that room walled in, so `carve`
      can go on from it with no fewer walled rooms than before. */
  lemma OpenWall(g1: seq<seq<int>>, x: int, y: int, step: Step)
    requires Shape(g1) && Framed(g1) && Room(x, y) && step in Steps && Room(x + step.dx, y + step.dy)
    requires Get(g1, x + step.dx, y + step.dy) == Wall
    ensures var mx, my := x + step.dx / 2, y + step.dy / 2;
      && InGrid(mx, my)
      && var g2 := SetPath(g1, mx, my);
      && Framed(g2) && Get(g2, x + step.dx, y + step.dy) == Wall && WalledRooms(g2) == WalledRooms(g1)
  {
    Between(g1, x, y, step);
    var mx, my := x + step.dx / 2, y + step.dy / 2;
    OpenKeepsFrame(g1, mx, my);
    SameRooms(g1, SetPath(g1, mx, my));
  }

  /** What one break-through (g1 to g2, the wall opened) and the carve
      beyond it (g2 to g3) keep of what the loop knows. */
  lemma BreakThroughKeeps(g0: seq<seq<int>>, g1: seq<seq<int>>, g2: seq<seq<int>>, g3: seq<seq<int>>,
                          x: int, y: int, step: Step, mx: int, my: int)
    requires Carving(g0, g1, x, y) && step in Steps && Room(x + step.dx, y + step.dy)
    requires Get(g1, x + step.dx, y + step.dy) == Wall
    requires mx == x + step.dx / 2 && my == y + step.dy / 2 && InGrid(mx, my) && g2 == SetPath(g1, mx, my)
    requires Shape(g3) && Framed(g3) && Opened(g2, g3) && NewRoomsExplored(g2, g3)
    requires ReachedFrom(g2, g3, x + step.dx, y + step.dy) && Get(g3, x + step.dx, y + step.dy) == Path
    ensures Shape(g3) && Framed(g3) && Room(x, y) && Get(g3, x, y) == Path
    ensures Opened(g0, g3) && OthersExplored(g0, g3, x, y) && ReachedFrom(g0, g3, x, y)
    ensures Carving(g0, g3, x, y) && Opened(g1, g3)
  {
    assert Framed(g1) && Opened(g0, g1) && OthersExplored(g0, g1, x, y) && ReachedFrom(g0, g1, x, y);
    Between(g1, x, y, step);
    OpenKeepsFrame(g1, mx, my);
    CarveStepKeeps(g0, g1, g2, g3, x, y);
    CarveStepReaches(g0, g1, g2, g3, x, y, mx, my, x + step.dx, y + step.dy);
  }

  /** The maze is connected: every room can be walked to from the start. */
  ghost predicate Connected(g: seq<seq<int>>)
    requires Shape(g)
  {
    forall x, y {:trigger Reachable(g, (StartX, StartY), (x, y))} ::
      Room(x, y) ==> Reachable(g, (StartX, StartY), (x, y))
  }

  /** `carve(1,1)` on the all-wall grid, having opened every room and kept
      every room it opened reachable from (1, 1), leaves a connected maze
      in which the goal can be walked to from the start. */
  lemma CarvedConnected(g: seq<seq<int>>)
    requires Shape(g) && ReachedFrom(AllWalls(), g, StartX, StartY)
    requires forall x, y :: Room(x, y) ==> Get(g, x, y) == Path
    ensures Connected(g)
    ensures Reachable(g, (StartX, StartY), (GoalX, GoalY))
  {
    var w := AllWalls();
    forall x, y | Room(x, y) ensures Reachable(g, (StartX, StartY), (x, y)) {
      assert Get(w, x, y) == Wall;
    }
    assert Room(GoalX, GoalY);
  }

  /** The distance left to the goal, and the start's distance `baseDist`. */

  const GoalX: int := W - 2
  const GoalY: int := H - 2
  const StartX: int := 1
  const StartY: int := 1
  const BaseDist: int := Abs(GoalX - StartX) + Abs(GoalY - StartY)

  function Distance(x: int, y: int): nat
  {
    Abs(GoalX - x) + Abs(GoalY - y)
  }

  /** `1 - dist/baseDist`. */
  function MoveProgress(x: int, y: int): real
  {
    1.0 - Distance(x, y) as real / BaseDist as real
  }

  /** On any cell off the border the progress lies in [0, 1], and it is 1
      only on the goal. (On the border it could go negative: the maze's
      outer wall is what keeps it in range.) */
  lemma ProgressRange(x: int, y: int)
    requires Interior(x, y)
    ensures BaseDist == 16
    ensures 0.0 <= MoveProgress(x, y) <= 1.0
    ensures MoveProgress(x, y) == 1.0 <==> x == GoalX && y == GoalY
  {
  }

  lemma BorderProgressNegative()
    ensures MoveProgress(0, 0) < 0.0
  {
  }

  datatype Key = ArrowLeft | ArrowRight | ArrowUp | ArrowDown | OtherKey

  /** The step each arrow key asks for; rows grow downwards. */
  function Arrow(key: Key): (int, int)
  {
    match key
    case ArrowLeft => (-1, 0)
    case ArrowRight => (1, 0)
    case ArrowUp => (0, -1)
    case ArrowDown => (0, 1)
    case OtherKey => (0, 0)
  }

  class Runner {
    var grid: seq<seq<int>>
    var px: int
    var py: int
    var lastProgress: real

    /** The maze has every room open and reachable from the start, its
        frame intact, and the player stands on an open cell. */
    ghost predicate Valid()
      reads this
    {
      && Shape(grid) && Framed(grid)
      && (forall x, y :: Room(x, y) ==> Get(grid, x, y) == Path)
      && Connected(grid)
      && InGrid(px, py) && Get(grid, px, py) == Path
      && 0.0 <= lastProgress < 1.0
    }

    /** `carve(x, y)`: open (x, y), then for each step of this call's
        shuffled order, break through to the room two cells away if it is
        still walled in, and carve from there. */
    method Carve(x: int, y: int, picks: (int, int) -> seq<int>)
      requires forall i, j :: Shuffle.ValidPicks(picks(i, j), 4)
      requires Shape(grid) && Framed(grid) && Room(x, y) && Get(grid, x, y) == Wall
      modifies this
      ensures Shape(grid) && Framed(grid)
      ensures Get(grid, x, y) == Path
      ensures Opened(old(grid), grid)
      ensures NewRoomsExplored(old(grid), grid)
      ensures ReachedFrom(old(grid), grid, x, y)
      ensures px == old(px) && py == old(py) && lastProgress == old(lastProgress)
      decreases WalledRooms(grid), 1
    {
      ghost var g0 := grid;
      StartCarving(grid, x, y);
      grid := SetPath(grid, x, y);
      OrderHasAllSteps(picks(x, y));
      var order := Shuffle.Shuffled(Steps, picks(x, y));
      CarveFrom(x, y, order, picks, g0);
    }

    /** `carve`'s loop over the shuffled order, once (x, y) is open; g0 is
        the grid before it was. */
    method CarveFrom(x: int, y: int, order: seq<Step>, picks: (int, int) -> seq<int>, ghost g0: seq<seq<int>>)
      requires forall i, j :: Shuffle.ValidPicks(picks(i, j), 4)
      requires |order| == 4 && forall s :: s in Steps <==> s in order
      requires Carving(g0, grid, x, y) && Framed(g0) && Get(g0, x, y) == Wall
      modifies this
      ensures Carving(g0, grid, x, y) && Opened(old(grid), grid) && NewRoomsExplored(g0, grid)
      ensures px == old(px) && py == old(py) && lastProgress == old(lastProgress)
      decreases WalledRooms(g0), 0
    {
      var k := 0;
      while k < 4
        invariant 0 <= k <= 4
        invariant Carving(g0, grid, x, y) && Opened(old(grid), grid) && StepsOpen(grid, x, y, order, k)
        invariant px == old(px) && py == old(py) && lastProgress == old(lastProgress)
      {
        ghost var g1 := grid;
        var step := order[k];
        assert step in order;
        StepTarget(grid, x, y, step);
        var nx, ny := x + step.dx, y + step.dy;
        if ny > 0 && ny < H - 1 && nx > 0 && nx < W - 1 && grid[ny][nx] == Wall {
          ShrinkWalledRooms(g0, grid, x, y);
          BreakThrough(x, y, step, picks, g0);
        }
        StepsOpenGrow(g1, grid, x, y, order, k);
        k := k + 1;
      }
      AllExplored(g0, grid, x, y, order);
    }

    /** The body of `carve`'s loop for a step whose room is still walled
        in: open the wall between, then `carve` from the room beyond. */
    method BreakThrough(x: int, y: int, step: Step, picks: (int, int) -> seq<int>, ghost g0: seq<seq<int>>)
      requires forall i, j :: Shuffle.ValidPicks(picks(i, j), 4)
      requires Carving(g0, grid, x, y) && step in Steps
      requires Room(x + step.dx, y + step.dy) && Get(grid, x + step.dx, y + step.dy) == Wall
      modifies this
      ensures Carving(g0, grid, x, y) && Opened(old(grid), grid)
      ensures Get(grid, x + step.dx, y + step.dy) == Path
      ensures px == old(px) && py == old(py) && lastProgress == old(lastProgress)
      decreases WalledRooms(grid), 2
    {
      ghost var g1 := grid;
      OpenWall(grid, x, y, step);
      var mx, my := x + step.dx / 2, y + step.dy / 2;
      grid := SetPath(grid, mx, my);
      ghost var g2 := grid;
      Carve(x + step.dx, y + step.dy, picks);
      BreakThroughKeeps(g0, g1, g2, grid, x, y, step, mx, my);
    }

    /** `startMazeRunner`'s set-up: the all-wall grid, `carve(1,1)`, and
        the player on the start cell. */
    constructor (picks: (int, int) -> seq<int>)
      requires forall i, j :: Shuffle.ValidPicks(picks(i, j), 4)
      ensures Valid()
      ensures px == StartX && py == StartY && lastProgress == 0.0
      ensures Reachable(grid, (StartX, StartY), (GoalX, GoalY))
    {
      grid := AllWalls();
      px, py := StartX, StartY;
      lastProgress := 0.0;
      new;
      Carve(1, 1, picks);
      AllRoomsOpen(grid);
      CarvedConnected(grid);
    }

    /** `tryMove(dx, dy)`. */
    method TryMove(dx: int, dy: int) returns (finish: Option<Progress>)
      requires Valid()
      modifies this
      ensures Valid() && grid == old(grid)
      ensures var nx, ny := old(px) + dx, old(py) + dy;
        if InGrid(nx, ny) && Get(grid, nx, ny) == Path then
          px == nx && py == ny
          && (finish.Some? <==> nx == GoalX && ny == GoalY)
          && (finish.Some? ==> finish == Some(Number(1.0)) && lastProgress == old(lastProgress))
          && (finish.None? ==> lastProgress == Max(old(lastProgress), MoveProgress(nx, ny)))
        else
          px == old(px) && py == old(py) && lastProgress == old(lastProgress) && finish == None
    {
      var nx, ny := px + dx, py + dy;
      finish := None;
      if nx >= 0 && nx < W && ny >= 0 && ny < H && grid[ny][nx] == Path {
        px, py := nx, ny;
        ProgressRange(px, py);
        var progress := 1.0 - Distance(px, py) as real / BaseDist as real;
        if px == GoalX && py == GoalY {
          finish := Some(Number(1.0));
          return;
        }
        lastProgress := Max(lastProgress, progress);
      }
    }

    /** The `keydown` handler: an arrow key tries a one-cell move in its
        direction, any other key does nothing. */
    method OnKey(key: Key) returns (finish: Option<Progress>)
      requires Valid()
      modifies this
      ensures Valid() && grid == old(grid)
      ensures var (dx, dy) := Arrow(key); var nx, ny := old(px) + dx, old(py) + dy;
        if key != OtherKey && InGrid(nx, ny) && Get(grid, nx, ny) == Path then
          px == nx && py == ny
          && (finish.Some? <==> nx == GoalX && ny == GoalY)
          && (finish.Some? ==> finish == Some(Number(1.0)) && lastProgress == old(lastProgress))
          && (finish.None? ==> lastProgress == Max(old(lastProgress), MoveProgress(nx, ny)))
        else
          px == old(px) && py == old(py) && lastProgress == old(lastProgress) && finish == None
    {
      finish := None;
      match key {
        case ArrowLeft => finish := TryMove(-1, 0);
        case ArrowRight => finish := TryMove(1, 0);
        case ArrowUp => finish := TryMove(0, -1);
        case ArrowDown => finish := TryMove(0, 1);
        case OtherKey =>
      }
    }
  }
}
