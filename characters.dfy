/** The grid rules shared by every character of the chase (characters.py):
    doubled coordinates, the move-legality test, the breadth-first
    next-step search and the enemy policies. */
module Characters {
  import opened Wrappers
  import opened Random

  /** A cell address (row, column) on the doubled grid. */
  type Pos = (int, int)

  /** The maze as the list of rows of tile characters that the game keeps. */
  type Maze = seq<seq<char>>

  const WALL: char := '%'
  const GATE: char := 'G'
  const STAIR: char := 'S'

  /** The game reads the width from the first row and indexes every row with it. */
  predicate Rectangular(m: Maze)
  {
    |m| > 0 && forall r :: 0 <= r < |m| ==> |m[r]| == |m[0]|
  }

  predicate InBounds(m: Maze, p: Pos)
  {
    |m| > 0 && 0 <= p.0 < |m| && 0 <= p.1 < |m[0]|
  }

  function Abs(x: int): (a: int)
    ensures a >= 0 && (a == x || a == -x)
  {
    if x < 0 then -x else x
  }

  /** `sign`: x // abs(x), and 0 for 0. */
  function Sign(x: int): (s: int)
    ensures -1 <= s <= 1
    ensures s * Abs(x) == x
  {
    if x == 0 then 0 else x / Abs(x)
  }

  /** `check_same_position`. */
  predicate SamePosition(a: Pos, b: Pos)
  {
    a.0 == b.0 && a.1 == b.1
  }

  /** A vertical move is stopped by a wall or by the gate while it is closed. */
  predicate BlocksVertical(cell: char, closed: bool)
  {
    cell == WALL || (cell == GATE && closed)
  }

  /** `eligible_character_move`: the four direction tests are applied one after
      the other; the gate is only consulted on vertical moves. */
  function EligibleMove(m: Maze, closed: bool, x: int, y: int, nx: int, ny: int): bool
    requires Rectangular(m) && InBounds(m, (x, y))
  {
    if !InBounds(m, (nx, ny)) then false
    else if nx == x + 2 && BlocksVertical(m[x + 1][y], closed) then false
    else if nx == x - 2 && BlocksVertical(m[x - 1][y], closed) then false
    else if ny == y + 2 && m[x][y + 1] == WALL then false
    else if ny == y - 2 && m[x][y - 1] == WALL then false
    else true
  }

  /** b is two cells away from a along exactly one axis. */
  predicate AxisStep(a: Pos, b: Pos)
  {
    (b.1 == a.1 && (b.0 == a.0 + 2 || b.0 == a.0 - 2)) ||
    (b.0 == a.0 && (b.1 == a.1 + 2 || b.1 == a.1 - 2))
  }

  /** A legal unit move of the chase graph: both ends on the grid, one
      double step along an axis, and the cell in between does not block it
      (a wall, or on a vertical move the closed gate). */
  predicate CanStep(m: Maze, closed: bool, a: Pos, b: Pos)
  {
    Rectangular(m) && InBounds(m, a) && InBounds(m, b) &&
    ((b.1 == a.1 && b.0 == a.0 + 2 && !BlocksVertical(m[a.0 + 1][a.1], closed)) ||
     (b.1 == a.1 && b.0 == a.0 - 2 && !BlocksVertical(m[a.0 - 1][a.1], closed)) ||
     (b.0 == a.0 && b.1 == a.1 + 2 && m[a.0][a.1 + 1] != WALL) ||
     (b.0 == a.0 && b.1 == a.1 - 2 && m[a.0][a.1 - 1] != WALL))
  }

  /** Off-grid destinations are refused. */
  lemma EligibleRejectsOffGrid(m: Maze, closed: bool, x: int, y: int, nx: int, ny: int)
    requires Rectangular(m) && InBounds(m, (x, y)) && !InBounds(m, (nx, ny))
    ensures !EligibleMove(m, closed, x, y, nx, ny)
  {
  }

  /** On an axis step, `eligible_character_move` is exactly the chase-graph
      edge: a vertical move fails iff the middle cell is a wall or the closed
      gate, a horizontal move iff the middle cell is a wall. */
  lemma EligibleIsCanStep(m: Maze, closed: bool, a: Pos, b: Pos)
    requires Rectangular(m) && InBounds(m, a) && AxisStep(a, b)
    ensures EligibleMove(m, closed, a.0, a.1, b.0, b.1) <==> CanStep(m, closed, a, b)
  {
  }

  /** Legality is symmetric: both directions test the same middle cell. */
  lemma CanStepSymmetric(m: Maze, closed: bool, a: Pos, b: Pos)
    ensures CanStep(m, closed, a, b) <==> CanStep(m, closed, b, a)
  {
  }

  lemma EligibleSymmetric(m: Maze, closed: bool, a: Pos, b: Pos)
    requires Rectangular(m) && InBounds(m, a) && InBounds(m, b) && AxisStep(a, b)
    ensures EligibleMove(m, closed, a.0, a.1, b.0, b.1) <==> EligibleMove(m, closed, b.0, b.1, a.0, a.1)
  {
    EligibleIsCanStep(m, closed, a, b);
    EligibleIsCanStep(m, closed, b, a);
    CanStepSymmetric(m, closed, a, b);
  }

  // ---------------------------------------------------------------------
  // Reachability in the chase graph

  /** v can be reached from s in at most n legal moves. */
  ghost predicate Reach(m: Maze, closed: bool, s: Pos, v: Pos, n: nat)
    decreases n
  {
    v == s || (n > 0 && exists u :: CanStep(m, closed, u, v) && Reach(m, closed, s, u, n - 1))
  }

  lemma {:induction false} ReachMono(m: Maze, closed: bool, s: Pos, v: Pos, n: nat)
    requires Reach(m, closed, s, v, n)
    ensures Reach(m, closed, s, v, n + 1)
    decreases n
  {
    if v != s {
      var u :| CanStep(m, closed, u, v) && Reach(m, closed, s, u, n - 1);
      ReachMono(m, closed, s, u, n - 1);
    }
  }

  lemma {:induction false} ReachMonoLe(m: Maze, closed: bool, s: Pos, v: Pos, n: nat, n': nat)
    requires Reach(m, closed, s, v, n) && n <= n'
    ensures Reach(m, closed, s, v, n')
    decreases n' - n
  {
    if n < n' {
      ReachMono(m, closed, s, v, n);
      ReachMonoLe(m, closed, s, v, n + 1, n');
    }
  }

  /** A first move followed by a walk of n moves is a walk of n + 1 moves. */
  lemma {:induction false} ReachPrepend(m: Maze, closed: bool, s: Pos, a: Pos, v: Pos, n: nat)
    requires CanStep(m, closed, s, a) && Reach(m, closed, a, v, n)
    ensures Reach(m, closed, s, v, n + 1)
    decreases n
  {
    if v == a {
      assert Reach(m, closed, s, s, n);
      ReachMonoLe(m, closed, s, a, 1, n + 1);
    } else {
      var u :| CanStep(m, closed, u, v) && Reach(m, closed, a, u, n - 1);
      ReachPrepend(m, closed, s, a, u, n - 1);
    }
  }

  /** A set that holds s and is closed under legal moves holds everything reachable from s. */
  lemma {:induction false} ReachStaysInClosedSet(m: Maze, closed: bool, s: Pos, vs: set<Pos>, v: Pos, n: nat)
    requires s in vs
    requires forall u, w :: u in vs && CanStep(m, closed, u, w) ==> w in vs
    requires Reach(m, closed, s, v, n)
    ensures v in vs
    decreases n
  {
    if v != s {
      var u :| CanStep(m, closed, u, v) && Reach(m, closed, s, u, n - 1);
      ReachStaysInClosedSet(m, closed, s, vs, u, n - 1);
    }
  }

  // ---------------------------------------------------------------------
  // Breadth-first next step (bfs_find_next_step)

  /** The t-th move of the search's expansion order: up, down, left, right. */
  function Direction(t: int): Pos
    requires 0 <= t < 4
  {
    if t == 0 then (-2, 0) else if t == 1 then (2, 0) else if t == 2 then (0, -2) else (0, 2)
  }

  function Last(p: seq<Pos>): Pos
    requires |p| > 0
  {
    p[|p| - 1]
  }

  /** A queued path starts at `start` and ends on the grid; when it has a
      second cell, that cell is a legal first move from which the last cell is
      one move nearer than from `start`. */
  ghost predicate GoodPath(m: Maze, closed: bool, start: Pos, p: seq<Pos>)
  {
    |p| >= 1 && p[0] == start && InBounds(m, Last(p)) &&
    (|p| >= 2 ==>
      CanStep(m, closed, start, p[1]) &&
      Reach(m, closed, p[1], Last(p), |p| - 2) &&
      !Reach(m, closed, start, Last(p), |p| - 2))
  }

  /** The queue of the search: good paths ending in visited cells, in
      non-decreasing length, every length lo or lo + 1. */
  ghost predicate QueueOk(m: Maze, closed: bool, start: Pos, lo: int, q: seq<seq<Pos>>, vis: set<Pos>)
  {
    (forall i :: 0 <= i < |q| ==> GoodPath(m, closed, start, q[i]) && Last(q[i]) in vis) &&
    (forall i :: 0 <= i < |q| ==> lo <= |q[i]| <= lo + 1) &&
    (forall i, j :: 0 <= i <= j < |q| ==> |q[i]| <= |q[j]|)
  }

  /** Every visited cell outside `ex` is the last cell of some queued path. */
  ghost predicate Covered(q: seq<seq<Pos>>, vis: set<Pos>, ex: set<Pos>)
  {
    forall v :: v in vis && v !in ex ==> exists i :: 0 <= i < |q| && |q[i]| > 0 && Last(q[i]) == v
  }

  /** Every legal move out of a cell of `from` lands in `vis`. */
  ghost predicate ClosedUnder(m: Maze, closed: bool, from: set<Pos>, vis: set<Pos>)
  {
    forall u, w :: u in from && CanStep(m, closed, u, w) ==> w in vis
  }

  /** The cells of a rows-by-cols grid, built row by row. */
  ghost function GridCells(rows: nat, cols: nat): set<Pos>
    decreases rows
  {
    if rows == 0 then {} else GridCells(rows - 1, cols) + RowCells(rows - 1, cols)
  }

  ghost function RowCells(r: int, cols: nat): set<Pos>
    decreases cols
  {
    if cols == 0 then {} else RowCells(r, cols - 1) + {(r, cols - 1)}
  }

  ghost function AllCells(m: Maze): set<Pos>
  {
    GridCells(|m|, if |m| > 0 then |m[0]| else 0)
  }

  lemma {:induction false} InRowCells(r: int, cols: nat, c: int)
    requires 0 <= c < cols
    ensures (r, c) in RowCells(r, cols)
    decreases cols
  {
    if c < cols - 1 {
      InRowCells(r, cols - 1, c);
    }
  }

  lemma {:induction false} InGridCells(rows: nat, cols: nat, p: Pos)
    requires 0 <= p.0 < rows && 0 <= p.1 < cols
    ensures p in GridCells(rows, cols)
    decreases rows
  {
    if p.0 < rows - 1 {
      InGridCells(rows - 1, cols, p);
    } else {
      InRowCells(p.0, cols, p.1);
    }
  }

  /** Every on-grid cell is one of the grid's cells. */
  lemma InAllCells(m: Maze, p: Pos)
    requires InBounds(m, p)
    ensures p in AllCells(m)
  {
    InGridCells(|m|, |m[0]|, p);
  }

  lemma CanStepIsMove(m: Maze, closed: bool, c: Pos, w: Pos)
    requires CanStep(m, closed, c, w)
    ensures exists t :: 0 <= t < 4 && w == (c.0 + Direction(t).0, c.1 + Direction(t).1)
  {
    if w.0 == c.0 - 2 { assert w == (c.0 + Direction(0).0, c.1 + Direction(0).1); }
    else if w.0 == c.0 + 2 { assert w == (c.0 + Direction(1).0, c.1 + Direction(1).1); }
    else if w.1 == c.1 - 2 { assert w == (c.0 + Direction(2).0, c.1 + Direction(2).1); }
    else { assert w == (c.0 + Direction(3).0, c.1 + Direction(3).1); }
  }

  /** A new cell found from the end of a good path: the extended path is good. */
  lemma ExtendGoodPath(m: Maze, closed: bool, start: Pos, p: seq<Pos>, n: Pos, done: set<Pos>, visited: set<Pos>)
    requires GoodPath(m, closed, start, p) && CanStep(m, closed, Last(p), n)
    requires n !in visited && start in visited
    requires ClosedUnder(m, closed, done, visited)
    requires |p| >= 2 ==> forall v :: Reach(m, closed, start, v, |p| - 2) ==> v in done
    ensures GoodPath(m, closed, start, p + [n])
  {
    var q := p + [n];
    assert Last(q) == n && q[0] == start;
    if |p| >= 2 {
      assert q[1] == p[1];
      assert CanStep(m, closed, Last(p), n) && Reach(m, closed, p[1], Last(p), |p| - 2);
    } else {
      assert Last(p) == start && q[1] == n;
    }
  }

  /** The blocking test the search applies to the move (dx, dy) out of (cx, cy):
      a wall, or the closed gate on a vertical move, in the cell between. */
  function Blocked(m: Maze, closed: bool, cx: int, cy: int, dx: int, dy: int): bool
    requires 0 <= cx < |m| && 0 <= cx + dx < |m| && (dx == 2 || dx == -2 || dx == 0)
    requires 0 <= cy < |m[cx]| && (dy == 2 || dy == -2 || dy == 0) && (dx == 0 || dy == 0)
    requires Rectangular(m) && 0 <= cy + dy < |m[0]|
  {
    if dx == 2 then m[cx + 1][cy] == WALL || (m[cx + 1][cy] == GATE && closed)
    else if dx == -2 then m[cx - 1][cy] == WALL || (m[cx - 1][cy] == GATE && closed)
    else if dy == 2 then m[cx][cy + 1] == WALL
    else if dy == -2 then m[cx][cy - 1] == WALL
    else false
  }

  /** For each of the four search directions the blocking test is exactly the
      negation of a legal move. */
  lemma BlockedIsNotStep(m: Maze, closed: bool, c: Pos, t: int)
    requires Rectangular(m) && InBounds(m, c) && 0 <= t < 4
    requires InBounds(m, (c.0 + Direction(t).0, c.1 + Direction(t).1))
    ensures !Blocked(m, closed, c.0, c.1, Direction(t).0, Direction(t).1) <==>
      CanStep(m, closed, c, (c.0 + Direction(t).0, c.1 + Direction(t).1))
  {
  }

  /** The cell reached from the end of `path` in direction t. */
  function Toward(path: seq<Pos>, t: int): Pos
    requires |path| > 0 && 0 <= t < 4
  {
    (Last(path).0 + Direction(t).0, Last(path).1 + Direction(t).1)
  }

  /** One direction of the search's neighbour loop: a legal, unvisited
      neighbour is marked visited and its extended path queued. */
  method Visit(m: Maze, closed: bool, start: Pos, path: seq<Pos>, t: int, queue: seq<seq<Pos>>,
               visited: set<Pos>, ghost done: set<Pos>)
    returns (queue': seq<seq<Pos>>, visited': set<Pos>)
    requires Rectangular(m) && GoodPath(m, closed, start, path) && 0 <= t < 4
    requires start in visited && ClosedUnder(m, closed, done, visited)
    requires |path| >= 2 ==> forall v :: Reach(m, closed, start, v, |path| - 2) ==> v in done
    ensures CanStep(m, closed, Last(path), Toward(path, t)) && Toward(path, t) !in visited ==>
      queue' == queue + [path + [Toward(path, t)]] && visited' == visited + {Toward(path, t)} &&
      GoodPath(m, closed, start, path + [Toward(path, t)]) && Toward(path, t) in AllCells(m)
    ensures !(CanStep(m, closed, Last(path), Toward(path, t)) && Toward(path, t) !in visited) ==>
      queue' == queue && visited' == visited
  {
    var rows, cols := |m|, |m[0]|;
    var cur := path[|path| - 1];
    var cx, cy := cur.0, cur.1;
    var dx, dy := Direction(t).0, Direction(t).1;
    var nx, ny := cx + dx, cy + dy;
    queue', visited' := queue, visited;
    if 0 <= nx < rows && 0 <= ny < cols {
      var blocked := Blocked(m, closed, cx, cy, dx, dy);
      BlockedIsNotStep(m, closed, cur, t);
      if !blocked && (nx, ny) !in visited {
        InAllCells(m, (nx, ny));
        ExtendGoodPath(m, closed, start, path, (nx, ny), done, visited);
        visited' := visited + {(nx, ny)};
        var newPath := path + [(nx, ny)];
        queue' := queue + [newPath];
      }
    }
  }

  /** The state of the neighbour loop after the first t directions. */
  ghost predicate FrontInv(m: Maze, closed: bool, start: Pos, path: seq<Pos>, done: set<Pos>,
                           queue0: seq<seq<Pos>>, visited0: set<Pos>, queue: seq<seq<Pos>>, visited: set<Pos>, t: int)
    requires |path| > 0
  {
    0 <= t <= 4 &&
    QueueOk(m, closed, start, |path|, queue, visited) &&
    Covered(queue, visited, done + {Last(path)}) &&
    visited0 <= visited <= AllCells(m) &&
    (visited == visited0 ==> queue == queue0) &&
    (visited == visited0 || AllCells(m) - visited < AllCells(m) - visited0) &&
    (forall s :: 0 <= s < t && CanStep(m, closed, Last(path), Toward(path, s)) ==> Toward(path, s) in visited)
  }

  lemma QueueOkAppend(m: Maze, closed: bool, start: Pos, lo: int, q: seq<seq<Pos>>, vis: set<Pos>, p: seq<Pos>)
    requires QueueOk(m, closed, start, lo, q, vis)
    requires GoodPath(m, closed, start, p) && |p| == lo + 1
    ensures QueueOk(m, closed, start, lo, q + [p], vis + {Last(p)})
  {
    var q' := q + [p];
    assert forall i :: 0 <= i < |q| ==> q'[i] == q[i];
  }

  lemma CoveredAppend(q: seq<seq<Pos>>, vis: set<Pos>, ex: set<Pos>, p: seq<Pos>)
    requires Covered(q, vis, ex) && |p| > 0
    ensures Covered(q + [p], vis + {Last(p)}, ex)
  {
    var q' := q + [p];
    forall v | v in vis + {Last(p)} && v !in ex
      ensures exists i :: 0 <= i < |q'| && |q'[i]| > 0 && Last(q'[i]) == v
    {
      if v in vis {
        var i :| 0 <= i < |q| && |q[i]| > 0 && Last(q[i]) == v;
        assert q'[i] == q[i];
      } else {
        assert q'[|q|] == p;
      }
    }
  }

  lemma GrowStrictly(all: set<Pos>, v0: set<Pos>, v: set<Pos>, n: Pos)
    requires v0 <= v <= all && n in all && n !in v
    requires v == v0 || all - v < all - v0
    ensures all - (v + {n}) < all - v0
  {
    assert n in all - v0 && n !in all - (v + {n});
  }

  /** One turn of the neighbour loop keeps its invariant. */
  lemma FrontStep(m: Maze, closed: bool, start: Pos, path: seq<Pos>, done: set<Pos>, t: int,
                  queue0: seq<seq<Pos>>, visited0: set<Pos>, queue: seq<seq<Pos>>, visited: set<Pos>,
                  queue': seq<seq<Pos>>, visited': set<Pos>)
    requires |path| > 0 && 0 <= t < 4
    requires FrontInv(m, closed, start, path, done, queue0, visited0, queue, visited, t)
    requires CanStep(m, closed, Last(path), Toward(path, t)) && Toward(path, t) !in visited ==>
      queue' == queue + [path + [Toward(path, t)]] && visited' == visited + {Toward(path, t)} &&
      GoodPath(m, closed, start, path + [Toward(path, t)]) && Toward(path, t) in AllCells(m)
    requires !(CanStep(m, closed, Last(path), Toward(path, t)) && Toward(path, t) !in visited) ==>
      queue' == queue && visited' == visited
    ensures FrontInv(m, closed, start, path, done, queue0, visited0, queue', visited', t + 1)
  {
    var n := Toward(path, t);
    if CanStep(m, closed, Last(path), n) && n !in visited {
      var p := path + [n];
      assert Last(p) == n;
      QueueOkAppend(m, closed, start, |path|, queue, visited, p);
      CoveredAppend(queue, visited, done + {Last(path)}, p);
      GrowStrictly(AllCells(m), visited0, visited, n);
    }
  }

  /** The `for dx, dy in moves` loop of the search: every legal, unvisited
      neighbour of the path's last cell is marked visited and its extended
      path is queued behind the others. */
  method ExpandFront(m: Maze, closed: bool, start: Pos, path: seq<Pos>, queue: seq<seq<Pos>>,
                     visited: set<Pos>, ghost done: set<Pos>)
    returns (queue': seq<seq<Pos>>, visited': set<Pos>)
    requires Rectangular(m) && GoodPath(m, closed, start, path)
    requires QueueOk(m, closed, start, |path|, queue, visited)
    requires Covered(queue, visited, done + {Last(path)})
    requires visited <= AllCells(m) && start in visited
    requires ClosedUnder(m, closed, done, visited)
    requires |path| >= 2 ==> forall v :: Reach(m, closed, start, v, |path| - 2) ==> v in done
    ensures FrontInv(m, closed, start, path, done, queue, visited, queue', visited', 4)
  {
    queue', visited' := queue, visited;
    var t := 0;
    while t < 4
      invariant FrontInv(m, closed, start, path, done, queue, visited, queue', visited', t)
      invariant start in visited' && ClosedUnder(m, closed, done, visited')
    {
      ghost var q0, v0 := queue', visited';
      queue', visited' := Visit(m, closed, start, path, t, queue', visited', done);
      FrontStep(m, closed, start, path, done, t, queue, visited, q0, v0, queue', visited');
      t := t + 1;
    }
  }

  /** The state of the search between two turns of its main loop: `done`
      holds the expanded cells, the queue holds a path to every other visited
      cell, and every cell within |queue[0]| - 2 moves is done. */
  ghost predicate BfsInv(m: Maze, closed: bool, start: Pos, target: Pos,
                         queue: seq<seq<Pos>>, visited: set<Pos>, done: set<Pos>)
  {
    start in visited && done <= visited <= AllCells(m) && target !in done &&
    (queue != [] ==> QueueOk(m, closed, start, |queue[0]|, queue, visited)) &&
    Covered(queue, visited, done) &&
    ClosedUnder(m, closed, done, visited) &&
    (queue != [] && |queue[0]| >= 2 ==>
      forall v :: Reach(m, closed, start, v, |queue[0]| - 2) ==> v in done)
  }

  lemma PopQueue(m: Maze, closed: bool, start: Pos, queue: seq<seq<Pos>>, visited: set<Pos>, done: set<Pos>)
    requires queue != [] && QueueOk(m, closed, start, |queue[0]|, queue, visited)
    requires Covered(queue, visited, done)
    ensures GoodPath(m, closed, start, queue[0]) && Last(queue[0]) in visited
    ensures QueueOk(m, closed, start, |queue[0]|, queue[1..], visited)
    ensures Covered(queue[1..], visited, done + {Last(queue[0])})
  {
    var rest := queue[1..];
    assert forall i :: 0 <= i < |rest| ==> rest[i] == queue[i + 1];
    forall v | v in visited && v !in done + {Last(queue[0])}
      ensures exists i :: 0 <= i < |rest| && |rest[i]| > 0 && Last(rest[i]) == v
    {
      var i :| 0 <= i < |queue| && |queue[i]| > 0 && Last(queue[i]) == v;
      assert rest[i - 1] == queue[i];
    }
  }

  /** When the front of the queue reaches the next length, the queue moves to that level. */
  lemma QueueOkRebase(m: Maze, closed: bool, start: Pos, lo: int, q: seq<seq<Pos>>, vis: set<Pos>)
    requires q != [] && QueueOk(m, closed, start, lo, q, vis)
    ensures QueueOk(m, closed, start, |q[0]|, q, vis)
  {
  }

  /** After `cur`, the front of level `level`, is expanded, its moves all land
      in `visited`; once the queue's front has length level + 1, every cell
      within level - 1 moves has been expanded. */
  lemma LevelClosed(m: Maze, closed: bool, start: Pos, path: seq<Pos>, queue: seq<seq<Pos>>,
                    done: set<Pos>, visited: set<Pos>)
    requires GoodPath(m, closed, start, path)
    requires forall s :: 0 <= s < 4 && CanStep(m, closed, Last(path), Toward(path, s)) ==> Toward(path, s) in visited
    requires QueueOk(m, closed, start, |path|, queue, visited)
    requires Covered(queue, visited, done + {Last(path)})
    requires ClosedUnder(m, closed, done, visited)
    requires |path| >= 2 ==> forall v :: Reach(m, closed, start, v, |path| - 2) ==> v in done
    ensures ClosedUnder(m, closed, done + {Last(path)}, visited)
    ensures queue != [] && |queue[0]| == |path| + 1 ==>
      forall v :: Reach(m, closed, start, v, |path| - 1) ==> v in done + {Last(path)}
  {
    var cur := Last(path);
    forall w | CanStep(m, closed, cur, w) ensures w in visited {
      CanStepIsMove(m, closed, cur, w);
      var t :| 0 <= t < 4 && w == (cur.0 + Direction(t).0, cur.1 + Direction(t).1);
      assert w == Toward(path, t);
    }
    if queue != [] && |queue[0]| == |path| + 1 {
      forall v | Reach(m, closed, start, v, |path| - 1) ensures v in done + {cur} {
        if v != start && |path| >= 2 {
          var u :| CanStep(m, closed, u, v) && Reach(m, closed, start, u, |path| - 2);
          NearerIsNotQueued(m, closed, start, |path|, queue, visited, done + {cur}, v);
        }
      }
    }
  }

  /** A visited cell within lo - 1 moves of `start` cannot be the end of a
      queued path of length lo + 1, so it is no longer waiting in the queue. */
  lemma NearerIsNotQueued(m: Maze, closed: bool, start: Pos, lo: int, q: seq<seq<Pos>>,
                          vis: set<Pos>, ex: set<Pos>, v: Pos)
    requires lo >= 1 && q != [] && |q[0]| == lo + 1 && QueueOk(m, closed, start, lo, q, vis)
    requires Covered(q, vis, ex) && v in vis && Reach(m, closed, start, v, lo - 1)
    ensures v in ex
  {
    forall i | 0 <= i < |q| ensures Last(q[i]) != v {
      assert GoodPath(m, closed, start, q[i]) && |q[i]| == lo + 1;
    }
  }

  /** One turn of the main loop, after the front path has been expanded,
      re-establishes the main invariant with that path's last cell done. */
  lemma OuterStep(m: Maze, closed: bool, start: Pos, target: Pos, queue: seq<seq<Pos>>,
                  visited: set<Pos>, done: set<Pos>, queue': seq<seq<Pos>>, visited': set<Pos>)
    requires queue != [] && BfsInv(m, closed, start, target, queue, visited, done)
    requires GoodPath(m, closed, start, queue[0]) && Last(queue[0]) != target && Last(queue[0]) in visited
    requires FrontInv(m, closed, start, queue[0], done, queue[1..], visited, queue', visited', 4)
    ensures BfsInv(m, closed, start, target, queue', visited', done + {Last(queue[0])})
  {
    var path := queue[0];
    var done' := done + {Last(path)};
    LevelClosed(m, closed, start, path, queue', done, visited');
    assert start in visited' && done' <= visited' <= AllCells(m) && target !in done';
    if queue' != [] {
      QueueOkRebase(m, closed, start, |path|, queue', visited');
      if |queue'[0]| >= 2 {
        if |queue'[0]| == |path| {
          assert forall v :: Reach(m, closed, start, v, |path| - 2) ==> v in done;
        } else {
          assert |queue'[0]| == |path| + 1;
        }
      }
    }
  }

  /** A set that holds `start` and all moves out of whose cells stay in it
      holds every cell reachable from `start`. */
  lemma ReachClosure(m: Maze, closed: bool, start: Pos, target: Pos, visited: set<Pos>, done: set<Pos>)
    requires start in visited && visited <= done && target !in done
    requires ClosedUnder(m, closed, done, visited)
    ensures forall n: nat :: !Reach(m, closed, start, target, n)
  {
    forall n: nat ensures !Reach(m, closed, start, target, n) {
      if Reach(m, closed, start, target, n) {
        ReachStaysInClosedSet(m, closed, start, done, target, n);
      }
    }
  }

  /** There is nothing to gain by moving: the target is here or out of reach. */
  ghost predicate Stuck(m: Maze, closed: bool, start: Pos, target: Pos)
  {
    start == target || forall n: nat :: !Reach(m, closed, start, target, n)
  }

  /** What the search promises: it stays put exactly when the target is
      where it stands or cannot be reached; otherwise it makes a legal move
      after which the target is strictly nearer (the first cell of a
      shortest path). */
  ghost predicate NextStepOk(m: Maze, closed: bool, start: Pos, target: Pos, next: Pos)
  {
    (next == start <==> Stuck(m, closed, start, target)) &&
    (next != start ==>
      CanStep(m, closed, start, next) &&
      exists n: nat :: Reach(m, closed, next, target, n) && !Reach(m, closed, start, target, n))
  }

  /** `bfs_find_next_step`: the search keeps a queue of paths and a visited set.
      It answers `start` when there is nothing to do or no way to the target;
      otherwise the answer is a legal first move after which the target is
      strictly nearer, that is, the second cell of a shortest path. */
  method BfsFindNextStep(start: Pos, target: Pos, m: Maze, closed: bool) returns (next: Pos)
    requires Rectangular(m) && InBounds(m, start)
    ensures NextStepOk(m, closed, start, target, next)
  {
    if start == target { return start; }
    var queue: seq<seq<Pos>> := [[start]];
    var visited: set<Pos> := {start};
    ghost var done: set<Pos> := {};
    InAllCells(m, start);
    while queue != []
      invariant BfsInv(m, closed, start, target, queue, visited, done)
      decreases AllCells(m) - visited, |queue|
    {
      PopQueue(m, closed, start, queue, visited, done);
      var path := queue[0];
      var cur := path[|path| - 1];
      if cur == target {
        FoundNext(m, closed, start, target, queue, visited, done);
        return if |path| > 1 then path[1] else target;
      }
      var queue', visited' := ExpandFront(m, closed, start, path, queue[1..], visited, done);
      OuterStep(m, closed, start, target, queue, visited, done, queue', visited');
      queue, visited, done := queue', visited', done + {cur};
    }
    ReachClosure(m, closed, start, target, visited, done);
    return start;
  }

  /** The front path ends at the target: its second cell is the answer. */
  lemma FoundNext(m: Maze, closed: bool, start: Pos, target: Pos, queue: seq<seq<Pos>>,
                  visited: set<Pos>, done: set<Pos>)
    requires start != target && queue != [] && BfsInv(m, closed, start, target, queue, visited, done)
    requires GoodPath(m, closed, start, queue[0]) && Last(queue[0]) == target
    ensures |queue[0]| > 1 && NextStepOk(m, closed, start, target, queue[0][1])
  {
    var path := queue[0];
    ReachPrepend(m, closed, start, path[1], target, |path| - 2);
    assert Reach(m, closed, start, target, |path| - 1) && path[1] != start;
  }

  // ---------------------------------------------------------------------
  // The explorer

  /** The player character; its moves are decided by the game. */
  class Explorer {
    var x: int
    var y: int

    constructor (x: int, y: int)
      ensures this.x == x && this.y == y
    {
      this.x := x;
      this.y := y;
    }

    function Position(): Pos
      reads this
    {
      (x, y)
    }

    /** `move_xy`, and `move` with the animation left out. */
    method MoveXY(nx: int, ny: int)
      modifies this
      ensures x == nx && y == ny
    {
      x := nx;
      y := ny;
    }
  }

  // ---------------------------------------------------------------------
  // Greedy one-axis moves (move_Vertical, move_Horizontal, move_greedy)

  /** The state of an enemy that its moves read and change. */
  datatype Mover = Mover(x: int, y: int, stepCount: nat, attempt: nat)
  {
    function Position(): Pos
    {
      (x, y)
    }
  }

  /** Manhattan distance in doubled coordinates. */
  function Dist(a: Pos, b: Pos): nat
  {
    Abs(a.0 - b.0) + Abs(a.1 - b.1)
  }

  /** Two cells up or down, toward row tx. */
  function VerticalTarget(e: Mover, tx: int): Pos
  {
    (e.x + 2 * Sign(tx - e.x), e.y)
  }

  /** Two cells left or right, toward column ty. */
  function HorizontalTarget(e: Mover, ty: int): Pos
  {
    (e.x, e.y + 2 * Sign(ty - e.y))
  }

  /** `move_Vertical`: nothing once a step was taken this turn or when already
      on the target's row; otherwise one step toward it if it is legal, and
      a failed attempt if not. The enemy never leaves the grid. */
  function VerticalStep(m: Maze, closed: bool, e: Mover, tx: int): (r: Mover)
    requires Rectangular(m) && InBounds(m, e.Position())
    ensures InBounds(m, r.Position())
  {
    if e.stepCount >= 1 then e
    else if tx - e.x == 0 then e
    else
      var n := VerticalTarget(e, tx);
      if EligibleMove(m, closed, e.x, e.y, n.0, n.1) then e.(x := n.0, stepCount := e.stepCount + 1)
      else e.(attempt := e.attempt + 1)
  }

  /** `move_Horizontal`, the same along the row. */
  function HorizontalStep(m: Maze, closed: bool, e: Mover, ty: int): (r: Mover)
    requires Rectangular(m) && InBounds(m, e.Position())
    ensures InBounds(m, r.Position())
  {
    if e.stepCount >= 1 then e
    else if ty - e.y == 0 then e
    else
      var n := HorizontalTarget(e, ty);
      if EligibleMove(m, closed, e.x, e.y, n.0, n.1) then e.(y := n.1, stepCount := e.stepCount + 1)
      else e.(attempt := e.attempt + 1)
  }

  /** `move_greedy`: white enemies try the row first, red ones the column;
      the second axis is tried only when the first gave no step. */
  function GreedyStep(m: Maze, closed: bool, e: Mover, t: Pos, horizontalFirst: bool): Mover
    requires Rectangular(m) && InBounds(m, e.Position())
  {
    if horizontalFirst then
      if e.y != t.1 then
        var h := HorizontalStep(m, closed, e, t.1);
        if h.stepCount >= 1 then h else VerticalStep(m, closed, h, t.0)
      else VerticalStep(m, closed, e, t.0)
    else
      if e.x != t.0 then
        var v := VerticalStep(m, closed, e, t.0);
        if v.stepCount >= 1 then v else HorizontalStep(m, closed, v, t.1)
      else HorizontalStep(m, closed, e, t.1)
  }

  /** The axis an enemy of the given colour tries first, and its step. */
  predicate FirstNeeded(e: Mover, t: Pos, horizontalFirst: bool)
  {
    if horizontalFirst then e.y != t.1 else e.x != t.0
  }

  predicate SecondNeeded(e: Mover, t: Pos, horizontalFirst: bool)
  {
    if horizontalFirst then e.x != t.0 else e.y != t.1
  }

  function FirstTarget(e: Mover, t: Pos, horizontalFirst: bool): Pos
  {
    if horizontalFirst then HorizontalTarget(e, t.1) else VerticalTarget(e, t.0)
  }

  function SecondTarget(e: Mover, t: Pos, horizontalFirst: bool): Pos
  {
    if horizontalFirst then VerticalTarget(e, t.0) else HorizontalTarget(e, t.1)
  }

  /** A one-axis step, read through the chase graph: a step is taken exactly
      when the move toward the target is legal. */
  lemma VerticalStepIsCanStep(m: Maze, closed: bool, e: Mover, tx: int)
    requires Rectangular(m) && InBounds(m, e.Position()) && e.stepCount == 0 && e.x != tx
    ensures CanStep(m, closed, e.Position(), VerticalTarget(e, tx)) ==>
      VerticalStep(m, closed, e, tx) == e.(x := VerticalTarget(e, tx).0, stepCount := 1)
    ensures !CanStep(m, closed, e.Position(), VerticalTarget(e, tx)) ==>
      VerticalStep(m, closed, e, tx) == e.(attempt := e.attempt + 1)
  {
    EligibleIsCanStep(m, closed, e.Position(), VerticalTarget(e, tx));
  }

  lemma HorizontalStepIsCanStep(m: Maze, closed: bool, e: Mover, ty: int)
    requires Rectangular(m) && InBounds(m, e.Position()) && e.stepCount == 0 && e.y != ty
    ensures CanStep(m, closed, e.Position(), HorizontalTarget(e, ty)) ==>
      HorizontalStep(m, closed, e, ty) == e.(y := HorizontalTarget(e, ty).1, stepCount := 1)
    ensures !CanStep(m, closed, e.Position(), HorizontalTarget(e, ty)) ==>
      HorizontalStep(m, closed, e, ty) == e.(attempt := e.attempt + 1)
  {
    EligibleIsCanStep(m, closed, e.Position(), HorizontalTarget(e, ty));
  }

  /** A turn of `move_greedy` that starts with no step taken makes one legal
      move or none, and counts it. */
  lemma GreedyAtMostOneLegalStep(m: Maze, closed: bool, e: Mover, t: Pos, horizontalFirst: bool)
    requires Rectangular(m) && InBounds(m, e.Position()) && e.stepCount == 0
    ensures var r := GreedyStep(m, closed, e, t, horizontalFirst);
      (r.Position() == e.Position() || CanStep(m, closed, e.Position(), r.Position())) &&
      r.stepCount == (if r.Position() == e.Position() then 0 else 1)
  {
    GreedyCases(m, closed, e, t, horizontalFirst);
  }

  /** The greedy choice in full: the first axis wins when it needs a move and
      the move is legal; otherwise the second axis is tried; otherwise the
      enemy stays, having counted one failed attempt per blocked axis. */
  lemma GreedyCases(m: Maze, closed: bool, e: Mover, t: Pos, h: bool)
    requires Rectangular(m) && InBounds(m, e.Position()) && e.stepCount == 0
    ensures var r := GreedyStep(m, closed, e, t, h);
      var first := FirstNeeded(e, t, h) && CanStep(m, closed, e.Position(), FirstTarget(e, t, h));
      var second := SecondNeeded(e, t, h) && CanStep(m, closed, e.Position(), SecondTarget(e, t, h));
      var failed := (if FirstNeeded(e, t, h) && !first then 1 else 0);
      (first ==> r == Mover(FirstTarget(e, t, h).0, FirstTarget(e, t, h).1, 1, e.attempt)) &&
      (!first && second ==> r == Mover(SecondTarget(e, t, h).0, SecondTarget(e, t, h).1, 1, e.attempt + failed)) &&
      (!first && !second ==>
        r == Mover(e.x, e.y, 0, e.attempt + failed + (if SecondNeeded(e, t, h) then 1 else 0)))
  {
    var first := FirstNeeded(e, t, h) && CanStep(m, closed, e.Position(), FirstTarget(e, t, h));
    if h {
      if e.y != t.1 {
        HorizontalStepIsCanStep(m, closed, e, t.1);
        var e1 := HorizontalStep(m, closed, e, t.1);
        if !first && e.x != t.0 {
          VerticalStepIsCanStep(m, closed, e1, t.0);
        }
      } else if e.x != t.0 {
        VerticalStepIsCanStep(m, closed, e, t.0);
      }
    } else {
      if e.x != t.0 {
        VerticalStepIsCanStep(m, closed, e, t.0);
        var e1 := VerticalStep(m, closed, e, t.0);
        if !first && e.y != t.1 {
          HorizontalStepIsCanStep(m, closed, e1, t.1);
        }
      } else if e.y != t.1 {
        HorizontalStepIsCanStep(m, closed, e, t.1);
      }
    }
  }

  /** A double step toward an even, non-zero offset shortens it by two. */
  lemma TowardShortens(d: int)
    requires d != 0 && d % 2 == 0
    ensures Abs(d - 2 * Sign(d)) == Abs(d) - 2
  {
    if d < 0 {
      assert Sign(d) == -1;
    } else {
      assert Sign(d) == 1;
    }
  }

  /** With both ends on odd cells (even differences), a greedy step brings
      the enemy exactly two cells nearer to its target, and never farther. */
  lemma GreedyGetsCloser(m: Maze, closed: bool, e: Mover, t: Pos, h: bool)
    requires Rectangular(m) && InBounds(m, e.Position()) && e.stepCount == 0
    requires (t.0 - e.x) % 2 == 0 && (t.1 - e.y) % 2 == 0
    ensures var r := GreedyStep(m, closed, e, t, h);
      Dist(r.Position(), t) == (if r.Position() == e.Position() then Dist(e.Position(), t) else Dist(e.Position(), t) - 2)
  {
    GreedyCases(m, closed, e, t, h);
    var r := GreedyStep(m, closed, e, t, h);
    if r.Position() != e.Position() {
      if r.x != e.x {
        assert r.x == e.x + 2 * Sign(t.0 - e.x) && r.y == e.y;
        TowardShortens(t.0 - e.x);
        assert t.0 - r.x == (t.0 - e.x) - 2 * Sign(t.0 - e.x);
      } else {
        assert r.y == e.y + 2 * Sign(t.1 - e.y);
        TowardShortens(t.1 - e.y);
        assert t.1 - r.y == (t.1 - e.y) - 2 * Sign(t.1 - e.y);
      }
    }
  }

  // ---------------------------------------------------------------------
  // Hard mode: guarding the stairs (the difficulty-3 branch of ai_move)

  /** Row-major order on cells. */
  predicate Before(a: Pos, b: Pos)
  {
    a.0 < b.0 || (a.0 == b.0 && a.1 < b.1)
  }

  /** p holds the first stair tile met scanning rows top to bottom, each row
      left to right. */
  ghost predicate IsFirstStair(m: Maze, p: Pos)
  {
    Rectangular(m) && InBounds(m, p) && m[p.0][p.1] == STAIR &&
    forall q :: InBounds(m, q) && Before(q, p) ==> m[q.0][q.1] != STAIR
  }

  ghost predicate NoStair(m: Maze)
  {
    Rectangular(m) && forall q :: InBounds(m, q) ==> m[q.0][q.1] != STAIR
  }

  /** The first stair, when there is one, is unique. */
  lemma FirstStairUnique(m: Maze, p: Pos, q: Pos)
    requires IsFirstStair(m, p) && IsFirstStair(m, q)
    ensures p == q
  {
  }

  /** A grid with a stair tile has a first one. */
  lemma FirstStairExists(m: Maze) returns (s: Pos)
    requires Rectangular(m) && !NoStair(m)
    ensures IsFirstStair(m, s)
  {
    s := FirstStairFromRow(m, 0);
  }

  lemma {:induction false} FirstStairFromRow(m: Maze, r: int) returns (s: Pos)
    requires Rectangular(m) && 0 <= r <= |m|
    requires forall q :: InBounds(m, q) && q.0 < r ==> m[q.0][q.1] != STAIR
    requires exists q :: InBounds(m, q) && q.0 >= r && m[q.0][q.1] == STAIR
    ensures IsFirstStair(m, s)
    decreases |m| - r
  {
    if exists c :: 0 <= c < |m[0]| && m[r][c] == STAIR {
      s := FirstStairInRow(m, r, 0);
    } else {
      s := FirstStairFromRow(m, r + 1);
    }
  }

  lemma {:induction false} FirstStairInRow(m: Maze, r: int, c: int) returns (s: Pos)
    requires Rectangular(m) && 0 <= r < |m| && 0 <= c <= |m[0]|
    requires forall q :: InBounds(m, q) && Before(q, (r, c)) ==> m[q.0][q.1] != STAIR
    requires exists c' :: c <= c' < |m[0]| && m[r][c'] == STAIR
    ensures IsFirstStair(m, s)
    decreases |m[0]| - c
  {
    if m[r][c] == STAIR {
      s := (r, c);
    } else {
      s := FirstStairInRow(m, r, c + 1);
    }
  }

  /** The scan for the stair tile: finds the first one, or reports that there
      is none. */
  method FindFirstStair(m: Maze) returns (s: Option<Pos>)
    requires Rectangular(m)
    ensures s.Some? ==> IsFirstStair(m, s.value)
    ensures s.None? ==> NoStair(m)
  {
    s := None;
    var r := 0;
    while r < |m|
      invariant 0 <= r <= |m|
      invariant s.None?
      invariant forall q :: InBounds(m, q) && q.0 < r ==> m[q.0][q.1] != STAIR
    {
      var c := 0;
      while c < |m[0]|
        invariant 0 <= c <= |m[0]|
        invariant s.None?
        invariant forall q :: InBounds(m, q) && Before(q, (r, c)) ==> m[q.0][q.1] != STAIR
      {
        if m[r][c] == STAIR {
          s := Some((r, c));
          return;
        }
        c := c + 1;
      }
      r := r + 1;
    }
  }

  /** The four cells around the stair in the order they are tried: below,
      above, right, left. */
  const Sides: seq<Pos> := [(1, 0), (-1, 0), (0, 1), (0, -1)]

  function SideOf(s: Pos, k: int): Pos
    requires 0 <= k < 4
  {
    (s.0 + Sides[k].0, s.1 + Sides[k].1)
  }

  predicate OpenSide(m: Maze, p: Pos)
  {
    Rectangular(m) && InBounds(m, p) && m[p.0][p.1] != WALL
  }

  /** The first open side of s from the k-th on. */
  function FirstOpenSideFrom(m: Maze, s: Pos, k: nat): Option<Pos>
    requires k <= 4
    decreases 4 - k
  {
    if k == 4 then None
    else if OpenSide(m, SideOf(s, k)) then Some(SideOf(s, k))
    else FirstOpenSideFrom(m, s, k + 1)
  }

  /** The cell the hard enemy guards next to the stair at s. */
  function GuardCell(m: Maze, s: Pos): Option<Pos>
  {
    FirstOpenSideFrom(m, s, 0)
  }

  /** The guarded cell is the first open side in the fixed order, and there
      is none exactly when all four sides are walls or off the grid. */
  lemma {:induction false} FirstOpenSideIsFirst(m: Maze, s: Pos, k: nat)
    requires k <= 4
    ensures FirstOpenSideFrom(m, s, k).Some? ==>
      exists i :: k <= i < 4 && FirstOpenSideFrom(m, s, k).value == SideOf(s, i) &&
        OpenSide(m, SideOf(s, i)) && forall j :: k <= j < i ==> !OpenSide(m, SideOf(s, j))
    ensures FirstOpenSideFrom(m, s, k).None? <==> forall j :: k <= j < 4 ==> !OpenSide(m, SideOf(s, j))
    decreases 4 - k
  {
    if k < 4 && !OpenSide(m, SideOf(s, k)) {
      FirstOpenSideIsFirst(m, s, k + 1);
    }
  }

  /** The guard cell lies next to the stair. */
  lemma GuardCellIsAdjacent(m: Maze, s: Pos)
    requires GuardCell(m, s).Some?
    ensures OpenSide(m, GuardCell(m, s).value) && Dist(s, GuardCell(m, s).value) == 1
  {
    FirstOpenSideIsFirst(m, s, 0);
  }

  /** The loop over `neighbors` that picks the guarded cell. */
  method GuardTarget(m: Maze, s: Pos) returns (target: Option<Pos>)
    requires Rectangular(m)
    ensures target == GuardCell(m, s)
  {
    var k := 0;
    while k < 4
      invariant 0 <= k <= 4
      invariant FirstOpenSideFrom(m, s, k) == GuardCell(m, s)
    {
      var p := (s.0 + Sides[k].0, s.1 + Sides[k].1);
      if 0 <= p.0 < |m| && 0 <= p.1 < |m[0]| {
        if m[p.0][p.1] != WALL {
          return Some(p);
        }
      }
      k := k + 1;
    }
    return None;
  }

  /** The legal moves out of c among the first t search directions, in order. */
  function ValidUpTo(m: Maze, closed: bool, c: Pos, t: nat): seq<Pos>
    requires t <= 4
  {
    if t == 0 then []
    else
      var n := (c.0 + Direction(t - 1).0, c.1 + Direction(t - 1).1);
      ValidUpTo(m, closed, c, t - 1) + (if CanStep(m, closed, c, n) then [n] else [])
  }

  /** The patrol candidates: the legal moves in the search order. */
  function ValidMoveList(m: Maze, closed: bool, c: Pos): seq<Pos>
  {
    ValidUpTo(m, closed, c, 4)
  }

  /** The index of the search direction that leads from c to p, 4 for none. */
  function DirOf(c: Pos, p: Pos): int
  {
    if p == (c.0 - 2, c.1) then 0
    else if p == (c.0 + 2, c.1) then 1
    else if p == (c.0, c.1 - 2) then 2
    else if p == (c.0, c.1 + 2) then 3
    else 4
  }

  /** A cell is among the first t candidates exactly when it is a legal move
      in one of the first t directions. */
  lemma {:induction false} ValidUpToMember(m: Maze, closed: bool, c: Pos, t: nat, p: Pos)
    requires t <= 4
    ensures p in ValidUpTo(m, closed, c, t) <==> CanStep(m, closed, c, p) && DirOf(c, p) < t
  {
    if t > 0 {
      ValidUpToMember(m, closed, c, t - 1, p);
      var n := (c.0 + Direction(t - 1).0, c.1 + Direction(t - 1).1);
      assert DirOf(c, n) == t - 1;
    }
  }

  lemma {:induction false} ValidUpToLength(m: Maze, closed: bool, c: Pos, t: nat)
    requires t <= 4
    ensures |ValidUpTo(m, closed, c, t)| <= t
  {
    if t > 0 {
      ValidUpToLength(m, closed, c, t - 1);
    }
  }

  /** The patrol candidates are exactly the legal moves, at most four of them. */
  lemma ValidMovesAreLegal(m: Maze, closed: bool, c: Pos)
    ensures forall p :: p in ValidMoveList(m, closed, c) <==> CanStep(m, closed, c, p)
    ensures |ValidMoveList(m, closed, c)| <= 4
  {
    ValidUpToLength(m, closed, c, 4);
    forall p ensures p in ValidMoveList(m, closed, c) <==> CanStep(m, closed, c, p) {
      ValidUpToMember(m, closed, c, 4, p);
    }
  }

  /** The patrol loop: every direction whose move is eligible, in order. */
  method ValidMoves(m: Maze, closed: bool, x: int, y: int) returns (valid: seq<Pos>)
    requires Rectangular(m) && InBounds(m, (x, y))
    ensures valid == ValidMoveList(m, closed, (x, y))
  {
    valid := [];
    var t := 0;
    while t < 4
      invariant 0 <= t <= 4
      invariant valid == ValidUpTo(m, closed, (x, y), t)
    {
      var nx, ny := x + Direction(t).0, y + Direction(t).1;
      EligibleIsCanStep(m, closed, (x, y), (nx, ny));
      if EligibleMove(m, closed, x, y, nx, ny) {
        valid := valid + [(nx, ny)];
      }
      t := t + 1;
    }
  }

  /** What a hard enemy's turn does, for the stair layout of m: chase the
      explorer with the search when there is nothing to guard or the explorer
      is within six cells; otherwise head for the guarded cell, and once the
      search gives no step there, patrol to the legal move the draw picks. */
  ghost predicate HardMoveOk(m: Maze, closed: bool, e: Mover, explorer: Pos,
                             draws: seq<nat>, r: Mover, draws': seq<nat>)
  {
    var moved := r.Position() != e.Position();
    r.attempt == e.attempt && r.stepCount == e.stepCount + (if moved then 1 else 0) &&
    (NoStair(m) ==> ChaseOk(m, closed, e.Position(), explorer, draws, r.Position(), draws')) &&
    (forall s :: IsFirstStair(m, s) ==>
      if GuardCell(m, s).None? || Dist(e.Position(), explorer) <= 6 then
        ChaseOk(m, closed, e.Position(), explorer, draws, r.Position(), draws')
      else
        GuardOk(m, closed, e.Position(), GuardCell(m, s).value, draws, r.Position(), draws'))
  }

  /** How a hard turn is assembled: the first stair found (or none), the cell
      guarded for it, and the branch taken give `HardMoveOk`. */
  lemma HardMoveOkIntro(m: Maze, closed: bool, e: Mover, explorer: Pos, draws: seq<nat>,
                        r: Mover, draws': seq<nat>, stair: Option<Pos>, target: Option<Pos>)
    requires stair.Some? ==> IsFirstStair(m, stair.value)
    requires stair.None? ==> NoStair(m) && target.None?
    requires stair.Some? ==> target == GuardCell(m, stair.value)
    requires r.attempt == e.attempt
    requires r.stepCount == e.stepCount + (if r.Position() != e.Position() then 1 else 0)
    requires target.None? || Dist(e.Position(), explorer) <= 6 ==>
      ChaseOk(m, closed, e.Position(), explorer, draws, r.Position(), draws')
    requires target.Some? && Dist(e.Position(), explorer) > 6 ==>
      GuardOk(m, closed, e.Position(), target.value, draws, r.Position(), draws')
    ensures HardMoveOk(m, closed, e, explorer, draws, r, draws')
  {
    forall s | IsFirstStair(m, s)
      ensures if GuardCell(m, s).None? || Dist(e.Position(), explorer) <= 6 then
          ChaseOk(m, closed, e.Position(), explorer, draws, r.Position(), draws')
        else
          GuardOk(m, closed, e.Position(), GuardCell(m, s).value, draws, r.Position(), draws')
    {
      FirstStairUnique(m, s, stair.value);
    }
  }

  /** A chasing turn: the search's step toward the explorer; no draw is used. */
  ghost predicate ChaseOk(m: Maze, closed: bool, p: Pos, explorer: Pos, draws: seq<nat>, p': Pos, draws': seq<nat>)
  {
    NextStepOk(m, closed, p, explorer, p') && draws' == draws
  }

  /** A guarding turn toward cell g, then the patrol fallback. */
  ghost predicate GuardOk(m: Maze, closed: bool, p: Pos, g: Pos, draws: seq<nat>, p': Pos, draws': seq<nat>)
  {
    if !Stuck(m, closed, p, g) then NextStepOk(m, closed, p, g, p') && draws' == draws
    else
      var valid := ValidMoveList(m, closed, p);
      if valid == [] then p' == p && draws' == draws
      else
        p' == valid[if draws == [] then 0 else draws[0] % |valid|] &&
        draws' == (if draws == [] then [] else draws[1..])
  }

  // ---------------------------------------------------------------------
  // Enemies (enemy, mummy_white, mummy_red, scorpion_white, scorpion_red)

  /** A mummy or a scorpion. White ones move with `WhiteMove`, red ones with
      `RedMove`; scorpions behave exactly like mummies of their colour. */
  class Enemy {
    var x: int
    var y: int
    var stepCount: nat
    var attempt: nat
    var difficulty: int

    constructor (x: int, y: int, difficulty: int)
      ensures this.x == x && this.y == y && this.difficulty == difficulty
      ensures stepCount == 0 && attempt == 0
    {
      this.x := x;
      this.y := y;
      this.difficulty := difficulty;
      stepCount := 0;
      attempt := 0;
    }

    function Position(): Pos
      reads this
    {
      (x, y)
    }

    function State(): Mover
      reads this
    {
      Mover(x, y, stepCount, attempt)
    }

    method SetDifficulty(d: int)
      modifies this
      ensures difficulty == d && State() == old(State())
    {
      difficulty := d;
    }

    method MoveXY(nx: int, ny: int)
      modifies this
      ensures x == nx && y == ny && stepCount == old(stepCount) && attempt == old(attempt)
      ensures difficulty == old(difficulty)
    {
      x := nx;
      y := ny;
    }

    /** `move_Vertical`. */
    method MoveVertical(m: Maze, closed: bool, explorer: Explorer)
      requires Rectangular(m) && InBounds(m, Position())
      modifies this
      ensures State() == VerticalStep(m, closed, old(State()), explorer.x)
      ensures difficulty == old(difficulty)
    {
      if stepCount >= 1 { return; }
      var diff := explorer.x - x;
      if diff == 0 { return; }
      var newX := x + 2 * Sign(diff);
      var newY := y;
      if EligibleMove(m, closed, x, y, newX, newY) {
        MoveXY(newX, newY);
        stepCount := stepCount + 1;
      } else {
        attempt := attempt + 1;
      }
    }

    /** `move_Horizontal`. */
    method MoveHorizontal(m: Maze, closed: bool, explorer: Explorer)
      requires Rectangular(m) && InBounds(m, Position())
      modifies this
      ensures State() == HorizontalStep(m, closed, old(State()), explorer.y)
      ensures difficulty == old(difficulty)
    {
      if stepCount >= 1 { return; }
      var diff := explorer.y - y;
      if diff == 0 { return; }
      var newX := x;
      var newY := y + 2 * Sign(diff);
      if EligibleMove(m, closed, x, y, newX, newY) {
        MoveXY(newX, newY);
        stepCount := stepCount + 1;
      } else {
        attempt := attempt + 1;
      }
    }

    /** `move_greedy`. */
    method MoveGreedy(m: Maze, closed: bool, explorer: Explorer, horizontalFirst: bool)
      requires Rectangular(m) && InBounds(m, Position())
      modifies this
      ensures State() == GreedyStep(m, closed, old(State()), explorer.Position(), horizontalFirst)
      ensures difficulty == old(difficulty)
    {
      if horizontalFirst {
        if y != explorer.y {
          MoveHorizontal(m, closed, explorer);
          if stepCount >= 1 { return; }
        }
        MoveVertical(m, closed, explorer);
      } else {
        if x != explorer.x {
          MoveVertical(m, closed, explorer);
          if stepCount >= 1 { return; }
        }
        MoveHorizontal(m, closed, explorer);
      }
    }

    /** `move_smart_bfs`: one step of a shortest way to the explorer. */
    method MoveSmartBfs(m: Maze, closed: bool, explorer: Explorer)
      requires Rectangular(m) && InBounds(m, Position())
      modifies this
      ensures NextStepOk(m, closed, old(Position()), explorer.Position(), Position())
      ensures stepCount == old(stepCount) + (if Position() == old(Position()) then 0 else 1)
      ensures attempt == old(attempt) && difficulty == old(difficulty)
    {
      var next := BfsFindNextStep((x, y), (explorer.x, explorer.y), m, closed);
      if next != (x, y) {
        MoveXY(next.0, next.1);
        stepCount := stepCount + 1;
      }
    }

    /** `ai_move`: easy enemies move greedily, medium ones chase with the
        search, hard ones guard the stairs; any other difficulty stands still. */
    method AiMove(m: Maze, closed: bool, explorer: Explorer, horizontalFirst: bool, rng: Rng)
      requires Rectangular(m) && InBounds(m, Position())
      modifies this, rng
      ensures difficulty == old(difficulty)
      ensures difficulty == 1 ==>
        State() == GreedyStep(m, closed, old(State()), explorer.Position(), horizontalFirst) &&
        rng.draws == old(rng.draws)
      ensures difficulty == 2 ==>
        ChaseOk(m, closed, old(Position()), explorer.Position(), old(rng.draws), Position(), rng.draws) &&
        stepCount == old(stepCount) + (if Position() == old(Position()) then 0 else 1) &&
        attempt == old(attempt)
      ensures difficulty == 3 ==>
        HardMoveOk(m, closed, old(State()), explorer.Position(), old(rng.draws), State(), rng.draws)
      ensures difficulty !in {1, 2, 3} ==> State() == old(State()) && rng.draws == old(rng.draws)
    {
      if difficulty == 1 {
        MoveGreedy(m, closed, explorer, horizontalFirst);
      } else if difficulty == 2 {
        MoveSmartBfs(m, closed, explorer);
      } else if difficulty == 3 {
        HardMove(m, closed, explorer, rng);
      }
    }

    /** The difficulty-3 branch of `ai_move`. */
    method HardMove(m: Maze, closed: bool, explorer: Explorer, rng: Rng)
      requires Rectangular(m) && InBounds(m, Position())
      modifies this, rng
      ensures difficulty == old(difficulty)
      ensures HardMoveOk(m, closed, old(State()), explorer.Position(), old(rng.draws), State(), rng.draws)
    {
      ghost var e0, d0 := State(), rng.draws;
      var sPos := FindFirstStair(m);
      var targetPos: Option<Pos> := None;
      if sPos.Some? {
        targetPos := GuardTarget(m, sPos.value);
      }
      var distToPlayer := Abs(x - explorer.x) + Abs(y - explorer.y);
      if targetPos.None? || distToPlayer <= 6 {
        MoveSmartBfs(m, closed, explorer);
      } else {
        GuardStairs(m, closed, targetPos.value, rng);
      }
      HardMoveOkIntro(m, closed, e0, explorer.Position(), d0, State(), rng.draws, sPos, targetPos);
    }

    /** Heading for the guarded cell g; once the search gives no step, a
        patrol step to a legal move picked by the draw. */
    method GuardStairs(m: Maze, closed: bool, g: Pos, rng: Rng)
      requires Rectangular(m) && InBounds(m, Position())
      modifies this, rng
      ensures difficulty == old(difficulty) && attempt == old(attempt)
      ensures stepCount == old(stepCount) + (if Position() == old(Position()) then 0 else 1)
      ensures GuardOk(m, closed, old(Position()), g, old(rng.draws), Position(), rng.draws)
    {
      var here := (x, y);
      var nextPos := BfsFindNextStep(here, g, m, closed);
      if nextPos != here {
        MoveXY(nextPos.0, nextPos.1);
        stepCount := stepCount + 1;
      } else {
        var validMoves := ValidMoves(m, closed, x, y);
        if validMoves != [] {
          var k := rng.Below(|validMoves|);
          var choice := validMoves[k];
          ValidMovesAreLegal(m, closed, here);
          assert choice in validMoves && CanStep(m, closed, here, choice);
          MoveXY(choice.0, choice.1);
          stepCount := stepCount + 1;
        }
      }
    }

    /** `white_move` (also `scorpion_white`): nothing when the explorer is
        already caught; otherwise a fresh turn, horizontal axis first. */
    method WhiteMove(m: Maze, closed: bool, explorer: Explorer, rng: Rng)
      requires Rectangular(m) && InBounds(m, Position())
      modifies this, rng
      ensures difficulty == old(difficulty)
      ensures old(Position()) == explorer.Position() ==> State() == old(State()) && rng.draws == old(rng.draws)
      ensures old(Position()) != explorer.Position() ==> TurnOk(m, closed, old(State()), explorer.Position(), true,
        difficulty, old(rng.draws), State(), rng.draws)
      ensures Position() == old(Position()) || CanStep(m, closed, old(Position()), Position())
    {
      if SamePosition((x, y), (explorer.x, explorer.y)) { return; }
      ghost var e := State();
      ghost var draws := rng.draws;
      stepCount := 0;
      attempt := 0;
      AiMove(m, closed, explorer, true, rng);
      TurnIsAtMostOneLegalMove(m, closed, e, explorer.Position(), true, difficulty, draws, State(), rng.draws);
    }

    /** `red_move` (also `scorpion_red`): the same, vertical axis first. */
    method RedMove(m: Maze, closed: bool, explorer: Explorer, rng: Rng)
      requires Rectangular(m) && InBounds(m, Position())
      modifies this, rng
      ensures difficulty == old(difficulty)
      ensures old(Position()) == explorer.Position() ==> State() == old(State()) && rng.draws == old(rng.draws)
      ensures old(Position()) != explorer.Position() ==> TurnOk(m, closed, old(State()), explorer.Position(), false,
        difficulty, old(rng.draws), State(), rng.draws)
      ensures Position() == old(Position()) || CanStep(m, closed, old(Position()), Position())
    {
      if SamePosition((x, y), (explorer.x, explorer.y)) { return; }
      ghost var e := State();
      ghost var draws := rng.draws;
      stepCount := 0;
      attempt := 0;
      AiMove(m, closed, explorer, false, rng);
      TurnIsAtMostOneLegalMove(m, closed, e, explorer.Position(), false, difficulty, draws, State(), rng.draws);
    }
  }

  /** One enemy turn started afresh (step and attempt counters reset) from e. */
  ghost predicate TurnOk(m: Maze, closed: bool, e: Mover, explorer: Pos, horizontalFirst: bool,
                         difficulty: int, draws: seq<nat>, r: Mover, draws': seq<nat>)
    requires Rectangular(m) && InBounds(m, e.Position())
  {
    var e0 := e.(stepCount := 0, attempt := 0);
    if difficulty == 1 then
      r == GreedyStep(m, closed, e0, explorer, horizontalFirst) && draws' == draws
    else if difficulty == 2 then
      ChaseOk(m, closed, e.Position(), explorer, draws, r.Position(), draws') &&
      r.attempt == 0 && r.stepCount == (if r.Position() == e.Position() then 0 else 1)
    else if difficulty == 3 then
      HardMoveOk(m, closed, e0, explorer, draws, r, draws')
    else r == e0 && draws' == draws
  }

  /** Whatever an enemy's difficulty, a fresh turn is at most one legal move,
      so an enemy never crosses a wall, a closed gate or the edge of the grid. */
  lemma TurnIsAtMostOneLegalMove(m: Maze, closed: bool, e: Mover, explorer: Pos, h: bool,
                                 difficulty: int, draws: seq<nat>, r: Mover, draws': seq<nat>)
    requires Rectangular(m) && InBounds(m, e.Position())
    requires TurnOk(m, closed, e, explorer, h, difficulty, draws, r, draws')
    ensures r.Position() == e.Position() || CanStep(m, closed, e.Position(), r.Position())
    ensures r.stepCount == (if r.Position() == e.Position() then 0 else 1)
  {
    var e0 := e.(stepCount := 0, attempt := 0);
    if difficulty == 1 {
      GreedyAtMostOneLegalStep(m, closed, e0, explorer, h);
    } else if difficulty == 3 {
      if r.Position() != e.Position() && !NoStair(m) {
        var s := FirstStairExists(m);
        if !(GuardCell(m, s).None? || Dist(e.Position(), explorer) <= 6) && Stuck(m, closed, e.Position(), GuardCell(m, s).value) {
          ValidMovesAreLegal(m, closed, e.Position());
        }
      }
    }
  }
}
