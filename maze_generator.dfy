/** The procedural level generator of maze_generator.py: a randomized
    depth-first backtracker carves a spanning tree of passages through a
    (2 size + 1)-square grid of walls, a density pass knocks out further
    walls, the exit goes at row 1, column 0, and the explorer and enemies are
    placed at a distance from the exit and from each other. */
module MazeGen {
  import opened Wrappers
  import opened Random
  import opened Sorting
  import opened Text
  import L = Levels

  /** A logical cell (r, c), 0 <= r, c < size; its room in the grid is (2r + 1, 2c + 1). */
  type Cell = (int, int)

  /** A position in the character grid. */
  type Pos = (int, int)

  type Grid = seq<seq<char>>

  const WALL: char := '%'
  const SPACE: char := ' '
  const EXIT: char := 'S'

  /** The order `generate` tries directions in: up, down, left, right. */
  const DIRECTIONS: seq<(int, int)> := [(-1, 0), (1, 0), (0, -1), (0, 1)]

  predicate IsCell(n: nat, v: Cell)
  {
    0 <= v.0 < n && 0 <= v.1 < n
  }

  function Step(v: Cell, d: (int, int)): Cell
  {
    (v.0 + d.0, v.1 + d.1)
  }

  function Room(v: Cell): Pos
  {
    (2 * v.0 + 1, 2 * v.1 + 1)
  }

  /** The grid cell between the rooms of cell v and its neighbour in direction d. */
  function Wall(v: Cell, d: (int, int)): Pos
  {
    (2 * v.0 + 1 + d.0, 2 * v.1 + 1 + d.1)
  }

  /** The side of the grid for a maze of n-by-n cells. */
  function Side(n: nat): nat
  {
    2 * n + 1
  }

  predicate IsRoom(n: nat, p: Pos)
  {
    0 < p.0 < 2 * n && 0 < p.1 < 2 * n && p.0 % 2 == 1 && p.1 % 2 == 1
  }

  /** A grid cell between two rooms: inside the border, exactly one coordinate even. */
  predicate IsConnector(n: nat, p: Pos)
  {
    0 < p.0 < 2 * n && 0 < p.1 < 2 * n && ((p.0 % 2 == 0) != (p.1 % 2 == 0))
  }

  predicate OnBorder(n: nat, p: Pos)
  {
    p.0 == 0 || p.1 == 0 || p.0 == 2 * n || p.1 == 2 * n
  }

  predicate Square(g: Grid, side: nat)
  {
    |g| == side && forall i :: 0 <= i < side ==> |g[i]| == side
  }

  /** The grid with cell p set to ch. */
  function SetCell(g: Grid, p: Pos, ch: char): (g': Grid)
    requires 0 <= p.0 < |g| && 0 <= p.1 < |g[p.0]|
    ensures |g'| == |g| && forall i :: 0 <= i < |g| ==> |g'[i]| == |g[i]|
    ensures forall i, j :: 0 <= i < |g| && 0 <= j < |g[i]| ==>
              g'[i][j] == if (i, j) == p then ch else g[i][j]
  {
    g[p.0 := g[p.0][p.1 := ch]]
  }

  /** Exactly the rooms and the cells of `open` are spaces; every other cell is a wall. */
  ghost predicate Shows(g: Grid, n: nat, open: set<Pos>)
  {
    Square(g, Side(n)) &&
    forall i, j :: 0 <= i < Side(n) && 0 <= j < Side(n) ==>
      g[i][j] == if IsRoom(n, (i, j)) || (i, j) in open then SPACE else WALL
  }
  // ---------------------------------------------------------------------
  // The set of cells and its size

  ghost function RowSet(r: int, cols: nat): set<Cell>
    decreases cols
  {
    if cols == 0 then {} else RowSet(r, cols - 1) + {(r, cols - 1)}
  }

  ghost function CellsBelow(rows: nat, cols: nat): set<Cell>
    decreases rows
  {
    if rows == 0 then {} else CellsBelow(rows - 1, cols) + RowSet(rows - 1, cols)
  }

  /** All n * n logical cells. */
  ghost function Cells(n: nat): set<Cell>
  {
    CellsBelow(n, n)
  }

  lemma {:induction false} RowSetMembers(r: int, cols: nat)
    ensures forall v :: v in RowSet(r, cols) <==> v.0 == r && 0 <= v.1 < cols
    decreases cols
  {
    if cols > 0 {
      RowSetMembers(r, cols - 1);
    }
  }

  lemma {:induction false} RowSetSize(r: int, cols: nat)
    ensures |RowSet(r, cols)| == cols
    decreases cols
  {
    if cols > 0 {
      RowSetSize(r, cols - 1);
      RowSetMembers(r, cols - 1);
      assert (r, cols - 1) !in RowSet(r, cols - 1);
    }
  }

  lemma {:induction false} CellsBelowMembers(rows: nat, cols: nat)
    ensures forall v :: v in CellsBelow(rows, cols) <==> 0 <= v.0 < rows && 0 <= v.1 < cols
    decreases rows
  {
    if rows > 0 {
      CellsBelowMembers(rows - 1, cols);
      RowSetMembers(rows - 1, cols);
    }
  }

  lemma LastRowApart(rows: nat, cols: nat)
    requires rows > 0
    ensures CellsBelow(rows - 1, cols) !! RowSet(rows - 1, cols)
  {
    CellsBelowMembers(rows - 1, cols);
    RowSetMembers(rows - 1, cols);
  }

  lemma {:induction false} CellsBelowSize(rows: nat, cols: nat)
    ensures |CellsBelow(rows, cols)| == rows * cols
    decreases rows
  {
    if rows > 0 {
      var a, b := CellsBelow(rows - 1, cols), RowSet(rows - 1, cols);
      CellsBelowSize(rows - 1, cols);
      RowSetSize(rows - 1, cols);
      LastRowApart(rows, cols);
      assert |a + b| == |a| + |b|;
      assert (rows - 1) * cols + cols == rows * cols;
    }
  }

  /** There are exactly n * n cells, and they are the cells inside the n-square. */
  lemma CellsFacts(n: nat)
    ensures |Cells(n)| == n * n
    ensures forall v :: v in Cells(n) <==> IsCell(n, v)
  {
    CellsBelowSize(n, n);
    CellsBelowMembers(n, n);
  }

  // ---------------------------------------------------------------------
  // Connectors and the cells they join

  /** The grid cell halfway between the rooms of two cells. */
  function Mid(a: Cell, b: Cell): Pos
  {
    (a.0 + b.0 + 1, a.1 + b.1 + 1)
  }

  predicate Adjacent(a: Cell, b: Cell)
  {
    (a.0 == b.0 && (a.1 - b.1 == 1 || b.1 - a.1 == 1)) ||
    (a.1 == b.1 && (a.0 - b.0 == 1 || b.0 - a.0 == 1))
  }

  /** The two cells a connector lies between: above and below it, or left and right. */
  function Ends(p: Pos): (Cell, Cell)
  {
    if p.0 % 2 == 0 then (((p.0 - 2) / 2, (p.1 - 1) / 2), (p.0 / 2, (p.1 - 1) / 2))
    else (((p.0 - 1) / 2, (p.1 - 2) / 2), ((p.0 - 1) / 2, p.1 / 2))
  }

  predicate IsDirection(d: (int, int))
  {
    d in DIRECTIONS
  }

  /** The wall between two neighbouring cells is a connector lying between exactly those two. */
  lemma WallJoins(n: nat, v: Cell, d: (int, int))
    requires IsCell(n, v) && IsDirection(d) && IsCell(n, Step(v, d))
    ensures Wall(v, d) == Mid(v, Step(v, d)) && Adjacent(v, Step(v, d))
    ensures IsConnector(n, Wall(v, d))
    ensures Ends(Wall(v, d)) == (v, Step(v, d)) || Ends(Wall(v, d)) == (Step(v, d), v)
  {
  }

  /** Neighbouring cells whose connector is open. */
  predicate Joined(tree: set<Pos>, a: Cell, b: Cell)
  {
    Adjacent(a, b) && Mid(a, b) in tree
  }

  /** A path of cells from cell (0, 0) to v, each step through an open connector of `tree`. */
  ghost predicate TreePath(tree: set<Pos>, path: seq<Cell>, v: Cell)
  {
    |path| > 0 && path[0] == (0, 0) && path[|path| - 1] == v &&
    forall k :: 0 <= k < |path| - 1 ==> Joined(tree, path[k], path[k + 1])
  }

  lemma ExtendTreePath(tree: set<Pos>, path: seq<Cell>, v: Cell, w: Cell)
    requires TreePath(tree, path, v) && Adjacent(v, w)
    ensures TreePath(tree + {Mid(v, w)}, path + [w], w)
  {
    var t := tree + {Mid(v, w)};
    var p := path + [w];
    forall k | 0 <= k < |p| - 1
      ensures Joined(t, p[k], p[k + 1])
    {
      if k < |path| - 1 {
        assert Joined(tree, path[k], path[k + 1]);
      }
    }
  }

  lemma TreePathGrows(tree: set<Pos>, more: set<Pos>, path: seq<Cell>, v: Cell)
    requires TreePath(tree, path, v)
    ensures TreePath(tree + more, path, v)
  {
    forall k | 0 <= k < |path| - 1
      ensures Joined(tree + more, path[k], path[k + 1])
    {
      assert Joined(tree, path[k], path[k + 1]);
    }
  }

  // ---------------------------------------------------------------------
  // Step 1: the rooms

  /** The grid __init__ builds: every cell a wall. */
  function AllWalls(side: nat): (g: Grid)
    ensures Square(g, side) && forall i, j :: 0 <= i < side && 0 <= j < side ==> g[i][j] == WALL
  {
    seq(side, _ => seq(side, _ => WALL))
  }

  /** The rooms of the cells before (r, c) in row-major order are open. */
  ghost predicate RoomsUpTo(g: Grid, n: nat, r: int, c: int)
  {
    Square(g, Side(n)) &&
    forall i, j :: 0 <= i < Side(n) && 0 <= j < Side(n) ==>
      g[i][j] == if IsRoom(n, (i, j)) && ((i - 1) / 2 < r || ((i - 1) / 2 == r && (j - 1) / 2 < c))
                 then SPACE else WALL
  }

  /** Step 1 of generate: open the room of every cell. */
  method OpenRooms(g0: Grid, n: nat) returns (g: Grid)
    requires Square(g0, Side(n)) && forall i, j :: 0 <= i < Side(n) && 0 <= j < Side(n) ==> g0[i][j] == WALL
    ensures Shows(g, n, {})
  {
    g := g0;
    for r := 0 to n
      invariant RoomsUpTo(g, n, r, 0)
    {
      for c := 0 to n
        invariant RoomsUpTo(g, n, r, c)
      {
        RoomOpened(g, n, r, c);
        g := SetCell(g, Room((r, c)), SPACE);
      }
      RowOpened(g, n, r);
    }
    RoomsOpened(g, n);
  }

  lemma RoomOpened(g: Grid, n: nat, r: nat, c: nat)
    requires RoomsUpTo(g, n, r, c) && r < n && c < n
    ensures RoomsUpTo(SetCell(g, Room((r, c)), SPACE), n, r, c + 1)
  {
    var g' := SetCell(g, Room((r, c)), SPACE);
    forall i, j | 0 <= i < Side(n) && 0 <= j < Side(n)
      ensures g'[i][j] == if IsRoom(n, (i, j)) && ((i - 1) / 2 < r || ((i - 1) / 2 == r && (j - 1) / 2 < c + 1))
                          then SPACE else WALL
    {
      assert g'[i][j] == if (i, j) == Room((r, c)) then SPACE else g[i][j];
      if IsRoom(n, (i, j)) && (i - 1) / 2 == r && (j - 1) / 2 == c {
        assert (i, j) == Room((r, c));
      } else {
        assert (i, j) != Room((r, c)) by {
          assert (2 * r + 1 - 1) / 2 == r && (2 * c + 1 - 1) / 2 == c;
        }
      }
    }
  }

  lemma RowOpened(g: Grid, n: nat, r: nat)
    requires RoomsUpTo(g, n, r, n)
    ensures RoomsUpTo(g, n, r + 1, 0)
  {
  }

  lemma RoomsOpened(g: Grid, n: nat)
    requires RoomsUpTo(g, n, n, 0)
    ensures Shows(g, n, {})
  {
  }

  // ---------------------------------------------------------------------
  // Step 2: the backtracker

  /** The unvisited in-range neighbours of v, in the order of ds, with their directions. */
  function UnvisitedOf(n: nat, v: Cell, visited: set<Cell>, ds: seq<(int, int)>): (nb: seq<(Cell, (int, int))>)
    ensures forall k :: 0 <= k < |nb| ==>
              nb[k].1 in ds && nb[k].0 == Step(v, nb[k].1) && IsCell(n, nb[k].0) && nb[k].0 !in visited
    ensures nb == [] <==> forall k :: 0 <= k < |ds| && IsCell(n, Step(v, ds[k])) ==> Step(v, ds[k]) in visited
  {
    if ds == [] then []
    else
      var rest := UnvisitedOf(n, v, visited, ds[1..]);
      var w := Step(v, ds[0]);
      assert forall k :: 1 <= k < |ds| ==> ds[k] == ds[1..][k - 1];
      if IsCell(n, w) && w !in visited then [(w, ds[0])] + rest else rest
  }

  /** The neighbour loop of generate. */
  method Neighbours(n: nat, v: Cell, visited: set<Cell>) returns (nb: seq<(Cell, (int, int))>)
    ensures nb == UnvisitedOf(n, v, visited, DIRECTIONS)
  {
    nb := [];
    for t := 0 to |DIRECTIONS|
      invariant nb + UnvisitedOf(n, v, visited, DIRECTIONS[t..]) == UnvisitedOf(n, v, visited, DIRECTIONS)
    {
      var d := DIRECTIONS[t];
      var w := Step(v, d);
      UnvisitedOfFrom(n, v, visited, DIRECTIONS, t);
      if 0 <= w.0 < n && 0 <= w.1 < n && w !in visited {
        AppendAssoc(nb, [(w, d)], UnvisitedOf(n, v, visited, DIRECTIONS[t + 1..]));
        nb := nb + [(w, d)];
      }
    }
    assert DIRECTIONS[|DIRECTIONS|..] == [];
  }

  lemma UnvisitedOfFrom(n: nat, v: Cell, visited: set<Cell>, ds: seq<(int, int)>, t: nat)
    requires t < |ds|
    ensures var w := Step(v, ds[t]);
            UnvisitedOf(n, v, visited, ds[t..]) ==
            (if IsCell(n, w) && w !in visited then [(w, ds[t])] else []) + UnvisitedOf(n, v, visited, ds[t + 1..])
  {
    assert ds[t..][1..] == ds[t + 1..];
  }

  /** Every in-range neighbour of v has been visited. */
  ghost predicate Finished(n: nat, v: Cell, visited: set<Cell>)
  {
    forall k :: 0 <= k < |DIRECTIONS| && IsCell(n, Step(v, DIRECTIONS[k])) ==> Step(v, DIRECTIONS[k]) in visited
  }

  ghost predicate StackOk(stack: seq<Cell>, visited: set<Cell>)
  {
    forall k :: 0 <= k < |stack| ==> stack[k] in visited
  }

  ghost predicate FinishedOff(n: nat, stack: seq<Cell>, visited: set<Cell>)
  {
    forall v :: v in visited && v !in stack ==> Finished(n, v, visited)
  }

  ghost predicate TreeOk(n: nat, visited: set<Cell>, tree: set<Pos>)
  {
    (forall p :: p in tree ==> IsConnector(n, p) && Ends(p).0 in visited && Ends(p).1 in visited) &&
    |tree| + 1 == |visited|
  }

  ghost predicate PathsOk(visited: set<Cell>, tree: set<Pos>, paths: map<Cell, seq<Cell>>)
  {
    forall v :: v in visited ==> v in paths && TreePath(tree, paths[v], v)
  }

  /** The state of the backtracker between iterations. */
  ghost predicate CarveInv(g: Grid, n: nat, stack: seq<Cell>, visited: set<Cell>, tree: set<Pos>,
                           paths: map<Cell, seq<Cell>>)
  {
    Shows(g, n, tree) && (0, 0) in visited && (forall v :: v in visited ==> IsCell(n, v)) &&
    StackOk(stack, visited) && FinishedOff(n, stack, visited) && TreeOk(n, visited, tree) &&
    PathsOk(visited, tree, paths)
  }

  lemma CarveStart(g: Grid, n: nat)
    requires n > 0 && Shows(g, n, {})
    ensures CarveInv(g, n, [(0, 0)], {(0, 0)}, {}, map[(0, 0) := [(0, 0)]])
  {
  }

  /** Opening one more wall cell. */
  lemma ShowsOpen(g: Grid, n: nat, open: set<Pos>, p: Pos)
    requires Shows(g, n, open) && 0 <= p.0 < Side(n) && 0 <= p.1 < Side(n)
    ensures Shows(SetCell(g, p, SPACE), n, open + {p})
  {
  }

  lemma FinishedOffMove(n: nat, stack: seq<Cell>, visited: set<Cell>, w: Cell)
    requires FinishedOff(n, stack, visited)
    ensures FinishedOff(n, stack + [w], visited + {w})
  {
    forall u | u in visited + {w} && u !in stack + [w]
      ensures Finished(n, u, visited + {w})
    {
      assert u in visited && u !in stack;
    }
  }

  lemma TreeOkMove(n: nat, visited: set<Cell>, tree: set<Pos>, v: Cell, d: (int, int))
    requires TreeOk(n, visited, tree) && v in visited && IsCell(n, v) && IsDirection(d)
    requires IsCell(n, Step(v, d)) && Step(v, d) !in visited
    ensures TreeOk(n, visited + {Step(v, d)}, tree + {Wall(v, d)})
  {
    WallJoins(n, v, d);
    assert Wall(v, d) !in tree;
  }

  lemma PathsOkMove(visited: set<Cell>, tree: set<Pos>, paths: map<Cell, seq<Cell>>, v: Cell, w: Cell)
    requires PathsOk(visited, tree, paths) && v in visited && Adjacent(v, w)
    ensures PathsOk(visited + {w}, tree + {Mid(v, w)}, paths[w := paths[v] + [w]])
  {
    var t := tree + {Mid(v, w)};
    var ps := paths[w := paths[v] + [w]];
    forall u | u in visited + {w}
      ensures u in ps && TreePath(t, ps[u], u)
    {
      if u == w {
        ExtendTreePath(tree, paths[v], v, w);
      } else {
        TreePathGrows(tree, {Mid(v, w)}, paths[u], u);
      }
    }
  }

  lemma CarveMoveGrid(g: Grid, n: nat, stack: seq<Cell>, visited: set<Cell>, tree: set<Pos>, d: (int, int))
    requires Shows(g, n, tree) && (forall v :: v in visited ==> IsCell(n, v)) && StackOk(stack, visited)
    requires stack != [] && IsDirection(d) && IsCell(n, Step(stack[|stack| - 1], d))
    ensures var v := stack[|stack| - 1];
            var w := Step(v, d);
            Shows(SetCell(g, Wall(v, d), SPACE), n, tree + {Wall(v, d)}) &&
            (forall u :: u in visited + {w} ==> IsCell(n, u)) && StackOk(stack + [w], visited + {w})
  {
    var v := stack[|stack| - 1];
    assert v in visited;
    WallJoins(n, v, d);
    ShowsOpen(g, n, tree, Wall(v, d));
  }

  lemma CarveMoveTree(n: nat, stack: seq<Cell>, visited: set<Cell>, tree: set<Pos>,
                      paths: map<Cell, seq<Cell>>, d: (int, int))
    requires FinishedOff(n, stack, visited) && TreeOk(n, visited, tree) && PathsOk(visited, tree, paths)
    requires StackOk(stack, visited) && (forall v :: v in visited ==> IsCell(n, v))
    requires stack != [] && IsDirection(d)
    requires IsCell(n, Step(stack[|stack| - 1], d)) && Step(stack[|stack| - 1], d) !in visited
    ensures var v := stack[|stack| - 1];
            var w := Step(v, d);
            FinishedOff(n, stack + [w], visited + {w}) && TreeOk(n, visited + {w}, tree + {Wall(v, d)}) &&
            PathsOk(visited + {w}, tree + {Wall(v, d)}, paths[w := paths[v] + [w]])
  {
    var v := stack[|stack| - 1];
    var w := Step(v, d);
    assert v in visited;
    WallJoins(n, v, d);
    FinishedOffMove(n, stack, visited, w);
    TreeOkMove(n, visited, tree, v, d);
    PathsOkMove(visited, tree, paths, v, w);
  }

  /** Knocking out the wall to an unvisited neighbour keeps the invariant. */
  lemma CarveMove(g: Grid, n: nat, stack: seq<Cell>, visited: set<Cell>, tree: set<Pos>,
                  paths: map<Cell, seq<Cell>>, d: (int, int))
    requires CarveInv(g, n, stack, visited, tree, paths) && stack != [] && IsDirection(d)
    requires IsCell(n, Step(stack[|stack| - 1], d)) && Step(stack[|stack| - 1], d) !in visited
    ensures var v := stack[|stack| - 1];
            var w := Step(v, d);
            CarveInv(SetCell(g, Wall(v, d), SPACE), n, stack + [w], visited + {w}, tree + {Wall(v, d)},
                     paths[w := paths[v] + [w]])
  {
    CarveMoveGrid(g, n, stack, visited, tree, d);
    CarveMoveTree(n, stack, visited, tree, paths, d);
  }

  /** Dropping a finished cell from the top keeps the invariant. */
  lemma CarvePop(g: Grid, n: nat, stack: seq<Cell>, visited: set<Cell>, tree: set<Pos>,
                 paths: map<Cell, seq<Cell>>)
    requires CarveInv(g, n, stack, visited, tree, paths) && stack != []
    requires Finished(n, stack[|stack| - 1], visited)
    ensures CarveInv(g, n, stack[..|stack| - 1], visited, tree, paths)
  {
    var s := stack[..|stack| - 1];
    assert stack == s + [stack[|stack| - 1]];
    forall u | u in visited && u !in s
      ensures Finished(n, u, visited)
    {
    }
  }

  /** When nothing is left to finish, every cell is visited. */
  lemma {:induction false} AllVisited(n: nat, visited: set<Cell>, v: Cell)
    requires (0, 0) in visited && forall u {:trigger Finished(n, u, visited)} :: u in visited ==> Finished(n, u, visited)
    requires IsCell(n, v)
    ensures v in visited
    decreases v.0 + v.1
  {
    if v.0 > 0 {
      var u := (v.0 - 1, v.1);
      AllVisited(n, visited, u);
      FinishedStep(n, u, visited, 1);
    } else if v.1 > 0 {
      var u := (v.0, v.1 - 1);
      AllVisited(n, visited, u);
      FinishedStep(n, u, visited, 3);
    }
  }

  lemma FinishedStep(n: nat, u: Cell, visited: set<Cell>, k: nat)
    requires Finished(n, u, visited) && k < |DIRECTIONS| && IsCell(n, Step(u, DIRECTIONS[k]))
    ensures Step(u, DIRECTIONS[k]) in visited
  {
  }

  /** One turn of the backtracker. */
  method CarveTurn(g0: Grid, n: nat, rng: Rng, stack0: seq<Cell>, visited0: set<Cell>,
                   ghost tree0: set<Pos>, ghost paths0: map<Cell, seq<Cell>>)
      returns (g: Grid, stack: seq<Cell>, visited: set<Cell>, ghost tree: set<Pos>, ghost paths: map<Cell, seq<Cell>>)
    requires CarveInv(g0, n, stack0, visited0, tree0, paths0) && stack0 != []
    modifies rng
    ensures CarveInv(g, n, stack, visited, tree, paths)
    ensures visited0 <= visited
    ensures visited0 < visited || (visited == visited0 && |stack| < |stack0|)
  {
    var current := stack0[|stack0| - 1];
    var nb := Neighbours(n, current, visited0);
    if nb != [] {
      var k := rng.Below(|nb|);
      var (next, d) := nb[k];
      CarveMove(g0, n, stack0, visited0, tree0, paths0, d);
      g := SetCell(g0, Wall(current, d), SPACE);
      visited := visited0 + {next};
      stack := stack0 + [next];
      tree := tree0 + {Wall(current, d)};
      paths := paths0[next := paths0[current] + [next]];
    } else {
      CarvePop(g0, n, stack0, visited0, tree0, paths0);
      g, stack, visited, tree, paths := g0, stack0[..|stack0| - 1], visited0, tree0, paths0;
    }
  }

  /** The backtracker: from cell (0, 0), repeatedly move to a random unvisited
      neighbour of the top of the stack, knocking out the wall between, or pop.
      It ends with every cell visited and exactly n * n - 1 connectors open,
      joining every cell to (0, 0): a spanning tree of the cells. */
  method Carve(g0: Grid, n: nat, rng: Rng) returns (g: Grid, ghost tree: set<Pos>, ghost paths: map<Cell, seq<Cell>>)
    requires n > 0 && Shows(g0, n, {})
    modifies rng
    ensures Shows(g, n, tree)
    ensures forall p :: p in tree ==> IsConnector(n, p)
    ensures |tree| == n * n - 1
    ensures forall v :: IsCell(n, v) ==> v in paths && TreePath(tree, paths[v], v)
  {
    g := g0;
    var visited: set<Cell> := {(0, 0)};
    var stack: seq<Cell> := [(0, 0)];
    tree, paths := {}, map[(0, 0) := [(0, 0)]];
    CarveStart(g, n);
    CellsFacts(n);
    while stack != []
      invariant CarveInv(g, n, stack, visited, tree, paths)
      decreases Cells(n) - visited, |stack|
    {
      g, stack, visited, tree, paths := CarveTurn(g, n, rng, stack, visited, tree, paths);
    }
    forall v | IsCell(n, v)
      ensures v in visited
    {
      AllVisited(n, visited, v);
    }
    assert visited == Cells(n);
  }

  // ---------------------------------------------------------------------
  // Row-major lists of positions

  /** (r, c0), ..., (r, c1 - 1). */
  function BlockRow(r: int, c0: int, c1: int): seq<Pos>
    decreases c1 - c0
  {
    if c1 <= c0 then [] else BlockRow(r, c0, c1 - 1) + [(r, c1 - 1)]
  }

  /** The positions with r0 <= r < r1 and c0 <= c < c1, row by row: the order
      of `for r in range(r0, r1): for c in range(c0, c1)`. */
  function Block(r0: int, r1: int, c0: int, c1: int): seq<Pos>
    decreases r1 - r0
  {
    if r1 <= r0 then [] else Block(r0, r1 - 1, c0, c1) + BlockRow(r1 - 1, c0, c1)
  }

  predicate Before(a: Pos, b: Pos)
  {
    a.0 < b.0 || (a.0 == b.0 && a.1 < b.1)
  }

  predicate RowMajor(s: seq<Pos>)
  {
    forall i, j :: 0 <= i < j < |s| ==> Before(s[i], s[j])
  }

  predicate Distinct(s: seq<Pos>)
  {
    forall i, j :: 0 <= i < j < |s| ==> s[i] != s[j]
  }

  lemma {:induction false} BlockRowFacts(r: int, c0: int, c1: int)
    ensures forall p :: p in BlockRow(r, c0, c1) <==> p.0 == r && c0 <= p.1 < c1
    ensures RowMajor(BlockRow(r, c0, c1))
    decreases c1 - c0
  {
    if c0 < c1 {
      BlockRowFacts(r, c0, c1 - 1);
      var s := BlockRow(r, c0, c1 - 1);
      assert forall k :: 0 <= k < |s| ==> s[k] in s;
    }
  }

  lemma RowMajorAppend(a: seq<Pos>, b: seq<Pos>)
    requires RowMajor(a) && RowMajor(b)
    requires forall i, j :: 0 <= i < |a| && 0 <= j < |b| ==> Before(a[i], b[j])
    ensures RowMajor(a + b)
  {
  }

  lemma {:induction false} BlockFacts(r0: int, r1: int, c0: int, c1: int)
    ensures forall p :: p in Block(r0, r1, c0, c1) <==> r0 <= p.0 < r1 && c0 <= p.1 < c1
    ensures RowMajor(Block(r0, r1, c0, c1))
    decreases r1 - r0
  {
    if r0 < r1 {
      BlockFacts(r0, r1 - 1, c0, c1);
      BlockRowFacts(r1 - 1, c0, c1);
      var a, b := Block(r0, r1 - 1, c0, c1), BlockRow(r1 - 1, c0, c1);
      assert forall i :: 0 <= i < |a| ==> a[i] in a;
      assert forall j :: 0 <= j < |b| ==> b[j] in b;
      RowMajorAppend(a, b);
    }
  }

  lemma RowMajorDistinct(s: seq<Pos>)
    requires RowMajor(s)
    ensures Distinct(s)
  {
    forall i, j | 0 <= i < j < |s|
      ensures s[i] != s[j]
    {
      assert Before(s[i], s[j]);
    }
  }

  lemma {:induction false} FilterRowMajor(s: seq<Pos>, f: Pos -> bool)
    requires RowMajor(s)
    ensures RowMajor(Filter(s, f))
    decreases |s|
  {
    if s != [] {
      FilterRowMajor(s[1..], f);
      var t := Filter(s[1..], f);
      forall k | 0 <= k < |t|
        ensures Before(s[0], t[k])
      {
        FilterMembers(s[1..], f, t[k]);
        var j :| 0 <= j < |s[1..]| && s[1..][j] == t[k];
        assert s[j + 1] == t[k];
      }
    }
  }

  // ---------------------------------------------------------------------
  // Step 3: the density pass

  /** A wall inside the border with a space on both sides, left and right or above and below. */
  predicate IsCandidate(g: Grid, p: Pos)
  {
    1 <= p.0 && p.0 + 1 < |g| && 1 <= p.1 && p.1 + 1 < |g[p.0]| &&
    p.1 < |g[p.0 - 1]| && p.1 < |g[p.0 + 1]| &&
    g[p.0][p.1] == WALL &&
    ((g[p.0][p.1 - 1] == SPACE && g[p.0][p.1 + 1] == SPACE) ||
     (g[p.0 - 1][p.1] == SPACE && g[p.0 + 1][p.1] == SPACE))
  }

  /** The walls the density pass may open, in scan order. */
  function Candidates(g: Grid): seq<Pos>
  {
    Filter(Block(1, |g| - 1, 1, |g| - 1), p => IsCandidate(g, p))
  }

  /** The candidates are exactly the interior walls between two spaces, each listed once. */
  lemma CandidatesFacts(g: Grid)
    ensures forall p :: p in Candidates(g) <==> IsCandidate(g, p) && p.0 < |g| - 1 && p.1 < |g| - 1
    ensures Distinct(Candidates(g))
  {
    var b := Block(1, |g| - 1, 1, |g| - 1);
    BlockFacts(1, |g| - 1, 1, |g| - 1);
    forall p
      ensures p in Candidates(g) <==> IsCandidate(g, p) && p.0 < |g| - 1 && p.1 < |g| - 1
    {
      FilterMembers(b, q => IsCandidate(g, q), p);
    }
    FilterRowMajor(b, q => IsCandidate(g, q));
    RowMajorDistinct(Candidates(g));
  }

  /** The scan of generate that collects the candidates. */
  method FindCandidates(g: Grid) returns (cands: seq<Pos>)
    requires |g| >= 2
    ensures cands == Candidates(g)
  {
    var f := p => IsCandidate(g, p);
    cands := [];
    for r := 1 to |g| - 1
      invariant cands == Filter(Block(1, r, 1, |g| - 1), f)
    {
      for c := 1 to |g| - 1
        invariant cands == Filter(Block(1, r, 1, |g| - 1), f) + Filter(BlockRow(r, 1, c), f)
      {
        FilterSnoc(BlockRow(r, 1, c), (r, c), f);
        if IsCandidate(g, (r, c)) {
          cands := cands + [(r, c)];
        }
      }
      FilterConcat(Block(1, r, 1, |g| - 1), BlockRow(r, 1, |g| - 1), f);
    }
  }

  /** How many candidates are extra: int(len * (1.0 - density / 100.0)), the
      fraction computed exactly; above 100 the count is negative and nothing opens. */
  function NumToOpen(count: nat, density: int): (k: nat)
    requires density >= 0
    ensures k <= count
    ensures density == 0 ==> k == count
    ensures density >= 100 ==> k == 0
  {
    if density >= 100 then 0 else (count * (100 - density)) / 100
  }

  lemma MulLessCancel(c: int, a: int, b: int)
    requires c > 0 && c * a < c * b
    ensures a < b
  {
  }

  lemma DivMonotone(x: int, y: int, c: int)
    requires 0 <= x <= y && c > 0
    ensures x / c <= y / c
  {
    var qx, qy := x / c, y / c;
    assert x == c * qx + x % c && y == c * qy + y % c;
    assert c * (qy + 1) == c * qy + c;
    assert c * qx < c * (qy + 1);
    MulLessCancel(c, qx, qy + 1);
  }

  lemma {:induction false} MulMonotone(a: nat, b: int, b2: int)
    requires b <= b2
    ensures a * b <= a * b2
  {
    if a > 0 {
      MulMonotone(a - 1, b, b2);
      assert a * b == (a - 1) * b + b && a * b2 == (a - 1) * b2 + b2;
    }
  }

  lemma ScaledMonotone(count: nat, a: int, b: int)
    requires 0 <= a <= b
    ensures (count * a) / 100 <= (count * b) / 100
  {
    MulMonotone(count, a, b);
    DivMonotone(count * a, count * b, 100);
  }

  /** A higher wall density never opens more walls. */
  lemma NumToOpenMonotone(count: nat, d1: int, d2: int)
    requires 0 <= d1 <= d2
    ensures NumToOpen(count, d2) <= NumToOpen(count, d1)
  {
    if d2 < 100 {
      ScaledMonotone(count, 100 - d2, 100 - d1);
    }
  }

  lemma SwapFacts(t: seq<Pos>, i: int, j: int)
    requires 0 <= i < |t| && 0 <= j < |t|
    ensures multiset(t[i := t[j]][j := t[i]]) == multiset(t)
    ensures Distinct(t) ==> Distinct(t[i := t[j]][j := t[i]])
  {
    var u := t[i := t[j]][j := t[i]];
    if Distinct(t) {
      forall a, b | 0 <= a < b < |u|
        ensures u[a] != u[b]
      {
        var a' := if a == i then j else if a == j then i else a;
        var b' := if b == i then j else if b == j then i else b;
        assert u[a] == t[a'] && u[b] == t[b'];
        if a' > b' {
          assert t[b'] != t[a'];
        }
      }
    }
  }

  /** Python's random.shuffle: for i from the last index down to 1, swap item i
      with a uniformly drawn item at or below it. */
  method Shuffle(s: seq<Pos>, rng: Rng) returns (t: seq<Pos>)
    modifies rng
    ensures |t| == |s| && multiset(t) == multiset(s)
    ensures Distinct(s) ==> Distinct(t)
  {
    t := s;
    var i := |s| - 1;
    while i >= 1
      invariant |t| == |s| && i < |s|
      invariant multiset(t) == multiset(s)
      invariant Distinct(s) ==> Distinct(t)
    {
      var j := rng.Below(i + 1);
      SwapFacts(t, i, j);
      t := t[i := t[j]][j := t[i]];
      i := i - 1;
    }
  }

  lemma FirstCellsStep(walls: seq<Pos>, i: nat)
    requires i < |walls| && Distinct(walls)
    ensures (set m | 0 <= m < i + 1 :: walls[m]) == (set m | 0 <= m < i :: walls[m]) + {walls[i]}
    ensures walls[i] !in (set m | 0 <= m < i :: walls[m])
  {
    var a, b := set m | 0 <= m < i + 1 :: walls[m], set m | 0 <= m < i :: walls[m];
    assert forall p :: p in a ==> p in b + {walls[i]};
    assert walls[i] !in b;
  }

  lemma OpenStep(g: Grid, n: nat, open0: set<Pos>, extra: set<Pos>, walls: seq<Pos>, i: nat)
    requires Shows(g, n, open0 + extra) && i < |walls| && Distinct(walls)
    requires extra == set m | 0 <= m < i :: walls[m]
    requires 0 < walls[i].0 < Side(n) - 1 && 0 < walls[i].1 < Side(n) - 1
    ensures Shows(SetCell(g, walls[i], SPACE), n, open0 + (extra + {walls[i]}))
    ensures extra + {walls[i]} == set m | 0 <= m < i + 1 :: walls[m]
    ensures |extra + {walls[i]}| == |extra| + 1
  {
    ShowsOpen(g, n, open0 + extra, walls[i]);
    FirstCellsStep(walls, i);
    assert open0 + extra + {walls[i]} == open0 + (extra + {walls[i]});
  }

  /** Opening the first k shuffled candidates. */
  method OpenFirst(g0: Grid, n: nat, ghost open0: set<Pos>, walls: seq<Pos>, k: nat)
      returns (g: Grid, ghost extra: set<Pos>)
    requires Shows(g0, n, open0) && k <= |walls| && Distinct(walls)
    requires forall i :: 0 <= i < |walls| ==> 0 < walls[i].0 < Side(n) - 1 && 0 < walls[i].1 < Side(n) - 1
    ensures Shows(g, n, open0 + extra)
    ensures extra == set i | 0 <= i < k :: walls[i]
    ensures |extra| == k
  {
    g, extra := g0, {};
    for i := 0 to k
      invariant Shows(g, n, open0 + extra)
      invariant extra == set m | 0 <= m < i :: walls[m]
      invariant |extra| == i
    {
      OpenStep(g, n, open0, extra, walls, i);
      g := SetCell(g, walls[i], SPACE);
      extra := extra + {walls[i]};
    }
  }

  // ---------------------------------------------------------------------
  // Step 4: the exit, and the finished layout

  /** The finished maze: the exit at row 1, column 0, spaces at the rooms and
      the cells of `open`, walls everywhere else. */
  ghost predicate Layout(g: Grid, n: nat, open: set<Pos>)
  {
    Square(g, Side(n)) &&
    forall i, j :: 0 <= i < Side(n) && 0 <= j < Side(n) ==>
      g[i][j] == if (i, j) == (1, 0) then EXIT
                 else if IsRoom(n, (i, j)) || (i, j) in open then SPACE else WALL
  }

  predicate Inside(n: nat, p: Pos)
  {
    0 < p.0 < 2 * n && 0 < p.1 < 2 * n
  }

  lemma ExitPlaced(g: Grid, n: nat, open: set<Pos>)
    requires n > 0 && Shows(g, n, open) && forall p :: p in open ==> Inside(n, p)
    ensures Layout(SetCell(g, (1, 0), EXIT), n, open)
  {
  }

  /** The outer ring stays wall except for the exit. */
  lemma BorderIntact(g: Grid, n: nat, open: set<Pos>, p: Pos)
    requires Layout(g, n, open) && forall q :: q in open ==> Inside(n, q)
    requires 0 <= p.0 < Side(n) && 0 <= p.1 < Side(n) && OnBorder(n, p) && p != (1, 0)
    ensures g[p.0][p.1] == WALL
  {
  }

  /** The shuffled candidates lie inside the border. */
  lemma ShuffledInside(carved: Grid, n: nat, t: seq<Pos>)
    requires Square(carved, Side(n)) && multiset(t) == multiset(Candidates(carved))
    ensures forall i :: 0 <= i < |t| ==> 0 < t[i].0 < Side(n) - 1 && 0 < t[i].1 < Side(n) - 1
    ensures forall i :: 0 <= i < |t| ==> t[i] in Candidates(carved)
  {
    CandidatesFacts(carved);
    forall i | 0 <= i < |t|
      ensures t[i] in Candidates(carved)
    {
      assert t[i] in multiset(t);
    }
  }

  /** The opened candidates were walls of the carved maze, so none is a passage of the tree. */
  lemma ExtraApart(carved: Grid, n: nat, tree: set<Pos>, extra: set<Pos>)
    requires Shows(carved, n, tree) && forall p :: p in extra ==> p in Candidates(carved)
    ensures tree !! extra
    ensures forall p :: p in extra ==> Inside(n, p) && !IsRoom(n, p)
  {
    CandidatesFacts(carved);
    forall p | p in extra
      ensures p !in tree && Inside(n, p) && !IsRoom(n, p)
    {
      assert IsCandidate(carved, p);
    }
  }

  /** What the backtracker and the density pass leave: the carved maze shows
      the rooms and a spanning tree of passages joining every cell to (0, 0),
      and the extra openings are NumToOpen of its candidate walls. */
  ghost predicate Built(carved: Grid, n: nat, density: int, tree: set<Pos>,
                        paths: map<Cell, seq<Cell>>, extra: set<Pos>)
    requires density >= 0
  {
    Shows(carved, n, tree) &&
    (forall p :: p in tree ==> IsConnector(n, p)) &&
    |tree| == n * n - 1 &&
    (forall v :: IsCell(n, v) ==> v in paths && TreePath(tree, paths[v], v)) &&
    (forall p :: p in extra ==> p in Candidates(carved)) &&
    tree !! extra &&
    |extra| == NumToOpen(|Candidates(carved)|, density)
  }

  /** The body of generate on a grid of walls. */
  method Build(g0: Grid, n: nat, density: int, rng: Rng)
      returns (g: Grid, ghost carved: Grid, ghost tree: set<Pos>,
               ghost paths: map<Cell, seq<Cell>>, ghost extra: set<Pos>)
    requires n >= 1 && density >= 0 && g0 == AllWalls(Side(n))
    modifies rng
    ensures Layout(g, n, tree + extra)
    ensures Built(carved, n, density, tree, paths, extra)
  {
    g := OpenRooms(g0, n);
    g, tree, paths := Carve(g, n, rng);
    carved := g;
    var cands := FindCandidates(g);
    var k := NumToOpen(|cands|, density);
    CandidatesFacts(g);
    var t := Shuffle(cands, rng);
    ShuffledInside(carved, n, t);
    g, extra := OpenFirst(g, n, tree, t, k);
    ExtraApart(carved, n, tree, extra);
    ExitPlaced(g, n, tree + extra);
    g := SetCell(g, (1, 0), EXIT);
  }

  // ---------------------------------------------------------------------
  // Placing the agents

  datatype Kind = MW | MR | SW | SR

  /** An enemy of randomize_positions: its kind and its logical cell. */
  type Placement = (Kind, Cell)

  function Abs(x: int): nat
  {
    if x < 0 then -x else x
  }

  /** The Manhattan distance between two logical cells. */
  function Dist(a: Cell, b: Cell): nat
  {
    Abs(a.0 - b.0) + Abs(a.1 - b.1)
  }

  /** How far (at least) an enemy starts from the explorer. */
  const SAFE_DIST: nat := 3

  /** How many draws the enemy loop makes at most. */
  const MAX_ATTEMPTS: nat := 100

  /** all_cells: every logical cell, row by row. */
  function AllCells(n: nat): seq<Cell>
  {
    Block(0, n, 0, n)
  }

  lemma AllCellsFacts(n: nat)
    ensures forall v :: v in AllCells(n) <==> IsCell(n, v)
    ensures Distinct(AllCells(n))
  {
    BlockFacts(0, n, 0, n);
    RowMajorDistinct(AllCells(n));
  }

  /** A maze of size at least one has a cell, the exit's. */
  lemma OriginIsCell(n: nat)
    requires n >= 1
    ensures (0, 0) in AllCells(n)
  {
    AllCellsFacts(n);
  }

  /** Python's list.remove on a list without repeats drops exactly that item. */
  lemma {:induction false} RemoveDistinct(s: seq<Pos>, x: Pos)
    requires Distinct(s) && x in s
    ensures Distinct(RemoveFirst(s, x))
    ensures forall y :: y in RemoveFirst(s, x) <==> y in s && y != x
    decreases |s|
  {
    if s[0] != x {
      RemoveDistinct(s[1..], x);
      var t := RemoveFirst(s[1..], x);
      assert s[0] !in s[1..];
      forall k | 0 <= k < |t|
        ensures t[k] != s[0]
      {
        assert t[k] in t;
      }
    } else {
      assert s[0] !in s[1..];
    }
  }

  function Sum(w: seq<nat>): nat
  {
    if w == [] then 0 else Sum(w[..|w| - 1]) + w[|w| - 1]
  }

  /** itertools.accumulate: the running totals of the weights. */
  function Accumulate(w: seq<nat>): (cum: seq<nat>)
    ensures |cum| == |w|
  {
    seq(|w|, i requires 0 <= i < |w| => Sum(w[..i + 1]))
  }

  /** bisect.bisect(cum, x, i, hi): the first index at or past i, and below
      hi, whose entry exceeds x; hi when there is none. */
  function Bisect(cum: seq<nat>, x: int, i: nat, hi: nat): (k: nat)
    requires hi <= |cum|
    ensures i <= hi ==> i <= k <= hi
    decreases hi - i
  {
    if i >= hi || x < cum[i] then i else Bisect(cum, x, i + 1, hi)
  }

  /** random.choices(types, weights=weights, k=1)[0], with the random point of
      the total weight drawn as a whole number u below the total. */
  function Choose(types: seq<Kind>, weights: seq<nat>, u: int): Kind
    requires |types| == |weights| > 0
  {
    types[Bisect(Accumulate(weights), u, 0, |types| - 1)]
  }

  lemma {:induction false} SumPrefixMono(w: seq<nat>, a: nat, b: nat)
    requires a <= b <= |w|
    ensures Sum(w[..a]) <= Sum(w[..b])
    decreases b - a
  {
    if a < b {
      SumPrefixMono(w, a, b - 1);
      assert w[..b][..b - 1] == w[..b - 1];
    }
  }

  lemma {:induction false} BisectFinds(cum: seq<nat>, x: int, i: nat, hi: nat, j: nat)
    requires i <= j <= hi <= |cum|
    requires forall m :: i <= m < j ==> cum[m] <= x
    requires j < hi ==> x < cum[j]
    ensures Bisect(cum, x, i, hi) == j
    decreases j - i
  {
    if i < j {
      BisectFinds(cum, x, i + 1, hi, j);
    }
  }

  /** Each type is chosen exactly for the draws in its window of the running
      totals, a window as wide as its weight. */
  lemma ChooseWindow(types: seq<Kind>, weights: seq<nat>, u: int, j: nat)
    requires |types| == |weights| > 0 && j < |weights|
    requires Sum(weights[..j]) <= u < Sum(weights[..j + 1])
    ensures Choose(types, weights, u) == types[j]
  {
    var cum := Accumulate(weights);
    forall m | 0 <= m < j
      ensures cum[m] <= u
    {
      SumPrefixMono(weights, m + 1, j);
    }
    BisectFinds(cum, u, 0, |types| - 1, j);
  }

  /** The total of the weights is the last running total. */
  lemma SumIsLastTotal(weights: seq<nat>)
    requires |weights| > 0
    ensures Accumulate(weights)[|weights| - 1] == Sum(weights)
  {
    assert weights[..|weights|] == weights;
  }

  const SINGLE_TYPES: seq<Kind> := [MW, MR]
  const SINGLE_WEIGHTS: seq<nat> := [70, 30]
  const MIXED_TYPES: seq<Kind> := [MW, MR, SW, SR]
  const MIXED_WEIGHTS: seq<nat> := [40, 30, 20, 10]

  /** The kind drawn for an enemy from a draw u below 100. */
  function KindOf(numEnemies: int, u: int): (k: Kind)
    ensures numEnemies == 1 ==> k == MW || k == MR
  {
    if numEnemies == 1 then Choose(SINGLE_TYPES, SINGLE_WEIGHTS, u) else Choose(MIXED_TYPES, MIXED_WEIGHTS, u)
  }

  /** The draws below 100 split by the weights: 70 white and 30 red mummies
      for a single enemy, else 40, 30, 20 and 10 for white and red mummies and
      white and red scorpions. */
  lemma KindShares(numEnemies: int, u: int)
    requires 0 <= u < 100
    ensures KindOf(numEnemies, u) ==
            if numEnemies == 1 then (if u < 70 then MW else MR)
            else if u < 40 then MW else if u < 70 then MR else if u < 90 then SW else SR
  {
    assert [70, 30][..0] == [] && [70, 30][..1] == [70] && [70, 30][..2] == [70, 30];
    var w := MIXED_WEIGHTS;
    assert w[..0] == [] && w[..1] == [40] && w[..2] == [40, 30] && w[..3] == [40, 30, 20] && w[..4] == w;
    assert [40][..0] == [] && [40, 30][..1] == [40] && [40, 30, 20][..2] == [40, 30] && w[..3] == [40, 30, 20];
    if numEnemies == 1 {
      ChooseWindow(SINGLE_TYPES, SINGLE_WEIGHTS, u, if u < 70 then 0 else 1);
    } else {
      ChooseWindow(MIXED_TYPES, MIXED_WEIGHTS, u, if u < 40 then 0 else if u < 70 then 1 else if u < 90 then 2 else 3);
    }
  }

  ghost predicate DistinctCells(es: seq<Placement>)
  {
    forall i, j :: 0 <= i < j < |es| ==> es[i].1 != es[j].1
  }

  /** What randomize_positions guarantees of the enemies it places around ex. */
  ghost predicate EnemiesOk(n: nat, numEnemies: nat, ex: Cell, es: seq<Placement>)
  {
    |es| <= numEnemies && |es| <= MAX_ATTEMPTS && DistinctCells(es) &&
    (forall k :: 0 <= k < |es| ==> IsCell(n, es[k].1) && Dist(es[k].1, ex) >= SAFE_DIST) &&
    (numEnemies == 1 ==> forall k :: 0 <= k < |es| ==> es[k].0 == MW || es[k].0 == MR)
  }

  /** What randomize_positions guarantees: the explorer more than half the
      side from the exit, and the enemies as above. */
  ghost predicate Placed(n: nat, exit: Cell, numEnemies: nat, ex: Cell, es: seq<Placement>)
  {
    IsCell(n, ex) && Dist(ex, exit) > n / 2 && EnemiesOk(n, numEnemies, ex, es)
  }

  /** The explorer loop: draw until the cell is far enough from the exit.
      The source loops until it succeeds; `fuel` bounds the draws. */
  function PickFrom(n: nat, exit: Cell, cells: seq<Cell>, draws: seq<nat>, fuel: nat): (r: (Option<Cell>, seq<nat>))
    requires cells != []
    ensures r.0.Some? ==> r.0.value in cells && Dist(r.0.value, exit) > n / 2
    decreases fuel
  {
    if fuel == 0 then (None, draws)
    else
      var (i, ds) := Take(draws, |cells|);
      if Dist(cells[i], exit) > n / 2 then (Some(cells[i]), ds) else PickFrom(n, exit, cells, ds, fuel - 1)
  }

  method PickExplorer(n: nat, exit: Cell, cells: seq<Cell>, rng: Rng, fuel: nat) returns (ex: Option<Cell>)
    requires cells != []
    modifies rng
    ensures (ex, rng.draws) == PickFrom(n, exit, cells, old(rng.draws), fuel)
    ensures ex.Some? ==> ex.value in cells && Dist(ex.value, exit) > n / 2
  {
    var left := fuel;
    while left > 0
      invariant PickFrom(n, exit, cells, rng.draws, left) == PickFrom(n, exit, cells, old(rng.draws), fuel)
      decreases left
    {
      left := left - 1;
      var i := rng.Below(|cells|);
      if Dist(cells[i], exit) > n / 2 {
        return Some(cells[i]);
      }
    }
    return None;
  }

  /** No cell left to draw is the explorer's or an enemy's. */
  ghost predicate FreeCells(n: nat, ex: Cell, cells: seq<Cell>, es: seq<Placement>)
  {
    Distinct(cells) &&
    (forall k :: 0 <= k < |cells| ==> IsCell(n, cells[k]) && cells[k] != ex) &&
    (forall k, m :: 0 <= k < |cells| && 0 <= m < |es| ==> cells[k] != es[m].1)
  }

  lemma TakeCell(n: nat, numEnemies: nat, ex: Cell, cells: seq<Cell>, es: seq<Placement>, i: nat, kind: Kind)
    requires FreeCells(n, ex, cells, es) && EnemiesOk(n, numEnemies, ex, es)
    requires i < |cells| && Dist(cells[i], ex) >= SAFE_DIST && |es| < numEnemies && |es| < MAX_ATTEMPTS
    requires numEnemies == 1 ==> kind == MW || kind == MR
    ensures FreeCells(n, ex, RemoveFirst(cells, cells[i]), es + [(kind, cells[i])])
    ensures EnemiesOk(n, numEnemies, ex, es + [(kind, cells[i])])
  {
    var e := cells[i];
    RemoveDistinct(cells, e);
    var r := RemoveFirst(cells, e);
    var es' := es + [(kind, e)];
    forall k | 0 <= k < |r|
      ensures IsCell(n, r[k]) && r[k] != ex
    {
      assert r[k] in r;
    }
    forall k, m | 0 <= k < |r| && 0 <= m < |es'|
      ensures r[k] != es'[m].1
    {
      assert r[k] in r;
      if m < |es| {
        var k' :| 0 <= k' < |cells| && cells[k'] == r[k];
        assert cells[k'] != es[m].1;
      }
    }
    forall a, b | 0 <= a < b < |es'|
      ensures es'[a].1 != es'[b].1
    {
      if b == |es| {
        assert cells[i] != es[a].1;
      }
    }
  }

  /** The cells the enemies stand on. */
  function Taken(es: seq<Placement>): set<Cell>
  {
    set k | 0 <= k < |es| :: es[k].1
  }

  /** Every cell of the maze is still free, the explorer's or an enemy's. */
  ghost predicate Covered(n: nat, ex: Cell, cells: seq<Cell>, es: seq<Placement>)
  {
    forall v :: IsCell(n, v) ==> v in cells || v == ex || v in Taken(es)
  }

  /** Where the enemy loop of randomize_positions stands: the enemies placed,
      the cells still free, the attempts made and the draws still to come. */
  datatype EnemyLoop = EnemyLoop(es: seq<Placement>, cells: seq<Cell>, attempts: nat, draws: seq<nat>)

  /** The enemy loop run to its end from st: each attempt draws a free cell
      and, when it is at least SAFE_DIST from the explorer, draws the kind
      and places the enemy there; the loop stops with numEnemies enemies,
      after MAX_ATTEMPTS attempts, or at an attempt that finds no free cell. */
  function PlaceFrom(numEnemies: nat, ex: Cell, st: EnemyLoop): EnemyLoop
    decreases MAX_ATTEMPTS - st.attempts
  {
    if |st.es| >= numEnemies || st.attempts >= MAX_ATTEMPTS then st
    else if st.cells == [] then st.(attempts := st.attempts + 1)
    else
      var (i, ds) := Take(st.draws, |st.cells|);
      var e := st.cells[i];
      if Dist(e, ex) >= SAFE_DIST then
        var (u, ds') := Take(ds, 100);
        PlaceFrom(numEnemies, ex, EnemyLoop(st.es + [(KindOf(numEnemies, u), e)], RemoveFirst(st.cells, e),
                                            st.attempts + 1, ds'))
      else
        PlaceFrom(numEnemies, ex, st.(attempts := st.attempts + 1, draws := ds))
  }

  lemma TakeCovers(n: nat, ex: Cell, cells: seq<Cell>, es: seq<Placement>, i: nat, kind: Kind)
    requires Covered(n, ex, cells, es) && i < |cells|
    ensures Covered(n, ex, RemoveFirst(cells, cells[i]), es + [(kind, cells[i])])
  {
    var e := cells[i];
    var es' := es + [(kind, e)];
    forall v | IsCell(n, v)
      ensures v in RemoveFirst(cells, e) || v == ex || v in Taken(es')
    {
      if v in cells && v != e {
        assert v in multiset(RemoveFirst(cells, e));
      } else if v in Taken(es) {
        var k :| 0 <= k < |es| && es[k].1 == v;
        assert es'[k].1 == v;
      } else if v == e {
        assert es'[|es|].1 == v;
      }
    }
  }

  /** The loop keeps what it found: the enemies placed so far stay, and
      what randomize_positions guarantees of them holds at the end. */
  lemma {:induction false} PlaceFromOk(n: nat, numEnemies: nat, ex: Cell, st: EnemyLoop)
    requires FreeCells(n, ex, st.cells, st.es) && EnemiesOk(n, numEnemies, ex, st.es)
    requires Covered(n, ex, st.cells, st.es) && |st.es| <= st.attempts <= MAX_ATTEMPTS
    ensures var r := PlaceFrom(numEnemies, ex, st);
      FreeCells(n, ex, r.cells, r.es) && EnemiesOk(n, numEnemies, ex, r.es) &&
      Covered(n, ex, r.cells, r.es) && st.es <= r.es && |r.es| <= r.attempts <= MAX_ATTEMPTS
    decreases MAX_ATTEMPTS - st.attempts
  {
    if |st.es| >= numEnemies || st.attempts >= MAX_ATTEMPTS || st.cells == [] {
    } else {
      var (i, ds) := Take(st.draws, |st.cells|);
      var e := st.cells[i];
      if Dist(e, ex) >= SAFE_DIST {
        var (u, ds') := Take(ds, 100);
        var kind := KindOf(numEnemies, u);
        TakeCell(n, numEnemies, ex, st.cells, st.es, i, kind);
        TakeCovers(n, ex, st.cells, st.es, i, kind);
        var next := EnemyLoop(st.es + [(kind, e)], RemoveFirst(st.cells, e), st.attempts + 1, ds');
        assert PlaceFrom(numEnemies, ex, st) == PlaceFrom(numEnemies, ex, next);
        assert st.es <= next.es;
        PlaceFromOk(n, numEnemies, ex, next);
      } else {
        var next := st.(attempts := st.attempts + 1, draws := ds);
        assert PlaceFrom(numEnemies, ex, st) == PlaceFrom(numEnemies, ex, next);
        PlaceFromOk(n, numEnemies, ex, next);
      }
    }
  }

  /** The loop places fewer than numEnemies enemies only when it used all
      MAX_ATTEMPTS attempts or when no free cell was left to draw. */
  lemma {:induction false} PlaceFromStops(numEnemies: nat, ex: Cell, st: EnemyLoop)
    requires st.attempts <= MAX_ATTEMPTS
    ensures var r := PlaceFrom(numEnemies, ex, st);
      |r.es| < numEnemies ==> r.attempts == MAX_ATTEMPTS || r.cells == []
    decreases MAX_ATTEMPTS - st.attempts
  {
    if |st.es| >= numEnemies || st.attempts >= MAX_ATTEMPTS || st.cells == [] {
    } else {
      var (i, ds) := Take(st.draws, |st.cells|);
      var e := st.cells[i];
      if Dist(e, ex) >= SAFE_DIST {
        var (u, ds') := Take(ds, 100);
        PlaceFromStops(numEnemies, ex, EnemyLoop(st.es + [(KindOf(numEnemies, u), e)], RemoveFirst(st.cells, e),
                                                 st.attempts + 1, ds'));
      } else {
        PlaceFromStops(numEnemies, ex, st.(attempts := st.attempts + 1, draws := ds));
      }
    }
  }

  /** The enemy loop of randomize_positions: the enemies PlaceFrom places
      from no enemy, all of cells0 free and no attempt made. */
  method PlaceEnemies(n: nat, numEnemies: nat, ex: Cell, cells0: seq<Cell>, rng: Rng) returns (es: seq<Placement>)
    requires FreeCells(n, ex, cells0, [])
    modifies rng
    ensures var r := PlaceFrom(numEnemies, ex, EnemyLoop([], cells0, 0, old(rng.draws)));
      es == r.es && rng.draws == r.draws
    ensures EnemiesOk(n, numEnemies, ex, es)
  {
    ghost var target := PlaceFrom(numEnemies, ex, EnemyLoop([], cells0, 0, rng.draws));
    es := [];
    var cells := cells0;
    var attempts := 0;
    while |es| < numEnemies && attempts < MAX_ATTEMPTS
      invariant attempts <= MAX_ATTEMPTS && |es| <= attempts
      invariant FreeCells(n, ex, cells, es) && EnemiesOk(n, numEnemies, ex, es)
      invariant PlaceFrom(numEnemies, ex, EnemyLoop(es, cells, attempts, rng.draws)) == target
      decreases MAX_ATTEMPTS - attempts
    {
      attempts := attempts + 1;
      if cells == [] {
        break;
      }
      var i := rng.Below(|cells|);
      var e := cells[i];
      if Dist(e, ex) >= SAFE_DIST {
        var u := rng.Below(100);
        var kind := KindOf(numEnemies, u);
        TakeCell(n, numEnemies, ex, cells, es, i, kind);
        es := es + [(kind, e)];
        cells := RemoveFirst(cells, e);
      }
    }
  }

  /** randomize_positions for a maze of n-by-n cells with its exit at
      `exit`, run on the draws to come: the explorer loop (at most fuel
      draws) and then the enemy loop over the other cells. */
  function RandomizeOf(n: nat, exit: Cell, numEnemies: nat, draws: seq<nat>, fuel: nat): Option<(Cell, EnemyLoop)>
    requires n >= 1
  {
    OriginIsCell(n);
    var (ex, ds) := PickFrom(n, exit, AllCells(n), draws, fuel);
    if ex.None? then None
    else Some((ex.value, PlaceFrom(numEnemies, ex.value, EnemyLoop([], RemoveFirst(AllCells(n), ex.value), 0, ds))))
  }

  /** What randomize_positions promises: the placement is Placed, and it
      holds fewer than numEnemies enemies only when the enemy loop used all
      MAX_ATTEMPTS attempts or every cell is the explorer's or an enemy's. */
  lemma RandomizeOfOk(n: nat, exit: Cell, numEnemies: nat, draws: seq<nat>, fuel: nat)
    requires n >= 1
    ensures var r := RandomizeOf(n, exit, numEnemies, draws, fuel);
      r.Some? ==>
        Placed(n, exit, numEnemies, r.value.0, r.value.1.es) &&
        (|r.value.1.es| < numEnemies ==>
           r.value.1.attempts == MAX_ATTEMPTS || forall v :: IsCell(n, v) ==> v == r.value.0 || v in Taken(r.value.1.es))
  {
    var all := AllCells(n);
    AllCellsFacts(n);
    assert (0, 0) in all;
    var (ex, ds) := PickFrom(n, exit, all, draws, fuel);
    if ex.Some? {
      RemoveDistinct(all, ex.value);
      var free := RemoveFirst(all, ex.value);
      forall k | 0 <= k < |free|
        ensures IsCell(n, free[k]) && free[k] != ex.value
      {
        assert free[k] in free;
      }
      var st := EnemyLoop([], free, 0, ds);
      PlaceFromOk(n, numEnemies, ex.value, st);
      PlaceFromStops(numEnemies, ex.value, st);
    }
  }

  /** randomize_positions for a maze of n-by-n cells with its exit at `exit`:
      the explorer and enemies RandomizeOf places from the draws to come. */
  method Randomize(n: nat, exit: Cell, numEnemies: nat, rng: Rng, fuel: nat) returns (r: Option<(Cell, seq<Placement>)>)
    requires n >= 1
    modifies rng
    ensures var spec := RandomizeOf(n, exit, numEnemies, old(rng.draws), fuel);
      (r.Some? <==> spec.Some?) && (r.Some? ==> r.value == (spec.value.0, spec.value.1.es))
    ensures r.Some? ==> Placed(n, exit, numEnemies, r.value.0, r.value.1)
  {
    ghost var draws := rng.draws;
    var all := AllCells(n);
    AllCellsFacts(n);
    assert (0, 0) in all;
    var ex := PickExplorer(n, exit, all, rng, fuel);
    if ex.None? {
      return None;
    }
    RemoveDistinct(all, ex.value);
    var free := RemoveFirst(all, ex.value);
    forall k | 0 <= k < |free|
      ensures IsCell(n, free[k]) && free[k] != ex.value
    {
      assert free[k] in free;
    }
    var es := PlaceEnemies(n, numEnemies, ex.value, free, rng);
    RandomizeOfOk(n, exit, numEnemies, draws, fuel);
    return Some((ex.value, es));
  }

  // ---------------------------------------------------------------------
  // The level files

  function KindTag(k: Kind): string
  {
    match k
    case MW => "MW"
    case MR => "MR"
    case SW => "SW"
    case SR => "SR"
  }

  /** One line of the object file: the tag and the room's row and column. */
  function AgentLine(tag: string, v: Cell): string
  {
    tag + (" " + (IntToString(Room(v).0) + (" " + (IntToString(Room(v).1) + "\n"))))
  }

  /** The object file save_to_files writes: the explorer first, then the enemies in order. */
  function AgentLines(ex: Cell, es: seq<Placement>): seq<string>
  {
    [AgentLine("E", ex)] + seq(|es|, k requires 0 <= k < |es| => AgentLine(KindTag(es[k].0), es[k].1))
  }

  /** The maze file save_to_files writes: each row and a newline. */
  function MazeLines(g: Grid): seq<string>
  {
    seq(|g|, i requires 0 <= i < |g| => g[i] + "\n")
  }

  /** The rooms of the enemies of kind k, in placement order. */
  function RoomsOf(es: seq<Placement>, k: Kind): seq<Pos>
  {
    if es == [] then []
    else RoomsOf(es[..|es| - 1], k) + (if es[|es| - 1].0 == k then [Room(es[|es| - 1].1)] else [])
  }

  /** The objects a level's agents make once read back. */
  function Expected(ex: Cell, es: seq<Placement>): L.Objects
  {
    L.Objects(Room(ex), RoomsOf(es, MW), RoomsOf(es, MR), RoomsOf(es, SW), RoomsOf(es, SR))
  }

  lemma IntToStringNoSpace(i: int)
    ensures All(IntToString(i), NotSpace)
  {
    var s := NatToString(if i < 0 then -i else i);
    assert All(s, IsDigit);
  }

  /** The words of a saved agent line. */
  lemma SplitAgentLine(tag: string, x: string, y: string)
    requires |tag| > 0 && All(tag, NotSpace) && |x| > 0 && All(x, NotSpace) && |y| > 0 && All(y, NotSpace)
    ensures Split(tag + (" " + (x + (" " + (y + "\n"))))) == [tag, x, y]
  {
    var y3 := y + "\n";
    var s2 := " " + y3;
    var x3 := x + s2;
    var s1 := " " + x3;
    RunsAppend(tag, s1, NotSpace);
    RunsOfRun(tag, NotSpace);
    RunsSkip(" ", x3, NotSpace);
    RunsAppend(x, s2, NotSpace);
    RunsOfRun(x, NotSpace);
    RunsSkip(" ", y3, NotSpace);
    RunsAppend(y, "\n", NotSpace);
    RunsOfRun(y, NotSpace);
    RunsSkip("\n", [], NotSpace);
    assert "\n" + [] == "\n";
  }

  /** The objects after an agent with the given tag is read at the room of v. */
  function Record(o: L.Objects, tag: string, v: Cell): L.Objects
  {
    if tag == "E" then o.(explorer := Room(v))
    else if tag == "MW" then o.(mw := o.mw + [Room(v)])
    else if tag == "MR" then o.(mr := o.mr + [Room(v)])
    else if tag == "SW" then o.(sw := o.sw + [Room(v)])
    else o.(sr := o.sr + [Room(v)])
  }

  /** Reading one saved agent line places that agent at its room. */
  lemma ParseAgentLine(o: L.Objects, tag: string, v: Cell, n: nat)
    requires L.IsAgentTag(tag)
    ensures L.ParseLine(o, AgentLine(tag, v), n) == Success(Record(o, tag, v))
  {
    var x := Split(AgentLine(tag, v));
    assert x == [tag, IntToString(Room(v).0), IntToString(Room(v).1)] by {
      IntToStringNoSpace(Room(v).0);
      IntToStringNoSpace(Room(v).1);
      SplitAgentLine(tag, IntToString(Room(v).0), IntToString(Room(v).1));
    }
    assert L.Coords(x, n) == Success(Room(v)) by {
      ParseIntToString(Room(v).0);
      ParseIntToString(Room(v).1);
    }
  }

  lemma ExpectedSnoc(ex: Cell, es: seq<Placement>, e: Placement)
    ensures L.IsAgentTag(KindTag(e.0))
    ensures Record(Expected(ex, es), KindTag(e.0), e.1) == Expected(ex, es + [e])
  {
    assert (es + [e])[..|es|] == es;
  }

  /** The row loop of save_to_files. */
  method WriteMaze(g: Grid) returns (lines: seq<string>)
    ensures lines == MazeLines(g)
  {
    lines := [];
    for i := 0 to |g|
      invariant lines == MazeLines(g[..i])
    {
      assert g[..i + 1] == g[..i] + [g[i]];
      lines := lines + [g[i] + "\n"];
    }
    assert g[..|g|] == g;
  }

  /** The agent loop of save_to_files: the explorer first, then each enemy. */
  method WriteAgents(explorer: Cell, enemies: seq<Placement>) returns (lines: seq<string>)
    ensures lines == AgentLines(explorer, enemies)
  {
    lines := [AgentLine("E", explorer)];
    for k := 0 to |enemies|
      invariant lines == AgentLines(explorer, enemies[..k])
    {
      assert enemies[..k + 1] == enemies[..k] + [enemies[k]];
      AgentLinesSnoc(explorer, enemies[..k], enemies[k]);
      lines := lines + [AgentLine(KindTag(enemies[k].0), enemies[k].1)];
    }
    assert enemies[..|enemies|] == enemies;
  }

  lemma AgentLinesSnoc(ex: Cell, es: seq<Placement>, e: Placement)
    ensures AgentLines(ex, es + [e]) == AgentLines(ex, es) + [AgentLine(KindTag(e.0), e.1)]
  {
  }

  /** The saved object file reads back as the explorer's room and each
      enemy's room in the list of its kind, in placement order. */
  lemma {:induction false} AgentsRoundTrip(ex: Cell, es: seq<Placement>)
    ensures L.ObjectsOf(AgentLines(ex, es)) == Success(Expected(ex, es))
    decreases |es|
  {
    if es == [] {
      ExplorerLineRead(ex);
    } else {
      var p := es[..|es| - 1];
      var e := es[|es| - 1];
      assert es == p + [e];
      AgentsRoundTrip(ex, p);
      EnemyLineRead(ex, p, e);
    }
  }

  /** The file of an explorer alone reads back as its room and no enemies. */
  lemma ExplorerLineRead(ex: Cell)
    ensures L.ObjectsOf(AgentLines(ex, [])) == Success(Expected(ex, []))
  {
    var lines := AgentLines(ex, []);
    assert lines == [AgentLine("E", ex)];
    assert lines[..0] == [];
    ParseAgentLine(L.NO_OBJECTS, "E", ex, 0);
  }

  /** One more enemy line adds that enemy to the objects read back. */
  lemma EnemyLineRead(ex: Cell, p: seq<Placement>, e: Placement)
    requires L.ObjectsOf(AgentLines(ex, p)) == Success(Expected(ex, p))
    ensures L.ObjectsOf(AgentLines(ex, p + [e])) == Success(Expected(ex, p + [e]))
  {
    AgentLinesSnoc(ex, p, e);
    var lines := AgentLines(ex, p) + [AgentLine(KindTag(e.0), e.1)];
    assert lines[..|lines| - 1] == AgentLines(ex, p);
    assert L.ObjectsOf(lines) == L.ParseLine(Expected(ex, p), AgentLine(KindTag(e.0), e.1), |lines| - 1);
    ExpectedSnoc(ex, p, e);
    ParseAgentLine(Expected(ex, p), KindTag(e.0), e.1, |lines| - 1);
  }

  /** The saved maze file reads back as the grid, row for row. */
  lemma MazeRoundTrip(g: Grid)
    requires forall i, j :: 0 <= i < |g| && 0 <= j < |g[i]| ==> g[i][j] != '\n'
    ensures |MazeLines(g)| == |g|
    ensures forall i :: 0 <= i < |g| ==> L.RowOfLine(MazeLines(g)[i]) == g[i]
  {
    forall i | 0 <= i < |g|
      ensures L.RowOfLine(MazeLines(g)[i]) == g[i]
    {
      FilterConcat(g[i], "\n", L.NotNewline);
      FilterAll(g[i], L.NotNewline);
    }
  }

  /** A finished maze holds no newline. */
  lemma LayoutChars(g: Grid, n: nat, open: set<Pos>)
    requires Layout(g, n, open)
    ensures forall i, j :: 0 <= i < |g| && 0 <= j < |g[i]| ==> g[i][j] != '\n'
  {
  }

  lemma OnlyExitIsStair(g: Grid, n: nat, open: set<Pos>)
    requires n >= 1 && Layout(g, n, open)
    ensures forall p :: L.HoldsAt(g, p, 'S') <==> p == (1, 0)
  {
  }

  lemma NoSuchTile(g: Grid, n: nat, open: set<Pos>, c: char)
    requires Layout(g, n, open) && c != EXIT && c != SPACE && c != WALL
    ensures forall p :: !L.HoldsAt(g, p, c)
  {
  }

  /** The scan of a generated maze finds the exit at row 1, column 0, and no
      key, gate or trap. */
  lemma GeneratedScan(g: Grid, n: nat, open: set<Pos>)
    requires n >= 1 && Layout(g, n, open)
    ensures L.ScanOf(g) == L.Scan(Some((1, 0)), None, None, [])
  {
    OnlyExitIsStair(g, n, open);
    NoSuchTile(g, n, open, 'K');
    NoSuchTile(g, n, open, 'G');
    NoSuchTile(g, n, open, 'T');
    L.LastCellIsLast(g, 'S');
    L.LastCellIsLast(g, 'K');
    L.LastCellIsLast(g, 'G');
    assert L.HoldsAt(g, (1, 0), 'S');
    var stair := L.LastOf(L.CellsOf(g, 'S'));
    assert stair.Some? && L.HoldsAt(g, stair.value, 'S');
    var ts := L.CellsOf(g, 'T');
    if ts != [] {
      L.CellsOfExact(g, 'T', ts[0]);
      assert false;
    }
    assert stair == Some((1, 0));
  }

  // ---------------------------------------------------------------------
  // What a finished maze promises

  predicate SpaceAt(g: Grid, p: Pos)
  {
    0 <= p.0 < |g| && 0 <= p.1 < |g[p.0]| && g[p.0][p.1] == SPACE
  }

  /** A walk from cell (0, 0) to v, each step to a neighbouring cell through
      a space of g. */
  ghost predicate GridPath(g: Grid, path: seq<Cell>, v: Cell)
  {
    |path| > 0 && path[0] == (0, 0) && path[|path| - 1] == v &&
    forall k :: 0 <= k < |path| - 1 ==> Adjacent(path[k], path[k + 1]) && SpaceAt(g, Mid(path[k], path[k + 1]))
  }

  /** Every cell can be walked to from cell (0, 0), next to the exit. */
  ghost predicate Connected(g: Grid, n: nat)
  {
    forall v :: IsCell(n, v) ==> exists path :: GridPath(g, path, v)
  }

  /** The outer ring is wall but for the exit at row 1, column 0; every room
      is a space; every other cell is a space or a wall. */
  ghost predicate Shaped(g: Grid, n: nat)
  {
    Square(g, Side(n)) && n >= 1 && g[1][0] == EXIT &&
    (forall i, j :: 0 <= i < Side(n) && 0 <= j < Side(n) && IsRoom(n, (i, j)) ==> g[i][j] == SPACE) &&
    (forall i, j :: 0 <= i < Side(n) && 0 <= j < Side(n) && OnBorder(n, (i, j)) && (i, j) != (1, 0) ==> g[i][j] == WALL) &&
    (forall i, j :: 0 <= i < Side(n) && 0 <= j < Side(n) && (i, j) != (1, 0) ==> g[i][j] == SPACE || g[i][j] == WALL)
  }

  lemma TreePathIsWalk(g: Grid, n: nat, open: set<Pos>, tree: set<Pos>, path: seq<Cell>, v: Cell)
    requires Layout(g, n, open) && tree <= open && forall p :: p in tree ==> IsConnector(n, p)
    requires TreePath(tree, path, v)
    ensures GridPath(g, path, v)
  {
    forall k | 0 <= k < |path| - 1
      ensures Adjacent(path[k], path[k + 1]) && SpaceAt(g, Mid(path[k], path[k + 1]))
    {
      assert Joined(tree, path[k], path[k + 1]);
      assert IsConnector(n, Mid(path[k], path[k + 1]));
    }
  }

  /** A generated maze is shaped as above and connected. */
  lemma GeneratedMaze(g: Grid, n: nat, density: int, carved: Grid, tree: set<Pos>,
                      paths: map<Cell, seq<Cell>>, extra: set<Pos>)
    requires n >= 1 && density >= 0
    requires Layout(g, n, tree + extra) && Built(carved, n, density, tree, paths, extra)
    ensures Shaped(g, n) && Connected(g, n)
  {
    ExtraApart(carved, n, tree, extra);
    forall v | IsCell(n, v)
      ensures exists path :: GridPath(g, path, v)
    {
      TreePathIsWalk(g, n, tree + extra, tree, paths[v], v);
    }
    forall p | p in tree + extra
      ensures Inside(n, p)
    {
    }
  }

  // ---------------------------------------------------------------------
  // The generator

  class MazeGenerator {
    /** The number of logical cells along a side. */
    const size: nat
    /** The wall density in percent; the source keeps it as a fraction of 100. */
    const wallDensity: int
    var grid: Grid
    var exitLogicPos: Cell

    /** A (2 size + 1)-square of walls, the exit recorded at cell (0, 0). */
    constructor (size: nat, wallDensity: int)
      ensures this.size == size && this.wallDensity == wallDensity
      ensures grid == AllWalls(Side(size)) && exitLogicPos == (0, 0)
    {
      this.size := size;
      this.wallDensity := wallDensity;
      grid := AllWalls(Side(size));
      exitLogicPos := (0, 0);
    }

    /** Builds the maze: rooms, a spanning tree of passages from the
        backtracker, NumToOpen of the candidate walls opened on top, and the
        exit. The ghost results name the carved maze, its tree, a path to
        every cell through the tree, and the extra walls opened. */
    method Generate(rng: Rng) returns (ghost carved: Grid, ghost tree: set<Pos>,
                                       ghost paths: map<Cell, seq<Cell>>, ghost extra: set<Pos>)
      requires size >= 1 && wallDensity >= 0
      requires grid == AllWalls(Side(size))
      modifies this, rng
      ensures exitLogicPos == (0, 0)
      ensures Layout(grid, size, tree + extra)
      ensures Built(carved, size, wallDensity, tree, paths, extra)
    {
      var g;
      g, carved, tree, paths, extra := Build(grid, size, wallDensity, rng);
      grid := g;
      exitLogicPos := (0, 0);
    }

    /** randomize_positions: the explorer and up to numEnemies enemies. */
    method RandomizePositions(numEnemies: nat, rng: Rng, fuel: nat) returns (r: Option<(Cell, seq<Placement>)>)
      requires size >= 1
      modifies rng
      ensures var spec := RandomizeOf(size, exitLogicPos, numEnemies, old(rng.draws), fuel);
        (r.Some? <==> spec.Some?) && (r.Some? ==> r.value == (spec.value.0, spec.value.1.es))
      ensures r.Some? ==> Placed(size, exitLogicPos, numEnemies, r.value.0, r.value.1)
    {
      r := Randomize(size, exitLogicPos, numEnemies, rng, fuel);
    }

    /** save_to_files: the lines of the maze file and of the object file. */
    method SaveToFiles(explorer: Cell, enemies: seq<Placement>) returns (mazeFile: seq<string>, agentFile: seq<string>)
      ensures mazeFile == MazeLines(grid)
      ensures agentFile == AgentLines(explorer, enemies)
    {
      mazeFile := WriteMaze(grid);
      agentFile := WriteAgents(explorer, enemies);
    }
  }

  // ---------------------------------------------------------------------
  // create_valid_level

  /** One enemy on small mazes, two from size 8, three from size 10. */
  function EnemyCount(size: int): nat
  {
    if size >= 10 then 3 else if size >= 8 then 2 else 1
  }

  /** How many placements are tried on one maze before a new maze is built. */
  const TRIES_PER_MAZE: nat := 10

  const GENERATED_LEVEL: string := "custom_gen.txt"

  /** A level create_valid_level saves: the maze and agents, the lines of its
      two files and the file name it returns. */
  datatype SavedLevel = SavedLevel(name: string, grid: Grid, explorer: Cell, enemies: seq<Placement>,
                                   mazeFile: seq<string>, agentFile: seq<string>)

  /** What create_valid_level promises of the level it saves. */
  ghost predicate ValidLevel(lv: SavedLevel, size: nat, solvable: (Grid, Cell, seq<Placement>) -> bool)
  {
    lv.name == GENERATED_LEVEL &&
    Shaped(lv.grid, size) && Connected(lv.grid, size) &&
    Placed(size, (0, 0), EnemyCount(size), lv.explorer, lv.enemies) &&
    solvable(lv.grid, lv.explorer, lv.enemies) &&
    lv.mazeFile == MazeLines(lv.grid) && lv.agentFile == AgentLines(lv.explorer, lv.enemies)
  }

  /** The placement randomize_positions gives on the draws it starts from. */
  function PlacementOf(spec: Option<(Cell, EnemyLoop)>): Option<(Cell, seq<Placement>)>
  {
    if spec.None? then None else Some((spec.value.0, spec.value.1.es))
  }

  /** One placement create_valid_level tries: the number of the maze it is
      tried on, that maze, the draws randomize_positions starts from, and
      the placement it gives, None when the explorer's draws run out. */
  datatype Try = Try(maze: nat, grid: Grid, draws: seq<nat>, placed: Option<(Cell, seq<Placement>)>)

  /** A try on a generated maze whose placement is randomize_positions with
      the enemy count of the size. */
  ghost predicate TryOk(t: Try, size: nat, fuel: nat)
    requires size >= 1
  {
    Shaped(t.grid, size) && Connected(t.grid, size) &&
    t.placed == PlacementOf(RandomizeOf(size, (0, 0), EnemyCount(size), t.draws, fuel))
  }

  /** A try that placed the agents and found them unsolvable. */
  predicate Failed(t: Try, solvable: (Grid, Cell, seq<Placement>) -> bool)
  {
    t.placed.Some? && !solvable(t.grid, t.placed.value.0, t.placed.value.1)
  }

  /** The tries of create_valid_level in order: ten on each maze, a fresh
      maze after each ten, and each one a randomize_positions on its maze. */
  ghost predicate Tries(tried: seq<Try>, size: nat, fuel: nat)
    requires size >= 1
  {
    forall k :: 0 <= k < |tried| ==>
      TryOk(tried[k], size, fuel) && tried[k].maze == k / TRIES_PER_MAZE &&
      (k % TRIES_PER_MAZE != 0 ==> tried[k].grid == tried[k - 1].grid)
  }

  /** A try that placed the agents asked for the size's enemy count: they
      satisfy the placement rules, and fewer enemies than asked were placed
      only after all attempts were used or when every cell is the
      explorer's or taken. */
  lemma TryPlacement(t: Try, size: nat, fuel: nat)
    requires size >= 1 && TryOk(t, size, fuel) && t.placed.Some?
    ensures Placed(size, (0, 0), EnemyCount(size), t.placed.value.0, t.placed.value.1)
    ensures var spec := RandomizeOf(size, (0, 0), EnemyCount(size), t.draws, fuel);
      |t.placed.value.1| < EnemyCount(size) ==>
        spec.value.1.attempts == MAX_ATTEMPTS ||
        forall v :: IsCell(size, v) ==> v == t.placed.value.0 || v in Taken(t.placed.value.1)
  {
    RandomizeOfOk(size, (0, 0), EnemyCount(size), t.draws, fuel);
  }

  /** Tries all on maze `round`, whose grid is g. */
  ghost predicate OnMaze(tried: seq<Try>, size: nat, fuel: nat, round: nat, g: Grid)
    requires size >= 1
  {
    forall k :: 0 <= k < |tried| ==> TryOk(tried[k], size, fuel) && tried[k].maze == round && tried[k].grid == g
  }

  lemma OnMazeAppended(tried: seq<Try>, try: Try, size: nat, fuel: nat, round: nat, g: Grid)
    requires size >= 1 && OnMaze(tried, size, fuel, round, g)
    requires TryOk(try, size, fuel) && try.maze == round && try.grid == g
    ensures OnMaze(tried + [try], size, fuel, round, g)
  {
    var all := tried + [try];
    forall k | 0 <= k < |all|
      ensures TryOk(all[k], size, fuel) && all[k].maze == round && all[k].grid == g
    {
      if k < |tried| {
        assert all[k] == tried[k];
      }
    }
  }

  /** One try of create_valid_level: randomize_positions with the enemy
      count for the maze's size, recorded with the draws it starts from. */
  method TryOnce(gen: MazeGenerator, rng: Rng, fuel: nat, ghost round: nat)
    returns (placed: Option<(Cell, seq<Placement>)>, ghost try: Try)
    requires gen.size >= 1 && Shaped(gen.grid, gen.size) && Connected(gen.grid, gen.size) && gen.exitLogicPos == (0, 0)
    modifies rng
    ensures TryOk(try, gen.size, fuel) && try.maze == round && try.grid == gen.grid && try.placed == placed
    ensures placed.Some? ==> Placed(gen.size, (0, 0), EnemyCount(gen.size), placed.value.0, placed.value.1)
  {
    ghost var draws := rng.draws;
    placed := gen.RandomizePositions(EnemyCount(gen.size), rng, fuel);
    try := Try(round, gen.grid, draws, placed);
  }

  /** The end of a try of create_valid_level: a solvable placement is saved
      with the maze, an unsolvable one is dropped. */
  method SaveIfSolvable(gen: MazeGenerator, solvable: (Grid, Cell, seq<Placement>) -> bool,
                        ex: Cell, enemies: seq<Placement>) returns (r: Option<SavedLevel>)
    requires gen.size >= 1 && Shaped(gen.grid, gen.size) && Connected(gen.grid, gen.size)
    requires Placed(gen.size, (0, 0), EnemyCount(gen.size), ex, enemies)
    ensures r.Some? <==> solvable(gen.grid, ex, enemies)
    ensures r.Some? ==>
      ValidLevel(r.value, gen.size, solvable) &&
      r.value.explorer == ex && r.value.enemies == enemies && r.value.grid == gen.grid
  {
    if solvable(gen.grid, ex, enemies) {
      var mazeFile, agentFile := gen.SaveToFiles(ex, enemies);
      r := Some(SavedLevel(GENERATED_LEVEL, gen.grid, ex, enemies, mazeFile, agentFile));
    } else {
      r := None;
    }
  }

  /** The ten tries of create_valid_level on one generated maze, the
      `round`-th: placements until one is solvable, which is saved, or until
      the explorer's draws run out or ten placements failed. */
  method TryPlacements(gen: MazeGenerator, rng: Rng, solvable: (Grid, Cell, seq<Placement>) -> bool, fuel: nat,
                       ghost round: nat) returns (r: Option<SavedLevel>, outOfFuel: bool, ghost tried: seq<Try>)
    requires gen.size >= 1 && Shaped(gen.grid, gen.size) && Connected(gen.grid, gen.size) && gen.exitLogicPos == (0, 0)
    modifies rng
    ensures 1 <= |tried| <= TRIES_PER_MAZE
    ensures OnMaze(tried, gen.size, fuel, round, gen.grid)
    ensures forall k :: 0 <= k < |tried| - 1 ==> Failed(tried[k], solvable)
    ensures r.Some? ==>
      ValidLevel(r.value, gen.size, solvable) &&
      tried[|tried| - 1].placed == Some((r.value.explorer, r.value.enemies)) && r.value.grid == gen.grid
    ensures outOfFuel <==> tried[|tried| - 1].placed.None?
    ensures outOfFuel ==> r.None?
    ensures r.None? && !outOfFuel ==> |tried| == TRIES_PER_MAZE && Failed(tried[|tried| - 1], solvable)
  {
    tried := [];
    for t := 0 to TRIES_PER_MAZE
      invariant |tried| == t
      invariant OnMaze(tried, gen.size, fuel, round, gen.grid)
      invariant forall k :: 0 <= k < |tried| ==> Failed(tried[k], solvable)
    {
      var placed;
      ghost var try;
      placed, try := TryOnce(gen, rng, fuel, round);
      OnMazeAppended(tried, try, gen.size, fuel, round, gen.grid);
      tried := tried + [try];
      if placed.None? {
        return None, true, tried;
      }
      r := SaveIfSolvable(gen, solvable, placed.value.0, placed.value.1);
      if r.Some? {
        return r, false, tried;
      }
    }
    return None, false, tried;
  }

  /** The first two steps of a round of create_valid_level: a fresh
      generator whose maze is generated, perfect and connected. */
  method NewMaze(size: nat, density: int, rng: Rng) returns (gen: MazeGenerator)
    requires size >= 1 && density >= 0
    modifies rng
    ensures fresh(gen) && gen.size == size && gen.wallDensity == density
    ensures Shaped(gen.grid, size) && Connected(gen.grid, size) && gen.exitLogicPos == (0, 0)
  {
    gen := new MazeGenerator(size, density);
    ghost var carved, tree, paths, extra := gen.Generate(rng);
    GeneratedMaze(gen.grid, size, density, carved, tree, paths, extra);
  }

  /** create_valid_level: build mazes until one of ten placements on it is
      solvable, and save that level. `solvable` stands for is_solvable; the
      source retries forever, `rounds` bounds the mazes built and `fuel` the
      draws of each explorer loop. `tried` records every placement tried. */
  method CreateValidLevel(size: nat, density: int, rng: Rng, solvable: (Grid, Cell, seq<Placement>) -> bool,
                          rounds: nat, fuel: nat) returns (r: Option<SavedLevel>, ghost tried: seq<Try>)
    requires size >= 1 && density >= 0
    modifies rng
    ensures Tries(tried, size, fuel) && |tried| <= rounds * TRIES_PER_MAZE
    ensures forall k :: 0 <= k < |tried| - 1 ==> Failed(tried[k], solvable)
    ensures r.Some? ==>
      ValidLevel(r.value, size, solvable) && |tried| >= 1 &&
      tried[|tried| - 1].placed == Some((r.value.explorer, r.value.enemies)) && tried[|tried| - 1].grid == r.value.grid
    ensures r.None? ==>
      (|tried| >= 1 && tried[|tried| - 1].placed.None?) ||
      (|tried| == rounds * TRIES_PER_MAZE && forall k :: 0 <= k < |tried| ==> Failed(tried[k], solvable))
  {
    tried := [];
    var round := 0;
    while round < rounds
      invariant round <= rounds && |tried| == round * TRIES_PER_MAZE
      invariant Tries(tried, size, fuel)
      invariant forall k :: 0 <= k < |tried| ==> Failed(tried[k], solvable)
      decreases rounds - round
    {
      var gen := NewMaze(size, density, rng);
      var found, outOfFuel;
      ghost var more;
      found, outOfFuel, more := TryPlacements(gen, rng, solvable, fuel, round);
      ghost var before := tried;
      RoundAppended(before, more, size, fuel, round, gen.grid);
      tried := before + more;
      FailedAppended(before, more, solvable);
      assert (round + 1) * TRIES_PER_MAZE == round * TRIES_PER_MAZE + TRIES_PER_MAZE <= rounds * TRIES_PER_MAZE;
      if found.Some? || outOfFuel {
        return found, tried;
      }
      assert |more| == TRIES_PER_MAZE;
      round := round + 1;
    }
    return None, tried;
  }

  /** The tries on maze `round`, all on grid g, keep the tries in order. */
  lemma RoundAppended(tried: seq<Try>, more: seq<Try>, size: nat, fuel: nat, round: nat, g: Grid)
    requires size >= 1 && Tries(tried, size, fuel) && |tried| == round * TRIES_PER_MAZE
    requires 1 <= |more| <= TRIES_PER_MAZE
    requires OnMaze(more, size, fuel, round, g)
    ensures Tries(tried + more, size, fuel)
    ensures |tried + more| <= (round + 1) * TRIES_PER_MAZE
  {
    var all := tried + more;
    forall k | 0 <= k < |all|
      ensures TryOk(all[k], size, fuel) && all[k].maze == k / TRIES_PER_MAZE &&
              (k % TRIES_PER_MAZE != 0 ==> all[k].grid == all[k - 1].grid)
    {
      if k < |tried| {
        assert all[k] == tried[k];
        if k % TRIES_PER_MAZE != 0 {
          assert all[k - 1] == tried[k - 1];
        }
      } else {
        var j := k - |tried|;
        assert all[k] == more[j];
        assert k / TRIES_PER_MAZE == round && k % TRIES_PER_MAZE == j;
        if j != 0 {
          assert all[k - 1] == more[j - 1];
        }
      }
    }
  }

  /** Appending the tries of a maze whose tries all failed but the last one. */
  lemma FailedAppended(tried: seq<Try>, more: seq<Try>, solvable: (Grid, Cell, seq<Placement>) -> bool)
    requires forall k :: 0 <= k < |tried| ==> Failed(tried[k], solvable)
    requires |more| >= 1 && forall k :: 0 <= k < |more| - 1 ==> Failed(more[k], solvable)
    ensures var all := tried + more;
      (forall k :: 0 <= k < |all| - 1 ==> Failed(all[k], solvable)) &&
      all[|all| - 1] == more[|more| - 1] &&
      (Failed(more[|more| - 1], solvable) ==> forall k :: 0 <= k < |all| ==> Failed(all[k], solvable))
  {
    var all := tried + more;
    assert forall k :: 0 <= k < |tried| ==> all[k] == tried[k];
    assert forall k :: |tried| <= k < |all| ==> all[k] == more[k - |tried|];
  }
}
