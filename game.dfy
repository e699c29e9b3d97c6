/** One level in play (main.py): the round in which every enemy answers
    the explorer's move, the undo stack and the explorer's step. */
module Game {
  import opened Wrappers
  import opened Random
  import opened Characters
  import opened Rosters
  import opened Board

  class Game {
    const maze: Maze
    const key: Option<Pos>
    const traps: seq<Pos>
    const gate: Gate
    const explorer: Explorer
    const rng: Rng
    var lists: Lists
    /** Every enemy the level started with. */
    ghost const roster: set<Enemy>
    /** The undo stack. */
    var history: seq<Snapshot>

    ghost predicate Valid()
      reads this, explorer, lists.mw, lists.mr, lists.sw, lists.sr
    {
      Rectangular(maze) && |maze| % 2 == 1 && |maze[0]| % 2 == 1 &&
      ExplorerCell(maze, explorer.Position()) && ListsOk(maze, lists) && Among(lists, roster) &&
      (forall k :: 0 <= k < |history| ==> SnapshotOk(maze, history[k]))
    }

    /** `check_explorer_is_killed` on the current cells. */
    function Caught(): bool
      reads this`lists, explorer, lists.mw, lists.mr, lists.sw, lists.sr
    {
      ExplorerIsKilled(explorer.Position(), Positions(lists.mw), Positions(lists.mr), Positions(lists.sw), Positions(lists.sr), traps)
    }

    /** The cells some enemy stands on. */
    function Occupied(): set<Pos>
      reads this`lists, lists.mw, lists.mr, lists.sw, lists.sr
    {
      CellSet(Positions(lists.mw)) + CellSet(Positions(lists.mr)) + CellSet(Positions(lists.sw)) + CellSet(Positions(lists.sr))
    }

    /** The explorer is caught exactly when on a trap or on a cell some
        enemy stands on. */
    lemma CaughtIsOccupied()
      ensures Caught() <==> explorer.Position() in traps || explorer.Position() in Occupied()
    {
    }

    /** `capture_state`. */
    function Capture(): Snapshot
      reads this`lists, explorer, gate, lists.mw, lists.mr, lists.sw, lists.sr
    {
      Snapshot(explorer.Position(), gate.isClosed, Positions(lists.mw), Positions(lists.mr), Positions(lists.sw), Positions(lists.sr))
    }

    lemma CaptureOk()
      requires Valid()
      ensures SnapshotOk(maze, Capture())
    {
    }

    /** A game over objects already made: nothing is on the undo stack. */
    constructor (maze: Maze, key: Option<Pos>, traps: seq<Pos>, gate: Gate, explorer: Explorer, rng: Rng, lists: Lists)
      requires Rectangular(maze) && |maze| % 2 == 1 && |maze[0]| % 2 == 1
      requires ExplorerCell(maze, explorer.Position()) && ListsOk(maze, lists)
      ensures Valid() && history == []
      ensures this.maze == maze && this.key == key && this.traps == traps
      ensures this.gate == gate && this.explorer == explorer && this.rng == rng && this.lists == lists
    {
      this.maze := maze;
      this.key := key;
      this.traps := traps;
      this.gate := gate;
      this.explorer := explorer;
      this.rng := rng;
      this.lists := lists;
      roster := Members(lists);
      history := [];
    }

    /** `rungame` up to its loop: the level's enemies, each given the
        difficulty, standing where the layout puts them, or where a save of
        the same level left them; the explorer and the gate flag likewise;
        the gate record is drawn at its cell, or off the board when the
        level has none. */
    static method Start(maze: Maze, key: Option<Pos>, traps: seq<Pos>, gatePosition: Option<Pos>,
                        layoutStart: Pos, mwCells: seq<Pos>, mrCells: seq<Pos>, swCells: seq<Pos>, srCells: seq<Pos>,
                        difficulty: int, draws: seq<nat>, saved: Option<Snapshot>)
      returns (game: Game)
      requires Rectangular(maze) && |maze| % 2 == 1 && |maze[0]| % 2 == 1 && ExplorerCell(maze, layoutStart)
      requires AllInBounds(maze, mwCells) && AllInBounds(maze, mrCells)
      requires AllInBounds(maze, swCells) && AllInBounds(maze, srCells)
      requires saved.Some? ==> SnapshotOk(maze, saved.value)
      ensures fresh(game) && game.Valid() && game.history == [] && game.rng.draws == draws
      ensures game.maze == maze && game.key == key && game.traps == traps
      ensures game.gate.position == (if gatePosition.Some? then gatePosition.value else (-100, -100))
      ensures game.gate.cellIndex == (if saved.Some? && !saved.value.gateClosed then -1 else 0)
      ensures HaveDifficulty(game.lists.mw, difficulty) && HaveDifficulty(game.lists.mr, difficulty)
      ensures HaveDifficulty(game.lists.sw, difficulty) && HaveDifficulty(game.lists.sr, difficulty)
      ensures game.Capture() == InitialSnapshot(layoutStart, gatePosition, mwCells, mrCells, swCells, srCells, saved)
    {
      var start := if saved.Some? then saved.value.explorer else layoutStart;
      var closed := if saved.Some? then saved.value.gateClosed else gatePosition.Some?;
      var frame := if saved.Some? && !closed then -1 else 0;
      var g := if gatePosition.Some? then gatePosition.value else (-100, -100);
      var gate, explorer, rng := MakeParts(g, closed, frame, start, draws);
      var mwUse := UsePositions(mwCells, if saved.Some? then Some(saved.value.mw) else None);
      var mrUse := UsePositions(mrCells, if saved.Some? then Some(saved.value.mr) else None);
      var swUse := UsePositions(swCells, if saved.Some? then Some(saved.value.sw) else None);
      var srUse := UsePositions(srCells, if saved.Some? then Some(saved.value.sr) else None);
      assert InitialSnapshot(layoutStart, gatePosition, mwCells, mrCells, swCells, srCells, saved) ==
             Snapshot(start, closed, mwUse, mrUse, swUse, srUse);
      var l := SetupLists(maze, mwUse, mrUse, swUse, srUse, difficulty);
      game := new Game(maze, key, traps, gate, explorer, rng, l);
      assert Positions(l.mw) == mwUse && Positions(l.mr) == mrUse;
      assert Positions(l.sw) == swUse && Positions(l.sr) == srUse;
      assert explorer.Position() == start && gate.isClosed == closed;
    }

    /** The gate record, the explorer and the draws the level starts with. */
    static method MakeParts(g: Pos, closed: bool, frame: int, start: Pos, draws: seq<nat>)
      returns (gate: Gate, explorer: Explorer, rng: Rng)
      ensures fresh(gate) && fresh(explorer) && fresh(rng)
      ensures gate.position == g && gate.isClosed == closed && gate.cellIndex == frame
      ensures explorer.Position() == start && rng.draws == draws
    {
      gate := new Gate(g, closed, frame);
      explorer := new Explorer(start.0, start.1);
      rng := new Rng(draws);
    }

    /** The four lists `setup_enemies` builds, on the given cells. */
    static method SetupLists(m: Maze, mwCells: seq<Pos>, mrCells: seq<Pos>, swCells: seq<Pos>, srCells: seq<Pos>,
                             difficulty: int)
      returns (l: Lists)
      requires AllInBounds(m, mwCells) && AllInBounds(m, mrCells)
      requires AllInBounds(m, swCells) && AllInBounds(m, srCells)
      ensures ListsOk(m, l)
      ensures Positions(l.mw) == mwCells && Positions(l.mr) == mrCells
      ensures Positions(l.sw) == swCells && Positions(l.sr) == srCells
      ensures HaveDifficulty(l.mw, difficulty) && HaveDifficulty(l.mr, difficulty)
      ensures HaveDifficulty(l.sw, difficulty) && HaveDifficulty(l.sr, difficulty)
    {
      var a, b, sa, sb := SetupPair(m, mwCells, mrCells, difficulty, []);
      var c, d, sc, sd := SetupPair(m, swCells, srCells, difficulty, a + b);
      forall e | e in a || e in b ensures e !in c && e !in d {
        assert e in a + b;
      }
      l := Lists(a, b, c, d, sa, sb, sc, sd);
    }

    /** Two of the lists, sharing no enemy with each other or with earlier. */
    static method SetupPair(m: Maze, xCells: seq<Pos>, yCells: seq<Pos>, difficulty: int, earlier: seq<Enemy>)
      returns (x: seq<Enemy>, y: seq<Enemy>, sx: seq<Sprite>, sy: seq<Sprite>)
      requires AllInBounds(m, xCells) && AllInBounds(m, yCells)
      ensures InGrid(m, x) && InGrid(m, y) && NoDuplicates(x) && NoDuplicates(y) && Apart(x, y)
      ensures Apart(x, earlier) && Apart(y, earlier)
      ensures Positions(x) == xCells && Positions(y) == yCells && |sx| == |x| && |sy| == |y|
      ensures HaveDifficulty(x, difficulty) && HaveDifficulty(y, difficulty)
    {
      x, sx := SetupEnemies(m, xCells, difficulty, earlier);
      y, sy := SetupEnemies(m, yCells, difficulty, earlier + x);
    }

    /** `setup_enemies`: one enemy per cell, each a fresh object given the
        game's difficulty, and a sprite record facing down. */
    static method SetupEnemies(m: Maze, cells: seq<Pos>, difficulty: int, earlier: seq<Enemy>)
      returns (es: seq<Enemy>, sprites: seq<Sprite>)
      requires AllInBounds(m, cells)
      ensures InGrid(m, es) && NoDuplicates(es) && Apart(es, earlier) && Apart(earlier, es)
      ensures Positions(es) == cells && |sprites| == |cells|
      ensures HaveDifficulty(es, difficulty)
      ensures forall e :: e in es ==> e.stepCount == 0 && e.attempt == 0
      ensures forall k :: 0 <= k < |sprites| ==> sprites[k] == Sprite("DOWN", 0)
    {
      es, sprites := [], [];
      for i := 0 to |cells|
        invariant |es| == i && |sprites| == i && NoDuplicates(es)
        invariant forall k :: 0 <= k < i ==> fresh(es[k])
        invariant forall k :: 0 <= k < i ==> es[k].Position() == cells[k]
        invariant forall e :: e in es ==> e.difficulty == difficulty && e.stepCount == 0 && e.attempt == 0
        invariant forall k :: 0 <= k < i ==> sprites[k] == Sprite("DOWN", 0)
      {
        var e := new Enemy(cells[i].0, cells[i].1, difficulty);
        es, sprites := es + [e], sprites + [Sprite("DOWN", 0)];
      }
      assert Positions(es) == cells;
    }

    // -------------------------------------------------------------------
    // One round of the enemies (update_enemy_position)

    /** One enemy's turn in `move_and_update`. */
    method EnemyTurn(e: Enemy, white: bool)
      requires Rectangular(maze) && InBounds(maze, e.Position())
      modifies e, rng
      ensures InBounds(maze, e.Position()) && e.difficulty == old(e.difficulty)
      ensures StaysOrSteps(maze, gate.isClosed, old(e.Position()), e.Position())
      ensures old(e.Position()) == explorer.Position() ==> e.Position() == old(e.Position())
    {
      if white {
        e.WhiteMove(maze, gate.isClosed, explorer, rng);
      } else {
        e.RedMove(maze, gate.isClosed, explorer, rng);
      }
    }

    /** `move_and_update` for one list: each enemy in turn takes its turn
        against the explorer, with the gate as it stands. */
    method MoveGroup(es: seq<Enemy>, white: bool)
      requires Rectangular(maze) && NoDuplicates(es) && InGrid(maze, es)
      modifies es, rng
      ensures InGrid(maze, es)
      ensures Steps(maze, gate.isClosed, old(Positions(es)), Positions(es))
      ensures forall k :: 0 <= k < |es| && old(es[k].Position()) == explorer.Position() ==>
        es[k].Position() == old(es[k].Position())
      ensures forall k :: 0 <= k < |es| ==> es[k].difficulty == old(es[k].difficulty)
    {
      ghost var P := Positions(es);
      for i := 0 to |es|
        invariant forall k :: 0 <= k < |es| ==> InBounds(maze, es[k].Position())
        invariant forall k :: 0 <= k < i ==>
          StaysOrSteps(maze, gate.isClosed, P[k], es[k].Position()) &&
          (P[k] == explorer.Position() ==> es[k].Position() == P[k]) &&
          es[k].difficulty == old(es[k].difficulty)
        invariant forall k :: i <= k < |es| ==>
          es[k].Position() == P[k] && es[k].difficulty == old(es[k].difficulty)
      {
        EnemyTurn(es[i], white);
      }
    }

    /** The key test run on every member of a list after the list has moved. */
    method KeyPass(es: seq<Enemy>)
      modifies gate
      ensures gate.isClosed == ToggleAll(old(gate.isClosed), key, Positions(es))
      ensures gate.position == old(gate.position)
      ensures gate.cellIndex ==
        if OnKeyCount(key, Positions(es)) == 0 then old(gate.cellIndex) else if gate.isClosed then 0 else -1
    {
      ghost var P := Positions(es);
      for i := 0 to |es|
        invariant gate.isClosed == ToggleAll(old(gate.isClosed), key, P[..i])
        invariant gate.position == old(gate.position)
        invariant gate.cellIndex ==
          if OnKeyCount(key, P[..i]) == 0 then old(gate.cellIndex) else if gate.isClosed then 0 else -1
      {
        CharacterSamePlaceWithKey(es[i].Position(), key, gate);
        assert P[..i + 1] == P[..i] + [P[i]];
        ToggleAllAppend(old(gate.isClosed), key, P[..i], [P[i]]);
        OnKeyCountAppend(key, P[..i], [P[i]]);
      }
      assert P[..|es|] == P;
    }

    /** One list's move followed by its key test; after is where the list
        ends up. */
    method Turn(es: seq<Enemy>, white: bool) returns (ghost after: seq<Pos>)
      requires Rectangular(maze) && NoDuplicates(es) && InGrid(maze, es)
      modifies es, rng, gate
      ensures after == Positions(es) && AllInBounds(maze, after)
      ensures Steps(maze, old(gate.isClosed), old(Positions(es)), after)
      ensures gate.isClosed == ToggleAll(old(gate.isClosed), key, after)
      ensures gate.position == old(gate.position)
    {
      MoveGroup(es, white);
      after := Positions(es);
      KeyPass(es);
    }

    /** A white list's turn and then a red list's, the red one seeing the
        gate as the white one left it. */
    method PairTurn(w: seq<Enemy>, r: seq<Enemy>) returns (ghost a: seq<Pos>, ghost b: seq<Pos>)
      requires Rectangular(maze) && NoDuplicates(w) && NoDuplicates(r) && Apart(w, r)
      requires InGrid(maze, w) && InGrid(maze, r)
      modifies w, r, rng, gate
      ensures a == Positions(w) && b == Positions(r)
      ensures AllInBounds(maze, a) && AllInBounds(maze, b) && InGrid(maze, w) && InGrid(maze, r)
      ensures Steps(maze, old(gate.isClosed), old(Positions(w)), a)
      ensures Steps(maze, ToggleAll(old(gate.isClosed), key, a), old(Positions(r)), b)
      ensures gate.isClosed == ToggleAll(ToggleAll(old(gate.isClosed), key, a), key, b)
      ensures gate.position == old(gate.position)
    {
      assert forall k :: 0 <= k < |w| ==> w[k] !in r;
      a := Turn(w, true);
      label L:
      b := Turn(r, false);
      assert unchanged@L(w);
    }

    /** Lists w and r take their turns while o1 and o2, which share no
        enemy with them, wait. */
    method PairTurnAmong(w: seq<Enemy>, r: seq<Enemy>, o1: seq<Enemy>, o2: seq<Enemy>)
      requires Rectangular(maze) && NoDuplicates(w) && NoDuplicates(r) && Apart(w, r)
      requires Apart(o1, w) && Apart(o1, r) && Apart(o2, w) && Apart(o2, r)
      requires InGrid(maze, w) && InGrid(maze, r) && InGrid(maze, o1) && InGrid(maze, o2)
      modifies w, r, rng, gate
      ensures InGrid(maze, w) && InGrid(maze, r) && InGrid(maze, o1) && InGrid(maze, o2)
      ensures Steps(maze, old(gate.isClosed), old(Positions(w)), Positions(w))
      ensures Steps(maze, ToggleAll(old(gate.isClosed), key, Positions(w)), old(Positions(r)), Positions(r))
      ensures gate.isClosed == ToggleAll(ToggleAll(old(gate.isClosed), key, Positions(w)), key, Positions(r))
      ensures Positions(o1) == old(Positions(o1)) && Positions(o2) == old(Positions(o2))
      ensures unchanged(o1) && unchanged(o2) && gate.position == old(gate.position)
    {
      var a, b := PairTurn(w, r);
    }

    /** The merges after a half round (MergeRound): each list keeps the
        enemies and sprite records RoundKept names for the current cells.
        Nobody moves, so the cells held by some enemy, and whether the
        explorer is caught, stay the same. */
    method Merges()
      requires Valid()
      modifies this
      ensures Valid() && history == old(history) && Within(lists, old(lists))
      ensures Fits(old(lists), KeptOf(old(Capture()))) && lists == Keep(old(lists), KeptOf(old(Capture())))
      ensures Capture() == MergeCells(old(Capture()))
      ensures Occupied() == old(Occupied()) && Caught() == old(Caught())
    {
      var l := lists;
      ghost var s := Capture();
      var l' := MergeLists(maze, l, s);
      AmongWithin(l', l, roster);
      assert Rectangular(maze) && ExplorerCell(maze, explorer.Position()) && ListsOk(maze, lists);
      assert forall k :: 0 <= k < |history| ==> SnapshotOk(maze, history[k]);
      SetLists(l', MergeCells(s));
      MergeCellsKeepsOccupancy(s);
      MergeCellsKeepsKilled(s, traps);
    }

    /** The first half-round: `mw`, `mr`, `sw` and `sr` move in that order,
        each list followed by its key test, so each later list sees the gate
        as the lists before it left it. */
    method HalfRoundOne()
      requires Valid()
      modifies gate, rng, lists.mw, lists.mr, lists.sw, lists.sr
      ensures Valid() && explorer.Position() == old(explorer.Position()) && gate.position == old(gate.position)
      ensures lists == old(lists) && history == old(history)
      ensures HalfRound(maze, key, old(Capture()), Capture(), true)
    {
      var l := lists;
      ApartSwap(l.mw, l.sw);
      ApartSwap(l.mw, l.sr);
      ApartSwap(l.mr, l.sw);
      ApartSwap(l.mr, l.sr);
      ghost var s := Capture();
      PairTurnAmong(l.mw, l.mr, l.sw, l.sr);
      ghost var mw, mr := Positions(l.mw), Positions(l.mr);
      PairTurnAmong(l.sw, l.sr, l.mw, l.mr);
      assert Capture() == Snapshot(s.explorer, gate.isClosed, mw, mr, Positions(l.sw), Positions(l.sr));
      assert lists == l && ExplorerCell(maze, explorer.Position()) && ListsOk(maze, l);
    }

    /** The second half-round: only the mummies, `mw` then `mr`, move again. */
    method HalfRoundTwo()
      requires Valid()
      modifies gate, rng, lists.mw, lists.mr
      ensures Valid() && explorer.Position() == old(explorer.Position()) && gate.position == old(gate.position)
      ensures lists == old(lists) && history == old(history)
      ensures unchanged(lists.sw) && unchanged(lists.sr)
      ensures HalfRound(maze, key, old(Capture()), Capture(), false)
    {
      var l := lists;
      ApartSwap(l.mw, l.sw);
      ApartSwap(l.mw, l.sr);
      ApartSwap(l.mr, l.sw);
      ApartSwap(l.mr, l.sr);
      PairTurnAmong(l.mw, l.mr, l.sw, l.sr);
    }

    /** `update_enemy_position` with rendering off: the explorer's key test,
        then a capture test, the first half-round, a capture test, the
        merges, the second half-round, a capture test, the merges and the
        win test. The explorer does not move; LOSE is reported exactly when
        the explorer ends caught, WIN exactly when it ends free next to the
        stair, and an explorer caught from the start loses before anyone
        moves. The state passes through EnemyRound, the first half round
        ending in h1 and the second in h2, and the lists keep the enemies
        the merges after them keep. */
    method UpdateEnemyPosition() returns (status: Status, ghost h1: Snapshot, ghost h2: Snapshot)
      requires Valid()
      modifies this, gate, rng, roster
      ensures Valid() && history == old(history)
      ensures explorer.Position() == old(explorer.Position()) && gate.position == old(gate.position)
      ensures EnemyRound(maze, key, traps, old(Capture()), h1, h2, Capture(), status)
      ensures !old(Caught()) ==> lists == ListsAfter(old(lists), traps, h1, h2)
      ensures status == Lose <==> Caught()
      ensures status == Win <==> !Caught() && AtStair(maze, explorer.Position())
      ensures old(Caught()) ==> status == Lose && lists == old(lists)
    {
      ghost var s := Capture();
      CharacterSamePlaceWithKey(explorer.Position(), key, gate);
      assert Capture() == s.(gateClosed := KeyToggle(s.gateClosed, key, s.explorer));
      assert Caught() == old(Caught()) && Valid();
      if Caught() {
        h1, h2 := Capture(), Capture();
        CaughtAtStart(maze, key, traps, s);
        return Lose, h1, h2;
      }
      status, h1, h2 := BothHalfRounds();
      FreeAtStart(maze, key, traps, s, h1, h2, Capture(), status);
    }

    /** The part of `update_enemy_position` after the first capture test. */
    method BothHalfRounds() returns (status: Status, ghost h1: Snapshot, ghost h2: Snapshot)
      requires Valid()
      modifies this, gate, rng, roster
      ensures Valid() && history == old(history)
      ensures explorer.Position() == old(explorer.Position()) && gate.position == old(gate.position)
      ensures HalfRounds(maze, key, traps, old(Capture()), h1, h2, Capture(), status)
      ensures lists == ListsAfter(old(lists), traps, h1, h2)
      ensures status == Lose <==> Caught()
      ensures status == Win <==> !Caught() && AtStair(maze, explorer.Position())
    {
      ghost var s0, l0 := Capture(), lists;
      HalfRoundOne();
      h1 := Capture();
      if Caught() {
        LostAfterFirst(maze, key, traps, s0, h1, l0);
        return Lose, h1, h1;
      }
      Merges();
      HalfRoundTwo();
      h2 := Capture();
      if Caught() {
        LostAfterSecond(maze, key, traps, s0, h1, h2, l0);
        return Lose, h1, h2;
      }
      Merges();
      status := if AtStair(maze, explorer.Position()) then Win else Playing;
      SurvivedBoth(maze, key, traps, s0, h1, h2, l0, status);
    }

    /** Installs merged lists that satisfy what Valid asks of the lists;
        the state is then s. */
    method SetLists(l: Lists, ghost s: Snapshot)
      requires Valid() && ListsOk(maze, l) && Among(l, roster)
      requires s.explorer == explorer.Position() && s.gateClosed == gate.isClosed
      requires s.mw == Positions(l.mw) && s.mr == Positions(l.mr) && s.sw == Positions(l.sw) && s.sr == Positions(l.sr)
      modifies this
      ensures Valid() && history == old(history) && lists == l && Capture() == s
    {
      lists := l;
    }

    // -------------------------------------------------------------------
    // Undo (capture_state / restore_state) and the explorer's step

    /** `restore_pos`: the first min(|es|, |saved|) enemies are put back on
        their saved cells; nothing else about them changes. */
    static method RestorePos(es: seq<Enemy>, saved: seq<Pos>)
      requires NoDuplicates(es)
      modifies es
      ensures Positions(es) == Overlay(old(Positions(es)), saved)
      ensures forall k :: 0 <= k < |es| ==> es[k].difficulty == old(es[k].difficulty)
    {
      ghost var P := Positions(es);
      var n := if |es| < |saved| then |es| else |saved|;
      for i := 0 to n
        invariant forall k :: 0 <= k < i ==> es[k].Position() == saved[k]
        invariant forall k :: i <= k < |es| ==> es[k].Position() == P[k]
        invariant forall k :: 0 <= k < |es| ==> es[k].difficulty == old(es[k].difficulty)
      {
        es[i].MoveXY(saved[i].0, saved[i].1);
      }
      assert Positions(es) == Overlay(P, saved);
    }

    /** `restore_state`: the explorer and the gate flag come from the
        snapshot, the gate's frame follows the flag, and each list gets
        back the saved cells of its first entries. */
    method Restore(s: Snapshot)
      requires Valid() && SnapshotOk(maze, s)
      modifies explorer, gate, roster
      ensures Valid() && lists == old(lists) && history == old(history)
      ensures Capture() == Restored(old(Capture()), s)
      ensures gate.cellIndex == (if s.gateClosed then 0 else -1) && gate.position == old(gate.position)
    {
      RestoreExplorerAndGate(s);
      RestoreLists(maze, lists, s);
    }

    /** The explorer and the gate flag as the snapshot has them. */
    method RestoreExplorerAndGate(s: Snapshot)
      requires Valid() && ExplorerCell(maze, s.explorer)
      modifies explorer, gate
      ensures Valid() && lists == old(lists) && history == old(history)
      ensures Capture() == old(Capture()).(explorer := s.explorer, gateClosed := s.gateClosed)
      ensures gate.cellIndex == (if s.gateClosed then 0 else -1) && gate.position == old(gate.position)
    {
      explorer.MoveXY(s.explorer.0, s.explorer.1);
      gate.isClosed := s.gateClosed;
      gate.cellIndex := if gate.isClosed then 0 else -1;
    }

    /** restore_pos on each of the four lists in turn. */
    static method RestoreLists(m: Maze, l: Lists, s: Snapshot)
      requires ListsOk(m, l) && SnapshotOk(m, s)
      modifies l.mw, l.mr, l.sw, l.sr
      ensures ListsOk(m, l)
      ensures Positions(l.mw) == Overlay(old(Positions(l.mw)), s.mw)
      ensures Positions(l.mr) == Overlay(old(Positions(l.mr)), s.mr)
      ensures Positions(l.sw) == Overlay(old(Positions(l.sw)), s.sw)
      ensures Positions(l.sr) == Overlay(old(Positions(l.sr)), s.sr)
    {
      ApartSwap(l.mw, l.mr);
      ApartSwap(l.mw, l.sw);
      ApartSwap(l.mw, l.sr);
      ApartSwap(l.mr, l.sw);
      ApartSwap(l.mr, l.sr);
      ApartSwap(l.sw, l.sr);
      RestorePosAmong(m, l.mw, s.mw, l.mr, l.sw, l.sr);
      RestorePosAmong(m, l.mr, s.mr, l.mw, l.sw, l.sr);
      RestorePosAmong(m, l.sw, s.sw, l.mw, l.mr, l.sr);
      RestorePosAmong(m, l.sr, s.sr, l.mw, l.mr, l.sw);
    }

    /** restore_pos on es, which shares no enemy with o1, o2 and o3: those
        stay where they are. */
    static method RestorePosAmong(m: Maze, es: seq<Enemy>, saved: seq<Pos>, o1: seq<Enemy>, o2: seq<Enemy>, o3: seq<Enemy>)
      requires NoDuplicates(es) && Apart(es, o1) && Apart(es, o2) && Apart(es, o3)
      requires InGrid(m, es) && AllInBounds(m, saved) && InGrid(m, o1) && InGrid(m, o2) && InGrid(m, o3)
      modifies es
      ensures Positions(es) == Overlay(old(Positions(es)), saved)
      ensures InGrid(m, es) && InGrid(m, o1) && InGrid(m, o2) && InGrid(m, o3)
      ensures Positions(o1) == old(Positions(o1)) && Positions(o2) == old(Positions(o2)) && Positions(o3) == old(Positions(o3))
    {
      RestorePos(es, saved);
      OverlayInBounds(m, old(Positions(es)), saved);
    }

    /** The undo button: the last snapshot is popped and restored; with an
        empty stack nothing happens. */
    method Undo()
      requires Valid()
      modifies this, explorer, gate, roster
      ensures Valid() && lists == old(lists)
      ensures old(history) == [] ==> history == [] && Capture() == old(Capture())
      ensures old(history) != [] ==>
        history == old(history)[..|old(history)| - 1] &&
        Capture() == Restored(old(Capture()), old(history)[|old(history)| - 1])
    {
      if history != [] {
        var s := history[|history| - 1];
        history := history[..|history| - 1];
        Restore(s);
      }
    }

    /** Puts the explorer on q; nothing else changes. */
    method MoveExplorer(q: Pos)
      requires Valid() && ExplorerCell(maze, q)
      modifies explorer
      ensures Valid() && Capture() == old(Capture()).(explorer := q)
      ensures Caught() == Killed(Capture(), traps)
    {
      explorer.MoveXY(q.0, q.1);
    }

    /** `capture_state`: the current state goes on the undo stack. */
    method PushHistory()
      requires Valid()
      modifies this`history
      ensures Valid() && history == old(history) + [Capture()]
    {
      CaptureOk();
      history := history + [Capture()];
    }

    /** The explorer steps onto q and the enemies answer. */
    method MoveAndRound(q: Pos) returns (status: Status, ghost h1: Snapshot, ghost h2: Snapshot)
      requires Valid() && ExplorerCell(maze, q)
      modifies this, explorer, gate, rng, roster
      ensures Valid() && history == old(history) && explorer.Position() == q
      ensures status == Lose <==> Caught()
      ensures status == Win <==> !Caught() && AtStair(maze, explorer.Position())
      ensures EnemyRound(maze, key, traps, old(Capture()).(explorer := q), h1, h2, Capture(), status)
      ensures lists == if Killed(old(Capture()).(explorer := q), traps) then old(lists)
                       else ListsAfter(old(lists), traps, h1, h2)
    {
      ghost var s := old(Capture()).(explorer := q);
      MoveExplorer(q);
      assert Capture() == s && lists == old(lists);
      status, h1, h2 := UpdateEnemyPosition();
    }

    /** One intent of the explorer in `rungame`: the state is pushed on the
        undo stack first; a move the gate or a wall blocks ends there (None),
        anything else moves the explorer and runs the enemies' round, whose
        outcome is returned. */
    method PlayerStep(intent: Intent) returns (status: Option<Status>, ghost h1: Snapshot, ghost h2: Snapshot)
      requires Valid()
      modifies this, explorer, gate, rng, roster
      ensures Valid() && history == old(history) + [old(Capture())]
      ensures status.None? <==>
        intent != Wait && !CanStep(maze, old(gate.isClosed), old(explorer.Position()), Target(old(explorer.Position()), intent))
      ensures status.None? ==> Capture() == old(Capture())
      ensures status.Some? ==> explorer.Position() == Target(old(explorer.Position()), intent)
      ensures status.Some? ==> (status.value == Lose <==> Caught())
      ensures status.Some? ==> (status.value == Win <==> !Caught() && AtStair(maze, explorer.Position()))
      ensures status.Some? ==>
        var moved := old(Capture()).(explorer := Target(old(explorer.Position()), intent));
        EnemyRound(maze, key, traps, moved, h1, h2, Capture(), status.value) &&
        lists == if Killed(moved, traps) then old(lists) else ListsAfter(old(lists), traps, h1, h2)
    {
      PushHistory();
      var p := explorer.Position();
      var q := Target(p, intent);
      var moved := intent == Wait || EligibleMove(maze, gate.isClosed, p.0, p.1, q.0, q.1);
      if intent != Wait {
        EligibleIsCanStep(maze, gate.isClosed, p, q);
      }
      if !moved {
        return None, Capture(), Capture();
      }
      if intent != Wait {
        StepKeepsExplorerCell(maze, gate.isClosed, p, q);
      }
      assert Capture() == old(Capture()) && lists == old(lists);
      var outcome;
      outcome, h1, h2 := MoveAndRound(q);
      status := Some(outcome);
    }
  }
}
