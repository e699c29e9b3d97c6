/** The rules of a level that hold between values (main.py): the gate and
    its key, the enemy lists and their merging, the undo snapshots. */
module Board {
  import opened Wrappers
  import opened Characters
  import opened Rosters

  // ---------------------------------------------------------------------
  // The gate and its key

  /** The gate record of a level: where it is drawn, whether it is closed,
      and the animation frame the renderer shows (0 closed, -1 open). */
  class Gate {
    var position: Pos
    var isClosed: bool
    var cellIndex: int

    constructor (position: Pos, isClosed: bool, cellIndex: int)
      ensures this.position == position && this.isClosed == isClosed && this.cellIndex == cellIndex
    {
      this.position := position;
      this.isClosed := isClosed;
      this.cellIndex := cellIndex;
    }
  }

  /** The level has a key and p is its cell. */
  predicate OnKey(key: Option<Pos>, p: Pos)
  {
    key.Some? && p.0 == key.value.0 && p.1 == key.value.1
  }

  /** The gate flag after a character stands on p. */
  function KeyToggle(closed: bool, key: Option<Pos>, p: Pos): (c: bool)
    ensures c != closed <==> OnKey(key, p)
  {
    if OnKey(key, p) then !closed else closed
  }

  /** A character that steps on the key and is tested twice leaves the gate
      as it found it. */
  lemma KeyToggleTwice(closed: bool, key: Option<Pos>, p: Pos)
    ensures KeyToggle(KeyToggle(closed, key, p), key, p) == closed
  {
  }

  /** `character_same_place_with_key`, without the animation. */
  method CharacterSamePlaceWithKey(p: Pos, key: Option<Pos>, gate: Gate)
    modifies gate
    ensures gate.isClosed == KeyToggle(old(gate.isClosed), key, p)
    ensures gate.cellIndex == (if OnKey(key, p) then (if gate.isClosed then 0 else -1) else old(gate.cellIndex))
    ensures gate.position == old(gate.position)
  {
    if key.Some? && p.0 == key.value.0 && p.1 == key.value.1 {
      gate.isClosed := !gate.isClosed;
      gate.cellIndex := if gate.isClosed then 0 else -1;
    }
  }

  /** The gate flag after each of the cells in turn is tested against the key. */
  function ToggleAll(closed: bool, key: Option<Pos>, cells: seq<Pos>): bool
    decreases |cells|
  {
    if cells == [] then closed else ToggleAll(KeyToggle(closed, key, cells[0]), key, cells[1..])
  }

  /** How many of the cells are the key's. */
  function OnKeyCount(key: Option<Pos>, cells: seq<Pos>): nat
    decreases |cells|
  {
    if cells == [] then 0 else (if OnKey(key, cells[0]) then 1 else 0) + OnKeyCount(key, cells[1..])
  }

  /** After a group has been tested, the gate has flipped once per member
      standing on the key. */
  lemma {:induction false} ToggleAllIsParity(closed: bool, key: Option<Pos>, cells: seq<Pos>)
    ensures ToggleAll(closed, key, cells) == (if OnKeyCount(key, cells) % 2 == 0 then closed else !closed)
    decreases |cells|
  {
    if cells != [] {
      ToggleAllIsParity(KeyToggle(closed, key, cells[0]), key, cells[1..]);
    }
  }

  /** The gate flag is a fold: testing x and then y is testing x + y. */
  lemma {:induction false} ToggleAllAppend(closed: bool, key: Option<Pos>, x: seq<Pos>, y: seq<Pos>)
    ensures ToggleAll(closed, key, x + y) == ToggleAll(ToggleAll(closed, key, x), key, y)
    decreases |x|
  {
    if x == [] {
      assert x + y == y;
    } else {
      assert (x + y)[1..] == x[1..] + y;
      ToggleAllAppend(KeyToggle(closed, key, x[0]), key, x[1..], y);
    }
  }

  lemma {:induction false} OnKeyCountAppend(key: Option<Pos>, x: seq<Pos>, y: seq<Pos>)
    ensures OnKeyCount(key, x + y) == OnKeyCount(key, x) + OnKeyCount(key, y)
    decreases |x|
  {
    if x == [] {
      assert x + y == y;
    } else {
      assert (x + y)[1..] == x[1..] + y;
      OnKeyCountAppend(key, x[1..], y);
    }
  }

  // ---------------------------------------------------------------------
  // The state of a level in play

  datatype Status = Playing | Win | Lose

  /** The animation record drawn for one enemy. */
  datatype Sprite = Sprite(direction: string, cellIndex: int)

  /** One explorer intent: a key press or a click. */
  datatype Intent = Up | Down | Left | Right | Wait

  /** What `capture_state` records: the explorer's cell, the gate flag and
      the cell of every enemy, list by list. */
  datatype Snapshot = Snapshot(explorer: Pos, gateClosed: bool,
                               mw: seq<Pos>, mr: seq<Pos>, sw: seq<Pos>, sr: seq<Pos>)

  predicate Odd(k: int)
  {
    k % 2 == 1
  }

  /** The explorer stands on a walkable cell (odd row and column) of the grid. */
  predicate ExplorerCell(m: Maze, p: Pos)
  {
    Rectangular(m) && InBounds(m, p) && Odd(p.0) && Odd(p.1)
  }

  predicate AllInBounds(m: Maze, cells: seq<Pos>)
  {
    forall k :: 0 <= k < |cells| ==> InBounds(m, cells[k])
  }

  /** A snapshot that a valid game could have taken. */
  predicate SnapshotOk(m: Maze, s: Snapshot)
  {
    ExplorerCell(m, s.explorer) &&
    AllInBounds(m, s.mw) && AllInBounds(m, s.mr) && AllInBounds(m, s.sw) && AllInBounds(m, s.sr)
  }

  /** No enemy of x is also in y. */
  predicate Apart(x: seq<Enemy>, y: seq<Enemy>)
  {
    forall k :: 0 <= k < |x| ==> x[k] !in y
  }

  /** The four lists hold distinct enemy objects. */
  predicate Separate(a: seq<Enemy>, b: seq<Enemy>, c: seq<Enemy>, d: seq<Enemy>)
  {
    NoDuplicates(a) && NoDuplicates(b) && NoDuplicates(c) && NoDuplicates(d) &&
    Apart(a, b) && Apart(a, c) && Apart(a, d) && Apart(b, c) && Apart(b, d) && Apart(c, d)
  }

  /** Lists that only lost enemies stay separate. */
  lemma SeparateShrinks(a: seq<Enemy>, b: seq<Enemy>, c: seq<Enemy>, d: seq<Enemy>,
                        a': seq<Enemy>, b': seq<Enemy>, c': seq<Enemy>, d': seq<Enemy>)
    requires Separate(a, b, c, d)
    requires NoDuplicates(a') && NoDuplicates(b') && NoDuplicates(c') && NoDuplicates(d')
    requires forall e :: e in a' ==> e in a
    requires forall e :: e in b' ==> e in b
    requires forall e :: e in c' ==> e in c
    requires forall e :: e in d' ==> e in d
    ensures Separate(a', b', c', d')
  {
    ApartShrinks(a, b, a', b');
    ApartShrinks(a, c, a', c');
    ApartShrinks(a, d, a', d');
    ApartShrinks(b, c, b', c');
    ApartShrinks(b, d, b', d');
    ApartShrinks(c, d, c', d');
  }

  lemma ApartSwap(x: seq<Enemy>, y: seq<Enemy>)
    requires Apart(x, y)
    ensures Apart(y, x)
  {
  }

  lemma ApartShrinks(x: seq<Enemy>, y: seq<Enemy>, x': seq<Enemy>, y': seq<Enemy>)
    requires Apart(x, y)
    requires forall e :: e in x' ==> e in x
    requires forall e :: e in y' ==> e in y
    ensures Apart(x', y')
  {
    forall k | 0 <= k < |x'| ensures x'[k] !in y' {
      assert x'[k] in x;
      var j :| 0 <= j < |x| && x[j] == x'[k];
    }
  }

  /** Every enemy of the list stands inside the grid. */
  ghost predicate InGrid(m: Maze, es: seq<Enemy>)
    reads es
  {
    forall k :: 0 <= k < |es| ==> InBounds(m, es[k].Position())
  }

  lemma InGridShrinks(m: Maze, es: seq<Enemy>, es': seq<Enemy>)
    requires InGrid(m, es) && forall e :: e in es' ==> e in es
    ensures InGrid(m, es')
  {
    forall k | 0 <= k < |es'| ensures InBounds(m, es'[k].Position()) {
      assert es'[k] in es;
      var j :| 0 <= j < |es| && es[j] == es'[k];
    }
  }

  /** Every enemy of es plays at the given difficulty. */
  ghost predicate HaveDifficulty(es: seq<Enemy>, difficulty: int)
    reads es
  {
    forall e :: e in es ==> e.difficulty == difficulty
  }

  /** An enemy's turn leaves it where it was or moves it one legal step. */
  predicate StaysOrSteps(m: Maze, closed: bool, a: Pos, b: Pos)
  {
    a == b || CanStep(m, closed, a, b)
  }

  lemma StaysOrStepsIsNear(m: Maze, closed: bool, a: Pos, b: Pos)
    requires StaysOrSteps(m, closed, a, b)
    ensures Dist(a, b) <= 2
  {
  }

  /** Each entry of after is the one of before (same index) or one legal
      step away from it. */
  predicate Steps(m: Maze, closed: bool, before: seq<Pos>, after: seq<Pos>)
  {
    |before| == |after| && forall k :: 0 <= k < |after| ==> StaysOrSteps(m, closed, before[k], after[k])
  }

  /** The cells `setup_enemies` starts a list on: the saved ones when a
      save was loaded and lists as many enemies as the layout, the layout's
      otherwise (so a list that merges had shortened comes back whole). */
  function UsePositions(cells: seq<Pos>, loaded: Option<seq<Pos>>): (r: seq<Pos>)
    ensures loaded.Some? && |loaded.value| == |cells| ==> r == loaded.value
    ensures loaded.None? || |loaded.value| != |cells| ==> r == cells
  {
    if loaded.Some? && loaded.value != [] && |loaded.value| == |cells| then loaded.value else cells
  }

  /** The win test: the stair is on one of the four tiles around p. */
  predicate NextToStair(m: Maze, p: Pos)
    requires Rectangular(m) && 1 <= p.0 < |m| - 1 && 1 <= p.1 < |m[0]| - 1
  {
    m[p.0 - 1][p.1] == STAIR || m[p.0 + 1][p.1] == STAIR ||
    m[p.0][p.1 - 1] == STAIR || m[p.0][p.1 + 1] == STAIR
  }

  /** The win test for a walkable cell of an odd-sized grid, whose four
      neighbouring tiles all exist. */
  predicate AtStair(m: Maze, p: Pos)
    requires ExplorerCell(m, p) && |m| % 2 == 1 && |m[0]| % 2 == 1
  {
    ExplorerCellIsInterior(m, p);
    NextToStair(m, p)
  }

  /** A walkable cell of an odd-sized grid has a tile on each side. */
  lemma ExplorerCellIsInterior(m: Maze, p: Pos)
    requires ExplorerCell(m, p) && |m| % 2 == 1 && |m[0]| % 2 == 1
    ensures 1 <= p.0 < |m| - 1 && 1 <= p.1 < |m[0]| - 1
  {
  }

  /** The cells a snapshot restores into a list of current cells cur: the
      saved cell for the first min(|cur|, |saved|) entries, the current one
      for the rest. */
  function Overlay(cur: seq<Pos>, saved: seq<Pos>): (r: seq<Pos>)
    ensures |r| == |cur|
    ensures forall k :: 0 <= k < |cur| ==> r[k] == (if k < |saved| then saved[k] else cur[k])
  {
    if cur == [] then []
    else if saved == [] then cur
    else [saved[0]] + Overlay(cur[1..], saved[1..])
  }

  /** With the lists as long as when the snapshot was taken, every entry
      gets its saved cell back. */
  lemma OverlaySameLength(cur: seq<Pos>, saved: seq<Pos>)
    requires |cur| == |saved|
    ensures Overlay(cur, saved) == saved
  {
  }

  /** When merges have shortened a list, only its prefix is restored and the
      merged-away enemies are not brought back. */
  lemma OverlayShorter(cur: seq<Pos>, saved: seq<Pos>)
    requires |cur| <= |saved|
    ensures Overlay(cur, saved) == saved[..|cur|]
  {
  }

  /** Restoring cells of the grid into cells of the grid stays in the grid. */
  lemma OverlayInBounds(m: Maze, cur: seq<Pos>, saved: seq<Pos>)
    requires AllInBounds(m, cur) && AllInBounds(m, saved)
    ensures AllInBounds(m, Overlay(cur, saved))
  {
  }

  /** What `restore_state` makes of the state cur from the snapshot s. */
  function Restored(cur: Snapshot, s: Snapshot): (r: Snapshot)
    ensures r.explorer == s.explorer && r.gateClosed == s.gateClosed
    ensures |r.mw| == |cur.mw| && |r.mr| == |cur.mr| && |r.sw| == |cur.sw| && |r.sr| == |cur.sr|
  {
    Snapshot(s.explorer, s.gateClosed, Overlay(cur.mw, s.mw), Overlay(cur.mr, s.mr),
             Overlay(cur.sw, s.sw), Overlay(cur.sr, s.sr))
  }

  /** Undo is exact when no enemy was merged away since the snapshot. */
  lemma RestoredSameShape(cur: Snapshot, s: Snapshot)
    requires |cur.mw| == |s.mw| && |cur.mr| == |s.mr| && |cur.sw| == |s.sw| && |cur.sr| == |s.sr|
    ensures Restored(cur, s) == s
  {
    OverlaySameLength(cur.mw, s.mw);
    OverlaySameLength(cur.mr, s.mr);
    OverlaySameLength(cur.sw, s.sw);
    OverlaySameLength(cur.sr, s.sr);
  }

  /** The cell an intent aims at, two tiles away (or the explorer's own for
      a wait). */
  function Target(p: Pos, intent: Intent): Pos
  {
    match intent
    case Up => (p.0 - 2, p.1)
    case Down => (p.0 + 2, p.1)
    case Left => (p.0, p.1 - 2)
    case Right => (p.0, p.1 + 2)
    case Wait => p
  }

  /** A step of the explorer ends on a walkable cell again. */
  lemma StepKeepsExplorerCell(m: Maze, closed: bool, p: Pos, q: Pos)
    requires ExplorerCell(m, p) && CanStep(m, closed, p, q)
    ensures ExplorerCell(m, q)
  {
  }

  /** x', sx' and px' are x, sx and px at the increasing indices k: some
      of the entries, in their order. */
  ghost predicate Shrunk<S>(x: seq<Enemy>, sx: seq<S>, px: seq<Pos>, k: seq<nat>,
                            x': seq<Enemy>, sx': seq<S>, px': seq<Pos>)
  {
    Picked(x, sx, px, k, x', sx', px') && Increasing(k)
  }

  lemma ShrunkTwice<S>(x: seq<Enemy>, sx: seq<S>, px: seq<Pos>, k1: seq<nat>,
                       x1: seq<Enemy>, sx1: seq<S>, px1: seq<Pos>, k2: seq<nat>,
                       x2: seq<Enemy>, sx2: seq<S>, px2: seq<Pos>)
    requires Shrunk(x, sx, px, k1, x1, sx1, px1) && Shrunk(x1, sx1, px1, k2, x2, sx2, px2)
    ensures Indices(Pick(k1, k2), |x|) && Shrunk(x, sx, px, Pick(k1, k2), x2, sx2, px2)
  {
    PickPick(x, k1, k2);
    PickPick(sx, k1, k2);
    PickPick(px, k1, k2);
  }

  /** Picking twice is picking once, at the composed indices. */
  lemma PickPick<T>(xs: seq<T>, k1: seq<nat>, k2: seq<nat>)
    requires Indices(k1, |xs|) && Indices(k2, |k1|)
    ensures Indices(Pick(k1, k2), |xs|) && Pick(Pick(xs, k1), k2) == Pick(xs, Pick(k1, k2))
    ensures Increasing(k1) && Increasing(k2) ==> Increasing(Pick(k1, k2))
  {
  }

  lemma ShrunkNone<S>(x: seq<Enemy>, sx: seq<S>, px: seq<Pos>)
    requires |sx| == |x| && |px| == |x|
    ensures Shrunk(x, sx, px, Range(|x|), x, sx, px)
  {
    PickRange(x);
    PickRange(sx);
    PickRange(px);
  }

  /** `update_list_character` on one list with its sprite records and its
      cells. */
  method DedupList<S>(x: seq<Enemy>, sx: seq<S>, px: seq<Pos>)
    returns (x': seq<Enemy>, sx': seq<S>, px': seq<Pos>, ghost k: seq<nat>)
    requires |sx| == |x| && |px| == |x|
    ensures Shrunk(x, sx, px, k, x', sx', px') && k == Dedup(px)
    ensures CellSet(px') == CellSet(px)
  {
    x', sx', px' := UpdateListCharacter(x, sx, px);
    k := Dedup(px);
    DedupKeepsCellSet(px);
  }

  /** One line `if weak: update_lists_character(strong, weak, ...)` of a
      round's merges, on the strong list's cells S. */
  method MergeIfAny<S>(S: seq<Pos>, weak: seq<Enemy>, sheets: seq<S>, W: seq<Pos>)
    returns (weak': seq<Enemy>, sheets': seq<S>, W': seq<Pos>, ghost k: seq<nat>)
    requires |sheets| == |weak| && |W| == |weak|
    ensures Shrunk(weak, sheets, W, k, weak', sheets', W')
    ensures k == MergeIf(S, W)
    ensures CellSet(S) + CellSet(W') == CellSet(S) + CellSet(W)
  {
    weak', sheets', W', k := weak, sheets, W, [];
    if weak != [] {
      weak', sheets', W' := UpdateListsCharacter(S, weak, sheets, W);
      k := Merge(S, W);
      MergeKeepsCellSet(S, W);
    }
  }

  /** The set algebra of a round of merges: each step keeps the union of
      the stronger list's cells and the weaker list's. */
  lemma UnionChain<T>(a: set<T>, b: set<T>, c: set<T>, d: set<T>,
                      a': set<T>, b1: set<T>, b': set<T>, c1: set<T>, c': set<T>,
                      d1: set<T>, d2: set<T>, d': set<T>)
    requires a' == a && b1 == b
    requires a' + b' == a' + b1
    requires a' + c1 == a' + c && a' + d1 == a' + d
    requires b' + c' == b' + c1 && b' + d2 == b' + d1
    requires c' + d' == c' + d2
    ensures a' + b' + c' + d' == a + b + c + d
  {
  }

  /** The merge lines of a half round (main.py:456-463) on the four lists,
      their sprite records and their cells: each mummy list loses its
      same-cell duplicates, then white mummies merge red mummies and both
      scorpion lists, red mummies both scorpion lists, and white scorpions
      red ones. Every list keeps some of its entries in order, and the
      cells held by some enemy stay the same. */
  method MergeRound<S>(a: seq<Enemy>, b: seq<Enemy>, c: seq<Enemy>, d: seq<Enemy>,
                       sa: seq<S>, sb: seq<S>, sc: seq<S>, sd: seq<S>,
                       pa: seq<Pos>, pb: seq<Pos>, pc: seq<Pos>, pd: seq<Pos>)
    returns (a': seq<Enemy>, b': seq<Enemy>, c': seq<Enemy>, d': seq<Enemy>,
             sa': seq<S>, sb': seq<S>, sc': seq<S>, sd': seq<S>,
             pa': seq<Pos>, pb': seq<Pos>, pc': seq<Pos>, pd': seq<Pos>,
             ghost ka: seq<nat>, ghost kb: seq<nat>, ghost kc: seq<nat>, ghost kd: seq<nat>)
    requires |sa| == |a| && |sb| == |b| && |sc| == |c| && |sd| == |d|
    requires |pa| == |a| && |pb| == |b| && |pc| == |c| && |pd| == |d|
    ensures Shrunk(a, sa, pa, ka, a', sa', pa') && Shrunk(b, sb, pb, kb, b', sb', pb')
    ensures Shrunk(c, sc, pc, kc, c', sc', pc') && Shrunk(d, sd, pd, kd, d', sd', pd')
    ensures Kept(ka, kb, kc, kd) == RoundKept(pa, pb, pc, pd)
    ensures CellSet(pa') + CellSet(pb') + CellSet(pc') + CellSet(pd') ==
            CellSet(pa) + CellSet(pb) + CellSet(pc) + CellSet(pd)
  {
    a', sa', pa', ka := DedupList(a, sa, pa);
    var b1, sb1, pb1, kb1 := DedupList(b, sb, pb);
    ghost var kb2, kc1, kd1, kc2, kd2, kd3;
    b', sb', pb', kb2 := MergeIfAny(pa', b1, sb1, pb1);
    var c1, sc1, pc1, d1, sd1, pd1, d2, sd2, pd2;
    c1, sc1, pc1, kc1 := MergeIfAny(pa', c, sc, pc);
    d1, sd1, pd1, kd1 := MergeIfAny(pa', d, sd, pd);
    c', sc', pc', kc2 := MergeIfAny(pb', c1, sc1, pc1);
    d2, sd2, pd2, kd2 := MergeIfAny(pb', d1, sd1, pd1);
    d', sd', pd', kd3 := MergeIfAny(pc', d2, sd2, pd2);
    ShrunkTwice(b, sb, pb, kb1, b1, sb1, pb1, kb2, b', sb', pb');
    kb := Pick(kb1, kb2);
    ShrunkTwice(c, sc, pc, kc1, c1, sc1, pc1, kc2, c', sc', pc');
    kc := Pick(kc1, kc2);
    ShrunkTwice(d, sd, pd, kd1, d1, sd1, pd1, kd2, d2, sd2, pd2);
    ShrunkTwice(d, sd, pd, Pick(kd1, kd2), d2, sd2, pd2, kd3, d', sd', pd');
    kd := Pick(Pick(kd1, kd2), kd3);
    UnionChain(CellSet(pa), CellSet(pb), CellSet(pc), CellSet(pd), CellSet(pa'), CellSet(pb1), CellSet(pb'),
               CellSet(pc1), CellSet(pc'), CellSet(pd1), CellSet(pd2), CellSet(pd'));
  }

  // ---------------------------------------------------------------------
  // A round of merges on the cells alone

  /** Which entries of each list a round of merges keeps, as increasing
      indices into the list before the round. */
  datatype Kept = Kept(mw: seq<nat>, mr: seq<nat>, sw: seq<nat>, sr: seq<nat>)

  /** One `if weak: update_lists_character(strong, weak, ...)` line on the
      cells S of the strong list and W of the weak one: the surviving
      indices of the weak list. The union of the two lists' cells stays. */
  function MergeIf(S: seq<Pos>, W: seq<Pos>): (r: seq<nat>)
    ensures Indices(r, |W|)
  {
    if W == [] then [] else Merge(S, W)
  }

  /** The union of the two lists' cells stays. */
  lemma MergeIfKeepsCells(S: seq<Pos>, W: seq<Pos>)
    ensures CellSet(S) + CellSet(Pick(W, MergeIf(S, W))) == CellSet(S) + CellSet(W)
  {
    MergeKeepsCellSet(S, W);
  }

  /** The merge lines of a half round (main.py:456-463) on the cells of the
      white mummies, red mummies, white scorpions and red scorpions. */
  function RoundKept(pa: seq<Pos>, pb: seq<Pos>, pc: seq<Pos>, pd: seq<Pos>): (k: Kept)
    ensures Indices(k.mw, |pa|) && Indices(k.mr, |pb|) && Indices(k.sw, |pc|) && Indices(k.sr, |pd|)
  {
    var ka := Dedup(pa);
    var a := Pick(pa, ka);
    var kb1 := Dedup(pb);
    var kb2 := MergeIf(a, Pick(pb, kb1));
    var b := Pick(Pick(pb, kb1), kb2);
    var kc1 := MergeIf(a, pc);
    var kd1 := MergeIf(a, pd);
    var kc2 := MergeIf(b, Pick(pc, kc1));
    var c := Pick(Pick(pc, kc1), kc2);
    var kd2 := MergeIf(b, Pick(pd, kd1));
    var kd3 := MergeIf(c, Pick(Pick(pd, kd1), kd2));
    Kept(ka, Pick(kb1, kb2), Pick(kc1, kc2), Pick(Pick(kd1, kd2), kd3))
  }

  function KeptOf(s: Snapshot): (k: Kept)
    ensures Indices(k.mw, |s.mw|) && Indices(k.mr, |s.mr|) && Indices(k.sw, |s.sw|) && Indices(k.sr, |s.sr|)
  {
    RoundKept(s.mw, s.mr, s.sw, s.sr)
  }

  /** The state after a round of merges: every list keeps the entries
      RoundKept names; the explorer and the gate flag do not change. */
  function MergeCells(s: Snapshot): (r: Snapshot)
    ensures r.explorer == s.explorer && r.gateClosed == s.gateClosed
  {
    var k := KeptOf(s);
    Snapshot(s.explorer, s.gateClosed, Pick(s.mw, k.mw), Pick(s.mr, k.mr), Pick(s.sw, k.sw), Pick(s.sr, k.sr))
  }

  /** The cells some enemy of s stands on. */
  function Occupancy(s: Snapshot): set<Pos>
  {
    CellSet(s.mw) + CellSet(s.mr) + CellSet(s.sw) + CellSet(s.sr)
  }

  /** A round of merges only removes enemies from cells that another enemy
      keeps holding: the occupied cells stay the same. */
  lemma MergeCellsKeepsOccupancy(s: Snapshot)
    ensures Occupancy(MergeCells(s)) == Occupancy(s)
  {
    var pa, pb, pc, pd := s.mw, s.mr, s.sw, s.sr;
    DedupKeepsCellSet(pa);
    DedupKeepsCellSet(pb);
    var ka := Dedup(pa);
    var a := Pick(pa, ka);
    var kb1 := Dedup(pb);
    var b1 := Pick(pb, kb1);
    var kb2 := MergeIf(a, b1);
    var b := Pick(b1, kb2);
    var kc1 := MergeIf(a, pc);
    var c1 := Pick(pc, kc1);
    var kd1 := MergeIf(a, pd);
    var d1 := Pick(pd, kd1);
    var kc2 := MergeIf(b, c1);
    var c := Pick(c1, kc2);
    var kd2 := MergeIf(b, d1);
    var d2 := Pick(d1, kd2);
    var kd3 := MergeIf(c, d2);
    var d := Pick(d2, kd3);
    MergeIfKeepsCells(a, b1);
    MergeIfKeepsCells(a, pc);
    MergeIfKeepsCells(a, pd);
    MergeIfKeepsCells(b, c1);
    MergeIfKeepsCells(b, d1);
    MergeIfKeepsCells(c, d2);
    PickPick(pb, kb1, kb2);
    PickPick(pc, kc1, kc2);
    PickPick(pd, kd1, kd2);
    PickPick(pd, Pick(kd1, kd2), kd3);
    var r := MergeCells(s);
    assert r.mw == a && r.mr == b && r.sw == c && r.sr == d;
    UnionChain(CellSet(pa), CellSet(pb), CellSet(pc), CellSet(pd), CellSet(a), CellSet(b1), CellSet(b),
               CellSet(c1), CellSet(c), CellSet(d1), CellSet(d2), CellSet(d));
  }

  /** `check_explorer_is_killed` on the state s. */
  function Killed(s: Snapshot, traps: seq<Pos>): bool
  {
    ExplorerIsKilled(s.explorer, s.mw, s.mr, s.sw, s.sr, traps)
  }

  /** The merges never change whether the explorer is caught. */
  lemma MergeCellsKeepsKilled(s: Snapshot, traps: seq<Pos>)
    ensures Killed(MergeCells(s), traps) == Killed(s, traps)
  {
    MergeCellsKeepsOccupancy(s);
    KilledIsOccupied(s, traps);
    KilledIsOccupied(MergeCells(s), traps);
  }

  lemma KilledIsOccupied(s: Snapshot, traps: seq<Pos>)
    ensures Killed(s, traps) <==> s.explorer in traps || s.explorer in Occupancy(s)
  {
  }

  /** What a list that kept some of its entries still satisfies. */
  lemma KeptList<S>(m: Maze, x: seq<Enemy>, sx: seq<S>, px: seq<Pos>, k: seq<nat>,
                    x': seq<Enemy>, sx': seq<S>, px': seq<Pos>)
    requires Shrunk(x, sx, px, k, x', sx', px') && px == Positions(x)
    ensures Positions(x') == px' && |sx'| == |x'|
    ensures InGrid(m, x) ==> InGrid(m, x')
    ensures NoDuplicates(x) ==> NoDuplicates(x')
    ensures forall e :: e in x' ==> e in x
  {
    PositionsPick(x, k);
    PickKeepsNoDuplicates(x, k);
  }

  /** The four enemy lists of a level in play (`mw_char`, `mr_char`,
      `sw_char`, `sr_char`) and the sprite record lists that go with them
      (`list_mw` and so on). */
  datatype Lists = Lists(mw: seq<Enemy>, mr: seq<Enemy>, sw: seq<Enemy>, sr: seq<Enemy>,
                         mwSprites: seq<Sprite>, mrSprites: seq<Sprite>,
                         swSprites: seq<Sprite>, srSprites: seq<Sprite>)

  /** The lists hold distinct enemies, all inside the grid, each list as
      long as its sprite records. */
  ghost predicate ListsOk(m: Maze, l: Lists)
    reads l.mw, l.mr, l.sw, l.sr
  {
    Separate(l.mw, l.mr, l.sw, l.sr) &&
    InGrid(m, l.mw) && InGrid(m, l.mr) && InGrid(m, l.sw) && InGrid(m, l.sr) &&
    |l.mwSprites| == |l.mw| && |l.mrSprites| == |l.mr| && |l.swSprites| == |l.sw| && |l.srSprites| == |l.sr|
  }

  /** Every enemy of l' is in the same list of l. */
  predicate Within(l': Lists, l: Lists)
  {
    (forall e :: e in l'.mw ==> e in l.mw) && (forall e :: e in l'.mr ==> e in l.mr) &&
    (forall e :: e in l'.sw ==> e in l.sw) && (forall e :: e in l'.sr ==> e in l.sr)
  }

  /** Every enemy of the lists l is one of r. */
  predicate Among(l: Lists, r: set<Enemy>)
  {
    (forall e :: e in l.mw ==> e in r) && (forall e :: e in l.mr ==> e in r) &&
    (forall e :: e in l.sw ==> e in r) && (forall e :: e in l.sr ==> e in r)
  }

  lemma AmongWithin(l': Lists, l: Lists, r: set<Enemy>)
    requires Within(l', l) && Among(l, r)
    ensures Among(l', r)
  {
  }

  /** The enemies of the lists l. */
  function Members(l: Lists): (r: set<Enemy>)
    ensures Among(l, r)
    ensures forall e :: e in r ==> e in l.mw || e in l.mr || e in l.sw || e in l.sr
  {
    (set e | e in l.mw) + (set e | e in l.mr) + (set e | e in l.sw) + (set e | e in l.sr)
  }

  /** Lists l' that keep some entries of each list of l, in order, still
      satisfy ListsOk, and their cells are the kept cells. */
  lemma KeptLists(m: Maze, l: Lists, l': Lists, pa': seq<Pos>, pb': seq<Pos>, pc': seq<Pos>, pd': seq<Pos>,
                  ka: seq<nat>, kb: seq<nat>, kc: seq<nat>, kd: seq<nat>)
    requires ListsOk(m, l)
    requires Shrunk(l.mw, l.mwSprites, Positions(l.mw), ka, l'.mw, l'.mwSprites, pa')
    requires Shrunk(l.mr, l.mrSprites, Positions(l.mr), kb, l'.mr, l'.mrSprites, pb')
    requires Shrunk(l.sw, l.swSprites, Positions(l.sw), kc, l'.sw, l'.swSprites, pc')
    requires Shrunk(l.sr, l.srSprites, Positions(l.sr), kd, l'.sr, l'.srSprites, pd')
    ensures ListsOk(m, l') && Within(l', l)
    ensures Positions(l'.mw) == pa' && Positions(l'.mr) == pb' && Positions(l'.sw) == pc' && Positions(l'.sr) == pd'
  {
    KeptList(m, l.mw, l.mwSprites, Positions(l.mw), ka, l'.mw, l'.mwSprites, pa');
    KeptList(m, l.mr, l.mrSprites, Positions(l.mr), kb, l'.mr, l'.mrSprites, pb');
    KeptList(m, l.sw, l.swSprites, Positions(l.sw), kc, l'.sw, l'.swSprites, pc');
    KeptList(m, l.sr, l.srSprites, Positions(l.sr), kd, l'.sr, l'.srSprites, pd');
    SeparateShrinks(l.mw, l.mr, l.sw, l.sr, l'.mw, l'.mr, l'.sw, l'.sr);
  }

  /** The merges of a half round on lists l whose cells are those of s:
      the lists keep the entries KeptOf(s) names, and their cells are
      those of MergeCells(s). */
  method MergeLists(m: Maze, l: Lists, ghost s: Snapshot) returns (l': Lists)
    requires ListsOk(m, l)
    requires s.mw == Positions(l.mw) && s.mr == Positions(l.mr) && s.sw == Positions(l.sw) && s.sr == Positions(l.sr)
    ensures ListsOk(m, l') && Within(l', l)
    ensures Fits(l, KeptOf(s)) && l' == Keep(l, KeptOf(s))
    ensures Positions(l'.mw) == MergeCells(s).mw && Positions(l'.mr) == MergeCells(s).mr
    ensures Positions(l'.sw) == MergeCells(s).sw && Positions(l'.sr) == MergeCells(s).sr
  {
    var a, b, c, d, sa, sb, sc, sd, pa', pb', pc', pd', ka, kb, kc, kd :=
      MergeRound(l.mw, l.mr, l.sw, l.sr, l.mwSprites, l.mrSprites, l.swSprites, l.srSprites,
                 Positions(l.mw), Positions(l.mr), Positions(l.sw), Positions(l.sr));
    l' := Lists(a, b, c, d, sa, sb, sc, sd);
    KeptLists(m, l, l', pa', pb', pc', pd', ka, kb, kc, kd);
  }

  /** The snapshot a level starts from: the saved one, with a list's
      layout cells kept when the save lists a different number of enemies;
      otherwise the layout's, with the gate closed when the level has one. */
  function InitialSnapshot(layoutStart: Pos, gatePosition: Option<Pos>, mwCells: seq<Pos>, mrCells: seq<Pos>,
                           swCells: seq<Pos>, srCells: seq<Pos>, saved: Option<Snapshot>): Snapshot
  {
    if saved.Some? then
      Snapshot(saved.value.explorer, saved.value.gateClosed,
               UsePositions(mwCells, Some(saved.value.mw)), UsePositions(mrCells, Some(saved.value.mr)),
               UsePositions(swCells, Some(saved.value.sw)), UsePositions(srCells, Some(saved.value.sr)))
    else Snapshot(layoutStart, gatePosition.Some?, mwCells, mrCells, swCells, srCells)
  }

  // ---------------------------------------------------------------------
  // The enemies' round (update_enemy_position) on values

  /** The lists l keep the entries k names (and their sprite records). */
  predicate Fits(l: Lists, k: Kept)
  {
    |l.mwSprites| == |l.mw| && |l.mrSprites| == |l.mr| && |l.swSprites| == |l.sw| && |l.srSprites| == |l.sr| &&
    Indices(k.mw, |l.mw|) && Indices(k.mr, |l.mr|) && Indices(k.sw, |l.sw|) && Indices(k.sr, |l.sr|)
  }

  function Keep(l: Lists, k: Kept): Lists
    requires Fits(l, k)
  {
    Lists(Pick(l.mw, k.mw), Pick(l.mr, k.mr), Pick(l.sw, k.sw), Pick(l.sr, k.sr),
          Pick(l.mwSprites, k.mw), Pick(l.mrSprites, k.mr), Pick(l.swSprites, k.sw), Pick(l.srSprites, k.sr))
  }

  /** A half round from s to s' (main.py:417-444 with all four lists,
      main.py:468-481 with the mummies only): each list that moves steps or
      stays, entry by entry, against the gate as the lists before it left
      it, and then every member is tested against the key; the explorer
      and the lists that do not move stay. */
  predicate HalfRound(m: Maze, key: Option<Pos>, s: Snapshot, s': Snapshot, scorpions: bool)
  {
    var g1 := ToggleAll(s.gateClosed, key, s'.mw);
    var g2 := ToggleAll(g1, key, s'.mr);
    var g3 := if scorpions then ToggleAll(g2, key, s'.sw) else g2;
    var g4 := if scorpions then ToggleAll(g3, key, s'.sr) else g3;
    s'.explorer == s.explorer &&
    Steps(m, s.gateClosed, s.mw, s'.mw) && Steps(m, g1, s.mr, s'.mr) &&
    (if scorpions then Steps(m, g2, s.sw, s'.sw) && Steps(m, g3, s.sr, s'.sr)
     else s'.sw == s.sw && s'.sr == s.sr) &&
    s'.gateClosed == g4
  }

  /** Both half rounds of `update_enemy_position` from s0 (the state after
      the explorer's key test), the first ending in h1 and the second in
      h2: a capture test after each half round ends the round with LOSE,
      otherwise the merges follow; the round ends in s' with the status. */
  predicate HalfRounds(m: Maze, key: Option<Pos>, traps: seq<Pos>, s0: Snapshot, h1: Snapshot, h2: Snapshot,
                       s': Snapshot, status: Status)
  {
    HalfRound(m, key, s0, h1, true) &&
    if Killed(h1, traps) then s' == h1 && status == Lose
    else
      HalfRound(m, key, MergeCells(h1), h2, false) &&
      if Killed(h2, traps) then s' == h2 && status == Lose
      else
        s' == MergeCells(h2) &&
        ExplorerCell(m, s'.explorer) && |m| % 2 == 1 && |m[0]| % 2 == 1 &&
        status == (if AtStair(m, s'.explorer) then Win else Playing)
  }

  /** `update_enemy_position` from s: the explorer's key test, a capture
      test that ends the round before any enemy moves, then the half
      rounds. */
  predicate EnemyRound(m: Maze, key: Option<Pos>, traps: seq<Pos>, s: Snapshot, h1: Snapshot, h2: Snapshot,
                       s': Snapshot, status: Status)
  {
    var s0 := s.(gateClosed := KeyToggle(s.gateClosed, key, s.explorer));
    if Killed(s, traps) then s' == s0 && status == Lose
    else HalfRounds(m, key, traps, s0, h1, h2, s', status)
  }

  /** The enemy lists after the half rounds ending in h1 and h2: the merges
      of each half round after which the explorer was not caught. */
  function ListsAfter(l: Lists, traps: seq<Pos>, h1: Snapshot, h2: Snapshot): Lists
  {
    if Killed(h1, traps) || !Fits(l, KeptOf(h1)) then l
    else
      var l1 := Keep(l, KeptOf(h1));
      if Killed(h2, traps) || !Fits(l1, KeptOf(h2)) then l1 else Keep(l1, KeptOf(h2))
  }

  /** The two ways EnemyRound can go: caught before anyone moves, or both
      half rounds from the state the key test leaves. */
  lemma CaughtAtStart(m: Maze, key: Option<Pos>, traps: seq<Pos>, s: Snapshot)
    requires Killed(s, traps)
    ensures var s0 := s.(gateClosed := KeyToggle(s.gateClosed, key, s.explorer));
      EnemyRound(m, key, traps, s, s0, s0, s0, Lose)
  {
  }

  lemma FreeAtStart(m: Maze, key: Option<Pos>, traps: seq<Pos>, s: Snapshot, h1: Snapshot, h2: Snapshot,
                    s': Snapshot, status: Status)
    requires !Killed(s, traps)
    requires HalfRounds(m, key, traps, s.(gateClosed := KeyToggle(s.gateClosed, key, s.explorer)), h1, h2, s', status)
    ensures EnemyRound(m, key, traps, s, h1, h2, s', status)
  {
  }

  /** The three ways HalfRounds can end, each with the lists it leaves. */
  lemma LostAfterFirst(m: Maze, key: Option<Pos>, traps: seq<Pos>, s0: Snapshot, h1: Snapshot, l: Lists)
    requires HalfRound(m, key, s0, h1, true) && Killed(h1, traps)
    ensures HalfRounds(m, key, traps, s0, h1, h1, h1, Lose) && ListsAfter(l, traps, h1, h1) == l
  {
  }

  lemma LostAfterSecond(m: Maze, key: Option<Pos>, traps: seq<Pos>, s0: Snapshot, h1: Snapshot, h2: Snapshot, l: Lists)
    requires HalfRound(m, key, s0, h1, true) && !Killed(h1, traps) && Fits(l, KeptOf(h1))
    requires HalfRound(m, key, MergeCells(h1), h2, false) && Killed(h2, traps)
    ensures HalfRounds(m, key, traps, s0, h1, h2, h2, Lose) && ListsAfter(l, traps, h1, h2) == Keep(l, KeptOf(h1))
  {
  }

  lemma SurvivedBoth(m: Maze, key: Option<Pos>, traps: seq<Pos>, s0: Snapshot, h1: Snapshot, h2: Snapshot, l: Lists,
                     status: Status)
    requires HalfRound(m, key, s0, h1, true) && !Killed(h1, traps) && Fits(l, KeptOf(h1))
    requires HalfRound(m, key, MergeCells(h1), h2, false) && !Killed(h2, traps)
    requires Fits(Keep(l, KeptOf(h1)), KeptOf(h2))
    requires ExplorerCell(m, h2.explorer) && |m| % 2 == 1 && |m[0]| % 2 == 1
    requires status == (if AtStair(m, h2.explorer) then Win else Playing)
    ensures HalfRounds(m, key, traps, s0, h1, h2, MergeCells(h2), status)
    ensures ListsAfter(l, traps, h1, h2) == Keep(Keep(l, KeptOf(h1)), KeptOf(h2))
  {
  }

  /** What a round promises: the explorer never moves; LOSE exactly when
      the explorer ends on a trap or an enemy; an explorer caught before the
      round loses with only its own key test done; every enemy cell at the
      end of a round that is not lost is held by an enemy at the end of
      the second half round. */
  lemma EnemyRoundOutcome(m: Maze, key: Option<Pos>, traps: seq<Pos>, s: Snapshot, h1: Snapshot, h2: Snapshot,
                          s': Snapshot, status: Status)
    requires EnemyRound(m, key, traps, s, h1, h2, s', status)
    ensures s'.explorer == s.explorer
    ensures status == Lose <==> Killed(s', traps)
    ensures Killed(s, traps) ==> status == Lose && s' == s.(gateClosed := KeyToggle(s.gateClosed, key, s.explorer))
    ensures status != Lose ==> Occupancy(s') == Occupancy(h2)
  {
    if !Killed(s, traps) && !Killed(h1, traps) {
      MergeCellsKeepsKilled(h2, traps);
      MergeCellsKeepsOccupancy(h2);
    }
  }
}
