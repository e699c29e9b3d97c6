/** Reading a level: the scan of the maze rows for the stair, key, gate and
    traps, the agent lines of the object file, the level file list for a
    difficulty in play order, and the score each music track unlocks at. */
module Levels {
  import opened Wrappers
  import opened Text
  import opened Sorting
  import C = Characters

  type Pos = C.Pos

  // ---------------------------------------------------------------------
  // The maze file

  /** The rows used when the maze file is missing: 13 rows of 13 walls. */
  const MISSING_MAZE_SIDE: nat := 13

  predicate NotNewline(c: char)
  {
    c != '\n'
  }

  /** A maze row: the file line with its newline characters dropped. */
  function RowOfLine(line: string): (row: seq<char>)
    ensures forall k :: 0 <= k < |row| ==> row[k] != '\n'
  {
    Filter(line, NotNewline)
  }

  /** Row-major positions (i, j), j < n, of the cells of row i holding c. */
  function RowCells(row: seq<char>, i: int, c: char, n: nat): seq<Pos>
    requires n <= |row|
  {
    if n == 0 then [] else RowCells(row, i, c, n - 1) + (if row[n - 1] == c then [(i, n - 1)] else [])
  }

  /** Every row-major position of the rows of m holding c, in scan order. */
  function CellsOf(m: seq<seq<char>>, c: char): seq<Pos>
  {
    if m == [] then []
    else
      var i := |m| - 1;
      CellsOf(m[..i], c) + RowCells(m[i], i, c, |m[i]|)
  }

  /** The cells holding c scanned so far: rows before i, then row i up to column j. */
  function ScannedCells(m: seq<seq<char>>, c: char, i: nat, j: nat): seq<Pos>
    requires i < |m| && j <= |m[i]|
  {
    CellsOf(m[..i], c) + RowCells(m[i], i, c, j)
  }

  function LastOf(ps: seq<Pos>): (r: Option<Pos>)
    ensures r.None? <==> ps == []
    ensures r.Some? ==> r.value == ps[|ps| - 1]
  {
    if ps == [] then None else Some(ps[|ps| - 1])
  }

  /** What the scan of a maze finds: the last stair, key and gate cells met
      (None for the empty tuple) and every trap cell. */
  datatype Scan = Scan(stair: Option<Pos>, key: Option<Pos>, gate: Option<Pos>, traps: seq<Pos>)

  function ScanOf(m: seq<seq<char>>): Scan
  {
    Scan(LastOf(CellsOf(m, 'S')), LastOf(CellsOf(m, 'K')), LastOf(CellsOf(m, 'G')), CellsOf(m, 'T'))
  }

  /** The rows of the maze file, one per line, or the all-wall square when
      the file is missing. */
  method ReadMaze(file: Option<seq<string>>) returns (m: seq<seq<char>>)
    ensures file.None? ==> |m| == MISSING_MAZE_SIDE &&
                           forall i :: 0 <= i < |m| ==> m[i] == seq(MISSING_MAZE_SIDE, _ => C.WALL)
    ensures file.Some? ==> |m| == |file.value| && forall i :: 0 <= i < |m| ==> m[i] == RowOfLine(file.value[i])
  {
    if file.None? {
      m := seq(MISSING_MAZE_SIDE, _ => seq(MISSING_MAZE_SIDE, _ => C.WALL));
      return;
    }
    var lines := file.value;
    m := [];
    for i := 0 to |lines|
      invariant |m| == i && forall k :: 0 <= k < i ==> m[k] == RowOfLine(lines[k])
    {
      m := m + [RowOfLine(lines[i])];
    }
  }

  lemma ScannedStep(m: seq<seq<char>>, c: char, i: nat, j: nat)
    requires i < |m| && j < |m[i]|
    ensures ScannedCells(m, c, i, j + 1) == ScannedCells(m, c, i, j) + (if m[i][j] == c then [(i, j)] else [])
  {
  }

  lemma LastOfAppend(ps: seq<Pos>, extra: seq<Pos>)
    requires |extra| <= 1
    ensures LastOf(ps + extra) == if extra == [] then LastOf(ps) else Some(extra[0])
  {
    if extra == [] {
      assert ps + extra == ps;
    }
  }

  lemma ScannedRow(m: seq<seq<char>>, c: char, i: nat)
    requires i < |m|
    ensures ScannedCells(m, c, i, |m[i]|) == CellsOf(m[..i + 1], c)
    ensures ScannedCells(m, c, i, 0) == CellsOf(m[..i], c)
  {
    assert m[..i + 1][..i] == m[..i];
  }

  /** The nested scan of get_input_maze over the rows as they are (rows may
      differ in length). */
  method ScanMaze(m: seq<seq<char>>) returns (r: Scan)
    ensures r == ScanOf(m)
  {
    var stair: Option<Pos>, key: Option<Pos>, gate: Option<Pos>, traps: seq<Pos> := None, None, None, [];
    for i := 0 to |m|
      invariant stair == LastOf(CellsOf(m[..i], 'S')) && key == LastOf(CellsOf(m[..i], 'K'))
      invariant gate == LastOf(CellsOf(m[..i], 'G')) && traps == CellsOf(m[..i], 'T')
    {
      ScannedRow(m, 'S', i);
      ScannedRow(m, 'K', i);
      ScannedRow(m, 'G', i);
      ScannedRow(m, 'T', i);
      for j := 0 to |m[i]|
        invariant stair == LastOf(ScannedCells(m, 'S', i, j)) && key == LastOf(ScannedCells(m, 'K', i, j))
        invariant gate == LastOf(ScannedCells(m, 'G', i, j)) && traps == ScannedCells(m, 'T', i, j)
      {
        ScannedStep(m, 'S', i, j);
        ScannedStep(m, 'K', i, j);
        ScannedStep(m, 'G', i, j);
        ScannedStep(m, 'T', i, j);
        LastOfAppend(ScannedCells(m, 'S', i, j), if m[i][j] == 'S' then [(i, j)] else []);
        LastOfAppend(ScannedCells(m, 'K', i, j), if m[i][j] == 'K' then [(i, j)] else []);
        LastOfAppend(ScannedCells(m, 'G', i, j), if m[i][j] == 'G' then [(i, j)] else []);
        if m[i][j] == 'S' { stair := Some((i, j)); }
        if m[i][j] == 'T' { traps := traps + [(i, j)]; }
        if m[i][j] == 'K' { key := Some((i, j)); }
        if m[i][j] == 'G' { gate := Some((i, j)); }
      }
    }
    assert m[..|m|] == m;
    r := Scan(stair, key, gate, traps);
  }

  /** get_input_maze: read the rows, then scan them. */
  method GetInputMaze(file: Option<seq<string>>) returns (m: seq<seq<char>>, r: Scan)
    ensures file.Some? ==> |m| == |file.value| && forall i :: 0 <= i < |m| ==> m[i] == RowOfLine(file.value[i])
    ensures r == ScanOf(m)
    ensures file.None? ==> r == Scan(None, None, None, [])
  {
    m := ReadMaze(file);
    r := ScanMaze(m);
    if file.None? {
      NoCellsInWalls(m, 'S');
      NoCellsInWalls(m, 'K');
      NoCellsInWalls(m, 'G');
      NoCellsInWalls(m, 'T');
    }
  }

  predicate HoldsAt(m: seq<seq<char>>, p: Pos, c: char)
  {
    0 <= p.0 < |m| && 0 <= p.1 < |m[p.0]| && m[p.0][p.1] == c
  }

  lemma {:induction false} RowCellsExact(row: seq<char>, i: int, c: char, n: nat, p: Pos)
    requires n <= |row|
    ensures p in RowCells(row, i, c, n) <==> p.0 == i && 0 <= p.1 < n && row[p.1] == c
  {
    if n > 0 {
      RowCellsExact(row, i, c, n - 1, p);
    }
  }

  /** The scan lists exactly the cells holding c. */
  lemma {:induction false} CellsOfExact(m: seq<seq<char>>, c: char, p: Pos)
    ensures p in CellsOf(m, c) <==> HoldsAt(m, p, c)
    decreases |m|
  {
    if m != [] {
      var i := |m| - 1;
      CellsOfExact(m[..i], c, p);
      RowCellsExact(m[i], i, c, |m[i]|, p);
      if 0 <= p.0 < i {
        assert m[..i][p.0] == m[p.0];
      }
    }
  }

  /** The scan lists the cells in row-major order, each once. */
  lemma {:induction false} CellsOfInScanOrder(m: seq<seq<char>>, c: char)
    ensures forall k, l :: 0 <= k < l < |CellsOf(m, c)| ==> C.Before(CellsOf(m, c)[k], CellsOf(m, c)[l])
    decreases |m|
  {
    if m != [] {
      var i := |m| - 1;
      CellsOfInScanOrder(m[..i], c);
      CellsOfRows(m[..i], c);
      RowCellsInRow(m[i], i, c, |m[i]|);
    }
  }

  lemma {:induction false} RowCellsInRow(row: seq<char>, i: int, c: char, n: nat)
    requires n <= |row|
    ensures forall k :: 0 <= k < |RowCells(row, i, c, n)| ==> RowCells(row, i, c, n)[k].0 == i
    ensures forall k :: 0 <= k < |RowCells(row, i, c, n)| ==> RowCells(row, i, c, n)[k].1 < n
    ensures forall k, l :: 0 <= k < l < |RowCells(row, i, c, n)| ==>
              RowCells(row, i, c, n)[k].1 < RowCells(row, i, c, n)[l].1
  {
    if n > 0 {
      RowCellsInRow(row, i, c, n - 1);
    }
  }

  lemma {:induction false} CellsOfRows(m: seq<seq<char>>, c: char)
    ensures forall k :: 0 <= k < |CellsOf(m, c)| ==> CellsOf(m, c)[k].0 < |m|
    decreases |m|
  {
    if m != [] {
      var i := |m| - 1;
      CellsOfRows(m[..i], c);
      RowCellsInRow(m[i], i, c, |m[i]|);
    }
  }

  lemma NoCellsInWalls(m: seq<seq<char>>, c: char)
    requires c != C.WALL && forall i :: 0 <= i < |m| ==> m[i] == seq(MISSING_MAZE_SIDE, _ => C.WALL)
    ensures CellsOf(m, c) == []
  {
    if CellsOf(m, c) != [] {
      var p := CellsOf(m, c)[0];
      CellsOfExact(m, c, p);
    }
  }

  /** The stair (likewise key and gate) the scan keeps holds that tile and no
      cell after it in scan order does; it is None iff the tile is absent. */
  lemma LastCellIsLast(m: seq<seq<char>>, c: char)
    ensures LastOf(CellsOf(m, c)).None? <==> forall p :: !HoldsAt(m, p, c)
    ensures LastOf(CellsOf(m, c)).Some? ==>
              var p := LastOf(CellsOf(m, c)).value;
              HoldsAt(m, p, c) && forall q :: HoldsAt(m, q, c) ==> q == p || C.Before(q, p)
  {
    var ps := CellsOf(m, c);
    CellsOfInScanOrder(m, c);
    forall p
      ensures p in ps <==> HoldsAt(m, p, c)
    {
      CellsOfExact(m, c, p);
    }
    if ps != [] {
      assert HoldsAt(m, ps[0], c);
      var p := ps[|ps| - 1];
      forall q | HoldsAt(m, q, c)
        ensures q == p || C.Before(q, p)
      {
        var k :| 0 <= k < |ps| && ps[k] == q;
        if k < |ps| - 1 {
          assert C.Before(ps[k], ps[|ps| - 1]);
        }
      }
    }
  }

  // ---------------------------------------------------------------------
  // The object file

  /** The agents a level starts with, as read from its object file. */
  datatype Objects = Objects(explorer: Pos, mw: seq<Pos>, mr: seq<Pos>, sw: seq<Pos>, sr: seq<Pos>)

  /** An agent line whose coordinates are missing or not integers stops the
      load with an exception (IndexError or ValueError); `line` is its index. */
  datatype LineError = MissingField(line: nat) | NotAnInteger(line: nat)

  /** The explorer's cell when the file does not place it. */
  const DEFAULT_EXPLORER: Pos := (2, 2)

  const NO_OBJECTS: Objects := Objects(DEFAULT_EXPLORER, [], [], [], [])

  predicate IsAgentTag(t: string)
  {
    t == "E" || t == "MW" || t == "MR" || t == "SW" || t == "SR"
  }

  /** `int(x[1]), int(x[2])`, in Python's evaluation order. */
  function Coords(x: seq<string>, n: nat): Result<Pos, LineError>
  {
    if |x| < 2 then Failure(MissingField(n))
    else if ParseInt(x[1]).None? then Failure(NotAnInteger(n))
    else if |x| < 3 then Failure(MissingField(n))
    else if ParseInt(x[2]).None? then Failure(NotAnInteger(n))
    else Success((ParseInt(x[1]).value, ParseInt(x[2]).value))
  }

  /** The first word of the line is t. */
  predicate HasTag(line: string, t: string)
  {
    var x := Split(line);
    |x| > 0 && x[0] == t
  }

  /** An agent line the load stops at. */
  predicate BadLine(line: string)
  {
    var x := Split(line);
    |x| > 0 && IsAgentTag(x[0]) && Coords(x, 0).Failure?
  }

  /** The cell an agent line places its agent on ((0, 0) for a line that
      does not give one, which the load never gets past). */
  function AgentCell(line: string): Pos
  {
    match Coords(Split(line), 0)
    case Success(p) => p
    case Failure(_) => (0, 0)
  }

  /** One line of the object file: blank lines and unknown tags are skipped. */
  function ParseLine(o: Objects, line: string, n: nat): Result<Objects, LineError>
  {
    var x := Split(line);
    if x == [] || !IsAgentTag(x[0]) then Success(o)
    else match Coords(x, n)
      case Failure(e) => Failure(e)
      case Success(p) =>
        Success(if x[0] == "E" then o.(explorer := p)
                else if x[0] == "MW" then o.(mw := o.mw + [p])
                else if x[0] == "MR" then o.(mr := o.mr + [p])
                else if x[0] == "SW" then o.(sw := o.sw + [p])
                else o.(sr := o.sr + [p]))
  }

  /** The agents after reading the given lines in order. */
  function ObjectsOf(lines: seq<string>): Result<Objects, LineError>
  {
    if lines == [] then Success(NO_OBJECTS)
    else match ObjectsOf(lines[..|lines| - 1])
      case Failure(e) => Failure(e)
      case Success(o) => ParseLine(o, lines[|lines| - 1], |lines| - 1)
  }

  /** get_input_object: the line loop; a missing file places only the explorer's default. */
  method GetInputObject(file: Option<seq<string>>) returns (r: Result<Objects, LineError>)
    ensures r == (if file.None? then Success(NO_OBJECTS) else ObjectsOf(file.value))
  {
    if file.None? {
      return Success(NO_OBJECTS);
    }
    var lines := file.value;
    var o := NO_OBJECTS;
    for i := 0 to |lines|
      invariant ObjectsOf(lines[..i]) == Success(o)
    {
      assert lines[..i + 1][..i] == lines[..i];
      var step := ParseLine(o, lines[i], i);
      if step.Failure? {
        FailureStays(lines, i + 1);
        return step;
      }
      o := step.value;
    }
    assert lines[..|lines|] == lines;
    r := Success(o);
  }

  /** The load fails iff some line is a bad agent line, and then it names the first. */
  lemma {:induction false} ObjectsFailIff(lines: seq<string>)
    ensures ObjectsOf(lines).Failure? <==> exists i :: 0 <= i < |lines| && BadLine(lines[i])
    ensures ObjectsOf(lines).Failure? ==>
              var n := ObjectsOf(lines).error.line;
              n < |lines| && BadLine(lines[n]) && forall i :: 0 <= i < n ==> !BadLine(lines[i])
    decreases |lines|
  {
    if lines != [] {
      var p := lines[..|lines| - 1];
      ObjectsFailIff(p);
      assert forall i :: 0 <= i < |p| ==> p[i] == lines[i];
      var last := lines[|lines| - 1];
      if ObjectsOf(p).Success? {
        ParseLineFailure(ObjectsOf(p).value, last, |lines| - 1);
        assert ObjectsOf(lines) == ParseLine(ObjectsOf(p).value, last, |lines| - 1);
      } else {
        assert ObjectsOf(lines) == ObjectsOf(p);
      }
    }
  }

  /** One line fails exactly when it is a bad agent line, and the error names its number. */
  lemma ParseLineFailure(o: Objects, line: string, n: nat)
    ensures ParseLine(o, line, n).Failure? <==> BadLine(line)
    ensures ParseLine(o, line, n).Failure? ==> ParseLine(o, line, n).error.line == n
  {
    var x := Split(line);
    if x != [] && IsAgentTag(x[0]) {
      assert Coords(x, n).Failure? <==> Coords(x, 0).Failure?;
    }
  }

  /** The agent lines carrying the tag t, in file order. */
  function TaggedLines(lines: seq<string>, t: string): seq<string>
  {
    Filter(lines, l => HasTag(l, t))
  }

  /** A load that failed on a prefix of the file fails the same way on the whole file. */
  lemma {:induction false} FailureStays(lines: seq<string>, i: nat)
    requires i <= |lines| && ObjectsOf(lines[..i]).Failure?
    ensures ObjectsOf(lines) == ObjectsOf(lines[..i])
    decreases |lines| - i
  {
    if i < |lines| {
      assert lines[..i + 1][..i] == lines[..i];
      FailureStays(lines, i + 1);
    } else {
      assert lines[..i] == lines;
    }
  }

  /** The enemy list of o the tag t fills. */
  function EnemyList(o: Objects, t: string): seq<Pos>
  {
    if t == "MW" then o.mw else if t == "MR" then o.mr else if t == "SW" then o.sw else o.sr
  }

  predicate IsEnemyTag(t: string)
  {
    t == "MW" || t == "MR" || t == "SW" || t == "SR"
  }

  /** The cells the given agent lines name, in order. */
  function LineCells(ls: seq<string>): (ps: seq<Pos>)
    ensures |ps| == |ls| && forall k :: 0 <= k < |ls| ==> ps[k] == AgentCell(ls[k])
  {
    seq(|ls|, k requires 0 <= k < |ls| => AgentCell(ls[k]))
  }

  lemma ParseLineEnemies(o: Objects, line: string, n: nat, t: string)
    requires IsEnemyTag(t) && ParseLine(o, line, n).Success?
    ensures EnemyList(ParseLine(o, line, n).value, t) ==
            EnemyList(o, t) + (if HasTag(line, t) then [AgentCell(line)] else [])
  {
    var x := Split(line);
    if x != [] && IsAgentTag(x[0]) {
      assert Coords(x, n).Success? && Coords(x, n).value == Coords(x, 0).value;
    }
  }

  lemma ParseLineExplorer(o: Objects, line: string, n: nat)
    requires ParseLine(o, line, n).Success?
    ensures ParseLine(o, line, n).value.explorer == if HasTag(line, "E") then AgentCell(line) else o.explorer
  {
    var x := Split(line);
    if x != [] && IsAgentTag(x[0]) {
      assert Coords(x, n).Success? && Coords(x, n).value == Coords(x, 0).value;
    }
  }

  /** Each enemy list holds, in file order, the cells of the lines of its tag. */
  lemma {:induction false} EnemiesInFileOrder(lines: seq<string>, t: string)
    requires IsEnemyTag(t) && ObjectsOf(lines).Success?
    ensures EnemyList(ObjectsOf(lines).value, t) == LineCells(TaggedLines(lines, t))
    decreases |lines|
  {
    if lines != [] {
      var p := lines[..|lines| - 1];
      var last := lines[|lines| - 1];
      assert lines == p + [last];
      var o := ObjectsOf(p).value;
      assert ObjectsOf(lines) == ParseLine(o, last, |lines| - 1);
      EnemiesInFileOrder(p, t);
      ParseLineEnemies(o, last, |lines| - 1, t);
      FilterSnoc(p, last, l => HasTag(l, t));
      LineCellsSnoc(TaggedLines(p, t), last, HasTag(last, t));
    }
  }

  lemma LineCellsSnoc(ls: seq<string>, l: string, keep: bool)
    ensures LineCells(ls + (if keep then [l] else [])) == LineCells(ls) + (if keep then [AgentCell(l)] else [])
  {
    if !keep {
      assert ls + [] == ls;
    }
  }

  /** The explorer stands on the cell of the last E line, or on the default
      cell when there is none. */
  lemma {:induction false} ExplorerFromLastLine(lines: seq<string>)
    requires ObjectsOf(lines).Success?
    ensures var es := TaggedLines(lines, "E");
            ObjectsOf(lines).value.explorer == if es == [] then DEFAULT_EXPLORER else AgentCell(es[|es| - 1])
    decreases |lines|
  {
    if lines != [] {
      var p := lines[..|lines| - 1];
      var last := lines[|lines| - 1];
      assert lines == p + [last];
      var o := ObjectsOf(p).value;
      assert ObjectsOf(lines) == ParseLine(o, last, |lines| - 1);
      ExplorerFromLastLine(p);
      FilterSnoc(p, last, l => HasTag(l, "E"));
      ParseLineExplorer(o, last, |lines| - 1);
    }
  }

  // ---------------------------------------------------------------------
  // The level list

  /** A level file for the hard difficulties: its lower-cased name contains "hard". */
  predicate IsHardMap(f: string)
  {
    Contains(Lower(f), "hard")
  }

  /** Difficulty 1 plays the maps that are not hard, every other difficulty the hard ones. */
  predicate WantedAt(difficulty: int, f: string)
  {
    if difficulty == 1 then !IsHardMap(f) else IsHardMap(f)
  }

  predicate IsTextFile(f: string)
  {
    EndsWith(f, ".txt")
  }

  /** sort_key: the first two digit runs as numbers, (n, 0) for one run, (999, 999) for none. */
  function SortKey(f: string): (int, int)
  {
    var ns := Runs(f, IsDigit);
    if |ns| >= 2 then (DigitsValue(ns[0]), DigitsValue(ns[1]))
    else if |ns| == 1 then (DigitsValue(ns[0]), 0)
    else (999, 999)
  }

  /** Python's order on pairs. */
  predicate KeyLe(a: (int, int), b: (int, int))
  {
    a.0 < b.0 || (a.0 == b.0 && a.1 <= b.1)
  }

  predicate LevelLe(a: string, b: string)
  {
    KeyLe(SortKey(a), SortKey(b))
  }

  lemma LevelLePreorder()
    ensures TotalPreorder(LevelLe)
  {
  }

  predicate NoDigits(s: string)
  {
    forall k :: 0 <= k < |s| ==> !IsDigit(s[k])
  }

  lemma Regroup(a: string, b: string, c: string, d: string, e: string)
    ensures a + b + c + d + e == a + (b + (c + (d + e)))
  {
  }

  /** The first two digit runs of a name give its sort key. */
  lemma SortKeyTwoRuns(pre: string, x: string, mid: string, y: string, post: string)
    requires NoDigits(pre) && mid != [] && NoDigits(mid) && (post == [] || !IsDigit(post[0]))
    requires |x| > 0 && All(x, IsDigit) && |y| > 0 && All(y, IsDigit)
    ensures SortKey(pre + x + mid + y + post) == (DigitsValue(x), DigitsValue(y))
  {
    var tail := y + post;
    var f := pre + x + mid + y + post;
    assert Runs(tail, IsDigit) == [y] + Runs(post, IsDigit) by {
      RunsAppend(y, post, IsDigit);
      RunsOfRun(y, IsDigit);
    }
    assert Runs(mid + tail, IsDigit) == Runs(tail, IsDigit) by {
      RunsSkip(mid, tail, IsDigit);
    }
    assert Runs(x + (mid + tail), IsDigit) == [x] + Runs(mid + tail, IsDigit) by {
      assert (mid + tail)[0] == mid[0];
      RunsAppend(x, mid + tail, IsDigit);
      RunsOfRun(x, IsDigit);
    }
    assert Runs(f, IsDigit) == Runs(x + (mid + tail), IsDigit) by {
      Regroup(pre, x, mid, y, post);
      RunsSkip(pre, x + (mid + tail), IsDigit);
    }
    var ns := Runs(f, IsDigit);
    assert ns[0] == x && ns[1] == y;
  }

  /** A name with two numbers separated by non-digits sorts by those numbers. */
  lemma SortKeyTwoNumbers(pre: string, a: nat, mid: string, b: nat, post: string)
    requires NoDigits(pre) && mid != [] && NoDigits(mid) && (post == [] || !IsDigit(post[0]))
    ensures SortKey(pre + NatToString(a) + mid + NatToString(b) + post) == (a, b)
  {
    SortKeyTwoRuns(pre, NatToString(a), mid, NatToString(b), post);
    DigitsOfNat(a);
    DigitsOfNat(b);
  }

  /** A name with one number sorts by (that number, 0). */
  lemma SortKeyOneNumber(pre: string, a: nat, post: string)
    requires NoDigits(pre) && NoDigits(post)
    ensures SortKey(pre + NatToString(a) + post) == (a, 0)
  {
    var sa := NatToString(a);
    assert pre + sa + post == pre + (sa + post);
    RunsSkip(pre, sa + post, IsDigit);
    RunsAppend(sa, post, IsDigit);
    RunsOfRun(sa, IsDigit);
    RunsSkip(post, [], IsDigit);
    assert post + [] == post;
    DigitsOfNat(a);
  }

  /** A name without digits sorts last, at (999, 999). */
  lemma SortKeyNoNumber(f: string)
    requires NoDigits(f)
    ensures SortKey(f) == (999, 999)
  {
    RunsSkip(f, [], IsDigit);
    assert f + [] == f;
  }

  /** The level files of the listing the difficulty plays, in listing order. */
  function Selected(listing: seq<string>, difficulty: int): seq<string>
  {
    Filter(Filter(listing, IsTextFile), f => WantedAt(difficulty, f))
  }

  /** get_sorted_levels: the level files for the difficulty, ordered by sort
      key; a missing directory gives no levels. */
  method GetSortedLevels(listing: Option<seq<string>>, difficulty: int) returns (levels: seq<string>)
    ensures listing.None? ==> levels == []
    ensures listing.Some? ==> levels == SortBy(Selected(listing.value, difficulty), LevelLe)
    ensures listing.Some? ==> multiset(levels) == multiset(Selected(listing.value, difficulty))
    ensures SortedBy(levels, LevelLe)
    ensures forall f :: f in levels <==>
              listing.Some? && f in listing.value && IsTextFile(f) && WantedAt(difficulty, f)
  {
    if listing.None? {
      return [];
    }
    var all := Filter(listing.value, IsTextFile);
    var filtered := [];
    for i := 0 to |all|
      invariant filtered == Filter(all[..i], f => WantedAt(difficulty, f))
    {
      FilterSnoc(all[..i], all[i], f => WantedAt(difficulty, f));
      assert all[..i + 1] == all[..i] + [all[i]];
      if WantedAt(difficulty, all[i]) {
        filtered := filtered + [all[i]];
      }
    }
    assert all[..|all|] == all;
    levels := SortBy(filtered, LevelLe);
    LevelLePreorder();
    SortBySorted(filtered, LevelLe);
    forall f
      ensures f in levels <==> f in listing.value && IsTextFile(f) && WantedAt(difficulty, f)
    {
      assert f in levels <==> f in multiset(filtered);
      FilterMembers(all, f => WantedAt(difficulty, f), f);
      FilterMembers(listing.value, IsTextFile, f);
    }
  }

  /** Levels with equal sort keys are played in listing order. */
  lemma LevelsStable(listing: seq<string>, difficulty: int, y: string)
    ensures Filter(SortBy(Selected(listing, difficulty), LevelLe), z => Ties(LevelLe, z, y)) ==
            Filter(Selected(listing, difficulty), z => Ties(LevelLe, z, y))
  {
    LevelLePreorder();
    SortByStable(Selected(listing, difficulty), LevelLe, y);
  }

  // ---------------------------------------------------------------------
  // Music unlock thresholds

  /** The track every player has from the start. */
  const SIGNATURE_TRACK: string := "Dentaneosuchus Hunt.mp3"

  /** The score step between successive unlocks. */
  const THRESHOLD_STEP: nat := 200

  predicate IsAudio(f: string)
  {
    var l := Lower(f);
    EndsWith(l, ".mp3") || EndsWith(l, ".wav") || EndsWith(l, ".ogg")
  }

  lemma StrLePreorder()
    ensures TotalPreorder(StrLe)
  {
    forall a, b
      ensures StrLe(a, b) || StrLe(b, a)
    {
      StrLeTotal(a, b);
    }
    forall a, b, c | StrLe(a, b) && StrLe(b, c)
      ensures StrLe(a, c)
    {
      StrLeTrans(a, b, c);
    }
  }

  /** The audio files of the listing in code-point order. */
  function AudioFiles(listing: Option<seq<string>>): seq<string>
  {
    if listing.None? then [] else SortBy(Filter(listing.value, IsAudio), StrLe)
  }

  /** The loop collecting the audio files of the listing. */
  method CollectAudio(names: seq<string>) returns (files: seq<string>)
    ensures files == Filter(names, IsAudio)
  {
    files := [];
    for i := 0 to |names|
      invariant files == Filter(names[..i], IsAudio)
    {
      FilterSnoc(names[..i], names[i], IsAudio);
      assert names[..i + 1] == names[..i] + [names[i]];
      if IsAudio(names[i]) {
        files := files + [names[i]];
      }
    }
    assert names[..|names|] == names;
  }

  /** The k-th track (from 0) paired with the score 200 * (k + 1). */
  function Numbered(tracks: seq<string>): (data: seq<(string, int)>)
    ensures |data| == |tracks|
  {
    seq(|tracks|, k requires 0 <= k < |tracks| => (tracks[k], THRESHOLD_STEP * (k + 1)))
  }

  /** The loop handing out thresholds 200, 400, ... */
  method Thresholds(tracks: seq<string>) returns (data: seq<(string, int)>)
    ensures data == Numbered(tracks)
  {
    data := [];
    var threshold := THRESHOLD_STEP;
    for k := 0 to |tracks|
      invariant |data| == k && threshold == THRESHOLD_STEP * (k + 1)
      invariant forall l :: 0 <= l < k ==> data[l] == (tracks[l], THRESHOLD_STEP * (l + 1))
    {
      data := data + [(tracks[k], threshold)];
      threshold := threshold + THRESHOLD_STEP;
    }
  }

  function Names(data: seq<(string, int)>): (ns: seq<string>)
    ensures |ns| == |data| && forall k :: 0 <= k < |data| ==> ns[k] == data[k].0
  {
    seq(|data|, k requires 0 <= k < |data| => data[k].0)
  }

  /** Later tracks need strictly higher scores. */
  predicate Increasing(data: seq<(string, int)>)
  {
    forall i, j :: 0 <= i < j < |data| ==> data[i].1 < data[j].1
  }

  /** The track list for the sorted audio files: the signature track, when
      present, first and free; the others after it at 200, 400, ... */
  function MusicData(files: seq<string>): seq<(string, int)>
  {
    if SIGNATURE_TRACK in files then [(SIGNATURE_TRACK, 0)] + Numbered(RemoveFirst(files, SIGNATURE_TRACK))
    else Numbered(files)
  }

  /** get_music_files_with_thresholds over a directory listing (None when the
      directory cannot be listed). */
  method MusicFilesWithThresholds(listing: Option<seq<string>>) returns (data: seq<(string, int)>)
    ensures data == MusicData(AudioFiles(listing))
  {
    var files := [];
    if listing.Some? {
      files := CollectAudio(listing.value);
    }
    files := SortBy(files, StrLe);
    if SIGNATURE_TRACK in files {
      var tail := Thresholds(RemoveFirst(files, SIGNATURE_TRACK));
      data := [(SIGNATURE_TRACK, 0)] + tail;
    } else {
      data := Thresholds(files);
    }
  }

  /** Every audio file gets exactly one entry, and scores strictly increase
      down the list, starting at 0 for the signature track and otherwise at 200. */
  lemma MusicDataShape(files: seq<string>)
    ensures multiset(Names(MusicData(files))) == multiset(files)
    ensures Increasing(MusicData(files))
    ensures |files| > 0 ==> MusicData(files)[0].1 == (if SIGNATURE_TRACK in files then 0 else THRESHOLD_STEP)
  {
    var d := MusicData(files);
    if SIGNATURE_TRACK in files {
      var rest := RemoveFirst(files, SIGNATURE_TRACK);
      assert Names(d) == [SIGNATURE_TRACK] + rest;
      assert multiset(files) == multiset(rest) + multiset{SIGNATURE_TRACK};
    } else {
      assert Names(d) == files;
    }
  }

  /** The audio files after the signature track are in code-point order. */
  lemma AudioFilesSorted(listing: Option<seq<string>>)
    ensures SortedBy(AudioFiles(listing), StrLe)
  {
    StrLePreorder();
    if listing.Some? {
      SortBySorted(Filter(listing.value, IsAudio), StrLe);
    }
  }
}
