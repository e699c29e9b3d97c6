/** The console variant of ascii_game.py: a level is loaded with its tiles
    translated to display characters, then each turn tests for the goal and
    for capture, moves the player two cells unless the cell in between blocks,
    and moves every mummy two cells straight at the player, ignoring walls. */
module Ascii {
  import opened Wrappers
  import opened Text
  import opened Sorting

  type Pos = (int, int)

  const CHAR_WALL: char := '\U{2588}'
  const CHAR_FLOOR: char := ' '
  const CHAR_GOAL: char := 'E'
  const CHAR_KEY: char := 'K'
  const CHAR_GATE_CLOSED: char := 'X'

  /** The distance a player or mummy step covers: rooms sit two cells apart. */
  const STEP: int := 2

  // ---------------------------------------------------------------------
  // Loading the maze

  /** The display character of a maze file character. */
  function Tile(c: char): char
  {
    if c == '%' then CHAR_WALL
    else if c == '.' then CHAR_FLOOR
    else if c == 'S' then CHAR_GOAL
    else if c == 'K' then CHAR_KEY
    else if c == 'G' then CHAR_GATE_CLOSED
    else c
  }

  /** t is s with the whitespace before index i and after i + |t| cut off. */
  predicate CutFrom(s: string, t: string, i: int)
  {
    0 <= i <= |s| - |t| && s[i..i + |t|] == t && All(s[..i], IsSpace) && All(s[i + |t|..], IsSpace)
  }

  /** The line without its leading whitespace. */
  function StripLeft(s: string): (t: string)
    ensures |t| <= |s| && CutFrom(s, t, |s| - |t|)
    ensures t == [] || !IsSpace(t[0])
  {
    if s != [] && IsSpace(s[0]) then
      var t := StripLeft(s[1..]);
      assert CutFrom(s, t, |s| - |t|) by {
        assert s[|s| - |t|..] == s[1..][|s| - 1 - |t|..];
        assert forall k :: 0 < k < |s| - |t| ==> s[k] == s[1..][..|s| - 1 - |t|][k - 1];
      }
      t
    else
      assert s[..0] == [] && s[|s|..] == [];
      s
  }

  /** The line without its trailing whitespace. */
  function StripRight(s: string): (t: string)
    ensures |t| <= |s| && CutFrom(s, t, 0)
    ensures t == [] || !IsSpace(t[|t| - 1])
  {
    if s != [] && IsSpace(s[|s| - 1]) then
      var t := StripRight(s[..|s| - 1]);
      assert CutFrom(s, t, 0) by {
        assert s[..|t|] == s[..|s| - 1][..|t|];
        assert forall k :: |t| <= k < |s| - 1 ==> s[k] == s[..|s| - 1][|t|..][k - |t|];
      }
      t
    else
      assert s[..0] == [] && s[|s|..] == [];
      s
  }

  /** Python's str.strip(). */
  function Strip(s: string): string
  {
    StripRight(StripLeft(s))
  }

  /** Cutting twice is cutting once. */
  lemma CutTwice(s: string, l: string, t: string, i: int, j: int)
    requires CutFrom(s, l, i) && CutFrom(l, t, j)
    ensures CutFrom(s, t, i + j)
  {
    forall k | 0 <= k < |t|
      ensures s[i + j + k] == t[k]
    {
      assert s[i + j + k] == s[i..i + |l|][j + k];
    }
    forall k | 0 <= k < i + j
      ensures IsSpace(s[k])
    {
      if k >= i {
        assert s[k] == s[i..i + |l|][k - i] == l[..j][k - i];
      } else {
        assert s[k] == s[..i][k];
      }
    }
    forall k | i + j + |t| <= k < |s|
      ensures IsSpace(s[k])
    {
      if k < i + |l| {
        assert s[k] == s[i..i + |l|][k - i] == l[j + |t|..][k - i - j - |t|];
      } else {
        assert s[k] == s[i + |l|..][k - i - |l|];
      }
    }
  }

  /** The stripped line neither starts nor ends with whitespace. */
  lemma StripEnds(s: string)
    ensures var t := Strip(s);
            t == [] || (!IsSpace(t[0]) && !IsSpace(t[|t| - 1]))
  {
    var l := StripLeft(s);
    var t := StripRight(l);
    if t != [] {
      assert t[0] == l[0];
    }
  }

  /** Stripping cuts whitespace, and only whitespace, off both ends. */
  lemma StripCuts(s: string)
    ensures CutFrom(s, Strip(s), |s| - |StripLeft(s)|)
  {
    var l := StripLeft(s);
    CutTwice(s, l, StripRight(l), |s| - |l|, 0);
  }

  /** A maze row: the stripped line with each character translated. */
  function RowOf(line: string): seq<char>
  {
    var t := Strip(line);
    seq(|t|, k requires 0 <= k < |t| => Tile(t[k]))
  }

  /** The rows load_level builds, one per line of the maze file. */
  function MazeOf(lines: seq<string>): seq<seq<char>>
  {
    seq(|lines|, i requires 0 <= i < |lines| => RowOf(lines[i]))
  }

  /** Walls, goals, closed gates and floors show where the file has their
      letter or, since any other character is kept as it is, their symbol. */
  lemma TileMeaning(c: char)
    ensures Tile(c) == CHAR_WALL <==> c == '%' || c == CHAR_WALL
    ensures Tile(c) == CHAR_GOAL <==> c == 'S' || c == CHAR_GOAL
    ensures Tile(c) == CHAR_GATE_CLOSED <==> c == 'G' || c == CHAR_GATE_CLOSED
    ensures Tile(c) == CHAR_FLOOR <==> c == '.' || c == CHAR_FLOOR
    ensures Tile(c) == CHAR_KEY <==> c == 'K'
  {
  }

  // ---------------------------------------------------------------------
  // Loading the agents

  datatype Agents = Agents(player: Pos, mummies: seq<Pos>)

  const DEFAULT_PLAYER: Pos := (2, 2)

  predicate IsMummyTag(t: string)
  {
    t == "MW" || t == "MR" || t == "SW" || t == "SR"
  }

  /** A line whose first word is tag t. */
  predicate Tagged(line: string, t: string)
  {
    var parts := Split(line);
    |parts| > 0 && parts[0] == t
  }

  predicate IsPlayerLine(line: string)
  {
    Tagged(line, "E")
  }

  predicate IsMummyLine(line: string)
  {
    var parts := Split(line);
    |parts| > 0 && IsMummyTag(parts[0])
  }

  /** A placing line whose second or third word is missing or not an integer:
      int() or the index raises, and the bare except ends the reading. */
  predicate Breaks(line: string)
  {
    var parts := Split(line);
    (IsPlayerLine(line) || IsMummyLine(line)) &&
    (|parts| < 3 || ParseInt(parts[1]).None? || ParseInt(parts[2]).None?)
  }

  /** The cell a placing line gives ((0, 0) for one that breaks). */
  function LineCell(line: string): Pos
  {
    var parts := Split(line);
    if |parts| >= 3 && ParseInt(parts[1]).Some? && ParseInt(parts[2]).Some? then
      (ParseInt(parts[1]).value, ParseInt(parts[2]).value)
    else (0, 0)
  }

  /** The agents after one line that does not break. */
  function AgentStep(a: Agents, line: string): Agents
  {
    if IsPlayerLine(line) then a.(player := LineCell(line))
    else if IsMummyLine(line) then a.(mummies := a.mummies + [LineCell(line)])
    else a
  }

  /** The agents after the lines, read in order; at the first line that
      breaks, the reading stops with what was read before it. */
  function AgentsOf(a: Agents, lines: seq<string>): Agents
    decreases |lines|
  {
    if lines == [] || Breaks(lines[0]) then a else AgentsOf(AgentStep(a, lines[0]), lines[1..])
  }

  lemma AgentsOfFrom(a: Agents, lines: seq<string>, i: nat)
    requires i < |lines|
    ensures AgentsOf(a, lines[i..]) ==
            if Breaks(lines[i]) then a else AgentsOf(AgentStep(a, lines[i]), lines[i + 1..])
  {
    assert lines[i..][1..] == lines[i + 1..];
  }

  /** The agent part of load_level; a missing file leaves the defaults. */
  method LoadAgents(file: Option<seq<string>>) returns (player: Pos, mummies: seq<Pos>)
    ensures Agents(player, mummies) ==
            if file.None? then Agents(DEFAULT_PLAYER, []) else AgentsOf(Agents(DEFAULT_PLAYER, []), file.value)
  {
    player, mummies := DEFAULT_PLAYER, [];
    if file.None? {
      return;
    }
    var lines := file.value;
    var i := 0;
    while i < |lines|
      invariant i <= |lines|
      invariant AgentsOf(Agents(player, mummies), lines[i..]) == AgentsOf(Agents(DEFAULT_PLAYER, []), lines)
    {
      var line := lines[i];
      AgentsOfFrom(Agents(player, mummies), lines, i);
      var parts := Split(line);
      if parts != [] {
        if parts[0] == "E" || IsMummyTag(parts[0]) {
          if |parts| < 3 || ParseInt(parts[1]).None? || ParseInt(parts[2]).None? {
            break;
          }
          var p := (ParseInt(parts[1]).value, ParseInt(parts[2]).value);
          if parts[0] == "E" {
            player := p;
          } else {
            mummies := mummies + [p];
          }
        }
      }
      i := i + 1;
    }
  }

  /** The lines read before the first one that breaks. */
  function Kept(lines: seq<string>): (ks: seq<string>)
    ensures forall k :: 0 <= k < |ks| ==> !Breaks(ks[k])
  {
    if lines == [] || Breaks(lines[0]) then [] else [lines[0]] + Kept(lines[1..])
  }

  function LineCells(ls: seq<string>): (ps: seq<Pos>)
    ensures |ps| == |ls| && forall k :: 0 <= k < |ls| ==> ps[k] == LineCell(ls[k])
  {
    seq(|ls|, k requires 0 <= k < |ls| => LineCell(ls[k]))
  }

  lemma AgentStepParts(a: Agents, line: string)
    ensures AgentStep(a, line).mummies == a.mummies + (if IsMummyLine(line) then [LineCell(line)] else [])
    ensures AgentStep(a, line).player == if IsPlayerLine(line) then LineCell(line) else a.player
  {
  }

  /** The mummies are those of the mummy lines before the first breaking
      line, in file order. */
  lemma {:induction false} MummiesFromKeptLines(a: Agents, lines: seq<string>)
    ensures AgentsOf(a, lines).mummies == a.mummies + LineCells(Filter(Kept(lines), IsMummyLine))
    decreases |lines|
  {
    if lines != [] && !Breaks(lines[0]) {
      var line := lines[0];
      assert AgentsOf(a, lines) == AgentsOf(AgentStep(a, line), lines[1..]);
      MummiesFromKeptLines(AgentStep(a, line), lines[1..]);
      AgentStepParts(a, line);
      var ms := Filter(Kept(lines[1..]), IsMummyLine);
      assert Filter(Kept(lines), IsMummyLine) == (if IsMummyLine(line) then [line] else []) + ms by {
        assert Kept(lines) == [line] + Kept(lines[1..]);
        FilterConcat([line], Kept(lines[1..]), IsMummyLine);
      }
      MummyCells(a.mummies, line, ms);
    }
  }

  lemma MummyCells(mummies: seq<Pos>, line: string, ms: seq<string>)
    ensures mummies + (if IsMummyLine(line) then [LineCell(line)] else []) + LineCells(ms) ==
            mummies + LineCells((if IsMummyLine(line) then [line] else []) + ms)
  {
    if IsMummyLine(line) {
      LineCellsCons(line, ms);
      AppendAssoc(mummies, [LineCell(line)], LineCells(ms));
    } else {
      assert [] + ms == ms;
      assert mummies + [] == mummies;
    }
  }

  lemma LineCellsCons(line: string, ms: seq<string>)
    ensures LineCells([line] + ms) == [LineCell(line)] + LineCells(ms)
  {
    var l, r := LineCells([line] + ms), [LineCell(line)] + LineCells(ms);
    forall k | 0 <= k < |l|
      ensures l[k] == r[k]
    {
      if k > 0 {
        assert ([line] + ms)[k] == ms[k - 1];
      }
    }
  }

  /** The player stands on the cell of the last player line before the first
      breaking line, or keeps its cell when there is none. */
  lemma {:induction false} PlayerFromKeptLines(a: Agents, lines: seq<string>)
    ensures var es := Filter(Kept(lines), IsPlayerLine);
            AgentsOf(a, lines).player == if es == [] then a.player else LineCell(es[|es| - 1])
    decreases |lines|
  {
    if lines != [] && !Breaks(lines[0]) {
      var line := lines[0];
      assert AgentsOf(a, lines) == AgentsOf(AgentStep(a, line), lines[1..]);
      PlayerFromKeptLines(AgentStep(a, line), lines[1..]);
      AgentStepParts(a, line);
      var rest := Filter(Kept(lines[1..]), IsPlayerLine);
      assert Filter(Kept(lines), IsPlayerLine) == (if IsPlayerLine(line) then [line] else []) + rest by {
        assert Kept(lines) == [line] + Kept(lines[1..]);
        FilterConcat([line], Kept(lines[1..]), IsPlayerLine);
      }
    }
  }

  // ---------------------------------------------------------------------
  // One turn

  /** Python's s[i]: negative indices count from the end; any other index
      outside the list raises IndexError, here None. */
  function PyIndex<T>(s: seq<T>, i: int): (r: Option<T>)
    ensures 0 <= i < |s| ==> r == Some(s[i])
    ensures (i < -|s| || i >= |s|) ==> r.None?
  {
    if 0 <= i < |s| then Some(s[i]) else if -|s| <= i < 0 then Some(s[|s| + i]) else None
  }

  /** maze[p[0]][p[1]]. */
  function TileAt(maze: seq<seq<char>>, p: Pos): Option<char>
  {
    match PyIndex(maze, p.0)
    case None => None
    case Some(row) => PyIndex(row, p.1)
  }

  /** The move a command asks for: w, s, a and d go up, down, left and right;
      anything else keeps the player where it is. */
  function Delta(command: string): Pos
  {
    if command == "w" then (-STEP, 0)
    else if command == "s" then (STEP, 0)
    else if command == "a" then (0, -STEP)
    else if command == "d" then (0, STEP)
    else (0, 0)
  }

  /** The typed line as the loop reads it: lower-cased, then stripped. */
  function Command(input: string): string
  {
    Strip(Lower(input))
  }

  function Plus(a: Pos, b: Pos): Pos
  {
    (a.0 + b.0, a.1 + b.1)
  }

  /** Inside the rows and the width of the first row. */
  predicate InBounds(maze: seq<seq<char>>, p: Pos)
    requires |maze| > 0
  {
    0 <= p.0 < |maze| && 0 <= p.1 < |maze[0]|
  }

  /** The cell between two positions, halves rounded down as `//` does. */
  function Middle(a: Pos, b: Pos): Pos
  {
    ((a.0 + b.0) / 2, (a.1 + b.1) / 2)
  }

  predicate Blocks(t: char)
  {
    t == CHAR_WALL || t == CHAR_GATE_CLOSED
  }

  /** The player after a command; None when reading the middle cell raises. */
  function PlayerStep(maze: seq<seq<char>>, player: Pos, command: string): Option<Pos>
    requires |maze| > 0
  {
    var target := Plus(player, Delta(command));
    if !InBounds(maze, target) then Some(player)
    else match TileAt(maze, Middle(player, target))
      case None => None
      case Some(t) => Some(if Blocks(t) then player else target)
  }

  /** The player moves to the requested cell exactly when it is in bounds and
      the cell between is neither a wall nor a closed gate; otherwise it stays. */
  lemma PlayerStepRule(maze: seq<seq<char>>, player: Pos, command: string)
    requires |maze| > 0
    ensures var target := Plus(player, Delta(command));
            var r := PlayerStep(maze, player, command);
            r.Some? ==>
              (r.value == target <==>
                 (target == player || (InBounds(maze, target) && !Blocks(TileAt(maze, Middle(player, target)).value))))
    ensures var r := PlayerStep(maze, player, command);
            r.Some? ==> r.value == player || r.value == Plus(player, Delta(command))
  {
  }

  predicate Rectangular(maze: seq<seq<char>>)
  {
    forall i :: 0 <= i < |maze| ==> |maze[i]| == |maze[0]|
  }

  /** From a cell inside a rectangular maze the step never raises, and the
      player stays inside. */
  lemma PlayerStepSafe(maze: seq<seq<char>>, player: Pos, command: string)
    requires |maze| > 0 && Rectangular(maze) && InBounds(maze, player)
    ensures PlayerStep(maze, player, command).Some?
    ensures InBounds(maze, PlayerStep(maze, player, command).value)
  {
    var target := Plus(player, Delta(command));
    if InBounds(maze, target) {
      var m := Middle(player, target);
      assert 0 <= m.0 < |maze| && 0 <= m.1 < |maze[m.0]|;
    }
  }

  /** A mummy's move: two cells toward the player's row, or once in it,
      toward the player's column; walls are ignored. */
  function Chase(m: Pos, player: Pos): Pos
  {
    if m.0 < player.0 then (m.0 + STEP, m.1)
    else if m.0 > player.0 then (m.0 - STEP, m.1)
    else if m.1 < player.1 then (m.0, m.1 + STEP)
    else if m.1 > player.1 then (m.0, m.1 - STEP)
    else m
  }

  function Abs(x: int): nat
  {
    if x < 0 then -x else x
  }

  function Dist(a: Pos, b: Pos): nat
  {
    Abs(a.0 - b.0) + Abs(a.1 - b.1)
  }

  predicate EvenOffset(a: Pos, b: Pos)
  {
    (a.0 - b.0) % 2 == 0 && (a.1 - b.1) % 2 == 0
  }

  /** A mummy an even number of rows and columns away closes in by two each
      turn, and stays an even offset away. It stays put only on the player. */
  lemma ChaseCloses(m: Pos, player: Pos)
    requires EvenOffset(m, player)
    ensures Chase(m, player) == m <==> m == player
    ensures m != player ==> Dist(Chase(m, player), player) + STEP == Dist(m, player)
    ensures EvenOffset(Chase(m, player), player)
  {
  }

  /** A mummy an odd number of rows away overshoots and never reaches the player's row. */
  lemma ChaseOvershoots(m: Pos, player: Pos)
    requires (m.0 - player.0) % 2 == 1
    ensures (Chase(m, player).0 - player.0) % 2 == 1
    ensures Abs(Chase(m, player).0 - player.0) <= Abs(m.0 - player.0) || Abs(m.0 - player.0) == 1
  {
  }

  /** k turns of chasing a player who stands still. */
  function ChaseTurns(m: Pos, player: Pos, k: nat): Pos
    decreases k
  {
    if k == 0 then m else ChaseTurns(Chase(m, player), player, k - 1)
  }

  /** A mummy an even offset away catches a player who stands still in
      exactly half the distance turns. */
  lemma {:induction false} ChaseCatches(m: Pos, player: Pos)
    requires EvenOffset(m, player)
    ensures Dist(m, player) % 2 == 0
    ensures ChaseTurns(m, player, Dist(m, player) / 2) == player
    decreases Dist(m, player)
  {
    if m != player {
      ChaseCloses(m, player);
      ChaseCatches(Chase(m, player), player);
    }
  }

  function ChaseAll(ms: seq<Pos>, player: Pos): (r: seq<Pos>)
    ensures |r| == |ms| && forall k :: 0 <= k < |ms| ==> r[k] == Chase(ms[k], player)
  {
    seq(|ms|, k requires 0 <= k < |ms| => Chase(ms[k], player))
  }

  /** How a turn of run_ascii_level ends. */
  datatype Outcome = Escaped | CaughtByMummy | Quit | Crashed | Continues

  /** The tests at the top of the game loop: the goal first, then capture;
      Crashed when the player's cell cannot be read. */
  function Check(maze: seq<seq<char>>, player: Pos, mummies: seq<Pos>): Outcome
  {
    match TileAt(maze, player)
    case None => Crashed
    case Some(t) => if t == CHAR_GOAL then Escaped else if player in mummies then CaughtByMummy else Continues
  }

  /** The level is won iff the player stands on the goal, and lost iff it
      stands elsewhere on a mummy's cell. */
  lemma CheckMeaning(maze: seq<seq<char>>, player: Pos, mummies: seq<Pos>)
    ensures Check(maze, player, mummies) == Escaped <==> TileAt(maze, player) == Some(CHAR_GOAL)
    ensures Check(maze, player, mummies) == CaughtByMummy <==>
              TileAt(maze, player).Some? && TileAt(maze, player) != Some(CHAR_GOAL) &&
              exists k :: 0 <= k < |mummies| && mummies[k] == player
    ensures Check(maze, player, mummies) == Crashed <==> TileAt(maze, player).None?
  {
  }

  /** One pass of the game loop from the player and mummies in a with the
      typed line read as `command`: the outcome and where everybody then
      stands. */
  function TurnOf(maze: seq<seq<char>>, a: Agents, command: string): (Outcome, Agents)
  {
    var c := Check(maze, a.player, a.mummies);
    if c != Continues then (c, a)
    else if command == "q" then (Quit, a)
    else
      match PlayerStep(maze, a.player, command)
      case None => (Crashed, a)
      case Some(p) => (Continues, Agents(p, ChaseAll(a.mummies, p)))
  }

  /** The commands the typed lines give, each lowered and stripped. */
  function Commands(inputs: seq<string>): (commands: seq<string>)
    ensures |commands| == |inputs|
  {
    if inputs == [] then [] else [Command(inputs[0])] + Commands(inputs[1..])
  }

  lemma {:induction false} CommandsAt(inputs: seq<string>, k: nat)
    requires k < |inputs|
    ensures Commands(inputs)[k] == Command(inputs[k])
    decreases k
  {
    if k > 0 {
      CommandsAt(inputs[1..], k - 1);
    }
  }

  /** The game loop of run_ascii_level from a on the commands still to be
      typed: the outcome, where everybody ends and how many lines were read.
      The tests at the top of the loop run before each line is read, so they
      also decide the outcome once the lines run out (Continues then). */
  function PlayOf(maze: seq<seq<char>>, a: Agents, commands: seq<string>): (Outcome, Agents, nat)
    decreases |commands|
  {
    var c := Check(maze, a.player, a.mummies);
    if c != Continues || commands == [] then (c, a, 0)
    else
      var (o, a') := TurnOf(maze, a, commands[0]);
      if o != Continues then (o, a', 1)
      else
        var r := PlayOf(maze, a', commands[1..]);
        (r.0, r.1, r.2 + 1)
  }

  /** The game loop still going after `turns` lines reads the next one and
      carries on from the turn it makes: r, the run over the commands from
      `turns` on, ends as the run over the commands after the next one
      does, or ends at that line when the turn ends the game. */
  lemma PlayOfStep(maze: seq<seq<char>>, a: Agents, commands: seq<string>, turns: nat, r: (Outcome, Agents, nat))
    requires Check(maze, a.player, a.mummies) == Continues && turns < |commands|
    requires r == PlayOf(maze, a, commands[turns..])
    ensures var t := TurnOf(maze, a, commands[turns]);
      var r' := PlayOf(maze, t.1, commands[turns + 1..]);
      r == if t.0 != Continues then (t.0, t.1, 1) else (r'.0, r'.1, r'.2 + 1)
  {
    assert commands[turns..][0] == commands[turns] && commands[turns..][1..] == commands[turns + 1..];
  }

  /** A turn taken while the game goes on ends it only by quitting or by a
      step that cannot be read, and it quits exactly on `q`. */
  lemma TurnOfGoingOn(maze: seq<seq<char>>, a: Agents, command: string)
    requires Check(maze, a.player, a.mummies) == Continues
    ensures var t := TurnOf(maze, a, command);
      (t.0 == Quit || t.0 == Crashed || t.0 == Continues) && (t.0 == Quit <==> command == "q")
  {
  }

  /** The game loop ends as it starts, and reads no line, when the tests at
      the top of the loop end it or no command is left; otherwise the run
      over the commands after the first gives the run over all of them. */
  lemma PlayOfFirst(maze: seq<seq<char>>, a: Agents, commands: seq<string>)
    ensures var c := Check(maze, a.player, a.mummies);
      c != Continues || commands == [] ==> PlayOf(maze, a, commands) == (c, a, 0)
    ensures var c := Check(maze, a.player, a.mummies);
      c == Continues && commands != [] ==>
        var t := TurnOf(maze, a, commands[0]);
        var r' := PlayOf(maze, t.1, commands[1..]);
        PlayOf(maze, a, commands) == if t.0 != Continues then (t.0, t.1, 1) else (r'.0, r'.1, r'.2 + 1)
  {
  }

  /** The game loop reads at most the lines typed, and quits only after
      reading a line. */
  lemma {:induction false} PlayOfCount(maze: seq<seq<char>>, a: Agents, commands: seq<string>)
    ensures var r := PlayOf(maze, a, commands); r.2 <= |commands| && (r.0 == Quit ==> r.2 >= 1)
    decreases |commands|
  {
    PlayOfFirst(maze, a, commands);
    if Check(maze, a.player, a.mummies) == Continues && commands != [] {
      var t := TurnOf(maze, a, commands[0]);
      if t.0 == Continues {
        PlayOfCount(maze, t.1, commands[1..]);
      }
    }
  }

  /** Every line before the last one the game loop reads is a move. */
  lemma {:induction false} PlayOfMoves(maze: seq<seq<char>>, a: Agents, commands: seq<string>)
    ensures var r := PlayOf(maze, a, commands);
      r.2 <= |commands| && forall k :: 0 <= k < r.2 - 1 ==> commands[k] != "q"
    decreases |commands|
  {
    PlayOfFirst(maze, a, commands);
    PlayOfCount(maze, a, commands);
    if Check(maze, a.player, a.mummies) == Continues && commands != [] {
      var t := TurnOf(maze, a, commands[0]);
      TurnOfGoingOn(maze, a, commands[0]);
      if t.0 == Continues {
        var r' := PlayOf(maze, t.1, commands[1..]);
        PlayOfMoves(maze, t.1, commands[1..]);
        forall k | 1 <= k < r'.2
          ensures commands[k] != "q"
        {
          assert commands[k] == commands[1..][k - 1];
        }
      }
    }
  }

  /** The game loop ends Quit exactly when the last line it reads is `q`. */
  lemma {:induction false} PlayOfQuit(maze: seq<seq<char>>, a: Agents, commands: seq<string>)
    ensures var r := PlayOf(maze, a, commands);
      r.2 <= |commands| && (r.0 == Quit <==> r.2 >= 1 && commands[r.2 - 1] == "q")
    decreases |commands|
  {
    PlayOfFirst(maze, a, commands);
    PlayOfCount(maze, a, commands);
    if Check(maze, a.player, a.mummies) == Continues && commands != [] {
      var t := TurnOf(maze, a, commands[0]);
      TurnOfGoingOn(maze, a, commands[0]);
      if t.0 == Continues {
        var r' := PlayOf(maze, t.1, commands[1..]);
        PlayOfQuit(maze, t.1, commands[1..]);
        PlayOfCount(maze, t.1, commands[1..]);
        if r'.2 >= 1 {
          assert commands[r'.2] == commands[1..][r'.2 - 1];
        }
      }
    }
  }

  /** Where the game loop ends: ESCAPED means the player stands on the
      goal, CAUGHT that it stands on a mummy, and Continues that every line
      was read and the game is still going. */
  lemma {:induction false} PlayOfEnds(maze: seq<seq<char>>, a: Agents, commands: seq<string>)
    ensures var r := PlayOf(maze, a, commands);
      (r.0 == Escaped ==> TileAt(maze, r.1.player) == Some(CHAR_GOAL)) &&
      (r.0 == CaughtByMummy ==> r.1.player in r.1.mummies) &&
      (r.0 == Continues ==> r.2 == |commands| && Check(maze, r.1.player, r.1.mummies) == Continues)
    decreases |commands|
  {
    PlayOfFirst(maze, a, commands);
    if Check(maze, a.player, a.mummies) == Continues && commands != [] {
      var t := TurnOf(maze, a, commands[0]);
      TurnOfGoingOn(maze, a, commands[0]);
      if t.0 == Continues {
        PlayOfEnds(maze, t.1, commands[1..]);
      }
    }
  }

  /** What the game loop promises: the lines it reads and where it ends. */
  lemma PlayOfOutcome(maze: seq<seq<char>>, a: Agents, commands: seq<string>)
    ensures var r := PlayOf(maze, a, commands);
      r.2 <= |commands| &&
      (forall k :: 0 <= k < r.2 - 1 ==> commands[k] != "q") &&
      (r.0 == Quit <==> r.2 >= 1 && commands[r.2 - 1] == "q") &&
      (r.0 == Escaped ==> TileAt(maze, r.1.player) == Some(CHAR_GOAL)) &&
      (r.0 == CaughtByMummy ==> r.1.player in r.1.mummies) &&
      (r.0 == Continues ==> r.2 == |commands| && Check(maze, r.1.player, r.1.mummies) == Continues)
  {
    PlayOfMoves(maze, a, commands);
    PlayOfQuit(maze, a, commands);
    PlayOfEnds(maze, a, commands);
  }

  /** The lines the game loop reads, as typed: no line before the last one
      read is `q` once lowered and stripped. */
  lemma PlayOfLineMoves(maze: seq<seq<char>>, a: Agents, inputs: seq<string>)
    ensures var r := PlayOf(maze, a, Commands(inputs));
      r.2 <= |inputs| && forall k :: 0 <= k < r.2 - 1 ==> Command(inputs[k]) != "q"
  {
    var commands := Commands(inputs);
    PlayOfMoves(maze, a, commands);
    forall k | 0 <= k < PlayOf(maze, a, commands).2 - 1
      ensures Command(inputs[k]) != "q"
    {
      CommandsAt(inputs, k);
    }
  }

  /** For the commands the lines give, the n-th command is `q` exactly
      when the n-th line, lowered and stripped, is. */
  lemma QuitLine(inputs: seq<string>, commands: seq<string>, n: nat, quit: bool)
    requires commands == Commands(inputs) && n <= |inputs|
    requires quit <==> n >= 1 && commands[n - 1] == "q"
    ensures quit <==> n >= 1 && Command(inputs[n - 1]) == "q"
  {
    if n >= 1 {
      CommandsAt(inputs, n - 1);
    }
  }

  /** The game is quit exactly when the last line read, lowered and
      stripped, is `q`. */
  lemma PlayOfLineQuit(maze: seq<seq<char>>, a: Agents, inputs: seq<string>)
    ensures var r := PlayOf(maze, a, Commands(inputs));
      r.2 <= |inputs| && (r.0 == Quit <==> r.2 >= 1 && Command(inputs[r.2 - 1]) == "q")
  {
    var commands := Commands(inputs);
    var r := PlayOf(maze, a, commands);
    PlayOfQuit(maze, a, commands);
    QuitLine(inputs, commands, r.2, r.0 == Quit);
  }

  /** Lines after the game has ended are never read. */
  lemma {:induction false} PlayOfIgnoresLaterLines(maze: seq<seq<char>>, a: Agents, commands: seq<string>,
                                                   more: seq<string>)
    requires PlayOf(maze, a, commands).0 != Continues
    ensures PlayOf(maze, a, commands + more) == PlayOf(maze, a, commands)
    decreases |commands|
  {
    PlayOfFirst(maze, a, commands);
    PlayOfFirst(maze, a, commands + more);
    if Check(maze, a.player, a.mummies) == Continues && commands != [] {
      assert (commands + more)[0] == commands[0];
      var t := TurnOf(maze, a, commands[0]);
      if t.0 == Continues {
        assert (commands + more)[1..] == commands[1..] + more;
        PlayOfIgnoresLaterLines(maze, t.1, commands[1..], more);
      }
    }
  }

  /** A level being played in the console. */
  class AsciiLevel {
    const maze: seq<seq<char>>
    var player: Pos
    var mummies: seq<Pos>

    constructor (maze: seq<seq<char>>, agents: Agents)
      requires |maze| > 0
      ensures this.maze == maze && player == agents.player && mummies == agents.mummies
    {
      this.maze := maze;
      player := agents.player;
      mummies := agents.mummies;
    }

    /** The mummy loop: each mummy list is moved in place toward the player. */
    method MoveMummies()
      modifies this
      ensures player == old(player)
      ensures mummies == ChaseAll(old(mummies), player)
    {
      var i := 0;
      while i < |mummies|
        invariant i <= |mummies| && |mummies| == |old(mummies)| && player == old(player)
        invariant forall k :: 0 <= k < |mummies| ==>
                    mummies[k] == if k < i then Chase(old(mummies)[k], player) else old(mummies)[k]
      {
        mummies := mummies[i := Chase(mummies[i], player)];
        i := i + 1;
      }
    }

    /** One pass of the game loop with `command`, the typed line lowered
        and stripped: the goal test, the capture test, the quit command,
        the player's step and the mummies' step. */
    method Turn(command: string) returns (o: Outcome)
      requires |maze| > 0
      modifies this
      ensures Check(maze, old(player), old(mummies)) != Continues ==>
                o == Check(maze, old(player), old(mummies)) && player == old(player) && mummies == old(mummies)
      ensures Check(maze, old(player), old(mummies)) == Continues && command == "q" ==>
                o == Quit && player == old(player) && mummies == old(mummies)
      ensures Check(maze, old(player), old(mummies)) == Continues && command != "q" ==>
                match PlayerStep(maze, old(player), command)
                case None => o == Crashed && player == old(player) && mummies == old(mummies)
                case Some(p) => o == Continues && player == p && mummies == ChaseAll(old(mummies), p)
      ensures (o, Agents(player, mummies)) == TurnOf(maze, Agents(old(player), old(mummies)), command)
    {
      o := Check(maze, player, mummies);
      if o != Continues {
        return;
      }
      if command == "q" {
        return Quit;
      }
      var next := PlayerStep(maze, player, command);
      if next.None? {
        return Crashed;
      }
      player := next.value;
      MoveMummies();
    }

    /** The game loop of run_ascii_level on the commands the lines give: it
        ends as PlayOf says, `turns` counting the lines read. */
    method PlayCommands(commands: seq<string>) returns (o: Outcome, turns: nat)
      requires |maze| > 0
      modifies this
      ensures var r := PlayOf(maze, Agents(old(player), old(mummies)), commands);
        o == r.0 && player == r.1.player && mummies == r.1.mummies && turns == r.2
    {
      ghost var r0 := PlayOf(maze, Agents(player, mummies), commands);
      turns := 0;
      while turns < |commands|
        invariant turns <= |commands|
        invariant var r := PlayOf(maze, Agents(player, mummies), commands[turns..]);
          r0 == (r.0, r.1, r.2 + turns)
      {
        o := Check(maze, player, mummies);
        if o != Continues {
          return;
        }
        PlayOfStep(maze, Agents(player, mummies), commands, turns, PlayOf(maze, Agents(player, mummies), commands[turns..]));
        o := Turn(commands[turns]);
        turns := turns + 1;
        if o != Continues {
          return;
        }
      }
      o := Check(maze, player, mummies);
    }

    /** The game loop of run_ascii_level on the lines the player types:
        each line is lowered and stripped, and the loop ends as PlayOf says;
        Continues means the lines ran out with the game still going. */
    method Play(inputs: seq<string>) returns (o: Outcome, turns: nat)
      requires |maze| > 0
      modifies this
      ensures var r := PlayOf(maze, Agents(old(player), old(mummies)), Commands(inputs));
        o == r.0 && player == r.1.player && mummies == r.1.mummies && turns == r.2
      ensures turns <= |inputs|
      ensures o == Escaped ==> TileAt(maze, player) == Some(CHAR_GOAL)
      ensures o == CaughtByMummy ==> player in mummies
      ensures o == Continues ==> Check(maze, player, mummies) == Continues && turns == |inputs|
    {
      ghost var a0 := Agents(player, mummies);
      var commands := Commands(inputs);
      o, turns := PlayCommands(commands);
      PlayOfOutcome(maze, a0, commands);
    }
  }

  /** load_level on the lines of the two files; None when the maze file is
      missing. The game loop does not start on an empty maze. */
  method LoadLevel(mazeFile: Option<seq<string>>, agentFile: Option<seq<string>>)
      returns (level: Option<AsciiLevel>)
    ensures level.Some? <==> mazeFile.Some? && |mazeFile.value| > 0
    ensures level.Some? ==>
              fresh(level.value) && level.value.maze == MazeOf(mazeFile.value) &&
              Agents(level.value.player, level.value.mummies) ==
                if agentFile.None? then Agents(DEFAULT_PLAYER, [])
                else AgentsOf(Agents(DEFAULT_PLAYER, []), agentFile.value)
  {
    if mazeFile.None? || |mazeFile.value| == 0 {
      return None;
    }
    var maze := MazeOf(mazeFile.value);
    var player, mummies := LoadAgents(agentFile);
    var l := new AsciiLevel(maze, Agents(player, mummies));
    return Some(l);
  }
}
