# Mummy Maze rules in Dafny

This project models the rules of a Mummy Maze clone.

An explorer walks a maze of rooms and walls and tries to reach the stair `S`.
Four kinds of enemies answer every move:

- white mummies move twice per round, horizontal first;
- red mummies move twice per round, vertical first;
- white and red scorpions move once per round.

A key cell toggles a gate. Traps kill the explorer. Enemies of a stronger kind
that land on a weaker one remove it, and two enemies of one kind on one cell
merge.

The grid uses doubled coordinates: rooms sit at odd/odd cells, and the cell
between two rooms decides whether a step between them is legal.

The model covers:

- the movement rules and the enemy policies of `characters.py`:
  - a greedy step;
  - breadth-first pursuit;
  - a stair guard with a random patrol on the hardest difficulty;
- the non-UI rules of `main.py`:
  - the gate toggle, the capture test and the round of enemy moves with its
    list merges;
  - undo snapshots and the explorer's step;
  - the scan of a maze file and the parsing of its agent file;
  - the level-file filter and sort key;
  - the music unlock thresholds;
- the procedural generator of `maze_generator.py`:
  - a randomized depth-first backtracker;
  - a density pass that opens further walls;
  - the exit;
  - the placement of the explorer and the enemies;
  - the text of the two files it writes;
- the console variant `ascii_game.py`: tiles, a player step and a naive chase;
- the account table of `database.py`.

Layout, one module per file:

| file | module | what it holds |
|---|---|---|
| `wrappers.dfy` | `Wrappers` | `Option` and `Result` |
| `random.dfy` | `Random` | `Rng`, a class fed a sequence of draws, which stands in for `random` |
| `text.dfy` | `Text` | whitespace splitting, integer text, ASCII lower case, string order |
| `sorting.dfy` | `Sorting` | filters and a stable insertion sort equal to Python's `list.sort(key=...)` |
| `characters.dfy` | `Characters` | `characters.py` |
| `rosters.dfy` | `Rosters` | the list merges of `main.py`, on index lists |
| `board.dfy` | `Board` | gate, snapshots and step rules of `main.py` as values |
| `game.dfy` | `Game` | the `Game` class that holds a level in play |
| `levels.dfy` | `Levels` | level files and music of `main.py` |
| `maze_generator.dfy` | `MazeGen` | `maze_generator.py` |
| `ascii_game.dfy` | `Ascii` | `ascii_game.py` |
| `database.dfy` | `Accounts` | `database.py`, the JSON file held as a map field |

Objects the source updates in place are classes whose methods state their new
state:

- characters: `Explorer`, `Enemy`;
- the gate record: `Gate`;
- a level in play: `Game`;
- the generator: `MazeGenerator`;
- the console level: `AsciiLevel`;
- the account table: `UserManager`.

Loops in the source are `while`/`for` loops here, each proved against a
specification function:

- the breadth-first search;
- the backtracker and the density pass;
- the list merges;
- the maze scan;
- the leaderboard.

Randomness comes from the `Rng` class. Each `rng.Below(n)` consumes the next
draw, reduced modulo `n`.

Every rule below is the one the cited lines implement, except for the
differences listed under "## Left out" (bounds on loops the source runs
forever, ASCII-only digits, the layouts `Game.Game.Start` accepts, and the
others named there) and one correction recorded under "## Findings". The list
merges use the corrected `update_list_character`, because the loop as written
can raise `IndexError`. Board.MergeRound, Board.MergeLists and Game.Game.Merges
use the corrected version.

## Model

| member | source | states |
|---|---|---|
| Characters.Sign | characters.py:255-257 | the sign is -1, 0 or 1, and sign times absolute value gives back the argument |
| Characters.EligibleRejectsOffGrid | characters.py:56-57 | a move whose destination lies outside the rows or the first row's width is rejected |
| Characters.EligibleIsCanStep | characters.py:56-66 | for a step two cells along one axis, eligibility is exactly: not a `%` in between, and on vertical steps not a closed `G` in between; horizontal steps ignore the gate |
| Characters.EligibleSymmetric | characters.py:58-65 | between two in-bounds cells two apart on one axis, A to B is legal iff B to A is legal |
| Characters.BfsFindNextStep | characters.py:7-45 | the result is `start` when start equals target or the target is unreachable; otherwise it is a legal neighbour of `start` that begins a shortest path to the target |
| Characters.ReachClosure | characters.py:16-45 | when the queue empties without meeting the target, no legal walk of any length reaches it |
| Characters.Explorer.MoveXY | characters.py:72-74 | the character stands at the new coordinates |
| Characters.Enemy.constructor | characters.py:116-120 | an enemy starts at its cell with the given difficulty, step count 0 and attempt 0 |
| Characters.Enemy.MoveVertical | characters.py:209-220 | equals `VerticalStep`: with no step taken yet and a row difference, one step of two toward the explorer's row if eligible (step count + 1), else attempt + 1 |
| Characters.Enemy.MoveHorizontal | characters.py:222-233 | the same along the columns (`HorizontalStep`) |
| Characters.Enemy.MoveGreedy | characters.py:189-200 | equals `GreedyStep`: the first axis is tried unless already aligned, and the second only when no step was taken |
| Characters.GreedyAtMostOneLegalStep | characters.py:189-233 | a greedy move stays put or makes one legal step, and counts at most one step |
| Characters.GreedyCases | characters.py:189-200 | the second axis is tried exactly when the first axis was aligned or blocked |
| Characters.GreedyGetsCloser | characters.py:209-233 | a greedy step that moves shortens the distance to the explorer by two |
| Characters.Enemy.MoveSmartBfs | characters.py:202-207 | the enemy moves to the breadth-first next step toward the explorer, and the step count rises iff it moved |
| Characters.FindFirstStair | characters.py:138-143 | the scan finds the first `S` in row-major order, or reports that there is none |
| Characters.GuardTarget | characters.py:145-152 | the guard cell is the first non-`%` in-bounds neighbour of the stair, tried down, up, right, left |
| Characters.GuardCellIsAdjacent | characters.py:147-152 | the guard cell is open and orthogonally next to the stair |
| Characters.ValidMoves | characters.py:172-177 | the patrol list is the eligible steps in the order up, down, left, right |
| Characters.ValidMovesAreLegal | characters.py:172-177 | a cell is in the patrol list iff the step to it is legal, and the list holds at most four cells |
| Characters.Enemy.HardMove | characters.py:137-185 | difficulty 3 is pursuit when there is no guard cell or the explorer is within 6; otherwise a step toward the guard cell, or, when no step toward it is found, a random legal step or none |
| Characters.Enemy.AiMove | characters.py:126-187 | difficulty 1 is greedy, 2 is breadth-first pursuit, 3 is the guard policy, and any other value leaves the enemy and the draws unchanged |
| Characters.Enemy.WhiteMove | characters.py:240-244 | an enemy on the explorer's cell is left entirely unchanged; otherwise it resets step count and attempt and moves horizontal first; either way it stays or makes one legal step |
| Characters.Enemy.RedMove | characters.py:246-250 | the same, vertical first |
| Characters.TurnIsAtMostOneLegalMove | characters.py:240-250 | an enemy's turn moves it at most one legal step, and its step count afterwards is 1 iff it moved |
| Board.KeyToggle | main.py:355-356 | the gate flag flips iff there is a key and the character stands on it |
| Board.KeyToggleTwice | main.py:355-356 | two toggles for the same cell restore the flag |
| Board.CharacterSamePlaceWithKey | main.py:352-362 | the gate record flips, and its frame becomes 0 or -1, exactly when the character is on the key; otherwise it is unchanged |
| Board.ToggleAllIsParity | main.py:417-444 | after one key check per enemy of a group, the flag has flipped iff an odd number of them stand on the key |
| Rosters.ExplorerIsKilled | main.py:387-395 | the explorer is killed iff on a trap or on the cell of an enemy in any of the four lists |
| Game.Game.CaughtIsOccupied | main.py:387-395 | caught is being on a trap or on an occupied cell |
| Rosters.DedupAsWritten | main.py:365-374 | the deletion loop exactly as written, failing where it reads past the end of the list |
| Rosters.DedupAsWrittenRaises | main.py:365-374 | on cells `[p, q, p, p]` the loop as written reads past the end of the list |
| Rosters.DedupAgreesWithSource | main.py:365-374 | wherever the loop as written does not fail, the guarded version keeps the same entries |
| Rosters.DedupKeepsEveryCell | main.py:365-374 | the entries kept are an increasing subsequence of the indices, and every cell occupied before is still occupied |
| Rosters.DedupLeavesOneOfAPair | main.py:365-374 | when exactly two entries share a cell, exactly one of them remains |
| Rosters.DedupFiveLeavesTwo | main.py:365-374 | five entries on one cell leave two, because the forward deletion skips entries |
| Rosters.UpdateListCharacter | main.py:365-374 | the characters, the sprite sheets and the cells are all cut to the same kept indices, so their lengths stay equal |
| Rosters.MergeRemovesOnlyStrongCells | main.py:377-384 | the weak entries removed all stand on some strong entry's cell, and the kept ones are an increasing subsequence |
| Rosters.MergeOfDistinctRemovesAllOnStrongCells | main.py:377-384 | when no two weak entries share a cell, a weak entry is removed iff it stands on a strong cell |
| Rosters.MergeSkipsSecondOnSameCell | main.py:377-384 | one strong entry over two weak entries on its cell removes only the first, because the deletion skips the next entry |
| Rosters.UpdateListsCharacter | main.py:377-384 | the strong list is untouched; the weak list, its sprite sheets and its cells are cut to the same kept indices |
| Rosters.MergeKeepsCellSet | main.py:377-384 | the cells occupied by strong and weak entries together are the same after the merge |
| Board.MergeRound | main.py:456-463 | the indices each list keeps are `RoundKept` of the four cell lists. That is the dedup of the white mummies; the dedup of the red mummies, then the merge under the white mummies; the merges of each scorpion kind under the white and then the red mummies; the red scorpions last under the white scorpions. Each list, its sprites and its cells are cut to those indices, and the set of occupied cells is unchanged |
| Board.MergeCellsKeepsOccupancy | main.py:456-463 | the merges leave the set of occupied cells unchanged |
| Board.MergeCellsKeepsKilled | main.py:456-463 | the merges never change whether the explorer is caught |
| Board.MergeLists | main.py:456-463 | the game's four lists are cut to `KeptOf` the state before the merges, and their cells are `MergeCells` of it |
| Game.Game.Merges | main.py:456-463 | the lists become `Keep(old lists, KeptOf(old state))` and the state becomes `MergeCells(old state)`; the occupied cells, and so capture, are unchanged |
| Game.Game.KeyPass | main.py:418-423 | one key check per enemy of a group, in list order |
| Game.Game.Turn | main.py:417-444 | a group moves, each enemy staying or making one legal step against the gate as it stands, then its key checks run |
| Game.Game.HalfRoundOne | main.py:417-444 | `HalfRound` with scorpions: white mummies, red mummies, white scorpions, red scorpions move in that order, each entry staying or making one legal step against the gate flag the groups before it left; the gate flag ends as the chain of key checks, group by group; the explorer stays |
| Game.Game.HalfRoundTwo | main.py:468-481 | `HalfRound` without scorpions: only white and red mummies move, in the same way; the scorpion lists are untouched |
| Game.Game.UpdateEnemyPosition | main.py:398-507 | `EnemyRound`: the explorer's key test, then LOSE before any enemy moves if caught; otherwise half round 1, LOSE if caught, the merges, half round 2, LOSE if caught, the merges; the lists end as `ListsAfter` the half rounds. The status is LOSE iff caught at the end and WIN iff not caught and orthogonally next to `S` |
| Board.EnemyRoundOutcome | main.py:398-507 | in a round the explorer never moves; LOSE iff the final state is caught; a caught explorer loses with only the key test done; in a round not lost, the occupied cells are those at the end of the second half round |
| Game.Game.MoveAndRound | main.py:894-930 | the explorer moves to the target, then the round runs: `EnemyRound` from the moved state, with the lists `ListsAfter` its half rounds |
| Board.Restored | main.py:732-746 | the explorer and the gate flag come from the snapshot, each list keeps its length, and only the entries a snapshot holds are overwritten |
| Board.RestoredSameShape | main.py:720-746 | restoring a snapshot of lists of the same lengths gives back exactly that snapshot |
| Board.OverlayShorter | main.py:738-741 | with shorter current lists, only the common prefix is restored |
| Game.Game.Restore | main.py:732-746 | the new state is `Restored(old state, snapshot)`, with the gate frame 0 if closed else -1 |
| Game.Game.Undo | main.py:854-856 | with snapshots left, the last is popped and restored; with none, nothing changes |
| Game.Game.PlayerStep | main.py:894-930 | the state is pushed first; a blocked move changes nothing further; any other intent moves the explorer to its target and runs `EnemyRound` from there, returning its status and leaving the lists `ListsAfter` its half rounds |
| Game.Game.Start | main.py:749-800 | the gate is closed iff the maze has a `G` (or as a save says); without one it sits at (-100, -100); enemies take the save's cells only when the counts match, and get the difficulty |
| Board.UsePositions | main.py:777-781 | the save's cells are used iff they are present and as many as the layout's |
| Levels.ReadMaze | main.py:290-297 | a missing maze file gives 13 rows of 13 walls; otherwise one row per line with the newlines dropped |
| Levels.ScanMaze | main.py:299-304 | the scan equals `ScanOf`: the last `S`, `K` and `G` met in row-major order and every `T` in that order |
| Levels.LastCellIsLast | main.py:299-304 | the stair (key, gate) kept holds that tile and no cell after it in row-major order does; it is absent iff no cell holds it |
| Levels.CellsOfInScanOrder | main.py:299-304 | the trap cells are listed in strict row-major order |
| Levels.GetInputObject | main.py:306-330 | the objects equal `ObjectsOf` of the lines, or the defaults for a missing file |
| Levels.ObjectsFailIff | main.py:318-328 | reading fails iff some placing line lacks a field or has a non-integer one, and the failure names the first such line |
| Levels.EnemiesInFileOrder | main.py:322-328 | each enemy list holds one cell per line of its tag, in file order |
| Levels.ExplorerFromLastLine | main.py:320-321 | the explorer is at the last `E` line's cell, or at (2, 2) when there is none |
| Levels.SortKeyTwoNumbers | main.py:179-182 | a name whose first two digit runs read a and b sorts with key (a, b) |
| Levels.SortKeyOneNumber | main.py:183-184 | a name with one digit run reading a sorts with key (a, 0) |
| Levels.SortKeyNoNumber | main.py:185 | a name without digits sorts with key (999, 999) |
| Levels.GetSortedLevels | main.py:157-188 | difficulty 1 keeps the `.txt` names without "hard" in any case; other difficulties keep only those with it; the result is a stable sort by key, a permutation of that selection; a missing folder gives an empty list |
| Levels.LevelsStable | main.py:187 | names with equal keys keep their listing order |
| Levels.MusicFilesWithThresholds | main.py:99-119 | the data is `MusicData` of the sorted audio files |
| Levels.MusicDataShape | main.py:108-119 | every audio file appears once; thresholds increase; the signature track, when present, comes first at 0; otherwise the first threshold is 200 |
| MazeGen.MazeGenerator.constructor | maze_generator.py:15-26 | a (2 size + 1)-square of walls, with the exit recorded at cell (0, 0) |
| MazeGen.OpenRooms | maze_generator.py:31-33 | every odd/odd cell is a space and nothing else changes |
| MazeGen.Neighbours | maze_generator.py:46-51 | the unvisited in-range neighbours, in the order up, down, left, right |
| MazeGen.Carve | maze_generator.py:36-65 | every logical cell is visited; exactly size² - 1 connector cells are opened, each with exactly one even coordinate; every cell has a path to (0, 0) through them, a spanning tree |
| MazeGen.FindCandidates | maze_generator.py:70-79 | the candidates are the interior `%` cells with a space on both sides horizontally or vertically, in row-major order, each once |
| MazeGen.NumToOpen | maze_generator.py:81-82 | no more than there are candidates; density 0 opens all; density 100 opens none |
| MazeGen.NumToOpenMonotone | maze_generator.py:81-82 | a higher density never opens more walls |
| MazeGen.Shuffle | maze_generator.py:83 | a permutation of the candidates |
| MazeGen.OpenFirst | maze_generator.py:85-87 | exactly the first k shuffled candidates become spaces |
| MazeGen.BorderIntact | maze_generator.py:57-91 | the outer ring stays wall; the only border change is `grid[1][0] = 'S'` |
| MazeGen.MazeGenerator.Generate | maze_generator.py:28-94 | the grid is rooms, a spanning tree of passages, NumToOpen of the carved maze's candidates, and the exit at (1, 0) |
| MazeGen.GeneratedMaze | maze_generator.py:28-94 | a generated maze keeps its border, has every room open and is connected to cell (0, 0), next to the exit |
| MazeGen.PickFrom | maze_generator.py:101-105 | a cell it picks is one of the cells and is farther than size // 2 from the exit |
| MazeGen.PickExplorer | maze_generator.py:101-105 | the draws loop equals `PickFrom` on the draws; the explorer is drawn from the cells and is farther than size // 2 from the exit |
| MazeGen.KindOf | maze_generator.py:124-133 | with one requested enemy the kind is a white or red mummy |
| MazeGen.KindShares | maze_generator.py:124-133 | the draws split by the weights 70/30, or 40/30/20/10 |
| MazeGen.PlaceFromOk | maze_generator.py:110-135 | the placement loop keeps the free cells free, places on distinct free cells at distance at least 3 from the explorer, never drops a placed enemy, never loses a cell, and places at most one enemy per attempt within 100 attempts |
| MazeGen.PlaceFromStops | maze_generator.py:114-116 | the loop stops short of num_enemies only after 100 attempts or with no cell left |
| MazeGen.PlaceEnemies | maze_generator.py:110-135 | the enemies and the draws left equal `PlaceFrom` from no enemies, the free cells and attempt 0; at most num_enemies enemies, on distinct free cells, each at distance at least 3 from the explorer |
| MazeGen.RandomizeOfOk | maze_generator.py:96-137 | a placement found satisfies all the placement rules, and it has fewer enemies than asked only after 100 attempts or when every cell is the explorer's or taken |
| MazeGen.Randomize | maze_generator.py:96-137 | the result equals `RandomizeOf` on the draws, and satisfies the placement rules |
| MazeGen.MazeGenerator.RandomizePositions | maze_generator.py:96-137 | the same on the generator's size and exit |
| MazeGen.MazeGenerator.SaveToFiles | maze_generator.py:139-158 | the maze file is each row joined plus a newline; the agent file is an `E` line then one line per enemy, coordinates 2x + 1 |
| MazeGen.MazeRoundTrip | maze_generator.py:144-146 | reading the maze file back gives the grid row for row |
| MazeGen.AgentsRoundTrip | maze_generator.py:148-158 | parsing the agent file back gives the explorer and each enemy list at their odd coordinates |
| MazeGen.GeneratedScan | maze_generator.py:89-92 | scanning a generated maze finds the stair at (1, 0) and no key, gate or trap |
| MazeGen.NewMaze | maze_generator.py:216-217 | a fresh generator of the given size and density whose generated maze is shaped and connected, with the exit at (0, 0) |
| MazeGen.TryOnce | maze_generator.py:209-221 | the try records the draws it starts from, and its placement is `randomize_positions` with 1 enemy, 2 from size 8, 3 from size 10, on those draws; a placement found satisfies the placement rules |
| MazeGen.TryPlacement | maze_generator.py:114-116 | a try's placement satisfies the placement rules, and has fewer enemies than the size asks for only after 100 attempts or with every cell taken |
| MazeGen.SaveIfSolvable | maze_generator.py:224-227 | a level is saved iff the placement is solvable, and then it is the maze with that placement and its two files |
| MazeGen.TryPlacements | maze_generator.py:220-231 | between one and ten tries, all on that maze; every try but the last was placed and unsolvable; a saved level is valid and is the last try's placement; otherwise the last try ran out of draws or all ten failed |
| MazeGen.CreateValidLevel | maze_generator.py:203-231 | the tries come ten per maze, maze after maze, each one `randomize_positions` with the size's enemy count on its own draws; every try before the last was placed and unsolvable; a returned level is generated, placed, solvable and saved, and is the last try's placement on its maze; `None` only when the last try ran out of explorer draws or all `rounds` times ten tries failed |
| Ascii.StripCuts | ascii_game.py:28 | the stripped line is the line with leading and trailing whitespace cut |
| Ascii.StripEnds | ascii_game.py:28 | the stripped line neither starts nor ends with whitespace |
| Ascii.TileMeaning | ascii_game.py:29-34 | a tile is the wall block iff the character is `%` or already the block; the goal `E` iff it is `S` or `E`; the closed gate `X` iff it is `G` or `X`; the floor iff it is `.` or a space; `K` iff it is `K` |
| Ascii.LoadAgents | ascii_game.py:41-54 | the agents equal `AgentsOf` the lines, or the default player at (2, 2) and no mummies without a file |
| Ascii.PlayerFromKeptLines | ascii_game.py:50-51 | the last `E` line read sets the player |
| Ascii.MummiesFromKeptLines | ascii_game.py:52-53 | each MW, MR, SW or SR line read appends one mummy, in file order |
| Ascii.PlayerStepRule | ascii_game.py:104-115 | the player moves iff the target is in bounds and the middle cell is neither wall nor closed gate; otherwise it stays |
| Ascii.PlayerStepSafe | ascii_game.py:104-115 | from an in-bounds cell of a rectangular maze the step raises nothing and stays in bounds |
| Ascii.ChaseCloses | ascii_game.py:119-126 | a mummy stays iff it is on the player; otherwise it ends 2 cells closer, on a cell an even offset from the player |
| Ascii.ChaseCatches | ascii_game.py:119-126 | from an even offset, repeated chases reach the player after exactly half the distance |
| Ascii.CheckMeaning | ascii_game.py:88-98 | won iff the player's tile is the goal; lost iff not and some mummy is on the player's cell |
| Ascii.AsciiLevel.MoveMummies | ascii_game.py:119-126 | every mummy takes its chase step in place; the player is unchanged |
| Ascii.AsciiLevel.Turn | ascii_game.py:87-126 | equals `TurnOf` on the command, the typed line lowered and stripped: the goal and capture tests, then quit, then the player's step and the mummies' step |
| Ascii.AsciiLevel.PlayCommands | ascii_game.py:83-126 | the loop over the commands equals `PlayOf`, turn after turn |
| Ascii.AsciiLevel.Play | ascii_game.py:79-126 | equals `PlayOf` over `Commands` of the lines, each line lowered and stripped; it reads no more lines than typed; it ends on Escaped only on the goal tile and on CaughtByMummy only on a mummy's cell; it ends Continues only with every line read and the game still going |
| Ascii.PlayOfOutcome | ascii_game.py:79-126 | no more turns than commands; no command before the last one read is `q`; the game is quit iff the last command read is `q`; Escaped on the goal tile, CaughtByMummy on a mummy's cell, and a game still going has read every command |
| Ascii.PlayOfLineMoves | ascii_game.py:100-101 | on the typed lines: no line before the last one read is `q` once lowered and stripped |
| Ascii.PlayOfLineQuit | ascii_game.py:100-101 | on the typed lines: the game is quit iff the last line read, lowered and stripped, is `q` |
| Ascii.PlayOfIgnoresLaterLines | ascii_game.py:79-101 | once a game has ended, commands after it change nothing |
| Ascii.LoadLevel | ascii_game.py:21-56 | a level exists iff the maze file is present and not empty; its rows are the translated stripped lines |
| Accounts.UserManager.Register | database.py:34-47 | an existing name fails with "Username already exists!" and leaves the table unchanged; a new name gets level 1, difficulty 1, score 0 |
| Accounts.UserManager.Login | database.py:49-55 | an unknown name, a wrong password, or the stored record |
| Accounts.UserManager.GetLevel | database.py:57-59 | the highest level reached, or 1 for an unknown name |
| Accounts.UserManager.GetDifficulty | database.py:61-63 | the stored difficulty, or 1 for an unknown name |
| Accounts.UserManager.GetScore | database.py:65-67 | the stored score, or 0 for an unknown name |
| Accounts.UserManager.UpdateDifficulty | database.py:69-73 | sets a known user's difficulty; unknown names change nothing |
| Accounts.UserManager.UpdateProgress | database.py:75-81 | the highest level never drops, and changes only when the new level is higher |
| Accounts.UserManager.AddScore | database.py:83-89 | a known user's score grows by exactly `points`; unknown names change nothing |
| Accounts.UserManager.ResetLevel | database.py:91-97 | a known user goes back to level 1 and keeps the score |
| Accounts.UserManager.GetLeaderboard | database.py:99-123 | equals `Leaderboard`: the entries with score of at least 0, stably sorted from the highest score down, cut to seven |
| Accounts.LeaderboardShape | database.py:113-123 | at most 7 pairs, each a user with their own non-negative score, ordered from the highest score down |
| Accounts.LeaderboardComplete | database.py:113-123 | a user with score of at least 0 is missing only when seven users scoring at least as much fill the board |
| Accounts.LeaderboardStable | database.py:121 | users with equal scores keep their order in the file |
| Sorting.SortByStable | main.py:187 | the stable sort keeps the original order of elements that tie |
| Text.ParseIntToString | maze_generator.py:154-158 | `int` reads back the decimal text the agent file is written with, for every integer |

## Left out

- Rendering, animation, sound, menus, popups, input boxes, timing and the screen state machine are user interface, not rules.
- File and OS access is left out: `open`, `os.listdir`, JSON loading and saving, save files, `check_folders`. Files are passed in as lines (`Option<seq<string>>`, `None` for a missing file) and written out as lines.
- `database.py`'s `load_data`/`save_data` and their exception paths are left out. The table is the `users` map field; `order` records the file's key order.
- Records with missing fields are left out: every stored record has all four fields.
- `is_solvable` and the `search` module it calls are not part of this model. `CreateValidLevel` takes solvability as a function parameter.
- Randomness is abstracted as a sequence of draws: `random.choice` and `shuffle` take draws reduced modulo the range. `random.choices` is modelled by one integer draw below 100 against the weights' running totals.
- MazeGen.NumToOpen: models the float cut `int(n * (1.0 - d/100.0))` as integer `(n * (100 - d)) / 100`. Python's float can give one less (n = 10, d = 90 gives 0 there and 1 here).
- MazeGen.PickExplorer: the source's draw loop never ends when no cell is far enough (size 1). `fuel` bounds the draws, and running out returns `None`.
- MazeGen.CreateValidLevel: the source retries forever. `rounds` bounds the mazes built, and running out returns `None`. A try whose explorer loop runs out of `fuel` also returns `None`, where the source would go on drawing.
- MazeGen.TryPlacements: a try that runs out of `fuel` ends the round with `None`, for the same reason.
- MazeGen.MazeGenerator.Generate: requires a fresh generator (an all-wall grid) and a density of at least 0, as every caller gives. A second call on a carved grid is not modelled.
- Text.ParseInt: accepts only an optional sign and ASCII digits. Python's `int` also accepts underscores between digits and non-ASCII decimal digits.
- Text.Lower: folds ASCII letters only.
- The music player, `init_startup_music` and the current-track bookkeeping are left out. Only the threshold assignment is modelled.
- The explorer's facing direction and the sprite records are carried as opaque values.
- Game.Game.Start: requires a rectangular maze with odd side lengths and an explorer on an odd/odd room cell. This leaves out a ragged or even-sided maze, an `E` line with even coordinates, and the fallback explorer at (2, 2) of an agent file without an `E` line (Levels.ExplorerFromLastLine). The game's invariant needs the explorer on a room cell, and every step rule assumes the rectangular grid that the generator writes.
- Game.Game.HalfRoundOne, Game.Game.HalfRoundTwo, Game.Game.UpdateEnemyPosition: an enemy's move in the round is stated as staying or making one legal step. Which step its policy picks is stated per enemy by Characters.Enemy.WhiteMove and Characters.Enemy.RedMove, not carried into the round.
- Board.ListsAfter: its cases where the kept indices do not fit the lists cannot arise after the merges, and there it leaves the lists as they are.
- Levels.SortKey: reads ASCII digits only. Python's `\d` also matches other Unicode decimal digits.
- MazeGen.RandomizeOf: `fuel` bounds the explorer's draws as in MazeGen.PickExplorer, and running out gives `None`.

## Findings

| source | as written | input that shows it | evidently intended | confidence | as-written member | corrected member |
|---|---|---|---|---|---|---|
| main.py:365-374 | `update_list_character` deletes at `j` while `i` still indexes the list. After a deletion below `i` when `i` was the last index, `list_char[i]` reads past the end and raises `IndexError`. | four enemies of one kind on cells `[p, q, p, p]`: the pass with `i = 2` deletes index 0, then reads index 2 of a list of length 2 | the inner loop stops once `i` is no longer an index of the list | not executed | Rosters.DedupAsWrittenRaises | Rosters.UpdateListCharacter |
