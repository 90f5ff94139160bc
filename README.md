# La carte aux trésors — a verified model of the simulation engine

The program moves adventurers over a rectangular treasure map. The map has
mountains, which cannot be crossed, and treasure cells, which hold a count of
units. Each adventurer follows its own string of directives: `A` steps
forward, `D` turns right and `G` turns left. The simulation runs tick by tick.
In each tick every adventurer first proposes a next position and
orientation. Then, in array order, every adventurer commits its proposal: it
moves if the target is not a mountain and is a different cell, picks up one
unit of any treasure there, and advances its cursor only if no adventurer with
another name proposed the same cell. The loop runs until every cursor has
reached the end of its directives.

This project models that engine (`index.js`) in Dafny:

- `orientation.dfy`: the orientation encoding and the turn arithmetic, using
  JavaScript's truncating `%` and `|| 4`.
- `board.dfy`: cells (`Empty`, `Mountain`, `Treasure(n)`), the map as rows
  `board[y][x]`, and the treasure totals.
- `adventurers.dfy`: the adventurer record, `getNextPosition`, and the propose
  and commit steps for one adventurer.
- `simulation.dfy`: one tick. It is specified on values: `TickSpec` is the
  propose pass followed by a fold of the commit over the list. It is also
  implemented in place: `Tick` works on an `array2<Cell>` and an
  `array<Adventurer>` and is proved equal to `TickSpec`.
- `simulation_properties.dfy`: what a tick preserves — bounds, mountains,
  no adventurer on a mountain, treasure conservation, the contest rule,
  cursor monotonicity, and the stale proposals of finished adventurers.
- `run.dfy`: the loop. `Ticks` repeats `TickSpec` within a tick budget, and
  its contract carries what every tick preserves over the whole run. `Run` is
  the loop on any input it accepts: a list in which no adventurer has a
  directive left is returned unchanged, with or without proposals.
  `SimulateAdventurersMoves` runs the loop in place and is proved equal to
  `Run`.
- `map_init.dfy`: `initializeMap` on typed records. The records are
  collected, a grid of `.` is laid out, mountains are written, then treasures.
- `scenarios.dfy`: two concrete runs. One is a single adventurer walking onto
  a treasure. The other is a pair of adventurers stuck against the west edge
  forever.

Assumption: the orientation table comes from a constants file that is not
part of this model. The turn expressions at index.js:99 and index.js:102
cycle through four values only when the four orientations are the numbers
1 to 4. The model takes North = 1, East = 2, South = 3, West = 4. Any other
assignment of 1 to 4 in which `D` still turns right (a rotation of this
one) gives the same simulation up to renaming of the orientations.

The model follows the code, including where its comments, or a reader's
expectation, say otherwise:

- A contested adventurer still moves and still collects treasure. The
  comments at index.js:123-124 and 144-145 say its move is ignored. In the
  code, the move test at index.js:125 does not look at the contest; only the
  orientation and the cursor are held back. Two adventurers that target the
  same cell can therefore both end up on it (`ContestedAdventurerStillMoves`).
- A finished adventurer is not skipped. In the propose pass its directive is
  `undefined`, so it keeps its last proposal. That stale proposal still takes
  part in the contest check, and the adventurer's cursor keeps growing past
  the end of its directives.
- An unknown directive does not propose "no change". It keeps the previous
  proposal.

## Model

| member | source | states |
|---|---|---|
| Orientation.JsRemFour | index.js:99-102 | JavaScript's `% 4`: the result has the sign of the dividend, lies strictly between -4 and 4, agrees with the Euclidean remainder on non-negative numbers, and is zero exactly when the number is a multiple of 4 |
| Orientation.TurnRight | index.js:99 | on an orientation in 1..4, `(o + 1) % 4` with 0 read as 4 stays in 1..4 and is the cyclic successor N→E→S→W→N |
| Orientation.TurnLeft | index.js:102 | on an orientation in 1..4, `(o - 1) % 4` with 0 read as 4 stays in 1..4 and is the cyclic predecessor |
| Orientation.TurnsAreInverse | index.js:99-102 | right and left turns undo each other, in both orders |
| Orientation.FourTurnsReturn | index.js:99-102 | four right turns, or four left turns, give back the starting orientation |
| Adventurers.GetNextPosition | index.js:156-175 | keeps the orientation; from a cell on the grid it returns a cell on the grid, which is the neighbour one step along the facing direction if that neighbour is on the grid and the same cell otherwise (the clamp at the edge); an orientation outside 1..4 does not move |
| Adventurers.ProposeOne | index.js:94-106 | only the proposal changes; `A` proposes the forward step, `D`/`G` propose the same cell with the turned orientation; a finished cursor or an unknown directive keeps the previous proposal; a ready adventurer has a proposal afterwards; positions and proposals on the grid stay on it |
| Adventurers.CommitOne | index.js:111-149 | name, directives and proposal kept; contested: cursor and orientation kept; uncontested: cursor + 1 and the proposed orientation; it moves exactly when the target is not a mountain and differs from its cell, contested or not, and only onto the target; afterwards it stands on the target or the target is a mountain; one unit per arrival on a treasure, the cell going from `T(n)` to `T(n-1)` or to `.`; mountains are neither created nor removed; map treasure plus carried treasure is conserved |
| Simulation.ProposeAll | index.js:93-107 | the propose pass keeps the list's length and order, and every adventurer proposes on its own from the pre-tick state |
| Simulation.CommitAt | index.js:111-149 | committing one adventurer keeps map and adventurers on the grid, keeps every name, directive string and proposal, touches no other adventurer, and keeps every mountain |
| Simulation.CommitUpTo | index.js:110-150 | the commit pass over the first k adventurers keeps the map's shape, keeps everyone on the grid, and leaves names, directives and proposals as they were |
| Simulation.TickSpec | index.js:92-151 | bounds: if every position and proposal is on the grid before a tick, they all are after it; the map keeps its dimensions; every adventurer has a proposal |
| Simulation.FindContender | index.js:116-121 | `find` returns the first adventurer that proposed the cell under another name, or nothing exactly when no adventurer did |
| Simulation.AnyActive | index.js:92 | `some` is true exactly when some cursor is short of the end of its directives |
| Simulation.ProposePass | index.js:93-107 | the in-place propose pass leaves the array equal to `ProposeAll` of the old array |
| Simulation.CommitAdventurer | index.js:111-149 | the in-place commit of adventurer i leaves map and array equal to `CommitAt` of the old state |
| Simulation.CommitPass | index.js:110-150 | the in-place commit pass leaves map and array equal to `CommitUpTo` over every adventurer |
| Simulation.Tick | index.js:92-151 | one in-place tick leaves map and array equal to `TickSpec` of the old state |
| SimulationProperties.ContestedOnlyReadsPlans | index.js:116-121 | whether a cell is contested depends only on names and proposals, so it is the same at every point of the commit pass |
| SimulationProperties.CommitUpToKeepsMountains | index.js:125-141 | the commit pass writes only treasure cells: every cell is a mountain afterwards exactly when it was before |
| SimulationProperties.CommitAtConserves | index.js:131-141 | one commit keeps every treasure count positive and moves exactly the units it collects from the map to the adventurer |
| SimulationProperties.CommitUpToConserves | index.js:110-150 | the commit pass keeps treasure counts positive and keeps map treasure plus carried treasure constant |
| SimulationProperties.CommitAtEffects | index.js:111-149 | one commit changes adventurer k by the contest and move rules judged against the current map and leaves it on its target unless that is a mountain; every other adventurer that stood on its target (or was blocked by a mountain) still does |
| SimulationProperties.CommitUpToEffects | index.js:110-150 | after the first k commits, each of those adventurers was changed by the contest and move rules, judged against the pre-pass map, and stands on its target unless the target is a mountain; the others are untouched |
| SimulationProperties.TickKeepsMountains | index.js:113-141 | no tick creates or removes a mountain |
| SimulationProperties.TickConservesTreasure | index.js:131-141 | with every treasure count at least 1, a tick keeps the counts positive and keeps collected plus remaining treasure constant |
| SimulationProperties.TickContestRule | index.js:116-149 | contested for the tick (another-named adventurer proposed the same cell) ⇒ same cursor and orientation; uncontested ⇒ cursor + 1 and the proposed orientation |
| SimulationProperties.TickMoveRule | index.js:125-141 | an adventurer changes cell exactly when its target is not a mountain and is another cell, contested or not, and then only onto the target; its treasure count grows by at most one, and only by moving |
| SimulationProperties.TickStepMonotonic | index.js:146-149 | a tick never decreases a cursor and advances it by at most one |
| SimulationProperties.TickSettles | index.js:125-128 | after a tick every adventurer stands on its proposed cell or that cell is a mountain |
| SimulationProperties.FinishedAdventurerStaysPut | index.js:94-128 | a finished adventurer standing on its stale proposal (or blocked by a mountain) keeps its cell, its treasure and its proposal through a tick; its cursor does not go back |
| SimulationProperties.TickKeepsOffMountains | index.js:125-128 | if no adventurer stands on a mountain before a tick, none does after it |
| SimulationProperties.TickPreserves | index.js:92-151 | one tick never decreases a cursor, keeps every mountain, and on a map whose treasure cells hold at least one unit keeps the counts positive and collected plus remaining treasure constant |
| SimulationRun.Ticks | index.js:92-151 | once every adventurer has a proposal, over any number of ticks: the map keeps its dimensions, every position and proposal stays on the grid, every adventurer keeps a proposal, no cursor moves back, mountains stay exactly where they were, and on a map whose treasure cells hold at least one unit the counts stay positive and collected plus remaining treasure is constant |
| SimulationRun.Run | index.js:92 | the loop accepts every valid input in which either no adventurer has a directive left or every adventurer has a proposal; in the first case it returns the input unchanged, and afterwards positions and proposals are still on the grid and the list is still done or ready |
| SimulationRun.RunPreserves | index.js:92-151 | on every input the loop accepts: dimensions kept, no cursor moves back, mountains kept, and treasure conserved on a map whose treasure cells hold at least one unit |
| SimulationRun.RunKeepsOffMountains | index.js:125 | if no adventurer starts on a mountain, none stands on one after any number of ticks |
| SimulationRun.TicksKeepsOffMountains | index.js:92-151 | the same for the ticks of the loop once every adventurer has a proposal |
| SimulationRun.SimulateAdventurersMoves | index.js:91-152 | the loop leaves map and array equal to `Run` of the old state, reports whether it finished within the tick budget, and on finishing every cursor is at or past the end of its directives |
| SimulationRun.TickLoop | index.js:92-151 | the `while` loop on a ready list leaves map and array equal to `Ticks` of the old state and reports whether the loop condition became false |
| SimulationRun.RunCollectsAtMostInitialTreasure | index.js:92-151 | the adventurers never carry more than the initial map treasure plus what they started with |
| SimulationRun.RunStaysAtFixedPoint | index.js:92-151 | a state that one tick leaves unchanged is never left again |
| SimulationRun.RunNeverFinishesOnceStuck | index.js:92 | if the first tick leads to a state that ticks leave unchanged and in which an adventurer is still active, that adventurer stays active whatever the budget, so the loop never exits |
| MapInit.CollectRecords | index.js:22-47 | the size is that of the last `C` record; mountains and treasures are the `M` and `T` records, in input order |
| MapInit.BuildGrid | index.js:50-62 | a fresh height × width grid whose cell (x, y) is the last treasure written there if any, else a mountain if one was written there, else `.` |
| MapInit.InitializeMap | index.js:17-65 | no `C` record is an error; a height of zero or less gives a map with no rows; a positive height with a negative width is an error; otherwise a height × width grid with `ExpectedCell` in every cell |
| MapInit.CollectedFit | index.js:22-41 | every collected mountain and treasure comes from a record, so it lies on the grid when the records do |
| MapInit.LastSizeIsLastRecord | index.js:26-29 | a later `C` record replaces an earlier one |
| MapInit.NoSizeRecord | index.js:26-29 | the dimensions are missing exactly when there is no `C` record |
| MapInit.MountainListed | index.js:31-35 | a cell is among the collected mountains exactly when some `M` record names it |
| MapInit.TreasureListed | index.js:37-41 | a cell has no collected treasure exactly when no `T` record names it |
| MapInit.LastTreasureRecordWins | index.js:55-62 | the last `T` record at a cell decides that cell, over any mountain or earlier treasure there; counts are not summed |
| MapInit.MountainRecordStands | index.js:55-57 | an `M` record's cell is a mountain when no `T` record names it |
| MapInit.UnlistedCellEmpty | index.js:50-52 | a cell that no record names is `.` |
| MapInit.InitialCellsPositive | index.js:37-62 | if every `T` record has a count of at least 1, so does every treasure cell of the new map |
| Scenarios.WalkSouthCollects | index.js:91-152 | 4 × 3 map, mountain at (1, 0), treasure 1 at (0, 2), adventurer at (0, 0) facing south with `AA`: after two ticks it is at (0, 2) facing south with 1 treasure, the cell is empty and the loop is done |
| Scenarios.ContestedAdventurerStillMoves | index.js:116-149 | two adventurers facing west, at (0, 0) and (1, 0), both propose (0, 0); both are contested, neither cursor advances, and the second still moves onto (0, 0) |
| Scenarios.EdgeStuckIsFixedPoint | index.js:92-151 | from there every tick repeats the same contest and changes nothing |
| Scenarios.EdgeDeadlockNeverFinishes | index.js:92 | so on that input the loop condition never becomes false, whatever the tick budget |

## Left out

- File and process I/O are not modelled: reading the input, the argument check and `process.exit`, writing the output file, and the top-level script (index.js:1-14, 177-222). The output lists mountains, then treasures, scanning the map row by row.
- Text parsing is not modelled: the `split(' - ')`, `Number`, `parseInt` and the orientation-name lookup in `initializeMap` and `initializeAdventurers` (index.js:23-40, 68-88). The model takes typed records and typed adventurers. The constants file that maps orientation names to numbers is not part of this model.
- The `T(n)` string encoding of a treasure cell and its regular expression (index.js:61, 132) are replaced by the `Cell` datatype. A negative or fractional count, on which that regular expression fails and the source throws, is not modelled. Such a count is treated like a count of at most 1.
- Out-of-range records and positions are excluded by preconditions (`RecordsFit`, `Valid`) and not modelled. An out-of-range `y` throws (index.js:56, 61, 113). An out-of-range `x` silently grows or decorates a row at index.js:56 and 61. At index.js:113 it reads `undefined`: an adventurer that then moves throws at index.js:131, and one that does not move goes on unchanged.
- A list in which some adventurer still has directives left and some adventurer has no proposal before the first commit is excluded by a precondition (`AllReady`, unless `AllDone`). With it the source throws: this happens on the first tick when an adventurer's first directive is missing or unknown, and the destructuring at index.js:111 and the `find` at index.js:118 fail. A list in which every directive string is already used up is accepted: the loop body never runs.
- Termination of the run is not modelled. The loop at index.js:92 can run forever (`EdgeDeadlockNeverFinishes`), so `Run` and `SimulateAdventurersMoves` take a tick budget. The model does not say whether a given input finishes.
- Adventurer records are stored as values in an array slot. The source's records are distinct objects that nothing else references, so object identity and aliasing are not modelled.
- Directive strings are sequences of Unicode scalar values. JavaScript's `length` and indexing at index.js:92 and 94 count UTF-16 code units, so a directive outside the Basic Multilingual Plane (an emoji, say) takes two unknown-directive ticks in the source and one in the model. Tick counts and the interleaving of adventurers can then differ.
- JavaScript numbers are doubles. The model uses unbounded integers, so it does not model precision loss for huge coordinates or counts, or the `Array(width)` limit of 2^32 - 1.
- `getNextPosition` on a map with no rows (where `map[0]` is undefined) is not modelled. The bounds precondition of the tick already excludes it.
- MapInit.InitializeMap: for a height of zero or less, the source returns an empty list of rows with no width. The model returns a 0 × 0 array.
- index.test.js is not modelled. It runs the script as a process and compares files. Its first test compares the output with itself, and its other assertions depend on an input file that is not part of this model.
