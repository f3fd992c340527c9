# Sokoban Mini rule engine in Dafny

A model of the rule engine of Sokoban Mini, a single-screen box-pushing game
written as one browser script (`main.js`). The player walks a grid, pushes boxes
one cell at a time, and wins when every box rests on a goal. The model covers:

- the level parser (`parseLevel`), which reads the tile picture into a wall set,
  a goal set, a box set and a player cell, and takes the snapshot used by reset;
- the cell queries `isWall`, `isGoal` and `hasBox` (set membership);
- the win check (`allBoxesOnGoals`);
- one move request (`tryMove`): bump, push, blocked push, plain step, the freeze
  once won, and the win flag raised after an accepted step;
- `reset`;
- the key table in `onKey`, which lower-cases the key name and maps `r` to reset
  and the arrow keys and WASD to steps.

The game keeps its state in script-level variables and stores the win flag as a
DOM attribute. Here the state is one immutable value, `Engine.Game`, and the flag
is its `won` field. Cells are integer pairs (`Grid.Pos`): the string key `"r,c"`
the game builds is an injective encoding of the pair. Coordinates are unbounded,
because `tryMove` does no bounds checks and relies on the wall border of the
level.

Modules:

- `Grid`: cells, directions (`dx` changes the column, `dy` the row) and row-major order.
- `Engine`: the state, `AllOnGoals`, `CheckWin`, `Move` and `Reset`, and the
  invariant `Valid`. `Valid` says no box and no player stands on a wall, the
  player never shares a cell with a box, the box count stays that of the
  snapshot, and the win flag is only set when the win condition holds.
- `Level`: `ParseLevel`. It is specified against the tile at each cell (`CharAt`),
  not against its own loop.
- `Session`: the key table, single commands, and runs of commands.
- `FixedLevel`: the level the game ships. It proves that the parser loads the
  hand-written start state, that every state reachable from a loaded game is
  valid, and that a five-move line wins.

Behaviour of the code worth knowing:

- The shipped level (main.js:6) has its goal at (2, 3), one column left of the
  box at (3, 4). Pushing straight up therefore never wins: the box stops under
  the top wall (`FixedLevel.PushingUpIsBlocked`).
- The code does not check for exactly one player tile. The last player tile in
  row-major order wins, or the default (0, 0) stays when there is none
  (main.js:34). Validity after loading is only promised when a player tile
  exists (`Level.LoadedIsValid`).
- The win flag is only re-evaluated after an accepted step (main.js:101-104).
  A level whose boxes all start on goals loads with the flag clear, and the flag
  stays clear after a rejected move. So the invariant proved is "flag set
  implies win condition", and `Move` states the equivalence only for accepted
  steps.
- An empty level makes the script fail while sizing the grid (main.js:17).
  `ParseLevel` returns `None` for it.

## Model

| member | source | states |
|---|---|---|
| Engine.CheckWin | main.js:78-81 | the box scan with early exit returns true exactly when the box set is non-empty and every box is on a goal |
| Engine.Move | main.js:83-105 | walls, goals and snapshot never change; a won game or a step into a wall changes nothing; a push against a wall or a box changes nothing; a push removes exactly the pushed box, adds one box behind it, keeps every other box and the box count, and puts the player on the box's old cell; a plain step moves the player by (dy, dx) and keeps the boxes; a rejected request changes nothing; after an accepted step the flag is set iff every box is on a goal (at least one box); the flag never goes from true to false; `Valid` is preserved |
| Engine.Reset | main.js:107-113 | boxes and player become exactly the snapshot, the flag is cleared, walls, goals and snapshot are kept, and `Valid` is preserved |
| Level.ParseLevel | main.js:40-56 | an empty level fails; otherwise a cell is a wall iff its tile is `#`, a goal iff `.`, `*` or `+`, a box iff `$` or `*`; the player is the last `@`/`+` tile in row-major order, or (0, 0) if there is none; the snapshot equals the loaded boxes and player; the flag is clear; with a player tile the loaded game is `Valid` |
| Level.VisitExtends | main.js:44-50 | handling one cell's tile extends a correct scan of the cells before it to a correct scan that includes it |
| Level.LoadedIsValid | main.js:44-50 | a loaded level that has a player tile keeps boxes and player off walls and the player off boxes, since each cell holds one tile |
| Session.Lower | main.js:116 | the lower-cased key name has the same length, each character lower-cased, and no upper-case ASCII letter left |
| Session.KeyCommand | main.js:117-127 | every step the key table issues is a unit step in one of the four directions; the table issues a reset exactly for the key `r` in either case; it issues nothing exactly for the keys whose lower-cased name is none of `r` and the eight direction names |
| Session.KeysIgnoreCase | main.js:116 | the key table gives the same command for a key name and its lower-cased form |
| Session.KeyDirections | main.js:117-122 | left/a and right/d change the column by one; up/w lowers the row index by one and down/s raises it |
| Session.Step | main.js:123-127 | reset always returns to Playing; a move while Won changes nothing; a move that switches Playing to Won leaves every box on a goal; `Valid` is preserved |
| Session.Run | main.js:83-113 | any sequence of commands keeps walls, goals and snapshot, so a later reset forgets the whole history; `Valid` is preserved; moves alone keep the box count, and leave a won game unchanged |
| Session.RunAppend | main.js:115-129 | running two command sequences in turn equals running their concatenation |
| Session.ResetIdempotent | main.js:107-113 | resetting twice is the same as resetting once |
| FixedLevel.StartIsLoaded | main.js:3-14 | the shipped level loads walls on the border of the 10 by 10 room, one goal at (2, 3), one box at (3, 4) and the player at (5, 4) |
| FixedLevel.Reachable | main.js:3-14 | every state reached by any commands from a game the parser loads from the shipped level is `Valid` |
| FixedLevel.PushingUpIsBlocked | main.js:88-94 | pushing up three times from the start leaves the box at (1, 4) under the wall, not won, and a further push up changes nothing |
| FixedLevel.SolutionWins | main.js:101-104 | up, up, right, up, left ends with the box on the goal and the game won; later moves change nothing; reset returns to the loaded state |

## Left out

- Rendering (`render`, main.js:62-76), the element lookups and grid styling (main.js:19-23) and the status text (main.js:102, 110): presentation only.
- Event wiring (`addEventListener`, `preventDefault`, main.js:123-135): host plumbing. A key press is modelled as `Session.KeyCommand` followed by `Session.Step`.
- Session.Lower: lower-cases ASCII letters only, not the full Unicode mapping of `toLowerCase`. No other character lower-cases to a letter used in the key table except the Kelvin sign, which becomes `k`, a letter no key name in the table uses, and the dotted capital I, which becomes `i` followed by a combining dot, so the extra mark keeps it from matching any name.
- Session.KeyCommand: inherited properties of the JavaScript object used as the table (`constructor` and the like) are not modelled as entries, since no key press reports such a name.
- Level.ParseLevel: tiles are Dafny characters, not UTF-16 code units. The level is ASCII, so the two agree.
- Level.ParseLevel: the game parses once, so the player starts from the default (0, 0). A repeated parse would start from the previous player cell. This is not modelled.
