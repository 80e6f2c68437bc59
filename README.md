# Two grid games, modelled in Dafny

This project models the game logic of the two grid games on the site:

- **2048** (`2048/gameObjects.js`, `2048/app.js`). A `Grid` object keeps a
  square table `cells[x][y]` of cells, each either unoccupied or holding a
  tile value. It also keeps a counter `totalUnoccupied` and a pending
  `direction`. `addValue` puts a 2 or a 4 into the rnd-th unoccupied cell,
  scanning x first, then y. `moveCells` runs exactly three passes toward the
  pending direction. Each pass walks every line except the one at the
  target edge, nearest line first, and steps each tile one cell toward that
  edge. A tile shifts into an unoccupied neighbour, or merges into a
  neighbour of the same value, which doubles. There is no "merged this
  turn" lock, so a merged tile can merge again in the same move. If
  anything moved, the direction is cleared and one tile is added. The key
  handler maps the arrow keys to directions, adds a tile on space, and
  always calls `moveCells`. Start-up seeds two tiles.
- **Snake** (`snake-game/gameObjects.js`, `snake-game/app.js`). A `Snake`
  object has a head position that is advanced in place, a velocity, and a
  body list of head copies with a `length` counter. The page keeps the
  flags `started`, `pause` and `dead`, the snake, the food cell and a frame
  counter. Arrow keys turn the snake. The opposite arrow only sets `dead`,
  which ends the game at the end of the next frame unless that frame is an
  unpaused tick, whose hit test overwrites it.
  Space pauses, resumes or restarts. Every tenth frame the snake moves,
  eats when its head reaches the food, and is hit-tested.

Layout:

- `board2048.dfy` (module `Board2048`) holds the 2048 table as a value.
  This covers the scan order of unoccupied cells (`Empties`), the new-tile
  placement (`AddTile`) and one step (`Apply`). The step schedule of a move
  is grouped like the game's loops: `LineRun` for a line, `PassRun` for a
  pass, `SweepRun` for the passes, and `Slid` for the three passes of a
  move. The lemmas say what a step, and so a move, conserves.
- `grid2048.dfy` (module `Grid2048`) holds the `Grid` class. Its methods
  update `cells`, `totalUnoccupied` and `direction` in place, and each is
  proved against the functions above. The constructor, `AddValue` and
  `MoveCells` keep the class invariant `Valid()`: the counter equals the
  number of unoccupied cells, and every tile is a power of two of at least
  2. The loop pieces `FindEmpty`, `StepCell` and `SlideLine` only need the
  table to be well shaped, and state how the counter follows the table.
- `app2048.dfy` (module `App2048`) holds the 2048 key handler and the
  start-up seeding.
- `snake.dfy` (module `SnakeObjects`) holds the mutable vector `V2d`, the
  `Snake` class and the hit test.
- `snakegame.dfy` (module `SnakeApp`) holds the snake page state as a
  `Game` class: `init`, the key handler and one animation frame.

The source writes the four directions of `moveCells` as four copies of
the same loops. The model writes them once. `Source` gives the cell that
line k, position j of a pass visits for each direction. `Neighbour` gives
the cell one step toward that direction.

Random draws are parameters:

- `rnd` stands for `randint(0, totalUnoccupied)`.
- `r` stands for `random(0, 1)`.
- `foodPos` stands for the new food cell.

Positions in the snake game are integer cells, so the distance tests
`dist < 0.1` and `dist <= 0.1` are written on squared distances. The
lemma `TenthMeansSame` shows that both tests mean equality.

## Model

| member | source | states |
|---|---|---|
| `Board2048.EmptyBoard` | 2048/gameObjects.js:10-20 | a fresh cols x rows table has every cell unoccupied, and exactly cols * rows unoccupied cells |
| `Board2048.EmptiesInScanOrder` | 2048/gameObjects.js:34-46 | the list of unoccupied cells holds exactly the unoccupied cells, each in range, in strict x-then-y scan order |
| `Board2048.EmptiesAtScan` | 2048/gameObjects.js:34-43 | when the scan reaches an unoccupied cell after counting `count` unoccupied cells, that cell is entry `count` of the list |
| `Board2048.CountEmptyPut` | 2048/gameObjects.js:47-48 | replacing one cell changes the number of unoccupied cells only by the change at that cell |
| `Board2048.TileFor` | 2048/gameObjects.js:50-55 | a new tile is 2 or 4, and it is 2 exactly when the draw is below 0.8 |
| `Board2048.AddTile` | 2048/gameObjects.js:26-57 | a full table is unchanged; otherwise the rnd-th unoccupied cell in scan order gets the new tile, every other cell is unchanged, and the count of unoccupied cells drops by one |
| `Board2048.AddTileKeepsPowers` | 2048/gameObjects.js:50-55 | adding a tile keeps every tile a power of two of at least 2 |
| `Board2048.Neighbour` | 2048/gameObjects.js:73-74 | the neighbour toward a direction is a different cell |
| `Board2048.MoveAt` | 2048/gameObjects.js:70-71 | every step of a pass, in every direction, goes from a cell of the table to its in-range neighbour toward the direction |
| `Board2048.ApplyFrom` | 2048/gameObjects.js:72-90 | a step does the same thing to the table whatever happened earlier in the move; it only sets the moved flag and adds to the merge count |
| `Board2048.ApplyKeepsTotal` | 2048/gameObjects.js:72-90 | a shift or merge keeps the sum of all tile values |
| `Board2048.ApplyKeepsColumns` | 2048/gameObjects.js:72-90 | a step inside one column keeps every column's sum (up and down moves) |
| `Board2048.ApplyKeepsRows` | 2048/gameObjects.js:134-151 | a step inside one row keeps every row's sum (left and right moves) |
| `Board2048.ApplyCountsMerges` | 2048/gameObjects.js:73-89 | a shift keeps the number of unoccupied cells, and a merge raises it by exactly one |
| `Board2048.DoubleIsPower` | 2048/gameObjects.js:84 | doubling a power of two of at least 2 gives a power of two |
| `Board2048.ApplyKeepsPowers` | 2048/gameObjects.js:84 | a step keeps every tile a power of two of at least 2 |
| `Board2048.ApplyKeeps` | 2048/gameObjects.js:72-91 | one step toward d keeps all of `Keeps`: the sums, the unoccupied count plus merges, powers of two, the moved flag never cleared, an unmoved step changing nothing, and an unoccupied cell once anything moved |
| `Board2048.LineRunKeeps` | 2048/gameObjects.js:71-92 | the steps of one line keep all of `Keeps` |
| `Board2048.PassRunKeeps` | 2048/gameObjects.js:70-93 | the lines of one pass keep all of `Keeps` |
| `Board2048.SweepRunKeeps` | 2048/gameObjects.js:69-95 | any number of passes keep all of `Keeps` |
| `Board2048.SlidConserves` | 2048/gameObjects.js:60-191 | the three passes keep the total, each column total (up/down) or row total (left/right), and powers of two; unoccupied cells grow by exactly the merges; if nothing moved, table and count are as before; if something moved, an unoccupied cell exists for the new tile |
| `Board2048.MergedTileMergesAgain` | 2048/gameObjects.js:69-95 | with no merge lock, a column holding nothing, 2, 2, 4 (from y = 0 up) moved up ends as a single 8 after two merges |
| `Grid2048.Grid.constructor` | 2048/gameObjects.js:2-24 | rows = cols = floor(gridSize / cellSize), every cell unoccupied, totalUnoccupied = rows * cols, no pending direction, invariant established |
| `Grid2048.Grid.FindEmpty` | 2048/gameObjects.js:31-46 | the scan with counter and breaks finds exactly the rnd-th unoccupied cell in x-then-y order |
| `Grid2048.Grid.AddValue` | 2048/gameObjects.js:26-58 | returns false and changes nothing on a full table; otherwise returns true, the table becomes `AddTile` of the old one, the counter drops by one, and the invariant is kept |
| `Grid2048.Grid.StepCell` | 2048/gameObjects.js:72-91 | the cell step shifts exactly when the outcome is a shift and merges exactly when it is a merge; the table is the step's result; the counter rises by one on a merge; the direction is cleared on any change |
| `Grid2048.Grid.SlideLine` | 2048/gameObjects.js:71-92 | the loop over one line leaves the table, moved flag and merge count of `LineRun`; the counter rises by the merges; the direction is cleared once anything moved |
| `Grid2048.Grid.MoveCells` | 2048/gameObjects.js:60-191 | with no pending direction nothing changes; otherwise, if the three passes moved nothing, table, counter and direction are unchanged; if they moved something, the table is the slid table plus one new tile, the counter matches it, and the direction is cleared; the invariant is kept, and any pending direction left is one that moves nothing |
| `App2048.ArrowKey` | 2048/app.js:13-28 | each direction's arrow key is one of the codes 37 to 40 |
| `App2048.KeyDirectionOfArrows` | 2048/app.js:13-31 | exactly the codes 37 (left), 38 (up), 39 (right), 40 (down) select a direction, each its own; space selects none |
| `App2048.HandleKey` | 2048/app.js:10-34 | an arrow sets the pending direction, space adds a tile first, and the pending move is then always tried; the result is the slide plus a new tile if it moved, else the table with the direction still pending |
| `App2048.Startup` | 2048/app.js:36-41 | a fresh 4 x 4 grid gets two tiles, one per draw, leaving 14 unoccupied cells and no pending direction |
| `SnakeObjects.DistSquared` | snake-game/gameObjects.js:50 | a squared distance is never negative |
| `SnakeObjects.TenthMeansSame` | snake-game/gameObjects.js:50-51 | on integer cells, distance below 0.1 and distance at most 0.1 both hold exactly when the cells are equal |
| `SnakeObjects.ShortSnakeOnlyHitsWalls` | snake-game/gameObjects.js:48-58 | with length 2 or less the body part of the hit test never fires |
| `SnakeObjects.EatSelfHit` | snake-game/gameObjects.js:40-58 | after eating, the body hits itself exactly when it did before or already had the head twice at its front; the new duplicate head at index 1 is not counted |
| `SnakeObjects.MovedShape` | snake-game/gameObjects.js:35-38 | a move keeps the number of segments and shifts all but the last one place back; with a non-zero velocity the new head differs from the old one |
| `SnakeObjects.Snake.constructor` | snake-game/gameObjects.js:2-9 | velocity (1, 0), length 1, body one fresh copy of the head, invariant established |
| `SnakeObjects.Snake.AddPart` | snake-game/gameObjects.js:11-19 | a fresh copy of the head goes to the front; the last segment is dropped when the snake had a length, otherwise the length becomes 1 |
| `SnakeObjects.Snake.Move` | snake-game/gameObjects.js:35-38 | the head moves by the velocity; the body becomes the new head plus the old body without its last segment; old segments keep their cells; the length and invariant are kept |
| `SnakeObjects.Snake.Eat` | snake-game/gameObjects.js:40-44 | a fresh head copy is pushed in front, nothing is dropped, and the length rises by exactly one |
| `SnakeObjects.Snake.CheckHit` | snake-game/gameObjects.js:46-66 | true exactly when the head is out of bounds (x + 1 > cols, x < 0, y > rows or y < 1) or the head cell equals a segment at index 2 or later |
| `SnakeApp.ArrowVelocity` | snake-game/app.js:57-84 | every arrow asks for a unit velocity along one axis |
| `SnakeApp.MayTurnUnlessOpposite` | snake-game/app.js:57-84 | for a unit velocity, the one-component test refuses exactly the arrow opposite to the current direction |
| `SnakeApp.TicksEveryTenFrames` | snake-game/app.js:104-105 | the frame counter runs 0, 1..10, 1..10, so ticks fall on exactly every tenth frame |
| `SnakeApp.Game.constructor` | snake-game/app.js:7-37 | cells of 40 pixels, whole columns and rows of the canvas, the initial game state with a new snake and a new head vector, score 0 and frame counter 0 |
| `SnakeApp.Game.Init` | snake-game/app.js:28-35 | not started, paused, alive, a new one-segment snake at (2, 5) moving right, with a new head vector, food at the drawn cell |
| `SnakeApp.Game.HandleKey` | snake-game/app.js:54-95 | an arrow turns the snake unless it is the opposite one, which sets dead instead, and keeps its cells, length, head and the flags; space toggles pause and sets started in a live game, keeping the snake's cells, length, head, velocity and the food, or restarts a dead one with a new snake and head vector; other keys change none of the flags, the snake's cells, length, head or velocity, or the food; started only goes back to false through a restart |
| `SnakeApp.Game.Advance` | snake-game/app.js:108-117 | the snake's own head vector moves in place; it eats (score +1, new food) exactly when the new head is the food cell; dead becomes the hit test of the new body |
| `SnakeApp.Game.Frame` | snake-game/app.js:98-164 | the snake (same snake and head objects) advances only on a tick frame while unpaused; otherwise snake, food and dead are unchanged; a dead game ends the frame paused; the counter follows the throttle |

## Left out

- Drawing is not modelled: every `show` method, `drawGrid`, the text of `gameOver`, the score display, the Pen and the canvas. The score's value is `SnakeApp.Game.Score`.
- The canvas size is a parameter (`width` and `height` of `SnakeApp.Game.constructor`), and so are the browser event wiring and the animation loop. Each handler call and frame is a method call.
- `randint` and `random` are not part of this model. Their results are parameters. `rnd` is assumed to lie in [0, totalUnoccupied). The food cell is not constrained, because the range of `randint(1, cols)` is not known here.
- `V2d` is modelled only as a mutable pair of integers (`SnakeObjects.V2d`): `add` adds in place, and `dist` is the Euclidean distance, used through `DistSquared`. The rest of the vector library, where `V2d` is defined, is not part of this model. Coordinates are integers, as the games use them.
- The `Cell` fields `x`, `y`, `w`, `posx` and `posy` are left out because they only serve drawing. An unoccupied cell's `value` (0 at first, `undefined` after a shift) is never read by the game logic, so `Cell.Empty` carries none.
- `Grid2048.Grid.FindEmpty`, `Grid2048.Grid.StepCell`, `Grid2048.Grid.SlideLine` and `SnakeApp.Game.Advance` are pieces of one source function, split out as methods of their own. The loops and branches inside them are the source's.
- `checkHit`'s flag `a` starts `undefined` in the source. That value acts as false in `a || b`, so the model starts it at false.
- `Grid2048.Grid.constructor` takes sizes that are natural numbers and requires a positive `cellSize`. The source divides any two numbers. With a zero cell size and a positive grid size it would loop forever. With both sizes zero the row count is NaN, so it builds no cells and the counter is NaN. With a negative grid size it builds no cells, yet the counter is `rows * rows` of a negative `rows`. The game only ever calls it with the defaults 100 and 400.
- `console.log` at start-up is left out.
- The flocking simulation, the particle backgrounds, the React pages, the sitemap script and the build configuration are outside the two games.
