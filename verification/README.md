# Snake game engine, modelled in Dafny

This project models the rules of a single-screen browser Snake game (`src/App.js`).
The game keeps a snake on a 15 x 15 board, tail first and head last, a food cell,
a direction of travel, and two flags, `gameOver` and `moving`. The model covers
four things:

- the arrow-key handler, which refuses a request to turn straight back;
- the movement tick, which moves the head one cell, ends the game on a wall or
  body hit, and grows the snake when it eats;
- restart and the initial state;
- the board drawing (each cell is food, snake or empty) and the score.

The React state hooks become an immutable `State` record. The operations are
pure functions over it. The random food cell that `randomFood` draws becomes an
argument of the operations that draw one. The timers become explicit calls: one
`Step` per timer tick, and `Restart` for the state the delayed reset ends in.

Modules, one per concept:

- `Board` (`board.dfy`): the board size, cells, bounds, adjacency, row-major order.
- `Direction` (`direction.dfy`): directions, their opposites, one-cell moves, arrow-key names.
- `Engine` (`engine.dfy`): the game state, the key handler, the tick, restart.
- `Invariants` (`invariants.dfy`): the well-formedness invariant and what each operation keeps.
- `Capacity` (`capacity.dfy`): a pigeonhole bound on how long a snake can get.
- `Render` (`render.dfy`): cell classification, board drawing, score.
- `Session` (`session.dfy`): a game as a sequence of key, tick and restart events.

A valid state (`Invariants.Valid`) has these properties:

- the snake is non-empty;
- every segment is on the board;
- no two segments share a cell;
- consecutive segments share a side;
- the food is on the board;
- `moving` is true exactly when the game is not over.

`Session.ReachableValid` proves that every state a game reaches is valid, for any
sequence of events whose random food draws land on the board.

Three behaviours are modelled as the code has them:

- Moving onto the current tail cell ends the game. That check runs before the
  tail is dropped (`Invariants.TailChaseEndsGame`).
- The food can be drawn under the snake. The code never checks for this. Such
  food is drawn over the snake, and it cannot be eaten while it stays covered
  (`Invariants.CoveredFoodNotEaten`).
- Two arrow keys between ticks can turn the snake straight back into its neck.
  The handler is re-registered with the new direction after each turn
  (src/App.js:44), so each key is judged only against the previous one
  (`Session.DoubleTurnReversal`).

## Model

| member | source | states |
|---|---|---|
| `Board.CellOf` | src/App.js:108-109 | the i-th cell drawn, row by row, is on the board and its row-major index is i |
| `Direction.Move` | src/App.js:57-60 | one move goes to a side-sharing neighbour; up and down keep x, left and right keep y |
| `Direction.MoveBack` | src/App.js:57-60 | moving one way and then the opposite way returns to the start cell |
| `Direction.LeavesBoardIffFacesEdge` | src/App.js:62-68 | from a cell on the board, one move leaves it exactly when the cell lies on the edge the move heads towards |
| `Direction.ParseKey` | src/App.js:25-39 | the four arrow key names map to the four directions; every other key name means nothing |
| `Engine.Initial` | src/App.js:8-12 | a new game starts with a one-segment snake whose head is (2,2), heading right, with the drawn food, not over and moving |
| `Engine.HandleKey` | src/App.js:23-40 | only the direction can change; a non-arrow key, any key while not moving, or the reverse of the current direction leaves the state as it is; any other arrow sets the direction; the new direction is never the reverse of the old |
| `Engine.Occupies` | src/App.js:75-81 | scanning the body front to back finds a segment equal to the cell exactly when the cell is in the snake |
| `Engine.Step` | src/App.js:53-93 | a wall or body hit (`Engine.Blocked`, src/App.js:62-81: the next head off the board or on any segment, tail included) sets gameOver, clears moving and keeps snake, food and direction; otherwise the new head is the last segment; on the food the old snake is kept as a prefix, the length grows by one and the fresh food is taken; off the food the length is kept, the old body minus its tail is the prefix, and the food stays |
| `Engine.Halt` | src/App.js:95-96 | the immediate half of restart clears moving and changes nothing else |
| `Engine.Restart` | src/App.js:97-103 | the delayed reset yields the snake [(2,2)], direction right, the fresh food, gameOver false and moving true, whatever the old state was |
| `Engine.RestartIsInitial` | src/App.js:98-102 | the state restart ends in is the state a new game starts in |
| `Invariants.InitialValid` | src/App.js:8-12 | a new game with food on the board starts in a valid state |
| `Invariants.HandleKeyKeepsValid` | src/App.js:23-40 | a key press keeps a valid state valid |
| `Invariants.RestartValid` | src/App.js:97-103 | restart with food on the board yields a valid state |
| `Invariants.GrowKeepsWellFormed` | src/App.js:83 | appending an in-bounds, unoccupied neighbour of the head keeps the snake well formed |
| `Invariants.DropTailKeepsWellFormed` | src/App.js:89 | removing the first segment of a snake of two or more keeps it well formed |
| `Invariants.StepKeepsValid` | src/App.js:53-93 | a tick keeps a valid state valid when the fresh food is on the board: segments stay in bounds, distinct and connected |
| `Invariants.LengthAfterStep` | src/App.js:83-92 | a tick keeps the length, or adds exactly one when it eats the food |
| `Invariants.WallEndsGame` | src/App.js:62-72 | a head on the edge heading outwards ends the game and leaves snake and food as they were |
| `Invariants.BodyHitEndsGame` | src/App.js:74-81 | a next head equal to any segment ends the game with the snake unchanged |
| `Invariants.ReverseHitsNeck` | src/App.js:26-37 | what the reversal guard prevents: a snake whose head just moved one way from its neck and now heads the opposite way runs into the neck and the game ends |
| `Invariants.CoveredFoodNotEaten` | src/App.js:74-90 | food under the body is not eaten by the next tick and stays where it is |
| `Invariants.HaltOnGameOverIsIdle` | src/App.js:95-96 | on a valid game-over state the immediate half of restart changes nothing |
| `Invariants.TailChaseEndsGame` | src/App.js:74-81 | a four-segment square heading into its own tail ends the game, although the tail would have moved away |
| `Invariants.FirstTickEats` | src/App.js:83-90 | from the initial state with food at (3,2), one tick gives the snake [(2,2),(3,2)] and takes the fresh food |
| `Invariants.LeftWallScenario` | src/App.js:57-72 | a one-segment snake at (0,2) heading left ends the game and keeps its snake |
| `Capacity.SnakeFitsBoard` | src/App.js:4 | a snake of distinct in-bounds segments has at most 15 x 15 segments |
| `Render.Classify` | src/App.js:110-114 | a cell is food exactly when it is the food cell, even under the snake; snake exactly when it is not the food but some segment covers it; otherwise empty |
| `Render.RenderBoard` | src/App.js:106-119 | the drawn board has 225 cells in row-major order, each classified as Classify says |
| `Render.Score` | src/App.js:133 | the score is one less than the snake's length, and is non-negative exactly when the snake has a segment |
| `Render.InitialScore` | src/App.js:133 | a new game shows score 0 |
| `Render.ScoreInRange` | src/App.js:133 | in a valid state the score lies in [0, 224] |
| `Render.ScoreAfterStep` | src/App.js:133 | a tick raises the score by one when it eats and keeps it otherwise |
| `Session.Apply` | src/App.js:22-51 | a key press is the key handler; a tick is one movement step while the game is not over and does nothing once it is; a restart click does nothing before the game is over and otherwise gives the initial state; the snake stays non-empty |
| `Session.ApplyKeepsValid` | src/App.js:22-104 | every event keeps a valid state valid when its food draw is on the board |
| `Session.Run` | src/App.js:47-51 | any sequence of events keeps the snake non-empty |
| `Session.RunKeepsValid` | src/App.js:22-104 | any sequence of events with on-board food draws keeps a valid state valid |
| `Session.ReachableValid` | src/App.js:8-12 | every state reached from a new game is valid and has a score in [0, 224] |
| `Session.NoRestartNoShrink` | src/App.js:83-92 | without a restart the snake never gets shorter |
| `Session.DoubleTurnReversal` | src/App.js:26-44 | heading right, the keys up then left before the next tick each pass the guard, and the tick then runs the head into its neck and ends the game |
| `Session.GameOverIsSticky` | src/App.js:47-51 | once the game is over, only a restart changes the state |

## Left out

- React plumbing (`useState`, `useEffect`, handler re-registration) is left out: the state is an explicit record passed to pure functions.
- The 150 ms tick interval and the 500 ms restart delay are left out: a tick is a call to `Step` and restart is modelled by the state it ends in.
- `Math.random` in `randomFood` is left out: the drawn cell is an argument, and only the invariant lemmas require it to be on the board, which `Math.floor(Math.random() * 15)` guarantees.
- Stale closures are left out: `Session` applies each event to the latest state. In the browser, a key pressed before the re-render that follows the previous one is judged against the older direction.
- Clicking restart twice within the delay window is left out. It would schedule two resets and needs a timer model.
- `Engine.Step` requires a non-empty snake. The source reads the last segment unguarded and would fail on an empty one. Every state a game reaches has a non-empty snake (`Session.Run`).
- JSX, the DOM, CSS, the shake animation and the game-over message are presentation only and are left out.
