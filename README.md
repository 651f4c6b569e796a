# Snake game engine, modelled in Dafny

This project models the engine of a browser Snake game (`script.js`): a
square board of `tileCount × tileCount` tiles, a snake kept head first, an
active velocity and a buffered `nextVelocity`, one food cell, a score, a
speed, and the `gameRunning` / `gamePaused` flags. The engine's handlers
change these variables:

- the timer tick (`gameLoop`, which runs `moveSnake` then `checkCollision`);
- food placement (`generateFood`, reject and resample);
- the keyboard handler (turns, and the space bar for pause);
- the pause button (`togglePause`);
- the start and restart buttons (`resetGame`);
- the speed slider.

The project has three modules:

- `Grid` (grid.dfy) defines cells, velocities and the board. It also holds
  the loops the engine runs over the snake's body: the `do … while` of food
  placement with its inner `for … of` scan, and the self-collision `for`
  loop. Each loop is a method proved against a quantified specification.
- `Rules` (rules.dfy) is the specification. It captures the engine's
  variables as a `State` value and each handler as a function on it. It
  proves what the game promises: each tick's effects, collision "if and
  only if", the turn guard, pause and resume, reset, and an invariant kept
  by every handler and so by every session. Under that invariant the score
  is a non-negative multiple of 10, both velocities are in
  {(0,0), (±1,0), (0,±1)}, a paused game is always running, and a running
  game's snake lies on the board, never overlaps itself and never covers the
  food.
- `Game` (game.dfy) has the class `SnakeGame`. Its fields are the game's
  variables and its methods are the handlers, written step by step like the
  original. `unshift` becomes prepending to a `seq` field and `pop` drops
  its last element. Each method except `GenerateFood` ensures
  `State() == Rules.<function>(old(State()), …)`; `GenerateFood` ensures the
  new food is the first drawn cell off the snake. The event handlers
  (`GameLoop`, `ResetGame`, `TogglePause`, `HandleKeyDown`, `SetSpeed`) also
  keep `Valid()`; `MoveSnake` and `CheckCollision` are the two halves of a
  tick, between which the invariant may not hold.
  `Scenarios`, in the same file, drives the class through its contracts:
  - a turn right then one tick;
  - eating food;
  - running into the left wall;
  - the space bar, which pauses a game but cannot resume it.

Randomness is a parameter. Each `Math.floor(Math.random() * tileCount)` pair
is one drawn cell, and every method that may place food takes `draws`, the
cells the random source would produce in order. Food placement takes the
first drawn cell that is not on the snake (`FirstFree`).

Some of the code's behaviour is easy to miss; the model follows the code:

- `resetGame` ends by calling `gameLoop()`, so a reset runs one tick at once.
  The snake stands still in that tick, but on a board of 5 tiles or fewer
  the cell (5,5) is off the board and the game ends at once (`ResetState`).
- Resuming with `togglePause` calls `gameLoop()` directly. So pausing and
  then resuming is exactly one tick (`PauseThenResume`), not a mere flag
  flip.
- The space bar is handled after the `!gameRunning || gamePaused` guard. So
  the keyboard can pause a game but never resume it: only the pause button
  resumes (`KeyIgnoredWhenIdle`, `SpacePauses`).
- A turn is refused by testing one component of the active velocity
  (`velocityY !== 1`, and so on). That equals "refused if and only if it
  reverses the active velocity" only for velocities the game can hold. The
  model keeps the component test and proves the equivalence under that
  condition (`TurnArbitration`).
- The code never checks that the speed is positive. The model keeps the
  speed as any integer.
- `score % 50 === 0` in JavaScript and Dafny's `%` agree on whether the
  result is zero for every integer score. The model uses Dafny's `%`
  directly.

## Model

| member | source | states |
|---|---|---|
| Grid.FirstFree | script.js:135-149 | the attempt at which placement stops is a draw off the body, and every earlier draw lies on the body |
| Grid.OnSnake | script.js:143-148 | the scan reports a hit if and only if the cell is a segment of the body |
| Grid.DrawFood | script.js:135-151 | the retry loop returns the first drawn cell that is off the body, so the food is never on the snake |
| Grid.HitsItself | script.js:99-104 | the loop reports a hit if and only if some segment at index 1 or more equals the head |
| Rules.FreshFood | script.js:164-171 | the food placed for the new one-segment snake is never (5,5) |
| Rules.FreshDoesNotEat | script.js:164-171 | the first move of a new game cannot eat: its head stays on (5,5), where the food cannot be |
| Rules.FreshStandsStill | script.js:162-189 | the tick that closes a reset has zero velocity, neither moves nor grows the snake, and needs no food draw |
| Rules.TickMovesHead | script.js:57-67 | a running tick commits the pending velocity as the active one and puts the new head at old head + velocity, with no wrap-around |
| Rules.TickWithoutFood | script.js:67-85 | when the new head misses the food, the length is unchanged, the body behind the head is the old snake minus its tail, and score, speed and food are unchanged |
| Rules.TickEatsFood | script.js:67-77 | when the new head is on the food, the score rises by exactly 10, the whole old snake stays behind the head (one segment longer), and the new food is the first draw off the grown snake, on the board |
| Rules.TickSpeed | script.js:78-81 | a tick raises the speed by one if and only if it eats and the new score is a multiple of 50; otherwise the speed is unchanged |
| Rules.TickSpeedTracksScore | script.js:72-81 | from a reachable state, a tick raises the speed by exactly as many units as the score crosses multiples of 50 |
| Rules.TicksSpeedTracksScore | script.js:40-81 | over any series of ticks, the speed gains one unit per multiple of 50 that the score passes, and only one |
| Rules.TickEndsGame | script.js:40-45 | a running tick stops the game if and only if the new head is off the board or equals a later segment; the move's other effects stand |
| Rules.CollisionOnlyStops | script.js:89-105 | the collision check changes only the running flag, and clears it if and only if the head is off the board or on a segment at index 1 or more |
| Rules.TickIdle | script.js:40-41 | a tick is a no-op while the game is stopped or paused |
| Rules.MoveNoFoodDistinct | script.js:82-105 | a move that misses the food and does not collide leaves a snake on the board, free of overlaps and off the food |
| Rules.MoveFoodDistinct | script.js:70-105 | a move that eats and does not collide leaves a snake on the board, free of overlaps |
| Rules.TickKeepsInv | script.js:55-105 | a tick keeps the invariant: the score stays a non-negative multiple of 10, velocities stay unit axis vectors or zero, and a running game's snake stays on the board, overlap-free and off the food |
| Rules.KeyIgnoredWhenIdle | script.js:206-208 | every key, the space bar included, leaves the state unchanged while the game is stopped or paused |
| Rules.TurnArbitration | script.js:211-243 | in a running game a turn changes only the pending velocity: it is set to the requested unit vector, unless that reverses the active velocity, in which case it is kept |
| Rules.KeyKeepsVelocity | script.js:206-248 | no key changes the active velocity |
| Rules.SpacePauses | script.js:244-246 | the space bar in a running, unpaused game sets the pause flag and changes nothing else |
| Rules.KeyKeepsInv | script.js:206-248 | key handling keeps the invariant, so the pending velocity stays a unit axis vector or zero |
| Rules.ToggleWhenStopped | script.js:194-195 | the pause button does nothing when no game is running |
| Rules.PauseThenResume | script.js:194-203 | pausing then resuming a running game restores the pause flag and amounts to exactly one tick |
| Rules.ToggleKeepsInv | script.js:194-203 | pausing and resuming keep the invariant |
| Rules.ResetState | script.js:162-189 | after a reset the snake is [(5,5)], both velocities are zero, the score is 0, the speed is the configured one, the game is unpaused, the food is off the snake, and the game runs if and only if the board is wider than 5 tiles |
| Rules.ResetKeepsInv | script.js:162-189 | a reset establishes the invariant |
| Rules.InitialInv | script.js:14-37 | the state at page load satisfies the invariant |
| Rules.ApplyKeepsInv | script.js:256-260 | every handler that an event listener runs keeps the invariant |
| Rules.RunKeepsInv | script.js:250-260 | every state a session reaches satisfies the invariant: the score is a non-negative multiple of 10 and both velocities are in {(0,0), (±1,0), (0,±1)} |
| Game.SnakeGame.constructor | script.js:14-37 | the page-load state: tileCount is canvas width / 20, the snake is [(5,5)], velocities are zero, score 0, speed 7, not running, the food on the given board cell |
| Game.SnakeGame.GenerateFood | script.js:130-152 | the food becomes the first drawn cell off the snake, and only the food changes |
| Game.SnakeGame.MoveSnake | script.js:55-86 | the in-place update with unshift and pop gives exactly the state of Rules.Move |
| Game.SnakeGame.CheckCollision | script.js:89-105 | only the running flag changes, as Rules.CheckCollision says |
| Game.SnakeGame.GameLoop | script.js:40-52 | one timer tick gives the state of Rules.Tick and keeps the invariant |
| Game.SnakeGame.ResetGame | script.js:162-191 | a reset gives the state of Rules.Reset for the food generateFood draws, and the invariant holds |
| Game.SnakeGame.TogglePause | script.js:194-203 | the pause button gives the state of Rules.TogglePause and keeps the invariant |
| Game.SnakeGame.HandleKeyDown | script.js:206-248 | the key handler gives the state of Rules.HandleKey and keeps the invariant |
| Game.SnakeGame.SetSpeed | script.js:251-254 | the slider sets the speed and nothing else, and the invariant still holds |

## Left out

- DOM lookups, score and final-score text, screen CSS classes and the pause button label (script.js:1-12, 73, 157-158, 175, 182, 185-186, 198): display only.
- `drawGame` (script.js:108-127, 263): canvas rendering, a pure read of the state.
- `setTimeout` re-arming, the `1000 / speed` interval and the event-listener wiring (script.js:51, 256-260): these are scheduling. A tick is one `GameLoop` call and a session is a sequence of events (`Rules.Run`). So the model does not capture that the old timeout can stay pending next to a new chain of ticks, which then runs the game at double rate. This happens after a pause and resume within one interval. It also happens after a restart clicked within `1000 / speed` ms of a game over, because script.js:51 re-arms the timer even after the tick that ended the game. The model's `Timer` events may arrive in any number, so both cases are among its sessions.
- `Math.random` sampling (script.js:34-37, 138-139): the random cells are parameters. Every food placement requires at least one drawn cell to be off the snake. The event handlers that may place food (`GameLoop`, `ResetGame`, `TogglePause`) also require each drawn cell to be on the board. The source loops forever when no free cell is ever drawn. `Rules.Run` ends a session at such an event.
- `parseInt` of the slider value (script.js:177, 252): the configured speed is an integer parameter.
- Game.SnakeGame.constructor: requires the canvas width to be a positive multiple of 20. With other widths `tileCount` would be a fraction in JavaScript, which the integer model does not represent.
- The stray `<!-- test deploy -->` text after `gameLoop();` on script.js:189 is not logic.
