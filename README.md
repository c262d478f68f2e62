# Earthworm game loop, modelled in Dafny

This project models the game-loop state machine of a browser snake game
("earthworm"). The game is played on a 20 x 20 grid: a 400-pixel canvas cut into
20-pixel cells. The worm is a list of cells, head first. A periodic timer calls
`update` once per tick. Each tick commits the pending direction and moves the
head one cell. A head that leaves the grid, or lands on any cell of the current
body, ends the game. Otherwise the worm grows at the head. On food it keeps its
tail: the score rises by 10, new food is placed off the worm, and the tick
interval shrinks by 5 ms until it reaches 50 ms. Without food it drops its tail.
Arrow keys and on-screen buttons change the pending direction, but only to a
direction on the other axis from the committed one. The space bar pauses and
resumes. The high score follows the best score seen.

Files:

- `grid.dfy` (module `Grid`): the grid extent, cells and direction vectors, the
  bounds test, and what "no repeated cells" means. It also proves that a
  well-placed worm shorter than the grid leaves a free cell (a pigeonhole
  argument over cell sets).
- `game.dfy` (module `WormGame`): the constants, the steering rule (`Steer`),
  the speed ladder (`NextSpeed`, `SpeedAfterMeals`), and class `Game`. The
  class holds the game's module-level variables as fields, with one method per
  operation. `Game.Valid()` is the invariant every operation keeps:
  - the worm is non-empty, in bounds and has no repeated cell;
  - the food is in bounds and off the worm;
  - the committed direction is a unit move, and the pending one equals it or is
    perpendicular to it;
  - the score is a non-negative multiple of 10, and the interval is the one
    reached after `score / 10` meals;
  - the high score is at least the score;
  - a running timer ticks at the current interval, and a paused game has a
    running timer.
- `scenarios.dfy` (module `Scenarios`): client methods that replay concrete
  ticks. Each one checks its outcome against the operations' contracts.

The timer handle `gameLoop` is modelled as `Option<int>`. `None` stands for
`null`. `Some(ms)` stands for a periodic timer that fires every `ms`
milliseconds. Cancelling a timer and creating a new one at a new interval is
therefore `gameLoop := Some(newInterval)`.

The game has no separate Idle/Running/Paused/GameOver phase variable. The phase
follows from `gameLoop` and `isPaused`, and the model keeps those two fields as
the code does. `update` does not check whether a timer is running, so
`Game.Update` does not require one either. `Game.NextTick()` names the branch a tick
takes (Frozen, HitWall, HitSelf, Eat, Move), and `Update`'s contract is stated
branch by branch. The food branch is the method `Game.EatFood`.

## Model

| member | source | states |
|---|---|---|
| `Grid.FreeCellExists` | game.js:218-222 | a worm with distinct in-bounds cells and fewer than 400 segments leaves an in-bounds cell it does not cover, so the food search can stop |
| `WormGame.Steer` | game.js:236-253 | a requested direction becomes pending exactly when it lies on the other axis from the committed direction; otherwise the pending direction is kept |
| `WormGame.SteerNeverReverses` | game.js:265-283 | from a legal pending direction, any request leaves the pending direction equal or perpendicular to the committed one, never its reverse |
| `WormGame.SpeedAfterMealsIs` | game.js:140-144 | after n meals the interval is max(50, 150 - 5n): 5 ms per meal, then it stays at the 50 ms floor |
| `WormGame.SpeedOnLadder` | game.js:4-6 | the interval is always one of 50, 55, ..., 150 |
| `WormGame.Game.constructor` | game.js:27-68 | page load: the high score becomes max(stored value, 0), the game is reset, no timer runs, and the invariant holds |
| `WormGame.Game.ResetGame` | game.js:70-84 | worm (10,10),(9,10),(8,10) heading right, pending right, score 0, interval 150, not paused, high score raised to at least 0, food off the worm, timer untouched |
| `WormGame.Game.StartGame` | game.js:86-93 | any old timer is dropped, the game is reset, and one timer runs at 150 ms; the invariant holds |
| `WormGame.Game.RestartGame` | game.js:102-104 | the same outcome as starting |
| `WormGame.Game.TogglePause` | game.js:95-100 | the pause flag flips when a timer runs and is left alone when none does |
| `WormGame.Game.Update` | game.js:106-151 | a paused tick changes nothing. Otherwise the pending direction is committed. A head off the grid or on any current segment, the tail included, stops the timer and leaves worm, score, food and interval as they were. On food the worm is the head plus the whole old body, the score rises by 10, the high score is the max, new food lies off the grown worm, and the interval steps down with the timer restarted. Otherwise the worm is the head plus the body without its tail, and the length stays. The invariant (in bounds, no repeated cell, food free) is kept |
| `WormGame.Game.EatFood` | game.js:134-144 | the food branch, run once the head is on the food: the score rises by 10, the high score is the max, new food lies off the grown worm, and the interval steps down with the timer restarted only above 50 ms; the score/interval invariant is kept |
| `WormGame.MealStep` | game.js:135-141 | one meal takes the score to the next multiple of 10 and the interval one step down the ladder, so "interval = interval after score/10 meals" stays true |
| `Grid.GrowKeepsWellPlaced` | game.js:118-131 | adding an in-bounds head that is not on the body keeps the body in bounds and free of repeats |
| `Grid.DropTailKeepsWellPlaced` | game.js:145-148 | dropping the tail keeps the body in bounds and free of repeats, and covers no new cell |
| `WormGame.Game.SpawnFood` | game.js:218-223 | the new food is in bounds and on no segment of the worm |
| `WormGame.Game.HandleKeyPress` | game.js:225-259 | an arrow key steers by the axis rule, the space bar toggles the pause, and other keys change nothing |
| `WormGame.Game.HandleDirectionButton` | game.js:261-285 | a button steers by the same rule, and the pending direction is never the reverse of the committed one |
| `WormGame.Game.UpdateScore` | game.js:287-295 | afterwards the high score is max(old high score, score) |
| `WormGame.Game.GameOver` | game.js:297-299 | the timer is gone, and nothing else changes |
| `Scenarios.EatOnFirstTick` | game.js:131-144 | heading right into food at (11,10): the worm becomes (11,10),(10,10),(9,10),(8,10), the score 10, the interval and timer 145 ms, and the new food is free |
| `Scenarios.WallEndsGame` | game.js:117-122 | from (0,10) moving left the tick ends the game, with the worm and the score 0 unchanged |
| `Scenarios.TailCellEndsGame` | game.js:124-128 | turning the head onto the cell the tail is about to leave ends the game |
| `Scenarios.NoReversal` | game.js:245-253 | heading right, a left request is ignored and an up request is taken |
| `Scenarios.PauseFreezes` | game.js:95-107 | before a start the pause command does nothing; a paused tick leaves the worm as it was |

## Left out

- Rendering (`drawGame`, its grid lines and the head's eyes) is presentation only, and `update`'s final redraw is omitted with it.
- DOM wiring is left out: the event listeners in `init`, the `textContent` and `classList` updates, and `preventDefault`.
- Reading and writing `localStorage` is left out. The constructor takes the already-parsed stored high score as a parameter, and `UpdateScore` only updates the field.
- Timer callbacks and real time are not modelled. `gameLoop` records only whether a timer exists and its interval.
- `Math.random` is replaced by a nondeterministic choice. Food placement picks any in-bounds free cell. Uniformity and the probabilistic ending of the retry loop are not modelled.
- WormGame.Game.Update: when the tick eats, it requires that the grown worm be shorter than the 400-cell grid. On a full grid the source's food search never ends, and that stall is not modelled.
- WormGame.Game.EatFood: it requires that the grown worm be shorter than the grid, for the same reason.
- WormGame.Game.SpawnFood: it requires that a free cell exist, for the same reason.
