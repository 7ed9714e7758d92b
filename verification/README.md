# Wall-jump game: a verified model of the game logic

This project models the game logic of the browser game in `script.js`. The
player jumps with the Space key, falls under gravity, and must avoid pipes
that scroll in from the right. Passing a pipe earns a point, and overlapping one
ends the session (pipes that only share an edge with the player do not). The DOM is left out. The game is modelled as the
module-level mutable state that the script's functions change in place.

- `Physics` (physics.dfy): the constants gravity 0.6, jump strength 15 and
  floor 0, plus the one-frame integrator of `updatePlayer` as a pure
  function.
- `Collision` (collision.dfy): the strict axis-aligned overlap test of
  `checkCollisions`, as predicates over rectangles.
- `Obstacles` (obstacles.dfy): the obstacle record, `createObstacle`'s new
  record, and one pass of `updateObstacles` over the records, as
  specification functions:
  - `Step`: move one record left by 4 and mark it passed once it is left of
    the player at x = 50.
  - `Advance`: the records kept after a pass.
  - `Gain`: the points a pass awards.
  - `Survivors`: the indices of the records that stay.
  - Lemmas about each of these.
- `Session` (session.dfy): a `Game` class whose fields are the script's
  module-level variables, listed below. `StartGame`, `HandleJump`,
  `UpdatePlayer`, `CreateObstacle`, `UpdateObstacles`, `EndGame`,
  `CheckCollisions` and the game loop `Tick` are methods that update those
  fields in place. The backward splice loop of `updateObstacles` is a
  `while` loop over the record sequence, proved against `Advance` and
  `Gain`.

The `Game` fields are:

- `isGameOver`
- `score`
- `playerY`
- `playerVelocity`
- `lastSpawnTime`
- the `obstacles` record array
- `pendingFrames`: a count of the `gameLoop` callbacks requested from the
  browser and not yet run.
- `spawned`: a ghost count of the records created in the session. It carries
  the invariant that every spawned record has either awarded its single point
  or is still waiting to (`score + Unpassed(obstacles) == spawned`).

Inputs that the browser supplies are method parameters:

- the clock (`Date.now()`);
- `Math.random()`, a real in [0, 1);
- the container width and height;
- the key code;
- the rendered player and obstacle rectangles.

Positions are `real`, so gravity 0.6 is exact.

Where the code does something other than what its comments or the game's
evident intent say, the model follows the code:

- `startGame` (script.js:38-57) does not reset `lastSpawnTime`. A session
  started within 1500 ms of the previous spawn therefore waits for that timer.
- `Math.random()` is below 1, so the bottom pipe's height lies in [50, 200),
  while the comment at script.js:98 says "between 50px and 200px".
- The top pipe of a pair (script.js:121-127) carries the `obstacle` class, so
  the collision pass hit-tests it (script.js:189-209). Only the bottom pipe's
  element is ever removed (script.js:48, 157-159), so top pipes from an ended
  session stay on screen and stay in the collision input after a restart.
- The idle and over states are both `isGameOver == true` and behave
  identically.
- `gameLoop` requests the next frame even from the frame that ended the
  session. See Findings.

## Model

| member | source | states |
|---|---|---|
| Physics.Integrate | script.js:80-90 | after a frame the player is never below the floor; it is put back on the floor at rest exactly when y + (velocity - 0.6) <= 0; otherwise the velocity drops by 0.6 and the position moves by the new velocity |
| Physics.FallWithoutJumpDescends | script.js:80-90 | without a jump, a player that is not rising stays at or above the floor, never rises, descends strictly each frame until it lands, and stays grounded once grounded |
| Obstacles.NewObstacle | script.js:97-119 | a new record starts at the right edge (x = container width), 30 wide, at y 0, not passed, with height in [50, 200); bottom height + gap 100 + top height = container height |
| Obstacles.SpawnDue | script.js:136 | the spawn timer has run out when strictly more than 1500 ms passed since the last spawn |
| Obstacles.Queued | script.js:135-139 | exactly one record is appended at the end when strictly more than 1500 ms passed since the last spawn, and none otherwise; the records already there are unchanged |
| Obstacles.QueuedKeepsLeftToRight | script.js:112-119 | a spawn appends at the right edge, so records ordered left to right and lying left of that edge stay ordered, and none lies beyond the edge |
| Obstacles.Scores | script.js:150 | a record earns its point in this pass when, once moved, it is left of x = 50 and was not yet passed |
| Obstacles.OffScreen | script.js:157 | a record is removed once its x is below minus its width |
| Obstacles.Step | script.js:143-154 | one pass moves a record left by exactly 4 and leaves its size unchanged; the record is passed afterwards iff it was passed or is now left of x = 50; it scores iff it turns from unpassed to passed |
| Obstacles.Advance | script.js:142-161 | a pass never adds records |
| Obstacles.Gain | script.js:150-154 | a pass awards at most one point per record |
| Obstacles.AdvanceLeavesOnScreenRecords | script.js:150-160 | after a pass no record is past the left edge (x < -width), and every record left of the player has been marked passed |
| Obstacles.GainIsUnpassedConsumed | script.js:150-160 | the points a pass awards plus the unpassed records left equal the unpassed records before, so no point is lost or awarded twice, even when records are spliced out |
| Obstacles.AdvanceKeepsRecordShape | script.js:142-161 | a pass keeps every record 30 wide and keeps a passed record left of the player |
| Obstacles.AdvanceKeepsExactlySurvivors | script.js:142-161 | the kept records are exactly the records whose moved position is not off screen, each moved and scored, in their original relative order: an index survives iff its stepped record is on screen, the surviving indices strictly increase, and the k-th kept record is the stepped k-th survivor, so the backward splice neither skips nor revisits a record |
| Obstacles.AdvanceKeepsLeftToRight | script.js:142-161 | records ordered left to right stay ordered after a pass |
| Obstacles.AdvanceMovesLeft | script.js:146 | every record a pass keeps has moved left by 4, so a bound on the positions before the pass drops by 4 |
| Obstacles.AwardedAtMostOnce | script.js:150-154 | over any number of passes a record earns exactly one point if it turns passed and none otherwise; a passed record stays passed |
| Collision.Overlaps | script.js:204-209 | the strict overlap of two rectangles on both axes, with the same verdict whichever of the two is taken as the player |
| Collision.AnyCollision | script.js:191-212 | some obstacle rectangle in the collision input strictly overlaps the player rectangle |
| Collision.AnyCollisionAppend | script.js:191-212 | a collision with a list of rectangles joined from two parts is exactly a collision with one of the parts, so leftover elements only add collisions |
| Collision.OverlapsIffIntersectionHasArea | script.js:204-209 | for rectangles of positive size the strict test holds iff their intersection has positive width and height |
| Collision.TouchingDoesNotCollide | script.js:204-207 | rectangles sharing only an edge do not collide |
| Collision.PlayerBetweenPipes | script.js:204-209 | a player at y 100..140 (y grows downwards) below a top pipe that ends at y 90 does not collide with it; a bottom pipe reaching up to y 110, taller than any spawned pipe, does |
| Session.Game.constructor | script.js:6-20 | the initial state is over with score 0, the player at rest on the floor, spawn time 0, no records and no frame requested |
| Session.Game.StartGame | script.js:38-57 | changes nothing while a session runs; from the over state, the session runs with score 0, the player at rest on the floor and no records, the spawn timer is kept and one game-loop frame is requested; one callback pending while running and none while over is preserved |
| Session.Game.HandleJump | script.js:60-71 | a key other than Space changes nothing; Space while over acts as StartGame; Space while running sets the velocity to exactly 15 and leaves every other field unchanged; one callback pending while running and none while over is preserved |
| Session.Game.UpdatePlayer | script.js:80-94 | the player's new position and velocity are one frame of Integrate, and the player stays at or above the floor |
| Session.Game.CreateObstacle | script.js:97-119 | the new record is appended at the end of the record array and nothing else changes |
| Session.Game.UpdateObstacles | script.js:132-161 | spawns iff the timer has run out (then the spawn time becomes now), then leaves exactly Advance of the queued records and adds Gain of them to the score, keeping the session invariant and, for a fixed container width, the left-to-right order of the records |
| Session.Game.PassOverRecords | script.js:142-161 | the in-place backward loop with splice leaves exactly Advance of the records and adds exactly Gain of them to the score |
| Session.Game.EndGame | script.js:216-218 | afterwards the session is over; when it was already over nothing changes |
| Session.Game.CheckCollisions | script.js:189-212 | afterwards the session is over iff it was over before or some obstacle rectangle strictly overlaps the player rectangle |
| Session.Game.RunFrame | script.js:236-238 | one frame runs the player update, the obstacle update and the collision pass, with their combined effects; for a fixed container width it keeps the records ordered left to right |
| Session.Game.Tick | script.js:229-242 | a callback that runs while over consumes itself and changes nothing else; a running frame updates player, records, score and spawn timer, ends the session iff a collision occurs, and requests its successor unconditionally; for a fixed container width the records stay ordered left to right |
| Session.Game.TickGuarded | script.js:229-242 | the corrected loop requests its successor only if the session still runs, so exactly one callback is pending while a session runs and none while over, and this is preserved here as by StartGame and HandleJump |
| Session.QuickRestartRunsTwoLoops | script.js:229-242 | start, a colliding frame, Space, then the pending frame: the as-written loop leaves two pending callbacks |
| Session.QuickRestartRunsOneLoop | script.js:229-242 | the same inputs with the guarded loop leave exactly one pending callback |

## Left out

- DOM work has no game semantics and is not modelled: element lookup and
  creation, `style` updates, `textContent`, the score display and the
  start/game-over overlay (script.js:25-35, 45, 52-53, 147, 153, 220-223).
- `initializeGame` (script.js:25-35) only sets `playerY` to the floor, which
  it already is, and draws the overlay. Its effect is part of
  `Session.Game.constructor`.
- The conversion of `getBoundingClientRect` results into container-relative
  rectangles (script.js:174-200) is not modelled. The player and obstacle
  rectangles are parameters of `CheckCollisions` and `Tick`. The model does
  not tie those rectangles to the tracked records or to `playerY`, because
  the rendered layout is not modelled.
- The second pass over `.obstacle` elements that adds to `style.right`
  (script.js:165-169) changes only rendered styles, never the tracked `x`,
  so it is left out.
- The top pipe of a pair (script.js:121-128) is not tracked as a record; the
  model keeps only its height, `Pipes.topHeight`. Its rendered rectangle is
  among the `rects` given to `CheckCollisions` and `Tick`, and the code never
  removes it, neither when it leaves the screen nor on restart. The model does
  not track those leftover elements; they are part of the caller's `rects`.
- `deltaTime` and `lastTime` (script.js:228, 233-234) are computed but never
  used.
- `requestAnimationFrame` is modelled only as the `pendingFrames` count.
  Which callback the browser runs next, and when, is left to the caller of
  `Tick`.
- The keydown listener registration (script.js:74) is not modelled.
  `HandleJump` takes the key code.
- JavaScript floating-point rounding is not modelled. Positions are exact
  reals, and no stated property depends on rounding.
- main.js is not part of this model: it is the desktop window shell and has
  no game logic.
- Obstacles.Advance: its own contract states only that a pass never lengthens the
  sequence; what it keeps, and in what order, is stated by
  `AdvanceKeepsExactlySurvivors` and `AdvanceKeepsLeftToRight`.
- Obstacles.Gain: its own contract bounds the points by the number of records;
  which records score is stated by `Step` and `GainIsUnpassedConsumed`.

## Findings

| source | as written | input that shows it | evidently intended | confidence | as-written member | corrected member |
|---|---|---|---|---|---|---|
| script.js:241 | `gameLoop` requests the next frame even when the frame has just called `endGame`, so an over session still has one callback pending | Space starts a session; a frame collides and ends it; Space is pressed again before the browser runs that frame's pending callback; `startGame` requests a second callback, and both callbacks then keep rescheduling, so every later frame runs twice | request the next frame only while the session is running, so one frame callback is pending per running session | not executed | Session.QuickRestartRunsTwoLoops | Session.Game.TickGuarded |
