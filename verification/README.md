# Pac-Man on the Quine game engine, in Dafny

This project models the Pac-Man game of QuineGameEngine and the engine loop it runs on. There are two ports of the game:

- the browser port, `pacman/js/pacman.js`, which runs on `src/lib/quine_engine_lib.js`;
- the console port, `pacman/c/pacman.c`, which repeats the engine's frame loop itself.

One model covers both ports. A `Rules` value selects the port (`Js` or `C`) wherever the two compute differently:

- how a direction is scaled by the level multiplier;
- how the scatter/chase cycle nests its checks;
- whether a frightened ghost ever returns to Scatter;
- the size of the home region;
- whether a spent energizer still frightens;
- which way the ghosts face at the start of a level.

`Rules` also selects how Chase targeting ends: as written, or as evidently intended (see Findings).

The game state is one immutable `World` record:

- the 28 x 36 grid of tiles;
- the point counters;
- the recorded heart cells and the lives;
- score and level;
- the four ghosts and the player;
- the engine's `isRunning` flag.

Every operation of the source becomes a pure function on that record. The clock tick (`getCurrentGameTick`) and the random target points (`Math.random` in the browser port, the xorshift generator in the console port) are parameters.

Modules, in dependency order:

| module | file | what it holds |
|---|---|---|
| `Vectors` | vectors.dfy | grid vectors, the wrap-around clamp, the squared distance, the five directions |
| `Rules` | rules.dfy | constants, the level multiplier as an exact rational, the per-port ghost step |
| `Maze` | maze.dfy | tiles, the grid, the layout parser (`initTiles` / `setTile`), `resetTiles` |
| `Ghosts` | ghosts.dfy | the ghost record, `initGhosts`, `frightenGhosts`, the state machine, target selection |
| `World` | world.dfy | the game record and its invariant, `eatGhost`, `updatePacManPos`, `pacManLoseLife`, `initLevel` |
| `PlayerStep` | player.dfy | `checkPacManCollisions` and `updatePacMan` |
| `GhostMoves` | ghost_moves.dfy | `checkGhostCollisions`, `updateGhostPos` with its direction probes, `updateGhostRepr`, `updateGhosts` |
| `Engine` | engine.dfy | `initConfig`, the catch-up arithmetic of `run`, the pending pixel queue |
| `Simulation` | simulation.dfy | `onGameTick`, the frame loop with key presses, `setIsRunning(false)` |

The world invariant `World.Valid` holds at every step:

- the grid is 28 x 36;
- a wall is never painted over and nothing is painted as a wall;
- the spawn cells are open;
- there are four ghosts, in kind order, none standing on a wall, each with at most three completed cycles;
- the player is not on a wall;
- the lives are bounded by the recorded hearts, of which there are at most three;
- the score is not negative.

Every operation preserves the invariant. Every operation also preserves the default type of every cell (`SameDefaults`).

## Model

| member | source | states |
|---|---|---|
| Vectors.ScaleFloor | pacman/js/pacman.js:92 | each component of the result is the floor of the component times num/den |
| Vectors.Dist2 | pacman/js/pacman.js:94 | the squared distance is non-negative and zero exactly when the two points coincide |
| Vectors.Clamp | pacman/js/pacman.js:97 | a coordinate below the range becomes the maximum and one above becomes the minimum; in-range coordinates are kept; the result is in range |
| Vectors.ReverseInvolutive | pacman/js/pacman.js:96 | reversing a direction twice gives the direction back |
| Vectors.StepBack | pacman/js/pacman.js:90-96 | a step along a direction followed by a step along its reverse returns to the start |
| Vectors.AddSubInverse | pacman/js/pacman.js:90-91 | vector addition and subtraction undo each other |
| Vectors.DirVec | pacman/js/pacman.js:5-11 | None is the zero vector and every other direction is a unit step |
| Vectors.DirVecInjective | pacman/js/pacman.js:5-11 | two directions have the same vector exactly when they are the same direction |
| Vectors.ReverseDirVec | pacman/js/pacman.js:96 | the reverse of Up is Down, of Left is Right, and so on |
| Rules.PerLevel | pacman/js/pacman.js:138-139 | the result is floor(base / (1 + level/10)), stated by its bracketing inequalities |
| Rules.PerLevelMonotone | pacman/js/pacman.js:138-139 | a larger base never gives a smaller per-level value, so Clyde's release threshold is never below Inky's |
| Rules.WholeMultiplier | pacman/c/pacman.c:165-167 | the console port's short multiplier is floor(1 + level/10), at least 1 |
| Rules.CStepIsWholeMultiple | pacman/c/pacman.c:731 | a console ghost steps trunc(multiplier) tiles along its direction, exactly one tile below level 10 |
| Rules.JsStepIsAsymmetric | pacman/js/pacman.js:520 | for levels 1 to 9 a browser ghost steps two tiles Left or Up but one tile Right or Down |
| Rules.PortsAgreeAtLevelZero | pacman/js/pacman.js:536 | at level 0 both ports step exactly one tile along a direction |
| Maze.WrapIntoField | pacman/js/pacman.js:362 | the clamped position is in the field, and an in-field position is unchanged |
| Maze.Restore | pacman/js/pacman.js:327 | the vacated cell gets its default type back and keeps its interaction flag; no other cell changes |
| Maze.SetInteract | pacman/js/pacman.js:300 | only the interaction flag of the one cell changes |
| Maze.ResetTiles | pacman/js/pacman.js:234-243 | every cell shows its default type and is interactable again; defaults and walls are kept |
| Maze.ResetSameDefaults | pacman/js/pacman.js:234-243 | the reset depends only on the default types, so two grids with the same defaults reset equal |
| Maze.ResetIdempotent | pacman/js/pacman.js:234-243 | resetting twice is the same as resetting once |
| Maze.CellPos | pacman/js/pacman.js:225-229 | row-major cell k is in the field exactly when k < 28 * 36 |
| Maze.CellIndexPos | pacman/js/pacman.js:228 | the index i * width + j of cell (j, i) recovers k |
| Maze.ParseCellsStep | pacman/js/pacman.js:151-182 | one call of setTile appends the cell's tile, typed by its character, with a surplus 'o' left Empty |
| Maze.ParseCellsTiles | pacman/js/pacman.js:225-231 | the loop's tiles equal the reference sequence typed cell by cell, independently of the loop |
| Maze.ParseCellsPoints | pacman/js/pacman.js:163-167 | totalPointTiles counts exactly the '.' cells seen |
| Maze.ParseCellsHearts | pacman/js/pacman.js:172-178 | min(3, number of 'o') hearts are recorded; heart j is the cell of the (j+1)-th 'o' |
| Maze.ParseCellsSpec | pacman/js/pacman.js:184-232 | after n cells: n tiles, each typed as its character says, and the point and heart facts above |
| Maze.ToGrid | pacman/js/pacman.js:225-229 | cell (x, y) of the grid is row-major cell y * 28 + x |
| Maze.Parse | pacman/js/pacman.js:184-232 | the parsed grid is shaped, walls are fixed, each cell is typed by its character (a fourth 'o' is Empty), the point count is the number of '.', the hearts are the first three 'o' cells |
| Maze.HeartsAreHeartTiles | pacman/js/pacman.js:172-177 | every recorded heart cell holds a Heart tile |
| Maze.HeartsInRowMajorOrder | pacman/js/pacman.js:176-177 | hearts are recorded in strictly increasing row-major order |
| Maze.ResetRestoresParse | pacman/js/pacman.js:245-252 | a level reset gives back exactly the freshly parsed grid whatever happened since, as long as defaults were kept |
| Maze.IndexCharAt | pacman/js/pacman.js:228-229 | tilemap[i * 28 + j] is the character at row i, column j of the layout |
| Maze.NonWallCharIsOpen | pacman/js/pacman.js:158-162 | only a '#' character parses to a wall |
| Maze.ReferenceSpawnsOpen | pacman/js/pacman.js:185-221 | the player start, Blinky's start and the four spawn cells of the shipped layout are not walls |
| Maze.ReferenceHasThreeHearts | pacman/js/pacman.js:220 | the shipped layout yields exactly three hearts, so the player starts with three lives |
| Ghosts.KindIndex | pacman/js/pacman.js:13-18 | the ghost type doubles as the index into the ghost array |
| Ghosts.InitGhosts | pacman/js/pacman.js:120-140 | four dormant ghosts with every timestamp -1 and no cycle; Blinky at (13,14), the others at their spawn cells; Blinky and Pinky released at the score, Inky and Clyde floor(30/m) and floor(60/m) later; the browser port faces all Left, the console port only Blinky |
| Ghosts.FrightenGhosts | pacman/js/pacman.js:264-274 | dormant ghosts are untouched; every other ghost is Frightened at this tick, and only those in Scatter or Chase turn round |
| Ghosts.UpdateGhostState | pacman/js/pacman.js:406-446 | below the release threshold nothing changes; the cycle count grows by at most one and stays within 0..3; the direction is reversed exactly when the ghost left Scatter or Chase; position, kind and target are kept |
| Ghosts.ReleaseRule | pacman/js/pacman.js:412-418 | a released dormant ghost scatters exactly when it was never eaten or eaten more than six seconds ago |
| Ghosts.FrightWindow | pacman/js/pacman.js:420-427 | within six seconds of being frightened the ghost is unchanged |
| Ghosts.JsFrightEnds | pacman/js/pacman.js:420-445 | after six seconds the browser port shifts both lastScatter and lastChase by the frightened time and puts the ghost back into Scatter, or into Chase with lastChase set to this tick; it does not turn round and completes no cycle |
| Ghosts.CStaysFrightened | pacman/c/pacman.c:627-653 | the console port never leaves Frightened here; past six seconds it shifts both timestamps on every tick |
| Ghosts.ScatterToChaseTiming | pacman/js/pacman.js:387-395 | Scatter becomes Chase exactly when the cycle's scatter time has elapsed, with a turn |
| Ghosts.ChaseToScatterTiming | pacman/js/pacman.js:396-402 | in cycles 0 to 2, Chase becomes Scatter exactly after 20 seconds, with a turn and one more completed cycle |
| Ghosts.FinalChaseIsForever | pacman/js/pacman.js:437-439 | in the fourth cycle Chase never ends |
| Ghosts.ZeroScatterTimeDelta | pacman/c/pacman.c:598-612 | when the scatter time rounds to zero the browser port freezes the cycle, while the console port still ends Chase |
| Ghosts.ChaseTarget | pacman/js/pacman.js:462-481 | Blinky aims at the player, Pinky 4 tiles ahead of it, Inky at Blinky plus 4 times the offset to 2 tiles ahead, and Clyde at the player only while more than 8 tiles away |
| Ghosts.PinkyLeadsByFour | pacman/js/pacman.js:467-469 | Pinky's target is at squared distance 16 from a moving player |
| Ghosts.InkyOnBlinkyLine | pacman/js/pacman.js:470-475 | Inky's target is collinear with Blinky and the pivot |
| Ghosts.UpdateGhostTarget | pacman/js/pacman.js:448-491 | in the home region the target is (13,15); otherwise Scatter aims at the corner and Frightened at the random point; Chase aims at the per-kind point when the case breaks and at the random point as written |
| Ghosts.FallThroughChaseIsFrightened | pacman/js/pacman.js:462-487 | as written, a chasing ghost targets exactly what a frightened one would, whatever the player does |
| Ghosts.FallThroughCounterexample | pacman/js/pacman.js:481-487 | a concrete chasing Blinky aims at the random point instead of at the player |
| Ghosts.AsWrittenTargetsStayInField | pacman/js/pacman.js:99-102 | with an in-field random point, as-written targets stay in the field |
| World.EatGhost | pacman/js/pacman.js:276-282 | the ghost is dormant, stopped, back on its spawn cell with lastEaten at this tick, the score grows by 10, and nothing else changes |
| World.UpdatePacManPos | pacman/js/pacman.js:325-335 | the vacated cell shows its default type, the new cell shows the player, the direction is kept, and no other cell changes |
| World.PacManLoseLife | pacman/js/pacman.js:337-354 | with no life the run stops; otherwise one life goes and its heart is switched off, then the run stops (last life) or the player alone goes back to the start; ghosts, score and level are kept |
| World.InitLevel | pacman/js/pacman.js:245-257 | tiles reset, the point counter refilled, ghosts re-initialised for the level, the player on its start cell facing nowhere; score, lives and hearts are kept |
| World.NewWorld | pacman/c/pacman.c:388-411 | level 0 from the initial globals: the parsed grid, one life per recorded heart, score 0, remaining points equal to the number of '.' cells |
| World.NewGame | pacman/c/pacman.c:887-891 | the shipped game starts valid, with three lives and score 0 |
| PlayerStep.CheckPacManCollisions | pacman/js/pacman.js:284-323 | blocked exactly at a wall; a fatal hit or a wall changes nothing; only a scored hit raises the score, by 0 (a point) or 10 (a ghost); lives, level, player and point counter are untouched |
| PlayerStep.ConsumablesScoreOnce | pacman/js/pacman.js:298-303 | an interactable Point or Energizer scores once and is spent; a spent one lets the player pass |
| PlayerStep.EnergizerFrightens | pacman/js/pacman.js:304-305 | the browser port frightens on every entry to an energizer; the console port only when it consumes it |
| PlayerStep.GhostMarkOutcome | pacman/js/pacman.js:306-321 | a ghost marker is a meal (the ghost is eaten) when that ghost is frightened and fatal otherwise |
| PlayerStep.PlainCellsPass | pacman/js/pacman.js:285-296 | Empty, Heart and PacMan cells have no entry in the table: pass, no effect |
| PlayerStep.Resolve | pacman/js/pacman.js:366-384 | the outcome of a hit keeps the world valid; the score never falls, at most one life goes, the level grows by at most one, and the run never restarts |
| PlayerStep.UpdatePacMan | pacman/js/pacman.js:356-385 | one player step keeps the world valid and the defaults; the score never falls, at most one life goes, the level grows by at most one |
| PlayerStep.WallStopsPlayer | pacman/js/pacman.js:366-368 | a wall ahead changes nothing |
| PlayerStep.EatPoint | pacman/js/pacman.js:369-384 | eating an interactable Point or Energizer that is not the last point: +1, one fewer remaining point, the tile spent, the player on it |
| PlayerStep.PlainCellsMove | pacman/js/pacman.js:356-385 | an Empty, Heart or PacMan cell ahead: the player simply moves onto it and nothing else changes |
| PlayerStep.PointEaten | pacman/js/pacman.js:369-371 | the spent tile differs from before only in its interaction flag |
| PlayerStep.LastPointStep | pacman/js/pacman.js:369-377 | taking the last point, as a Point or an Energizer, is the next level's initLevel applied to the scored world; the energizer's frightening leaves no trace |
| PlayerStep.PointCollision | pacman/js/pacman.js:298-303 | entering an interactable Point spends it, scores, and frightens nobody |
| PlayerStep.InitLevelReadsFields | pacman/js/pacman.js:245-257 | initLevel's result depends only on the tiles, the score, the point total, the hearts, the lives and the running flag; the ghosts, the player and the remaining count it is handed are replaced |
| PlayerStep.EatLastPoint | pacman/js/pacman.js:369-377 | eating the last point, as a Point or an Energizer, starts the next level: +1, counter refilled, ghosts re-initialised, player at the start, tiles reset |
| PlayerStep.NextLevelAfterPoint | pacman/js/pacman.js:245-257 | the level started by a point: score +1, level +1, counter refilled, ghosts re-initialised at the new score, player at the start, and tiles reset as if no tile had been spent |
| PlayerStep.SpentTileEarnsNothing | pacman/js/pacman.js:356-385 | a spent tile earns nothing and the player simply moves onto it |
| PlayerStep.EatFrightenedGhost | pacman/js/pacman.js:306-377 | walking into a frightened ghost scores 10 plus 1; if that was the last point the next level starts with the counter refilled and the player at the start, otherwise one remaining point is consumed and the player moves onto the cell |
| PlayerStep.WalkIntoGhost | pacman/js/pacman.js:379-382 | walking into a non-frightened ghost is exactly a life loss, without moving onto the cell |
| GhostMoves.CheckGhostCollisions | pacman/js/pacman.js:493-509 | a wall blocks; the player's marker eats a frightened ghost and otherwise costs a life; each outcome holds exactly in its case, and other ghosts are untouched |
| GhostMoves.StepTo | pacman/js/pacman.js:520-521 | the ghost's next cell is always in the field |
| GhostMoves.ProbeOne | pacman/js/pacman.js:531-546 | one probe leaves the ghost facing the same way, nowhere, or the probed unreversed direction |
| GhostMoves.Probe | pacman/js/pacman.js:527-547 | the probe loop keeps the world valid, other ghosts and the target; the ghost ends facing its prior direction or a probed direction other than the reverse |
| GhostMoves.QuietProbeOne | pacman/js/pacman.js:536-546 | with no player in reach, a probe takes d exactly when d is a candidate strictly nearer than the minimum so far |
| GhostMoves.ProbePicksNearest | pacman/js/pacman.js:527-547 | with no player in reach, the loop only turns the ghost, to the first candidate of least distance, or leaves it when none beats the start value |
| GhostMoves.FirstNearestUnique | pacman/js/pacman.js:542-545 | the strict comparison makes the chosen direction unique: the first of the nearest |
| GhostMoves.MoveAndProbe | pacman/js/pacman.js:525-547 | a ghost that moves and probes keeps its kind, state and timers when not frightened, and heads only along a probed direction |
| GhostMoves.StepAndProbe | pacman/js/pacman.js:520-547 | a moving ghost never ends up facing straight back |
| GhostMoves.UpdateGhostPos | pacman/js/pacman.js:513-548 | a dormant ghost does nothing; otherwise other ghosts are untouched, the level and point counters are kept, and the ghost never reverses |
| GhostMoves.WallHoldsGhost | pacman/js/pacman.js:523-524 | a wall ahead leaves the ghost where it is, re-targeted only |
| GhostMoves.FrightenedGhostMeetsPlayer | pacman/js/pacman.js:497-500 | a frightened ghost stepping onto the player is eaten: dormant, on its spawn cell, +10 |
| GhostMoves.KillerMovesOn | pacman/js/pacman.js:523-525 | a chasing or scattering ghost that steps onto the player costs a life and still moves onto the cell |
| GhostMoves.KillingStep | pacman/js/pacman.js:520-525 | after a killing step the ghost stands on the cell ahead with its state and timers unchanged |
| GhostMoves.QuietStepAndProbe | pacman/js/pacman.js:520-547 | with no player in reach, a step moves the ghost one cell and turns it to the first nearest candidate |
| GhostMoves.ClearStep | pacman/js/pacman.js:523-525 | a step onto a cell that is neither wall nor player is a plain move followed by the probes |
| GhostMoves.QuietMoveAndProbe | pacman/js/pacman.js:525-547 | the nearest-direction rule evaluated at the new cell |
| GhostMoves.QuietStep | pacman/js/pacman.js:513-548 | the quiet step of a live ghost: re-target, one step, and the first nearest candidate as its new direction |
| GhostMoves.RedzoneBarsUp | pacman/js/pacman.js:511-532 | a ghost in the red zone never turns Up |
| GhostMoves.UpdateGhostRepr | pacman/js/pacman.js:550-572 | the old cell shows its default, the ghost's cell shows its marker, and no other cell changes |
| GhostMoves.UpdateGhost | pacman/js/pacman.js:574-579 | after its update a ghost stands under its own marker, and no other ghost changed |
| GhostMoves.MarkerNamesGhost | pacman/js/pacman.js:555-567 | the marker under a ghost names that very ghost, so the player's check finds it |
| GhostMoves.UpdateFrom | pacman/js/pacman.js:581-586 | updating the ghosts in order keeps the world valid and the progress bounds, and Clyde ends under his marker |
| GhostMoves.UpdateGhosts | pacman/js/pacman.js:581-586 | the four updates keep the world valid: level and points kept, score not lower, lives not regained |
| Engine.InitConfig | src/lib/quine_engine_lib.js:110-112 | each given key overrides and each absent key keeps its value |
| Engine.InitConfigIdempotent | src/lib/quine_engine_lib.js:110-112 | applying the same configuration twice is applying it once, and an empty one changes nothing |
| Engine.GameConfig | pacman/js/pacman.js:590-593 | the game runs at 60 ticks per second, a tick every 16 frames, on a 28 x 36 window |
| Engine.TicksDue | src/lib/quine_engine_lib.js:63-66 | the catch-up runs the least number of ticks that brings nextTick to currentTick or beyond |
| Engine.CatchUp | src/lib/quine_engine_lib.js:63-66 | the loop runs TicksDue ticks and advances nextTick by that many skips, ending with currentTick <= nextTick |
| Engine.Advance | src/lib/quine_engine_lib.js:62-66 | a frame adds one to currentTick and catches nextTick up |
| Engine.StartIsPaced | src/lib/quine_engine_lib.js:2-3 | the clock starts paced |
| Engine.PacedFrame | src/lib/quine_engine_lib.js:61-71 | from a paced clock a frame runs at most one tick, exactly on frames 1, skip + 1, ..., stays paced, and sleeps between 0 and skip - 1 |
| Engine.Frames | src/lib/quine_engine_lib.js:61-66 | after k frames currentTick is k |
| Engine.FramesPaced | src/lib/quine_engine_lib.js:61-71 | every frame from the start leaves the clock paced, with nextTick equal to the ticks run times skip |
| Engine.TickRate | src/lib/quine_engine_lib.js:61-71 | over k frames the loop runs ceil(k / skip) game ticks |
| Engine.RenderAtPos | src/lib/quine_engine_lib.js:114-117 | one entry appended, y as given, x shifted by floor((charsPerRow - width) / 2) - 1 |
| Engine.ClearPending | src/lib/quine_engine_lib.js:119-121 | the queue is emptied |
| Engine.FlushPending | src/lib/quine_engine_lib.js:27-32 | the queue is drained in order, no pixel is created, and each pixel ends with the colour of the last update aimed at it |
| Simulation.GameTick | pacman/js/pacman.js:603-606 | ghosts then player keep the world valid; defaults kept, score not lower, lives not regained, a stopped run not restarted, the level up by at most one |
| Simulation.RunTicks | src/lib/quine_engine_lib.js:63-66 | any number of catch-up ticks keeps the same facts |
| Simulation.Frame | src/lib/quine_engine_lib.js:61-67 | a frame advances the clock as Advance says and keeps the world valid |
| Simulation.PressKey | pacman/js/pacman.js:612-632 | w/a/s/d set only the player's direction (never to standing still), q only clears isRunning, any other key does nothing |
| Simulation.RunFrames | src/lib/quine_engine_lib.js:56-71 | a run keeps the world valid and advances currentTick by at most one per key |
| Simulation.PressKeyKeeps | pacman/js/pacman.js:612-632 | a key press keeps tiles, score and lives |
| Simulation.RunFramesKeeps | src/lib/quine_engine_lib.js:61-71 | a whole run keeps defaults, never lowers the score, never regains a life, never restarts |
| Simulation.RunFramesPaced | src/lib/quine_engine_lib.js:61-71 | the loop keeps the clock paced |
| Simulation.StoppedStaysStopped | src/lib/quine_engine_lib.js:61 | a stopped run runs no frame |
| Simulation.QuitEndsAfterFrame | pacman/c/pacman.c:866-877 | quitting finishes the current frame and runs no later one |
| Simulation.StartRun | src/lib/quine_engine_lib.js:56-60 | run sets isRunning and resets neither clock nor game state |
| Simulation.NewSim | pacman/c/pacman.c:388-401 | a run starts with the clock at zero, paced, three lives and score 0 |
| Simulation.FirstFrameTicks | src/lib/quine_engine_lib.js:61-66 | the first frame runs exactly one game tick, at currentTick 1, and the next one is due at 16 |

## Left out

- Rendering is left out: the DOM, colours (`getTileColor`, `renderTiles`), the console port's screen output (`render_tiles`, `on_frame_render`, `get_tile_repr`), `renderBackground`, window resizing and the score display. The game model keeps no render entries. The browser port's pending queue is modelled on its own in `Engine`; the console port's `pending_tile_updates` array is not modelled.
- Timing is left out: the `await setTimeout` / `Sleep` pacing. Only the sleep amount is modelled (`SleepTime`, `PacedFrame`).
- The console port's input thread and its concurrency are left out. A key takes effect between frames (`RunFrames`), not at an arbitrary point inside a tick.
- Randomness is an oracle. `genRandomTarget` and `gen_random_target` become a parameter that gives every ghost kind a point on every tick.
  - The same oracle argument serves all catch-up ticks of a frame, indexed by the tick's number within the frame.
  - The console port's xorshift generator (signed shifts, signed `%`, which can give negative coordinates) is not modelled.
  - Consequently `Ghosts.AsWrittenTargetsStayInField` assumes an in-field draw, which only the browser port guarantees.
- Floating point is left out. The level multiplier `1 + level * 0.1` is the exact rational (10 + level) / 10. The model does not reproduce IEEE rounding at the boundaries of `Math.floor(x / m)` or of the console port's float-to-short conversions.
- Integer widths are left out. The console port's `short` fields (lives, level, remaining points, vector coordinates) and the `int` score are unbounded integers here, because no reachable value comes near their limits except after tens of thousands of levels.
- Memory allocation is left out: `malloc`, `cleanup`, and the exit on allocation failure.
- `main`, `init_def_vals`, and the build configuration are left out. Only the constants they set are modelled.
- The restart path is left out. In the browser port the space key calls `start` after a run ends, which runs `initLevel(0)` again on top of the old globals: the tiles are re-parsed, `totalPointTiles` is not zeroed first, and the score is not reset. The model only states what `run` itself does (`Simulation.StartRun`).
- Engine.WindowDimensions (getWindowDimensions) has no contract of its own. What it returns for the game is stated by `Engine.GameConfig`.
- Simulation.RunTicks: states only the facts every tick keeps (validity, defaults, score, lives, running), not the level bound over n ticks.
- PlayerStep.UpdatePacMan: states bounds on the step. The exact outcome of each case is stated by the separate lemmas WallStopsPlayer, EatPoint, EatLastPoint, SpentTileEarnsNothing, PlainCellsMove, EatFrightenedGhost and WalkIntoGhost, not by its own contract.
- GhostMoves.UpdateGhostPos: states frame properties and the no-reversal rule. The direction it picks is stated, for steps with no player in reach, by QuietStep and ProbePicksNearest. When a probe meets the player, the model follows the code but no lemma states which direction results.

Where the documented behaviour of the game and its code differ, the model follows the code:

- Losing a life moves the player back to the start cell but keeps its direction. `pacManLoseLife` calls only `updatePacManPos`.
- Inky's chase target is Blinky plus four times the offset to the pivot, not a reflection through the pivot (factor 2).
- In the console port a frightened ghost never returns to Scatter through the state update. The code shifts the timestamps but does not change the state (`Ghosts.CStaysFrightened`).

## Findings

| source | as written | input that shows it | evidently intended | confidence | as-written member | corrected member |
|---|---|---|---|---|---|---|
| pacman/js/pacman.js:462-487 | the Chase case has no `break` (the console port's pacman/c/pacman.c:670-696 likewise) after the per-kind switch, so it falls into the Frightened case and every chasing ghost outside the home region aims at a random point | Blinky chasing at (1,4), player at (13,26), random point (0,0): the target is (0,0), not (13,26) | Chase ends with `break`, and the per-kind target stands | not executed | Ghosts.FallThroughCounterexample | Ghosts.UpdateGhostTarget |

The as-written behaviour is `UpdateGhostTarget` under `Rules(_, FallsThrough)`; the corrected one is `UpdateGhostTarget` under `Rules(_, BreakAfterChase)`, whose contract states the per-kind target of `ChaseTarget`. The rest of the model takes the Chase rule as a parameter (`Rules.chase`), so every operation and lemma above holds for both the as-written and the corrected behaviour.
