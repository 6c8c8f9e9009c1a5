# Gameplay core of the graphics-fp maze game, in Dafny

This project models the gameplay logic of a small OpenGL chase game and proves properties about it. The player flies a plane through a grid world loaded from a CSV file. Buildings block the plane, white points can be collected. The ghost manager is written to spawn ghosts around the player, merge them when they meet, and blow the plane up in a particle burst when one reaches it, after which everything respawns. In this build its update call is commented out (see "Ghost update" below), so no ghost ever spawns or reaches the plane; the model covers the manager and the explosion path as written all the same.

Modules, one per part of the program:

- `Wrappers` holds `Option` and `Result`.
- `Geometry` holds 2-D and 3-D vectors with squared distances. Every `length(a - b) < k` of the source becomes `k > 0 && distSq < k * k`. This is exact for every `k`, including `k <= 0`, where the source's comparison is false.
- `Seqs` holds `Filter`, the `erase(remove_if(...))` idiom, with its membership and order lemmas.
- `Collision` covers `CollisionDetector.cpp`. The static obstacle vector becomes the `objects` field of a `CollisionDetector` object.
- `Particles` covers `ParticleSystem.cpp` and `isAlive`. The class `ParticleSystem` updates its particles in place.
- `Ghosts` covers `Ghost.cpp`:
  - a ghost is a value, because the manager's vector holds ghosts by copy and `merge` returns a new one;
  - `Ghost::update` becomes the function `Step`;
  - `GhostManager` is a class, and it also holds the static `_allGhostPositions` and `_hasCollided`.
- `Csv` covers `read_csv`. It models `std::getline` as `Split` and `std::stoi` as `Stoi`, including both of its exceptions.
- `World` is the cell scan of `_generateEnvironment`: which obstacles and points it creates, and in what order.
- `Engine` holds the class `FPEngine`:
  - world loading;
  - the one-tick state machine `_updateScene`, which covers the explosion, the fall, the clamp, the forward move with the sticky slide axis, the backward move, point pickup and turning.

Positions and timers are `real`. Trigonometry and `rand()` are parameters of the methods that use them:

- the heading step `0.15 * (sin d, cos d)`;
- the particle directions and rolls;
- the ghosts' steering displacements;
- the density roll and the spawn offset.

Notes on the source, each of which the model follows as written:

- **Collision shape.** The collision test is the circle test of `CollisionDetector.cpp:5-18`: two circles on the ground plane, not squares.
- **World size and indexing.** The world is sized from the CSV file, and the matrix is indexed `[i][j]` with `i` running over the first row's length, as at `FPEngine.cpp:381-401`.
- **Ghost update.** The ghost manager's update is not called from `_updateScene`, because that call is commented out at `FPEngine.cpp:700-704`.
- **Fall branch.** The falling branch of `_updateScene` is modelled. However, nothing sets `_isFalling`, and `UpdateScene` proves it stays false.
- **`_checkCollisions`.** `CollisionDetector.h:15` declares `checkCollision(position, objects, playerRadius = 1.0f)`. At `FPEngine.cpp:933-959` the call passes the position and then the float `_playerRadius`, so the float lands in the `objects` slot and the call does not type-check as written. The evident intent is to test against the registered obstacles with the engine's own radius, so it is modelled as `checkCollision(newPos, registry, 0.5)` rather than with the header default 1.0. The value 0.5 is what `_playerRadius` holds: the constructor sets it at `FPEngine.cpp:32`, overriding the 2.0 initialiser at `FPEngine.h:265`.
- **`getCollidedObject`.** It is called at `FPEngine.cpp:550`, but it is not declared anywhere. It becomes an unconstrained parameter `hit`, so every property of the forward move holds whichever obstacle it reports.
- **`moveBackward`.** The call `_pColtonPlane->moveBackward()` at `FPEngine.cpp:618` uses members that are declared nowhere: `FPEngine.h` has no `_pColtonPlane` and `Plane.h` has no `moveBackward`. Like `getCollidedObject`, it is left out, and the backward move is modelled without it.

## Model

| member | source | states |
|---|---|---|
| Collision.CheckCollision | CollisionDetector.cpp:5-18 | true exactly when some obstacle's (x, z) centre is strictly closer to the player than the sum of the two radii |
| Collision.OverlapIgnoresHeightAndKind | CollisionDetector.cpp:8-13 | the overlap test looks neither at an obstacle's height nor at its tree flag |
| Collision.EmptyNeverCollides | CollisionDetector.cpp:6-17 | an empty obstacle list never reports a collision |
| Collision.CollisionMonotone | CollisionDetector.cpp:5-18 | adding obstacles before or after never turns a collision into none |
| Collision.CollisionIgnoresOrder | CollisionDetector.cpp:5-18 | two lists with the same obstacles in any order give the same answer |
| Collision.CollisionDetector.constructor | CollisionDetector.cpp:3 | the registry starts empty |
| Collision.CollisionDetector.AddCollisionObject | CollisionDetector.cpp:20-22 | the list grows by exactly the new record at the end; earlier entries are unchanged |
| Collision.CollisionDetector.ClearCollisionObjects | CollisionDetector.cpp:24-26 | the list is empty afterwards |
| Particles.Emit | ParticleSystem.cpp:16-39 | a new particle sits at the origin with life 1, size in [0.1, 0.3], colour (1, g, 0) with g in [0, 0.5], and speed in [2.5, 7.5] |
| Particles.Advance | ParticleSystem.cpp:46-50 | gravity changes only the y velocity; the position moves by the updated velocity times dt; life is the shared fade; size and colour are kept |
| Particles.FadeInRange | ParticleSystem.cpp:49 | while the burst is alive, every particle's life lies in (0, 1] |
| Particles.ElapsedIsLinear | ParticleSystem.cpp:44 | after n fixed ticks the elapsed time is n * 0.016 |
| Particles.BurstLifetime | ParticleSystem.h:23 | with exact arithmetic the burst is alive after n ticks of 0.016 exactly when n < 313 |
| Particles.ParticleSystem.constructor | ParticleSystem.cpp:6-10 | no particles, elapsed time 0 |
| Particles.ParticleSystem.Spawn | ParticleSystem.cpp:12-41 | the old burst is discarded; exactly 100 particles are created, particle k from draw k; elapsed time is 0 and the burst is alive |
| Particles.ParticleSystem.IsAlive | ParticleSystem.h:23 | the burst is alive exactly while the life it gives every particle, 1 - elapsed/5, is still positive |
| Particles.ParticleSystem.Update | ParticleSystem.cpp:43-51 | the clock advances by dt; no particle is added or removed; each is advanced in place and all share life 1 - elapsed/5 |
| Ghosts.Merge | Ghost.cpp:25-33 | the result lies at the midpoint, equally far from both ghosts; its size is the sum capped at 4, so never above MAX_GHOST_SIZE; it is a fresh, living, non-falling ghost |
| Ghosts.FallingGhostOnlySinks | Ghost.cpp:36-40 | a falling ghost only loses 15*dt of height and gains dt of fall time, and never raises the collision flag |
| Ghosts.LeavingWorldStartsFall | Ghost.cpp:46-51 | a walking ghost beyond ±60 in x or z starts falling with fall time 0 and does not move that tick |
| Ghosts.IsAlive | Ghost.h:24 | a walking ghost is always alive; a falling ghost is dead once its fall time reaches 3 |
| Ghosts.Step | Ghost.cpp:35-90 | one update never changes a ghost's size; a falling ghost keeps falling and never raises the flag; a walking, in-world ghost stays walking with its fall time untouched; the flag is raised only when the ghost was within 2.0 of the target |
| Ghosts.HitWindow | Ghost.cpp:53-89 | the collision flag is raised exactly when a walking, in-world ghost is, before it moves, strictly between 0.1 and 2.0 from the target on the ground plane |
| Ghosts.FallTimeAccumulates | Ghost.cpp:36-40 | after n updates a falling ghost is still falling and its fall time has grown by n*dt |
| Ghosts.FallingGhostDies | Ghost.h:24 | a falling ghost whose fall time reaches 3 is no longer alive |
| Ghosts.StepAll | Ghost.cpp:163-167 | one update round keeps the number of ghosts, each ghost's size, and every falling ghost falling |
| Ghosts.Survivors | Ghost.cpp:169-173 | removal never adds ghosts, and every ghost kept is alive |
| Ghosts.SurvivorsExactly | Ghost.cpp:169-173 | the ghosts kept after removal are exactly the living ones, in their original relative order |
| Ghosts.StepAllKeepsSizes | Ghost.cpp:164-167 | an update round never changes a ghost's size, so sizes stay within [1, 4] |
| Ghosts.SurvivorsKeepSizes | Ghost.cpp:169-173 | removing dead ghosts keeps sizes within [1, 4] |
| Ghosts.FindFrom | Ghost.cpp:223-241 | any pair the scan reports is a close pair i < j at or after its starting point |
| Ghosts.FindFromIsFirst | Ghost.cpp:223-243 | the reported pair is the first close pair in i-outer, j-inner order; no pair is close when the scan reports none |
| Ghosts.MergeAt | Ghost.cpp:229-236 | one merge removes entries i and j, keeps the others in order and appends the merged ghost, so the list shrinks by one |
| Ghosts.Merges | Ghost.cpp:219-245 | the repeated merging terminates, never grows the list, and leaves no close pair |
| Ghosts.MergesKeepSizes | Ghost.cpp:219-245 | merging keeps every size within [1, 4] |
| Ghosts.SpawnIntervalAt | Ghost.cpp:151-155 | the spawn interval lies in [0.5, 3] at every time |
| Ghosts.DensityAt | Ghost.cpp:157-158 | the density never exceeds 0.9 and, from the start of the game on, is at least 0.3 |
| Ghosts.MaxGhostsAt | Ghost.cpp:160-161 | the ghost cap lies in [30, 200] at every time |
| Ghosts.DifficultySchedule | Ghost.cpp:148-161 | as time passes, the spawn interval falls but never below 0.5, the density rises but never above 0.9, and the ghost cap rises but never above 200 |
| Ghosts.GhostManager.constructor | Ghost.cpp:137-145 | no ghosts, no flag, clocks at zero, initial spawn parameters (3.0, 0.3, 30), spawn radius 40 |
| Ghosts.GhostManager.Reset | Ghost.cpp:207-217 | empties the ghost and position lists, clears the flag, zeroes both timers and restores the three spawn parameters; the spawn radius is kept |
| Ghosts.GhostManager.SpawnGhost | Ghost.cpp:199-205 | appends one fresh size-1 ghost below the cap; leaves the list unchanged at or above the cap |
| Ghosts.GhostManager.StepGhosts | Ghost.cpp:163-167 | every ghost is stepped in place; the position list holds one entry per stepped ghost; the flag becomes set exactly when it was set or some ghost hit |
| Ghosts.GhostManager.RemoveDeadGhosts | Ghost.cpp:169-173 | the list becomes exactly its living ghosts, in order |
| Ghosts.GhostManager.MergePair | Ghost.cpp:229-236 | erase j, erase i and push the merged ghost, as one merge |
| Ghosts.GhostManager.CheckGhostMerges | Ghost.cpp:219-245 | the do-while ends with the list equal to the repeated merge of the old one, and with no pair closer than MERGE_DISTANCE times their size sum |
| Ghosts.GhostManager.UpdateDifficulty | Ghost.cpp:148-161 | the clock advances by dt and the three spawn parameters follow the schedule, within their clamps |
| Ghosts.GhostManager.SpawnTick | Ghost.cpp:175-188 | the timer resets only when due and below the cap, whatever the roll; a ghost is added only when the roll also succeeds |
| Ghosts.GhostManager.Refresh | Ghost.cpp:169-190 | remove the dead ghosts, then maybe spawn, then merge; sizes stay in [1, 4], no close pair remains, and the list is at most its old length or within the cap |
| Ghosts.GhostManager.Update | Ghost.cpp:147-191 | the full update: clamped difficulty; positions recorded before removal; flag; survivors in order; spawn gating; merges; no close pair afterwards |
| Csv.LeadingSpacesSpan | FPEngine.cpp:362 | the white space std::stoi skips is exactly the maximal white-space prefix |
| Csv.LeadingDigitsSpan | FPEngine.cpp:362 | the digits std::stoi reads are exactly the maximal digit prefix |
| Csv.Split | FPEngine.cpp:356-363 | the pieces std::getline extracts contain no separator; an empty input gives no pieces |
| Csv.SplitFirst | FPEngine.cpp:361 | a piece followed by a separator is extracted first |
| Csv.SplitTerminated | FPEngine.cpp:356 | newline-terminated lines are read back one for one |
| Csv.SplitJoin | FPEngine.cpp:361 | comma-joined cells are read back one for one when the last cell is not empty |
| Csv.JoinSplit | FPEngine.cpp:356-363 | splitting loses only the separators and at most one trailing separator |
| Csv.Stoi | FPEngine.cpp:362 | a successful conversion is within the 32-bit int range |
| Csv.BlankCellIsInvalid | FPEngine.cpp:362 | an empty or all-white-space cell throws invalid_argument |
| Csv.DecimalValue | FPEngine.cpp:362 | the decimal numeral of n reads back as n |
| Csv.StoiFormatInt | FPEngine.cpp:362 | every int in range, written in decimal, is read back by std::stoi |
| Csv.Collect | FPEngine.cpp:361-365 | the conversions of a line succeed exactly when each one does, and then give their values in order |
| Csv.CollectFirstError | FPEngine.cpp:361-363 | the error that escapes is the first conversion's error |
| Csv.ParseLine | FPEngine.cpp:357-365 | the inner loop yields the row of the line's cells, or the first stoi error |
| Csv.ParseCsv | FPEngine.cpp:356-366 | when every line converts, the file gives exactly one row per line, each the conversion of that line's cells |
| Csv.ParseCsvFails | FPEngine.cpp:356-366 | parsing fails exactly when some line holds a cell that stoi rejects |
| Csv.ReadCsv | FPEngine.cpp:346-370 | a file that cannot be opened gives no rows; otherwise the result is one row per line, or the first stoi error |
| Csv.RowRoundTrip | FPEngine.cpp:357-365 | a row of ints written comma-separated reads back as the same row |
| Csv.CsvRoundTrip | FPEngine.cpp:346-370 | every grid of ints, ragged rows included, written as a CSV text reads back unchanged |
| World.RowCells | FPEngine.cpp:399-419 | the inner loop visits exactly the cells of row i with the given code, in column order |
| World.GridCells | FPEngine.cpp:398-420 | the nested loops visit exactly the in-range cells with the given code, in i-outer, j-inner order |
| World.RowWallsPlaced | FPEngine.cpp:399-411 | the buildings the inner loop registers are those of the row's code-1 cells, in order |
| World.RowPointsPlaced | FPEngine.cpp:399-418 | the points the inner loop appends are those of the row's code-0 cells, in order |
| World.LayoutNextRow | FPEngine.cpp:398-420 | the scan up to row i + 1 is the scan up to row i followed by row i |
| World.Obstacles | FPEngine.cpp:398-411 | every obstacle the scan registers is a building of radius 2.1, standing at height 0, not a tree |
| World.Pickups | FPEngine.cpp:398-418 | every point the scan places starts uncollected |
| World.ObstaclesExactly | FPEngine.cpp:398-411 | a building of radius 2.1 stands at (3i, 0, 3j) exactly when cell [i][j] holds 1, and every building stands on such a cell |
| World.PickupsExactly | FPEngine.cpp:398-418 | an uncollected point lies at (3i, 3j) exactly when cell [i][j] holds 0, and every point lies on such a cell |
| World.WorldInsideBounds | FPEngine.cpp:398-420 | buildings and points never share a spot, and all of them lie inside the square the plane is clamped to |
| Engine.Clamp | FPEngine.cpp:522-533 | the result lies in [0, 3W] × [0, 3H]; an in-range coordinate is unchanged; an out-of-range coordinate goes to the nearer bound |
| Engine.ClampIdempotent | FPEngine.cpp:522-533 | clamping twice is clamping once |
| Engine.Forward | FPEngine.cpp:538-579 | at the end of the W move, the position equals the last valid position |
| Engine.ForwardOutcomes | FPEngine.cpp:538-579 | a W move ends in one of five ways: the full step, a slide along x, a slide along z, staying put, or a revert to the last valid position; every outcome except the revert is collision-free |
| Engine.ForwardFree | FPEngine.cpp:543-548 | a free step is taken in full and releases the slide axis |
| Engine.ForwardAxisLock | FPEngine.cpp:565-576 | while sliding along x, a blocked step never changes the z coordinate, and vice versa, unless it reverts |
| Engine.ForwardSlidesOneAxis | FPEngine.cpp:565-572 | a blocked step moves along at most one axis |
| Engine.LastValidStaysFree | FPEngine.cpp:538-621 | a collision-free last valid position stays collision-free under both moves |
| Engine.Backward | FPEngine.cpp:611-621 | the S move ends on the last valid position and leaves the slide axis alone |
| Engine.BackwardOutcomes | FPEngine.cpp:611-621 | the S move takes the full step to a free spot, or returns to the last valid position |
| Engine.UncollectedExactly | FPEngine.cpp:582-593 | the points left are exactly those at distance ≥ 0.5 from the player |
| Engine.UncollectedKeepsOrder | FPEngine.cpp:589-593 | removal keeps the survivors' relative order |
| Engine.UncollectedUnmarked | FPEngine.cpp:582-593 | no point left behind is marked for deletion |
| Engine.FPEngine.constructor | FPEngine.cpp:23-34 | the plane starts at the spawn point with a free slide axis and no points, obstacles or ghosts; it is not exploding or falling |
| Engine.FPEngine.GenerateEnvironment | FPEngine.cpp:372-422 | the registry is emptied first; on success the world size comes from the matrix, the registry holds exactly the buildings and the new points are appended; a stoi error leaves the registry empty |
| Engine.FPEngine.PlaceWorld | FPEngine.cpp:398-420 | the nested loops append exactly the matrix's buildings and points, in scan order |
| Engine.FPEngine.PlaceRow | FPEngine.cpp:399-419 | one inner loop appends the buildings and points of row i, in column order |
| Engine.FPEngine.ClampPosition | FPEngine.cpp:522-533 | the four clamps compute Clamp |
| Engine.FPEngine.MoveForward | FPEngine.cpp:538-579 | the W movement with _checkCollisions does exactly what Forward describes |
| Engine.FPEngine.MoveBackward | FPEngine.cpp:611-621 | the S movement does exactly what Backward describes |
| Engine.Uncollected | FPEngine.cpp:589-593 | erasing never adds points, and no point left is within reach of the player |
| Engine.Blocked | FPEngine.cpp:933-959 | a move is allowed only when it overlaps no registered obstacle at radius 0.5, and it can be blocked only when some obstacle is registered |
| Engine.FPEngine.CollectPoints | FPEngine.cpp:582-593 | after marking and erasing, the points are those out of reach of the player, in order |
| Engine.FPEngine.StartExplosion | FPEngine.cpp:480-486 | sets the exploding flag and spawns a live burst of 100 particles at the plane |
| Engine.FPEngine.Respawn | FPEngine.cpp:495-498 | the plane returns to the spawn point with heading 0, and the ghost manager is reset with its spawn radius kept |
| Engine.FPEngine.RunExplosion | FPEngine.cpp:489-501 | the burst ages one tick and keeps its particles, each advanced in place with the shared life 1 - elapsed/5; while it is alive nothing else changes; once it dies the flag clears and everything respawns, the ghosts' spawn radius kept |
| Engine.FPEngine.Fall | FPEngine.cpp:504-519 | the plane sinks 15 * 0.016 per tick and respawns once the fall time reaches 3, clearing the fall state and keeping the ghosts' spawn radius |
| Engine.FPEngine.Move | FPEngine.cpp:522-669 | clamp, then the W move with pickup, the S move and the A/D turns, in that order; no point is left marked |
| Engine.FPEngine.UpdateScene | FPEngine.cpp:478-705 | one tick: a ghost hit starts the explosion, restarting the burst clock at 0 and emitting 100 particles at the plane with nothing else changed; a running explosion advances every particle in place and changes nothing else until the burst dies and everything respawns; a falling plane sinks and respawns after 3 time units with points and burst untouched; respawns keep the ghosts' spawn radius; the plane never starts falling; otherwise clamp, move and turn, leaving height and fall time alone |

## Left out

- Rendering, the camera and the point light: OpenGL calls, GLFW input, the camera-follow updates inside `_updateScene`, the undeclared `_pColtonPlane->moveBackward()` call at `FPEngine.cpp:618`, building colours, the `fprintf` debug output of `_checkCollisions` and the "Could not open the file" message `read_csv` writes to `std::cerr` at `FPEngine.cpp:352`. None of them affects the game state.
- Trigonometry and `rand()`: they are parameters. `Emit` takes a unit direction and three rolls in [0, 1]. `GhostManager.Update` takes a roll in [0, 1] and an offset on the spawn circle. The movement methods take the heading step.
- Ghosts.Step: the steering of `Ghost::update` (normalisation, turn rate, avoidance at `Ghost.cpp:53-83`) is a given displacement `steer`. The bob timer and vertical offset drive drawing only.
- Floating point: all quantities are exact reals, so rounding is not modelled. `BurstLifetime`'s count of 313 ticks holds for exact arithmetic. Accumulated `float` rounding may end the burst one tick earlier or later.
- Engine.FPEngine.MoveForward: `getCollidedObject` is not defined anywhere, so the obstacle it returns is an unconstrained parameter. No property depends on which obstacle it is.
- Engine.FPEngine.GenerateEnvironment: a file that cannot be opened makes `read_csv` return no rows, and then `world_matrix[0]` is undefined behaviour. The model therefore requires the file to be readable. It also requires that the `[i][j]` scan stays in bounds, for example with a non-empty square matrix.
- Engine.FPEngine.constructor: `_lastValidPosition` is never initialised in the source, so its first value is a constructor parameter.
- Ghosts.GhostManager.constructor: the initialiser list reads the initial spawn values before they are initialised. The setters at `FPEngine.cpp:282-285` overwrite all three at once, so the model starts from 3.0, 0.3 and 30.
- The ghost manager's `draw`, and the declared but unimplemented grid pursuit and `findBestMove` of `FPEngine.h`: none of them has gameplay behaviour to model.
