# Hexagon arena: game-state model

A Dafny model of the game-state update logic of a small Bevy arcade game
(`src/hexagon.rs`). A player token orbits the inside of a hexagonal arena.
Walls spawn at the rim in waves and travel inward along the arena's lanes.
Three systems change the game state, and the model covers each of them:

- **player control** turns the player's angle by 2 degrees per fast tick while
  an arrow key is held. Right overrides Left. One correction of 360 degrees
  wraps the angle.
- **wall spawning** runs when the spawn timer fires. It draws a wave size of 1
  to 4. It then draws that many distinct lanes from 0 to 4, redrawing any lane
  already chosen. Each lane gets one wall at distance 450.
- **wall movement** runs on each fast tick. It moves the walls inward by 2, one
  by one in iteration order. The first wall whose new distance would fall below
  28 is despawned, and the pass stops there.

Modules:

- `Lanes` (`lanes.dfy`) holds the shared constants (speed 2, rim 450,
  despawn threshold 28) and the placement angle `30 + 60 * lane`.
- `PlayerControl` (`player.dfy`) has the class `Player`, whose `Control` method
  updates the `angle` field. Beside it are the functions that specify the
  method and lemmas about any sequence of frames.
- `Spawner` (`spawner.dfy`) models the wave-size draw and the rejection-sampling
  loop (`ChooseDirections`). Its inner redraw loop is the method `DrawLane`.
  `Selected` is the reference definition that both are proved against.
- `Walls` (`walls.dfy`) has the class `Arena`. Its `walls` field is the list of
  live walls in iteration order. `SpawnWalls` appends a wave to it, and
  `MoveWalls` is the in-place movement pass. `MovePass` is the reference
  definition that `MoveWalls` is proved against.

Inputs from outside the game state are parameters:

- a timer's "just finished" signal is a `bool`;
- the arrow keys are two `bool`s;
- `fastrand` is an oracle, a finite `seq<int>` of raw draws. `Spawner.RandI32`
  folds each raw draw into the half-open range that the call asks for. A raw
  draw already in that range passes through unchanged.

The source stores angles and distances as `f32`. The model uses `int`, and this
is exact: angles are even integers in [0, 360] and distances are even integers
in [28, 450]. `PlayerControl.InRange` and `Walls.Live` state this, and every
operation preserves it.

Edge behaviour of the code that the model keeps:

- An angle that reaches exactly 360 is kept as 360. It is not mapped to 0, so
  the angle ranges over [0, 360], not [0, 360).
- Lanes are drawn from the half-open range `0..5`, so no wall ever travels in
  lane 5.
- The movement pass returns right after the first despawn. Walls later in the
  iteration order do not move on that tick.

## Model

| member | source | states |
|---|---|---|
| `Lanes.PlacementAngle` | src/hexagon.rs:277 | a wall in lane d is placed strictly inside that lane's 60-degree sector, exactly at its middle, and within (0, 360) for lanes 0 to 5; the lane can be recovered from the angle, so different lanes get different angles |
| `PlayerControl.Direction` | src/hexagon.rs:199-208 | the direction is -1, 0 or +1; it is 0 exactly when neither arrow is held; Right gives +1 even when Left is also held; Left alone gives -1 |
| `PlayerControl.TurnedAngle` | src/hexagon.rs:213-220 | the turned angle is the raw sum angle + 2·direction, corrected by at most one full turn; there is no correction when the sum is already in [0, 360]; an even angle in [0, 360] stays an even angle in [0, 360] |
| `PlayerControl.TurnKeepsEnds` | src/hexagon.rs:215-220 | the result is exactly 360 only when the raw sum is 360, and exactly 0 only when it is 0, so 360 is never folded to 0 |
| `PlayerControl.Player.constructor` | src/hexagon.rs:121 | the player starts at angle 0 |
| `PlayerControl.Player.Control` | src/hexagon.rs:192-232 | with no arrow held, the method returns without ticking the timer and the angle is unchanged; otherwise it ticks the timer, and the angle becomes the turned angle only if the timer just finished; the angle stays in [0, 360] |
| `PlayerControl.AngleAfterInRange` | src/hexagon.rs:211-222 | over any sequence of frames (any keys, any timer results) the angle never leaves [0, 360] |
| `PlayerControl.AngleAfterTurnsBySteps` | src/hexagon.rs:213-222 | after any sequence of frames, the angle equals the start angle plus 2 degrees per step taken, up to whole turns: wrapping never loses or gains a step |
| `Spawner.RandI32` | src/hexagon.rs:264-269 | a draw from `lo..hi` lies in [lo, hi), so the wave size is 1 to 4 and a lane is 0 to 4, never 5 |
| `Spawner.Selected` | src/hexagon.rs:265-272 | the lanes kept by rejection sampling are pairwise distinct, each lies in 0 to 4, and there are no more of them than draws |
| `Spawner.SelectedKeepsDrawnLanes` | src/hexagon.rs:267-271 | a lane is kept if and only if some draw produced it |
| `Spawner.SelectedPrefix` | src/hexagon.rs:266-272 | further draws only append lanes: the lanes kept so far stay a prefix of the selection |
| `Spawner.FreeLaneExists` | src/hexagon.rs:268-270 | while fewer than five distinct lanes are kept, some lane in 0 to 4 is still free, so a wave of up to four walls can always be completed |
| `Spawner.DrawLane` | src/hexagon.rs:267-271 | the lane returned is new: not among the lanes already chosen; it is the lane of the last draw consumed, and adding it extends the reference selection by exactly that lane; when the draws run out first, nothing is added |
| `Spawner.ChooseDirections` | src/hexagon.rs:264-272 | given enough draws, the wave has exactly the drawn size (1 to 4); its lanes are distinct, lie in 0 to 4, and are the first distinct lanes of the draws in order; it stops at the draw that completes the wave; it reports exhaustion exactly when the draws cannot complete the wave |
| `Walls.MovePass` | src/hexagon.rs:318-327 | one pass removes at most one wall and keeps every remaining wall live, with distance at least 28 |
| `Walls.MovePassAdvancesAll` | src/hexagon.rs:320-354 | when no wall would fall below 28, every wall moves in by exactly 2 and keeps its lane |
| `Walls.MovePassStopsAtFirstDespawn` | src/hexagon.rs:320-327 | the first wall that would fall below 28 is removed; the walls before it move in by 2; the walls after it keep their old distance |
| `Walls.MovePassRemovesIffTooClose` | src/hexagon.rs:322-327 | a pass removes a wall if and only if some wall would fall below 28 |
| `Walls.LoneWallTicks` | src/hexagon.rs:318-354 | a wall alone in the arena moves in by 2 on every tick until it would fall below 28 |
| `Walls.LoneWallLifetime` | src/hexagon.rs:261-327 | a wall spawned alone at 450 is still present after 211 ticks, at distance 28, and is despawned on tick 212 |
| `Walls.WaveWallsLiveAndApart` | src/hexagon.rs:276-305 | a drawn wave has one wall per chosen lane, each at distance 450 and live, and no two of its walls share a lane |
| `Walls.Arena.SpawnWalls` | src/hexagon.rs:247-307 | if the spawn timer did not finish, nothing changes and no draw is used; otherwise the walls of the drawn wave, one at 450 per chosen lane, are appended and every wall stays live |
| `Walls.Arena.MoveWalls` | src/hexagon.rs:310-357 | if the fast timer did not finish, every wall is unchanged; otherwise the walls become one movement pass of the old walls, and every wall stays live |

## Left out

- Rendering is not modelled: `setup`, `create_bg`, `create_triangle`, the trapezoid mesh vertices (which use `tan`), the materials, and `src/main.rs`. These are engine and asset set-up with float vertex data.
- Positions and rotations are not modelled: the `sin`/`cos` translations, `rotate_z` and the quaternions. These are floating-point transforms. Only the integer placement angle `30 + 60 * lane` is modelled.
- `rotate_camera` is not modelled: it is a cosmetic float rotation of the camera.
- `print_fps` and the `println!` of the chosen lanes are not modelled: they are diagnostics output.
- Bevy `Timer` internals are not modelled. Each timer's "just finished" result is a boolean input. The source ticks the shared fast timer from three systems in the same frame; that scheduling is not modelled.
- `fastrand` is not modelled. Its draws come from an oracle sequence. `Spawner.RandI32` maps an out-of-range raw draw into range with a Euclidean remainder. This stands in for the generator's own mapping, which is not part of this model.
- Walls.Arena.SpawnWalls: a finite oracle can run out before a wave is complete. The method then spawns nothing and reports every draw as used. The source draws from an unbounded generator, so it never reaches this case.
- Bevy entities are not modelled. Walls are values in a sequence with no identity of their own. The query's iteration order is taken to be the order the walls were spawned in. The deferred `despawn` command is modelled as removing the wall at the end of the pass. Walls.MovePass and Walls.Ticks keep the remaining walls in spawn order when one is removed. Bevy's table storage removes a despawned entity by swap-remove: the last wall moves into the freed slot. After the first despawn, the source's iteration order can therefore differ from the model's. For example, with walls at (28, lane 0), (28, lane 1) and (300, lane 2), the model still has the third wall at 300 after two ticks, while under swap-remove it would be visited first on the second tick and move to 298.
- `query.single_mut()` panics unless there is exactly one player. The model has exactly one `Player` object, so this case is not modelled.
- Collision, score and pause/reset are not modelled, because the source does not implement them. It ends with a to-do note for the end state.
