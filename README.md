# swarm-simulation core, in Dafny

This project models the core of swarm-simulation, a 2D simulation of swarms of
ships, and proves what that core does. The modelled parts are:

- **The repulsion map** (`repulsion.dfy`, module `Repulsion`). It holds 64
  directional weights. Repulsors subtract a gaussian falloff from every
  bucket. Wall repulsion raycasts to the arena rectangle and rescales its
  total so that it never exceeds `MAX_WALL_WEIGHT` (1.5). A velocity penalty
  repels the heading opposite to the current velocity. `best_angle` picks the
  first bucket with the highest weight.
- **One ship** (`ship.dfy`, module `Ships`). `movement` is a one-tick
  controller. It stops dead when close and slow, brakes when faster than the
  safe speed `min(sqrt(2 * dist * max_decel), max_speed)`, accelerates toward
  the target when there is room below that speed, and otherwise coasts.
  Every non-stop case ends with the position moving by the new velocity.
- **A swarm** (`swarm.dfy`, module `Swarms`). It has a list of ships, a
  position, a target and a heading. `fight` and `movement` visit every
  ship. `finalize` keeps only the ships still alive.
- **The simulation** (`simulation.dfy`, module `Simulations`). `step` runs
  three passes over the swarms, in order: fight, movement, finalize.

Two supporting modules stand in for the libraries the core calls.
`numeric.dfy` (module `Numeric`) holds `f32` constants, `rem_euclid` and
real-number lemmas. `vec2.dfy` (module `Vectors`) holds the few `glam::Vec2`
operations used.

Every `f32` is a `real`. The routines `exp`, `sqrt`, `cos`, `sin` and `atan2`
come in as a `MathLib` parameter. Only these laws are assumed about them:
`exp` is positive, `exp(x) <= 1` for `x <= 0`, and `sqrt(x)` is a
non-negative square root of `x` for `x >= 0`.

Classes stand for the source's structs that are updated in place:
`RepulsionMap` (its weights an `array<real>` of 64), `Ship`, `Swarm` and
`Simulation`. Each method is proved against a specification function on
values. `AddRepulsor` is specified by `Repelled`, `AddWallRepulsion` by
`WallRepelled`, `BestAngle` by `FirstArgmax`, `Ship.Movement` by
`MovementStep`, and `Swarm.Finalize` by `Survivors`. Lemmas about those
functions state what the source promises.

Facts about the code that the model keeps as they are:

- On stopping, the code zeroes the velocity and leaves the position where it
  is.
- The code's safe speed is `sqrt(2 * dist * max_decel)`.
- `step` makes three passes over the swarms: fight, movement, finalize.
- The code has no swarm decision or combat logic: `Ship::fight` is
  `todo!()`.

## Model

| member | source | states |
|---|---|---|
| Numeric.RemEuclid | src/repulsion.rs:16 | `rem_euclid` by a positive modulus lands in `[0, m)` and differs from `x` by a whole number of `m`s |
| Numeric.RemEuclidUnique | src/repulsion.rs:16 | that representative is the only value in `[0, m)` with that property |
| Vectors.Vec2.Length | src/ship.rs:69-70 | a length is non-negative and squares to the squared length |
| Vectors.Vec2.Normalize | src/ship.rs:87 | `normalize` of a non-zero vector has length one and, scaled back by the length, gives the vector |
| Vectors.Vec2.ClampLengthMax | src/ship.rs:88 | `clamp_length_max` keeps a vector no longer than `max`; a longer one comes out with length exactly `max` |
| Repulsion.Gaussian | src/repulsion.rs:10-12 | the gaussian weight lies in `(0, 1]` |
| Repulsion.AngleDiff | src/repulsion.rs:15-22 | `angle_diff(a, b)` lies in `(-PI, PI]` and differs from `a - b` by a whole number of turns |
| Repulsion.AngleDiffUnique | src/repulsion.rs:15-22 | it is the only value in `(-PI, PI]` that does |
| Repulsion.BucketToAngle | src/repulsion.rs:25-27 | a bucket's angle is non-negative, and below `TAU` for the 64 buckets |
| Repulsion.BucketAnglesIncrease | src/repulsion.rs:25-27 | later buckets point at strictly larger angles, so no two buckets share an angle |
| Repulsion.RepulsionMap.constructor | src/repulsion.rs:38-42 | `new` gives 64 weights, all zero |
| Repulsion.RepulsionMap.AddRepulsor | src/repulsion.rs:47-54 | the loop lowers every bucket by exactly `strength * gaussian(abs(angle_diff(bucket angle, angle)))` and changes nothing else |
| Repulsion.FalloffBounds | src/repulsion.rs:50-51 | for a non-negative strength, the amount subtracted from a bucket lies in `[0, strength]`, and is positive when the strength is |
| Repulsion.RepelledBounds | src/repulsion.rs:47-54 | a repulsor of non-negative strength never raises a weight and lowers none by more than its strength; with positive strength every weight drops |
| Repulsion.MinOf | src/repulsion.rs:138-173 | the running minimum is at most the start and every value, and equals one of them |
| Repulsion.NarrowToWall | src/repulsion.rs:142-147 | one wall's test narrows the running minimum to the crossing time when the ray points at the wall and the crossing lies ahead |
| Repulsion.RaycastToBounds | src/repulsion.rs:137-174 | the four wall tests return the least of `f32::MAX` and the crossing times ahead of the ray |
| Repulsion.CrossingOnWall | src/repulsion.rs:142-147 | every crossing time counted is positive and puts the ray on that wall's line |
| Repulsion.WallHitsOnWalls | src/repulsion.rs:137-174 | every crossing time counted by the raycast is positive and puts the ray on one of the four wall lines |
| Repulsion.RaycastDistLeastHit | src/repulsion.rs:137-174 | the raycast result is in `(0, f32::MAX]`, no larger than any crossing ahead, and either the `f32::MAX` sentinel or a crossing time at which the ray is on a wall line |
| Repulsion.CrossingIff | src/repulsion.rs:142-147 | one wall test keeps a time `t` exactly when the ray heads toward that wall, `t > 0`, and the ray is on the wall's line at `t` |
| Repulsion.WallHitsAreCrossings | src/repulsion.rs:135-174 | the times the four wall tests keep are exactly the positive times at which the ray is on the line of a wall it heads toward (`CrossesAhead`), in both directions |
| Repulsion.RaycastDistLeastCrossing | src/repulsion.rs:135-174 | stated on `CrossesAhead` alone: the raycast is at most every positive time at which the ray meets the line of a wall it heads toward, and is either `f32::MAX` or such a time |
| Repulsion.RaycastDistPositive | src/repulsion.rs:137-174 | the raycast never returns zero or less |
| Repulsion.RaycastFromInsideHitsWall | src/repulsion.rs:137-174 | a moving ray that starts strictly inside the arena has a crossing ahead of it on one of the four wall lines |
| Repulsion.WallDists | src/repulsion.rs:72-77 | one wall distance per bucket, each the raycast along that bucket's direction and each positive |
| Repulsion.CollectWallRepulsor | src/repulsion.rs:73-84 | one round of the collecting loop appends exactly the bucket's repulsor (if its wall is nearer than `detect_range`) and keeps the running total equal to the sum of strengths |
| Repulsion.WallStrengthsInUnitInterval | src/repulsion.rs:79-82 | every collected strength `1 - dist / detect_range` lies strictly between 0 and 1 |
| Repulsion.WallRepulsorsEmptyIff | src/repulsion.rs:72-85 | no repulsor is collected exactly when no bucket's wall is nearer than `detect_range` |
| Repulsion.WallRepulsorsSound | src/repulsion.rs:72-85 | every collected repulsor comes from a bucket whose wall is nearer than `detect_range`, at that bucket's angle with strength `1 - dist / detect_range` |
| Repulsion.WallRepulsorsComplete | src/repulsion.rs:72-85 | every bucket whose wall is nearer than `detect_range` contributes its repulsor |
| Repulsion.TotalStrengthAppend | src/repulsion.rs:83 | pushing a repulsor adds its strength to the total |
| Repulsion.TotalStrengthNonNegative | src/repulsion.rs:70-85 | non-negative strengths add up to a non-negative total |
| Repulsion.WallScaleCaps | src/repulsion.rs:87-92 | the wall scale lies in `(0, 1]` (it never amplifies) and scales the total to `min(total, 1.5)` |
| Repulsion.ScaledTotal | src/repulsion.rs:94-96 | the strengths applied, each times `scale`, add up to `scale` times the total |
| Repulsion.WallAppliedTotal | src/repulsion.rs:87-96 | the strengths actually applied by wall repulsion add up to `min(total, MAX_WALL_WEIGHT)` |
| Repulsion.ApplyAllStep | src/repulsion.rs:94-96 | each round of the applying loop is one more `add_repulsor` at `strength * scale` |
| Repulsion.RepulsionMap.AddAll | src/repulsion.rs:94-96 | the applying loop adds every collected repulsor, in order, at `strength * scale` |
| Repulsion.ApplyAllBoundsAt | src/repulsion.rs:94-96 | at each bucket, applying repulsors of non-negative strength lowers the weight by at most `scale` times their total and never raises it |
| Repulsion.ApplyAllBounds | src/repulsion.rs:94-96 | the same bound at every bucket at once |
| Repulsion.RepulsionMap.AddWallRepulsion | src/repulsion.rs:60-97 | the weights become `WallRepelled` of the old weights: the repulsors of the near walls, scaled by the wall scale, applied in bucket order |
| Repulsion.WallRepulsionBounded | src/repulsion.rs:60-97 | wall repulsion never raises a weight and never lowers one by more than `MAX_WALL_WEIGHT`, however many walls are near |
| Repulsion.NoNearWallNoChange | src/repulsion.rs:72-96 | with no wall nearer than `detect_range` in any bucket direction, the weights are unchanged |
| Repulsion.OppositeIsHalfTurn | src/repulsion.rs:106-108 | the penalised heading lies in `[0, TAU)` and is exactly `PI` away from the current heading as `angle_diff` measures it |
| Repulsion.RepulsionMap.AddVelocityPenalty | src/repulsion.rs:101-111 | no change for a velocity whose squared length is below `0.001`; otherwise exactly `add_repulsor` at the opposite heading |
| Repulsion.FirstArgmax | src/repulsion.rs:114-126 | the chosen bucket holds a weight no smaller than any other, and every earlier bucket's weight is strictly smaller |
| Repulsion.FirstArgmaxUnique | src/repulsion.rs:114-126 | those two properties determine the bucket: the first maximum wins ties |
| Repulsion.FirstArgmaxAllEqual | src/repulsion.rs:114-126 | when all weights are equal, bucket 0 is chosen |
| Repulsion.RepulsionMap.BestAngle | src/repulsion.rs:114-126 | the scan with a strict `>` returns the angle of the first bucket holding the highest weight |
| Ships.DefaultShipConfig | src/ship.rs:20-31 | the default configuration is flyable: no negative speed, thrust below braking, braking within the top speed, and positive health |
| Ships.BrakeSquare | src/ship.rs:82 | `2 * dist * max_decel` is non-negative, and zero exactly when the distance or the braking is zero |
| Ships.SafeSpeedBound | src/ship.rs:82-83 | the safe speed lies in `[0, max_speed]`, and its square is within `2 * dist * max_decel`, so braking at `max_decel` stops the ship in time |
| Ships.StopBranch | src/ship.rs:73-77 | close (below 0.1) and slow (below 0.1): the velocity becomes zero and the position stays put |
| Ships.MovesByNewVelocity | src/ship.rs:79-99 | outside the stop case the position moves by exactly the new velocity |
| Ships.BrakeFactor | src/ship.rs:85-89 | the braking factor lies in `[0, 1]` and leaves the speed at `max(speed - max_decel, 0)` |
| Ships.BrakeVector | src/ship.rs:87-88 | the brake vector, minus the unit velocity times `max_decel` and clamped to the speed, is the velocity scaled by `-min(max_decel, speed) / speed` |
| Ships.BrakeVectorShort | src/ship.rs:87-88 | a brake no stronger than the speed is left unclamped |
| Ships.BrakeVectorLong | src/ship.rs:87-88 | a brake stronger than the speed is clamped to exactly minus the velocity |
| Ships.BrakeKeepsDirection | src/ship.rs:85-89 | braking scales the velocity by a factor in `[0, 1]`, so the direction is kept, and the new speed is `max(speed - max_decel, 0)`, so the ship never reverses |
| Ships.AccelBound | src/ship.rs:92-93 | adding `max_accel` along a unit vector raises the speed by at most `max_accel` |
| Ships.ClampNotNeeded | src/ship.rs:95 | `clamp_length_max(max_speed)` leaves alone a velocity no faster than `max_speed` |
| Ships.AccelBranch | src/ship.rs:90-95 | accelerating adds `max_accel` along the unit vector toward the target; the new speed stays below the safe speed, hence within `max_speed`, so the clamp never shortens it |
| Ships.CoastBranch | src/ship.rs:79-97 | at most `EPSILON` from the target, or with neither the brake nor the accelerate condition, the velocity is kept |
| Ships.SpeedLimitPreserved | src/ship.rs:67-100 | a ship within `max_speed` is still within `max_speed` after a tick |
| Ships.Ship.Spawn | src/ship.rs:43-51 | a spawned ship is at rest at `pos`, aims at `pos`, and has the configured health |
| Ships.Ship.SetTarget | src/ship.rs:53-55 | only the target changes |
| Ships.Ship.Movement | src/ship.rs:67-100 | the new position and velocity are `MovementStep` of the old ones; the target and the health are untouched |
| Swarms.DefaultSwarmConfig | src/swarm.rs:12-19 | the default swarm holds ships and can see |
| Swarms.Survivors | src/swarm.rs:60 | the retained list is no longer than the original; it holds only living ships from the original and every living one |
| Swarms.SurvivorsAppend | src/swarm.rs:60 | filtering keeps the relative order: filtering a concatenation concatenates the filtered parts |
| Swarms.SurvivorsSingle | src/swarm.rs:60 | a single ship is kept exactly when its health is positive |
| Swarms.SurvivorsIdempotent | src/swarm.rs:60 | filtering twice is filtering once |
| Swarms.SurvivorsAllAlive | src/swarm.rs:60 | when every ship is alive nothing is removed |
| Swarms.SurvivorsDistinct | src/swarm.rs:60 | filtering a list without repeats gives a list without repeats |
| Swarms.Swarm.Spawn | src/swarm.rs:37-45 | a new swarm has no ships, sits at and aims at `pos`, and has heading 0 |
| Swarms.Swarm.Movement | src/swarm.rs:53-57 | every ship of the swarm makes exactly one movement tick; the list, its count and its order are unchanged |
| Swarms.Swarm.Finalize | src/swarm.rs:59-61 | the ship list becomes exactly the living ships in their original order; position, target and heading are untouched |
| Simulations.DefaultSimulationConfig | src/simulation.rs:15-24 | the default uses the default ship and swarm settings and starts with some swarms, no more than the maximum |
| Simulations.Simulation.New | src/simulation.rs:32-37 | a new simulation has no swarms and the given configuration |
| Simulations.Simulation.MoveAll | src/simulation.rs:45-47 | the movement pass gives every ship of every swarm exactly one movement tick and leaves the lists alone; a ship of `fleet` that no swarm owns is untouched |
| Simulations.Simulation.FinalizeAll | src/simulation.rs:49-51 | the finalize pass filters every swarm's ships to the living ones, changes nothing else in the swarms, and keeps ships owned by one swarm each |
| Simulations.Simulation.Step | src/simulation.rs:40-52 | after a step the list of swarms is the same; every ship that was in a swarm made one movement tick; each swarm holds exactly its survivors, so every ship left has positive health; swarm positions, targets and headings are untouched; a ship of `fleet` that no swarm owned is untouched |

## Left out

- `f32` arithmetic is not modelled: rounding, overflow to infinity and NaN do not exist for `real`. `f32::MAX` is kept as the exact constant the raycast uses as its sentinel.
- `exp`, `sqrt`, `cos`, `sin` and `atan2` are parameters (`MathLib`), and only the laws in `MathLib.Lawful` are assumed. The model says nothing about `Vec2::from_angle` or `Vec2::to_angle` beyond using their results, so no property depends on the exact direction of a bucket or a heading.
- Repulsion.Gaussian: requires `sigma != 0`. With `sigma == 0` the source divides by zero and the weights become NaN or lose all falloff; that degenerate case is not modelled. Every repulsion-map method that takes `sigma` (Repulsion.RepulsionMap.AddRepulsor, Repulsion.RepulsionMap.AddWallRepulsion, Repulsion.RepulsionMap.AddAll and Repulsion.RepulsionMap.AddVelocityPenalty) inherits the same requirement.
- Ships.Ship.Movement, Ships.Ship.Spawn: the ship's configuration is a `ValidShipConfig`, so `Ship::spawn` (src/ship.rs:43-51), which takes any `&ShipConfig`, is narrowed the same way. A `ValidShipConfig` is one whose speeds, thrust and braking are non-negative. A negative `max_decel` would make the source's square root NaN; that case is not modelled.
- Vectors.Vec2.Normalize: requires a positive length. `glam` returns non-finite values for the zero vector. The source normalises only when `speed > safe >= 0` or `dist > EPSILON`, so it never does so.
- `Ship::fight` is `todo!()`, which panics. It is modelled as a method that does nothing, so `Swarm::fight` and the first pass of `step` (`Swarms.Swarm.Fight`, `Simulations.Simulation.FightAll`) change no state and carry no contract. No combat rules are invented.
- `Swarm::spawn` never adds ships. The model nevertheless lets a swarm hold any list of distinct ships, so that `movement` and `finalize` are specified for non-empty swarms too.
- Rust's ownership, in which each ship is owned by exactly one swarm's `Vec`, is modelled by two ghost predicates. `Swarms.Distinct` says no ship appears twice in a swarm. `Simulations.Disjoint` says no ship is in two swarms. A ghost set `fleet` holds every ship a simulation may own and frames the movement pass. Ships of `fleet` that no swarm owns, such as the ones a finalize pass dropped, are left untouched by `Step`.
- `Vec::retain` works in place. The model assigns the filtered sequence `Survivors(ships)` instead, so it does not capture the element moves inside the buffer.
- The three loops of `step` are three methods (`FightAll`, `MoveAll`, `FinalizeAll`) that `Step` calls in the source's order.
- `impl Default for RepulsionMap` (src/repulsion.rs:129-133) only calls `new`; it is covered by the constructor and has no separate member.
- `Bounds` is imported by src/repulsion.rs:4 from `crate::simulation`, but no file of this source tree defines it (src/simulation.rs has no `Bounds`). Its shape, a pair of corners `min` and `max`, is an assumption of this model, read off the fields the raycast uses. `Repulsion.Bounds.Contains` says a point lies strictly inside the rectangle.
- Ships.DefaultShipConfig, Swarms.DefaultSwarmConfig, Simulations.DefaultSimulationConfig: the contracts state what the default values guarantee (non-negative speeds, thrust below braking, positive health and ship count, `0 < init_swarms <= max_swarms`) rather than repeating the literal values, which are the functions' bodies.
- Configuration fields that the core stores but never reads (`aim_range`, `fire_delay`, `max_ships`, `vision_range`, `max_swarms`, `init_swarms`) are carried along without properties.
- The multi-tick convergence and no-overshoot scenarios in tests/ship_test.rs depend on exact `sqrt` values and many ticks; only the one-tick branch contracts are proved.
- src/camera.rs, src/render.rs and the programs under src/bin are drawing, windowing, random numbers and frame timing, and are not part of this model.
