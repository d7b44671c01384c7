# Gatherers, modelled in Dafny

Gatherers is an ant simulation written for the Bevy game engine, plus a
browser port of it in JavaScript. Ants walk around a wrapping window. An ant
that touches a food item with empty hands picks it up. An ant that is
carrying food drops it on its next touch and then cools down for a while.

This project models the core of the program and proves properties about it:

- **`Spatial`** (`spatial_index.dfy`): the uniform-grid spatial index.
  - It is a class whose `cells` field maps integer cell keys
    `(floor(x/20), floor(y/20))` to sets of entities.
  - `Update` is insert-only, `Remove` sweeps every cell, and `GetNearby`
    gathers the 3x3 block of cells around a point.
  - Each method is proved against a specification function: `Inserted`,
    `Removed`, and the multiset `NearbyBag`.
- **`Collision`** (`collision.dfy`): the hit pipeline.
  - `CollisionSystem` emits at most one `HitEvent` per hitter: the first
    entity that the hitter's neighbourhood query returns, with no distance
    test.
  - Two systems keep the index in step with the `Collidable` marker.
  - The single-cell invariant ("no entity is in two cells") is proved under
    that synchronisation protocol.
- **`Ecs`** (`ecs.dfy`): the component storage the systems run against.
  - It is a `World` class with one field per component type.
  - It includes the two hierarchy commands `add_child` and
    `remove_parent_in_place`.
- **`Gatherers`** (`gatherers.dfy`): the game's own systems from `src/main.rs`.
  - The hit reaction: pick up, or drop what is carried.
  - The cooldown system, movement, and the start-up spawning of ants and food.
- **`Boundary`** (`boundary.dfy`): the per-axis screen-wrap rule.
- **`Config`** (`config.dfy`): the constants, and the settings that scale
  with the speed multiplier.
- **`Ui`** (`ui.dfy`): the keyboard rule for the speed multiplier and the
  speed-bar percentage.
- **`GatherersJs`** (`gatherers_js.dfy`): the JavaScript port.
  - `Agent`, `Resource` and `Simulation` are classes over mutable objects.
  - A validity invariant ties carriers to picked-up resources, and every
    frame preserves it.
  - Each frame is proved equal to value-level specification functions:
    `CooledAll`, `MovedAll`, and `Round`, the interaction loop, agent by
    agent.
- **`Bevy`** (`bevy.dfy`): stand-ins for the engine types the code uses:
  entity ids, vectors, and a one-shot timer.

Several systems handle events or component changes that the engine supplies.
The model takes these as explicit inputs:

- the hit events;
- the entities that just gained `Collidable`;
- the removal events;
- the new random velocities;
- the drawn spawn positions;
- the frame's delta time.

Two behaviours of the code shape what is proved:

- **The spatial index's update.** `update` (`src/spatial_index.rs:37`) only
  inserts. It never takes the entity out of its old cell.
  `Spatial.UpdateDoesNotEvict` proves that the single-cell invariant can then
  break. `Collision.SyncKeepsSingleCell` proves that the synchronisation
  protocol keeps the invariant anyway.
- **The distance test.** The two-circle distance test survives only as
  commented-out code (`src/collision.rs:63-76`). Every hitter with a
  non-empty neighbourhood therefore emits an event.

## Model

| member | source | states |
|---|---|---|
| Spatial.CellOf | src/spatial_index.rs:17-20 | the key is the cell whose half-open 20x20 square holds the point |
| Spatial.CellOfUnique | src/spatial_index.rs:17-20 | a point's key is the only cell whose square holds it |
| Spatial.SameCellIffSameSquare | src/spatial_index.rs:33-36 | two points share a key iff some grid square holds both |
| Spatial.InNeighbourhood | src/spatial_index.rs:22-24 | a key is visited by the query iff each coordinate is within one of the centre cell's |
| Spatial.NeighbourhoodDistinct | src/spatial_index.rs:22-24 | the nine visited keys are pairwise distinct |
| Spatial.GatheredMembership | src/spatial_index.rs:22-28 | an entity is gathered from a key list iff some listed key holds it |
| Spatial.GatheredNoDuplicates | src/spatial_index.rs:22-28 | under the single-cell invariant, distinct keys gather each entity at most once |
| Spatial.NearbyMembership | src/spatial_index.rs:16-30 | the query finds an entity iff one of the nine cells around the point's cell records it |
| Spatial.NearbyHasNoDuplicates | src/spatial_index.rs:21-29 | if every entity is in at most one cell, the query returns no entity twice |
| Spatial.EmptyGridNearbyEmpty | src/spatial_index.rs:21-29 | a grid that records no entity answers every query with nothing |
| Spatial.Inserted | src/spatial_index.rs:37 | the entity joins cell c, which is created if missing; every other cell is unchanged |
| Spatial.Removed | src/spatial_index.rs:40-44 | the entity is in no cell afterwards; every key stays, and no other entity's membership changes |
| Spatial.UpdateIsFound | src/spatial_index.rs:32-38 | after update(e, p), a query at p finds e |
| Spatial.UpdateIdempotent | src/spatial_index.rs:37 | a second identical update leaves the map as the first one left it |
| Spatial.UpdateDoesNotEvict | src/spatial_index.rs:37 | updating to another cell leaves the entity in both cells, which breaks the single-cell invariant |
| Spatial.UpdateFreshKeepsSingleCell | src/spatial_index.rs:32-38 | updating an entity that is in no cell keeps the single-cell invariant and adds exactly that entity |
| Spatial.RemovedIsNotFound | src/spatial_index.rs:40-44 | after remove(e), no query from any point finds e |
| Spatial.RemoveAbsentIsNoOp | src/spatial_index.rs:40-44 | removing an entity that no cell records leaves the map unchanged |
| Spatial.RemoveKeepsSingleCell | src/spatial_index.rs:40-44 | remove keeps the single-cell invariant and takes exactly e out of the indexed entities |
| Spatial.CloseCellsAreNeighbours | src/spatial_index.rs:11-12 | points less than one cell apart on both axes have neighbouring cells |
| Spatial.CoverageWithinCell | src/spatial_index.rs:11-12 | an entity recorded at q is found by a query at any p within one cell size of q on both axes |
| Spatial.SpatialIndex.constructor | src/spatial_index.rs:6-9 | the default index has no cells |
| Spatial.SpatialIndex.GetNearby | src/spatial_index.rs:16-30 | the returned list holds, with multiplicity, exactly the members of the nine cells around pos |
| Spatial.SpatialIndex.Update | src/spatial_index.rs:32-38 | the new map is the old map with the entity inserted into the cell of pos |
| Spatial.SpatialIndex.Remove | src/spatial_index.rs:40-44 | the new map is the old map with the entity removed from every cell |
| Spatial.ExtendFromCell | src/spatial_index.rs:24-26 | the list grows by the cell's members if the key is present, and by nothing otherwise |
| Spatial.AppendAll | src/spatial_index.rs:25 | the list grows by exactly the members of the set |
| Collision.HitterSet | src/collision.rs:54 | the `hitters` query yields only Collidable entities of the hitter role that have a Transform and a Bounding |
| Collision.HitEventAccessors | src/collision.rs:38-45 | `hittable` returns the first entity of the pair and `hitter` the second |
| Collision.CollisionSystem | src/collision.rs:50-79 | no two events share a hitter; the hitters named are exactly the Collidable hitters with a non-empty neighbourhood; each event's hittable is one that hitter's query returned |
| Collision.FirstNearby | src/collision.rs:60-74 | some entity is returned iff the query result is non-empty, and it is a member of that result |
| Collision.HitterOfAppend | src/collision.rs:68-71 | writing an event adds its hitter to the hitters named so far |
| Collision.OnePerHitterCount | src/collision.rs:72-74 | events with pairwise distinct hitters are as many as the hitters they name |
| Collision.EventCountIsEmitterCount | src/collision.rs:56-78 | the number of events equals the number of hitters with a non-empty neighbourhood, and is at most the number of hitters |
| Collision.InsertedAll | src/collision.rs:107-109 | a batch of updates adds each entity to its own cell and creates the missing keys |
| Collision.RemovedAll | src/collision.rs:112-114 | a batch of removals keeps every key and takes exactly the removed entities out of every cell |
| Collision.InsertedAllStep | src/collision.rs:108 | one more update extends the batch insertion by that entity |
| Collision.RemovedAllStep | src/collision.rs:113 | one more remove extends the batch removal by that entity |
| Collision.HittablePositions | src/collision.rs:83-87 | only hittables of the eligible set that have a Transform get a position, and it is their translation without z |
| Collision.CellsOf | src/collision.rs:108 | every position is assigned a cell, and nothing else is |
| Collision.UpdateEach | src/collision.rs:107-109 | the index after the loop is the batch insertion of every entity at its cell |
| Collision.RemoveEach | src/collision.rs:112-114 | the index after the loop is the batch removal of every entity read |
| Collision.InitializeHittables | src/collision.rs:81-88 | every hittable that has a Transform is inserted into the cell of its position |
| Collision.UpdateHittablePositions | src/collision.rs:101-115 | newly Collidable hittables are first inserted at their position, and then every entity that lost Collidable is removed |
| Collision.AddedAndRemovedEndsAbsent | src/collision.rs:106-114 | an entity that is both just added and just removed ends up in no cell |
| Collision.SyncKeepsSingleCell | src/collision.rs:101-115 | if the inserted entities were in no cell, the single-cell invariant holds afterwards, and the index holds (old + inserted) - removed |
| Collision.SyncMirrorsEligibility | src/collision.rs:101-115 | if the index mirrors the eligible set and the change lists are its exact differences, the index mirrors the new eligible set |
| Ecs.Without | src/main.rs:163 | the list with every occurrence of the child removed, and no longer than before |
| Ecs.Detached | src/main.rs:163 | detaching removes no key it did not have, and only the parent's list of c can change |
| Ecs.Attached | src/main.rs:172 | the parent gains a list if it had none, c becomes its last child, and every other list is kept |
| Ecs.DetachKeepsConsistent | src/main.rs:163 | detaching a child keeps Children and ChildOf mirrored, and the child is in no Children list |
| Ecs.AddChildKeepsConsistent | src/main.rs:172 | re-parenting keeps Children and ChildOf mirrored |
| Ecs.World.Spawn | src/main.rs:87 | hands out a fresh id above every id in use |
| Ecs.World.AddChild | src/main.rs:172 | the child leaves its old parent's list, is appended to the new parent's list, and its link points to the new parent |
| Ecs.World.RemoveParentInPlace | src/main.rs:163 | the child leaves the hierarchy, and its translation becomes parent translation plus local translation |
| Gatherers.Decide | src/main.rs:155-197 | an ant with a Cooldown ignores the hit; a carrying ant drops its first child; an ant without Children picks the hit food up; an empty Children list does nothing (each case is an if and only if) |
| Gatherers.React | src/main.rs:159-196 | one hit changes no key set of velocities or transforms |
| Gatherers.ReactAll | src/main.rs:155-198 | the hit loop changes no key set of velocities or transforms |
| Gatherers.ReactEffect | src/main.rs:159-196 | a pick-up of a Food with a Transform sets the ant's velocity to the turn and the food's translation to (0, 0, CARRIED_FOOD_Z_LAYER); a drop, an ignored hit, or a pick-up whose food query fails writes neither; the reaction is queued |
| Gatherers.LiftedFoodIsCarried | src/main.rs:172-185 | every food some hit picks up ends the loop at the carried offset |
| Gatherers.UnliftedKeepsTranslation | src/main.rs:155-198 | a translation no pick-up writes keeps its value through the loop; a drop moves nothing |
| Gatherers.UnturnedAntKeepsVelocity | src/main.rs:159-196 | an ant that picks nothing up keeps its velocity; a drop does not turn the ant |
| Gatherers.LastLiftSetsVelocity | src/main.rs:187-196 | an ant's velocity after the loop is the turn drawn for its last pick-up |
| Gatherers.CoolingAntIgnoresHits | src/main.rs:150-159 | an ant with a Cooldown keeps its velocity and gets no command, however many hits it receives |
| Gatherers.ReactAllMovesOnlyPickedFood | src/main.rs:160-184 | every translation is kept or is a Food's set to (0, 0, CARRIED_FOOD_Z_LAYER); every queued command names an ant |
| Gatherers.ReactAllQueueGrows | src/main.rs:155-198 | the loop only appends commands, at most one per hit |
| Gatherers.InPlace | src/main.rs:163 | only the detached child's translation can change, and no key is added or lost |
| Gatherers.FreshCooldown | src/main.rs:165-167 | a new cooldown timer has not finished |
| Gatherers.Applied | src/main.rs:160-185 | a drop leaves the food without a parent and Collidable and gives the ant an unfinished cooldown; a pick-up makes the food the ant's child and not Collidable and changes no translation or cooldown |
| Gatherers.ApplyAll | src/main.rs:160-185 | applying the queue in order refreshes the cooldown of exactly the ants that drop, and keeps every other cooldown |
| Gatherers.AppliedKeepsCarrying | src/main.rs:160-173 | every command batch keeps the hierarchy consistent, and a carried food is never Collidable |
| Gatherers.ApplyAllKeepsCarrying | src/main.rs:160-173 | applying the whole queue keeps that carrying invariant |
| Gatherers.OnlyDropCoolsDown | src/main.rs:165-173 | a pick-up leaves every cooldown as it was, and a drop gives the ant a fresh one |
| Gatherers.DropNamesOwnChild | src/main.rs:160-163 | with a consistent hierarchy, the food a drop names is a child of the dropping ant |
| Gatherers.PickUpThenDropRestores | src/main.rs:160-173 | pick-up then drop restores the hierarchy and Collidable, cools the ant down, and leaves the food at the ant's translation plus its local one |
| Gatherers.ApplyReaction | src/main.rs:163-173 | the world changes as one command batch says |
| Gatherers.ApplyQueued | src/main.rs:163-173 | the world changes as the queued batches say, in order |
| Gatherers.AntHitsSystem | src/main.rs:147-199 | the returned queue, the velocities and the store are what the loop over the hits followed by the queue computes |
| Gatherers.Cooled | src/main.rs:206-211 | a cooldown is kept exactly when its ticked timer has not finished, and it is kept ticked |
| Gatherers.CooldownSystem | src/main.rs:201-212 | the cooldowns afterwards are the ticked timers that have not finished |
| Gatherers.FreshCooldownLifetime | src/main.rs:165-167 | a fresh drop cooldown survives a tick iff the tick is shorter than PICKUP_COOLDOWN |
| Gatherers.CooledTwiceWithinSum | src/main.rs:206-211 | two ticks remove a cooldown iff one tick of their sum would |
| Gatherers.Moved | src/main.rs:141-143 | x and y move by velocity * dt, and z is kept |
| Gatherers.MovedAdds | src/main.rs:141-143 | moving for dt1 then dt2 is moving for dt1 + dt2 |
| Gatherers.GathererMovement | src/main.rs:137-145 | every entity with a Velocity and a Transform moves by velocity * dt; no other translation changes |
| Gatherers.SpawnCount | src/main.rs:83 | the number of steps of ANT_SPAWN_STEP from -halfX that stay below halfX |
| Gatherers.SpawnCountIsLeast | src/main.rs:83 | step n is still below halfX iff n < SpawnCount(halfX) |
| Gatherers.SpawnAnt | src/main.rs:87-106 | one new ant with Ant, Transform at (x, ANT_SPAWN_Y, ANT_Z_LAYER), Velocity, Bounding, Collidable and BoundaryWrap; nothing else changes |
| Gatherers.SpawnFoodItem | src/main.rs:118-130 | one new food item with Food, Transform on FOOD_Z_LAYER, Collidable and Bounding, and no BoundaryWrap |
| Gatherers.SpawnAnts | src/main.rs:79-109 | returns SpawnCount(halfX) and spawns one ant per step, with the i-th ant at -halfX + 50 i; Ant, Collidable and BoundaryWrap gain exactly the new ids, Food is unchanged, every earlier Transform, Velocity and Bounding keeps its value, and the hierarchy and cooldowns are untouched |
| Gatherers.SpawnFood | src/main.rs:111-133 | returns FOOD_COUNT and spawns one food item at each drawn spot; Food and Collidable gain exactly the new ids, Ant, BoundaryWrap and all velocities are unchanged, every earlier Transform and Bounding keeps its value, and the hierarchy and cooldowns are untouched |
| Boundary.FromRadius | src/boundary.rs:18-20 | the bounding stores exactly the radius it is given |
| Boundary.WrapAxis | src/boundary.rs:42-46 | entirely past the low edge goes to half + r, entirely past the high edge to -half - r, and anything else is unchanged |
| Boundary.WrapAxisInBand | src/boundary.rs:42-53 | a wrapped coordinate lies in [-half - r, half + r] |
| Boundary.WrapAxisMovesIffOffScreen | src/boundary.rs:42-46 | a coordinate moves iff the entity is entirely off one edge |
| Boundary.WrapAxisIdempotent | src/boundary.rs:42-53 | wrapping a wrapped coordinate changes nothing |
| Boundary.Wrap | src/boundary.rs:41-53 | x and y are each wrapped on their own half extent, and z is kept |
| Boundary.WrapIdempotent | src/boundary.rs:42-53 | with r >= 0 and a non-negative window, wrapping twice is wrapping once |
| Boundary.WrappedEntitiesInBand | src/boundary.rs:42-53 | after wrapping, both coordinates lie within the window extended by the radius |
| Boundary.Wrapping | src/boundary.rs:28 | the wrap query yields only BoundaryWrap entities that have a Transform and a Bounding |
| Boundary.BoundaryWrapSystem | src/boundary.rs:26-55 | with no window nothing changes; otherwise every BoundaryWrap entity with a Bounding is wrapped with its own radius, and no other transform changes |
| Config.SimulationSettings.AntSpeed | src/config.rs:74-76 | positive for a positive multiplier |
| Config.AntSpeedIncreasing | src/config.rs:74-76 | the ant speed grows strictly with the multiplier and stays within [10, 1000] over the slider range |
| Config.SimulationSettings.CollisionRadius | src/config.rs:80-82 | 10 + 5 (m - 1), i.e. 10 at m = 1 |
| Config.SimulationSettings.PickupCooldown | src/config.rs:86-88 | 1 / max(m, 0.1): never a division by zero, and always in (0, 10] |
| Config.DefaultSettings | src/config.rs:64-70 | the default multiplier gives speed 100, radius 10 and cooldown 1 |
| Config.CollisionRadiusIncreasing | src/config.rs:80-82 | the radius grows strictly with the multiplier |
| Config.CollisionRadiusBounds | src/config.rs:53-54 | for a multiplier in [0.1, 10], the radius is in [5.5, 55] |
| Config.PickupCooldownNonIncreasing | src/config.rs:86-88 | the cooldown never grows when the multiplier grows |
| Config.CellExceedsRadiusIffSlow | src/config.rs:29-31 | the cell size exceeds the base radius, and exceeds the scaled radius iff the multiplier is below 3 |
| Ui.SpeedPercent | src/ui.rs:140-142 | the bar is 0 at the minimum and 100 at the maximum, and within [0, 100] in range |
| Ui.HandleKeyboardInput | src/ui.rs:102-146 | minus lowers by 0.5 clamped at 0.1; equal, applied after minus, raises by 0.5 clamped at 10; R resets to 1 over both; with no key nothing changes and no bar is written; the range is kept |
| Bevy.Timer.Tick | src/main.rs:207-208 | ticking keeps the duration, and finishes the timer iff it had finished or the elapsed time reaches the duration |
| Bevy.TimerFromSeconds | src/main.rs:166 | a timer of the given duration with nothing elapsed |
| GatherersJs.WithinSymmetric | sudolang/build/js/gatherers.js:28-32 | being within a distance does not depend on which point is measured from |
| GatherersJs.WrapCoordinate | sudolang/build/js/gatherers.js:90-93 | the result is in [-half, half], and an in-range coordinate is unchanged |
| GatherersJs.WrapCoordinateIdempotent | sudolang/build/js/gatherers.js:90-93 | wrapping a wrapped coordinate changes nothing |
| GatherersJs.WrapPosition | sudolang/build/js/gatherers.js:86-93 | the position ends inside the world, and an inside position is unchanged |
| GatherersJs.Resource.constructor | sudolang/build/js/gatherers.js:125-128 | a resource at the given position, not picked up |
| GatherersJs.Resource.GetVisualPosition | sudolang/build/js/gatherers.js:130-132 | the carrier's position while picked up, and its own position otherwise |
| GatherersJs.Agent.constructor | sudolang/build/js/gatherers.js:74-79 | an agent with the given position and velocity, carrying nothing, with no cooldown |
| GatherersJs.Agent.Move | sudolang/build/js/gatherers.js:81-94 | position plus velocity * dt, wrapped; it ends inside the world |
| GatherersJs.Agent.Interact | sudolang/build/js/gatherers.js:96-113 | a no-op while cooling down; otherwise it picks up (carrying, pickedUp) or drops (the carried one goes to the agent's position, not picked up), turns, and sets cooldown 0.1 |
| GatherersJs.AvailableIsFree | sudolang/build/js/gatherers.js:191 | the free list holds only free resources of the array, and every free one |
| GatherersJs.FirstWithin | sudolang/build/js/gatherers.js:200-204 | the index of the first resource within the distance, with none before it |
| GatherersJs.FindNearestResource | sudolang/build/js/gatherers.js:200-204 | null iff no resource is within the distance; otherwise the first one in array order that is |
| GatherersJs.FirstFreeWithin | sudolang/build/js/gatherers.js:190-192 | the index of the first resource that is free and within the distance, with none before it |
| GatherersJs.FindAvailableIsFirstFree | sudolang/build/js/gatherers.js:190-204 | searching the filtered free list finds the first free, close-enough resource of the whole array |
| GatherersJs.FirstWithinAvailable | sudolang/build/js/gatherers.js:190-204 | the search in the free list succeeds iff a free resource is in reach, and finds that resource |
| GatherersJs.CooledDown | sudolang/build/js/gatherers.js:180-184 | only a positive cooldown changes, and it does not grow |
| GatherersJs.Interacted | sudolang/build/js/gatherers.js:96-113 | meeting a resource changes no other agent and never the agent's position |
| GatherersJs.TakeTurn | sudolang/build/js/gatherers.js:190-197 | one agent's turn changes no other agent and keeps both array lengths |
| GatherersJs.RoundFrom | sudolang/build/js/gatherers.js:190-197 | the turns of the remaining agents keep both array lengths |
| GatherersJs.InteractedKeepsLinked | sudolang/build/js/gatherers.js:96-113 | meeting a free resource keeps each carried resource picked up, with one carrier, and each picked-up resource carried |
| GatherersJs.TakeTurnKeepsLinked | sudolang/build/js/gatherers.js:190-197 | one agent's turn keeps that carrying relation |
| GatherersJs.RoundKeepsLinked | sudolang/build/js/gatherers.js:190-197 | the whole interaction loop keeps that carrying relation, whatever the turns |
| GatherersJs.CoolingAgentSitsOut | sudolang/build/js/gatherers.js:97 | an agent whose cooldown is still positive leaves the loop exactly as it entered it |
| GatherersJs.Simulation.ValidIsLinked | sudolang/build/js/gatherers.js:96-113 | a valid simulation's carrying relation, read as values, is that carrying relation |
| GatherersJs.Simulation.constructor | sudolang/build/js/gatherers.js:137-142 | an empty, running, valid simulation at time 0 |
| GatherersJs.Simulation.Pause | sudolang/build/js/gatherers.js:258-260 | paused is set |
| GatherersJs.Simulation.Resume | sudolang/build/js/gatherers.js:262-264 | paused is cleared |
| GatherersJs.Simulation.TogglePause | sudolang/build/js/gatherers.js:266-269 | paused flips, and the new value is returned |
| GatherersJs.Simulation.Initialize | sudolang/build/js/gatherers.js:144-172 | 16 fresh agents evenly spaced from the left edge at y = 100, moving at speed 100, carrying nothing; 80 fresh free resources at the drawn spots; time 0; valid |
| GatherersJs.Simulation.TickCooldowns | sudolang/build/js/gatherers.js:180-184 | the state afterwards is CooledAll of the state before: each positive cooldown counts down and nothing else changes; valid |
| GatherersJs.Simulation.MoveAll | sudolang/build/js/gatherers.js:187 | the state afterwards is MovedAll of the state before: every agent moves and wraps and nothing else changes; valid |
| GatherersJs.Simulation.InteractOne | sudolang/build/js/gatherers.js:190-197 | the state afterwards is TakeTurn of the state before: the agent meets the first free resource in reach, if any, with the free list taken after the earlier agents; valid |
| GatherersJs.Simulation.Meet | sudolang/build/js/gatherers.js:194-196 | the state afterwards is Interacted of the state before, for the met resource's index; valid |
| GatherersJs.Simulation.InteractWith | sudolang/build/js/gatherers.js:96-113 | while cooling down nothing changes; otherwise the agent turns and cools down, and picks the resource up or puts what it carries down, free, at its own position; no other agent or resource changes; valid |
| GatherersJs.Simulation.InteractAll | sudolang/build/js/gatherers.js:190-197 | the state afterwards is Round of the state before: every agent takes its turn in array order; valid |
| GatherersJs.Simulation.Update | sudolang/build/js/gatherers.js:174-198 | nothing changes while paused; otherwise time advances by dt and the state is Round after MovedAll after CooledAll of the state before; valid |

## Left out

- Engine wiring.
  - App construction, plugins, schedules and system ordering are not
    modelled.
  - Deferred commands are modelled explicitly, as a queue applied after the
    hit loop.
  - Event buffering and change detection (`Added<Collidable>`,
    `RemovedComponents`) become explicit inputs.
- Iteration order.
  - Hash-map and query order is unspecified.
  - Systems iterate over a set in an arbitrary order.
  - The "first" entity of a neighbourhood query is any of its members.
- Randomness and trigonometry.
  - The new velocity after a turn (angle, random offset, cos/sin) and the
    random spawn headings and positions are inputs.
  - JavaScript's `turnAround` and `Vec2.fromAngle` are left out the same
    way.
- Floating point: coordinates are reals.
  - f32 rounding is not modelled.
  - The `as i32` cast of cell keys (saturation, non-finite values) is not
    modelled; cell keys are unbounded integers.
- GatherersJs.Within: stands in for JavaScript's `Math.sqrt` distance, as
  the squared comparison for a positive bound.
- Ecs.World.RemoveParentInPlace: computes the world position as the parent's
  translation plus the child's local translation.
  - It does not model GlobalTransform propagation and its one-frame lag.
  - It does not model rotation and scale (the simulation never sets them).
- Bevy.Timer.Tick: models only a one-shot timer, reduced to "elapsed,
  clamped to the duration".
- Config.ANT_SPEED, Config.PICKUP_COOLDOWN and Config.COLLISION_RADIUS are
  used by `src/main.rs` but not defined in `src/config.rs`, which defines
  only their `BASE_` versions. They are abstract positive constants.
- GatherersJs.Available: its own contract states only the length bound. What
  it keeps is stated by GatherersJs.AvailableIsFree and
  GatherersJs.FindAvailableIsFirstFree.
- GatherersJs.Interacted, GatherersJs.TakeTurn, GatherersJs.RoundFrom: their
  own contracts state only what they leave alone. They are the specification
  the heap methods are proved equal to, and what they keep is proved by the
  Linked lemmas and CoolingAgentSitsOut.
- Gatherers.React: its own contract states only that the key sets are kept.
  What one hit writes is stated by Gatherers.ReactEffect.
- Gatherers.ReactAll: its own contract states only that the key sets are
  kept. What the loop writes is stated by Gatherers.LiftedFoodIsCarried,
  Gatherers.UnliftedKeepsTranslation, Gatherers.UnturnedAntKeepsVelocity,
  Gatherers.LastLiftSetsVelocity and Gatherers.CoolingAntIgnoresHits.
- Gatherers.AntHitsSystem: its contract relates the result to the
  specification functions ReactAll and ApplyAll rather than listing each
  case. What the loop writes is proved about ReactAll by the lemmas named
  above; what the queue does is proved about Applied and ApplyAll.
- Collision.HitterSet, Collision.HittablePositions, Boundary.Wrapping: their
  contracts state that every entity yielded passes the query's filters. That
  every entity passing them is yielded is their set-builder body, not a
  separate contract.
- Gatherers.SpawnFood: requires positive half extents. A range of
  `gen_range` that is empty aborts the program, which the model does not
  represent.
- Rendering, UI layout, DOM, window setup and the game loops are not
  modelled.
  - This covers sprites, colours, the speed label text, `render`, `init`
    and `gameLoop`.
  - The speed bar is modelled only as its percentage value.
- Phantom role types of the collision plugin become sets of entities that
  carry the role.
- Commented-out code is not modelled: the collision distance test and
  `update_hitters_spatial_index`.
