# ecs — a Dafny model

dolphin278/ecs is a small entity-component-system runtime written in
TypeScript, with a frame-stepped 2-D physics pipeline and a Flappy-bird demo
built on top of it. An entity is a bare integer id. A world keeps an id
counter, the set of live ids and one `Map<Entity, V>` per component kind. A
system is a function of the world. It runs a query (an inner join of component
maps) and mutates the component objects the query hands back.

This project models that core and proves what it promises.

- **World store and query engine** (`world.dfy`, `store.dfy`,
  `components.dfy`). The class `World.World` has fields `lastAssignedId`,
  `active`, `currentTime` and `components`.
  - `components` maps each component name to a `Store`. A `Store` stands for a
    JavaScript `Map`: a value map paired with the key sequence in insertion
    order. The order matters because the query's rows follow it.
  - `createEntity`, `createEntityFromComponents`, `removeEntity` and a
    component write are methods specified by functions (`Put`, `WithEntries`,
    `Removed`).
  - `entitiesWithComponents` is a method with the source's labelled nested
    loop, proved equal to the function `Join`. The lemmas about `Join` give
    membership iff, distinct rows, slot contents and row order.
  - The bundled copy in src/lib.ts (lines 33-87) is the same code and shares
    this model.
- **Vector2** (`vector2.dfy`). This is src/lib/utils.ts, also
  `Utils.Vector2` in src/lib.ts. The in-place helpers are methods on a
  `Vector2` class with fields `x` and `y`. The pure ones are functions on the
  value type `Vec`.
- **Physics systems, modular snapshot** (src/lib/systems/*.ts). These are
  `movement.dfy`, `accelerated_movement.dfy`, `force_application.dfy`,
  `gravitation.dfy`, `spring.dfy`, `bounce.dfy` and
  `debug_spring_render.dfy`.
  - Each system is a method on the world. Its loop writes the values the
    source writes, in row order.
  - Each is proved equal to a function of the old components, and the
    lemmas state the physics. Generic loop machinery is in `updates.dfy`.
  - Pairwise force bookkeeping for Newton's third law is in `forces.dfy`.
- **Combined snapshot** (src/lib/systems.ts and `Systems` in src/lib.ts).
  These files hold the same systems as the modular ones, with one exception.
  Their `Movement` has no zero-velocity guard and no event map; it is
  modelled in `combined_systems.dfy`.
- **Old object-based snapshot** (systems.ts, `object_systems.dfy` and
  `object_forces.dfy`). An entity is an object whose optional fields are its
  components. The entity list is an `array<Body>` updated in place, and a
  joint names its endpoints by array index.
- **Old array-based world** (index.ts, `legacy_world.dfy`). Here `entities`
  is an array of ids, spliced on removal.
- **Flappy-bird rules** (src/demos/fbird/index.ts, `fbird.dfy`).
  - `gameOver`, `UserControl` (the up key and `currentTime + delta` are
    parameters), `PipeCollision`, `Bounce`, `RespawnPipes`,
    `RespawnBackgroundTiles` and `GameOver`.
  - "Over" is permanent: every system preserves `StaysOver` (`EndGameFacts`,
    `ControlledFacts`, `CollidedStaysOver`, `BounceStaysOver`,
    `RespawnedStaysOver`, `GameOverStaysOver`).

Numbers are `real`. `Math.sqrt` (and `** 0.5`) is a parameter
`sqrt: real -> real` required to be the non-negative square root
(`Vector2.IsSqrt`).

Three behaviours of the code a reader may not expect:
- `ForceApplication` accumulates `force * (1 / mass)` into the acceleration,
  with no zero-mass guard. Only the old `ApplyForceSystem` overwrites the
  acceleration and skips a zero mass.
- `Bounce` uses the fixed restitution `-0.2`, not a configurable one.
- `Spring` calls `removeEntity` while it iterates the spring map.
  `SpringSystem.RunKeepsLaterSprings` shows that this never disturbs a
  spring not yet visited.

## Model

| member | source | states |
|---|---|---|
| Store.Store.Set | src/lib/world.ts:17 | `Map.set`: the entry is written; a new key goes to the end of the insertion order, an existing key keeps its place; a well-formed map stays well-formed |
| Store.Store.Delete | src/lib/world.ts:26 | `Map.delete`: the entry and its key leave, the other keys keep their order, deleting an absent key changes nothing |
| Store.Empty | src/lib/systems/Movement.ts:16 | the cleared map has no entries and no keys |
| Store.Without | src/lib/world.ts:26 | the key order after a delete holds exactly the other keys, never more than before |
| Store.WithoutFacts | src/lib/world.ts:26 | deleting from distinct keys leaves distinct keys; deleting an absent key changes nothing |
| Store.DeleteIdempotent | src/lib/world.ts:25-27 | deleting the same key twice is deleting it once |
| Store.SetExistingKeepsOrder | src/lib/world.ts:17 | overwriting an existing entry keeps the key order and every other entry |
| World.Put | src/lib/world.ts:17 | writing one component of one entity changes that map only, as `Map.set` does |
| World.PutWellFormed | src/lib/world.ts:17 | a write of a well-shaped value for a live entity keeps the world well-formed (live keys, valid maps, values of the map's shape) |
| World.Matches | src/lib/world.ts:47-49 | the inner loop finds an entry for the entity in every listed map after the first; otherwise `continue entityLoop` drops it |
| World.Values | src/lib/world.ts:45-51 | a row's values are, slot by slot, the listed components of the entity |
| World.JoinKeys | src/lib/world.ts:44-53 | the rows pushed while the first map is walked in insertion order: one row `[entity, values…]` for each matching key, none for the others |
| World.Join | src/lib/world.ts:36-55 | `entitiesWithComponents(names, world)`: `[]` when the first map is missing, else `JoinKeys` over the first map's key order; its properties are stated by `World.JoinFacts` |
| World.JoinKeysRows | src/lib/world.ts:44-53 | every row of the join over a key sequence is for one of those keys, matches every listed map, and carries exactly that entity's values |
| World.JoinKeysMembers | src/lib/world.ts:44-53 | an entity is in the join over a key sequence iff it is one of the keys and every listed map has it |
| World.JoinKeysOrdered | src/lib/world.ts:44 | rows come in the order of the driving keys |
| World.JoinFacts | src/lib/world.ts:42-53 | `[]` when no name is listed or the first map is missing; otherwise an entity has a row iff it is a key of the first map and defined in every other listed map; rows are distinct, follow the first map's insertion order and hold the entity's values slot by slot |
| World.JoinKeysFrame | src/lib/world.ts:44-53 | the join reads only the listed maps |
| World.JoinFrame | src/lib/world.ts:36-55 | two worlds that agree on the listed maps give the same rows |
| World.JoinIndex | src/lib/world.ts:44-53 | every entity of the first map that matches the other maps has a row, holding its values |
| World.JoinRow | src/lib/world.ts:44-53 | every row's entity is in the first map, matches the others, and the row holds its values |
| World.JoinLive | src/lib/world.ts:44-53 | in a well-formed world every row is for a live entity |
| World.Overlay | src/lib/world.ts:17 | writing new values over existing entries keeps the key set and the key order, and keeps a valid map valid |
| World.Removed | src/lib/world.ts:25-26 | the component maps after `removeEntity`: `delete(entity)` applied to every map; leaving the live set is part of `World.World.RemoveEntity` |
| World.RemovedFacts | src/lib/world.ts:21-28 | after removal the entity is in no map; every other entity keeps exactly the entries and values it had; the map names are unchanged |
| World.RemovedIdempotent | src/lib/world.ts:25-27 | removing an entity twice is removing it once |
| World.WithEntries | src/lib/world.ts:14-17 | the loop of `createEntityFromComponents`: each supplied `(name, value)` in turn is `set` under the new id in that map |
| World.WithEntriesFacts | src/lib/world.ts:13-18 | each supplied component is stored under the new id, appended to that map's key order; no map name is added |
| World.WithEntriesOthers | src/lib/world.ts:13-18 | maps of components that were not supplied are unchanged |
| World.World.constructor | src/demos/fbird/index.ts:385-409 | a fresh world: counter 0, no live entity, time 0, an empty map for each listed component |
| World.World.CreateEntity | src/lib/world.ts:3-7 | returns the old counter plus one, raises the counter to it, adds it to the live set; the id was not live and is in no map, so ids are never reused; no map changes |
| World.World.CreateEntityFromComponents | src/lib/world.ts:9-19 | a new entity as `createEntity` makes it, whose supplied components are exactly the supplied values; the other maps are unchanged |
| World.World.SetComponent | src/lib/world.ts:17 | the component write of the systems: the world becomes `Put` of it and stays well-formed |
| World.World.ClearComponent | src/lib/systems/Movement.ts:15-16 | `Map.clear`: that map becomes empty, nothing else changes |
| World.World.RemoveEntity | src/lib/world.ts:21-28 | the components become `Removed(old, e)` and `e` leaves the live set; counter and time unchanged |
| World.World.EntitiesWithComponents | src/lib/world.ts:36-55 | the rows are exactly `Join` of the listed names (see `JoinFacts`), `[]` when the first map is missing; the world is not changed |
| Vector2.Add | src/lib/utils.ts:46-49 | the value `addVec` leaves in `out`: the coordinate-wise sum |
| Vector2.Sub | src/lib/utils.ts:51-63 | the value `subVec` and `diff` leave in `out`: the coordinate-wise difference |
| Vector2.Scale | src/lib/utils.ts:42-43 | `arg * scalar`, coordinate by coordinate |
| Vector2.AddScaled | src/lib/utils.ts:37-44 | the value `addVecMultiplyByScalar` leaves in `out`: `out + arg * scalar` |
| Vector2.IsZero | src/lib/utils.ts:69-71 | `isZero`: both coordinates are exactly 0 |
| Vector2.Dot | src/lib/utils.ts:65-67 | `x1 * x2 + y1 * y2`; `moduleSquare(v)` is this product of `v` with itself |
| Vector2.IsSqrt | src/lib/utils.ts:74 | what `Math.sqrt` is required to be: on a non-negative argument a non-negative root whose square is the argument |
| Vector2.Module | src/lib/utils.ts:73-75 | `module`: `sqrt` of `moduleSquare(v)`; its properties are stated by `ModuleNonNegative`, `ModulePositive`, `ModuleZero` and `ModuleIsLength` |
| Vector2.ModuleSquare | src/lib/utils.ts:65-67 | never negative, positive for a non-zero vector, zero for the zero vector |
| Vector2.SqrtSign | src/lib/utils.ts:74 | the root of a non-negative number is non-negative, and positive exactly for a positive number |
| Vector2.SqrtSquared | src/lib/utils.ts:74 | the root squared gives the number back |
| Vector2.ModuleNonNegative | src/lib/utils.ts:73-75 | `module(v) >= 0` |
| Vector2.ModulePositive | src/lib/utils.ts:73-75 | a non-zero vector has a positive module |
| Vector2.ModuleZero | src/lib/utils.ts:73-75 | the zero vector has module 0 |
| Vector2.ModuleIsLength | src/lib/utils.ts:73-75 | `module(v)² == moduleSquare(v)` |
| Vector2.AddSubRoundTrip | src/lib/utils.ts:46-54 | adding then subtracting a vector, or the reverse, gives the start back exactly |
| Vector2.DiffIsZeroIff | src/lib/utils.ts:56-71 | the difference is zero iff the two vectors are equal |
| Vector2.AddScaledNeutral | src/lib/utils.ts:37-44 | a zero scalar or a zero vector adds nothing |
| Vector2.ScaleNegated | src/lib/utils.ts:37-44 | scaling by `-s` is the negation of scaling by `s` |
| Vector2.Vector2.constructor | src/lib/utils.ts:19-21 | the object holds the given coordinates |
| Vector2.Make | src/lib/utils.ts:19-21 | a fresh vector with coordinates `x` and `y` |
| Vector2.MakeZero | src/lib/utils.ts:23-25 | a fresh vector `(0, 0)`, which `isZero` accepts |
| Vector2.SetToZero | src/lib/utils.ts:27-30 | afterwards `out` is `(0, 0)` and `isZero(out)` holds |
| Vector2.Assign | src/lib/utils.ts:32-35 | `out` becomes equal to `arg`, and `arg` is unchanged |
| Vector2.AddVecMultiplyByScalar | src/lib/utils.ts:37-44 | `out' = out + arg * scalar`; unchanged when the scalar is 0 or `arg` is zero |
| Vector2.AddVec | src/lib/utils.ts:46-49 | `out' = out + arg` |
| Vector2.SubVec | src/lib/utils.ts:51-54 | `out' = out - arg` |
| Vector2.Diff | src/lib/utils.ts:56-63 | `out = vec1 - vec2`, and `isZero(out)` holds iff `vec1 == vec2` |
| Vector2.AddThenSub | src/lib/utils.ts:46-54 | `addVec(out, a)` then `subVec(out, a)` restores `out` and leaves `a` alone |
| Updates.RunStoreOverlay | src/lib/systems/AcceleratedMovement.ts:17-19 | writing each row's new value in turn writes exactly the new values of the visited rows over the map; keys and order are kept |
| Updates.JoinStore | src/lib/systems/AcceleratedMovement.ts:17-19 | a pass over a query writes a new value exactly for the matching entities the loop body gives one, and that value is the body's result on the entity's own components |
| Updates.WriteRows | src/lib/systems/AcceleratedMovement.ts:17-19 | the `forEach` over query rows that writes one component: only that map changes, and it becomes the row-by-row run |
| Updates.WriteRows2 | src/lib/systems/Bounce.ts:16-32 | the same for a loop body that writes two components of its row |
| MovementSystem.Moving | src/lib/systems/Movement.ts:20 | the `!isZero(velocity)` test of the loop body |
| MovementSystem.MovedEntities | src/lib/systems/Movement.ts:18-21 | the entities the loop marks, in row order: exactly the rows whose velocity is non-zero |
| MovementSystem.Flags | src/lib/systems/Movement.ts:21 | an event map holding `true` for each listed entity, in the listed order |
| MovementSystem.Moved | src/lib/systems/Movement.ts:14-26 | the components after `Movement`: positions overwritten by `Moves`, `entityMovedEvent` cleared and then filled with the moved entities in query order; nothing else changes |
| MovementSystem.Moves | src/lib/systems/Movement.ts:18-24 | new positions are only for entities that already have one |
| MovementSystem.MovedEntitiesMembers | src/lib/systems/Movement.ts:18-25 | the marked entities are exactly the rows whose velocity is non-zero, each once |
| MovementSystem.MovementFacts | src/lib/systems/Movement.ts:18-24 | an entity with a position and a non-zero velocity gets `position + velocity * delta`; with a zero velocity or none it keeps its position; the position map keeps its keys; velocities and every map but position and events are unchanged |
| MovementSystem.MovementEvents | src/lib/systems/Movement.ts:15-25 | afterwards `entityMovedEvent` holds exactly the entities with a position and a non-zero velocity, each marked `true`, and nothing from before the call |
| MovementSystem.FlagsAppend | src/lib/systems/Movement.ts:21 | marking one more entity appends it to the event map |
| MovementSystem.MarkMoved | src/lib/systems/Movement.ts:20-21 | the loop body's event write: `true` when the row's velocity is non-zero, none otherwise |
| MovementSystem.Move | src/lib/systems/Movement.ts:20-22 | the loop body's position write: `position + velocity * delta` when the velocity is non-zero, none otherwise |
| MovementSystem.MarkStep | src/lib/systems/Movement.ts:20-21 | a row is marked exactly when its velocity is non-zero, and the marked list grows by that entity only |
| MovementSystem.MarksAreFlags | src/lib/systems/Movement.ts:18-25 | after `i` rows the event map lists the moved entities among them, in row order |
| MovementSystem.MovesAreRun | src/lib/systems/Movement.ts:18-24 | the loop's position writes are exactly the new positions of `Moved` |
| MovementSystem.MovementEnd | src/lib/systems/Movement.ts:14-26 | clearing the events and then running the loop gives `Moved` of the old components |
| MovementSystem.Movement | src/lib/systems/Movement.ts:14-26 | the components become `Moved(old, delta)`; the counter, live set and time are unchanged |
| AcceleratedMovementSystem.Accelerate | src/lib/systems/AcceleratedMovement.ts:17-19 | the loop body's write: `velocity + acceleration * delta` |
| AcceleratedMovementSystem.Accelerated | src/lib/systems/AcceleratedMovement.ts:13-20 | the components after `AcceleratedMovement`: velocities overwritten by `Accelerations`; nothing else changes |
| AcceleratedMovementSystem.Accelerations | src/lib/systems/AcceleratedMovement.ts:17-19 | new velocities are only for entities that already have one |
| AcceleratedMovementSystem.AcceleratedFacts | src/lib/systems/AcceleratedMovement.ts:17-19 | every entity with both components gets `velocity + acceleration * delta`; a velocity without an acceleration is kept; accelerations and all other maps are unchanged; the velocity map keeps its keys and order |
| AcceleratedMovementSystem.AcceleratedZero | src/lib/systems/AcceleratedMovement.ts:18 | with `delta = 0` nothing changes |
| AcceleratedMovementSystem.AcceleratedIsRun | src/lib/systems/AcceleratedMovement.ts:17-19 | the loop's writes are exactly the new velocities |
| AcceleratedMovementSystem.AcceleratedEnd | src/lib/systems/AcceleratedMovement.ts:13-20 | a world changed only in velocity, by the loop, is `Accelerated` of the old one |
| AcceleratedMovementSystem.AcceleratedMovement | src/lib/systems/AcceleratedMovement.ts:13-20 | the components become `Accelerated(old, delta)`; nothing else changes |
| ForceApplicationSystem.Inverse | src/lib/systems/ForceApplication.ts:22 | `1 / mass.value` for a non-zero mass |
| ForceApplicationSystem.Applications | src/lib/systems/ForceApplication.ts:18-23 | new accelerations are only for entities that already have one |
| ForceApplicationSystem.AppliedFacts | src/lib/systems/ForceApplication.ts:18-23 | an entity with mass, force and acceleration gets `acceleration + force * (1 / mass)`, which is the old acceleration when the force is zero; an acceleration without the others is kept; forces, masses and every other map are unchanged |
| ForceApplicationSystem.ApplyForceAt | src/lib/systems/ForceApplication.ts:21-22 | an entity of the mass map matches the query iff it has a force and an acceleration, and its loop body computes the accumulated acceleration |
| ForceApplicationSystem.AppliedIsRun | src/lib/systems/ForceApplication.ts:18-23 | the loop's writes are exactly the new accelerations |
| ForceApplicationSystem.AppliedEnd | src/lib/systems/ForceApplication.ts:14-24 | a world changed only in acceleration, by the loop, is `Applied` of the old one |
| ForceApplicationSystem.ForceApplication | src/lib/systems/ForceApplication.ts:14-24 | the components become `Applied(old)` whatever `delta` is; nothing else changes |
| ForceApplicationSystem.ApplyForce | src/lib/systems/ForceApplication.ts:21-23 | the loop body's write: the old acceleration plus `force * (1 / mass)` |
| ForceApplicationSystem.Applied | src/lib/systems/ForceApplication.ts:14-24 | the components after `ForceApplication`: accelerations overwritten by `Applications`, whatever `delta` is |
| ForceApplicationSystem.MassesNonZero | src/lib/systems/ForceApplication.ts:22 | every entity the query yields has a non-zero mass, so `1 / mass.value` is finite |
| ForceApplicationSystem.ZeroForce | src/lib/systems/ForceApplication.ts:30 | `setToZero(force)`: the write `(0, 0)` |
| ForceApplicationSystem.Reset | src/lib/systems/ForceApplication.ts:26-31 | the components after `ForceReset`: every value of the force map becomes `(0, 0)`, keys and order kept |
| ForceApplicationSystem.KeyRows | src/lib/systems/ForceApplication.ts:30 | one row per force entry, in the map's order |
| ForceApplicationSystem.ResetFacts | src/lib/systems/ForceApplication.ts:26-31 | every force becomes `(0, 0)`; the force map keeps its keys and order; every other map is unchanged |
| ForceApplicationSystem.ResetIdempotent | src/lib/systems/ForceApplication.ts:30 | a second reset changes nothing |
| ForceApplicationSystem.ResetIsRun | src/lib/systems/ForceApplication.ts:30 | zeroing the values one by one gives the reset map |
| ForceApplicationSystem.ResetEnd | src/lib/systems/ForceApplication.ts:26-31 | a world changed only in force, by the loop, is `Reset` of the old one |
| ForceApplicationSystem.ForceReset | src/lib/systems/ForceApplication.ts:26-31 | the components become `Reset(old)`; nothing else changes |
| ForcePairs.Kick | src/lib/systems/Gravitation.ts:38-39 | the two `addVecMultiplyByScalar` calls: force 1 gains `d * fm`, then force 2, read after that write, gains `d * -fm` |
| ForcePairs.KickFacts | src/lib/systems/Gravitation.ts:38-39 | the pair update adds `d * fm` to the first force and exactly its negation to the second; other forces are unchanged, and so are the map's keys |
| ForcePairs.Total | src/lib/systems/Gravitation.ts:38-39 | the sum of the forces of the listed entities, the quantity each pair update keeps |
| ForcePairs.TotalSetElsewhere | src/lib/systems/Gravitation.ts:38-39 | writing a force outside the summed keys leaves the sum alone |
| ForcePairs.TotalSet | src/lib/systems/Gravitation.ts:38-39 | rewriting one force moves the sum by exactly the change of that force |
| ForcePairs.KickTotal | src/lib/systems/Gravitation.ts:38-39 | the pair update keeps the sum of all forces (Newton's third law) |
| ForcePairs.KickForces | src/lib/systems/Spring.ts:52-53 | the two `addVecMultiplyByScalar` calls on the endpoint forces; only the force map changes, and it becomes the pair update |
| GravitationSystem.InnerPairs | src/lib/systems/Gravitation.ts:31 | the pairs turn `i` of the outer loop visits before `j`: `(i, i + 1)` … `(i, j - 1)` |
| GravitationSystem.OuterPairs | src/lib/systems/Gravitation.ts:29-32 | the pairs the first `i` turns of the outer loop visit, turn after turn |
| GravitationSystem.AllPairs | src/lib/systems/Gravitation.ts:29-32 | the pairs of the whole run over `n` rows; `AllPairsExact` states they are every `i < j` once |
| GravitationSystem.InnerPairsFacts | src/lib/systems/Gravitation.ts:31 | turn `i` visits exactly the pairs `(i, j)` with `i < j` below the bound, each once |
| GravitationSystem.OuterPairsFacts | src/lib/systems/Gravitation.ts:29-32 | the first `i` turns visit exactly the pairs whose first index is below `i`, each once |
| GravitationSystem.AllPairsExact | src/lib/systems/Gravitation.ts:29-32 | the two loops visit every unordered pair `i < j` of rows exactly once, never a row with itself, and none with fewer than two rows |
| GravitationSystem.OuterLast | src/lib/systems/Gravitation.ts:29 | stopping the outer loop at `entities.length - 1` loses no pair |
| GravitationSystem.Pull | src/lib/systems/Gravitation.ts:35-37 | `forceModule = G * m1 * m2 / moduleSquare(d) / module(d)` with `G = 6.67e-11`, for a non-zero `d` |
| GravitationSystem.PullPositive | src/lib/systems/Gravitation.ts:35-37 | with positive masses `forceModule` is positive, so body 1 is pulled toward body 2 and body 2 toward body 1 |
| GravitationSystem.Delta | src/lib/systems/Gravitation.ts:33 | `diff(position2, position1, d)` for the rows of a pair |
| GravitationSystem.PairStep | src/lib/systems/Gravitation.ts:33-39 | the inner body for pair `(i, j)`: unchanged when `d` is zero (`continue`), otherwise the two forces are kicked by `d * forceModule` |
| GravitationSystem.PairStepAt | src/lib/systems/Gravitation.ts:33-39 | a pair apart changes the two forces by `±d * fm` |
| GravitationSystem.PairStepFacts | src/lib/systems/Gravitation.ts:33-39 | coincident positions change nothing; otherwise force 1 gains `d * fm` and force 2 loses it, with `d = position2 - position1` and `fm = G m1 m2 / |d|² / |d|`; no other force changes |
| GravitationSystem.PairStepTotal | src/lib/systems/Gravitation.ts:38-39 | each pair keeps the sum of the forces |
| GravitationSystem.FoldPairs | src/lib/systems/Gravitation.ts:29-41 | the force map after the inner bodies for a list of pairs, in order |
| GravitationSystem.Gravitated | src/lib/systems/Gravitation.ts:24-42 | the components after `Gravitation`: the force map after every pair of query rows in loop order; nothing else changes |
| GravitationSystem.FoldPairsFrame | src/lib/systems/Gravitation.ts:25-41 | the pass keeps the force keys and does not touch the force of an entity outside the query |
| GravitationSystem.FoldPairsTotal | src/lib/systems/Gravitation.ts:29-41 | any sequence of pair updates keeps the sum of the forces |
| GravitationSystem.GravitatedFacts | src/lib/systems/Gravitation.ts:24-42 | the sum of the forces is unchanged; forces outside the query, positions, masses and all other maps are unchanged; with fewer than two rows nothing changes |
| GravitationSystem.PairTurn | src/lib/systems/Gravitation.ts:32-39 | one inner-loop body extends the run by its pair |
| GravitationSystem.InnerStep | src/lib/systems/Gravitation.ts:31-40 | one turn of the inner loop moves the run to the next pair |
| GravitationSystem.InnerLoop | src/lib/systems/Gravitation.ts:31-40 | the inner loop of turn `i` runs the pairs `(i, i+1) … (i, n-1)` in order |
| GravitationSystem.GravitatedEnd | src/lib/systems/Gravitation.ts:29-41 | running every pair of the query in loop order gives `Gravitated` of the old components |
| GravitationSystem.Gravitation | src/lib/systems/Gravitation.ts:24-42 | the components become `Gravitated(old)`; the live set, the counter and time are unchanged |
| SpringSystem.Tension | src/lib/systems/Spring.ts:48-50 | `forceModule = -(originalDistance - distance) * k / distance` with `distance = module(d)` |
| SpringSystem.Attached | src/lib/systems/Spring.ts:24-27 | both endpoints are in `activeEntitites` |
| SpringSystem.Equipped | src/lib/systems/Spring.ts:32-42 | both endpoints have a force and a position |
| SpringSystem.Span | src/lib/systems/Spring.ts:44 | `diff(e2Position, e1Position, d)` |
| SpringSystem.Turn | src/lib/systems/Spring.ts:24-53 | one loop body: a dead endpoint removes the spring entity; missing data or a zero `d` changes nothing; otherwise the endpoint forces are kicked by `d * forceModule` |
| SpringSystem.Run | src/lib/systems/Spring.ts:23-54 | the loop bodies for the spring keys in map order, each spring as the map held it when the pass began |
| SpringSystem.Sprung | src/lib/systems/Spring.ts:20-55 | the components and live set after `Spring`: one turn per spring entry, in insertion order |
| SpringSystem.TensionSign | src/lib/systems/Spring.ts:48-50 | at rest length `forceModule` is 0; with `k > 0` it is positive when stretched and negative when compressed |
| SpringSystem.TurnRemoves | src/lib/systems/Spring.ts:24-30 | a spring with a dead endpoint is removed: its entity leaves the live set and every map, and nothing else changes |
| SpringSystem.TurnKeeps | src/lib/systems/Spring.ts:32-46 | a spring with both endpoints live is kept, and only forces can change; a missing force or position or coincident endpoints change nothing |
| SpringSystem.TurnPulls | src/lib/systems/Spring.ts:44-53 | otherwise endpoint 1's force gains `d * fm` and endpoint 2's loses exactly that, with `d = position2 - position1`; no other force changes |
| SpringSystem.TurnAtRest | src/lib/systems/Spring.ts:48-53 | at `distance == originalDistance` nothing changes |
| SpringSystem.TurnTotal | src/lib/systems/Spring.ts:52-53 | each spring keeps the sum of the forces |
| SpringSystem.TurnShrinks | src/lib/systems/Spring.ts:24-30 | a spring step only ever removes its own entity, and a removed entity stays removed |
| SpringSystem.RunShrinks | src/lib/systems/Spring.ts:23-55 | the pass removes only spring entities it visited, and nothing comes back to life |
| SpringSystem.RunRemovesDead | src/lib/systems/Spring.ts:24-30 | a visited spring with an endpoint already dead when the pass starts ends removed |
| SpringSystem.RunConserves | src/lib/systems/Spring.ts:23-55 | when every visited spring has live endpoints, no entity is removed, only forces change, the force keys are kept and the sum of the forces is unchanged |
| SpringSystem.RunKeepsLaterSprings | src/lib/systems/Spring.ts:23-30 | removing a spring while the loop runs never removes or changes a spring not yet visited |
| SpringSystem.SpringTurn | src/lib/systems/Spring.ts:24-54 | one loop body: a spring with a dead endpoint is removed, otherwise its endpoint forces are pulled; the world becomes the spring step of the old one |
| SpringSystem.ApplySprings | src/lib/systems/Spring.ts:20-55 | the world (components and live set) becomes `Sprung` of the old one; counter and time unchanged |
| BounceSystem.Clamp | src/lib/systems/Bounce.ts:17-31 | one axis: above `max` the coordinate becomes `max` and the velocity `v * -0.2`; below 0 it becomes 0 and `v * -0.2`; otherwise both are kept |
| BounceSystem.BouncePosition | src/lib/systems/Bounce.ts:17-31 | the new position: `Clamp` on x against the width and on y against the height |
| BounceSystem.BounceVelocity | src/lib/systems/Bounce.ts:17-31 | the new velocity: the same two clamps, decided on the position before the writes |
| BounceSystem.ClampFacts | src/lib/systems/Bounce.ts:17-31 | past the top bound a coordinate becomes the bound and its velocity `-0.2 * v`; below 0 it becomes 0 with `-0.2 * v`; in range both are kept; the result lies in `[0, max]`, and clamping again changes nothing |
| BounceSystem.NewPositions | src/lib/systems/Bounce.ts:16-31 | new positions are only for entities that already have one |
| BounceSystem.NewVelocities | src/lib/systems/Bounce.ts:16-31 | new velocities are only for entities that already have one |
| BounceSystem.BouncedFacts | src/lib/systems/Bounce.ts:16-31 | each axis is clamped on its own, so both can trigger; with `W, H >= 0` the position ends in `[0, W] × [0, H]`; an entity lacking either component is untouched; only positions and velocities change |
| BounceSystem.InsideUnchanged | src/lib/systems/Bounce.ts:17-31 | an entity inside the box keeps its position and velocity |
| BounceSystem.BouncedIdempotent | src/lib/systems/Bounce.ts:15-31 | a second bounce changes nothing |
| BounceSystem.StepPosition | src/lib/systems/Bounce.ts:16-31 | the loop body's position write for a row |
| BounceSystem.StepVelocity | src/lib/systems/Bounce.ts:16-31 | the loop body's velocity write for the same row |
| BounceSystem.Bounced | src/lib/systems/Bounce.ts:15-33 | the components after the `Bounce` system for a width and height: positions and velocities overwritten by the clamps; nothing else changes |
| BounceSystem.StepsAt | src/lib/systems/Bounce.ts:16-31 | a position matches the query iff it has a velocity, and the loop body writes the clamped position and velocity |
| BounceSystem.PositionsAreRun | src/lib/systems/Bounce.ts:16-31 | the loop's position writes are exactly the new positions |
| BounceSystem.VelocitiesAreRun | src/lib/systems/Bounce.ts:16-31 | the loop's velocity writes are exactly the new velocities |
| BounceSystem.BouncedEnd | src/lib/systems/Bounce.ts:15-33 | a world changed only in positions and velocities, by the loop, is `Bounced` of the old one |
| BounceSystem.Bounce | src/lib/systems/Bounce.ts:11-33 | the components become `Bounced(old, box)` whatever `delta` is; nothing else changes |
| DebugSpringRenderSystem.Reposition | src/lib/systems/DebugSpringRender.ts:20-23 | the line with `x1, y1` at endpoint 1 and `x2, y2` at endpoint 2; stroke style and depth kept |
| DebugSpringRenderSystem.Draw | src/lib/systems/DebugSpringRender.ts:15-24 | the loop body: no write when either endpoint has no position (`return`), otherwise the repositioned line |
| DebugSpringRenderSystem.EndsPlaced | src/lib/systems/DebugSpringRender.ts:16-19 | both endpoints of the spring have a position |
| DebugSpringRenderSystem.Rendered | src/lib/systems/DebugSpringRender.ts:12-25 | the components after `DebugSpringRender`: lines overwritten by `NewLines`; nothing else changes |
| DebugSpringRenderSystem.NewLines | src/lib/systems/DebugSpringRender.ts:15-24 | new lines are only for entities that already have one |
| DebugSpringRenderSystem.RenderedFacts | src/lib/systems/DebugSpringRender.ts:15-23 | when both endpoint positions exist the line runs from endpoint 1's position to endpoint 2's; when one is missing the line is unchanged; a line without a spring is unchanged |
| DebugSpringRenderSystem.RenderedStyle | src/lib/systems/DebugSpringRender.ts:20-23 | a line keeps its `strokeStyle` and `zIndex` |
| DebugSpringRenderSystem.RenderedFrame | src/lib/systems/DebugSpringRender.ts:15-24 | only the line map changes, and it keeps its keys and order; positions and springs are untouched |
| DebugSpringRenderSystem.DrawAt | src/lib/systems/DebugSpringRender.ts:16-19 | a spring matches the query iff it has a line, and the loop body writes the moved line exactly when both endpoints are placed |
| DebugSpringRenderSystem.LinesAreRun | src/lib/systems/DebugSpringRender.ts:15-24 | the loop's writes are exactly the new lines |
| DebugSpringRenderSystem.RenderedEnd | src/lib/systems/DebugSpringRender.ts:12-25 | a world changed only in lines, by the loop, is `Rendered` of the old one |
| DebugSpringRenderSystem.DebugSpringRender | src/lib/systems/DebugSpringRender.ts:12-25 | the components become `Rendered(old)`; nothing else changes |
| CombinedSystems.Move | src/lib/systems.ts:13-14 | the loop body's write: `position + velocity * delta`, with no zero test |
| CombinedSystems.Moved | src/lib/systems.ts:6-16 | the components after the combined `Movement`: positions overwritten by `Moves`; nothing else changes |
| CombinedSystems.Moves | src/lib/systems.ts:10-15 | new positions are only for entities that already have one |
| CombinedSystems.MovedFacts | src/lib/systems.ts:10-15 | every entity with both components gets `position + velocity * delta`, zero velocity included; positions without a velocity are kept; every other map is unchanged |
| CombinedSystems.SamePositions | src/lib/systems.ts:6-16 | its positions agree with those of the modular `Movement`: the zero-velocity guard only affects the event map |
| CombinedSystems.MovesAreRun | src/lib/systems.ts:10-15 | the loop's writes are exactly the new positions |
| CombinedSystems.MovedEnd | src/lib/systems.ts:6-16 | a world changed only in positions, by the loop, is `Moved` of the old one |
| CombinedSystems.Movement | src/lib/systems.ts:6-16 | the components become `Moved(old, delta)`; nothing else changes |
| ObjectSystems.ForEach | systems.ts:5 | the `for … of world.entities` walk: every entity becomes the loop body of its old self |
| ObjectSystems.Moved | systems.ts:6-9 | an entity with a position and a velocity gets `position + velocity * delta`; any other entity is kept |
| ObjectSystems.MovedFacts | systems.ts:4-11 | an entity with a position and a velocity moves by `velocity * delta` and nothing else of it changes; moving by `-delta` undoes it; an entity lacking either is untouched |
| ObjectSystems.MovementSystem | systems.ts:4-11 | every entity becomes `Moved(old, delta)` |
| ObjectSystems.BounceX | systems.ts:15-27 | the x axis: past 1000 the coordinate becomes 1000 and `vx * -1 * -0.2`, so vx keeps its sign; below 0 it becomes 0 and `vx * -0.2`; otherwise kept |
| ObjectSystems.BounceY | systems.ts:29-42 | the y axis: past 500 it becomes 500, below 0 it becomes 0, each with `vy * -0.2`; otherwise kept |
| ObjectSystems.Bounced | systems.ts:14-43 | an entity with a position and a velocity gets both axes of the bounce; any other entity is kept |
| ObjectSystems.BouncedFacts | systems.ts:12-45 | the position ends in `[0, 1000] × [0, 500]`; past the right wall `vx' = 0.2 * vx` (same sign); at the left, top and bottom walls the component becomes `-0.2 *` itself; in range it is kept; only position and velocity change |
| ObjectSystems.BouncedIdempotent | systems.ts:12-45 | a second bounce changes nothing; an entity lacking a position or a velocity is untouched |
| ObjectSystems.BounceSystem | systems.ts:12-45 | every entity becomes `Bounced(old)` |
| ObjectSystems.Accelerated | systems.ts:48-51 | an entity with a velocity and an acceleration gets `velocity + acceleration * delta`; any other entity is kept |
| ObjectSystems.AcceleratedFacts | systems.ts:46-53 | with both components the velocity gains `acceleration * delta` and nothing else changes; `-delta` undoes it and `delta = 0` changes nothing |
| ObjectSystems.AccelerationSystem | systems.ts:46-53 | every entity becomes `Accelerated(old, delta)` |
| ObjectSystems.ForceApplied | systems.ts:56-61 | with a mass, an acceleration and a force: a zero mass is skipped, otherwise the acceleration is overwritten by `force / mass` |
| ObjectSystems.ForceAppliedFacts | systems.ts:54-63 | with a non-zero mass the acceleration is overwritten so that `mass * acceleration == force`, whatever it was; a zero mass or a missing component leaves the entity as it is; a second application changes nothing |
| ObjectSystems.ApplyForceSystem | systems.ts:54-63 | every entity becomes `ForceApplied(old)` |
| ObjectSystems.ForceCleared | systems.ts:66-69 | an entity with a force gets `(0, 0)`; any other entity is kept |
| ObjectSystems.ForceClearedFacts | systems.ts:64-71 | every force becomes `(0, 0)`, an entity without one is untouched, and a second reset changes nothing |
| ObjectSystems.ForceResetSystem | systems.ts:64-71 | every entity becomes `ForceCleared(old)` |
| ObjectForces.AddForce | systems.ts:97-98 | `e1.force.x += fx; e1.force.y += fy` |
| ObjectForces.SubForce | systems.ts:100-101 | `e2.force.x -= fx; e2.force.y -= fy` |
| ObjectForces.ForceOf | systems.ts:97-101 | an entity's force, or `(0, 0)` when it has none |
| ObjectForces.TotalForce | systems.ts:97-101 | the sum of the forces of the whole array, the quantity the pair updates keep |
| ObjectForces.Shove | systems.ts:97-101 | adding to one force and subtracting from another changes force values only |
| ObjectForces.ShoveFacts | systems.ts:97-101 | entity `i` gains `v`, entity `j` loses `v`, the others are unchanged, and the sum of all forces is kept |
| ObjectForces.Full | systems.ts:76-82 | the entity has a mass, a position and a force, the test both loops make before a pair |
| ObjectForces.Gap | systems.ts:84-85 | `(dx, dy) = e2.position - e1.position` |
| ObjectForces.Attraction | systems.ts:87-95 | `(fx, fy) = force * (dx / r, dy / r)` with `force = G * m1 * m2 / r2`, `G = 6.67e-5`, `r = r2 ** 0.5` |
| ObjectForces.GravityStep | systems.ts:79-102 | one pair step keeps the number of entities |
| ObjectForces.Gravitated | systems.ts:74-103 | a run of pair steps keeps the number of entities |
| ObjectForces.GravityStepAlike | systems.ts:79-102 | a pair step changes force values only |
| ObjectForces.GravitatedAlike | systems.ts:74-103 | the whole pass changes force values only |
| ObjectForces.AttractionToward | systems.ts:84-95 | with positive masses `(fx, fy)` is a positive multiple of `(dx, dy)`: e1 is pulled toward e2 |
| ObjectForces.GravityStepFacts | systems.ts:76-102 | a pair with an entity lacking mass, position or force, or with `r2 === 0`, changes nothing; otherwise e1 gains `(fx, fy)` and e2 loses it; the sum of the forces is kept |
| ObjectForces.GravitatedTotal | systems.ts:74-103 | the whole pass keeps the sum of the forces |
| ObjectForces.GravitatedAppend | systems.ts:74-103 | running two lists of pairs in turn is running their concatenation |
| ObjectForces.Turns | systems.ts:74-104 | the array after the first `i` turns of the outer loop, each turn running its inner pairs |
| ObjectForces.TurnsAreGravitated | systems.ts:74-79 | the outer loop's turns run the pairs in loop order |
| ObjectForces.TurnsEnd | systems.ts:74 | the outer loop's last turn completes every pair `i < j` |
| ObjectForces.SkipRow | systems.ts:76-77 | a turn whose entity lacks mass, position or force changes nothing |
| ObjectForces.GravityTurn | systems.ts:80-101 | the inner loop body on the array is the pair step |
| ObjectForces.GravityRowTurn | systems.ts:80-101 | one inner turn on the array extends the run of turn `i` by the pair `(i, j)` and keeps entity `i` full |
| ObjectForces.GravityRow | systems.ts:79-102 | the inner loop of turn `i` runs the pairs `(i, j)` for `j > i` in order |
| ObjectForces.GravityOuterTurn | systems.ts:74-103 | one outer turn advances the run by that turn's pairs |
| ObjectForces.GravityForceSystem | systems.ts:73-104 | the array becomes the run of every pair `i < j` in loop order (see `GravitatedTotal`, `GravityStepFacts`) |
| ObjectForces.Equipped | systems.ts:109-113 | the joint endpoint has a position and a force |
| ObjectForces.JointSound | systems.ts:117-122 | coincident equipped endpoints have `originalDistance == 0`, so the `r2 === originalDistance2` test skips them before the division by `r` |
| ObjectForces.Sound | systems.ts:107-122 | entity `k`'s joint, if any, names two entities of the array and is `JointSound` |
| ObjectForces.AllSound | systems.ts:106-122 | every entity of the array is `Sound`: the precondition of `JointSystem` |
| ObjectForces.Apart | systems.ts:117-120 | a joint not skipped by the `r2 === originalDistance²` test has endpoints apart |
| ObjectForces.SoundAlike | systems.ts:105-135 | changing forces only keeps every joint's endpoints in the array |
| ObjectForces.JointStep | systems.ts:106-133 | one joint body changes force values only |
| ObjectForces.Jointed | systems.ts:105-135 | the whole pass changes force values only |
| ObjectForces.JointStepFacts | systems.ts:107-133 | an endpoint lacking position or force skips the joint; otherwise, unless `r2 === originalDistance²`, entity1 gains `(dx/r, dy/r) * f` and entity2 loses it; the sum of the forces is kept |
| ObjectForces.JointedTotal | systems.ts:105-135 | the whole pass keeps the sum of the forces |
| ObjectForces.Tug | systems.ts:122-126 | `(fx, fy) = (dx / r, dy / r) * f` with `r = Math.sqrt(r2)` and `f = -(r - originalDistance²) * k` |
| ObjectForces.TugSign | systems.ts:121-126 | with `f = -(r - originalDistance²) * k`: zero force at `r == originalDistance²`; for `k > 0` a pull toward entity2 below it and a push away above it |
| ObjectForces.TugIsScaled | systems.ts:122-126 | `(fx, fy)` is `(dx, dy)` scaled by `f / r`, with `r > 0` |
| ObjectForces.FactorSign | systems.ts:123 | the sign of `f / r` as `r` lies below, at or above `originalDistance²` |
| ObjectForces.JointNeutral | systems.ts:117-126 | no force changes when the distance equals `originalDistance` (skipped by the test) or `originalDistance²` (zero force law) |
| ObjectForces.JointTurn | systems.ts:107-133 | one joint body on the array is the joint step |
| ObjectForces.JointSystem | systems.ts:105-135 | the array becomes the run of every entity's joint in order (see `JointedTotal`, `JointStepFacts`) |
| LegacyWorld.IndexOf | index.ts:41 | `indexOf`: `-1` iff absent, else the first index holding the id |
| LegacyWorld.RemoveFirst | index.ts:41-42 | `entities` after `removeEntity`: unchanged when `indexOf` gives -1, otherwise the element at that index spliced out |
| LegacyWorld.RemoveFirstFacts | index.ts:41-42 | an absent id changes nothing; a present one leaves one entry fewer, and putting it back at its index restores the array, so the rest keep their order; as multisets one occurrence is gone |
| LegacyWorld.RemoveFirstIsWithout | index.ts:41-42 | on distinct ids the splice is dropping every occurrence |
| LegacyWorld.RemoveFirstDistinct | index.ts:33-42 | with distinct ids the entity is gone afterwards, every other id stays, and the ids stay distinct |
| LegacyWorld.RemoveTwice | index.ts:38-43 | removing twice is removing once |
| LegacyWorld.World.constructor | index.ts:80-94 | counter 0, no entity, one empty map per component kind |
| LegacyWorld.World.CreateEntity | index.ts:32-36 | returns the old counter plus one and appends it to `entities`; no map changes; created ids stay distinct |
| LegacyWorld.World.RemoveEntity | index.ts:38-43 | every map loses the entity; its first occurrence is spliced out of `entities`; with distinct ids it is gone from `entities` |
| FlappyBird.AllOver | src/demos/fbird/index.ts:236-238 | the `gameState` map with every entry set to "over", keys and order kept |
| FlappyBird.EndGame | src/demos/fbird/index.ts:235-239 | the components after `gameOver()`: `gameState` replaced by `AllOver`; nothing else changes |
| FlappyBird.IsOver | src/demos/fbird/index.ts:218-220 | some `gameState` entry is "over" |
| FlappyBird.StaysOver | src/demos/fbird/index.ts:235-239 | from one state to the next "over" is permanent: over entries stay over and no entry becomes active |
| FlappyBird.EndGameFacts | src/demos/fbird/index.ts:235-239 | `gameOver` makes every `gameState` entry over and changes nothing else; it is idempotent; afterwards the game is over iff there is a state entry; over entries stay over |
| FlappyBird.MarkGameOver | src/demos/fbird/index.ts:235-239 | the loop over the state keys gives `EndGame(old)` |
| FlappyBird.AllOverTwice | src/demos/fbird/index.ts:236-237 | marking all entries over twice is marking them once |
| FlappyBird.Flaps | src/demos/fbird/index.ts:225-227 | the bird's last flap lies more than 500 ms before `currentTime + delta`, and the up key is held |
| FlappyBird.FlapVelocity | src/demos/fbird/index.ts:225-230 | the loop body's velocity write: `y = -0.3`, x kept, when the bird flaps |
| FlappyBird.FlapBird | src/demos/fbird/index.ts:225-230 | the loop body's bird write: `lastTimeKeyPressed = currentTime + delta` when the bird flaps |
| FlappyBird.FlapVelocities | src/demos/fbird/index.ts:224-231 | new velocities are only for entities that already have one |
| FlappyBird.FlapBirds | src/demos/fbird/index.ts:224-231 | new bird data is only for birds that already exist |
| FlappyBird.Controlled | src/demos/fbird/index.ts:214-233 | the components after `UserControl`: unchanged when some state is over (the early `return`), else velocities and birds overwritten by the flaps |
| FlappyBird.ControlledFacts | src/demos/fbird/index.ts:218-231 | an over game is left entirely alone; a flapping bird gets `velocity.y = -0.3` and a key time of `currentTime + delta`; any other bird or velocity is unchanged; only bird and velocity maps change; over stays over |
| FlappyBird.FlapsSpaced | src/demos/fbird/index.ts:225-229 | a second run within 500 ms of a flap does not flap again |
| FlappyBird.FlapsAt | src/demos/fbird/index.ts:224-231 | a controlled entity matches the query iff it has a bird and a velocity, and the loop body flaps exactly when the cooldown has passed and up is held |
| FlappyBird.ControlledEnd | src/demos/fbird/index.ts:221-232 | a world changed only in velocities and birds, by the loop, is `Controlled` of the old one |
| FlappyBird.AnyOver | src/demos/fbird/index.ts:218-220 | the scan answers true iff some state entry is over |
| FlappyBird.UserControlSystem | src/demos/fbird/index.ts:214-233 | the components become `Controlled(old, press)` with `now = currentTime + delta`; nothing else changes |
| FlappyBird.Inside | src/demos/fbird/index.ts:255-260 | the bird position lies strictly inside `(px, px + 80) × (py, py + 500)` |
| FlappyBird.Touches | src/demos/fbird/index.ts:253-260 | a bird with a position lies `Inside` a pipe with a position |
| FlappyBird.Collision | src/demos/fbird/index.ts:244-265 | some bird touches some pipe |
| FlappyBird.Collided | src/demos/fbird/index.ts:241-266 | the components after `PipeCollision`: `EndGame` on a collision, otherwise unchanged |
| FlappyBird.RowsTouch | src/demos/fbird/index.ts:255-260 | the loops' test for a pipe row and a bird row |
| FlappyBird.CollidedStaysOver | src/demos/fbird/index.ts:241-266 | "over" stays permanent; on a collision the result is `EndGame`, otherwise nothing changes |
| FlappyBird.TouchIsRows | src/demos/fbird/index.ts:253-260 | a bird strictly inside a pipe's rectangle shows up as a pair of query rows |
| FlappyBird.RowsAreTouch | src/demos/fbird/index.ts:253-260 | a colliding pair of rows is a bird strictly inside a pipe's rectangle |
| FlappyBird.RowsCollide | src/demos/fbird/index.ts:253-265 | the loops find a colliding pair iff some bird lies strictly inside some `(px, px+80) × (py, py+500)` |
| FlappyBird.PipeCollision | src/demos/fbird/index.ts:241-266 | the components become `Collided(old)`: `gameOver` exactly on a collision, otherwise no change |
| FlappyBird.OutOfField | src/demos/fbird/index.ts:273-278 | `y > WORLD_HEIGHT - 40` or `y < 0` |
| FlappyBird.Fall | src/demos/fbird/index.ts:273-282 | below the ground `(460, vy * -0.5)`; above the ceiling `(0, 0)`; otherwise kept |
| FlappyBird.FallPosition | src/demos/fbird/index.ts:272-282 | the loop body's position write: y from `Fall`, x kept, for an out-of-field bird |
| FlappyBird.FallVelocity | src/demos/fbird/index.ts:272-282 | the loop body's velocity write: vy from `Fall`, vx kept, for an out-of-field bird |
| FlappyBird.RowHits | src/demos/fbird/index.ts:273-282 | the row's bird is out of the field, so its body calls `gameOver()` |
| FlappyBird.Bouncing | src/demos/fbird/index.ts:269-278 | the entity is a bird with a position and a velocity, out of the field |
| FlappyBird.Grounded | src/demos/fbird/index.ts:269-283 | some bird is out of the field |
| FlappyBird.Fallen | src/demos/fbird/index.ts:272-282 | positions and velocities overwritten by the falls |
| FlappyBird.BirdBounced | src/demos/fbird/index.ts:268-284 | the components after `Bounce`: the falls, and `gameState` all over exactly when some bird left the field |
| FlappyBird.FallPositions | src/demos/fbird/index.ts:272-283 | new positions are only for entities that already have one |
| FlappyBird.FallVelocities | src/demos/fbird/index.ts:272-283 | new velocities are only for entities that already have one |
| FlappyBird.BirdBouncedMaps | src/demos/fbird/index.ts:268-284 | only positions, velocities and states change; states become all over iff some bird was out of the field |
| FlappyBird.BounceStaysOver | src/demos/fbird/index.ts:273-282 | over stays over, and a bird out of the field ends the game |
| FlappyBird.BirdBouncedAt | src/demos/fbird/index.ts:273-282 | below 460 a bird is put back at 460 with `vy * -0.5`; above 0 at 0 with `vy = 0`; x is never changed; a bird in the field is untouched |
| FlappyBird.BirdBouncedInField | src/demos/fbird/index.ts:273-282 | afterwards every bird's y lies in `[0, 460]` |
| FlappyBird.HitInSome | src/demos/fbird/index.ts:273-282 | some of the first rows hits a bound iff one of them does |
| FlappyBird.BouncingRow | src/demos/fbird/index.ts:269-283 | every bird out of the field has a row that hits a bound |
| FlappyBird.RowBouncing | src/demos/fbird/index.ts:269-283 | a row that hits a bound is a bird out of the field |
| FlappyBird.GroundedRows | src/demos/fbird/index.ts:269-283 | the game is ended by the loop iff some bird is out of the field |
| FlappyBird.FallAt | src/demos/fbird/index.ts:272-283 | a bird row writes a new position and velocity iff the bird is out of the field, and they are the clamped ones |
| FlappyBird.BounceEnd | src/demos/fbird/index.ts:268-284 | the loop over all bird rows gives `BirdBounced(old)` |
| FlappyBird.BounceRow | src/demos/fbird/index.ts:272-283 | one loop body keeps the pass invariant: the rows so far are clamped, and every state is marked over iff one of them hit a bound |
| FlappyBird.BounceRows | src/demos/fbird/index.ts:272-283 | after the `forEach` every row is clamped and every state is marked over iff some row hit a bound; the live set, counter and time are unchanged |
| FlappyBird.Bounce | src/demos/fbird/index.ts:268-284 | the components become `BirdBounced(old)`; nothing else changes |
| FlappyBird.Shifts | src/demos/fbird/index.ts:31-37 | a pipe jumps `(150 + 80) * PIPES_COUNT + 150 = 1150`, one world width plus one gap; a tile jumps `300 * BACKGROUND_TILES_COUNT = 1300`, one world width plus one tile |
| FlappyBird.Wrap | src/demos/fbird/index.ts:293-296 | the new x: past `-limit` it moves right by `shift`, otherwise it is kept |
| FlappyBird.WrapLands | src/demos/fbird/index.ts:293-296 | a position left of the edge by less than one jump reappears between the edge and `shift - limit`; a position at or right of the edge stays, so a second run changes nothing more; x never decreases |
| FlappyBird.Respawns | src/demos/fbird/index.ts:292-297 | new positions are only for entities that already have one |
| FlappyBird.RespawnStep | src/demos/fbird/index.ts:292-297 | the loop body's write for a row `[entity, tag, position]`: the wrapped x, y kept, when x is past the edge |
| FlappyBird.Respawned | src/demos/fbird/index.ts:286-312 | the components after a respawn system: positions overwritten by `Respawns`; nothing else changes |
| FlappyBird.RespawnedFacts | src/demos/fbird/index.ts:289-298 | a tagged entity left of `-limit` moves right by the jump, y kept; every other position is kept; only the position map changes |
| FlappyBird.RespawnedStaysOver | src/demos/fbird/index.ts:286-312 | a respawn system touches no `gameState` entry, so "over" stays permanent |
| FlappyBird.RespawnAt | src/demos/fbird/index.ts:289-298 | the loop body writes exactly for the tagged entities past the edge, and writes the shifted position |
| FlappyBird.RespawnEnd | src/demos/fbird/index.ts:289-298 | a world changed only in positions, by the loop, is `Respawned` of the old one |
| FlappyBird.RespawnSystem | src/demos/fbird/index.ts:286-312 | the components become `Respawned(old, settings)`; nothing else changes |
| FlappyBird.RespawnPipes | src/demos/fbird/index.ts:286-299 | `Respawned` with the pipe tag, edge `-80` and jump 1150 |
| FlappyBird.RespawnBackgroundTiles | src/demos/fbird/index.ts:301-312 | `Respawned` with the tile tag, edge `-300` and jump 1300 |
| FlappyBird.Tagged | src/demos/fbird/index.ts:328-338 | the entities with a `pipe` (or `tile`) entry |
| FlappyBird.HaltStep | src/demos/fbird/index.ts:331-339 | the halting loop body's write: `x = 0`, y kept |
| FlappyBird.Halted | src/demos/fbird/index.ts:328-340 | the velocity map with `x = 0` for every pipe and tile |
| FlappyBird.HaltsOf | src/demos/fbird/index.ts:328-340 | halted velocities are only for entities that already have one |
| FlappyBird.OverAt | src/demos/fbird/index.ts:316 | the `gameState` entry of the entity is "over" |
| FlappyBird.Messages | src/demos/fbird/index.ts:315-326 | `canvasText` after the first `i` loop turns: an over entity without a text gets the "Game Over" message |
| FlappyBird.OverIn | src/demos/fbird/index.ts:315-316 | one of the first `i` `gameState` entries is "over" |
| FlappyBird.MessagesFacts | src/demos/fbird/index.ts:315-326 | existing texts are kept; every over entity visited has a text; every added text is "Game Over" and belongs to an over entity; new texts come after the old ones |
| FlappyBird.MessagesNone | src/demos/fbird/index.ts:315-326 | no over entry means no text is added |
| FlappyBird.OverInSome | src/demos/fbird/index.ts:315-316 | some visited state is over iff one of them is |
| FlappyBird.OverInIsOver | src/demos/fbird/index.ts:315-316 | the loop meets an over state iff the game is over |
| FlappyBird.HaltsCompose | src/demos/fbird/index.ts:328-340 | halting pipes and then tiles is halting both at once |
| FlappyBird.HaltsFixed | src/demos/fbird/index.ts:328-340 | halting again changes nothing |
| FlappyBird.HaltRun | src/demos/fbird/index.ts:328-333 | the `forEach` over tagged rows sets `velocity.x = 0` for exactly the tagged entities with a velocity |
| FlappyBird.HaltPass | src/demos/fbird/index.ts:328-333 | a halting pass changes only the velocity map: the tagged velocities get `x = 0` |
| FlappyBird.HaltAll | src/demos/fbird/index.ts:328-340 | after the pipe pass and the tile pass, every pipe and tile velocity is halted and nothing else changes |
| FlappyBird.ShowGameOver | src/demos/fbird/index.ts:317-340 | the loop body for an over entity: a text added only if it has none, then pipes and tiles halted |
| FlappyBird.GameOverAt | src/demos/fbird/index.ts:315-342 | the components after the first `i` turns of the `GameOver` loop |
| FlappyBird.GameOverShown | src/demos/fbird/index.ts:314-343 | the components after `GameOver`: the messages, and the halted velocities when some state is over |
| FlappyBird.GameOverTurn | src/demos/fbird/index.ts:315-342 | one turn of the loop moves the world from the effect of the first `i` states to that of the first `i + 1` |
| FlappyBird.GameOverSystem | src/demos/fbird/index.ts:314-343 | the components become `GameOverShown(old)`; nothing else changes |
| FlappyBird.GameOverIdle | src/demos/fbird/index.ts:315-316 | while the game is active nothing changes |
| FlappyBird.GameOverFrame | src/demos/fbird/index.ts:314-343 | only the text and velocity maps change |
| FlappyBird.GameOverStaysOver | src/demos/fbird/index.ts:314-343 | `GameOver` touches no `gameState` entry, so "over" stays permanent |
| FlappyBird.GameOverTexts | src/demos/fbird/index.ts:317-326 | every over entity ends with a text; an existing text is kept; an added text is "Game Over" of an over entity |
| FlappyBird.GameOverHalts | src/demos/fbird/index.ts:328-340 | in an over game every pipe and tile velocity gets `x = 0`, y kept; other velocities are unchanged |
| FlappyBird.GameOverTwice | src/demos/fbird/index.ts:314-343 | a second run changes nothing more |
| FlappyBird.MessagesSettled | src/demos/fbird/index.ts:317-318 | over entities that already have a text get nothing new |

## Left out

- IEEE-754 arithmetic: numbers are reals. The model states no rounding, and
  no NaN or Infinity arises. The gravity constants (6.67e-11 and 6.67e-5)
  are exact reals.
- `Math.sqrt` and `** 0.5` are the parameter `sqrt`, required to be the exact
  non-negative square root.
- The module-level scratch vectors `d` of Gravitation.ts and Spring.ts are
  local values. The model does not capture that they are shared between
  calls, which no caller can observe.
- Aliasing between component objects: a query row hands out the stored
  objects, and a system writes through them. The model writes the new value
  back into the map. Two entities sharing one position object are not
  modelled.
- `row.slice()` copies each row. Rows are values here, so the copy is implicit.
- ForceApplicationSystem.ForceApplication: requires every queried mass to be
  non-zero. The source divides by it unguarded, and `1 / 0` would make the
  acceleration infinite.
- ObjectForces.JointSystem: requires joint endpoints to be array indices of
  the entity list, and coincident endpoints to come with `originalDistance`
  0. The source holds object references, and coincident endpoints make
  `dx / r` NaN.
- ObjectForces.JointTurn: requires the same as `JointSystem` of the joint it
  runs.
- Vector2.AddThenSub: requires `out` and `a` to be different objects. With
  one object passed twice, `addVec` doubles it and `subVec` then zeroes it.
- World.World.EntitiesWithComponents: requires every listed component after
  the first to have a map. The world's TypeScript type guarantees this, and
  `get` on a missing map would throw.
- The systems require the maps they read by name. This is the same
  guarantee of the world's type that `world.components.x` relies on.
- World.World.CreateEntityFromComponents: requires the supplied component
  names to be distinct and each value to have its component's shape. Object
  keys are distinct, and the TypeScript types fix the shapes.
- `index.ts` keeps `entities` as an array of ids, while `systems.ts` walks
  the entity list as objects. The two old snapshots are modelled separately.
- In the old `JointSystem` the joint's endpoints are entity objects. The
  model uses array indices, so the object graph itself is not modelled.
- Canvas drawing, `PhysicsRender`, `CanvasRenderSystem`, `DebugPhysicsRender`
  and `DisplayVelocity` are left out: these are canvas calls and float
  formatting, with no physics state.
- The keyboard handlers and the key-driven `UserControl` systems outside the
  Flappy-bird demo are left out: they are DOM event input. The demo's
  `UserControl` takes the up key and `currentTime + delta` as parameters.
- Flappy-bird `DisplayScore` is left out: it formats a number as text.
- Flappy-bird `init`, image loading, `tick` and the `requestAnimationFrame`
  driver (including `world.currentTime += delta`) are left out: they are
  frame loops and I/O.
- The demo's `gameOver` closes over the module's own `world`. The model
  applies it to the world the system runs on, which is the same object at
  run time.
- `PIPES_COUNT` and `BACKGROUND_TILES_COUNT` are exact reals, not the float
  quotients.
- `Function.partial` in src/lib/utils.ts is left out: it is a higher-order
  helper no modelled code uses.
- `entityMovedEvent` is a map of boolean flags (`FlagVal(true)`).
- The `Acceleration`, `ApplyForce`, `ForceReset`, `Bounce`, `Gravity`,
  `Spring` and `DebugSpringRender` systems of src/lib/systems.ts and
  src/lib.ts are the same code as the modular ones. They share those models.
