# survivors-game core, modelled in Dafny

This project models the per-frame gameplay systems of a small top-down
survivors game built on the Bevy entity-component-system engine. Each system
is a method on one `Ecs.World`. The world holds the entities in query order,
one record of optional components per entity, and the game's resources: the
two spawn timers and the active enemy spawn list. Spawning and despawning go
through `World.SpawnAll` and `World.DespawnAll`, which apply the deferred
commands at once. Every system is proved against a specification function on
the records, and lemmas state the game's rules about those functions.

The modules follow the game's source files:

- `Collision` (collision.rs): the all-pairs overlap pass that rebuilds every
  collider's list of overlapping entities.
- `Movement` (movement.rs): velocity constructors, position integration, and
  pushing movers out of the level's walls, one collision event at a time.
- `HealthSystem` (health.rs): damage with a 0.25 s cooldown, one point per
  frame, saturating at zero; then the sweep that despawns dead entities.
- `Combat` (combat.rs): knockback. Push directions are summed, entities that
  are already knocked back are skipped, and the displacement is spread over
  0.1 s.
- `Levels` (levels.rs): the collider a level wall gets from its edge tags.
- `GameMap` (map.rs): the map's half extent, grid to world conversion, and
  the layout of the outer walls.
- `PlayerSystem` (player.rs): the player's start state, key steering, and
  the four-dagger volley.
- `Enemies` (enemies.rs): finding the single player, the bounded search for a
  spawn site with clamping, and spawning enemies from prototypes.
- `Ghosts` (ghost.rs): ghost stats, ghost spawning, and steering ghosts
  towards the player.
- `MenuScreen` (menu.rs): the Return-key state transitions and the blinking
  prompt text.
- `Geometry`, `Timers`, `Components` and `Ecs` support the rest. They cover
  vectors and rectangles with Bevy's `Rect` semantics, Bevy's `Timer`
  measured in nanoseconds, the component records, and the world class.

Positions and sizes are real numbers. `normalize_or_zero` is a parameter
`norm` of type `Normalizer`. It maps zero to zero and leaves the four unit
axis vectors unchanged, and nothing else is assumed about it. Randomness,
keyboard state, frame time and the level-file lookups are inputs: `delta` in
nanoseconds, the pressed or released keys, the five drawn offsets `draws`,
and the `toGrid` / `toWorld` conversions.

Where the code and the design description of the game disagree, the model
follows the code:

- `take_damage` takes exactly one point per frame. It does not subtract the
  attacker's collision damage. A player with 30 health therefore drops to 29,
  not 25, on a first hit.
- The damage cooldown lives inside `Health` as an optional one-shot timer.
  The timer is ticked every frame and reset on the next hit after it
  finishes. It is not a separate component that gets removed.
- Damage is triggered by the collider's overlap list, not by collision
  events.
- `knockback_collisions` gives every eligible receiver a knockback, even when
  no pusher contributes. The displacement is then zero, and it still blocks
  further knockback for 0.1 s.
- The player systems use `single_mut`, which panics when there is not exactly
  one player. They do not skip the frame, so the model requires a single
  player.
- The shown code has no greedy meshing of wall tiles. Each wall tile gets
  its own collider from its edge tags, and the last recognised tag wins.
- A ghost is spawned heading towards the world origin, not towards the
  player. `chase_player` steers it at the player from the next frame on.

## Model

| member | source | states |
|---|---|---|
| Geometry.Signum | src/movement.rs:87 | the sign is +1 or -1, it is -1 exactly for negative inputs, and sign times value is the absolute value, so equal centres push positive |
| Geometry.NonEmptyIntersection | src/collision.rs:42 | a rectangle intersection is non-empty exactly when the rectangles overlap with positive extent on both axes |
| Geometry.OverlapIffCentred | src/collision.rs:32-42 | two centre/size rectangles intersect exactly when, on each axis, their centres are closer than half their summed sizes |
| Geometry.TouchingDoesNotOverlap | src/collision.rs:40-44 | rectangles that only share an edge have an empty intersection |
| Geometry.IntersectCommutes | src/collision.rs:40-44 | the intersection does not depend on argument order, which makes overlap symmetric |
| Geometry.CenterOfCentred | src/movement.rs:87 | a rectangle built from a centre and a size has that centre |
| Timers.Tick | src/health.rs:50-52 | ticking keeps the duration and mode; a finished one-shot timer stays put; otherwise the timer is finished exactly when elapsed plus delta reaches the duration |
| Timers.Reset | src/health.rs:55-57 | a reset timer has zero elapsed time and is not finished |
| Timers.NewTimerValid | src/health.rs:58-61 | a new timer of positive duration is in a state ticking can produce |
| Timers.TickValid | src/health.rs:50-52 | ticking keeps a timer within its duration, a repeating one strictly before it, and a one-shot finished exactly at it |
| Timers.RepeatingJustFinished | src/player.rs:91-92 | a repeating timer just finishes exactly when elapsed plus delta reaches its period, and keeps the remainder |
| Timers.OnceJustFinished | src/combat.rs:32-35 | a one-shot timer just finishes exactly when it was unfinished and elapsed plus delta reaches its duration |
| Components.NewCollider | src/collision.rs:20-25 | a new collider has the given size, no offset and an empty overlap list |
| Components.ColliderWithOffset | src/levels.rs:42-45 | a wall collider has the given size and offset and an empty overlap list |
| Components.ToRectAt | src/movement.rs:76-77 | the world rectangle is centred at the translation's x and y plus the offset, with the collider's width and height |
| Components.NewHealth | src/health.rs:36-41 | new health has the given amount and no cooldown |
| Ecs.World.constructor | src/ghost.rs:57-61 | a new world is empty, with both spawn timers as fresh repeating 0.5 s timers and the given spawn list |
| Ecs.World.SpawnAll | src/map.rs:50-62 | spawning appends fresh ids after all existing entities, gives them the bundles in order, and keeps every other record |
| Ecs.World.DespawnAll | src/health.rs:73-78 | despawning drops exactly the doomed entities from the order and the records, and keeps every other record |
| Ecs.KeptInOrder | src/health.rs:73-78 | the surviving entities are exactly the undoomed ones, in their previous order |
| Ecs.WithoutMembers | src/health.rs:73-78 | an entity stays in the order after despawning exactly when it was there and is not doomed |
| Collision.DetectCollisions | src/collision.rs:28-52 | after detection every record equals the all-pairs specification `Detect` of the old records |
| Collision.FindOverlaps | src/collision.rs:29-46 | the detection loop records, for each detectable entity, exactly its overlap list in query order |
| Collision.PushOverlaps | src/collision.rs:34-45 | the inner loop appends the entity's overlaps to its own list and leaves every other list alone |
| Collision.PushIfOverlaps | src/collision.rs:35-44 | one inner step pushes the visited entity onto the list exactly when it is another entity whose rectangle overlaps, touching no other list |
| Collision.RecordOverlaps | src/collision.rs:48-51 | the record loop overwrites each collider's list with the found list, or with an empty one |
| Collision.OverlapListMembers | src/collision.rs:31-45 | an entity is in A's overlap list exactly when it is in the query and collides with A |
| Collision.OverlapListDistinct | src/collision.rs:31-45 | an overlap list built from a query without repeats has no repeats |
| Collision.DetectMembership | src/collision.rs:32-44 | B is in A's list exactly when B is a different detectable entity whose centre/size rectangle at its xy translation overlaps A's; z is ignored |
| Collision.DetectNeverSelf | src/collision.rs:35-38 | no entity is in its own list |
| Collision.DetectSymmetric | src/collision.rs:31-46 | B is in A's list exactly when A is in B's list |
| Collision.DetectNoDuplicates | src/collision.rs:31-45 | each list holds every entity at most once |
| Collision.DetectDiscardsStale | src/collision.rs:49-51 | a collider that overlaps nothing ends with an empty list, whatever it held before |
| Collision.DetectWritesOnlyCollisions | src/collision.rs:48-51 | detection keeps the set of entities and changes only the overlap lists of colliders |
| Collision.TouchingBoxesDoNotCollide | src/collision.rs:40-44 | two 10 x 10 boxes ten units apart do not see each other |
| Movement.FromDirectionSpeed | src/movement.rs:19-23 | a zero direction gives zero velocity, and a unit axis direction gives that axis times the speed |
| Movement.NewVelocity | src/movement.rs:25-29 | the velocity has the given x and y and zero z |
| Movement.UpdatePosition | src/movement.rs:56-60 | every translation grows by velocity times the frame's seconds |
| Movement.IntegrateFrame | src/movement.rs:56-60 | integration keeps the entity set, changes only translations, and leaves entities without a velocity alone |
| Movement.IntegrateAdditive | src/movement.rs:56-60 | two frames of integration equal one frame of their summed time |
| Movement.PushVector | src/movement.rs:82-87 | the push has at most one non-zero axis |
| Movement.ContainStep | src/movement.rs:68-88 | one event changes only its subject's record and keeps the entity set |
| Movement.Contain | src/movement.rs:67-88 | handling a list of events keeps the entity set |
| Movement.KeepInsideWalls | src/movement.rs:62-90 | the records after the system equal the events applied one after another, in order |
| Movement.HandleEvent | src/movement.rs:67-88 | one event changes the records exactly as the containment step says |
| Movement.PushAlongSmallerAxis | src/movement.rs:82-86 | the push is along x by the overlap width when the width is smaller, and otherwise along y by the overlap height, so ties go vertical |
| Movement.PushAwayFromWall | src/movement.rs:87 | each push component points from the wall's centre towards the mover's centre |
| Movement.NoOverlapNoPush | src/movement.rs:76-88 | rectangles that no longer overlap produce a zero push |
| Movement.PushSeparatesAlongX | src/movement.rs:82-88 | a sideways push leaves a mover that overlapped one side of the wall only touching it |
| Movement.PushSeparatesAlongY | src/movement.rs:82-88 | a vertical push leaves a mover that overlapped the top or bottom of the wall only touching it |
| Movement.ContainStepMovesOneAxis | src/movement.rs:82-88 | an event moves its subject along at most one of x and y, never along z, and changes nothing else |
| Movement.ContainStepMovesRect | src/movement.rs:76-88 | the subject's rectangle moves by exactly the push computed from its rectangle and the wall's |
| Movement.ContainConcat | src/movement.rs:67-88 | handling two event lists in a row is handling their concatenation, so later events see earlier corrections |
| Movement.ContainSkipsUnrelated | src/movement.rs:68-74 | events whose subject is not a non-wall mover of the role, or whose object is not a wall collider, change nothing |
| HealthSystem.LoseOne | src/health.rs:68 | zero stays zero and anything else drops by exactly one |
| HealthSystem.HitIff | src/health.rs:53 | a hit is registered exactly when some overlap entry is an entity with the attacker marker and a collider |
| HealthSystem.DamageStep | src/health.rs:49-70 | health drops by at most one, not at all without a hit, and a cooldown is present afterwards exactly when one was or a hit happened; without a hit a present cooldown is ticked and nothing else changes |
| HealthSystem.DamageStepKeepsCooldownValid | src/health.rs:50-65 | a damage cooldown stays a timer that ticking can produce, with a positive duration, hit or not |
| HealthSystem.DamageAllFrame | src/health.rs:44-71 | the system keeps the entity set, writes only health, only of its subjects, and takes at most one point from each |
| HealthSystem.AnyAttacker | src/health.rs:53 | the `any` loop returns exactly whether some overlap entry is an attacker |
| HealthSystem.TakeDamage | src/health.rs:44-71 | the records after the system equal the per-entity damage specification of the old records |
| HealthSystem.DamageRecord | src/health.rs:49-69 | one subject's record after the loop body matches the specification |
| HealthSystem.ApplyHit | src/health.rs:50-68 | the cooldown state machine on one health value matches the damage step |
| HealthSystem.FirstHitStartsCooldown | src/health.rs:58-68 | a hit with no cooldown costs one point and installs a fresh one-shot 0.25 s timer |
| HealthSystem.HitAfterCooldownDamages | src/health.rs:50-68 | a hit when the cooldown is, or becomes, finished costs one point and resets the timer |
| HealthSystem.CooldownBlocksDamage | src/health.rs:50-65 | a hit while the cooldown is still running costs nothing and only advances the timer |
| HealthSystem.ContactDuringCooldown | src/health.rs:50-65 | any number of contact frames inside a running cooldown cost nothing and only advance the timer |
| HealthSystem.ContactCostsOnePerCooldown | src/health.rs:27-68 | continuous contact costs exactly one point over the first 0.25 s |
| HealthSystem.InContactPrefix | src/health.rs:44-71 | contact over two runs of frames equals contact over their concatenation |
| HealthSystem.CollectDead | src/health.rs:73-78 | the sweep loop collects exactly the entities whose health is zero |
| HealthSystem.DespawnDeadEntities | src/health.rs:73-78 | the sweep removes exactly the entities with zero health from the order and the records |
| HealthSystem.DespawnExact | src/health.rs:73-78 | after the sweep no dead entity remains, and every survivor keeps its record |
| HealthSystem.ProcessCombat | src/health.rs:14-23 | the chained systems run player-by-ghost damage, then ghost-by-dagger damage, then the sweep; the new query order is the old one without the entities those two damage passes left at zero health |
| HealthSystem.OnePointPerStep | src/health.rs:14-23 | a ghost with more than one health survives a frame and loses at most one point, however many daggers hit it |
| Combat.PushDirection | src/combat.rs:47-52 | the direction loop returns the sum of own translation minus the other's over the pusher entries |
| Combat.PushSumStep | src/combat.rs:48-51 | extending the list by one entry adds exactly that entry's contribution |
| Combat.KnockbackRecord | src/combat.rs:46-56 | one entity's record after the loop body matches the specification |
| Combat.KnockbackCollisions | src/combat.rs:41-58 | the records after the system equal the knockback specification of the old records |
| Combat.KnockbackAllFrame | src/combat.rs:41-58 | the system keeps the entity set, leaves entities that already have a knockback alone, and gives each receiver a fresh one-shot 0.1 s knockback of the normalised sum times 32 |
| Combat.PushSumConcat | src/combat.rs:47-52 | the direction over two lists is the sum of the directions over each |
| Combat.PushSumIgnoresOthers | src/combat.rs:48-51 | entries that are not pushers contribute nothing |
| Combat.ZeroKnockbackBlocks | src/combat.rs:43-56 | a receiver with no pusher still gets a zero-displacement knockback, and a second run does not replace it |
| Combat.PushedAwayAlongX | src/combat.rs:47-56 | a receiver one unit to the right of its only pusher is knocked 32 units to the right |
| Combat.KnockRecord | src/combat.rs:31-37 | one entity's knockback step matches the specification |
| Combat.KnockStepKeepsTimerValid | src/combat.rs:31-37 | a knockback timer stays a valid one-shot timer, and one ticked and kept this frame has not finished |
| Combat.ApplyKnockback | src/combat.rs:26-39 | the records after the system equal the knockback step applied to every entity |
| Combat.KnockStepEffect | src/combat.rs:31-37 | the timer ticks, the translation moves by the displacement times the frame's share of the duration, and the knockback is removed exactly when the timer finishes |
| Combat.ApplyAllFrame | src/combat.rs:26-39 | the system keeps the entity set and leaves entities without knockback or translation alone |
| Combat.MoveTwice | src/combat.rs:33-34 | moving by two shares of a displacement is moving by their sum |
| Combat.FractionAdd | src/combat.rs:33-34 | the shares of two frames add up to the share of their summed time |
| Combat.TravelSoFar | src/combat.rs:26-39 | while the knockback has not finished, the entity has moved by the displacement times elapsed time over the duration |
| Levels.InsertTagColliders | src/levels.rs:39-66 | the tag loop ends with the collider of the last recognised tag, or the old collider when no tag is recognised |
| Levels.AddWallColliders | src/levels.rs:35-69 | only newly added level walls with tile tags get a collider, chosen by their tags |
| Levels.EdgeTable | src/levels.rs:41-64 | left and right give a 6 x 16 collider offset by -2 and +2 in x, and top and bottom give a 16 x 12 collider offset by +4 and -4 in y |
| Levels.NoRecognisedTag | src/levels.rs:39-67 | there is no collider exactly when no tag is recognised |
| Levels.LastColliderWins | src/levels.rs:39-67 | a collider comes from a recognised tag followed only by unrecognised ones |
| Levels.UnrecognisedTagsIgnored | src/levels.rs:65 | unrecognised tags change nothing |
| Levels.LeftThenTop | src/levels.rs:39-67 | a tile tagged left then top gets the top collider |
| Levels.WithWallCollidersIdempotent | src/levels.rs:35-69 | running the system twice over the same walls equals running it once |
| GameMap.Half | src/map.rs:25 | integer halving truncates towards zero |
| GameMap.DefaultHalfExtent | src/map.rs:10-26 | the 100 x 75 map has half extent 50 x 37 |
| GameMap.GridToWorldInjective | src/map.rs:33-35 | distinct cells map to distinct world positions, all at depth -1 |
| GameMap.OuterWallPlacements | src/map.rs:38-91 | the two nested loops list exactly the walls of the layout specification, in spawn order |
| GameMap.HorizontalPlacements | src/map.rs:40-63 | the horizontal loop lists a wall top on the lowest row and a wall face on the highest, column by column |
| GameMap.VerticalPlacements | src/map.rs:64-90 | the vertical loop lists a left wall on the lowest column and a right wall on the highest, row by row |
| GameMap.WallBundles | src/map.rs:50-62 | one outer-wall entity per placement, in order |
| GameMap.AddOuterWalls | src/map.rs:38-91 | the system spawns exactly the outer walls, with fresh ids, after all existing entities |
| GameMap.HorizontalLength | src/map.rs:41-64 | the horizontal loop spawns two walls per column |
| GameMap.VerticalLength | src/map.rs:66-90 | the vertical loop spawns two walls per row |
| GameMap.OuterWallCount | src/map.rs:38-91 | the layout has 2(2hx+1) + 2(2hy+1) walls, 352 for the default map |
| GameMap.HorizontalMembers | src/map.rs:41-64 | a horizontal wall is a wall top at row -hy or a wall face at row hy, in a column from -hx to hx |
| GameMap.VerticalMembers | src/map.rs:66-90 | a vertical wall is a left wall at column -hx or a right wall at column hx, in a row from -hy to hy |
| GameMap.HorizontalCountAt | src/map.rs:41-64 | the horizontal walls put one wall on each cell of the top and bottom rows and none elsewhere |
| GameMap.VerticalCountAt | src/map.rs:66-90 | the vertical walls put one wall on each cell of the left and right columns and none elsewhere |
| GameMap.CornersGetTwoWalls | src/map.rs:38-91 | each corner cell gets two walls, and every other border cell gets one |
| PlayerSystem.SpawnPlayer | src/player.rs:39-57 | spawning the player appends one fresh entity with the player's start record |
| PlayerSystem.SpawnedPlayerStats | src/player.rs:39-57 | the player starts at the origin, at rest, with 30 health, a 16 x 16 collider and a repeating 1 s weapon timer, and is then the only player |
| PlayerSystem.PlayerDirection | src/player.rs:60-77 | the key loop returns the summed direction of the pressed keys |
| PlayerSystem.DirectionCounts | src/player.rs:60-77 | the direction is right keys minus left keys along x, up keys minus down keys along y, and zero along z |
| PlayerSystem.BalancedKeysStop | src/player.rs:59-82 | balanced or no movement keys stop the player |
| PlayerSystem.OneKeyMoves | src/player.rs:59-82 | one movement key moves the player at 50 along that key's axis |
| PlayerSystem.PlayerMovement | src/player.rs:59-82 | only the player's velocity changes, to the normalised key direction times 50 |
| PlayerSystem.DaggerVolley | src/player.rs:93-115 | the dagger loop builds one dagger per direction, up, left, down and right |
| PlayerSystem.VolleyLayout | src/player.rs:93-115 | four daggers, each 16 units from the player along its direction, flying outward at 25, with an 8 x 13 collider, 1 health and 5 damage |
| PlayerSystem.ThrowWeapon | src/player.rs:84-117 | the weapon timer ticks, and a volley is spawned at the player's position only in a frame where it just finished |
| PlayerSystem.ThrowsOncePerPeriod | src/player.rs:91-92 | with the repeating 1 s timer, four daggers are thrown exactly in frames that carry the timer past its period, and none otherwise |
| Enemies.Players | src/enemies.rs:179-183 | every entity the player query yields has the player marker and a transform |
| Enemies.FindSinglePlayer | src/enemies.rs:179-183 | `get_single` returns the player when the query matches exactly one entity, and nothing otherwise |
| Enemies.PlayersMembers | src/enemies.rs:179-183 | the query yields exactly the entities with the player marker and a transform |
| Enemies.NoPlayers | src/enemies.rs:179-183 | with no such entity the query is empty |
| Enemies.SinglePlayerIff | src/enemies.rs:179-183 | `get_single` returns p exactly when p is a located player and no other entity is one |
| Enemies.Clamp | src/enemies.rs:197-200 | a clamped value lies in the bounds, a value already inside is unchanged, and one outside goes to the nearer bound |
| Enemies.FirstSite | src/enemies.rs:186-207 | a found site is a spawn cell within [0, width] x [0, height] |
| Enemies.PickSpawnLocation | src/enemies.rs:152-208 | the retry loop returns nothing for a level without spawn cells, and otherwise the first clamped candidate that is a spawn cell |
| Enemies.FirstSiteIsFirst | src/enemies.rs:186-207 | the search fails exactly when no candidate is a spawn cell, and otherwise returns the earliest candidate that is one |
| Enemies.CandidateInsideUnclamped | src/enemies.rs:196-200 | a candidate already inside the level is tried as drawn |
| Enemies.MatchPrototypes | src/enemies.rs:129-148 | the prototype loop builds one enemy per prototype with the requested identifier, in prototype order |
| Enemies.EnemiesForCount | src/enemies.rs:129-148 | there are as many enemies as prototypes with the requested identifier |
| Enemies.EnemiesForMembers | src/enemies.rs:129-148 | an enemy is spawned exactly for each prototype with the requested identifier, as that prototype's bundle |
| Enemies.SpawnEnemy | src/enemies.rs:102-150 | the timer ticks; when it just finished, the last pending identifier is popped and its enemies are spawned at depth 100 on the found site |
| Enemies.NoSpawnBeforeTimer | src/enemies.rs:114-117 | before the 0.5 s timer reaches its period nothing is spawned and no identifier is used |
| Enemies.NoPendingNoSpawn | src/enemies.rs:115-117 | with no pending identifier nothing is spawned |
| Enemies.FailedSearchConsumesId | src/enemies.rs:115-127 | when the timer fires but no candidate is a spawn cell, the identifier is used up and nothing is spawned |
| Ghosts.GhostBundle | src/ghost.rs:34-49 | a ghost has a 16 x 16 collider, 5 damage, 10 health with no cooldown, and speed 30 along its direction |
| Ghosts.SpawnGhost | src/ghost.rs:72-143 | the ghost timer ticks, and at most one ghost is spawned on the first free candidate, heading towards the world origin |
| Ghosts.GhostSpawnRules | src/ghost.rs:84-141 | at most one ghost per run, none before the timer fires or without spawn cells, and a spawned ghost stands on a spawn cell inside the level at depth 0 |
| Ghosts.GhostOnFirstFreeCandidate | src/ghost.rs:114-141 | when the timer fires, the ghost is placed on the earliest candidate that is a spawn cell |
| Ghosts.ChaseRecord | src/ghost.rs:152-155 | one ghost's velocity turns towards the target at speed 30, and other entities are unchanged |
| Ghosts.ChaseAll | src/ghost.rs:151-156 | the query loop steers every visited ghost towards the target and leaves every other record as it was |
| Ghosts.ChasePlayer | src/ghost.rs:145-156 | the records after the system equal the chase specification |
| Ghosts.ChaseRules | src/ghost.rs:145-156 | with one player only ghost velocities change; a ghost on the player stops, and one a unit to its left moves right at 30 |
| Ghosts.NoPlayerNoChase | src/ghost.rs:149-151 | with no player, chasing changes nothing |
| MenuScreen.NewBlinking | src/menu.rs:33-37 | a blinking text starts inherited-visible with a fresh repeating 0.5 s timer |
| MenuScreen.ReturnTarget | src/menu.rs:93-97 | Return targets a state exactly on the menu screens: InGame from Menu and Menu from GameOver |
| MenuScreen.HandleMenuInput | src/menu.rs:86-100 | the key loop sets the pending state exactly as the transition specification says |
| MenuScreen.ReturnTransitions | src/menu.rs:91-98 | releasing Return in Menu goes to InGame and in GameOver goes to Menu; Return while playing, or no Return, leaves the pending state alone |
| MenuScreen.Toggle | src/menu.rs:105-108 | a toggle always changes visibility, and the result is hidden exactly when the text was not hidden |
| MenuScreen.BlinkText | src/menu.rs:102-111 | every blinking text, updated in place, takes exactly one blink step |
| MenuScreen.ToggleTwice | src/menu.rs:105-108 | two toggles return visible or hidden text to where it was, and inherited text to visible |
| MenuScreen.BlinksOncePerPeriod | src/menu.rs:102-110 | a text toggles exactly in frames that carry its 0.5 s timer past the period, and keeps its visibility otherwise |
| MenuScreen.MenuFrame | src/menu.rs:14-17 | input handling and blinking run only in Menu and GameOver, and change nothing while playing |

## Left out

- Normalisation: `normalize_or_zero` and its square root are an abstract `Normalizer`. Only zero and the four unit axis vectors have known results, so velocities and knockbacks along other directions are not computed.
- Floating point: positions, sizes and seconds are exact reals. f32 rounding is not modelled.
- Timers.Tick: Bevy's `u32` wrap of `times_finished_this_tick` is not modelled, because only "at least once" is ever read.
- Randomness: the random angle and its projection onto a square in `pick_spawn_location` and `spawn_ghost` are replaced by five given integer offsets, `draws`.
- Level-file lookups: `translation_to_grid_coords`, `grid_coords_to_translation`, the level and layer lookup, `SpawnLocations::for_level` and `ActiveSpawnList::pop_spawn` are inputs or plain values. The spawn list pops its last element, as `Vec::pop` does.
- Enemies.SpawnEnemy: the enemy prototypes are given as a sequence. `From<&EntityInstance>` only copies the identifier, and the `from_entity_instance` conversions for the other components are not part of this model.
- Enemy `chase_player` (src/enemies.rs:210-222): `Facing` and `Velocity::change_direction` are not defined in movement.rs as shown, so this system is not modelled.
- `cleanup_enemy_prototypes`, sprites, textures, dagger rotation, menu and game-over layout and their cleanup: presentation only.
- PlayerSystem.SpawnPlayer: `Health::with_damage_cooldown` is not in health.rs as shown, so the cooldown it sets up is a parameter.
- PlayerSystem.PlayerMovement and PlayerSystem.ThrowWeapon require exactly one player, because `single_mut` panics otherwise. The panic itself is not modelled.
- Enemies.PickSpawnLocation requires a non-negative level width and height, because `i32::clamp` panics otherwise. It also requires exactly five draws.
- Combat.KnockStepEffect: a knockback timer of zero duration would divide by zero in f32. The model takes that frame's share as 0 instead.
- Bevy's scheduler, deferred commands and `Added<>` change detection: each system is a method on the world, spawns and despawns apply at its end, and `Added<Wall>` is an explicit set of new entities.
- `despawn_recursive`: the model has no parent-child hierarchy, so despawning removes just the entity.
- The `main.rs`, `camera.rs`, `asset_loader.rs` and `schedule.rs` wiring: there is no logic to state beyond system order, and `HealthSystem.ProcessCombat` follows that order.
- Components.ToRectAt: `Collider::to_rect_at` is not defined in the source files. It is modelled as the rectangle centred at the translation's x and y plus the collider's offset, with the collider's size.
- Geometry.FromCenterSize: Bevy's `Rect::from_center_size` asserts a non-negative size and panics otherwise. The model builds a rectangle from any size and does not model that panic. Every collider the game builds has a positive size.
- Integer width: `i32` overflow in `grid_to_world` and `u32` health are unbounded integers here. Health only decreases, and map coordinates are small.
