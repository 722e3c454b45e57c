/// Ghosts (ghost.rs): spawned every 0.5 s on a free spawn cell near the
/// player, heading towards the world origin, and steered towards the player
/// every frame.
module Ghosts {
  import opened Geometry
  import opened Components
  import opened Timers
  import Movement
  import Enemies
  import Ecs

  const GhostSpeed: real := 30.0
  const GhostSize := Vec2(16.0, 16.0)
  const GhostDamage: nat := 5
  const GhostHealth: nat := 10

  /// `GhostBundle::new`: a ghost at `spawnAt`, moving along `direction` at
  /// the ghost speed.
  function GhostBundle(spawnAt: Vec3, direction: Vec3, norm: Normalizer): (c: Components)
    ensures c.collider == Some(Collider(Vec2(16.0, 16.0), Zero2, []))
    ensures c.damage == Some(5) && c.health == Some(Health(10, None))
    ensures c.translation == Some(spawnAt) && c.tags == {Ghost}
    ensures c.velocity == Some(Movement.FromDirectionSpeed(norm, direction, 30.0))
  {
    Bare.(translation := Some(spawnAt),
          collider := Some(NewCollider(GhostSize)),
          damage := Some(GhostDamage),
          health := Some(NewHealth(GhostHealth)),
          velocity := Some(Movement.FromDirectionSpeed(norm, direction, GhostSpeed)),
          tags := {Ghost})
  }

  // ---------------------------------------------------------------------
  // spawn_ghost

  /// The ghosts one run of `spawn_ghost` spawns after ticking its timer to
  /// `ticked`: one on the first candidate that is a spawn cell, heading from
  /// there towards the world origin, or none.
  function GhostsSpawned(ticked: Timer, level: Enemies.Level, origin: IVec2, draws: seq<IVec2>,
                         toWorld: IVec2 -> Vec2, norm: Normalizer): seq<Components>
    requires level.width >= 0 && level.height >= 0
  {
    if !JustFinished(ticked) then []
    else match Enemies.SiteFor(level, origin, draws)
      case None => []
      case Some(cell) =>
        var spot := Extend(toWorld(cell), 0.0);
        [GhostBundle(spot, Sub3(Zero3, spot), norm)]
  }

  /// `spawn_ghost`. The level lookups are the `level`, `toGrid` and `toWorld`
  /// inputs; the random offsets of the five attempts are `draws`.
  method SpawnGhost(w: Ecs.World, delta: nat, level: Enemies.Level, toGrid: Vec2 -> IVec2, toWorld: IVec2 -> Vec2,
                    draws: seq<IVec2>, norm: Normalizer)
    requires w.Valid() && level.width >= 0 && level.height >= 0 && |draws| == Enemies.Attempts
    modifies w`ghostSpawnTimer, w`order, w`entities, w`nextId
    ensures w.Valid()
    ensures w.ghostSpawnTimer == Tick(old(w.ghostSpawnTimer), delta)
    ensures var spawned := GhostsSpawned(w.ghostSpawnTimer, level, Enemies.PlayerOrigin(old(w.order), old(w.entities), toGrid),
                                         draws, toWorld, norm);
      && w.order == old(w.order) + Ecs.FreshIds(old(w.nextId), |spawned|)
      && w.entities == Ecs.WithSpawned(old(w.entities), old(w.nextId), spawned)
  {
    w.ghostSpawnTimer := Tick(w.ghostSpawnTimer, delta);
    if JustFinished(w.ghostSpawnTimer) {
      var player := Enemies.FindSinglePlayer(w.order, w.entities);
      var origin := if player.Some? then toGrid(Truncate(w.entities[player.value].translation.value)) else toGrid(Zero2);
      var site := Enemies.PickSpawnLocation(level, origin, draws);
      if site.Some? {
        var spawnSpot := toWorld(site.value);
        var direction := Sub3(Zero3, Extend(spawnSpot, 0.0));
        w.SpawnAll([GhostBundle(Extend(spawnSpot, 0.0), direction, norm)]);
        return;
      }
    }
    w.SpawnAll([]);
  }

  /// At most one ghost per run; none unless the timer just finished or when
  /// the level has no spawn cells; a spawned ghost stands on a spawn cell
  /// within the level's bounds, at depth 0, heading towards the world origin.
  lemma GhostSpawnRules(ticked: Timer, level: Enemies.Level, origin: IVec2, draws: seq<IVec2>,
                        toWorld: IVec2 -> Vec2, norm: Normalizer)
    requires level.width >= 0 && level.height >= 0
    ensures var spawned := GhostsSpawned(ticked, level, origin, draws, toWorld, norm);
      && |spawned| <= 1
      && (!JustFinished(ticked) || level.spawns.None? ==> spawned == [])
      && (|spawned| == 1 ==>
            exists cell :: cell in level.spawns.value && 0 <= cell.x <= level.width && 0 <= cell.y <= level.height
              && spawned[0].translation == Some(Vec3(toWorld(cell).x, toWorld(cell).y, 0.0))
              && spawned[0].velocity == Some(Movement.FromDirectionSpeed(norm, Vec3(-toWorld(cell).x, -toWorld(cell).y, 0.0), 30.0)))
  {
    var spawned := GhostsSpawned(ticked, level, origin, draws, toWorld, norm);
    if |spawned| == 1 {
      var cell := Enemies.SiteFor(level, origin, draws).value;
      assert Sub3(Zero3, Extend(toWorld(cell), 0.0)) == Vec3(-toWorld(cell).x, -toWorld(cell).y, 0.0);
    }
  }

  /// When the timer fires, the ghost is spawned on the first candidate that
  /// is a spawn cell.
  lemma GhostOnFirstFreeCandidate(ticked: Timer, level: Enemies.Level, origin: IVec2, draws: seq<IVec2>,
                                  toWorld: IVec2 -> Vec2, norm: Normalizer, i: nat)
    requires level.width >= 0 && level.height >= 0 && JustFinished(ticked) && level.spawns.Some?
    requires i < |draws| && Enemies.Candidate(origin, draws[i], level.width, level.height) in level.spawns.value
    requires forall j :: 0 <= j < i ==> Enemies.Candidate(origin, draws[j], level.width, level.height) !in level.spawns.value
    ensures GhostsSpawned(ticked, level, origin, draws, toWorld, norm) ==
      var spot := Extend(toWorld(Enemies.Candidate(origin, draws[i], level.width, level.height)), 0.0);
      [GhostBundle(spot, Sub3(Zero3, spot), norm)]
  {
    var sites := level.spawns.value;
    Enemies.FirstSiteIsFirst(sites, origin, draws, level.width, level.height);
    var r := Enemies.FirstSite(sites, origin, draws, level.width, level.height);
    var k :| 0 <= k < |draws| && r == Some(Enemies.Candidate(origin, draws[k], level.width, level.height)) &&
      forall j :: 0 <= j < k ==> Enemies.Candidate(origin, draws[j], level.width, level.height) !in sites;
    assert k == i;
  }

  // ---------------------------------------------------------------------
  // chase_player

  /// Entities the ghost query visits: ghosts with a velocity and a transform.
  predicate IsChaser(c: Components) {
    Ghost in c.tags && c.velocity.Some? && c.translation.Some?
  }

  /// One record after `chase_player` towards `target`: a ghost's velocity
  /// points at the target at the ghost speed.
  function ChaseOne(c: Components, target: Vec3, norm: Normalizer): Components {
    if IsChaser(c)
    then c.(velocity := Some(Movement.FromDirectionSpeed(norm, Sub3(target, c.translation.value), GhostSpeed)))
    else c
  }

  /// The records after `chase_player`: with a single located player, every
  /// ghost's velocity points at the player at the ghost speed; otherwise
  /// nothing changes.
  function Chased(order: seq<Entity>, ents: map<Entity, Components>, norm: Normalizer): map<Entity, Components> {
    match Enemies.SinglePlayer(order, ents)
    case None => ents
    case Some(p) => map e | e in ents :: ChaseOne(ents[e], ents[p].translation.value, norm)
  }

  /// One entity's record after `chase_player` towards `target`.
  method ChaseRecord(ents: map<Entity, Components>, e: Entity, target: Vec3, norm: Normalizer) returns (c: Components)
    requires e in ents
    ensures c == ChaseOne(ents[e], target, norm)
  {
    c := ents[e];
    if Ghost in c.tags && c.velocity.Some? && c.translation.Some? {
      var direction := Sub3(target, c.translation.value);
      c := c.(velocity := Some(Scale3(norm(direction), GhostSpeed)));
    }
  }

  /// The query loop of `chase_player`: every record visited in `order` is
  /// steered towards `target`.
  method ChaseAll(order: seq<Entity>, ents: map<Entity, Components>, target: Vec3, norm: Normalizer)
    returns (r: map<Entity, Components>)
    requires forall e :: e in ents <==> e in order
    ensures r == map e | e in ents :: ChaseOne(ents[e], target, norm)
  {
    r := ents;
    for k := 0 to |order|
      invariant r.Keys == ents.Keys
      invariant forall e | e in ents :: r[e] == if e in order[..k] then ChaseOne(ents[e], target, norm) else ents[e]
    {
      var e := order[k];
      assert order[..k + 1] == order[..k] + [e];
      var c := ChaseRecord(ents, e, target, norm);
      r := r[e := c];
    }
    assert order[..|order|] == order;
  }

  /// `chase_player`.
  method ChasePlayer(w: Ecs.World, norm: Normalizer)
    requires w.Valid()
    modifies w`entities
    ensures w.Valid()
    ensures w.entities == Chased(w.order, old(w.entities), norm)
  {
    var player := Enemies.FindSinglePlayer(w.order, w.entities);
    if player.None? {
      return;
    }
    var target := w.entities[player.value].translation.value;
    w.entities := ChaseAll(w.order, w.entities, target, norm);
  }

  /// Without exactly one located player, chasing changes nothing; with one,
  /// only ghost velocities change, a ghost on the player's position stops,
  /// and a ghost one unit to the player's left moves right at 30.
  lemma ChaseRules(order: seq<Entity>, ents: map<Entity, Components>, norm: Normalizer, p: Entity)
    requires Enemies.SinglePlayer(order, ents) == Some(p)
    ensures Chased(order, ents, norm).Keys == ents.Keys
    ensures forall e | e in ents :: Chased(order, ents, norm)[e] == ents[e].(velocity := Chased(order, ents, norm)[e].velocity)
    ensures forall e | e in ents && !IsChaser(ents[e]) :: Chased(order, ents, norm)[e] == ents[e]
    ensures forall e | e in ents && IsChaser(ents[e]) && ents[e].translation == ents[p].translation ::
      Chased(order, ents, norm)[e].velocity == Some(Zero3)
    ensures forall e | e in ents && IsChaser(ents[e]) && Add3(ents[e].translation.value, UnitX) == ents[p].translation.value ::
      Chased(order, ents, norm)[e].velocity == Some(Vec3(30.0, 0.0, 0.0))
  {
    var target := ents[p].translation.value;
    forall e | e in ents && IsChaser(ents[e]) && Add3(ents[e].translation.value, UnitX) == target
      ensures Chased(order, ents, norm)[e].velocity == Some(Vec3(30.0, 0.0, 0.0))
    {
      assert Sub3(target, ents[e].translation.value) == UnitX;
    }
    forall e | e in ents && IsChaser(ents[e]) && ents[e].translation == ents[p].translation
      ensures Chased(order, ents, norm)[e].velocity == Some(Zero3)
    {
      assert Sub3(target, ents[e].translation.value) == Zero3;
    }
  }

  /// With no player at all, chasing is a no-op.
  lemma NoPlayerNoChase(order: seq<Entity>, ents: map<Entity, Components>, norm: Normalizer)
    requires forall e | e in order :: !Enemies.IsLocatedPlayer(ents, e)
    ensures Chased(order, ents, norm) == ents
  {
    Enemies.NoPlayers(order, ents);
  }
}
