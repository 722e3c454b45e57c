/// Enemy spawning (enemies.rs): every time the spawn timer fires, one pending
/// enemy identifier is taken from the active spawn list, a spawn site is
/// searched near the player, and the enemy prototypes with that identifier are
/// copied there. The site search is shared with ghost spawning.
module Enemies {
  import opened Geometry
  import opened Components
  import opened Timers
  import Ecs

  /// Five candidate cells are tried before giving up.
  const Attempts: nat := 5

  /// Enemies are drawn at depth 100.
  const EnemyDepth: real := 100.0

  /// What the level lookups yield: the level's spawn cells, if it has any, and
  /// the width and height of its first layer in cells.
  datatype Level = Level(spawns: Option<set<IVec2>>, width: int, height: int)

  /// An enemy prototype entity: its identifier and the components copied
  /// into every enemy spawned from it.
  datatype Prototype = Prototype(identifier: string, collider: Collider, damage: nat, health: Health, velocity: Vec3)

  // ---------------------------------------------------------------------
  // The player's position, when there is exactly one player

  /// Entities the player query matches: the Player marker and a transform.
  predicate IsLocatedPlayer(ents: map<Entity, Components>, e: Entity) {
    e in ents && Player in ents[e].tags && ents[e].translation.Some?
  }

  /// The entities of `order` the player query matches, in order.
  function Players(order: seq<Entity>, ents: map<Entity, Components>): (r: seq<Entity>)
    ensures forall i :: 0 <= i < |r| ==> IsLocatedPlayer(ents, r[i])
  {
    if order == [] then []
    else Players(order[..|order| - 1], ents) + (if IsLocatedPlayer(ents, order[|order| - 1]) then [order[|order| - 1]] else [])
  }

  /// `get_single` on the player query: the player when there is exactly one.
  function SinglePlayer(order: seq<Entity>, ents: map<Entity, Components>): Option<Entity> {
    var ps := Players(order, ents);
    if |ps| == 1 then Some(ps[0]) else None
  }

  /// `get_single` on the player query, as a loop over the entities.
  method FindSinglePlayer(order: seq<Entity>, ents: map<Entity, Components>) returns (player: Option<Entity>)
    ensures player == SinglePlayer(order, ents)
  {
    var ps: seq<Entity> := [];
    for i := 0 to |order|
      invariant ps == Players(order[..i], ents)
    {
      assert order[..i + 1][..i] == order[..i];
      var e := order[i];
      if e in ents && Player in ents[e].tags && ents[e].translation.Some? {
        ps := ps + [e];
      }
    }
    assert order[..|order|] == order;
    player := if |ps| == 1 then Some(ps[0]) else None;
  }

  lemma {:induction false} PlayersMembers(order: seq<Entity>, ents: map<Entity, Components>)
    ensures forall x :: x in Players(order, ents) <==> x in order && IsLocatedPlayer(ents, x)
  {
    if order != [] {
      PlayersMembers(order[..|order| - 1], ents);
      assert order == order[..|order| - 1] + [order[|order| - 1]];
    }
  }

  /// With no located player among the entities the player query is empty.
  lemma {:induction false} NoPlayers(order: seq<Entity>, ents: map<Entity, Components>)
    requires forall e | e in order :: !IsLocatedPlayer(ents, e)
    ensures Players(order, ents) == []
  {
    if order != [] {
      NoPlayers(order[..|order| - 1], ents);
    }
  }

  lemma {:induction false} PlayersDistinct(order: seq<Entity>, ents: map<Entity, Components>)
    requires Ecs.Distinct(order)
    ensures Ecs.Distinct(Players(order, ents))
  {
    if order != [] {
      var p := order[..|order| - 1];
      PlayersDistinct(p, ents);
      PlayersMembers(p, ents);
      assert order[|order| - 1] !in p;
    }
  }

  /// `get_single` succeeds with `p` exactly when `p` is a located player and
  /// no other entity is one.
  lemma SinglePlayerIff(order: seq<Entity>, ents: map<Entity, Components>, p: Entity)
    requires Ecs.Distinct(order)
    ensures SinglePlayer(order, ents) == Some(p) <==>
      p in order && IsLocatedPlayer(ents, p) && forall q | q in order && IsLocatedPlayer(ents, q) :: q == p
  {
    PlayersMembers(order, ents);
    PlayersDistinct(order, ents);
    var ps := Players(order, ents);
    if p in order && IsLocatedPlayer(ents, p) && forall q | q in order && IsLocatedPlayer(ents, q) :: q == p {
      assert p in ps;
      assert forall i :: 0 <= i < |ps| ==> ps[i] == p;
      AtMostOneCopy(ps, p);
    }
  }

  /// A sequence without repeats holds a value at most once.
  lemma AtMostOneCopy(s: seq<Entity>, x: Entity)
    requires Ecs.Distinct(s) && forall i :: 0 <= i < |s| ==> s[i] == x
    ensures |s| <= 1
  {
    if |s| >= 2 {
      FirstTwoDiffer(s);
      assert false;
    }
  }

  lemma FirstTwoDiffer(s: seq<Entity>)
    requires Ecs.Distinct(s) && |s| >= 2
    ensures s[0] != s[1]
  {
  }

  /// The search origin: the player's cell, or the cell of the zero position
  /// when there is no single player. `toGrid` is the level's translation to
  /// grid conversion.
  function PlayerOrigin(order: seq<Entity>, ents: map<Entity, Components>, toGrid: Vec2 -> IVec2): IVec2 {
    match SinglePlayer(order, ents)
    case Some(p) => toGrid(Truncate(ents[p].translation.value))
    case None => toGrid(Zero2)
  }

  // ---------------------------------------------------------------------
  // pick_spawn_location

  /// `i32::clamp`, which panics unless `lo <= hi`.
  function Clamp(v: int, lo: int, hi: int): (r: int)
    requires lo <= hi
    ensures lo <= r <= hi
    ensures lo <= v <= hi ==> r == v
    ensures v < lo ==> r == lo
    ensures v > hi ==> r == hi
  {
    if v < lo then lo else if v > hi then hi else v
  }

  /// One attempt's cell: the drawn offset from the origin, clamped into
  /// `[0, width] x [0, height]`.
  function Candidate(origin: IVec2, draw: IVec2, width: int, height: int): IVec2
    requires width >= 0 && height >= 0
  {
    IVec2(Clamp(draw.x + origin.x, 0, width), Clamp(draw.y + origin.y, 0, height))
  }

  /// The first candidate that is a spawn site, if any.
  function FirstSite(sites: set<IVec2>, origin: IVec2, draws: seq<IVec2>, width: int, height: int): (r: Option<IVec2>)
    requires width >= 0 && height >= 0
    ensures r.Some? ==> r.value in sites && 0 <= r.value.x <= width && 0 <= r.value.y <= height
  {
    if draws == [] then None
    else if Candidate(origin, draws[0], width, height) in sites then Some(Candidate(origin, draws[0], width, height))
    else FirstSite(sites, origin, draws[1..], width, height)
  }

  /// The site a search finds: none when the level has no spawn cells.
  function SiteFor(level: Level, origin: IVec2, draws: seq<IVec2>): Option<IVec2>
    requires level.width >= 0 && level.height >= 0
  {
    if level.spawns.None? then None else FirstSite(level.spawns.value, origin, draws, level.width, level.height)
  }

  /// `pick_spawn_location`, with one drawn offset per attempt in `draws` and
  /// the result left as a cell.
  method PickSpawnLocation(level: Level, origin: IVec2, draws: seq<IVec2>) returns (site: Option<IVec2>)
    requires level.width >= 0 && level.height >= 0 && |draws| == Attempts
    ensures site == SiteFor(level, origin, draws)
  {
    if level.spawns.None? {
      return None;
    }
    var sites := level.spawns.value;
    for i := 0 to Attempts
      invariant FirstSite(sites, origin, draws, level.width, level.height) == FirstSite(sites, origin, draws[i..], level.width, level.height)
    {
      assert draws[i..][1..] == draws[i + 1..];
      var spawnCoords := IVec2(Clamp(draws[i].x + origin.x, 0, level.width), Clamp(draws[i].y + origin.y, 0, level.height));
      if spawnCoords in sites {
        return Some(spawnCoords);
      }
    }
    assert draws[Attempts..] == [];
    return None;
  }

  /// The search fails exactly when no candidate is a spawn site, and
  /// otherwise returns the earliest candidate that is.
  lemma {:induction false} FirstSiteIsFirst(sites: set<IVec2>, origin: IVec2, draws: seq<IVec2>, width: int, height: int)
    requires width >= 0 && height >= 0
    ensures FirstSite(sites, origin, draws, width, height).None? <==>
      forall i :: 0 <= i < |draws| ==> Candidate(origin, draws[i], width, height) !in sites
    ensures FirstSite(sites, origin, draws, width, height).Some? ==>
      exists i :: 0 <= i < |draws| && FirstSite(sites, origin, draws, width, height) == Some(Candidate(origin, draws[i], width, height)) &&
        forall j :: 0 <= j < i ==> Candidate(origin, draws[j], width, height) !in sites
  {
    if draws != [] && Candidate(origin, draws[0], width, height) !in sites {
      var rest := draws[1..];
      FirstSiteIsFirst(sites, origin, rest, width, height);
      assert forall i :: 0 <= i < |rest| ==> rest[i] == draws[i + 1];
      if FirstSite(sites, origin, rest, width, height).Some? {
        var i :| 0 <= i < |rest| && FirstSite(sites, origin, rest, width, height) == Some(Candidate(origin, rest[i], width, height)) &&
          forall j :: 0 <= j < i ==> Candidate(origin, rest[j], width, height) !in sites;
        assert draws[i + 1] == rest[i];
        forall j | 0 <= j < i + 1 ensures Candidate(origin, draws[j], width, height) !in sites {
          if j > 0 { assert draws[j] == rest[j - 1]; }
        }
      } else {
        forall i | 0 <= i < |draws| ensures Candidate(origin, draws[i], width, height) !in sites {
          if i > 0 { assert draws[i] == rest[i - 1]; }
        }
      }
    }
  }

  /// A candidate already inside the level is tried as drawn: clamping only
  /// moves cells that fall outside `[0, width] x [0, height]`.
  lemma CandidateInsideUnclamped(origin: IVec2, draw: IVec2, width: int, height: int)
    requires width >= 0 && height >= 0
    requires 0 <= draw.x + origin.x <= width && 0 <= draw.y + origin.y <= height
    ensures Candidate(origin, draw, width, height) == IVec2(draw.x + origin.x, draw.y + origin.y)
  {
  }

  // ---------------------------------------------------------------------
  // spawn_enemy

  /// The enemy a prototype becomes at `at`.
  function EnemyBundle(p: Prototype, at: Vec3): Components {
    Bare.(translation := Some(at), collider := Some(p.collider), damage := Some(p.damage),
          health := Some(p.health), velocity := Some(p.velocity), tags := {Enemy})
  }

  /// One enemy per prototype whose identifier is `id`, in prototype order.
  function EnemiesFor(prototypes: seq<Prototype>, id: string, at: Vec3): seq<Components> {
    if prototypes == [] then []
    else
      var last := prototypes[|prototypes| - 1];
      EnemiesFor(prototypes[..|prototypes| - 1], id, at) + (if last.identifier == id then [EnemyBundle(last, at)] else [])
  }

  /// The prototype loop of `spawn_enemy`.
  method MatchPrototypes(prototypes: seq<Prototype>, id: string, at: Vec3) returns (enemies: seq<Components>)
    ensures enemies == EnemiesFor(prototypes, id, at)
  {
    enemies := [];
    for i := 0 to |prototypes|
      invariant enemies == EnemiesFor(prototypes[..i], id, at)
    {
      assert prototypes[..i + 1][..i] == prototypes[..i];
      var p := prototypes[i];
      if p.identifier == id {
        enemies := enemies + [Bare.(translation := Some(at), collider := Some(p.collider), damage := Some(p.damage),
                                    health := Some(p.health), velocity := Some(p.velocity), tags := {Enemy})];
      }
    }
    assert prototypes[..|prototypes|] == prototypes;
  }

  /// The indices of the prototypes with identifier `id`.
  function Matching(prototypes: seq<Prototype>, id: string): set<nat> {
    set i: nat | i < |prototypes| && prototypes[i].identifier == id
  }

  /// There are as many spawned enemies as prototypes with the requested
  /// identifier.
  lemma {:induction false} EnemiesForCount(prototypes: seq<Prototype>, id: string, at: Vec3)
    ensures |EnemiesFor(prototypes, id, at)| == |Matching(prototypes, id)|
  {
    if prototypes == [] {
      assert Matching(prototypes, id) == {};
    } else {
      var n := |prototypes| - 1;
      var front := prototypes[..n];
      EnemiesForCount(front, id, at);
      var before := Matching(front, id);
      var after := Matching(prototypes, id);
      assert forall i: nat :: i < n ==> front[i] == prototypes[i];
      if prototypes[n].identifier == id {
        assert after == before + {n};
        assert n !in before;
      } else {
        assert after == before;
      }
    }
  }

  /// Every spawned enemy copies a prototype with the requested identifier,
  /// and every such prototype yields one.
  lemma {:induction false} EnemiesForMembers(prototypes: seq<Prototype>, id: string, at: Vec3)
    ensures forall c :: c in EnemiesFor(prototypes, id, at) <==>
      exists p :: p in prototypes && p.identifier == id && c == EnemyBundle(p, at)
  {
    if prototypes != [] {
      var n := |prototypes| - 1;
      var front := prototypes[..n];
      EnemiesForMembers(front, id, at);
      assert prototypes == front + [prototypes[n]];
    }
  }

  /// What one run of `spawn_enemy` does to the resources, and what it spawns.
  datatype SpawnOutcome = SpawnOutcome(timer: Timer, pending: seq<string>, spawned: seq<Components>)

  /// `spawn_enemy` on values: tick the timer; unless it just finished, stop.
  /// Pop the last pending identifier, or stop when there is none; the
  /// identifier is consumed even if the site search then fails.
  function EnemySpawn(timer: Timer, delta: nat, pending: seq<string>, level: Level, origin: IVec2,
                      draws: seq<IVec2>, toWorld: IVec2 -> Vec2, prototypes: seq<Prototype>): SpawnOutcome
    requires level.width >= 0 && level.height >= 0
  {
    var ticked := Tick(timer, delta);
    if !JustFinished(ticked) || pending == [] then SpawnOutcome(ticked, pending, [])
    else
      var id := pending[|pending| - 1];
      var rest := pending[..|pending| - 1];
      match SiteFor(level, origin, draws)
      case None => SpawnOutcome(ticked, rest, [])
      case Some(cell) => SpawnOutcome(ticked, rest, EnemiesFor(prototypes, id, Extend(toWorld(cell), EnemyDepth)))
  }

  /// `spawn_enemy`. The level lookups are the `level`, `toGrid` and `toWorld`
  /// inputs; the random offsets of the five attempts are `draws`.
  method SpawnEnemy(w: Ecs.World, delta: nat, level: Level, toGrid: Vec2 -> IVec2, toWorld: IVec2 -> Vec2,
                    draws: seq<IVec2>, prototypes: seq<Prototype>)
    requires w.Valid() && level.width >= 0 && level.height >= 0 && |draws| == Attempts
    modifies w`enemySpawnTimer, w`spawnList, w`order, w`entities, w`nextId
    ensures w.Valid()
    ensures var out := EnemySpawn(old(w.enemySpawnTimer), delta, old(w.spawnList), level,
                                  PlayerOrigin(old(w.order), old(w.entities), toGrid), draws, toWorld, prototypes);
      && w.enemySpawnTimer == out.timer && w.spawnList == out.pending
      && w.order == old(w.order) + Ecs.FreshIds(old(w.nextId), |out.spawned|)
      && w.entities == Ecs.WithSpawned(old(w.entities), old(w.nextId), out.spawned)
  {
    w.enemySpawnTimer := Tick(w.enemySpawnTimer, delta);
    if JustFinished(w.enemySpawnTimer) && w.spawnList != [] {
      var spawnId := w.spawnList[|w.spawnList| - 1];
      w.spawnList := w.spawnList[..|w.spawnList| - 1];
      var player := FindSinglePlayer(w.order, w.entities);
      var origin := if player.Some? then toGrid(Truncate(w.entities[player.value].translation.value)) else toGrid(Zero2);
      var spot := PickSpawnLocation(level, origin, draws);
      if spot.Some? {
        var enemies := MatchPrototypes(prototypes, spawnId, Extend(toWorld(spot.value), EnemyDepth));
        w.SpawnAll(enemies);
        return;
      }
    }
    w.SpawnAll([]);
  }

  /// Nothing is spawned and no identifier is used unless the timer just
  /// finished; with the 0.5 s repeating timer that is the frame that carries
  /// it past its period.
  lemma NoSpawnBeforeTimer(timer: Timer, delta: nat, pending: seq<string>, level: Level, origin: IVec2,
                           draws: seq<IVec2>, toWorld: IVec2 -> Vec2, prototypes: seq<Prototype>)
    requires level.width >= 0 && level.height >= 0
    requires timer.mode == Repeating && timer.duration == Ecs.SpawnInterval
    requires timer.elapsed + delta < Ecs.SpawnInterval
    ensures EnemySpawn(timer, delta, pending, level, origin, draws, toWorld, prototypes) == SpawnOutcome(Tick(timer, delta), pending, [])
  {
    RepeatingJustFinished(timer, delta);
  }

  /// With no pending identifier nothing happens beyond the tick.
  lemma NoPendingNoSpawn(timer: Timer, delta: nat, level: Level, origin: IVec2,
                         draws: seq<IVec2>, toWorld: IVec2 -> Vec2, prototypes: seq<Prototype>)
    requires level.width >= 0 && level.height >= 0
    ensures EnemySpawn(timer, delta, [], level, origin, draws, toWorld, prototypes) == SpawnOutcome(Tick(timer, delta), [], [])
  {
  }

  /// When the timer fires with an identifier pending but no candidate is a
  /// spawn site, the identifier is still used up and nothing is spawned.
  lemma FailedSearchConsumesId(timer: Timer, delta: nat, pending: seq<string>, level: Level, origin: IVec2,
                               draws: seq<IVec2>, toWorld: IVec2 -> Vec2, prototypes: seq<Prototype>)
    requires level.width >= 0 && level.height >= 0
    requires JustFinished(Tick(timer, delta)) && pending != []
    requires level.spawns.None? || forall i :: 0 <= i < |draws| ==> Candidate(origin, draws[i], level.width, level.height) !in level.spawns.value
    ensures EnemySpawn(timer, delta, pending, level, origin, draws, toWorld, prototypes) ==
      SpawnOutcome(Tick(timer, delta), pending[..|pending| - 1], [])
  {
    if level.spawns.Some? {
      FirstSiteIsFirst(level.spawns.value, origin, draws, level.width, level.height);
    }
  }
}
