/// The player (player.rs): spawned once, steered by the movement keys, and
/// throwing a volley of four daggers every time its weapon timer fires.
module PlayerSystem {
  import opened Geometry
  import opened Components
  import opened Timers
  import Movement
  import Ecs

  const PlayerSpeed: real := 50.0
  const PlayerSize := Vec2(16.0, 16.0)
  const PlayerStartingHealth: nat := 30
  /// 1 s between two volleys.
  const PlayerAttackCooldown: nat := 1_000_000_000
  const DaggerSpeed: real := 25.0
  const DaggerSpawnDistance: real := 16.0
  const DaggerDamage: nat := 5
  const DaggerHealth: nat := 1

  // ---------------------------------------------------------------------
  // spawn_player

  /// The player entity at startup. `Health::with_damage_cooldown` is not part
  /// of this model, so the cooldown it sets up is a parameter.
  function PlayerBundle(cooldown: Option<Timer>): Components {
    Bare.(translation := Some(Zero3),
          health := Some(Health(PlayerStartingHealth, cooldown)),
          collider := Some(NewCollider(PlayerSize)),
          weapon := Some(NewTimer(PlayerAttackCooldown, Repeating)),
          velocity := Some(Movement.NewVelocity(0.0, 0.0)),
          tags := {Player})
  }

  /// `spawn_player`.
  method SpawnPlayer(w: Ecs.World, cooldown: Option<Timer>)
    requires w.Valid()
    modifies w`order, w`entities, w`nextId
    ensures w.Valid()
    ensures w.order == old(w.order) + [old(w.nextId)]
    ensures w.entities == old(w.entities)[old(w.nextId) := PlayerBundle(cooldown)]
  {
    ghost var id := w.nextId;
    w.SpawnAll([PlayerBundle(cooldown)]);
    assert w.entities == old(w.entities)[id := PlayerBundle(cooldown)];
  }

  /// The player starts at the origin, standing still, with 30 health, a
  /// 16 x 16 collider and a repeating 1 s weapon timer; in a world without a
  /// player it is then the only one.
  lemma SpawnedPlayerStats(ents: map<Entity, Components>, id: Entity, cooldown: Option<Timer>)
    requires id !in ents
    requires forall e | e in ents :: Player !in ents[e].tags
    ensures var r := ents[id := PlayerBundle(cooldown)];
      && r[id].translation == Some(Vec3(0.0, 0.0, 0.0))
      && r[id].velocity == Some(Zero3)
      && r[id].health.value.amount == 30
      && r[id].collider.value.size == Vec2(16.0, 16.0) && r[id].collider.value.collisions == []
      && r[id].weapon == Some(Timer(1_000_000_000, 0, Repeating, false, 0))
      && SinglePlayer(r, id)
  {
  }

  // ---------------------------------------------------------------------
  // player_movement

  /// Exactly one entity carries the Player marker, and it is `p`. The systems
  /// below take `single_mut` of a player query, which panics otherwise.
  predicate SinglePlayer(ents: map<Entity, Components>, p: Entity) {
    p in ents && Player in ents[p].tags && forall e | e in ents && Player in ents[e].tags :: e == p
  }

  /// The unit vector one pressed key adds to the direction.
  function KeyDirection(k: KeyCode): Vec3 {
    match k
    case W => UnitY
    case Up => UnitY
    case A => NegX
    case Left => NegX
    case S => NegY
    case Down => NegY
    case D => UnitX
    case Right => UnitX
    case _ => Zero3
  }

  /// The summed direction over the pressed keys.
  function DirectionOf(keys: seq<KeyCode>): Vec3 {
    if keys == [] then Zero3 else Add3(DirectionOf(keys[..|keys| - 1]), KeyDirection(keys[|keys| - 1]))
  }

  /// How many of the pressed keys are `a` or `b`.
  function CountKeys(keys: seq<KeyCode>, a: KeyCode, b: KeyCode): nat {
    if keys == [] then 0
    else CountKeys(keys[..|keys| - 1], a, b) + (if keys[|keys| - 1] in {a, b} then 1 else 0)
  }

  /// The key loop of `player_movement`.
  method PlayerDirection(keys: seq<KeyCode>) returns (direction: Vec3)
    ensures direction == DirectionOf(keys)
  {
    direction := Zero3;
    for i := 0 to |keys|
      invariant direction == DirectionOf(keys[..i])
    {
      assert keys[..i + 1][..i] == keys[..i];
      match keys[i] {
        case W => direction := Add3(direction, UnitY);
        case Up => direction := Add3(direction, UnitY);
        case A => direction := Add3(direction, NegX);
        case Left => direction := Add3(direction, NegX);
        case S => direction := Add3(direction, NegY);
        case Down => direction := Add3(direction, NegY);
        case D => direction := Add3(direction, UnitX);
        case Right => direction := Add3(direction, UnitX);
        case _ => assert Add3(direction, Zero3) == direction;
      }
    }
    assert keys[..|keys|] == keys;
  }

  /// The direction counts keys: right minus left along x, up minus down
  /// along y, nothing along z. Other keys add nothing and opposite keys cancel.
  lemma {:induction false} DirectionCounts(keys: seq<KeyCode>)
    ensures DirectionOf(keys) == Vec3(
      CountKeys(keys, D, Right) as real - CountKeys(keys, A, Left) as real,
      CountKeys(keys, W, Up) as real - CountKeys(keys, S, Down) as real,
      0.0)
  {
    if keys != [] {
      DirectionCounts(keys[..|keys| - 1]);
    }
  }

  /// The player's velocity for a set of pressed keys.
  function PlayerVelocity(norm: Normalizer, keys: seq<KeyCode>): Vec3 {
    Movement.FromDirectionSpeed(norm, DirectionOf(keys), PlayerSpeed)
  }

  /// With no movement key pressed, or only opposite pairs, the player stops.
  lemma BalancedKeysStop(norm: Normalizer, keys: seq<KeyCode>)
    requires CountKeys(keys, D, Right) == CountKeys(keys, A, Left)
    requires CountKeys(keys, W, Up) == CountKeys(keys, S, Down)
    ensures PlayerVelocity(norm, keys) == Zero3
  {
    DirectionCounts(keys);
    assert DirectionOf(keys) == Zero3;
  }

  /// One movement key moves the player at 50 along that key's axis.
  lemma OneKeyMoves(norm: Normalizer, k: KeyCode)
    requires !k.Other? && !k.Return?
    ensures PlayerVelocity(norm, [k]) == Scale3(KeyDirection(k), 50.0)
  {
    assert [k][..0] == [];
    var d := KeyDirection(k);
    assert DirectionOf([k]) == Add3(Zero3, d);
    assert Add3(Zero3, d) == d;
    assert d == UnitX || d == NegX || d == UnitY || d == NegY;
  }

  /// `player_movement`: the player's velocity is replaced, nothing else changes.
  method PlayerMovement(w: Ecs.World, p: Entity, keys: seq<KeyCode>, norm: Normalizer)
    requires w.Valid() && SinglePlayer(w.entities, p) && w.entities[p].velocity.Some?
    modifies w`entities
    ensures w.Valid()
    ensures w.entities == old(w.entities)[p := old(w.entities)[p].(velocity := Some(PlayerVelocity(norm, keys)))]
  {
    var direction := PlayerDirection(keys);
    var c := w.entities[p];
    w.entities := w.entities[p := c.(velocity := Some(Scale3(norm(direction), PlayerSpeed)))];
  }

  // ---------------------------------------------------------------------
  // throw_weapon

  const DaggerDirections: seq<Vec3> := [UnitY, NegX, NegY, UnitX]

  /// One dagger: 16 units from the player along its direction, flying along
  /// it at 25, with an 8 x 13 collider, 1 health and 5 collision damage.
  function DaggerBundle(origin: Vec3, direction: Vec3, norm: Normalizer): Components {
    Bare.(translation := Some(Add3(origin, Scale3(direction, DaggerSpawnDistance))),
          collider := Some(NewCollider(Vec2(8.0, 13.0))),
          health := Some(NewHealth(DaggerHealth)),
          damage := Some(DaggerDamage),
          velocity := Some(Movement.FromDirectionSpeed(norm, direction, DaggerSpeed)),
          tags := {Dagger})
  }

  function Volley(origin: Vec3, norm: Normalizer): seq<Components> {
    seq(4, i requires 0 <= i < 4 => DaggerBundle(origin, DaggerDirections[i], norm))
  }

  /// The dagger loop of `throw_weapon`.
  method DaggerVolley(origin: Vec3, norm: Normalizer) returns (daggers: seq<Components>)
    ensures daggers == Volley(origin, norm)
  {
    daggers := [];
    var directions := [UnitY, NegX, NegY, UnitX];
    for i := 0 to 4
      invariant |daggers| == i
      invariant forall j :: 0 <= j < i ==> daggers[j] == DaggerBundle(origin, DaggerDirections[j], norm)
    {
      var direction := directions[i];
      var translation := Add3(origin, Scale3(direction, DaggerSpawnDistance));
      daggers := daggers + [Bare.(translation := Some(translation),
                                  collider := Some(NewCollider(Vec2(8.0, 13.0))),
                                  health := Some(NewHealth(DaggerHealth)),
                                  damage := Some(DaggerDamage),
                                  velocity := Some(Scale3(norm(direction), DaggerSpeed)),
                                  tags := {Dagger})];
    }
  }

  /// The volley: four daggers, up, left, down and right of the player, each
  /// flying outward at 25.
  lemma VolleyLayout(origin: Vec3, norm: Normalizer)
    ensures |Volley(origin, norm)| == 4
    ensures forall i :: 0 <= i < 4 ==>
      var d := Volley(origin, norm)[i];
      && d.translation == Some(Add3(origin, Scale3(DaggerDirections[i], 16.0)))
      && d.velocity == Some(Scale3(DaggerDirections[i], 25.0))
      && d.collider == Some(Collider(Vec2(8.0, 13.0), Zero2, []))
      && d.health == Some(Health(1, None)) && d.damage == Some(5) && d.tags == {Dagger}
    ensures Volley(origin, norm)[0].translation == Some(Vec3(origin.x, origin.y + 16.0, origin.z))
    ensures Volley(origin, norm)[1].translation == Some(Vec3(origin.x - 16.0, origin.y, origin.z))
  {
  }

  /// The entities `throw_weapon` spawns after ticking the weapon to `ticked`.
  function Thrown(ticked: Timer, origin: Vec3, norm: Normalizer): seq<Components> {
    if JustFinished(ticked) then Volley(origin, norm) else []
  }

  /// `throw_weapon`: the player's weapon timer ticks; in a frame where it
  /// just finished, a volley is spawned at the player's position.
  method ThrowWeapon(w: Ecs.World, p: Entity, delta: nat, norm: Normalizer)
    requires w.Valid() && SinglePlayer(w.entities, p)
    requires w.entities[p].weapon.Some? && w.entities[p].translation.Some?
    modifies w`order, w`entities, w`nextId
    ensures w.Valid()
    ensures var ticked := Tick(old(w.entities)[p].weapon.value, delta);
      var spawned := Thrown(ticked, old(w.entities)[p].translation.value, norm);
      && w.order == old(w.order) + Ecs.FreshIds(old(w.nextId), |spawned|)
      && w.entities == Ecs.WithSpawned(old(w.entities)[p := old(w.entities)[p].(weapon := Some(ticked))], old(w.nextId), spawned)
  {
    var c := w.entities[p];
    var weapon := Tick(c.weapon.value, delta);
    w.entities := w.entities[p := c.(weapon := Some(weapon))];
    if JustFinished(weapon) {
      var daggers := DaggerVolley(c.translation.value, norm);
      w.SpawnAll(daggers);
    } else {
      w.SpawnAll([]);
    }
  }

  /// With the 1 s repeating weapon timer a volley is thrown exactly in the
  /// frames that carry the timer past its period.
  lemma ThrowsOncePerPeriod(weapon: Timer, delta: nat, origin: Vec3, norm: Normalizer)
    requires weapon.mode == Repeating && weapon.duration == PlayerAttackCooldown
    ensures |Thrown(Tick(weapon, delta), origin, norm)| == if weapon.elapsed + delta >= PlayerAttackCooldown then 4 else 0
  {
    RepeatingJustFinished(weapon, delta);
  }
}
