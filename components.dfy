/// The components the game's systems read and write, and the per-entity record
/// that holds them. An entity is an index into the world's map of records.
module Components {
  import opened Geometry
  import opened Timers

  datatype Option<T> = None | Some(value: T)

  type Entity = nat

  /// Marker components. `LevelWall` is the wall of levels.rs (the one the
  /// containment system looks for); `MapWall` is the distinct wall type that
  /// map.rs spawns for the outer boundary.
  datatype Tag = Player | Ghost | Dagger | Enemy | LevelWall | MapWall

  /// Keyboard keys the game reacts to; every other key is `Other`.
  datatype KeyCode = W | A | S | D | Up | Left | Down | Right | Return | Other(code: nat)

  /// An axis-aligned box owned by one entity, with the entities it overlapped in
  /// the last detection pass. The offset is used only by wall colliders.
  datatype Collider = Collider(size: Vec2, offset: Vec2, collisions: seq<Entity>)

  /// `Collider::new`: no offset and no recorded collisions.
  function NewCollider(size: Vec2): (c: Collider)
    ensures c.size == size && c.offset == Zero2
    ensures c.collisions == []
  {
    Collider(size, Zero2, [])
  }

  /// `Collider::with_size_and_offset`, as the wall code calls it.
  function ColliderWithOffset(size: Vec2, offset: Vec2): (c: Collider)
    ensures c.size == size && c.offset == offset && c.collisions == []
  {
    Collider(size, offset, [])
  }

  /// `Collider::to_rect_at`: the world rectangle, centred at the entity's x and
  /// y translation moved by the offset, with the collider's size.
  function ToRectAt(c: Collider, translation: Vec3): (r: Rect)
    ensures Center(r) == Add2(Truncate(translation), c.offset)
    ensures Width(r) == c.size.x && Height(r) == c.size.y
  {
    FromCenterSize(Add2(Truncate(translation), c.offset), c.size)
  }

  /// `Health`: the amount is a `u32` that only ever decreases, so an
  /// unbounded natural number loses nothing.
  datatype Health = Health(amount: nat, cooldown: Option<Timer>)

  /// `Health::new`: no damage cooldown running.
  function NewHealth(amount: nat): (h: Health)
    ensures h.amount == amount && h.cooldown == None
  {
    Health(amount, None)
  }

  /// `KnockBack`: a displacement spread over the duration of a one-shot timer.
  datatype KnockBack = KnockBack(displacement: Vec3, duration: Timer)

  /// All components an entity may carry. `translation` is the `Transform`'s
  /// translation, `velocity` the `Velocity` value, `damage` the
  /// `CollisionDamage` amount, `weapon` the player's `Weapon` timer and
  /// `tileTags` the level's `TileEnumTags`.
  datatype Components = Components(
    translation: Option<Vec3>,
    collider: Option<Collider>,
    health: Option<Health>,
    velocity: Option<Vec3>,
    knockback: Option<KnockBack>,
    damage: Option<nat>,
    weapon: Option<Timer>,
    tileTags: Option<seq<string>>,
    tags: set<Tag>)

  /// An entity with no components, the start of every bundle.
  const Bare := Components(None, None, None, None, None, None, None, None, {})
}
