/// Velocities, position integration and wall containment (movement.rs).
module Movement {
  import opened Geometry
  import opened Components
  import opened Timers
  import Ecs

  /// `Velocity::from_direction_speed` (and `change_direction_speed`, which
  /// assigns the same value): the normalised direction scaled by the speed.
  function FromDirectionSpeed(norm: Normalizer, direction: Vec3, speed: real): (v: Vec3)
    ensures direction == Zero3 ==> v == Zero3
    ensures direction in {UnitX, NegX, UnitY, NegY} ==> v == Scale3(direction, speed)
  {
    Scale3(norm(direction), speed)
  }

  /// `Velocity::new`: a velocity in the plane.
  function NewVelocity(x: real, y: real): (v: Vec3)
    ensures Truncate(v) == Vec2(x, y) && v.z == 0.0
  {
    Vec3(x, y, 0.0)
  }

  // ---------------------------------------------------------------------
  // update_position

  /// Entities `update_position` visits.
  predicate Moving(c: Components) {
    c.velocity.Some? && c.translation.Some?
  }

  /// The records after every moving entity advanced by velocity x seconds.
  function Integrate(ents: map<Entity, Components>, secs: real): map<Entity, Components> {
    map e | e in ents ::
      if Moving(ents[e])
      then ents[e].(translation := Some(Add3(ents[e].translation.value, Scale3(ents[e].velocity.value, secs))))
      else ents[e]
  }

  /// `update_position`: each translation grows by velocity times the frame's seconds.
  method UpdatePosition(w: Ecs.World, delta: nat)
    requires w.Valid()
    modifies w`entities
    ensures w.Valid()
    ensures w.entities == Integrate(old(w.entities), Seconds(delta))
  {
    ghost var ents := w.entities;
    var order := w.order;
    var secs := Seconds(delta);
    var r := w.entities;
    for k := 0 to |order|
      invariant r.Keys == ents.Keys
      invariant forall e | e in ents :: r[e] == if e in order[..k] then Integrate(ents, secs)[e] else ents[e]
    {
      var e := order[k];
      assert order[..k + 1] == order[..k] + [e];
      var c := r[e];
      if Moving(c) {
        r := r[e := c.(translation := Some(Add3(c.translation.value, Scale3(c.velocity.value, secs))))];
      }
    }
    assert order[..|order|] == order;
    w.entities := r;
  }

  /// Integration changes translations of moving entities and nothing else.
  lemma IntegrateFrame(ents: map<Entity, Components>, secs: real)
    ensures Integrate(ents, secs).Keys == ents.Keys
    ensures forall e | e in ents :: Integrate(ents, secs)[e].(translation := ents[e].translation) == ents[e]
    ensures forall e | e in ents && !Moving(ents[e]) :: Integrate(ents, secs)[e] == ents[e]
  {
  }

  /// Two frames of `s1` and `s2` seconds move every entity as one frame of
  /// `s1 + s2` seconds does.
  lemma IntegrateAdditive(ents: map<Entity, Components>, s1: real, s2: real)
    ensures Integrate(Integrate(ents, s1), s2) == Integrate(ents, s1 + s2)
  {
    var once := Integrate(ents, s1);
    forall e | e in ents
      ensures Integrate(once, s2)[e] == Integrate(ents, s1 + s2)[e]
    {
      if Moving(ents[e]) {
        var v := ents[e].velocity.value;
        assert v.x * s1 + v.x * s2 == v.x * (s1 + s2);
        assert v.y * s1 + v.y * s2 == v.y * (s1 + s2);
        assert v.z * s1 + v.z * s2 == v.z * (s1 + s2);
      }
    }
  }

  // ---------------------------------------------------------------------
  // keep_inside_walls

  /// A detected overlap: `entity` collided with `collidedWith`.
  datatype CollisionEvent = CollisionEvent(entity: Entity, collidedWith: Entity)

  /// The moving side of the query: transform, collider, the role, and not a wall.
  predicate IsMover(c: Components, role: Tag) {
    c.translation.Some? && c.collider.Some? && role in c.tags && LevelWall !in c.tags
  }

  /// The wall side of the query: transform, collider and the level wall marker.
  predicate IsWall(c: Components) {
    c.translation.Some? && c.collider.Some? && LevelWall in c.tags
  }

  function MoverRect(c: Components): Rect
    requires c.translation.Some? && c.collider.Some?
  {
    ToRectAt(c.collider.value, c.translation.value)
  }

  /// The correction for a mover overlapping a wall: along x by the overlap's
  /// width when that is smaller than its height, otherwise along y by its
  /// height, signed by the side of the wall's centre the mover's centre is on.
  function PushVector(mover: Rect, wall: Rect): (p: Vec2)
    ensures p.x == 0.0 || p.y == 0.0
  {
    var overlap := Intersect(mover, wall);
    var base := if Width(overlap) < Height(overlap) then Vec2(Width(overlap), 0.0) else Vec2(0.0, Height(overlap));
    var away := Sub2(Center(mover), Center(wall));
    Vec2(base.x * Signum(away.x), base.y * Signum(away.y))
  }

  /// One event: skipped unless its subject is a mover of the role and its
  /// object a wall; otherwise the mover's translation gets the push in x and y.
  function ContainStep(ents: map<Entity, Components>, ev: CollisionEvent, role: Tag): (r: map<Entity, Components>)
    ensures r.Keys == ents.Keys
    ensures forall e | e in ents && e != ev.entity :: r[e] == ents[e]
  {
    if ev.entity in ents && IsMover(ents[ev.entity], role) && ev.collidedWith in ents && IsWall(ents[ev.collidedWith]) then
      var m := ents[ev.entity];
      var push := PushVector(MoverRect(m), MoverRect(ents[ev.collidedWith]));
      ents[ev.entity := m.(translation := Some(Add3(m.translation.value, Extend(push, 0.0))))]
    else
      ents
  }

  /// The events handled one after another, each seeing the corrections made
  /// by those before it.
  function Contain(ents: map<Entity, Components>, evs: seq<CollisionEvent>, role: Tag): (r: map<Entity, Components>)
    ensures r.Keys == ents.Keys
  {
    if evs == [] then ents
    else ContainStep(Contain(ents, evs[..|evs| - 1], role), evs[|evs| - 1], role)
  }

  /// `keep_inside_walls` for the movers carrying `role`.
  method KeepInsideWalls(w: Ecs.World, events: seq<CollisionEvent>, role: Tag)
    requires w.Valid()
    modifies w`entities
    ensures w.Valid()
    ensures w.entities == Contain(old(w.entities), events, role)
  {
    ghost var ents := w.entities;
    for i := 0 to |events|
      invariant w.Valid()
      invariant w.entities == Contain(ents, events[..i], role)
    {
      assert events[..i + 1][..i] == events[..i];
      HandleEvent(w, events[i], role);
    }
    assert events[..|events|] == events;
  }

  /// The body of the event loop: a mover of the role that hit a wall is pushed
  /// out along the axis of smaller overlap.
  method HandleEvent(w: Ecs.World, ev: CollisionEvent, role: Tag)
    requires w.Valid()
    modifies w`entities
    ensures w.Valid()
    ensures w.entities == ContainStep(old(w.entities), ev, role)
  {
    if ev.entity in w.entities && IsMover(w.entities[ev.entity], role) {
      if ev.collidedWith in w.entities && IsWall(w.entities[ev.collidedWith]) {
        var m := w.entities[ev.entity];
        var objectRect := MoverRect(m);
        var wallRect := MoverRect(w.entities[ev.collidedWith]);
        var pushAway := PushVector(objectRect, wallRect);
        w.entities := w.entities[ev.entity := m.(translation := Some(Add3(m.translation.value, Extend(pushAway, 0.0))))];
      }
    }
  }

  /// The push runs along the axis of smaller overlap, by that overlap's
  /// extent; a tie pushes vertically.
  lemma PushAlongSmallerAxis(mover: Rect, wall: Rect)
    ensures var o := Intersect(mover, wall); var p := PushVector(mover, wall);
      if Width(o) < Height(o) then p.y == 0.0 && Abs(p.x) == Width(o)
      else p.x == 0.0 && Abs(p.y) == Height(o)
  {
  }

  /// The push points away from the wall's centre, and positive when the
  /// centres coincide.
  lemma PushAwayFromWall(mover: Rect, wall: Rect)
    ensures var p := PushVector(mover, wall); var away := Sub2(Center(mover), Center(wall));
      p.x * away.x >= 0.0 && p.y * away.y >= 0.0 &&
      (away.x == 0.0 ==> p.x >= 0.0) && (away.y == 0.0 ==> p.y >= 0.0)
  {
  }

  /// Rectangles that no longer overlap produce no push.
  lemma NoOverlapNoPush(mover: Rect, wall: Rect)
    requires IsEmpty(Intersect(mover, wall))
    ensures PushVector(mover, wall) == Zero2
  {
  }

  /// When the push runs along x and the mover sticks out of the wall on one
  /// side only along x, the pushed mover just touches the wall and no longer
  /// overlaps it. (A mover wider than the wall on both sides can still overlap.)
  lemma PushSeparatesAlongX(mover: Rect, wall: Rect)
    requires mover.min.x <= mover.max.x && wall.min.x <= wall.max.x
    requires Width(Intersect(mover, wall)) < Height(Intersect(mover, wall))
    requires (mover.min.x < wall.min.x && mover.max.x < wall.max.x) || (mover.min.x > wall.min.x && mover.max.x > wall.max.x)
    ensures IsEmpty(Intersect(Translate(mover, PushVector(mover, wall)), wall))
  {
  }

  /// The same along y.
  lemma PushSeparatesAlongY(mover: Rect, wall: Rect)
    requires mover.min.y <= mover.max.y && wall.min.y <= wall.max.y
    requires Width(Intersect(mover, wall)) >= Height(Intersect(mover, wall))
    requires (mover.min.y < wall.min.y && mover.max.y < wall.max.y) || (mover.min.y > wall.min.y && mover.max.y > wall.max.y)
    ensures IsEmpty(Intersect(Translate(mover, PushVector(mover, wall)), wall))
  {
  }

  /// An event moves only its subject, along one axis of the plane at most,
  /// and never changes z or any other component.
  lemma ContainStepMovesOneAxis(ents: map<Entity, Components>, ev: CollisionEvent, role: Tag)
    requires ev.entity in ents
    ensures var r := ContainStep(ents, ev, role); var before := ents[ev.entity];
      r[ev.entity].(translation := before.translation) == before &&
      (r[ev.entity].translation.Some? <==> before.translation.Some?) &&
      (before.translation.Some? ==>
         var p := r[ev.entity].translation.value; var q := before.translation.value;
         p.z == q.z && (p.x == q.x || p.y == q.y))
  {
  }

  /// The mover's rectangle after a step is its rectangle before, moved by the push.
  lemma ContainStepMovesRect(ents: map<Entity, Components>, ev: CollisionEvent, role: Tag)
    requires ev.entity in ents && IsMover(ents[ev.entity], role)
    requires ev.collidedWith in ents && IsWall(ents[ev.collidedWith])
    ensures MoverRect(ContainStep(ents, ev, role)[ev.entity]) ==
      Translate(MoverRect(ents[ev.entity]), PushVector(MoverRect(ents[ev.entity]), MoverRect(ents[ev.collidedWith])))
  {
  }

  /// Handling events in two batches is handling them all in order.
  lemma {:induction false} ContainConcat(ents: map<Entity, Components>, a: seq<CollisionEvent>, b: seq<CollisionEvent>, role: Tag)
    ensures Contain(ents, a + b, role) == Contain(Contain(ents, a, role), b, role)
  {
    if b == [] {
      assert a + b == a;
    } else {
      ContainConcat(ents, a, b[..|b| - 1], role);
      assert (a + b)[..|a + b| - 1] == a + b[..|b| - 1];
    }
  }

  /// Events whose subject is not a mover of the role, or whose object is not a
  /// wall, leave every entity where it was.
  lemma {:induction false} ContainSkipsUnrelated(ents: map<Entity, Components>, evs: seq<CollisionEvent>, role: Tag)
    requires forall i :: 0 <= i < |evs| ==>
      !(evs[i].entity in ents && IsMover(ents[evs[i].entity], role) && evs[i].collidedWith in ents && IsWall(ents[evs[i].collidedWith]))
    ensures Contain(ents, evs, role) == ents
  {
    if evs != [] {
      ContainSkipsUnrelated(ents, evs[..|evs| - 1], role);
    }
  }
}
