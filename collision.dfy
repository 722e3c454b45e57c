/// Broad-phase detection (collision.rs): every entity with a transform and a
/// collider is tested against every other one, and each collider's list of
/// overlapping entities is replaced by the result.
module Collision {
  import opened Geometry
  import opened Components
  import Ecs

  /// Entities the detection query visits.
  predicate Detectable(c: Components) {
    c.translation.Some? && c.collider.Some?
  }

  /// The rectangle detection builds: centred at the x and y of the
  /// translation, with the collider's size.
  function DetectionRect(c: Components): Rect
    requires Detectable(c)
  {
    FromCenterSize(Truncate(c.translation.value), c.collider.value.size)
  }

  /// `b` belongs in `a`'s list: another detectable entity whose rectangle
  /// intersects `a`'s with non-empty area.
  predicate Collides(ents: map<Entity, Components>, a: Entity, b: Entity)
    requires a in ents && Detectable(ents[a])
  {
    b != a && b in ents && Detectable(ents[b]) &&
    !IsEmpty(Intersect(DetectionRect(ents[a]), DetectionRect(ents[b])))
  }

  /// What the inner loop has pushed for `a` after visiting the entities of `q`.
  function OverlapList(q: seq<Entity>, a: Entity, ents: map<Entity, Components>): seq<Entity>
    requires a in ents && Detectable(ents[a])
  {
    if q == [] then []
    else OverlapList(q[..|q| - 1], a, ents) + (if Collides(ents, a, q[|q| - 1]) then [q[|q| - 1]] else [])
  }

  function WithCollisions(c: Components, list: seq<Entity>): Components
    requires c.collider.Some?
  {
    c.(collider := Some(c.collider.value.(collisions := list)))
  }

  /// The records after one detection pass over the entities in `order`.
  function Detect(order: seq<Entity>, ents: map<Entity, Components>): map<Entity, Components> {
    map e | e in ents :: if Detectable(ents[e]) then WithCollisions(ents[e], OverlapList(order, e, ents)) else ents[e]
  }

  /// The list recorded for `e` in the detection map, empty when nothing was pushed.
  function Recorded(found: map<Entity, seq<Entity>>, e: Entity): seq<Entity> {
    if e in found then found[e] else []
  }

  /// `detect_collisions`: all ordered pairs are tested into a map of lists,
  /// then every collider's list is overwritten from that map.
  method DetectCollisions(w: Ecs.World)
    requires w.Valid()
    modifies w`entities
    ensures w.Valid()
    ensures w.entities == Detect(w.order, old(w.entities))
  {
    var found := FindOverlaps(w.order, w.entities);
    RecordOverlaps(w, found);
  }

  /// The detection half of `detect_collisions`: for each visited entity `a`,
  /// every other visited entity `b` whose rectangle overlaps is pushed onto
  /// `a`'s entry, in visiting order.
  method FindOverlaps(order: seq<Entity>, ents: map<Entity, Components>) returns (found: map<Entity, seq<Entity>>)
    requires Ecs.Distinct(order)
    requires forall e :: e in order ==> e in ents
    ensures forall e :: e in order && Detectable(ents[e]) ==> Recorded(found, e) == OverlapList(order, e, ents)
  {
    found := map[];
    for i := 0 to |order|
      invariant forall e :: e in found ==> e in order[..i]
      invariant forall k :: 0 <= k < i && Detectable(ents[order[k]]) ==>
        Recorded(found, order[k]) == OverlapList(order, order[k], ents)
    {
      var a := order[i];
      assert a !in order[..i] by {
        forall k | 0 <= k < i ensures order[k] != a { }
      }
      if Detectable(ents[a]) {
        found := PushOverlaps(order, a, ents, found);
      }
    }
    assert order[..|order|] == order;
  }

  /// The inner loop of the detection half: pushes onto `a`'s entry every
  /// other entity of `order` that `a` collides with.
  method PushOverlaps(order: seq<Entity>, a: Entity, ents: map<Entity, Components>, found0: map<Entity, seq<Entity>>)
    returns (found: map<Entity, seq<Entity>>)
    requires forall e :: e in order ==> e in ents
    requires a in ents && Detectable(ents[a])
    ensures Recorded(found, a) == Recorded(found0, a) + OverlapList(order, a, ents)
    ensures forall e :: e != a ==> (e in found <==> e in found0) && Recorded(found, e) == Recorded(found0, e)
  {
    found := found0;
    for j := 0 to |order|
      invariant Recorded(found, a) == Recorded(found0, a) + OverlapList(order[..j], a, ents)
      invariant found == found0 || found == found0[a := Recorded(found, a)]
    {
      found := PushIfOverlaps(order, j, a, ents, found0, found);
    }
    assert order[..|order|] == order;
  }

  /// One step of the inner loop: `order[j]` is pushed onto `a`'s entry when
  /// it is another entity whose rectangle overlaps `a`'s.
  method PushIfOverlaps(order: seq<Entity>, j: nat, a: Entity, ents: map<Entity, Components>,
                        found0: map<Entity, seq<Entity>>, found: map<Entity, seq<Entity>>)
    returns (next: map<Entity, seq<Entity>>)
    requires j < |order| && forall e :: e in order ==> e in ents
    requires a in ents && Detectable(ents[a])
    requires Recorded(found, a) == Recorded(found0, a) + OverlapList(order[..j], a, ents)
    requires found == found0 || found == found0[a := Recorded(found, a)]
    ensures Recorded(next, a) == Recorded(found0, a) + OverlapList(order[..j + 1], a, ents)
    ensures next == found0 || next == found0[a := Recorded(next, a)]
  {
    next := found;
    var b := order[j];
    ghost var before := OverlapList(order[..j], a, ents);
    assert OverlapList(order[..j + 1], a, ents) == before + (if Collides(ents, a, b) then [b] else []) by {
      assert order[..j + 1][..j] == order[..j];
    }
    if b != a {
      var cb := ents[b];
      if Detectable(cb) && !IsEmpty(Intersect(DetectionRect(ents[a]), DetectionRect(cb))) {
        assert Recorded(found0, a) + before + [b] == Recorded(found0, a) + (before + [b]);
        next := found[a := Recorded(found, a) + [b]];
      }
    }
  }

  /// The record half of `detect_collisions`: each visited collider's list is
  /// replaced by its entry, or by the empty list when it has none.
  method RecordOverlaps(w: Ecs.World, found: map<Entity, seq<Entity>>)
    requires w.Valid()
    requires forall e :: e in w.order && Detectable(w.entities[e]) ==>
      Recorded(found, e) == OverlapList(w.order, e, w.entities)
    modifies w`entities
    ensures w.Valid()
    ensures w.entities == Detect(w.order, old(w.entities))
  {
    ghost var ents := w.entities;
    var order := w.order;
    var r := w.entities;
    for k := 0 to |order|
      invariant r.Keys == ents.Keys
      invariant forall e | e in ents :: r[e] == if e in order[..k] then Detect(order, ents)[e] else ents[e]
    {
      var e := order[k];
      assert order[..k + 1] == order[..k] + [e];
      var c := r[e];
      if Detectable(c) {
        r := r[e := WithCollisions(c, Recorded(found, e))];
      }
    }
    assert order[..|order|] == order;
    w.entities := r;
  }

  lemma {:induction false} OverlapListMembers(q: seq<Entity>, a: Entity, ents: map<Entity, Components>)
    requires a in ents && Detectable(ents[a])
    ensures forall b :: b in OverlapList(q, a, ents) <==> b in q && Collides(ents, a, b)
  {
    if q != [] {
      OverlapListMembers(q[..|q| - 1], a, ents);
      assert q == q[..|q| - 1] + [q[|q| - 1]];
    }
  }

  lemma {:induction false} OverlapListDistinct(q: seq<Entity>, a: Entity, ents: map<Entity, Components>)
    requires a in ents && Detectable(ents[a])
    requires Ecs.Distinct(q)
    ensures Ecs.Distinct(OverlapList(q, a, ents))
  {
    if q != [] {
      var p := q[..|q| - 1];
      OverlapListDistinct(p, a, ents);
      OverlapListMembers(p, a, ents);
      assert q[|q| - 1] !in p;
    }
  }

  /// After detection, `b` is in `a`'s list exactly when `b` is another visited
  /// entity whose collider rectangle, centred at its x and y, overlaps `a`'s
  /// with positive area; z plays no part.
  lemma DetectMembership(order: seq<Entity>, ents: map<Entity, Components>, a: Entity, b: Entity)
    requires a in ents && Detectable(ents[a])
    ensures Detect(order, ents)[a].collider.Some?
    ensures b in Detect(order, ents)[a].collider.value.collisions <==>
      && b in order && b != a && b in ents && Detectable(ents[b])
      && CentredOverlap(Truncate(ents[a].translation.value), ents[a].collider.value.size,
                        Truncate(ents[b].translation.value), ents[b].collider.value.size)
  {
    OverlapListMembers(order, a, ents);
    if b in ents && Detectable(ents[b]) {
      OverlapIffCentred(Truncate(ents[a].translation.value), ents[a].collider.value.size,
                        Truncate(ents[b].translation.value), ents[b].collider.value.size);
    }
  }

  /// An entity is never recorded as colliding with itself.
  lemma DetectNeverSelf(order: seq<Entity>, ents: map<Entity, Components>, a: Entity)
    requires a in ents && Detectable(ents[a])
    ensures a !in Detect(order, ents)[a].collider.value.collisions
  {
    OverlapListMembers(order, a, ents);
  }

  /// Overlap lists are symmetric: `b` is in `a`'s list iff `a` is in `b`'s.
  lemma DetectSymmetric(order: seq<Entity>, ents: map<Entity, Components>, a: Entity, b: Entity)
    requires a in order && b in order
    requires a in ents && Detectable(ents[a]) && b in ents && Detectable(ents[b])
    ensures b in Detect(order, ents)[a].collider.value.collisions <==> a in Detect(order, ents)[b].collider.value.collisions
  {
    OverlapListMembers(order, a, ents);
    OverlapListMembers(order, b, ents);
    IntersectCommutes(DetectionRect(ents[a]), DetectionRect(ents[b]));
  }

  /// With distinct ids each overlapping entity is listed once.
  lemma DetectNoDuplicates(order: seq<Entity>, ents: map<Entity, Components>, a: Entity)
    requires Ecs.Distinct(order)
    requires a in ents && Detectable(ents[a])
    ensures Ecs.Distinct(Detect(order, ents)[a].collider.value.collisions)
  {
    OverlapListDistinct(order, a, ents);
  }

  /// The previous list is discarded: an entity that overlaps nothing ends
  /// the pass with an empty list, whatever it held before.
  lemma DetectDiscardsStale(order: seq<Entity>, ents: map<Entity, Components>, a: Entity)
    requires a in ents && Detectable(ents[a])
    requires forall b :: b in order ==> !Collides(ents, a, b)
    ensures Detect(order, ents)[a].collider.value.collisions == []
  {
    OverlapListMembers(order, a, ents);
    if OverlapList(order, a, ents) != [] {
      assert OverlapList(order, a, ents)[0] in OverlapList(order, a, ents);
    }
  }

  /// Detection writes nothing but the collision lists: the same entities,
  /// the same collider sizes and offsets, every other component untouched.
  lemma DetectWritesOnlyCollisions(order: seq<Entity>, ents: map<Entity, Components>)
    ensures Detect(order, ents).Keys == ents.Keys
    ensures forall e | e in ents ::
      && Detect(order, ents)[e].(collider := ents[e].collider) == ents[e]
      && (Detect(order, ents)[e].collider.Some? <==> ents[e].collider.Some?)
      && (ents[e].collider.Some? ==>
            Detect(order, ents)[e].collider.value.size == ents[e].collider.value.size &&
            Detect(order, ents)[e].collider.value.offset == ents[e].collider.value.offset)
  {
  }

  /// Two 10 x 10 boxes centred at (5, 5) and (15, 5) share only an edge: after
  /// detection neither lists the other.
  lemma TouchingBoxesDoNotCollide()
    ensures var c := NewCollider(Vec2(10.0, 10.0));
      var ents := map[0 := Bare.(translation := Some(Vec3(5.0, 5.0, 0.0)), collider := Some(c)),
                      1 := Bare.(translation := Some(Vec3(15.0, 5.0, 0.0)), collider := Some(c))];
      Detect([0, 1], ents)[0].collider.value.collisions == [] &&
      Detect([0, 1], ents)[1].collider.value.collisions == []
  {
    var c := NewCollider(Vec2(10.0, 10.0));
    var ents := map[0 := Bare.(translation := Some(Vec3(5.0, 5.0, 0.0)), collider := Some(c)),
                    1 := Bare.(translation := Some(Vec3(15.0, 5.0, 0.0)), collider := Some(c))];
    DetectDiscardsStale([0, 1], ents, 0);
    DetectDiscardsStale([0, 1], ents, 1);
  }
}
