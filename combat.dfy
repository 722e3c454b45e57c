/// Knockback (combat.rs): receivers touching pushers get a displacement away
/// from them, which is then played out over a short one-shot timer.
module Combat {
  import opened Geometry
  import opened Components
  import opened Timers
  import Ecs

  const KnockBackDistance: real := 32.0
  /// 0.1 s.
  const KnockBackDuration: nat := 100_000_000

  // ---------------------------------------------------------------------
  // knockback_collisions

  /// Entities `knockback_collisions::<t, _>` visits: collider, transform, the
  /// marker `t`, and no knockback already running.
  predicate IsReceiver(c: Components, t: Tag) {
    c.collider.Some? && c.translation.Some? && t in c.tags && c.knockback.None?
  }

  /// `e` answers the pusher query: transform, the marker and a collider.
  predicate IsPusher(ents: map<Entity, Components>, e: Entity, pusher: Tag) {
    e in ents && ents[e].translation.Some? && pusher in ents[e].tags && ents[e].collider.Some?
  }

  /// What one collision entry adds to the direction of an entity at `me`.
  function Contribution(ents: map<Entity, Components>, me: Vec3, e: Entity, pusher: Tag): Vec3 {
    if IsPusher(ents, e, pusher) then Sub3(me, ents[e].translation.value) else Zero3
  }

  /// The summed direction over a collision list.
  function PushSum(ents: map<Entity, Components>, me: Vec3, list: seq<Entity>, pusher: Tag): Vec3 {
    if list == [] then Zero3
    else Add3(PushSum(ents, me, list[..|list| - 1], pusher), Contribution(ents, me, list[|list| - 1], pusher))
  }

  /// The inserted component: the normalised direction times 32, over a fresh
  /// one-shot 0.1 s timer.
  function NewKnockBack(direction: Vec3, norm: Normalizer): KnockBack {
    KnockBack(Scale3(norm(direction), KnockBackDistance), NewTimer(KnockBackDuration, Once))
  }

  /// The records after `knockback_collisions::<t, pusher>`.
  function KnockbackAll(ents: map<Entity, Components>, t: Tag, pusher: Tag, norm: Normalizer): map<Entity, Components> {
    map e | e in ents ::
      if IsReceiver(ents[e], t)
      then ents[e].(knockback := Some(NewKnockBack(PushSum(ents, ents[e].translation.value, ents[e].collider.value.collisions, pusher), norm)))
      else ents[e]
  }

  /// The inner loop: sums own translation minus the other's over the entries
  /// that answer the pusher query.
  method PushDirection(ents: map<Entity, Components>, me: Vec3, list: seq<Entity>, pusher: Tag) returns (direction: Vec3)
    ensures direction == PushSum(ents, me, list, pusher)
  {
    direction := Zero3;
    for i := 0 to |list|
      invariant direction == PushSum(ents, me, list[..i], pusher)
    {
      PushSumStep(ents, me, list, i, pusher);
      var other := list[i];
      if other in ents && ents[other].translation.Some? && pusher in ents[other].tags && ents[other].collider.Some? {
        direction := Add3(direction, Sub3(me, ents[other].translation.value));
      }
    }
    assert list[..|list|] == list;
  }

  lemma PushSumStep(ents: map<Entity, Components>, me: Vec3, list: seq<Entity>, i: nat, pusher: Tag)
    requires i < |list|
    ensures PushSum(ents, me, list[..i + 1], pusher) ==
      if IsPusher(ents, list[i], pusher) then Add3(PushSum(ents, me, list[..i], pusher), Sub3(me, ents[list[i]].translation.value))
      else PushSum(ents, me, list[..i], pusher)
  {
    assert list[..i + 1][..i] == list[..i];
  }

  /// One visited entity: a receiver gets its knockback inserted.
  method KnockbackRecord(ents: map<Entity, Components>, e: Entity, t: Tag, pusher: Tag, norm: Normalizer) returns (c: Components)
    requires e in ents
    ensures c == KnockbackAll(ents, t, pusher, norm)[e]
  {
    c := ents[e];
    if IsReceiver(c, t) {
      var direction := PushDirection(ents, c.translation.value, c.collider.value.collisions, pusher);
      c := c.(knockback := Some(KnockBack(Scale3(norm(direction), KnockBackDistance), NewTimer(KnockBackDuration, Once))));
    }
  }

  /// `knockback_collisions::<t, pusher>`. Inserts are deferred commands and
  /// receivers exclude knockback holders, so every receiver is judged against
  /// the records as they were when the system started.
  method KnockbackCollisions(w: Ecs.World, t: Tag, pusher: Tag, norm: Normalizer)
    requires w.Valid()
    modifies w`entities
    ensures w.Valid()
    ensures w.entities == KnockbackAll(old(w.entities), t, pusher, norm)
  {
    var ents := w.entities;
    var order := w.order;
    var r := w.entities;
    for k := 0 to |order|
      invariant r.Keys == ents.Keys
      invariant forall e | e in ents :: r[e] == if e in order[..k] then KnockbackAll(ents, t, pusher, norm)[e] else ents[e]
    {
      var e := order[k];
      assert order[..k + 1] == order[..k] + [e];
      var c := KnockbackRecord(ents, e, t, pusher, norm);
      r := r[e := c];
    }
    assert order[..|order|] == order;
    w.entities := r;
  }

  /// Only receivers change, and only by gaining a knockback: an entity that
  /// already has one keeps it as it is, and the new one is a fresh 0.1 s
  /// one-shot timer with the normalised direction times 32.
  lemma KnockbackAllFrame(ents: map<Entity, Components>, t: Tag, pusher: Tag, norm: Normalizer)
    ensures var r := KnockbackAll(ents, t, pusher, norm);
      && r.Keys == ents.Keys
      && (forall e | e in ents && !IsReceiver(ents[e], t) :: r[e] == ents[e])
      && (forall e | e in ents && ents[e].knockback.Some? :: r[e] == ents[e])
      && (forall e | e in ents && IsReceiver(ents[e], t) ::
            && r[e].(knockback := None) == ents[e]
            && r[e].knockback.Some?
            && r[e].knockback.value.duration == NewTimer(KnockBackDuration, Once)
            && r[e].knockback.value.displacement ==
                 Scale3(norm(PushSum(ents, ents[e].translation.value, ents[e].collider.value.collisions, pusher)), KnockBackDistance))
  {
  }

  /// Summing over two parts of a list adds the parts' sums.
  lemma {:induction false} PushSumConcat(ents: map<Entity, Components>, me: Vec3, a: seq<Entity>, b: seq<Entity>, pusher: Tag)
    ensures PushSum(ents, me, a + b, pusher) == Add3(PushSum(ents, me, a, pusher), PushSum(ents, me, b, pusher))
  {
    if b == [] {
      assert a + b == a;
    } else {
      var front := b[..|b| - 1];
      var last := b[|b| - 1];
      var x, y, z := PushSum(ents, me, a, pusher), PushSum(ents, me, front, pusher), Contribution(ents, me, last, pusher);
      var ab, af := a + b, a + front;
      assert PushSum(ents, me, ab, pusher) == Add3(PushSum(ents, me, af, pusher), z) by {
        assert ab == af + [last];
        PushSumSnoc(ents, me, af, last, pusher);
      }
      assert PushSum(ents, me, af, pusher) == Add3(x, y) by {
        PushSumConcat(ents, me, a, front, pusher);
      }
      assert PushSum(ents, me, b, pusher) == Add3(y, z) by {
        assert b == front + [last];
        PushSumSnoc(ents, me, front, last, pusher);
      }
      AddAssoc(x, y, z);
    }
  }

  /// Appending one entry adds its contribution.
  lemma PushSumSnoc(ents: map<Entity, Components>, me: Vec3, list: seq<Entity>, x: Entity, pusher: Tag)
    ensures PushSum(ents, me, list + [x], pusher) == Add3(PushSum(ents, me, list, pusher), Contribution(ents, me, x, pusher))
  {
    assert (list + [x])[..|list|] == list;
  }

  lemma AddAssoc(x: Vec3, y: Vec3, z: Vec3)
    ensures Add3(Add3(x, y), z) == Add3(x, Add3(y, z))
  {
  }

  /// Entries that do not answer the pusher query add nothing.
  lemma {:induction false} PushSumIgnoresOthers(ents: map<Entity, Components>, me: Vec3, list: seq<Entity>, pusher: Tag)
    requires forall i :: 0 <= i < |list| ==> !IsPusher(ents, list[i], pusher)
    ensures PushSum(ents, me, list, pusher) == Zero3
  {
    if list != [] {
      PushSumIgnoresOthers(ents, me, list[..|list| - 1], pusher);
    }
  }

  /// A receiver touching no pusher still gets a knockback, with zero
  /// displacement; and, holding one, it is passed over by the next run, so
  /// it cannot be pushed by anything until that one is removed.
  lemma ZeroKnockbackBlocks(ents: map<Entity, Components>, t: Tag, pusher: Tag, norm: Normalizer, e: Entity)
    requires e in ents && IsReceiver(ents[e], t)
    requires forall i :: 0 <= i < |ents[e].collider.value.collisions| ==> !IsPusher(ents, ents[e].collider.value.collisions[i], pusher)
    ensures KnockbackAll(ents, t, pusher, norm)[e].knockback.Some?
    ensures KnockbackAll(ents, t, pusher, norm)[e].knockback.value.displacement == Zero3
    ensures KnockbackAll(KnockbackAll(ents, t, pusher, norm), t, pusher, norm)[e] == KnockbackAll(ents, t, pusher, norm)[e]
  {
    PushSumIgnoresOthers(ents, ents[e].translation.value, ents[e].collider.value.collisions, pusher);
  }

  /// A receiver one unit to the right of its only pusher is knocked 32 units
  /// to the right.
  lemma PushedAwayAlongX(ents: map<Entity, Components>, t: Tag, pusher: Tag, norm: Normalizer, e: Entity, p: Entity)
    requires e in ents && IsReceiver(ents[e], t) && ents[e].collider.value.collisions == [p]
    requires IsPusher(ents, p, pusher) && Sub3(ents[e].translation.value, ents[p].translation.value) == UnitX
    ensures KnockbackAll(ents, t, pusher, norm)[e].knockback.value.displacement == Vec3(KnockBackDistance, 0.0, 0.0)
  {
    var list := ents[e].collider.value.collisions;
    assert list[..0] == [];
    assert PushSum(ents, ents[e].translation.value, list, pusher) == Add3(Zero3, UnitX) == UnitX;
  }

  // ---------------------------------------------------------------------
  // apply_knockback

  /// The part of the displacement one frame plays out: the frame's seconds
  /// over the timer's seconds, the same ratio as of the two in nanoseconds.
  function Fraction(delta: nat, duration: nat): real {
    if duration == 0 then 0.0 else delta as real / duration as real
  }

  /// One entity in `apply_knockback`: the timer ticks, the translation moves
  /// by the displacement's share for this frame, and a finished knockback
  /// is removed.
  function KnockStep(c: Components, delta: nat): Components {
    if c.knockback.Some? && c.translation.Some? then
      var kb := c.knockback.value;
      var timer := Tick(kb.duration, delta);
      c.(translation := Some(Add3(c.translation.value, Scale3(kb.displacement, Fraction(delta, kb.duration.duration)))),
         knockback := if timer.finished then None else Some(kb.(duration := timer)))
    else c
  }

  /// A knockback timer stays a valid one-shot timer, and one that was
  /// ticked this frame and kept has not finished.
  lemma KnockStepKeepsTimerValid(c: Components, delta: nat)
    requires c.knockback.Some? ==> Timers.Valid(c.knockback.value.duration) && c.knockback.value.duration.mode == Once
    ensures var r := KnockStep(c, delta);
      && (r.knockback.Some? ==> Timers.Valid(r.knockback.value.duration) && r.knockback.value.duration.mode == Once)
      && (c.translation.Some? && r.knockback.Some? ==> !r.knockback.value.duration.finished)
  {
    if c.knockback.Some? {
      TickValid(c.knockback.value.duration, delta);
    }
  }

  /// The records after `apply_knockback`.
  function ApplyAll(ents: map<Entity, Components>, delta: nat): map<Entity, Components> {
    map e | e in ents :: KnockStep(ents[e], delta)
  }

  /// The loop body of `apply_knockback` for one entity.
  method KnockRecord(c0: Components, delta: nat) returns (c: Components)
    ensures c == KnockStep(c0, delta)
  {
    c := c0;
    if c.knockback.Some? && c.translation.Some? {
      var kb := c.knockback.value;
      kb := kb.(duration := Tick(kb.duration, delta));
      var share := if kb.duration.duration == 0 then 0.0 else delta as real / kb.duration.duration as real;
      c := c.(translation := Some(Add3(c.translation.value, Scale3(kb.displacement, share))));
      if kb.duration.finished {
        c := c.(knockback := None);
      } else {
        c := c.(knockback := Some(kb));
      }
    }
  }

  /// `apply_knockback`.
  method ApplyKnockback(w: Ecs.World, delta: nat)
    requires w.Valid()
    modifies w`entities
    ensures w.Valid()
    ensures w.entities == ApplyAll(old(w.entities), delta)
  {
    ghost var ents := w.entities;
    var order := w.order;
    var r := w.entities;
    for k := 0 to |order|
      invariant r.Keys == ents.Keys
      invariant forall e | e in ents :: r[e] == if e in order[..k] then ApplyAll(ents, delta)[e] else ents[e]
    {
      var e := order[k];
      assert order[..k + 1] == order[..k] + [e];
      var c := KnockRecord(r[e], delta);
      r := r[e := c];
    }
    assert order[..|order|] == order;
    w.entities := r;
  }

  /// One frame of knockback: the knockback goes exactly when its timer
  /// finishes, its displacement never changes, the translation moves by the
  /// displacement times delta over the duration, and nothing else changes.
  lemma KnockStepEffect(c: Components, delta: nat)
    requires c.knockback.Some? && c.translation.Some?
    ensures var r := KnockStep(c, delta); var kb := c.knockback.value;
      && r.(translation := c.translation, knockback := c.knockback) == c
      && (r.knockback.None? <==> Tick(kb.duration, delta).finished)
      && (r.knockback.Some? ==> r.knockback.value == kb.(duration := Tick(kb.duration, delta)))
      && r.translation == Some(Add3(c.translation.value, Scale3(kb.displacement, Fraction(delta, kb.duration.duration))))
  {
  }

  /// Entities without a knockback, or without a transform, are untouched.
  lemma ApplyAllFrame(ents: map<Entity, Components>, delta: nat)
    ensures ApplyAll(ents, delta).Keys == ents.Keys
    ensures forall e | e in ents && !(ents[e].knockback.Some? && ents[e].translation.Some?) :: ApplyAll(ents, delta)[e] == ents[e]
  {
  }

  /// An entity's record after a run of frames of `apply_knockback`.
  function Travel(c: Components, deltas: seq<nat>): Components {
    if deltas == [] then c else KnockStep(Travel(c, deltas[..|deltas| - 1]), deltas[|deltas| - 1])
  }

  /// Moving by two shares of a displacement is moving by their sum.
  lemma MoveTwice(p: Vec3, d: Vec3, a: real, b: real)
    ensures Add3(Add3(p, Scale3(d, a)), Scale3(d, b)) == Add3(p, Scale3(d, a + b))
  {
    assert d.x * a + d.x * b == d.x * (a + b);
    assert d.y * a + d.y * b == d.y * (a + b);
    assert d.z * a + d.z * b == d.z * (a + b);
  }

  lemma FractionAdd(a: nat, b: nat, duration: nat)
    ensures Fraction(a, duration) + Fraction(b, duration) == Fraction(a + b, duration)
  {
    if duration > 0 {
      var dr := duration as real;
      assert (a as real) / dr + (b as real) / dr == (a as real + b as real) / dr;
    }
  }

  /// While its timer has not run out, a knockback started from zero elapsed
  /// time has moved its entity by the displacement times the elapsed share
  /// of the duration, and is still in place with the same displacement.
  lemma {:induction false} TravelSoFar(c: Components, deltas: seq<nat>)
    requires c.knockback.Some? && c.translation.Some?
    requires c.knockback.value.duration.mode == Once && !c.knockback.value.duration.finished
    requires c.knockback.value.duration.elapsed == 0
    requires Total(deltas) < c.knockback.value.duration.duration
    ensures var r := Travel(c, deltas); var kb := c.knockback.value;
      && r.knockback.Some? && r.translation.Some?
      && r.knockback.value.displacement == kb.displacement
      && r.knockback.value.duration.duration == kb.duration.duration
      && r.knockback.value.duration.mode == Once
      && r.knockback.value.duration.elapsed == Total(deltas)
      && !r.knockback.value.duration.finished
      && r.translation.value == Add3(c.translation.value, Scale3(kb.displacement, Fraction(Total(deltas), kb.duration.duration)))
  {
    var kb := c.knockback.value;
    var dur := kb.duration.duration;
    if deltas == [] {
      assert Add3(c.translation.value, Scale3(kb.displacement, 0.0)) == c.translation.value;
    } else {
      var p := deltas[..|deltas| - 1];
      var last := deltas[|deltas| - 1];
      assert Total(deltas) == Total(p) + last;
      TravelSoFar(c, p);
      var before := Travel(c, p);
      assert Travel(c, deltas) == KnockStep(before, last);
      var timer := Tick(before.knockback.value.duration, last);
      assert !timer.finished && timer.elapsed == Total(deltas);
      FractionAdd(Total(p), last, dur);
      MoveTwice(c.translation.value, kb.displacement, Fraction(Total(p), dur), Fraction(last, dur));
    }
  }
}
