/// Damage on contact, with a cooldown between hits, and removal of entities
/// whose health reached zero (health.rs).
module HealthSystem {
  import opened Components
  import opened Timers
  import Ecs

  /// 0.25 s between two hits on the same entity.
  const DamageCooldown: nat := 250_000_000

  /// `saturating_sub(1)` on the `u32` amount.
  function LoseOne(n: nat): (r: nat)
    ensures n == 0 ==> r == 0
    ensures n > 0 ==> r + 1 == n
  {
    if n == 0 then 0 else n - 1
  }

  /// Entities `take_damage::<T, _>` visits: health, collider and the marker `t`.
  predicate IsSubject(c: Components, t: Tag) {
    c.health.Some? && c.collider.Some? && t in c.tags
  }

  /// `e` answers the attacker query: it exists, carries `attacker` and has a collider.
  predicate IsAttacker(ents: map<Entity, Components>, e: Entity, attacker: Tag) {
    e in ents && attacker in ents[e].tags && ents[e].collider.Some?
  }

  /// Some entity of the list answers the attacker query.
  predicate Hit(ents: map<Entity, Components>, list: seq<Entity>, attacker: Tag) {
    list != [] && (Hit(ents, list[..|list| - 1], attacker) || IsAttacker(ents, list[|list| - 1], attacker))
  }

  lemma {:induction false} HitIff(ents: map<Entity, Components>, list: seq<Entity>, attacker: Tag)
    ensures Hit(ents, list, attacker) <==> exists i :: 0 <= i < |list| && IsAttacker(ents, list[i], attacker)
  {
    if list != [] {
      var p := list[..|list| - 1];
      HitIff(ents, p, attacker);
      if exists i :: 0 <= i < |list| && IsAttacker(ents, list[i], attacker) {
        var i :| 0 <= i < |list| && IsAttacker(ents, list[i], attacker);
        if i < |p| {
          assert p[i] == list[i];
        }
      }
    }
  }

  /// One subject's health in one frame: a running cooldown ticks first; then,
  /// when hit, a missing cooldown is started or a finished one reset, and
  /// the amount drops by one; a hit during a running cooldown does nothing.
  function DamageStep(h: Health, hit: bool, delta: nat): (r: Health)
    ensures r.amount == h.amount || r.amount + 1 == h.amount
    ensures !hit ==> r.amount == h.amount
    ensures r.cooldown.None? <==> h.cooldown.None? && !hit
    ensures !hit ==> r == h.(cooldown := if h.cooldown.Some? then Some(Tick(h.cooldown.value, delta)) else None)
  {
    var ticked := if h.cooldown.Some? then h.(cooldown := Some(Tick(h.cooldown.value, delta))) else h;
    if !hit then ticked
    else match ticked.cooldown
      case None => Health(LoseOne(h.amount), Some(NewTimer(DamageCooldown, Once)))
      case Some(cd) => if cd.finished then Health(LoseOne(h.amount), Some(Reset(cd))) else ticked
  }

  /// The records after `take_damage::<t, attacker>`.
  function DamageAll(ents: map<Entity, Components>, t: Tag, attacker: Tag, delta: nat): map<Entity, Components> {
    map e | e in ents ::
      if IsSubject(ents[e], t)
      then ents[e].(health := Some(DamageStep(ents[e].health.value, Hit(ents, ents[e].collider.value.collisions, attacker), delta)))
      else ents[e]
  }

  /// `take_damage` writes only health, only of its subjects, and takes at
  /// most one point from each.
  lemma DamageAllFrame(ents: map<Entity, Components>, t: Tag, attacker: Tag, delta: nat)
    ensures var r := DamageAll(ents, t, attacker, delta);
      && r.Keys == ents.Keys
      && (forall e | e in ents :: r[e].(health := ents[e].health) == ents[e])
      && (forall e | e in ents && !IsSubject(ents[e], t) :: r[e] == ents[e])
      && (forall e | e in ents && IsSubject(ents[e], t) ::
            r[e].health.Some? && r[e].health.value.amount <= ents[e].health.value.amount <= r[e].health.value.amount + 1)
  {
  }

  /// The `any` over the collision list.
  method AnyAttacker(ents: map<Entity, Components>, list: seq<Entity>, attacker: Tag) returns (found: bool)
    ensures found == Hit(ents, list, attacker)
  {
    found := false;
    var i := 0;
    while i < |list| && !found
      invariant 0 <= i <= |list|
      invariant found <==> exists j :: 0 <= j < i && IsAttacker(ents, list[j], attacker)
    {
      found := list[i] in ents && attacker in ents[list[i]].tags && ents[list[i]].collider.Some?;
      i := i + 1;
    }
    HitIff(ents, list, attacker);
  }

  /// `take_damage::<t, attacker>`. The attacker query reads only markers and
  /// colliders, which this system never writes, so it is answered from the
  /// records as they were when the system started.
  method TakeDamage(w: Ecs.World, t: Tag, attacker: Tag, delta: nat)
    requires w.Valid()
    modifies w`entities
    ensures w.Valid()
    ensures w.entities == DamageAll(old(w.entities), t, attacker, delta)
  {
    var ents := w.entities;
    var order := w.order;
    var r := w.entities;
    for k := 0 to |order|
      invariant r.Keys == ents.Keys
      invariant forall e | e in ents :: r[e] == if e in order[..k] then DamageAll(ents, t, attacker, delta)[e] else ents[e]
    {
      var e := order[k];
      assert order[..k + 1] == order[..k] + [e];
      var c := DamageRecord(ents, e, t, attacker, delta);
      r := r[e := c];
    }
    assert order[..|order|] == order;
    w.entities := r;
  }

  /// One visited entity: a subject gets its health updated, any other
  /// entity is left as it is.
  method DamageRecord(ents: map<Entity, Components>, e: Entity, t: Tag, attacker: Tag, delta: nat) returns (c: Components)
    requires e in ents
    ensures c == DamageAll(ents, t, attacker, delta)[e]
  {
    c := ents[e];
    if IsSubject(c, t) {
      var hit := AnyAttacker(ents, c.collider.value.collisions, attacker);
      var h := ApplyHit(c.health.value, hit, delta);
      c := c.(health := Some(h));
    }
  }

  /// The subject part of the loop body: tick, then on a hit start or reset the
  /// cooldown and lose a point, or skip while the cooldown runs.
  method ApplyHit(h0: Health, hit: bool, delta: nat) returns (h: Health)
    ensures h == DamageStep(h0, hit, delta)
  {
    h := h0;
    if h.cooldown.Some? {
      h := h.(cooldown := Some(Tick(h.cooldown.value, delta)));
    }
    if hit {
      match h.cooldown {
        case None =>
          h := Health(LoseOne(h.amount), Some(NewTimer(DamageCooldown, Once)));
        case Some(cd) =>
          if cd.finished {
            h := Health(LoseOne(h.amount), Some(Reset(cd)));
          }
      }
    }
  }

  /// A first hit costs one point and starts a fresh 0.25 s cooldown.
  lemma FirstHitStartsCooldown(h: Health, delta: nat)
    requires h.cooldown == None
    ensures DamageStep(h, true, delta) == Health(LoseOne(h.amount), Some(NewTimer(DamageCooldown, Once)))
  {
  }

  /// A hit in the frame that runs the cooldown out costs one point and
  /// restarts the cooldown from zero.
  lemma HitAfterCooldownDamages(h: Health, cd: Timer, delta: nat)
    requires h.cooldown == Some(cd) && cd.mode == Once
    requires cd.finished || cd.elapsed + delta >= cd.duration
    ensures DamageStep(h, true, delta).amount == LoseOne(h.amount)
    ensures DamageStep(h, true, delta).cooldown == Some(Reset(Tick(cd, delta)))
  {
  }

  /// A damage cooldown stays a timer that ticking can produce, with a
  /// positive duration, whatever the frames bring.
  lemma DamageStepKeepsCooldownValid(h: Health, hit: bool, delta: nat)
    requires h.cooldown.Some? ==> Timers.Valid(h.cooldown.value) && h.cooldown.value.duration > 0
    ensures var r := DamageStep(h, hit, delta);
      r.cooldown.Some? ==> Timers.Valid(r.cooldown.value) && r.cooldown.value.duration > 0
  {
    NewTimerValid(DamageCooldown, Once);
    if h.cooldown.Some? {
      TickValid(h.cooldown.value, delta);
    }
  }

  /// A hit while the cooldown is still running costs nothing.
  lemma CooldownBlocksDamage(h: Health, cd: Timer, delta: nat)
    requires h.cooldown == Some(cd) && cd.mode == Once && !cd.finished
    requires cd.elapsed + delta < cd.duration
    ensures DamageStep(h, true, delta).amount == h.amount
    ensures DamageStep(h, true, delta).cooldown.value.elapsed == cd.elapsed + delta
  {
  }

  /// Health after a run of frames of continuous contact.
  function InContact(h: Health, deltas: seq<nat>): Health {
    if deltas == [] then h else DamageStep(InContact(h, deltas[..|deltas| - 1]), true, deltas[|deltas| - 1])
  }

  /// Continuous contact costs nothing more until the running cooldown has
  /// accumulated its full duration: the frames only advance the timer.
  lemma {:induction false} ContactDuringCooldown(h: Health, cd: Timer, deltas: seq<nat>)
    requires h.cooldown == Some(cd) && cd.mode == Once && !cd.finished
    requires cd.elapsed + Total(deltas) < cd.duration
    ensures InContact(h, deltas).amount == h.amount
    ensures InContact(h, deltas).cooldown == Some(cd.(elapsed := cd.elapsed + Total(deltas), timesFinishedThisTick := if deltas == [] then cd.timesFinishedThisTick else 0))
  {
    if deltas != [] {
      var p := deltas[..|deltas| - 1];
      ContactDuringCooldown(h, cd, p);
    }
  }

  /// Continuous contact starting with no cooldown costs exactly one point in
  /// the first frame and nothing more while less than 0.25 s has passed since.
  lemma ContactCostsOnePerCooldown(h: Health, first: nat, later: seq<nat>)
    requires h.cooldown == None && h.amount > 0
    requires Total(later) < DamageCooldown
    ensures InContact(h, [first] + later).amount + 1 == h.amount
  {
    var start := DamageStep(h, true, first);
    var cd := NewTimer(DamageCooldown, Once);
    ContactDuringCooldown(start, cd, later);
    InContactPrefix(h, [first], later);
  }

  lemma {:induction false} InContactPrefix(h: Health, a: seq<nat>, b: seq<nat>)
    ensures InContact(h, a + b) == InContact(InContact(h, a), b)
  {
    if b == [] {
      assert a + b == a;
    } else {
      InContactPrefix(h, a, b[..|b| - 1]);
      assert (a + b)[..|a + b| - 1] == a + b[..|b| - 1];
    }
  }

  // ---------------------------------------------------------------------
  // despawn_dead_entities

  /// Entities whose health amount is zero.
  function Dead(ents: map<Entity, Components>): set<Entity> {
    set e | e in ents && ents[e].health.Some? && ents[e].health.value.amount == 0
  }

  /// The loop of `despawn_dead_entities`: every visited entity with zero health.
  method CollectDead(order: seq<Entity>, ents: map<Entity, Components>) returns (doomed: set<Entity>)
    requires forall e :: e in ents <==> e in order
    ensures doomed == Dead(ents)
  {
    doomed := {};
    for k := 0 to |order|
      invariant doomed == set e | e in order[..k] && ents[e].health.Some? && ents[e].health.value.amount == 0
    {
      assert order[..k + 1] == order[..k] + [order[k]];
      var c := ents[order[k]];
      if c.health.Some? && c.health.value.amount == 0 {
        doomed := doomed + {order[k]};
      }
    }
    assert order[..|order|] == order;
  }

  /// `despawn_dead_entities`: the entities with zero health are gone, the
  /// others keep their place and their components.
  method DespawnDeadEntities(w: Ecs.World)
    requires w.Valid()
    modifies w`order, w`entities
    ensures w.Valid()
    ensures w.order == Ecs.Without(old(w.order), Dead(old(w.entities)))
    ensures w.entities == map e | e in old(w.entities) && e !in Dead(old(w.entities)) :: old(w.entities)[e]
  {
    var doomed := CollectDead(w.order, w.entities);
    w.DespawnAll(doomed);
  }

  /// After the despawn pass no remaining entity has zero health, and every
  /// entity with health left is still there.
  lemma DespawnExact(ents: map<Entity, Components>)
    ensures var kept := map e | e in ents && e !in Dead(ents) :: ents[e];
      (forall e | e in kept :: !(kept[e].health.Some? && kept[e].health.value.amount == 0)) &&
      (forall e | e in ents :: e in kept <==> !(ents[e].health.Some? && ents[e].health.value.amount == 0))
  {
  }

  /// The records after one `ProcessCombat` step of the health plugin: the
  /// player takes ghost damage, ghosts take dagger damage, then the dead are
  /// removed.
  function CombatStep(ents: map<Entity, Components>, delta: nat): map<Entity, Components> {
    var hurt := DamageAll(DamageAll(ents, Player, Ghost, delta), Ghost, Dagger, delta);
    map e | e in hurt && e !in Dead(hurt) :: hurt[e]
  }

  /// The three chained systems of the health plugin, in order.
  method ProcessCombat(w: Ecs.World, delta: nat)
    requires w.Valid()
    modifies w`order, w`entities
    ensures w.Valid()
    ensures w.entities == CombatStep(old(w.entities), delta)
    ensures w.order == Ecs.Without(old(w.order), Dead(DamageAll(DamageAll(old(w.entities), Player, Ghost, delta), Ghost, Dagger, delta)))
  {
    TakeDamage(w, Player, Ghost, delta);
    TakeDamage(w, Ghost, Dagger, delta);
    DespawnDeadEntities(w);
  }

  /// In one combat step a ghost touched by several daggers still loses at
  /// most one point: the hit is a yes/no test, not a count.
  lemma OnePointPerStep(ents: map<Entity, Components>, delta: nat, e: Entity)
    requires e in ents && IsSubject(ents[e], Ghost) && Player !in ents[e].tags
    requires ents[e].health.value.amount > 1
    ensures e in CombatStep(ents, delta)
    ensures CombatStep(ents, delta)[e].health.value.amount + 1 >= ents[e].health.value.amount
  {
    var once := DamageAll(ents, Player, Ghost, delta);
    assert once[e] == ents[e];
  }
}
