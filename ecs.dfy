/// The entity store the systems run against: every live entity in the order
/// queries visit them, a record of components per entity, and the resources
/// (spawn timers and the pending spawn list) that systems share.
module Ecs {
  import opened Components
  import opened Timers

  /// 0.5 s, the period of both spawn timers (enemies.rs and ghost.rs each keep their own).
  const SpawnInterval: nat := 500_000_000

  ghost predicate Distinct(s: seq<Entity>) {
    forall i, j :: 0 <= i < j < |s| ==> s[i] != s[j]
  }

  /// The ids handed out to `n` entities spawned in a row from `start`.
  function FreshIds(start: Entity, n: nat): (ids: seq<Entity>)
    ensures |ids| == n && forall i :: 0 <= i < n ==> ids[i] == start + i
  {
    seq(n, i requires 0 <= i < n => start + i)
  }

  /// The records after spawning `bundles` with ids from `start` on.
  function WithSpawned(ents: map<Entity, Components>, start: Entity, bundles: seq<Components>): (r: map<Entity, Components>)
    ensures forall e :: e in r <==> e in ents || start <= e < start + |bundles|
    ensures forall k: Entity :: start <= k < start + |bundles| ==> r[k] == bundles[k - start]
    ensures forall e :: e in ents && !(start <= e < start + |bundles|) ==> r[e] == ents[e]
  {
    if bundles == [] then ents
    else WithSpawned(ents, start, bundles[..|bundles| - 1])[start + |bundles| - 1 := bundles[|bundles| - 1]]
  }

  /// `q` without the members of `s`, order kept.
  function Without(q: seq<Entity>, s: set<Entity>): (r: seq<Entity>)
    ensures |r| <= |q|
  {
    if q == [] then []
    else Without(q[..|q| - 1], s) + (if q[|q| - 1] in s then [] else [q[|q| - 1]])
  }

  lemma {:induction false} WithoutMembers(q: seq<Entity>, s: set<Entity>)
    ensures forall x :: x in Without(q, s) <==> x in q && x !in s
  {
    if q != [] {
      WithoutMembers(q[..|q| - 1], s);
      assert q == q[..|q| - 1] + [q[|q| - 1]];
    }
  }

  lemma {:induction false} WithoutDistinct(q: seq<Entity>, s: set<Entity>)
    requires Distinct(q)
    ensures Distinct(Without(q, s))
  {
    if q != [] {
      var p := q[..|q| - 1];
      WithoutDistinct(p, s);
      WithoutMembers(p, s);
      assert q[|q| - 1] !in p;
    }
  }

  /// The despawn loop over the query order: the entities that are not doomed,
  /// in order.
  method KeptInOrder(order: seq<Entity>, doomed: set<Entity>) returns (kept: seq<Entity>)
    ensures kept == Without(order, doomed)
  {
    kept := [];
    for i := 0 to |order|
      invariant kept == Without(order[..i], doomed)
    {
      assert order[..i + 1][..i] == order[..i];
      if order[i] !in doomed {
        kept := kept + [order[i]];
      }
    }
    assert order[..|order|] == order;
  }

  class World {
    var order: seq<Entity>
    var entities: map<Entity, Components>
    var nextId: Entity
    var enemySpawnTimer: Timer
    var ghostSpawnTimer: Timer
    /// `ActiveSpawnList`: enemy identifiers waiting to be spawned.
    var spawnList: seq<string>

    /// Ids are unique, the records are exactly those of the entities in
    /// `order`, and every id in use is below `nextId`.
    ghost predicate Valid()
      reads this
    {
      && Distinct(order)
      && (forall e :: e in entities <==> e in order)
      && (forall e :: e in entities ==> e < nextId)
    }

    constructor (pending: seq<string>)
      ensures Valid() && order == [] && entities == map[] && spawnList == pending
      ensures enemySpawnTimer == NewTimer(SpawnInterval, Repeating)
      ensures ghostSpawnTimer == NewTimer(SpawnInterval, Repeating)
    {
      order := [];
      entities := map[];
      nextId := 0;
      enemySpawnTimer := NewTimer(SpawnInterval, Repeating);
      ghostSpawnTimer := NewTimer(SpawnInterval, Repeating);
      spawnList := pending;
    }

    /// Applies queued spawn commands: each bundle becomes a new entity with a
    /// fresh id, visited after every existing entity.
    method SpawnAll(bundles: seq<Components>)
      requires Valid()
      modifies this`order, this`entities, this`nextId
      ensures Valid()
      ensures order == old(order) + FreshIds(old(nextId), |bundles|)
      ensures entities == WithSpawned(old(entities), old(nextId), bundles)
      ensures nextId == old(nextId) + |bundles|
    {
      var ids := FreshIds(nextId, |bundles|);
      forall i, j | 0 <= i < j < |order + ids|
        ensures (order + ids)[i] != (order + ids)[j]
      {
        if j >= |order| && i < |order| {
          assert order[i] in entities;
        }
      }
      forall e
        ensures e in WithSpawned(entities, nextId, bundles) <==> e in order + ids
      {
        if nextId <= e < nextId + |bundles| {
          assert ids[e - nextId] == e;
        }
      }
      order := order + ids;
      entities := WithSpawned(entities, nextId, bundles);
      nextId := nextId + |bundles|;
    }

    /// Applies queued despawn commands: the doomed entities and all their
    /// components disappear, every other entity keeps its place and record.
    method DespawnAll(doomed: set<Entity>)
      requires Valid()
      modifies this`order, this`entities
      ensures Valid()
      ensures order == Without(old(order), doomed)
      ensures entities == map e | e in old(entities) && e !in doomed :: old(entities)[e]
    {
      var kept := KeptInOrder(order, doomed);
      var left := map e | e in entities && e !in doomed :: entities[e];
      WithoutDistinct(order, doomed);
      assert forall e :: e in left <==> e in kept by {
        WithoutMembers(order, doomed);
      }
      assert forall e :: e in left ==> e < nextId;
      order := kept;
      entities := left;
    }
  }
}
