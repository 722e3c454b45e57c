/// Colliders for the level's wall tiles (levels.rs): each newly added wall
/// gets a collider chosen by the edge tags on its tile.
module Levels {
  import opened Geometry
  import opened Components
  import Ecs

  const TileSize: real := 16.0

  /// The collider one tile tag asks for, or None for a tag that is not one of
  /// the four edges.
  function TagCollider(tag: string): Option<Collider> {
    if tag == "left" then Some(ColliderWithOffset(Vec2(6.0, TileSize), Vec2(-2.0, 0.0)))
    else if tag == "right" then Some(ColliderWithOffset(Vec2(6.0, TileSize), Vec2(2.0, 0.0)))
    else if tag == "top" then Some(ColliderWithOffset(Vec2(TileSize, 12.0), Vec2(0.0, 4.0)))
    else if tag == "bottom" then Some(ColliderWithOffset(Vec2(TileSize, 12.0), Vec2(0.0, -4.0)))
    else None
  }

  /// The collider of the last recognised tag, or None when there is none.
  function LastCollider(tags: seq<string>): Option<Collider> {
    if tags == [] then None
    else if TagCollider(tags[|tags| - 1]).Some? then TagCollider(tags[|tags| - 1])
    else LastCollider(tags[..|tags| - 1])
  }

  /// The collider a wall ends with: each recognised tag inserts its collider,
  /// replacing whatever the entity had, so the last one counts.
  function WallCollider(current: Option<Collider>, tags: seq<string>): Option<Collider> {
    if LastCollider(tags).Some? then LastCollider(tags) else current
  }

  /// The tag loop of `add_wall_colliders` for one entity.
  method InsertTagColliders(current: Option<Collider>, tags: seq<string>) returns (c: Option<Collider>)
    ensures c == WallCollider(current, tags)
  {
    c := current;
    for i := 0 to |tags|
      invariant c == WallCollider(current, tags[..i])
    {
      assert tags[..i + 1][..i] == tags[..i];
      var tag := tags[i];
      if tag == "left" {
        c := Some(ColliderWithOffset(Vec2(6.0, TileSize), Vec2(-2.0, 0.0)));
      } else if tag == "right" {
        c := Some(ColliderWithOffset(Vec2(6.0, TileSize), Vec2(2.0, 0.0)));
      } else if tag == "top" {
        c := Some(ColliderWithOffset(Vec2(TileSize, 12.0), Vec2(0.0, 4.0)));
      } else if tag == "bottom" {
        c := Some(ColliderWithOffset(Vec2(TileSize, 12.0), Vec2(0.0, -4.0)));
      }
    }
    assert tags[..|tags|] == tags;
  }

  /// Entities the query visits: walls of the level added since the last run
  /// (the `added` set), with their tile's tags.
  predicate IsNewWall(c: Components, e: Entity, added: set<Entity>) {
    e in added && LevelWall in c.tags && c.tileTags.Some?
  }

  /// The records after `add_wall_colliders`.
  function WithWallColliders(ents: map<Entity, Components>, added: set<Entity>): map<Entity, Components> {
    map e | e in ents ::
      if IsNewWall(ents[e], e, added)
      then ents[e].(collider := WallCollider(ents[e].collider, ents[e].tileTags.value))
      else ents[e]
  }

  /// `add_wall_colliders`.
  method AddWallColliders(w: Ecs.World, added: set<Entity>)
    requires w.Valid()
    modifies w`entities
    ensures w.Valid()
    ensures w.entities == WithWallColliders(old(w.entities), added)
  {
    ghost var ents := w.entities;
    var order := w.order;
    var r := w.entities;
    for k := 0 to |order|
      invariant r.Keys == ents.Keys
      invariant forall e | e in ents :: r[e] == if e in order[..k] then WithWallColliders(ents, added)[e] else ents[e]
    {
      var e := order[k];
      assert order[..k + 1] == order[..k] + [e];
      var c := r[e];
      if IsNewWall(c, e, added) {
        var collider := InsertTagColliders(c.collider, c.tileTags.value);
        r := r[e := c.(collider := collider)];
      }
    }
    assert order[..|order|] == order;
    w.entities := r;
  }

  /// The four edge tags and their colliders: thin vertical boxes pulled
  /// towards the left or right edge, flat boxes pulled towards the top or
  /// bottom edge.
  lemma EdgeTable()
    ensures LastCollider(["left"]) == Some(Collider(Vec2(6.0, 16.0), Vec2(-2.0, 0.0), []))
    ensures LastCollider(["right"]) == Some(Collider(Vec2(6.0, 16.0), Vec2(2.0, 0.0), []))
    ensures LastCollider(["top"]) == Some(Collider(Vec2(16.0, 12.0), Vec2(0.0, 4.0), []))
    ensures LastCollider(["bottom"]) == Some(Collider(Vec2(16.0, 12.0), Vec2(0.0, -4.0), []))
  {
    assert ["left"][..0] == [];
  }

  /// No recognised tag at all means no collider, and the other way round.
  lemma {:induction false} NoRecognisedTag(tags: seq<string>)
    ensures LastCollider(tags).None? <==> forall i :: 0 <= i < |tags| ==> TagCollider(tags[i]).None?
  {
    if tags != [] {
      var p := tags[..|tags| - 1];
      NoRecognisedTag(p);
      assert forall i :: 0 <= i < |p| ==> tags[i] == p[i];
    }
  }

  /// A result comes from a recognised tag after which every tag is
  /// unrecognised.
  lemma {:induction false} LastColliderWins(tags: seq<string>)
    ensures LastCollider(tags).Some? ==>
      exists i :: 0 <= i < |tags| && TagCollider(tags[i]) == LastCollider(tags) &&
        forall j :: i < j < |tags| ==> TagCollider(tags[j]).None?
  {
    if tags != [] {
      var n := |tags| - 1;
      if TagCollider(tags[n]).Some? {
        assert TagCollider(tags[n]) == LastCollider(tags);
      } else {
        var p := tags[..n];
        LastColliderWins(p);
        if LastCollider(p).Some? {
          var i :| 0 <= i < |p| && TagCollider(p[i]) == LastCollider(p) &&
            forall j :: i < j < |p| ==> TagCollider(p[j]).None?;
          assert tags[i] == p[i];
          assert forall j :: i < j < n ==> tags[j] == p[j];
        }
      }
    }
  }

  /// Appending unrecognised tags changes nothing, and a wall whose tags are
  /// all unrecognised keeps the collider it had.
  lemma {:induction false} UnrecognisedTagsIgnored(tags: seq<string>, junk: seq<string>, current: Option<Collider>)
    requires forall i :: 0 <= i < |junk| ==> TagCollider(junk[i]).None?
    ensures LastCollider(tags + junk) == LastCollider(tags)
    ensures WallCollider(current, junk) == current
  {
    if junk == [] {
      assert tags + junk == tags;
    } else {
      var front := junk[..|junk| - 1];
      UnrecognisedTagsIgnored(tags, front, current);
      assert (tags + junk)[..|tags + junk| - 1] == tags + front;
      assert (tags + junk)[|tags + junk| - 1] == junk[|junk| - 1];
    }
  }

  /// A tile tagged both "left" and "top" gets the top collider: the later
  /// insert replaces the earlier one.
  lemma LeftThenTop()
    ensures LastCollider(["left", "top"]) == Some(Collider(Vec2(16.0, 12.0), Vec2(0.0, 4.0), []))
  {
  }

  /// Running the system again over the same walls changes nothing.
  lemma WithWallCollidersIdempotent(ents: map<Entity, Components>, added: set<Entity>)
    ensures WithWallColliders(WithWallColliders(ents, added), added) == WithWallColliders(ents, added)
  {
    var once := WithWallColliders(ents, added);
    forall e | e in ents
      ensures WithWallColliders(once, added)[e] == once[e]
    {
    }
  }
}
