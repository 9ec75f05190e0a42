/** The player-versus-obstacles collision test run at the end of every running frame. */
module Collision {
  import opened Geometry
  import opened Physics
  import opened Obstacles

  /** Some obstacle of `group` overlaps the rectangle `r`. */
  predicate Collides(r: Rect, group: seq<Obstacle>)
    reads group
  {
    exists i :: 0 <= i < |group| && Overlaps(r, group[i].rect)
  }

  /** The members of `group` whose rectangles overlap `r`, in group order; the group itself is left alone. */
  method SpriteCollide(r: Rect, group: seq<Obstacle>) returns (hits: seq<Obstacle>)
    ensures forall k :: 0 <= k < |hits| ==> hits[k] in group && Overlaps(r, hits[k].rect)
    ensures forall i :: 0 <= i < |group| && Overlaps(r, group[i].rect) ==> group[i] in hits
    ensures |hits| <= |group|
    ensures hits == [] <==> !Collides(r, group)
  {
    hits := [];
    var i := 0;
    while i < |group|
      invariant 0 <= i <= |group| && |hits| <= i
      invariant forall k :: 0 <= k < |hits| ==> hits[k] in group && Overlaps(r, hits[k].rect)
      invariant forall j :: 0 <= j < i && Overlaps(r, group[j].rect) ==> group[j] in hits
    {
      if Overlaps(r, group[i].rect) {
        hits := hits + [group[i]];
      }
      i := i + 1;
    }
    if hits != [] {
      assert hits[0] in group;
    }
  }

  /**
   * If the player touches any obstacle, empty the whole group and answer false (the session
   * stops); otherwise leave the group alone and answer true (the session continues).
   */
  method SpriteCollision(player: Player, group: ObstacleGroup) returns (alive: bool)
    requires group.Valid()
    modifies group
    ensures group.Valid()
    ensures alive <==> !Collides(player.rect, old(group.members))
    ensures alive ==> group.members == old(group.members)
    ensures !alive ==> group.members == []
  {
    var hits := SpriteCollide(player.rect, group.members);
    if hits != [] {
      group.Empty();
      alive := false;
    } else {
      alive := true;
    }
  }
}
