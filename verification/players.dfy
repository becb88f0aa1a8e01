/**
 * Player contact bookkeeping: the set of walls it touches, the count of
 * bullets it has caught, and the grounded test built on the touching walls.
 */
module Players {
  import opened Entities

  /** How far above a wall's origin the player's origin may be and still stand on it. */
  const FootTolerance: real := 0.42

  /** Half the horizontal extent within which a wall counts as underneath. */
  const HalfWidth: real := 0.35

  /** The Player constructor: no walls touched and no bullets caught. */
  function NewPlayer(x: real, y: real): (p: Entity)
    ensures p.kind == Player({}, 0)
    ensures p.x == x && p.y == y && p.rotation == 0.0 && p.alive && p.onUpdate == []
  {
    Create(x, y, 0.0, Player({}, 0))
  }

  /** Player::OnCollisionStart with the entity `other`, known by `id`. */
  function OnCollisionStart(p: Entity, id: EntityId, other: Entity): (r: Entity)
    requires p.kind.Player?
    ensures r.kind.Player? && r.(kind := p.kind) == p
    ensures IsWall(other) ==>
              r.kind.touching == p.kind.touching + {id} && r.kind.bulletCount == p.kind.bulletCount
    ensures !IsWall(other) && IsBullet(other) ==>
              r.kind.touching == p.kind.touching && r.kind.bulletCount == p.kind.bulletCount + 1
    ensures !IsWall(other) && !IsBullet(other) ==> r == p
  {
    if IsWall(other) then p.(kind := p.kind.(touching := p.kind.touching + {id}))
    else if IsBullet(other) then p.(kind := p.kind.(bulletCount := p.kind.bulletCount + 1))
    else p
  }

  /** Player::OnCollisionEnd with the entity `other`, known by `id`. */
  function OnCollisionEnd(p: Entity, id: EntityId, other: Entity): (r: Entity)
    requires p.kind.Player?
    ensures r.kind.Player? && r.(kind := p.kind) == p
    ensures r.kind.bulletCount == p.kind.bulletCount
    ensures IsWall(other) ==> r.kind.touching == p.kind.touching - {id}
    ensures !IsWall(other) ==> r == p
  {
    if IsWall(other) then p.(kind := p.kind.(touching := p.kind.touching - {id}))
    else p
  }

  /** The wall is underneath the player: feet within tolerance and horizontally overlapping. */
  predicate Supports(p: Entity, wall: Entity)
  {
    p.y <= wall.y + FootTolerance && p.x - HalfWidth <= wall.x && wall.x <= p.x + HalfWidth
  }

  /** Some touching wall supports the player. `walls` resolves the wall references. */
  predicate Grounded(p: Entity, walls: map<EntityId, Entity>)
    requires p.kind.Player?
  {
    exists id :: id in p.kind.touching && id in walls && Supports(p, walls[id])
  }

  /** Player::IsGrouded: look through the touching walls for one that supports the player. */
  method IsGrouded(p: Entity, walls: map<EntityId, Entity>) returns (grounded: bool)
    requires p.kind.Player? && p.kind.touching <= walls.Keys
    ensures grounded <==> Grounded(p, walls)
  {
    var rest := p.kind.touching;
    while rest != {}
      invariant rest <= p.kind.touching
      invariant forall id :: id in p.kind.touching - rest ==> !Supports(p, walls[id])
      decreases rest
    {
      var id :| id in rest;
      if Supports(p, walls[id]) {
        return true;
      }
      rest := rest - {id};
    }
    return false;
  }

  /** With no wall touched the player is never grounded. */
  lemma NothingTouchedNotGrounded(p: Entity, walls: map<EntityId, Entity>)
    requires p.kind.Player? && p.kind.touching == {}
    ensures !Grounded(p, walls)
  {
  }

  /**
   * Touching walls form a set: starting contact with the same wall twice keeps one
   * member, so a single end removes it, and neither changes the bullet count.
   */
  lemma RepeatedContactIsOneMember(p: Entity, id: EntityId, wall: Entity)
    requires p.kind.Player? && IsWall(wall)
    ensures OnCollisionStart(OnCollisionStart(p, id, wall), id, wall) == OnCollisionStart(p, id, wall)
    ensures var q := OnCollisionEnd(OnCollisionStart(OnCollisionStart(p, id, wall), id, wall), id, wall);
            id !in q.kind.touching && q.kind.touching == p.kind.touching - {id}
            && q.kind.bulletCount == p.kind.bulletCount
  {
  }

  /** Landing on a supporting wall grounds the player; leaving the only wall ungrounds it. */
  lemma LandAndLeave(p: Entity, id: EntityId, wall: Entity, walls: map<EntityId, Entity>)
    requires p.kind.Player? && p.kind.touching == {} && IsWall(wall)
    requires id in walls && walls[id] == wall && Supports(p, wall)
    ensures Grounded(OnCollisionStart(p, id, wall), walls)
    ensures !Grounded(OnCollisionEnd(OnCollisionStart(p, id, wall), id, wall), walls)
  {
    var q := OnCollisionStart(p, id, wall);
    assert id in q.kind.touching;
  }
}
