/**
 * Bullet behaviour: the die-or-explode decision on contact and the velocity
 * steering of a homing bullet.
 */
module Bullets {
  import opened Entities

  /** Fraction of the bullet-to-player vector blended into the velocity each update. */
  const Blend: real := 0.1

  /** Box2D's b2_epsilon (FLT_EPSILON): shorter vectors are left unnormalised. */
  const Epsilon: real := 0.0000001192092896

  /** The bullet constructor: a bullet with its start velocity, colour and behaviour flags. */
  function NewBullet(x: real, y: real, v: Vec, color: Color, scale: real,
                     following: bool, exploding: bool): (b: Entity)
    ensures b.kind == Bullet(v, color, scale, following, exploding)
    ensures b.x == x && b.y == y && b.rotation == 0.0 && b.alive && b.onUpdate == []
  {
    Create(x, y, 0.0, Bullet(v, color, scale, following, exploding))
  }

  /** The other entity is a bullet of the same side. */
  predicate SameSide(b: Entity, other: Entity)
    requires b.kind.Bullet?
  {
    other.kind.Bullet? && other.kind.color == b.kind.color
  }

  /** Bullet::OnCollisionStart. */
  function OnCollisionStart(b: Entity, other: Entity): (r: Entity)
    requires b.kind.Bullet?
    ensures r.kind == b.kind && r.x == b.x && r.y == b.y && r.rotation == b.rotation
    ensures b.kind.exploding ==> r.alive == b.alive && r.onUpdate == b.onUpdate + [Explode]
    ensures !b.kind.exploding ==> r.onUpdate == b.onUpdate
    ensures !b.kind.exploding && SameSide(b, other) ==> r == b
    ensures !b.kind.exploding && !SameSide(b, other) ==> !r.alive
  {
    if !other.kind.Bullet? || other.kind.color != b.kind.color || b.kind.exploding then
      if b.kind.exploding then b.(onUpdate := b.onUpdate + [Explode])
      else Die(b)
    else b
  }

  /** The bullet after a run of starting contacts, in order. */
  function CollideAll(b: Entity, others: seq<Entity>): (r: Entity)
    requires b.kind.Bullet?
    ensures r.kind == b.kind
    decreases |others|
  {
    if others == [] then b else CollideAll(OnCollisionStart(b, others[0]), others[1..])
  }

  function Explosions(n: nat): seq<Action>
  {
    seq(n, _ => Explode)
  }

  /**
   * An exploding bullet never dies of a contact, whatever it touches, and each
   * starting contact queues exactly one explosion.
   */
  lemma {:induction false} ExplodingNeverDies(b: Entity, others: seq<Entity>)
    requires b.kind.Bullet? && b.kind.exploding
    ensures CollideAll(b, others).alive == b.alive
    ensures CollideAll(b, others).onUpdate == b.onUpdate + Explosions(|others|)
    decreases |others|
  {
    if others != [] {
      var next := OnCollisionStart(b, others[0]);
      ExplodingNeverDies(next, others[1..]);
      assert next.onUpdate + Explosions(|others| - 1) == b.onUpdate + Explosions(|others|);
    }
  }

  /**
   * A plain bullet survives a run of contacts exactly when every one of them was
   * with a bullet of its own colour, and it never queues anything.
   */
  lemma {:induction false} PlainSurvivesOnlyItsOwnSide(b: Entity, others: seq<Entity>)
    requires b.kind.Bullet? && !b.kind.exploding
    ensures CollideAll(b, others).onUpdate == b.onUpdate
    ensures CollideAll(b, others).alive <==>
              b.alive && forall i :: 0 <= i < |others| ==> SameSide(b, others[i])
    decreases |others|
  {
    if others != [] {
      var next := OnCollisionStart(b, others[0]);
      PlainSurvivesOnlyItsOwnSide(next, others[1..]);
      assert SameSide(next, others[0]) == SameSide(b, others[0]);
      if !SameSide(b, others[0]) {
        assert !next.alive;
      } else {
        assert forall i :: 1 <= i < |others| ==> (SameSide(b, others[i]) <==> SameSide(next, others[1..][i - 1]));
      }
    }
  }

  /** The homing raycast's filter: bullets neither count as hits nor block the view. */
  predicate Targetable(e: Entity)
  {
    !IsBullet(e)
  }

  function SquaredLength(v: Vec): real
  {
    v.x * v.x + v.y * v.y
  }

  /** Old velocity plus a tenth of the vector to the player. */
  function Blended(v: Vec, delta: Vec): Vec
  {
    Vec(v.x + delta.x * Blend, v.y + delta.y * Blend)
  }

  /**
   * The steering step of Bullet::InternalUpdate: normalise the blended vector and
   * rescale it to the old speed. `speed` and `blendLength` are the two square
   * roots the source takes, passed in as the lengths they are.
   */
  function Steer(v: Vec, delta: Vec, speed: real, blendLength: real): (r: Vec)
    requires speed >= 0.0 && speed * speed == SquaredLength(v)
    requires blendLength >= 0.0 && blendLength * blendLength == SquaredLength(Blended(v, delta))
    ensures blendLength >= Epsilon ==> SquaredLength(r) == SquaredLength(v)
    ensures blendLength >= Epsilon ==>
              r.x * Blended(v, delta).y == r.y * Blended(v, delta).x
              && r.x * Blended(v, delta).x + r.y * Blended(v, delta).y >= 0.0
  {
    var d := Blended(v, delta);
    if blendLength < Epsilon then
      Vec(d.x * speed, d.y * speed)
    else
      var k := speed / blendLength;
      var r := Vec(d.x * k, d.y * k);
      assert SquaredLength(r) == k * k * SquaredLength(d);
      assert k * k * (blendLength * blendLength) == speed * speed;
      assert r.x * d.x + r.y * d.y == k * SquaredLength(d);
      r
  }
}
