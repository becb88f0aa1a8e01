/**
 * The records shared by every simulated object: the entity base (position,
 * rotation, alive flag, deferred-action queue) and the closed set of kinds
 * (Wall, Shooter, Bullet, Diamond, Player) with the per-kind state each keeps.
 *
 * The physics body an entity owns is not kept here: its pose is an input
 * (`Pose`) handed to `Sync`, as the physics step reports it.
 */
module Entities {

  /** Identity of an entity inside its level; stands for the shared pointer. */
  type EntityId = nat

  datatype Vec = Vec(x: real, y: real)

  /** An integer offset, as the shooting directions are stored. */
  datatype IVec = IVec(x: int, y: int)

  /** A bullet colour; bullets of equal colour belong to the same side. */
  datatype Color = Color(r: real, g: real, b: real, a: real)

  /** Colour of bullets fired by shooters. */
  const BlockColor := Color(1.0, 0.0, 0.0, 1.0)

  /** Colour of bullets fired by the player. */
  const PlayerColor := Color(1.0, 1.0, 0.0, 1.0)

  /** The camera parameters the controller last received: position and zoom. */
  datatype Camera = Camera(x: real, y: real, zoom: real)

  /**
   * A deferred action on an entity's queue. `Explode` blows up at the owner's
   * position; `Shoot` spawns a player bullet aimed at the pointer, recording
   * everything the action captured when the mouse button was pressed.
   */
  datatype Action =
    | Explode
    | Shoot(mouse: Vec, screen: IVec, camera: Camera, exploding: bool)

  datatype Kind =
    | Wall
    | Shooter(directions: seq<IVec>, interval: real, clock: real,
              nextIsDiamond: bool, rendererPrepared: bool)
    | Bullet(startVelocity: Vec, color: Color, scale: real, following: bool, exploding: bool)
    | Diamond(startVelocity: Vec)
    | Player(touching: set<EntityId>, bulletCount: nat)

  datatype Entity = Entity(x: real, y: real, rotation: real, alive: bool,
                           onUpdate: seq<Action>, kind: Kind)

  /** dynamic_cast<Wall *> succeeds: walls and, by inheritance, shooters. */
  predicate IsWall(e: Entity)
  {
    e.kind.Wall? || e.kind.Shooter?
  }

  /** dynamic_cast<Bullet *> succeeds. */
  predicate IsBullet(e: Entity)
  {
    e.kind.Bullet?
  }

  /** The Entity constructor: the given position and rotation, alive, nothing queued. */
  function Create(x: real, y: real, rotation: real, kind: Kind): (e: Entity)
    ensures e.x == x && e.y == y && e.rotation == rotation && e.kind == kind
    ensures e.alive && e.onUpdate == []
  {
    Entity(x, y, rotation, true, [], kind)
  }

  /** Position and angle of a physics body. */
  datatype Pose = Pose(x: real, y: real, angle: real)

  /** What Entity::Initialize asks the physics world for: a body and its fixtures. */
  datatype Body = Body(pose: Pose, owner: EntityId, fixtures: nat)

  /** Entity::Initialize: one body at the stored pose, owned by the entity, with one fixture. */
  function Initialize(e: Entity, id: EntityId): Body
  {
    Body(Pose(e.x, e.y, e.rotation), id, 1)
  }

  /** The first half of Entity::Update: copy position and angle from the body. */
  function Sync(e: Entity, p: Pose): (r: Entity)
    ensures r.x == p.x && r.y == p.y && r.rotation == p.angle
    ensures r.alive == e.alive && r.onUpdate == e.onUpdate && r.kind == e.kind
  {
    e.(x := p.x, y := p.y, rotation := p.angle)
  }

  /** Entity::Die. */
  function Die(e: Entity): (r: Entity)
    ensures !r.alive
    ensures r.x == e.x && r.y == e.y && r.rotation == e.rotation
    ensures r.onUpdate == e.onUpdate && r.kind == e.kind
  {
    e.(alive := false)
  }

  /** A body created by Initialize sits at the entity's stored pose and is owned by it. */
  lemma InitializeAtStoredPose(e: Entity, id: EntityId)
    ensures Initialize(e, id).owner == id && Initialize(e, id).fixtures == 1
    ensures Sync(e, Initialize(e, id).pose) == e
  {
  }

  /** After an update copies a body's pose, X() and Y() report it until the next copy. */
  lemma SyncLastWins(e: Entity, p: Pose, q: Pose)
    ensures Sync(Sync(e, p), q) == Sync(e, q)
    ensures Sync(e, p).x == p.x && Sync(e, p).y == p.y
  {
  }

  /** Die is idempotent, and nothing but Die clears the alive flag of a new entity. */
  lemma DieIdempotent(e: Entity)
    ensures Die(Die(e)) == Die(e)
    ensures Die(e) == e <==> !e.alive
  {
  }
}
