/**
 * The level: the entity set keyed by id, the shooter set, the player and its
 * controller, the diamond bookkeeping, the game-over latch, the camera and
 * the screen shakers, with the operations Level.cpp performs on them.
 *
 * The physics world is an oracle: one `Physics` record per update supplies
 * the contacts the step reported, the body poses after the step, the ray hits
 * each homing bullet's raycast found, and the order in which the entity set
 * is iterated.
 */
module Levels {
  import opened Wrappers
  import opened Entities
  import Shooters
  import Bullets
  import Players
  import Controllers

  /** Radius of an explosion; the boundary is inside. */
  const ExplosionDistance: real := 5.0
  /** How far the camera may lag behind the player, horizontally and vertically. */
  const CameraSlackX: real := 5.0
  const CameraSlackY: real := 3.0
  /** Camera position of a new level. */
  const CameraStart: real := 12.0
  const CameraZoom: real := 1.75
  /** Level time after which a diamond is scheduled. */
  const DiamondTime: real := 5.0
  /** Damping factor of every screen shaker. */
  const ShakerDamping: real := 5.0
  /** Shakers older than this are dropped. */
  const ShakerLifetime: real := 10.0
  /** ShakeScreen(power, amplitude) adds this many shakers. */
  const ShakeCount: nat := 4
  /** The second random draw of a shake direction is divided by this. */
  const VerticalShakeDivisor: real := 1.7
  /** The power and amplitude of each of the two shakes of an explosion. */
  const ExplosionShakePower: real := 15.0
  const ExplosionShakeAmplitude: real := 0.5
  /** tmax of the homing raycast. */
  const HomingRange: real := 10000.0

  datatype Shaker = Shaker(direction: Vec, shakeFactor: real, damping: real, t: real)

  datatype Level = Level(entities: map<EntityId, Entity>, nextId: nat,
                         shooters: set<EntityId>, player: Option<EntityId>,
                         controller: Option<Controllers.Controller>,
                         diamond: Option<EntityId>, hasDiamond: bool, gameOver: bool,
                         time: real, camera: Vec, shakers: seq<Shaker>)

  /**
   * The level invariant: ids are below `nextId`; shooters are live Shooter
   * entities of the level; until game over the player is a live Player entity
   * of the level; a tracked diamond is an entity of the level; a controller
   * exists exactly when a player does.
   */
  ghost predicate Valid(l: Level)
  {
    && (forall id :: id in l.entities ==> id < l.nextId)
    && (forall id :: id in l.shooters ==>
          id in l.entities && l.entities[id].kind.Shooter? && l.entities[id].alive)
    && (l.player.Some? && !l.gameOver ==>
          l.player.value in l.entities && l.entities[l.player.value].kind.Player?
          && l.entities[l.player.value].alive)
    && (l.diamond.Some? ==> l.diamond.value in l.entities)
    && (l.controller.Some? <==> l.player.Some?)
  }

  /** The Level constructor: nothing in it, camera at (12, 12), time 0, not over. */
  function NewLevel(): (l: Level)
    ensures Valid(l) && l.entities == map[] && l.shooters == {} && l.player.None?
    ensures l.camera == Vec(CameraStart, CameraStart) && l.time == 0.0
    ensures !l.gameOver && !l.hasDiamond && l.diamond.None? && l.shakers == []
  {
    Level(map[], 0, {}, None, None, None, false, false, 0.0, Vec(CameraStart, CameraStart), [])
  }

  datatype Added = Added(level: Level, id: EntityId)

  /** Level::_AddEntity: insert under a fresh id; the body Initialize creates is the physics oracle's. */
  function AddEntity(l: Level, e: Entity): (r: Added)
    ensures r.id == l.nextId && (Valid(l) ==> r.id !in l.entities)
    ensures r.level.entities == l.entities[r.id := e] && r.level.nextId == l.nextId + 1
    ensures r.level.(entities := l.entities, nextId := l.nextId) == l
    ensures Valid(l) ==> Valid(r.level)
  {
    Added(l.(entities := l.entities[l.nextId := e], nextId := l.nextId + 1), l.nextId)
  }

  /** Level::AddWall. */
  function AddWall(l: Level, x: nat, y: nat): (r: Level)
    ensures r.entities == l.entities[l.nextId := Create(x as real, y as real, 0.0, Wall)]
    ensures r.nextId == l.nextId + 1
    ensures r.(entities := l.entities, nextId := l.nextId) == l
    ensures Valid(l) ==> Valid(r)
  {
    AddEntity(l, Create(x as real, y as real, 0.0, Wall)).level
  }

  /** Level::AddShooter: a new shooter that is also tracked in the shooter set. */
  function AddShooter(l: Level, x: nat, y: nat, interval: real, clock: real): (r: Level)
    ensures r.entities == l.entities[l.nextId := Shooters.NewShooter(x, y, interval, clock)]
    ensures r.shooters == l.shooters + {l.nextId}
    ensures r.nextId == l.nextId + 1
    ensures r.(entities := l.entities, nextId := l.nextId, shooters := l.shooters) == l
    ensures Valid(l) ==> Valid(r)
  {
    var a := AddEntity(l, Shooters.NewShooter(x, y, interval, clock));
    a.level.(shooters := l.shooters + {a.id})
  }

  /** Level::CreatePlayer: a new player, and a fresh controller driving it. */
  function CreatePlayer(l: Level, x: real, y: real): (r: Level)
    ensures r.entities == l.entities[l.nextId := Players.NewPlayer(x, y)]
    ensures r.player == Some(l.nextId) && r.controller == Some(Controllers.NewController())
    ensures r.nextId == l.nextId + 1
    ensures r.(entities := l.entities, nextId := l.nextId, player := l.player,
               controller := l.controller) == l
    ensures Valid(l) && !l.gameOver ==> Valid(r)
  {
    var a := AddEntity(l, Players.NewPlayer(x, y));
    a.level.(player := Some(a.id), controller := Some(Controllers.NewController()))
  }

  /** The bullet Level::SpawnBlockBullet creates: red, scale 1, homing, not exploding. */
  function BlockBullet(x: real, y: real, vx: real, vy: real): (b: Entity)
    ensures b.kind == Bullet(Vec(vx, vy), BlockColor, 1.0, true, false)
    ensures b.x == x && b.y == y && b.alive && b.onUpdate == []
  {
    Bullets.NewBullet(x, y, Vec(vx, vy), BlockColor, 1.0, true, false)
  }

  /** Level::SpawnBlockBullet. */
  function SpawnBlockBullet(l: Level, x: real, y: real, vx: real, vy: real): (r: Level)
    ensures r.entities == l.entities[l.nextId := BlockBullet(x, y, vx, vy)]
    ensures r.nextId == l.nextId + 1 && r.(entities := l.entities, nextId := l.nextId) == l
    ensures Valid(l) ==> Valid(r)
  {
    AddEntity(l, BlockBullet(x, y, vx, vy)).level
  }

  /** Level::SpawnPlayerBullet: yellow, scale 1, not homing, exploding as asked. */
  function SpawnPlayerBullet(l: Level, x: real, y: real, vx: real, vy: real, exploding: bool): (r: Level)
    ensures r.entities ==
              l.entities[l.nextId := Bullets.NewBullet(x, y, Vec(vx, vy), PlayerColor, 1.0, false, exploding)]
    ensures r.nextId == l.nextId + 1 && r.(entities := l.entities, nextId := l.nextId) == l
    ensures Valid(l) ==> Valid(r)
  {
    AddEntity(l, Bullets.NewBullet(x, y, Vec(vx, vy), PlayerColor, 1.0, false, exploding)).level
  }

  /** Level::SpawnDiamond: a new diamond, which becomes the tracked one. */
  function SpawnDiamond(l: Level, x: real, y: real, vx: real, vy: real): (r: Level)
    ensures r.entities == l.entities[l.nextId := Create(x, y, 0.0, Diamond(Vec(vx, vy)))]
    ensures r.diamond == Some(l.nextId) && r.nextId == l.nextId + 1
    ensures r.(entities := l.entities, nextId := l.nextId, diamond := l.diamond) == l
    ensures Valid(l) ==> Valid(r)
  {
    var a := AddEntity(l, Create(x, y, 0.0, Diamond(Vec(vx, vy))));
    a.level.(diamond := Some(a.id))
  }

  // ---------------------------------------------------------------- explosions

  /** The entity lies within the explosion radius of (x, y), boundary included. */
  predicate InBlast(e: Entity, x: real, y: real)
  {
    (e.x - x) * (e.x - x) + (e.y - y) * (e.y - y) <= ExplosionDistance * ExplosionDistance
  }

  /** Level::ExplodeAt: every bullet within the radius dies; nothing else changes. */
  function ExplodeAt(l: Level, x: real, y: real): (r: Level)
    ensures r.entities.Keys == l.entities.Keys && r.(entities := l.entities) == l
    ensures forall id :: id in l.entities ==> r.entities[id].(alive := l.entities[id].alive) == l.entities[id]
    ensures forall id :: id in l.entities ==>
              (r.entities[id].alive <==>
                 l.entities[id].alive && !(IsBullet(l.entities[id]) && InBlast(l.entities[id], x, y)))
  {
    l.(entities := map id | id in l.entities ::
         if IsBullet(l.entities[id]) && InBlast(l.entities[id], x, y) then Die(l.entities[id])
         else l.entities[id])
  }

  /** A second explosion at the same place kills nothing more, and explosions keep the invariant. */
  lemma ExplodeAtIdempotent(l: Level, x: real, y: real)
    requires Valid(l)
    ensures ExplodeAt(ExplodeAt(l, x, y), x, y) == ExplodeAt(l, x, y)
    ensures Valid(ExplodeAt(l, x, y))
  {
    var once := ExplodeAt(l, x, y);
    var twice := ExplodeAt(once, x, y);
    assert twice.entities == once.entities by {
      forall id | id in once.entities
        ensures twice.entities[id] == once.entities[id]
      {
        assert once.entities[id] == l.entities[id].(alive := once.entities[id].alive);
      }
    }
  }

  /** Level::ShakeScreen(direction, power, amplitude): one shaker with damping 5, started at 0. */
  function ShakeScreenToward(l: Level, direction: Vec, power: real, amplitude: real): (r: Level)
    ensures r.shakers == l.shakers + [Shaker(Vec(direction.x * amplitude, direction.y * amplitude),
                                            power, ShakerDamping, 0.0)]
    ensures r.(shakers := l.shakers) == l
  {
    l.(shakers := l.shakers + [Shaker(Vec(direction.x * amplitude, direction.y * amplitude),
                                     power, ShakerDamping, 0.0)])
  }

  /**
   * Level::ShakeScreen(power, amplitude): four shakers in random directions.
   * `draws` holds the pairs of draws from the level's unit distribution.
   */
  function ShakeScreen(l: Level, power: real, amplitude: real, draws: seq<Vec>): (r: Level)
    requires |draws| == ShakeCount
    ensures |r.shakers| == |l.shakers| + ShakeCount && r.shakers[..|l.shakers|] == l.shakers
    ensures forall i :: 0 <= i < ShakeCount ==>
              r.shakers[|l.shakers| + i] ==
                Shaker(Vec(draws[i].x * amplitude, draws[i].y / VerticalShakeDivisor * amplitude),
                       power, ShakerDamping, 0.0)
    ensures r.(shakers := l.shakers) == l
  {
    var l1 := ShakeScreenToward(l, Vec(draws[0].x, draws[0].y / VerticalShakeDivisor), power, amplitude);
    var l2 := ShakeScreenToward(l1, Vec(draws[1].x, draws[1].y / VerticalShakeDivisor), power, amplitude);
    var l3 := ShakeScreenToward(l2, Vec(draws[2].x, draws[2].y / VerticalShakeDivisor), power, amplitude);
    ShakeScreenToward(l3, Vec(draws[3].x, draws[3].y / VerticalShakeDivisor), power, amplitude)
  }

  /**
   * The deferred action an exploding bullet queues: explode at the owner's own
   * position, then shake the screen twice. `draws` are the eight random
   * direction draws of the two shakes.
   */
  function ApplyExplode(l: Level, owner: EntityId, draws: seq<Vec>): (r: Level)
    requires owner in l.entities && |draws| == 2 * ShakeCount
    ensures r.entities == ExplodeAt(l, l.entities[owner].x, l.entities[owner].y).entities
    ensures |r.shakers| == |l.shakers| + 2 * ShakeCount && r.shakers[..|l.shakers|] == l.shakers
    ensures r.(entities := l.entities, shakers := l.shakers) == l
  {
    var e := l.entities[owner];
    var exploded := ExplodeAt(l, e.x, e.y);
    var shaken := ShakeScreen(exploded, ExplosionShakePower, ExplosionShakeAmplitude, draws[..ShakeCount]);
    var r := ShakeScreen(shaken, ExplosionShakePower, ExplosionShakeAmplitude, draws[ShakeCount..]);
    assert r.shakers[..|l.shakers|] == shaken.shakers[..|exploded.shakers|][..|l.shakers|];
    r
  }

  /** An exploding bullet is inside its own blast: carrying out its action kills it. */
  lemma OwnBlastKillsBullet(l: Level, owner: EntityId, draws: seq<Vec>)
    requires owner in l.entities && IsBullet(l.entities[owner]) && |draws| == 2 * ShakeCount
    ensures !ApplyExplode(l, owner, draws).entities[owner].alive
  {
    assert InBlast(l.entities[owner], l.entities[owner].x, l.entities[owner].y);
  }

  // ---------------------------------------------------------------- raycast

  /** One fixture the ray crossed: its entity and the hit fraction along the ray. */
  datatype Hit = Hit(entity: EntityId, fraction: real)

  /** The hit belongs to an entity of the level that the predicate accepts. */
  predicate Eligible(m: map<EntityId, Entity>, accept: Entity -> bool, h: Hit)
  {
    h.entity in m && accept(m[h.entity])
  }

  /**
   * Index i is the closest eligible hit below `bound` and the first among equals:
   * every earlier eligible hit is farther, every later one at least as far.
   */
  ghost predicate Closest(hits: seq<Hit>, m: map<EntityId, Entity>, accept: Entity -> bool, bound: real, i: nat)
  {
    && i < |hits| && Eligible(m, accept, hits[i]) && hits[i].fraction < bound
    && (forall j :: 0 <= j < i && Eligible(m, accept, hits[j]) ==> hits[j].fraction > hits[i].fraction)
    && (forall j :: i < j < |hits| && Eligible(m, accept, hits[j]) ==> hits[j].fraction >= hits[i].fraction)
  }

  /** The raycast's running minimum from hit k on, with `t` and `best` the state after hits[..k]. */
  function ClosestFrom(hits: seq<Hit>, m: map<EntityId, Entity>, accept: Entity -> bool,
                       bound: real, k: nat, t: real, best: Option<nat>): (r: Option<nat>)
    requires k <= |hits|
    requires best.None? ==> t == bound
    requires best.Some? ==> best.value < k && Eligible(m, accept, hits[best.value])
                            && hits[best.value].fraction == t && t < bound
    requires best.Some? ==> forall j :: 0 <= j < best.value && Eligible(m, accept, hits[j]) ==>
                              hits[j].fraction > t
    requires forall j :: 0 <= j < k && Eligible(m, accept, hits[j]) ==> hits[j].fraction >= t
    ensures r.Some? ==> Closest(hits, m, accept, bound, r.value)
    ensures r.None? ==> forall j :: 0 <= j < |hits| && Eligible(m, accept, hits[j]) ==>
                          hits[j].fraction >= bound
    decreases |hits| - k
  {
    if k == |hits| then best
    else if Eligible(m, accept, hits[k]) && hits[k].fraction < t then
      ClosestFrom(hits, m, accept, bound, k + 1, hits[k].fraction, Some(k))
    else
      ClosestFrom(hits, m, accept, bound, k + 1, t, best)
  }

  /**
   * Level::Raycast: the entity owning the closest hit the predicate accepts, the
   * first one found on ties, or nothing. The running minimum starts at tmax + 1;
   * tmin plays no part.
   */
  function Raycast(hits: seq<Hit>, m: map<EntityId, Entity>, accept: Entity -> bool, tmax: real): (r: Option<EntityId>)
    ensures r.Some? ==> r.value in m && accept(m[r.value])
    ensures r.Some? ==> exists i :: 0 <= i < |hits| && hits[i].entity == r.value && Closest(hits, m, accept, tmax + 1.0, i)
    ensures r.None? <==> forall j :: 0 <= j < |hits| && Eligible(m, accept, hits[j]) ==> hits[j].fraction >= tmax + 1.0
  {
    var c := ClosestFrom(hits, m, accept, tmax + 1.0, 0, tmax + 1.0, None);
    if c.Some? then Some(hits[c.value].entity) else None
  }

  /** A hit list with nothing eligible in it, or an empty one, finds nothing. */
  lemma RaycastMissesIneligible(hits: seq<Hit>, m: map<EntityId, Entity>, accept: Entity -> bool, tmax: real)
    requires forall j :: 0 <= j < |hits| ==> !Eligible(m, accept, hits[j])
    ensures Raycast(hits, m, accept, tmax).None?
  {
  }

  /** The homing raycast's hit is never a bullet. */
  lemma HomingRayIgnoresBullets(hits: seq<Hit>, m: map<EntityId, Entity>)
    ensures var r := Raycast(hits, m, Bullets.Targetable, HomingRange);
            r.Some? ==> r.value in m && !IsBullet(m[r.value])
  {
  }

  /**
   * The homing decision of Bullet::InternalUpdate for every bullet of the level:
   * the ids of the homing bullets whose raycast toward the player hits the
   * player. `rays` holds each bullet's ray hits.
   */
  function Homing(m: map<EntityId, Entity>, player: Option<EntityId>, rays: map<EntityId, seq<Hit>>): (r: set<EntityId>)
    ensures forall id :: id in r ==> id in m && m[id].kind.Bullet? && m[id].kind.following
    ensures r != {} ==> player.Some? && player.value in m && !IsBullet(m[player.value])
    ensures forall id :: id in r <==>
              id in m && m[id].kind.Bullet? && m[id].kind.following && id in rays
              && player.Some? && Raycast(rays[id], m, Bullets.Targetable, HomingRange) == Some(player.value)
  {
    set id | id in m && m[id].kind.Bullet? && m[id].kind.following && id in rays
             && player.Some? && Raycast(rays[id], m, Bullets.Targetable, HomingRange) == Some(player.value)
  }

  // ---------------------------------------------------------------- camera and shakers

  /** The camera lies within the dead zone around p. */
  predicate InDeadZone(camera: Vec, p: Vec)
  {
    p.x - CameraSlackX <= camera.x <= p.x + CameraSlackX && p.y - CameraSlackY <= camera.y <= p.y + CameraSlackY
  }

  /** The camera-follow step of Level::Render: pull the camera into the dead zone around the player. */
  function ClampCamera(camera: Vec, p: Vec): (r: Vec)
    ensures InDeadZone(r, p)
    ensures InDeadZone(camera, p) ==> r == camera
  {
    var x1 := if camera.x < p.x - CameraSlackX then p.x - CameraSlackX else camera.x;
    var x2 := if x1 > p.x + CameraSlackX then p.x + CameraSlackX else x1;
    var y1 := if camera.y < p.y - CameraSlackY then p.y - CameraSlackY else camera.y;
    var y2 := if y1 > p.y + CameraSlackY then p.y + CameraSlackY else y1;
    Vec(x2, y2)
  }

  function Distance(a: real, b: real): real
  {
    if a < b then b - a else a - b
  }

  /**
   * The clamp moves the camera as little as possible: on each axis no point of
   * the dead zone is nearer the old camera. So clamping twice is clamping once.
   */
  lemma ClampIsNearest(camera: Vec, p: Vec, q: Vec)
    requires InDeadZone(q, p)
    ensures Distance(ClampCamera(camera, p).x, camera.x) <= Distance(q.x, camera.x)
    ensures Distance(ClampCamera(camera, p).y, camera.y) <= Distance(q.y, camera.y)
    ensures ClampCamera(ClampCamera(camera, p), p) == ClampCamera(camera, p)
  {
  }

  /**
   * The shaker bookkeeping of Level::Render: every shaker ages by dt and those
   * now older than the lifetime are dropped. Their offsets are not modelled.
   */
  function AdvanceShakers(shakers: seq<Shaker>, dt: real): (r: seq<Shaker>)
    ensures |r| <= |shakers|
    ensures forall i :: 0 <= i < |r| ==> r[i].t <= ShakerLifetime
    ensures forall x :: x in r <==> x in Aged(shakers, dt) && x.t <= ShakerLifetime
  {
    Live(Aged(shakers, dt))
  }

  /** Every shaker, in order, older by dt. */
  function Aged(shakers: seq<Shaker>, dt: real): (r: seq<Shaker>)
    ensures |r| == |shakers|
    ensures forall i :: 0 <= i < |shakers| ==> r[i] == shakers[i].(t := shakers[i].t + dt)
  {
    if shakers == [] then [] else [shakers[0].(t := shakers[0].t + dt)] + Aged(shakers[1..], dt)
  }

  /** The shakers, in order, that are not older than the lifetime. */
  function Live(shakers: seq<Shaker>): (r: seq<Shaker>)
    ensures |r| <= |shakers|
    ensures forall i :: 0 <= i < |r| ==> r[i].t <= ShakerLifetime
    ensures forall x :: x in r <==> x in shakers && x.t <= ShakerLifetime
  {
    if shakers == [] then []
    else if shakers[0].t > ShakerLifetime then Live(shakers[1..])
    else [shakers[0]] + Live(shakers[1..])
  }

  // ---------------------------------------------------------------- contacts

  /** A contact the physics step reported: a start or an end between two bodies' entities. */
  datatype Contact = Begin(a: EntityId, b: EntityId) | End(a: EntityId, b: EntityId)

  /**
   * What a contact may do to an entity: it never moves it and never revives it;
   * a bullet keeps its kind; a player stays a player and stays alive; every
   * other entity is untouched.
   */
  predicate ContactEffect(e: Entity, r: Entity)
  {
    && r.x == e.x && r.y == e.y && r.rotation == e.rotation
    && (r.alive ==> e.alive)
    && (e.kind.Bullet? ==> r.kind == e.kind)
    && (e.kind.Player? ==> r.kind.Player? && r.alive == e.alive)
    && (!e.kind.Bullet? && !e.kind.Player? ==> r == e)
  }

  /** The virtual OnCollisionStart: only bullets and the player react. */
  function StartWith(e: Entity, otherId: EntityId, other: Entity): (r: Entity)
    ensures ContactEffect(e, r)
  {
    match e.kind
    case Bullet(_, _, _, _, _) => Bullets.OnCollisionStart(e, other)
    case Player(_, _) => Players.OnCollisionStart(e, otherId, other)
    case _ => e
  }

  /** The virtual OnCollisionEnd: only the player reacts. */
  function EndWith(e: Entity, otherId: EntityId, other: Entity): (r: Entity)
    ensures ContactEffect(e, r) && r.alive == e.alive
  {
    match e.kind
    case Player(_, _) => Players.OnCollisionEnd(e, otherId, other)
    case _ => e
  }

  /**
   * The contact listener: a start calls A's handler then B's, an end calls B's
   * then A's, each with the other entity. Contacts naming an entity not in the
   * level are not reported by the physics step and change nothing here.
   */
  function ApplyContact(m: map<EntityId, Entity>, c: Contact): (r: map<EntityId, Entity>)
    ensures r.Keys == m.Keys
    ensures forall id :: id in m ==> ContactEffect(m[id], r[id])
  {
    if c.a !in m || c.b !in m then m
    else match c
      case Begin(a, b) =>
        var m1 := m[a := StartWith(m[a], b, m[b])];
        m1[b := StartWith(m1[b], a, m1[a])]
      case End(a, b) =>
        var m1 := m[b := EndWith(m[b], a, m[a])];
        m1[a := EndWith(m1[a], b, m1[b])]
  }

  /** The contacts of one physics step, in the order reported. */
  function ApplyContacts(m: map<EntityId, Entity>, cs: seq<Contact>): (r: map<EntityId, Entity>)
    ensures r.Keys == m.Keys
    ensures forall id :: id in m ==> ContactEffect(m[id], r[id])
    decreases |cs|
  {
    if cs == [] then m else ApplyContacts(ApplyContact(m, cs[0]), cs[1..])
  }

  // ---------------------------------------------------------------- the update pass

  /** The marker Shooter::SetNextAsDiamond leaves. */
  function SetNextAsDiamond(s: Entity): (r: Entity)
    requires s.kind.Shooter?
    ensures r.kind.Shooter? && r.kind.nextIsDiamond && r.kind.(nextIsDiamond := s.kind.nextIsDiamond) == s.kind
    ensures r.(kind := s.kind) == s
  {
    s.(kind := s.kind.(nextIsDiamond := true))
  }

  /** A diamond is due: none is tracked, the level time is strictly past 5, none is scheduled. */
  predicate DiamondDue(l: Level)
  {
    l.diamond.None? && l.time > DiamondTime && !l.hasDiamond
  }

  /**
   * The diamond scheduling of Level::Update: when due, the shooter `pick`
   * drawn at random is marked and the scheduled flag is set.
   */
  function ScheduleDiamond(l: Level, pick: EntityId): (r: Level)
    requires DiamondDue(l) ==> pick in l.entities && l.entities[pick].kind.Shooter?
    ensures !DiamondDue(l) ==> r == l
    ensures DiamondDue(l) ==>
              && r.hasDiamond && r.entities == l.entities[pick := SetNextAsDiamond(l.entities[pick])]
              && r.(hasDiamond := l.hasDiamond, entities := l.entities) == l
    ensures !DiamondDue(r)
    ensures Valid(l) ==> Valid(r)
  {
    if DiamondDue(l) then
      l.(entities := l.entities[pick := SetNextAsDiamond(l.entities[pick])], hasDiamond := true)
    else l
  }

  /** The number of shooters carrying the diamond marker. */
  function Marked(m: map<EntityId, Entity>, shooters: set<EntityId>): nat
  {
    |set id | id in shooters && id in m && m[id].kind.Shooter? && m[id].kind.nextIsDiamond|
  }

  /** Scheduling marks exactly one more shooter when it is due and none was marked. */
  lemma ScheduleMarksOneShooter(l: Level, pick: EntityId)
    requires Valid(l) && DiamondDue(l) && pick in l.shooters
    requires Marked(l.entities, l.shooters) == 0
    ensures Marked(ScheduleDiamond(l, pick).entities, l.shooters) == 1
  {
    var r := ScheduleDiamond(l, pick);
    var before := set id | id in l.shooters && id in l.entities && l.entities[id].kind.Shooter? && l.entities[id].kind.nextIsDiamond;
    assert before == {};
    var after := set id | id in l.shooters && id in r.entities && r.entities[id].kind.Shooter? && r.entities[id].kind.nextIsDiamond;
    assert forall id :: id != pick ==> (id in after <==> id in before);
    assert pick in after;
    assert after == {pick};
  }

  /** Entity::Update for one entity: take the pose from the body, then the kind's own update. */
  datatype Stepped = Stepped(entity: Entity, spawns: seq<Shooters.Spawn>)

  function Advance(e: Entity, pose: Pose, dt: real): (r: Stepped)
    ensures r.entity.x == pose.x && r.entity.y == pose.y && r.entity.rotation == pose.angle
    ensures r.entity.alive == e.alive && r.entity.onUpdate == e.onUpdate
    ensures e.kind.Shooter? ==> r.entity.kind.Shooter?
                                && r.entity.kind.(clock := e.kind.clock) == e.kind
                                && r.spawns == Shooters.InternalUpdate(Sync(e, pose), dt).spawns
    ensures !e.kind.Shooter? ==> r.entity == Sync(e, pose) && r.spawns == []
  {
    var synced := Sync(e, pose);
    if synced.kind.Shooter? then
      var t := Shooters.InternalUpdate(synced, dt);
      Stepped(t.shooter, t.spawns)
    else
      Stepped(synced, [])
  }

  /** Entity::Update over the whole entity set. */
  function Pass(m: map<EntityId, Entity>, poses: map<EntityId, Pose>, dt: real): (r: map<EntityId, Entity>)
    requires m.Keys <= poses.Keys
    ensures r.Keys == m.Keys
    ensures forall id :: id in m ==> r[id].alive == m[id].alive
    ensures forall id :: id in m ==> (r[id].kind.Shooter? <==> m[id].kind.Shooter?)
    ensures forall id :: id in m ==> (r[id].kind.Player? <==> m[id].kind.Player?)
  {
    map id | id in m :: Advance(m[id], poses[id], dt).entity
  }

  /** The block bullets the shooters request during the pass, in iteration order. */
  function Volleys(m: map<EntityId, Entity>, poses: map<EntityId, Pose>, order: seq<EntityId>, dt: real): seq<Shooters.Spawn>
    requires forall i :: 0 <= i < |order| ==> order[i] in m && order[i] in poses
    decreases |order|
  {
    if order == [] then []
    else Advance(m[order[0]], poses[order[0]], dt).spawns + Volleys(m, poses, order[1..], dt)
  }

  /** The entities left dead by the pass. */
  function DeadIn(m: map<EntityId, Entity>): (r: set<EntityId>)
    ensures forall id :: id in r <==> id in m && !m[id].alive
  {
    set id | id in m && !m[id].alive
  }

  /**
   * The removal loop of Level::Update: the dead leave the level; removing the
   * tracked diamond clears it and its scheduled flag; removing the player
   * latches game over.
   */
  function RemoveDead(l: Level, dead: set<EntityId>): (r: Level)
    ensures r.entities.Keys == l.entities.Keys - dead
    ensures forall id :: id in r.entities ==> r.entities[id] == l.entities[id]
    ensures l.diamond.Some? && l.diamond.value in dead ==> r.diamond.None? && !r.hasDiamond
    ensures !(l.diamond.Some? && l.diamond.value in dead) ==>
              r.diamond == l.diamond && r.hasDiamond == l.hasDiamond
    ensures r.gameOver <==> l.gameOver || (l.player.Some? && l.player.value in dead)
    ensures r.(entities := l.entities, diamond := l.diamond, hasDiamond := l.hasDiamond,
               gameOver := l.gameOver) == l
  {
    var l1 := l.(entities := map id | id in l.entities && id !in dead :: l.entities[id]);
    var l2 := if l.diamond.Some? && l.diamond.value in dead then l1.(diamond := None, hasDiamond := false) else l1;
    if l.player.Some? && l.player.value in dead then l2.(gameOver := true) else l2
  }

  /** The spawned block bullets join the level under fresh ids, in order. */
  function AddSpawns(l: Level, spawns: seq<Shooters.Spawn>): (r: Level)
    ensures r.nextId == l.nextId + |spawns|
    ensures forall id :: id in r.entities <==> id in l.entities || l.nextId <= id < l.nextId + |spawns|
    ensures forall id :: id in l.entities && id < l.nextId ==> r.entities[id] == l.entities[id]
    ensures forall i :: 0 <= i < |spawns| ==>
              r.entities[l.nextId + i] ==
                BlockBullet(spawns[i].position.x, spawns[i].position.y,
                            spawns[i].velocity.x, spawns[i].velocity.y)
    ensures r.(entities := l.entities, nextId := l.nextId) == l
    ensures Valid(l) ==> Valid(r)
    decreases |spawns|
  {
    if spawns == [] then l
    else
      var s := spawns[0];
      var l1 := SpawnBlockBullet(l, s.position.x, s.position.y, s.velocity.x, s.velocity.y);
      var r := AddSpawns(l1, spawns[1..]);
      forall i | 0 <= i < |spawns|
        ensures r.entities[l.nextId + i] ==
                  BlockBullet(spawns[i].position.x, spawns[i].position.y, spawns[i].velocity.x, spawns[i].velocity.y)
      {
        if i == 0 {
          assert l.nextId in l1.entities && l.nextId < l1.nextId;
        } else {
          assert spawns[i] == spawns[1..][i - 1] && l.nextId + i == l1.nextId + (i - 1);
        }
      }
      r
  }

  /** `order` lists every entity of the level exactly once: the iteration order of the entity set. */
  ghost predicate IterationOrder(order: seq<EntityId>, keys: set<EntityId>)
  {
    && (forall i, j :: 0 <= i < j < |order| ==> order[i] != order[j])
    && (forall i :: 0 <= i < |order| ==> order[i] in keys)
    && (forall id :: id in keys ==> id in order)
  }

  /**
   * What the physics world reports for one update: the contacts the five
   * sub-steps produced, the body poses after them, each homing bullet's ray
   * hits, the player's horizontal velocity before the lateral impulse, and
   * the iteration order of the entity set.
   */
  datatype Physics = Physics(contacts: seq<Contact>, poses: map<EntityId, Pose>,
                             rays: map<EntityId, seq<Hit>>, lateralVelocity: real,
                             order: seq<EntityId>)

  /**
   * The result of Level::Update: the new level, the returned flag, the homing
   * bullets that steer toward the player this update, and the lateral
   * decisions of the controller.
   */
  datatype Outcome = Outcome(level: Level, running: bool, steered: set<EntityId>,
                             lateral: Option<Controllers.Lateral>)

  /** The player is grounded, by Player::IsGrouded over the level's walls. */
  predicate PlayerGrounded(l: Level)
  {
    l.player.Some? && l.player.value in l.entities && l.entities[l.player.value].kind.Player?
    && Players.Grounded(l.entities[l.player.value], l.entities)
  }

  /** PlayerController::UpdatePlayer as seen by the level: the jump timers change. */
  function UpdatePlayer(l: Level, dt: real): (r: Level)
    ensures r.(controller := l.controller) == l
    ensures r.controller.Some? <==> l.controller.Some?
    ensures l.controller.Some? ==>
              r.controller.value == Controllers.HandleJumping(l.controller.value, PlayerGrounded(l), dt).controller
  {
    match l.controller
    case None => l
    case Some(c) => l.(controller := Some(Controllers.HandleJumping(c, PlayerGrounded(l), dt).controller))
  }

  /** The level after the clock, the jump logic, the contacts and the diamond scheduling of an update. */
  function BeforePass(l: Level, dt: real, ph: Physics, pick: EntityId): (r: Level)
    requires Valid(l)
    requires DiamondDue(l.(time := l.time + dt)) ==> pick in l.shooters
    ensures Valid(r) && r.time == l.time + dt && r.shooters == l.shooters
    ensures r.gameOver == l.gameOver && r.nextId == l.nextId && r.player == l.player
    ensures r.entities.Keys == l.entities.Keys
    ensures forall id :: id in l.entities ==> r.entities[id].alive == ApplyContacts(l.entities, ph.contacts)[id].alive
  {
    var l1 := UpdatePlayer(l.(time := l.time + dt), dt);
    var contacted := ApplyContacts(l1.entities, ph.contacts);
    var l2 := l1.(entities := contacted);
    assert Valid(l2) by {
      forall id | id in l2.shooters
        ensures id in l2.entities && l2.entities[id].kind.Shooter? && l2.entities[id].alive
      {
        assert ContactEffect(l1.entities[id], contacted[id]);
      }
      if l2.player.Some? && !l2.gameOver {
        assert ContactEffect(l1.entities[l2.player.value], contacted[l2.player.value]);
      }
    }
    ScheduleDiamond(l2, pick)
  }

  /**
   * Level::Update. Once game over is latched it does nothing and reports false.
   * Otherwise the clock advances; the controller's jump logic runs; the physics
   * contacts are dispatched; a diamond is scheduled when due; every entity
   * takes its pose and runs its own update; every entity then dead leaves the
   * level; the block bullets the shooters fired join it; and the result is
   * whether the game goes on.
   */
  function Update(l: Level, dt: real, ph: Physics, pick: EntityId): (r: Outcome)
    requires Valid(l)
    requires l.entities.Keys <= ph.poses.Keys && IterationOrder(ph.order, l.entities.Keys)
    requires !l.gameOver && DiamondDue(l.(time := l.time + dt)) ==> pick in l.shooters
    ensures r.running == !r.level.gameOver
    ensures l.gameOver ==> r.level == l && !r.running
    ensures !l.gameOver ==> r.running
    ensures Valid(r.level)
    ensures !l.gameOver ==> r.level.time == l.time + dt && r.level.shooters == l.shooters
    ensures !l.gameOver ==>
              forall id :: id in l.entities ==>
                (id in r.level.entities <==> ApplyContacts(l.entities, ph.contacts)[id].alive)
    ensures !l.gameOver ==> forall id :: id in l.entities && !l.entities[id].alive ==> id !in r.level.entities
    ensures !l.gameOver ==> forall id :: id in r.level.entities ==> r.level.entities[id].alive
    ensures !l.gameOver ==>
              forall id :: id in r.level.entities && id !in l.entities ==>
                l.nextId <= id && r.level.entities[id].kind.Bullet?
                && r.level.entities[id].kind.color == BlockColor && r.level.entities[id].kind.following
  {
    if l.gameOver then Outcome(l, false, {}, None)
    else
      var l2 := BeforePass(l, dt, ph, pick);
      var lateral := if l.controller.Some? then
                       Some(Controllers.HandleLateral(l.controller.value, ph.lateralVelocity, PlayerGrounded(l)))
                     else None;
      Outcome(Settle(l2, ph.poses, ph.order, dt), !Settle(l2, ph.poses, ph.order, dt).gameOver,
              Homing(Pass(l2.entities, ph.poses, dt), l.player, ph.rays), lateral)
  }

  /**
   * The second half of Level::Update: the pass over every entity, the removal
   * of the dead, and the arrival of the block bullets the shooters fired.
   */
  function Settle(l2: Level, poses: map<EntityId, Pose>, order: seq<EntityId>, dt: real): (r: Level)
    requires Valid(l2) && !l2.gameOver && l2.entities.Keys <= poses.Keys
    requires forall i :: 0 <= i < |order| ==> order[i] in l2.entities
    ensures Valid(r) && !r.gameOver && r.time == l2.time && r.shooters == l2.shooters
    ensures forall id :: id in l2.entities ==> (id in r.entities <==> l2.entities[id].alive)
    ensures forall id :: id in r.entities ==> r.entities[id].alive
    ensures forall id :: id in r.entities && id !in l2.entities ==>
              l2.nextId <= id && r.entities[id].kind.Bullet?
              && r.entities[id].kind.color == BlockColor && r.entities[id].kind.following
  {
    var passed := Pass(l2.entities, poses, dt);
    var spawns := Volleys(l2.entities, poses, order, dt);
    var l4 := RemoveDead(l2.(entities := passed), DeadIn(passed));
    PassKeepsValid(l2, passed, poses, dt);
    SpawnsJoinAlive(l4, spawns);
    AddSpawns(l4, spawns)
  }

  /** Spawned bullets join a level of live entities: everything in it stays alive, the new ids are block bullets. */
  lemma SpawnsJoinAlive(l4: Level, spawns: seq<Shooters.Spawn>)
    requires Valid(l4) && forall id :: id in l4.entities ==> l4.entities[id].alive
    ensures var l5 := AddSpawns(l4, spawns);
      && (forall id :: id < l4.nextId ==> (id in l5.entities <==> id in l4.entities))
      && (forall id :: id in l5.entities ==> l5.entities[id].alive)
      && (forall id :: id in l5.entities && id >= l4.nextId ==>
            l5.entities[id].kind.Bullet? && l5.entities[id].kind.color == BlockColor
            && l5.entities[id].kind.following)
  {
    var l5 := AddSpawns(l4, spawns);
    forall id | id in l5.entities && id >= l4.nextId
      ensures l5.entities[id] == BlockBullet(spawns[id - l4.nextId].position.x, spawns[id - l4.nextId].position.y,
                                             spawns[id - l4.nextId].velocity.x, spawns[id - l4.nextId].velocity.y)
    {
      var i := id - l4.nextId;
      assert l5.entities[l4.nextId + i] == BlockBullet(spawns[i].position.x, spawns[i].position.y,
                                                       spawns[i].velocity.x, spawns[i].velocity.y);
    }
  }

  /** After the pass, removing the dead keeps the invariant and never reaches the player. */
  lemma PassKeepsValid(l2: Level, passed: map<EntityId, Entity>, poses: map<EntityId, Pose>, dt: real)
    requires Valid(l2) && !l2.gameOver && l2.entities.Keys <= poses.Keys
    requires passed == Pass(l2.entities, poses, dt)
    ensures var l4 := RemoveDead(l2.(entities := passed), DeadIn(passed));
      && Valid(l4) && !l4.gameOver && l4.nextId == l2.nextId
      && (forall id :: id in l4.entities ==> l4.entities[id].alive)
      && (forall id :: id in l2.entities ==> (id in l4.entities <==> l2.entities[id].alive))
  {
    var l4 := RemoveDead(l2.(entities := passed), DeadIn(passed));
    forall id | id in l2.shooters
      ensures id in l4.entities && l4.entities[id].kind.Shooter? && l4.entities[id].alive
    {
      assert passed[id].alive;
    }
    if l2.player.Some? {
      assert passed[l2.player.value].alive;
    }
  }

  // ---------------------------------------------------------------- events and rendering

  /** Only the controller may change, and only a level that has one changes at all. */
  predicate ControllerOnly(l: Level, r: Level)
  {
    && r.(controller := l.controller) == l
    && (r.controller.Some? <==> l.controller.Some?)
    && (l.controller.None? ==> r == l)
  }

  /** Level::OnKey: forwarded to the controller when there is one. */
  function OnKey(l: Level, key: int, action: int): (r: Level)
    ensures ControllerOnly(l, r)
    ensures l.controller.Some? ==> r.controller == Some(Controllers.OnKey(l.controller.value, key, action))
  {
    match l.controller
    case None => l
    case Some(c) => l.(controller := Some(Controllers.OnKey(c, key, action)))
  }

  /** Level::OnMouseMove: forwarded to the controller when there is one. */
  function OnMouseMove(l: Level, x: real, y: real): (r: Level)
    ensures ControllerOnly(l, r)
    ensures l.controller.Some? ==> r.controller == Some(Controllers.OnMouseMove(l.controller.value, x, y))
  {
    match l.controller
    case None => l
    case Some(c) => l.(controller := Some(Controllers.OnMouseMove(c, x, y)))
  }

  /**
   * Level::OnMouseButton: forwarded to the controller, which may queue a shot
   * on the player and spend one caught bullet. `spin` is the player body's
   * angular velocity.
   */
  function OnMouseButton(l: Level, button: int, action: int, spin: real): (r: Level)
    requires Valid(l)
    ensures Valid(r)
    ensures r.(entities := l.entities) == l && r.entities.Keys == l.entities.Keys
    ensures forall id :: id in l.entities && Some(id) != l.player ==> r.entities[id] == l.entities[id]
    ensures l.controller.Some? && !l.gameOver ==>
              var p := l.player.value;
              r.entities[p] == Controllers.OnMouseButton(l.controller.value, l.entities[p], button, action, spin)
  {
    if l.controller.Some? && l.player.value in l.entities && l.entities[l.player.value].kind.Player? then
      var p := l.player.value;
      l.(entities := l.entities[p := Controllers.OnMouseButton(l.controller.value, l.entities[p], button, action, spin)])
    else l
  }

  /**
   * The bookkeeping of Level::Render: the camera is pulled into the dead zone
   * around the player, the shakers age and expire, every alive shooter prepares
   * its renderer as it is drawn, and the controller learns the screen size and
   * the shaken camera. `shake` is the summed offset of the shakers this frame,
   * whose exp/sin form is not modelled.
   */
  function RenderStep(l: Level, dt: real, screen: IVec, shake: Vec): (r: Level)
    requires l.player.Some? && l.player.value in l.entities
    ensures var p := l.entities[l.player.value];
      && InDeadZone(r.camera, Vec(p.x, p.y))
      && (InDeadZone(l.camera, Vec(p.x, p.y)) ==> r.camera == l.camera)
    ensures forall i :: 0 <= i < |r.shakers| ==> r.shakers[i].t <= ShakerLifetime
    ensures r.shakers == AdvanceShakers(l.shakers, dt)
    ensures r.controller.Some? <==> l.controller.Some?
    ensures l.controller.Some? ==>
              r.controller.value == Controllers.UpdateController(l.controller.value, screen,
                                      Camera(r.camera.x + shake.x, r.camera.y + shake.y, CameraZoom))
    ensures r.entities.Keys == l.entities.Keys
    ensures forall id :: id in l.entities && Drawn(l.entities[id]) ==>
              r.entities[id].kind.Shooter? && r.entities[id].kind.rendererPrepared
              && r.entities[id].kind.(rendererPrepared := l.entities[id].kind.rendererPrepared) == l.entities[id].kind
              && r.entities[id].(kind := l.entities[id].kind) == l.entities[id]
    ensures forall id :: id in l.entities && !Drawn(l.entities[id]) ==> r.entities[id] == l.entities[id]
    ensures r.(camera := l.camera, shakers := l.shakers, controller := l.controller, entities := l.entities) == l
    ensures Valid(l) ==> Valid(r)
  {
    var p := l.entities[l.player.value];
    var camera := ClampCamera(l.camera, Vec(p.x, p.y));
    var params := Camera(camera.x + shake.x, camera.y + shake.y, CameraZoom);
    var controller := match l.controller
      case None => None
      case Some(c) => Some(Controllers.UpdateController(c, screen, params));
    var entities := map id | id in l.entities :: Rendered(l.entities[id]);
    l.(camera := camera, shakers := AdvanceShakers(l.shakers, dt), controller := controller, entities := entities)
  }

  /** An alive shooter, whose Shooter::Render prepares its renderer when it is drawn. */
  predicate Drawn(e: Entity)
  {
    e.alive && e.kind.Shooter?
  }

  /** One entity after the drawing loop of Level::Render. */
  function Rendered(e: Entity): (r: Entity)
    ensures Drawn(e) ==> r == Shooters.PrepareRenderer(e)
    ensures !Drawn(e) ==> r == e
  {
    if Drawn(e) then Shooters.PrepareRenderer(e) else e
  }

  /** Once a frame has been drawn, an alive shooter of the level rejects new directions. */
  lemma DrawnShooterRejectsDirections(l: Level, dt: real, screen: IVec, shake: Vec, id: EntityId, dx: int, dy: int)
    requires l.player.Some? && l.player.value in l.entities
    requires id in l.entities && Drawn(l.entities[id])
    ensures RenderStep(l, dt, screen, shake).entities[id].kind.Shooter?
    ensures Shooters.AddShootingDirection(RenderStep(l, dt, screen, shake).entities[id], dx, dy)
              == Failure(Shooters.RendererAlreadyInitialized)
  {
  }
}
