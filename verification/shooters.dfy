/**
 * Shooter behaviour: the guard on adding shooting directions and the volley
 * timer run by each update.
 */
module Shooters {
  import opened Wrappers
  import opened Entities

  /** Speed factor of a block bullet along its shooting direction. */
  const BulletSpeed: real := 8.0

  /** Shooter(x, y, shootTime, currentTime): a shooter on grid cell (x, y) with no directions yet. */
  function NewShooter(x: nat, y: nat, interval: real, clock: real): (s: Entity)
    ensures s.kind.Shooter? && s.kind.directions == [] && !s.kind.rendererPrepared
    ensures s.kind.interval == interval && s.kind.clock == clock && !s.kind.nextIsDiamond
    ensures s.x == x as real && s.y == y as real && s.rotation == 0.0
    ensures s.alive && s.onUpdate == []
  {
    Create(x as real, y as real, 0.0, Shooter([], interval, clock, false, false))
  }

  /** Thrown when the direction list is changed after the line renderer baked it. */
  datatype ShooterError = RendererAlreadyInitialized

  /** Shooter::AddShootingDirection. */
  function AddShootingDirection(s: Entity, dx: int, dy: int): (r: Result<Entity, ShooterError>)
    requires s.kind.Shooter?
    ensures r.Failure? <==> s.kind.rendererPrepared
    ensures r.Failure? ==> r.error == RendererAlreadyInitialized
    ensures r.Success? ==> r.value.kind.Shooter?
    ensures r.Success? ==> |r.value.kind.directions| == |s.kind.directions| + 1
    ensures r.Success? ==> r.value.kind.directions[..|s.kind.directions|] == s.kind.directions
    ensures r.Success? ==> r.value.kind.directions[|s.kind.directions|] == IVec(dx, dy)
    ensures r.Success? ==> r.value.kind.(directions := s.kind.directions) == s.kind
    ensures r.Success? ==> r.value.(kind := s.kind) == s
  {
    if s.kind.rendererPrepared then Failure(RendererAlreadyInitialized)
    else Success(s.(kind := s.kind.(directions := s.kind.directions + [IVec(dx, dy)])))
  }

  /** A request to the level to spawn one block bullet. */
  datatype Spawn = Spawn(position: Vec, velocity: Vec)

  /** One bullet per direction, in list order, one cell out and at eight times the direction. */
  function Volley(x: real, y: real, directions: seq<IVec>): (r: seq<Spawn>)
    ensures |r| == |directions|
    ensures forall i :: 0 <= i < |directions| ==>
              r[i].position == Vec(x + directions[i].x as real, y + directions[i].y as real)
    ensures forall i :: 0 <= i < |directions| ==>
              r[i].velocity == Vec(directions[i].x as real * BulletSpeed, directions[i].y as real * BulletSpeed)
  {
    if directions == [] then []
    else
      var d := directions[0];
      [Spawn(Vec(x + d.x as real, y + d.y as real), Vec(d.x as real * BulletSpeed, d.y as real * BulletSpeed))]
        + Volley(x, y, directions[1..])
  }

  /**
   * Shooter::_PrepareRenderer, run by Shooter::Render: the first call builds the
   * line buffers and marks the renderer prepared; later calls return early.
   */
  function PrepareRenderer(s: Entity): (r: Entity)
    requires s.kind.Shooter?
    ensures r.kind.Shooter? && r.kind.rendererPrepared
    ensures r.kind.(rendererPrepared := s.kind.rendererPrepared) == s.kind
    ensures r.(kind := s.kind) == s
    ensures s.kind.rendererPrepared ==> r == s
  {
    if s.kind.rendererPrepared then s else s.(kind := s.kind.(rendererPrepared := true))
  }

  /** A prepared shooter's directions are frozen: adding one fails, and preparing again changes nothing. */
  lemma PreparedRejectsDirections(s: Entity, dx: int, dy: int)
    requires s.kind.Shooter?
    ensures AddShootingDirection(PrepareRenderer(s), dx, dy) == Failure(RendererAlreadyInitialized)
    ensures PrepareRenderer(PrepareRenderer(s)) == PrepareRenderer(s)
  {
  }

  /** Whether the update adding dt to the clock fires: strictly past the interval. */
  predicate Fires(s: Entity, dt: real)
    requires s.kind.Shooter?
  {
    s.kind.clock + dt > s.kind.interval
  }

  datatype Tick = Tick(shooter: Entity, spawns: seq<Spawn>)

  /** Shooter::InternalUpdate. */
  function InternalUpdate(s: Entity, dt: real): (r: Tick)
    requires s.kind.Shooter?
    ensures r.shooter.kind.Shooter?
    ensures r.shooter.kind.(clock := s.kind.clock) == s.kind
    ensures r.shooter.(kind := s.kind) == s
    ensures Fires(s, dt) ==> r.shooter.kind.clock == 0.0 && r.spawns == Volley(s.x, s.y, s.kind.directions)
    ensures !Fires(s, dt) ==> r.shooter.kind.clock == s.kind.clock + dt && r.spawns == []
  {
    var clock := s.kind.clock + dt;
    if clock > s.kind.interval then
      Tick(s.(kind := s.kind.(clock := 0.0)), Volley(s.x, s.y, s.kind.directions))
    else
      Tick(s.(kind := s.kind.(clock := clock)), [])
  }

  /** A clock that reaches the interval exactly does not fire: the comparison is strict. */
  lemma ExactIntervalDoesNotFire(s: Entity, dt: real)
    requires s.kind.Shooter?
    ensures s.kind.clock + dt == s.kind.interval ==>
              InternalUpdate(s, dt).spawns == [] && InternalUpdate(s, dt).shooter.kind.clock == s.kind.interval
  {
  }

  function Sum(dts: seq<real>): real
  {
    if dts == [] then 0.0 else dts[0] + Sum(dts[1..])
  }

  /** The shooter after a run of updates, and how many of them fired a volley. */
  function Run(s: Entity, dts: seq<real>): (r: (Entity, nat))
    requires s.kind.Shooter?
    ensures r.0.kind.Shooter?
    decreases |dts|
  {
    if dts == [] then (s, 0)
    else
      var next := Run(InternalUpdate(s, dts[0]).shooter, dts[1..]);
      (next.0, next.1 + if Fires(s, dts[0]) then 1 else 0)
  }

  /** A run of updates never changes the directions or the interval, and fires at most once per update. */
  lemma {:induction false} RunKeepsShape(s: Entity, dts: seq<real>)
    requires s.kind.Shooter?
    ensures Run(s, dts).0.kind.directions == s.kind.directions
    ensures Run(s, dts).0.kind.interval == s.kind.interval
    ensures Run(s, dts).1 <= |dts|
    decreases |dts|
  {
    if dts != [] {
      RunKeepsShape(InternalUpdate(s, dts[0]).shooter, dts[1..]);
    }
  }

  /** The time n volleys cost at the given interval, one interval each. */
  function Paid(n: nat, interval: real): real
  {
    if n == 0 then 0.0 else Paid(n - 1, interval) + interval
  }

  /** The cost of n volleys is n intervals. */
  lemma {:induction false} PaidIsProduct(n: nat, interval: real)
    ensures Paid(n, interval) == n as real * interval
  {
    if n > 0 {
      PaidIsProduct(n - 1, interval);
      assert n as real * interval == (n - 1) as real * interval + interval;
    }
  }

  /**
   * Volleys are paid for with elapsed time: every volley consumes more than one
   * interval of accumulated dt, because the clock restarts at 0 with no carry-over.
   */
  lemma {:induction false} VolleyBudget(s: Entity, dts: seq<real>)
    requires s.kind.Shooter?
    ensures Run(s, dts).0.kind.clock + Paid(Run(s, dts).1, s.kind.interval) <= s.kind.clock + Sum(dts)
    ensures Run(s, dts).1 > 0 ==>
              Run(s, dts).0.kind.clock + Paid(Run(s, dts).1, s.kind.interval) < s.kind.clock + Sum(dts)
    decreases |dts|
  {
    if dts != [] {
      var t := InternalUpdate(s, dts[0]).shooter;
      VolleyBudget(t, dts[1..]);
    }
  }
}
