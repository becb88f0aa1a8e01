/**
 * The player controller: the set of pressed keys and its mapping to actions,
 * the jump grace / buffer / cooldown timers, fire gating on the caught-bullet
 * counter and the choice of lateral damping.
 *
 * The impulses, velocities and pow() damping factors it hands to the physics
 * body are not computed here; the controller's decisions are.
 */
module Controllers {
  import opened Entities

  // GLFW key, action and button codes the controller reacts to.
  const KeySpace: int := 32
  const KeyA: int := 65
  const KeyD: int := 68
  const KeyW: int := 87
  const KeyRight: int := 262
  const KeyLeft: int := 263
  const KeyUp: int := 265
  const Release: int := 0
  const Press: int := 1
  const MouseButtonLeft: int := 0

  /** Time after leaving the ground during which a jump is still allowed. */
  const GraceTime: real := 0.25
  /** Time a jump press is remembered before landing. */
  const BufferTime: real := 0.1
  /** Minimum time between two jumps. */
  const CooldownTime: real := 0.3
  /** Lateral speed added per update while a direction is held. */
  const PlayerSpeed: real := 0.7
  /** Inputs closer to zero than this count as no input. */
  const InputDeadZone: real := 0.001
  /** Angular speed above which a shot is an exploding one. */
  const SpinThreshold: real := 15.0

  datatype Controller = Controller(pressed: set<int>, mouse: Vec, screen: IVec, camera: Camera,
                                   grace: real, buffer: real, cooldown: real)

  /**
   * A controller as constructed: no keys held and all three timers at 0. The
   * pointer position, screen size and camera start out unset in the source;
   * here they start at zero.
   */
  function NewController(): (c: Controller)
    ensures c.pressed == {} && c.grace == 0.0 && c.buffer == 0.0 && c.cooldown == 0.0
  {
    Controller({}, Vec(0.0, 0.0), IVec(0, 0), Camera(0.0, 0.0, 0.0), 0.0, 0.0, 0.0)
  }

  /** PlayerController::OnKey. */
  function OnKey(c: Controller, key: int, action: int): (r: Controller)
    ensures action == Press ==> r.pressed == c.pressed + {key}
    ensures action == Release ==> r.pressed == c.pressed - {key}
    ensures action != Press && action != Release ==> r == c
    ensures r.(pressed := c.pressed) == c
  {
    if action == Press then c.(pressed := c.pressed + {key})
    else if action == Release then c.(pressed := c.pressed - {key})
    else c
  }

  datatype Key = Jump | Left | Right

  /** The keys bound to each action. */
  function Bindings(k: Key): set<int>
  {
    match k
    case Jump => {KeyW, KeyUp, KeySpace}
    case Left => {KeyA, KeyLeft}
    case Right => {KeyD, KeyRight}
  }

  /** PlayerController::_KeyPressed. */
  predicate KeyPressed(c: Controller, k: Key)
  {
    match k
    case Jump => KeyW in c.pressed || KeyUp in c.pressed || KeySpace in c.pressed
    case Left => KeyA in c.pressed || KeyLeft in c.pressed
    case Right => KeyD in c.pressed || KeyRight in c.pressed
  }

  /**
   * An action is held exactly when one of its bound keys is pressed: pressing a
   * bound key holds it, and it stays held until every bound key is released.
   */
  lemma KeyPressedIffBound(c: Controller, k: Key, key: int)
    ensures KeyPressed(c, k) <==> c.pressed * Bindings(k) != {}
    ensures key in Bindings(k) ==> KeyPressed(OnKey(c, key, Press), k)
    ensures key !in Bindings(k) ==> (KeyPressed(OnKey(c, key, Press), k) <==> KeyPressed(c, k))
    ensures key !in Bindings(k) ==> (KeyPressed(OnKey(c, key, Release), k) <==> KeyPressed(c, k))
    ensures c.pressed * Bindings(k) <= {key} ==> !KeyPressed(OnKey(c, key, Release), k)
  {
    var both := c.pressed * Bindings(k);
    if KeyPressed(c, k) {
      match k
      case Jump =>
        if KeyW in c.pressed { assert KeyW in both; }
        else if KeyUp in c.pressed { assert KeyUp in both; }
        else { assert KeySpace in both; }
      case Left =>
        if KeyA in c.pressed { assert KeyA in both; } else { assert KeyLeft in both; }
      case Right =>
        if KeyD in c.pressed { assert KeyD in both; } else { assert KeyRight in both; }
    }
  }

  /** PlayerController::OnMouseMove: remember the pointer position. */
  function OnMouseMove(c: Controller, x: real, y: real): (r: Controller)
    ensures r.mouse == Vec(x, y) && r.(mouse := c.mouse) == c
  {
    c.(mouse := Vec(x, y))
  }

  /** PlayerController::UpdateController: remember the screen size and camera of the last frame. */
  function UpdateController(c: Controller, screen: IVec, camera: Camera): (r: Controller)
    ensures r.screen == screen && r.camera == camera
    ensures r.(screen := c.screen, camera := c.camera) == c
  {
    c.(screen := screen, camera := camera)
  }

  function Abs(x: real): real
  {
    if x < 0.0 then -x else x
  }

  /**
   * PlayerController::OnMouseButton: with a caught bullet to spend and a left
   * press, queue one shot on the player and spend the bullet. `spin` is the
   * body's angular velocity at the click.
   */
  function OnMouseButton(c: Controller, player: Entity, button: int, action: int, spin: real): (r: Entity)
    requires player.kind.Player?
    ensures r.kind.Player? && r.kind.touching == player.kind.touching
    ensures r.x == player.x && r.y == player.y && r.rotation == player.rotation && r.alive == player.alive
    ensures player.kind.bulletCount == 0 || button != MouseButtonLeft || action != Press ==> r == player
    ensures player.kind.bulletCount > 0 && button == MouseButtonLeft && action == Press ==>
              && r.kind.bulletCount == player.kind.bulletCount - 1
              && r.onUpdate == player.onUpdate + [Shoot(c.mouse, c.screen, c.camera, Abs(spin) > SpinThreshold)]
  {
    if player.kind.bulletCount == 0 || !(button == MouseButtonLeft && action == Press) then player
    else
      var exploding := Abs(spin) > SpinThreshold;
      player.(onUpdate := player.onUpdate + [Shoot(c.mouse, c.screen, c.camera, exploding)],
              kind := player.kind.(bulletCount := player.kind.bulletCount - 1))
  }

  /** A mouse event: button, action and the player's angular velocity at that moment. */
  datatype Click = Click(button: int, action: int, spin: real)

  function ClickAll(c: Controller, player: Entity, clicks: seq<Click>): (r: Entity)
    requires player.kind.Player?
    ensures r.kind.Player?
    decreases |clicks|
  {
    if clicks == [] then player
    else ClickAll(c, OnMouseButton(c, player, clicks[0].button, clicks[0].action, clicks[0].spin), clicks[1..])
  }

  /**
   * Shots are paid for with caught bullets: over any run of mouse events, the
   * number of shots queued plus the bullets left equals the bullets caught, so
   * there are never more shots than bullets.
   */
  lemma {:induction false} ShotsSpendBullets(c: Controller, player: Entity, clicks: seq<Click>)
    requires player.kind.Player?
    ensures var r := ClickAll(c, player, clicks);
      && |r.onUpdate| >= |player.onUpdate|
      && r.onUpdate[..|player.onUpdate|] == player.onUpdate
      && (|r.onUpdate| - |player.onUpdate|) + r.kind.bulletCount == player.kind.bulletCount
    decreases |clicks|
  {
    if clicks != [] {
      var next := OnMouseButton(c, player, clicks[0].button, clicks[0].action, clicks[0].spin);
      ShotsSpendBullets(c, next, clicks[1..]);
      var r := ClickAll(c, next, clicks[1..]);
      assert r.onUpdate[..|player.onUpdate|] == r.onUpdate[..|next.onUpdate|][..|player.onUpdate|];
    }
  }

  datatype JumpStep = JumpStep(controller: Controller, jumped: bool)

  /**
   * PlayerController::_HandleJumping: run the three timers down by dt, refill
   * the grace timer when grounded and the buffer while jump is held, and jump
   * when both are still running and the cooldown has run out.
   */
  function HandleJumping(c: Controller, grounded: bool, dt: real): (r: JumpStep)
    ensures r.controller.(grace := c.grace, buffer := c.buffer, cooldown := c.cooldown) == c
    ensures var grace := if grounded then GraceTime else c.grace - dt;
            var buffer := if KeyPressed(c, Jump) then BufferTime else c.buffer - dt;
            && (r.jumped <==> grace > 0.0 && buffer > 0.0 && c.cooldown - dt < 0.0)
            && (r.jumped ==> r.controller.grace == 0.0 && r.controller.buffer == 0.0
                             && r.controller.cooldown == CooldownTime)
            && (!r.jumped ==> r.controller.grace == grace && r.controller.buffer == buffer
                              && r.controller.cooldown == c.cooldown - dt)
  {
    var c1 := c.(grace := c.grace - dt, buffer := c.buffer - dt, cooldown := c.cooldown - dt);
    var c2 := if grounded then c1.(grace := GraceTime) else c1;
    var c3 := if KeyPressed(c2, Jump) then c2.(buffer := BufferTime) else c2;
    if c3.grace > 0.0 && c3.buffer > 0.0 && c3.cooldown < 0.0 then
      JumpStep(c3.(grace := 0.0, buffer := 0.0, cooldown := CooldownTime), true)
    else
      JumpStep(c3, false)
  }

  /** One frame as the jump logic sees it: dt, whether grounded, the keys held. */
  datatype Frame = Frame(dt: real, grounded: bool, pressed: set<int>)

  /** The number of jumps over a run of frames. */
  function Jumps(c: Controller, frames: seq<Frame>): nat
    decreases |frames|
  {
    if frames == [] then 0
    else
      var s := HandleJumping(c.(pressed := frames[0].pressed), frames[0].grounded, frames[0].dt);
      (if s.jumped then 1 else 0) + Jumps(s.controller, frames[1..])
  }

  function SumDt(frames: seq<Frame>): real
    decreases |frames|
  {
    if frames == [] then 0.0 else frames[0].dt + SumDt(frames[1..])
  }

  /**
   * No jump happens while the cooldown runs: with non-negative frame times that
   * add up to at most the remaining cooldown, whatever the keys and the ground
   * do, nothing jumps. Right after a jump the cooldown is 0.3, so two jumps are
   * more than 0.3 s of accumulated dt apart.
   */
  lemma {:induction false} NoJumpDuringCooldown(c: Controller, frames: seq<Frame>)
    requires forall i :: 0 <= i < |frames| ==> frames[i].dt >= 0.0
    requires SumDt(frames) <= c.cooldown
    ensures Jumps(c, frames) == 0
    decreases |frames|
  {
    if frames != [] {
      var s := HandleJumping(c.(pressed := frames[0].pressed), frames[0].grounded, frames[0].dt);
      SumDtNonNegative(frames[1..]);
      assert !s.jumped;
      NoJumpDuringCooldown(s.controller, frames[1..]);
    }
  }

  lemma {:induction false} SumDtNonNegative(frames: seq<Frame>)
    requires forall i :: 0 <= i < |frames| ==> frames[i].dt >= 0.0
    ensures SumDt(frames) >= 0.0
    decreases |frames|
  {
    if frames != [] {
      SumDtNonNegative(frames[1..]);
    }
  }

  /**
   * Jump buffering: a press made while airborne still jumps on landing if the
   * landing comes less than 0.1 s later, with the key already released.
   */
  lemma BufferedJumpLands(c: Controller, dt1: real, dt2: real)
    requires KeyPressed(c, Jump) && c.cooldown - dt1 - dt2 < 0.0
    requires 0.0 <= dt2 < BufferTime && c.cooldown - dt1 >= 0.0
    ensures var s1 := HandleJumping(c, false, dt1);
            var s2 := HandleJumping(s1.controller.(pressed := {}), true, dt2);
            !s1.jumped && s2.jumped
  {
  }

  /**
   * Grace time: jump pressed less than 0.25 s after leaving the ground still jumps.
   */
  lemma GraceJumpAfterLeaving(c: Controller, dt1: real, dt2: real)
    requires !KeyPressed(c, Jump) && c.buffer - dt1 <= 0.0
    requires 0.0 <= dt2 < GraceTime && c.cooldown - dt1 - dt2 < 0.0
    ensures var s1 := HandleJumping(c, true, dt1);
            var s2 := HandleJumping(s1.controller.(pressed := {KeySpace}), false, dt2);
            !s1.jumped && s2.jumped
  {
  }

  /** PlayerController::_HandleLateral's input: left subtracts and right adds the player speed. */
  function LateralInput(c: Controller): (r: real)
    ensures KeyPressed(c, Left) && !KeyPressed(c, Right) ==> r == -PlayerSpeed
    ensures KeyPressed(c, Right) && !KeyPressed(c, Left) ==> r == PlayerSpeed
    ensures KeyPressed(c, Left) == KeyPressed(c, Right) ==> r == 0.0
  {
    var added := if KeyPressed(c, Left) then 0.0 - PlayerSpeed else 0.0;
    if KeyPressed(c, Right) then added + PlayerSpeed else added
  }

  /** The three damping regimes, named by the source's constants. */
  datatype Damping = Stopping | Turning | Grounded

  /** The damping factor of each regime, applied as (1 - rate)^(10 dt). */
  function DampingRate(d: Damping): real
  {
    match d
    case Stopping => 0.6
    case Turning => 0.7
    case Grounded => 0.4
  }

  /** std::signbit on a non-NaN value. */
  predicate SignBit(x: real)
  {
    x < 0.0
  }

  /** The damping regime for an input, given the velocity before the impulse. */
  function DampingCase(input: real, velocity: real): Damping
  {
    if input < InputDeadZone && input > -InputDeadZone then Stopping
    else if SignBit(input) != SignBit(velocity) then Turning
    else Grounded
  }

  datatype Lateral = Lateral(input: real, damping: Damping, airExtra: bool)

  /**
   * The decisions of PlayerController::_HandleLateral: the lateral input, the
   * damping regime, and whether the airborne extra damping applies.
   */
  function HandleLateral(c: Controller, velocity: real, grounded: bool): (r: Lateral)
    ensures r.airExtra <==> !grounded
  {
    var input := LateralInput(c);
    Lateral(input, DampingCase(input, velocity), !grounded)
  }

  /**
   * Damping by keys held: both or neither stops; one direction against the
   * motion turns, along it glides. A player at rest (velocity 0, no sign bit)
   * counts as moving right, so pressing left from rest takes the turning regime.
   */
  lemma DampingByKeys(c: Controller, velocity: real, grounded: bool)
    ensures var r := HandleLateral(c, velocity, grounded);
      && (KeyPressed(c, Left) == KeyPressed(c, Right) ==> r.damping == Stopping)
      && (KeyPressed(c, Left) && !KeyPressed(c, Right) ==>
            r.damping == (if velocity < 0.0 then Grounded else Turning))
      && (KeyPressed(c, Right) && !KeyPressed(c, Left) ==>
            r.damping == (if velocity < 0.0 then Turning else Grounded))
  {
  }
}
