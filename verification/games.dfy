/**
 * The screen state machine of the game: main menu, level creation, play and
 * game over, with the per-frame update and the input events routed by screen.
 */
module Games {
  import opened Entities
  import Images
  import Levels
  import Generation

  /** GLFW key codes the screens react to. */
  const KeyEscape: int := 256
  const KeyEnter: int := 257
  const KeyKpEnter: int := 335

  datatype Screen = MainMenu | CreatingLevel | Playing | GameOver

  /** The game: the screen it shows and the current level. */
  datatype Game = Game(screen: Screen, level: Levels.Level)

  /** While a level is played or shown after game over, it satisfies the level invariant. */
  ghost predicate Valid(g: Game)
  {
    (g.screen == Playing || g.screen == GameOver) ==> Levels.Valid(g.level)
  }

  /** The game as it starts: the main menu over an empty level. */
  function NewGame(): (g: Game)
    ensures Valid(g) && g.screen == MainMenu && g.level == Levels.NewLevel()
  {
    Game(MainMenu, Levels.NewLevel())
  }

  /**
   * What one frame's update needs: the level image when a level is created,
   * and the oracles Level::Update needs while playing.
   */
  ghost predicate TickReady(g: Game, dt: real, img: Images.Image, ph: Levels.Physics, pick: EntityId)
  {
    && (g.screen == CreatingLevel ==> Images.Valid(img))
    && (g.screen == Playing ==>
          && Levels.Valid(g.level)
          && g.level.entities.Keys <= ph.poses.Keys
          && Levels.IterationOrder(ph.order, g.level.entities.Keys)
          && (!g.level.gameOver && Levels.DiamondDue(g.level.(time := g.level.time + dt)) ==>
                pick in g.level.shooters))
  }

  /**
   * Game::UpdateGame. Creating a level generates it from the level image and
   * starts play; playing updates the level and ends the game when the update
   * says so; the menu and the game-over screen do nothing.
   */
  function UpdateGame(g: Game, dt: real, img: Images.Image, ph: Levels.Physics, pick: EntityId): (r: Game)
    requires Valid(g) && TickReady(g, dt, img, ph, pick)
    ensures Valid(r)
    ensures g.screen == CreatingLevel ==>
              r.screen == Playing && r.level == Generation.GenerateLevel(img) && !r.level.gameOver
    ensures g.screen == Playing ==>
              var o := Levels.Update(g.level, dt, ph, pick);
              r.level == o.level && (r.screen == GameOver <==> !o.running)
              && (r.screen == Playing <==> o.running)
    ensures g.screen == MainMenu || g.screen == GameOver ==> r == g
  {
    match g.screen
    case CreatingLevel => Game(Playing, Generation.GenerateLevel(img))
    case Playing =>
      var o := Levels.Update(g.level, dt, ph, pick);
      Game(if o.running then Playing else GameOver, o.level)
    case _ => g
  }

  /**
   * Game::OnKey: forwarded to the level while playing; in the main menu Enter
   * or keypad Enter, with any action, starts creating a level; in the
   * game-over screen Escape returns to the menu.
   */
  function OnKey(g: Game, key: int, action: int): (r: Game)
    requires Valid(g)
    ensures Valid(r)
    ensures g.screen == Playing ==> r == Game(Playing, Levels.OnKey(g.level, key, action))
    ensures g.screen != Playing ==> r.level == g.level
    ensures g.screen == MainMenu ==>
              r.screen == (if key == KeyEnter || key == KeyKpEnter then CreatingLevel else MainMenu)
    ensures g.screen == GameOver ==> r.screen == (if key == KeyEscape then MainMenu else GameOver)
    ensures g.screen == CreatingLevel ==> r == g
  {
    match g.screen
    case Playing => Game(Playing, Levels.OnKey(g.level, key, action))
    case MainMenu => if key == KeyEnter || key == KeyKpEnter then g.(screen := CreatingLevel) else g
    case GameOver => if key == KeyEscape then g.(screen := MainMenu) else g
    case CreatingLevel => g
  }

  /** Game::OnMouseMove: forwarded to the level only while playing. */
  function OnMouseMove(g: Game, x: real, y: real): (r: Game)
    requires Valid(g)
    ensures Valid(r) && r.screen == g.screen
    ensures g.screen == Playing ==> r.level == Levels.OnMouseMove(g.level, x, y)
    ensures g.screen != Playing ==> r == g
  {
    if g.screen == Playing then g.(level := Levels.OnMouseMove(g.level, x, y)) else g
  }

  /** Game::OnMouseButton: forwarded to the level only while playing. */
  function OnMouseButton(g: Game, button: int, action: int, spin: real): (r: Game)
    requires Valid(g)
    ensures Valid(r) && r.screen == g.screen
    ensures g.screen == Playing ==> r.level == Levels.OnMouseButton(g.level, button, action, spin)
    ensures g.screen != Playing ==> r == g
  {
    if g.screen == Playing then g.(level := Levels.OnMouseButton(g.level, button, action, spin)) else g
  }

  // ---------------------------------------------------------------- runs of events

  /** One event the game reacts to; a frame carries the oracles its update needs. */
  datatype Event =
    | Frame(dt: real, img: Images.Image, ph: Levels.Physics, pick: EntityId)
    | Key(key: int, action: int)
    | MouseMove(x: real, y: real)
    | MouseButton(button: int, action: int, spin: real)

  ghost predicate Ready(g: Game, e: Event)
  {
    e.Frame? ==> TickReady(g, e.dt, e.img, e.ph, e.pick)
  }

  /** The game after one event. */
  function Apply(g: Game, e: Event): (r: Game)
    requires Valid(g) && Ready(g, e)
    ensures Valid(r)
  {
    match e
    case Frame(dt, img, ph, pick) => UpdateGame(g, dt, img, ph, pick)
    case Key(key, action) => OnKey(g, key, action)
    case MouseMove(x, y) => OnMouseMove(g, x, y)
    case MouseButton(button, action, spin) => OnMouseButton(g, button, action, spin)
  }

  /** Every event of the run finds the oracles it needs. */
  ghost predicate RunReady(g: Game, es: seq<Event>)
    requires Valid(g)
    decreases |es|
  {
    es != [] ==> Ready(g, es[0]) && RunReady(Apply(g, es[0]), es[1..])
  }

  /** The game after a run of events, in order. */
  function Run(g: Game, es: seq<Event>): (r: Game)
    requires Valid(g) && RunReady(g, es)
    ensures Valid(r)
    decreases |es|
  {
    if es == [] then g else Run(Apply(g, es[0]), es[1..])
  }

  // ---------------------------------------------------------------- properties

  /**
   * The screens form the cycle menu, creation, play, game over, menu: an event
   * either keeps the screen or moves it one step along the cycle.
   */
  predicate Successor(s: Screen, t: Screen)
  {
    s == t ||
    match s
    case MainMenu => t == CreatingLevel
    case CreatingLevel => t == Playing
    case Playing => t == GameOver
    case GameOver => t == MainMenu
  }

  /** Every event moves the screen along the cycle; nothing jumps back to the menu from play. */
  lemma EventsFollowCycle(g: Game, e: Event)
    requires Valid(g) && Ready(g, e)
    ensures Successor(g.screen, Apply(g, e).screen)
    ensures Apply(g, e).screen == MainMenu ==>
              g.screen == MainMenu || (g.screen == GameOver && e.Key? && e.key == KeyEscape)
  {
  }

  /** Input events reach the level only while playing; elsewhere they leave it as it is. */
  lemma InputReachesLevelOnlyInPlay(g: Game, e: Event)
    requires Valid(g) && !e.Frame? && g.screen != Playing
    ensures Apply(g, e).level == g.level
  {
  }

  /**
   * From any screen but the menu, a run reaches the menu only if it contains
   * an Escape key event: no other way leads back.
   */
  lemma {:induction false} MenuNeedsEscape(g: Game, es: seq<Event>)
    requires Valid(g) && RunReady(g, es) && g.screen != MainMenu
    ensures Run(g, es).screen == MainMenu ==>
              exists i :: 0 <= i < |es| && es[i].Key? && es[i].key == KeyEscape
    decreases |es|
  {
    if es != [] {
      var next := Apply(g, es[0]);
      EventsFollowCycle(g, es[0]);
      if next.screen != MainMenu {
        MenuNeedsEscape(next, es[1..]);
        if Run(g, es).screen == MainMenu {
          var i :| 0 <= i < |es[1..]| && es[1..][i].Key? && es[1..][i].key == KeyEscape;
          assert es[i + 1] == es[1..][i];
        }
      }
    }
  }

  /**
   * Nothing in the level kills the player, so once a level is being played
   * its update never reports the end of the game: play never reaches the
   * game-over screen.
   */
  lemma PlayNeverEnds(g: Game, dt: real, img: Images.Image, ph: Levels.Physics, pick: EntityId)
    requires Valid(g) && TickReady(g, dt, img, ph, pick)
    requires g.screen == Playing && !g.level.gameOver
    ensures UpdateGame(g, dt, img, ph, pick).screen == Playing
    ensures !UpdateGame(g, dt, img, ph, pick).level.gameOver
  {
  }
}
