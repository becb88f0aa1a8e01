# LD44 game core in Dafny

A model of the bookkeeping and decision logic of a small 2D platformer. The
player collects bullets fired by shooter blocks and fires them back. The model
covers these parts of the game:

- **Images**: the image grid and its row-major indexing, RGBA byte packing,
  sub-images and the channel expansion of decoded PNG data.
- **Entities**: the entity base (pose, alive flag, deferred-action queue) and
  the closed set of entity kinds.
- **Shooters**: the shooter's direction guard and its volley timer.
- **Bullets**: a bullet's die-or-explode decision on contact and its homing
  steering.
- **Players**: the player's touching-wall set, its bullet counter and the
  grounded test.
- **Controllers**: the player controller's key set and key bindings, its
  jump timers, fire gating and damping choice.
- **Levels**: the level itself: entity factories, `ExplodeAt`, `Raycast`, the
  camera clamp, shaker expiry, contact dispatch, diamond scheduling and the
  whole `Level::Update` tick.
- **Generation**: `Level::GenerateLevel`, which turns the level image into
  walls, shooters with their shooting directions, and the player.
- **Games**: the screen state machine of `Game` (main menu, creating level,
  playing, game over).

Everything is a pure function over immutable datatypes. Entities live in a
`map<EntityId, Entity>` and get fresh ids from a counter, standing in for the
set of shared pointers. Channels are bytes (`bv8`) and packed pixels are
`bv32` words. Positions and timers are `real`.

The physics engine is not modelled. What it reports is passed in as one
`Levels.Physics` record for each update:

- the contacts of the five sub-steps, in order;
- the body poses after the step;
- each homing bullet's ray hits;
- the player's horizontal velocity before the impulse;
- the iteration order of the entity set.

Random draws are also parameters: the shooter chosen for the diamond and the
shake directions. The summed screen-shake offset is a parameter too.

The bodies of the source files are followed where they differ from their
headers. Level.h, Game.h, Entity.h and Bullet.h are out of date with respect
to their `.cpp` files; `Bullet.h` declares a one-argument `OnCollisionStart`
while `Bullet.cpp` defines the two-argument form the contact listener calls. `Game.h` lists only two screens, while `Game.cpp` uses
four. The player's counter is `_bullets` in `Player.cpp` and `_bullet_count`
in `PlayerController.cpp`; both are the one field `bulletCount` here.

The behaviour modelled is that of the code, which differs from the game's
design in several places:

- **Exact interval.** A shooter whose clock reaches its interval exactly does
  not fire. The test is a strict `>`.
- **Exploding bullets.** An exploding bullet queues an explosion on every
  starting contact, including contact with a bullet of its own colour.
- **Queued actions never run.** No code in these files drains the
  `_on_update` queue. The queued explosions and player shots are recorded in
  the model, but a level update never performs them. `Levels.ApplyExplode`
  gives the meaning of an explosion action without running it in `Update`.
- **Nothing ends the game.** Nothing in the code kills the player: no health,
  no hit limit. A level being played therefore never reports game over
  (`Games.PlayNeverEnds`).
- **`Shooter::SetNextAsDiamond` has no body.** It is modelled as setting a
  flag on the shooter.

## Model

| member | source | states |
|---|---|---|
| Images.SetRGBAOfRGBA | Source/Image.h:19-32 | splitting a packed pixel gives back its four channel bytes |
| Images.RGBAOfSetRGBA | Source/Image.h:19-32 | packing the bytes split from any 32-bit word rebuilds that word |
| Images.RGBAFields | Source/Image.h:19 | alpha is the low byte of the packed word; shifting right by 8 leaves red<<16, green<<8, blue |
| Images.IndexInRange | Source/Image.h:42-43 | a cell inside the grid addresses a position below width·height |
| Images.IndexRoundTrip | Source/Image.h:42-43 | for x < width, position x + width·y gives x back by remainder and y by quotient |
| Images.IndexInjective | Source/Image.h:42-43 | two different cells never share a position of the pixel vector |
| Images.Sized | Source/Image.cpp:14-18 | the sized image has the given dimensions and exactly w·h pixels, all blank |
| Images.SubImage | Source/Image.cpp:33-47 | the four range errors in checking order; success exactly when the block fits; the result is w×h and its pixel (i, j) is the source pixel (i+x, j+y) |
| Images.SubImageWhole | Source/Image.cpp:33-47 | the whole of a non-empty image is a sub-image equal to the image |
| Images.SubImageOfEmptyWidth | Source/Image.cpp:34 | x ≥ width rejects the request even when the requested width is 0 |
| Images.ReadPixels | Source/Image.cpp:211-261 | channel counts other than 1, 3, 4 fail; grey is copied to R, G and B with full alpha, RGB gets full alpha, RGBA is copied as is, one pixel per width·height |
| Entities.Create | Source/Entity.cpp:12-13 | the constructor stores the given position and rotation; the entity starts alive with nothing queued |
| Entities.Sync | Source/Entity.cpp:31-37 | an update first copies position and angle from the body, changing nothing else |
| Entities.Die | Source/Entity.cpp:47-49 | Die clears the alive flag and changes nothing else |
| Entities.InitializeAtStoredPose | Source/Entity.cpp:15-29 | the body is created at the stored position and angle, owned by the entity, with one fixture |
| Entities.SyncLastWins | Source/Entity.cpp:39-45 | X and Y report the last pose copied from the body |
| Entities.DieIdempotent | Source/Entity.cpp:47-53 | dying twice is dying once; Die changes an entity exactly when it is alive |
| Shooters.NewShooter | Source/Shooter.cpp:10-11 | a shooter on a grid cell with the given interval and clock, no directions, renderer not prepared |
| Shooters.AddShootingDirection | Source/Shooter.cpp:13-19 | fails exactly when the renderer is prepared; otherwise appends (dx, dy) at the end, keeps earlier entries and changes nothing else |
| Shooters.Volley | Source/Shooter.cpp:43-48 | one spawn per direction, in list order, at (x+dx, y+dy) with velocity (8dx, 8dy) |
| Shooters.InternalUpdate | Source/Shooter.cpp:37-50 | clock + dt past the interval fires a volley and resets the clock to 0; otherwise the clock grows by dt and nothing spawns; directions and interval never change |
| Shooters.ExactIntervalDoesNotFire | Source/Shooter.cpp:38-40 | for every shooter and dt, a clock that reaches the interval exactly does not fire: nothing spawns and the clock stays at the interval |
| Shooters.PrepareRenderer | Source/Shooter.cpp:52-103 | preparing marks the renderer prepared and changes nothing else; an already prepared shooter returns early unchanged |
| Shooters.PreparedRejectsDirections | Source/Shooter.cpp:13-22 | once prepared, adding a direction fails with the already-initialised error, and preparing again changes nothing |
| Shooters.RunKeepsShape | Source/Shooter.cpp:37-50 | over a run of updates the directions and the interval never change and there is at most one volley per update |
| Shooters.VolleyBudget | Source/Shooter.cpp:38-41 | over a run of updates the final clock plus one interval per volley never exceeds the start clock plus the elapsed dt, strictly once anything fired |
| Shooters.PaidIsProduct | Source/Shooter.cpp:38-41 | the cost of n volleys used in the budget is n times the interval |
| Bullets.NewBullet | Source/Bullet.cpp:18-20 | the bullet keeps its start velocity, colour, scale and flags, at rotation 0 |
| Bullets.OnCollisionStart | Source/Bullet.cpp:39-53 | an exploding bullet queues one explosion and stays alive; a plain bullet dies unless the other is a bullet of its colour, which it ignores |
| Bullets.ExplodingNeverDies | Source/Bullet.cpp:42-48 | over any run of contacts an exploding bullet keeps its alive flag and queues exactly one explosion per contact |
| Bullets.PlainSurvivesOnlyItsOwnSide | Source/Bullet.cpp:39-53 | a plain bullet survives a run of contacts exactly when every contact was with a bullet of its colour, and queues nothing |
| Bullets.Steer | Source/Bullet.cpp:72-79 | for a blended vector at least epsilon long, the new velocity has the old speed and points along the blended vector |
| Players.NewPlayer | Source/Player.cpp:9-10 | a new player touches no wall and has caught no bullet |
| Players.OnCollisionStart | Source/Player.cpp:27-36 | a wall or shooter joins the touching set; a bullet adds exactly one to the count; anything else changes nothing |
| Players.OnCollisionEnd | Source/Player.cpp:38-44 | a wall leaves the touching set; the bullet count never changes; other kinds change nothing |
| Players.IsGrouded | Source/Player.cpp:46-55 | true exactly when some touching wall has player.y ≤ wall.y + 0.42 and wall.x within 0.35 of player.x |
| Players.NothingTouchedNotGrounded | Source/Player.cpp:46-55 | with no wall touched the player is not grounded |
| Players.RepeatedContactIsOneMember | Source/Player.cpp:27-44 | two starts with the same wall keep one member, so one end removes it; the count is unchanged |
| Players.LandAndLeave | Source/Player.cpp:27-55 | starting contact with a supporting wall grounds the player; ending it with the only wall ungrounds it |
| Controllers.NewController | Source/PlayerController.h:41-48 | no key held and the grace, buffer and cooldown timers at 0 |
| Controllers.OnKey | Source/PlayerController.cpp:16-22 | a press inserts the key, a release erases it, any other action leaves the set as it is |
| Controllers.KeyPressedIffBound | Source/PlayerController.cpp:124-139 | JUMP is held iff W, Up or Space is pressed, LEFT iff A or Left, RIGHT iff D or Right; pressing a bound key holds it; releasing the last bound key lets go |
| Controllers.OnMouseMove | Source/PlayerController.cpp:24-26 | the pointer position is stored and nothing else changes |
| Controllers.UpdateController | Source/PlayerController.cpp:61-64 | the screen size and camera are stored and nothing else changes |
| Controllers.OnMouseButton | Source/PlayerController.cpp:28-58 | without a caught bullet, or for anything but a left press, nothing changes; otherwise one shot is queued, with exploding = \|spin\| > 15, and the count drops by one |
| Controllers.ShotsSpendBullets | Source/PlayerController.cpp:28-58 | over any run of clicks, shots queued plus bullets left equal the bullets caught, and earlier queue entries are kept |
| Controllers.HandleJumping | Source/PlayerController.cpp:71-90 | timers drop by dt; grace refills to 0.25 when grounded and buffer to 0.1 while jump is held; a jump happens iff grace > 0, buffer > 0 and cooldown < 0, and then the timers become 0, 0 and 0.3 |
| Controllers.NoJumpDuringCooldown | Source/PlayerController.cpp:84-89 | no jump happens in frames whose dt add up to at most the remaining cooldown, whatever the keys and ground do |
| Controllers.BufferedJumpLands | Source/PlayerController.cpp:71-89 | jump pressed in the air still jumps on a landing less than 0.1 s later |
| Controllers.GraceJumpAfterLeaving | Source/PlayerController.cpp:71-89 | jump pressed less than 0.25 s after leaving the ground still jumps |
| Controllers.LateralInput | Source/PlayerController.cpp:95-98 | −0.7 with only left held, +0.7 with only right held, 0 with both or neither |
| Controllers.HandleLateral | Source/PlayerController.cpp:92-119 | the airborne extra damping applies exactly when the player is not grounded |
| Controllers.DampingByKeys | Source/PlayerController.cpp:100-115 | both or neither key held gives the stopping regime; one key against the motion gives turning and along it the grounded regime; a player at rest counts as moving right |
| Levels.NewLevel | Source/Level.cpp:31-32 | an empty level that satisfies the invariant, camera at (12, 12), time 0, not over |
| Levels.AddEntity | Source/Level.h:36-42 | the entity is inserted under the counter's id, which is fresh in a valid level, and the invariant is kept |
| Levels.AddWall | Source/Level.cpp:42-44 | one wall at the grid cell under the next id; nothing else changes |
| Levels.AddShooter | Source/Level.cpp:46-49 | one shooter under the next id, which also joins the shooter set |
| Levels.CreatePlayer | Source/Level.cpp:51-54 | one player under the next id, tracked as the player, with a fresh controller |
| Levels.BlockBullet | Source/Level.cpp:56-58 | a block bullet is red, scale 1, homing and not exploding |
| Levels.SpawnBlockBullet | Source/Level.cpp:56-58 | a block bullet joins the level under the next id, keeping the invariant |
| Levels.SpawnPlayerBullet | Source/Level.cpp:60-62 | a yellow, non-homing bullet with the given exploding flag joins under the next id |
| Levels.SpawnDiamond | Source/Level.cpp:64-66 | a diamond joins under the next id and becomes the tracked diamond |
| Levels.ExplodeAt | Source/Level.cpp:78-94 | an entity dies exactly when it is a bullet with squared distance ≤ 25 to the blast, boundary included; nothing else changes |
| Levels.ExplodeAtIdempotent | Source/Level.cpp:78-94 | a second explosion at the same point kills nothing more; an explosion keeps the invariant |
| Levels.ShakeScreenToward | Source/Level.cpp:74-76 | one shaker is added with the scaled direction, the given power, damping 5 and t = 0 |
| Levels.ShakeScreen | Source/Level.cpp:68-72 | four shakers are added after the existing ones, with vertical draws divided by 1.7 |
| Levels.ApplyExplode | Source/Bullet.cpp:44-48 | the queued explosion explodes at the owner's position and adds eight shakers, changing nothing else |
| Levels.OwnBlastKillsBullet | Source/Bullet.cpp:44-48 | at distance 0 a bullet is inside its own blast, so its explosion kills it |
| Levels.ClosestFrom | Source/Level.cpp:219-241 | the running minimum ends on the first eligible hit of minimal fraction below the bound, or on none when every eligible hit is at or past it |
| Levels.Raycast | Source/Level.cpp:213-244 | the result is accepted by the predicate and owns the closest eligible hit (the first on ties); nothing is found iff no eligible hit is below tmax + 1; tmin plays no part |
| Levels.RaycastMissesIneligible | Source/Level.cpp:219-243 | with no hit of an accepted entity the raycast finds nothing |
| Levels.HomingRayIgnoresBullets | Source/Bullet.cpp:63-69 | the homing raycast never returns a bullet |
| Levels.Homing | Source/Bullet.cpp:55-71 | a bullet steers exactly when it is homing and its raycast toward the player hits the player |
| Levels.ClampCamera | Source/Level.cpp:153-156 | after the clamp the camera is within ±5 horizontally and ±3 vertically of the player; a camera already there does not move |
| Levels.ClampIsNearest | Source/Level.cpp:153-156 | on each axis no point of the dead zone is nearer the old camera, so clamping twice is clamping once |
| Levels.AdvanceShakers | Source/Level.cpp:161-173 | a shaker survives exactly when, aged by dt, it is not older than 10; no survivor is older |
| Levels.Aged | Source/Level.cpp:163-165 | every shaker, in order, is older by dt |
| Levels.Live | Source/Level.cpp:166-172 | a shaker is kept exactly when it is not older than 10; nothing is added |
| Levels.StartWith | Source/Level.cpp:14-20 | a starting contact never moves or revives an entity; only bullets and the player react |
| Levels.EndWith | Source/Level.cpp:22-28 | an ending contact never changes the alive flag; only the player reacts |
| Levels.ApplyContact | Source/Level.cpp:13-29 | the contact keeps the entity set and acts on each entity only as a contact may |
| Levels.ApplyContacts | Source/Level.cpp:108-111 | the contacts of a step keep the entity set, never revive, and never kill a shooter or the player |
| Levels.SetNextAsDiamond | Source/Level.cpp:119 | the shooter is marked for a diamond and nothing else changes |
| Levels.ScheduleDiamond | Source/Level.cpp:113-121 | only with no tracked diamond, time strictly past 5 and the flag clear, one shooter is marked and the flag is set; afterwards no diamond is due |
| Levels.ScheduleMarksOneShooter | Source/Level.cpp:114-121 | scheduling marks exactly one shooter |
| Levels.Advance | Source/Level.cpp:126-127 | one entity takes its body's pose, then runs its own update; only shooters change state or spawn |
| Levels.Pass | Source/Level.cpp:126-132 | the pass keeps every entity, its alive flag and whether it is a shooter or the player |
| Levels.DeadIn | Source/Level.cpp:124-132 | the dead list holds exactly the entities not alive after their update |
| Levels.RemoveDead | Source/Level.cpp:134-146 | the dead leave the level; removing the tracked diamond clears it and the flag; removing the player latches game over |
| Levels.AddSpawns | Source/Level.cpp:56-58 | the fired block bullets join under consecutive fresh ids, in order; old entities are unchanged |
| Levels.UpdatePlayer | Source/Level.cpp:103-106 | the controller's jump logic runs with the player's grounded state; nothing else changes |
| Levels.BeforePass | Source/Level.cpp:96-121 | the time grows by dt and contacts and scheduling keep the invariant; an entity's alive flag is what the contacts left |
| Levels.Update | Source/Level.cpp:96-149 | a game-over level is unchanged and reports false; otherwise the time grows by dt, an entity stays iff alive after the contacts, everything dead at the start is gone, everything left is alive, every new entity is a block bullet, the invariant is kept, and the result is !gameOver |
| Levels.Settle | Source/Level.cpp:123-146 | after the pass and the removal, exactly the live entities remain and the new ones are block bullets |
| Levels.SpawnsJoinAlive | Source/Level.cpp:126-136 | spawned bullets joining a level of live entities leave every entity alive, and every new id is a block bullet |
| Levels.PassKeepsValid | Source/Level.cpp:124-146 | removing the dead keeps the invariant and never removes the player or a shooter |
| Levels.OnKey | Source/Level.cpp:195-199 | the key goes to the controller when there is one; nothing else changes |
| Levels.OnMouseMove | Source/Level.cpp:201-205 | the pointer goes to the controller when there is one; nothing else changes |
| Levels.OnMouseButton | Source/Level.cpp:207-211 | the click goes to the controller, which may change the player only; the invariant is kept |
| Levels.RenderStep | Source/Level.cpp:151-193 | the camera ends in the dead zone, shakers older than 10 are gone, every alive shooter is prepared and every other entity is unchanged, the controller gets the screen size and the shaken camera, and the invariant is kept |
| Levels.Rendered | Source/Level.cpp:179-183 | an alive shooter is drawn and so prepared; any other entity is unchanged |
| Levels.DrawnShooterRejectsDirections | Source/Level.cpp:179-183 | after a drawn frame, adding a direction to any alive shooter fails |
| Generation.ClassifyPixel | Source/Level.cpp:266-283 | alpha 0 is skipped; opaque black is a wall, opaque pure red a shooter, opaque pure blue a marker |
| Generation.CellAt | Source/Level.cpp:264-266 | scan step k visits column k / height and row k % height |
| Generation.Cells | Source/Level.cpp:264-266 | the scan holds one entry for each of the width·height cells, columns outer and rows inner |
| Generation.ScanVisitsEachCell | Source/Level.cpp:264-266 | cell (x, y) is visited at step x·height + y |
| Generation.ScanVisitsOnce | Source/Level.cpp:264-265 | no cell is visited twice |
| Generation.PlaceAll | Source/Level.cpp:264-284 | the entities are exactly the wall and shooter cells under ids 0, 1, … in scan order; the shooter set holds the shooter cells; the markers are collected in scan order |
| Generation.AttachMarker | Source/Level.cpp:287-294 | every shooter next to the marker gains the direction to it; nothing else changes |
| Generation.Attached | Source/Level.cpp:288-293 | one entity for the marker: a shooter next to it gains the direction to it and stays an open, alive shooter; any other entity is unchanged |
| Generation.AttachAll | Source/Level.cpp:286-295 | every shooter gains the directions of its adjacent markers, in marker order |
| Generation.GenerateFrom | Source/Level.cpp:258-300 | the level is valid and holds the walls and shooters with their directions, then exactly one player at (2, 5) with a fresh controller |
| Generation.GenerateLevel | Source/Level.cpp:258-300 | the generated level satisfies the invariant, is not over and has its player and controller |
| Generation.GeneratedShape | Source/Level.cpp:258-300 | the generated level is fresh and valid, its ids are 0 … n with the player at n, and its shooters are the shooter cells |
| Generation.GeneratedCells | Source/Level.cpp:286-297 | the marker loop and the player's creation keep every wall and shooter entity |
| Generation.SolidMembers | Source/Level.cpp:274-277 | a wall or shooter is placed exactly for a wall or shooter cell of the scan |
| Generation.MarkerMembers | Source/Level.cpp:278-279 | a marker is collected exactly for a marker cell of the scan |
| Generation.GeneratedFromPixels | Source/Level.cpp:264-283 | a wall, shooter or marker exists at (x, y) exactly when that pixel is opaque black, red or blue |
| Generation.DirectionsAreSteps | Source/Level.cpp:286-295 | a shooter gains a direction exactly for each marker at Manhattan distance 1, never diagonal, and each is the unit step to its marker |
| Generation.AdjacentWhole | Source/Level.cpp:288-292 | on whole coordinates the truncated-distance test is Manhattan distance 1 and the direction is the exact offset |
| Generation.DirectionsDistinct | Source/Level.cpp:286-295 | distinct markers give distinct directions |
| Generation.MarkersDistinct | Source/Level.cpp:264-279 | no marker is collected twice |
| Generation.StepsToMarkers | Source/Level.cpp:286-295 | a shooter on a whole cell gains at most four directions, one for each adjacent marker, each a unit step |
| Generation.ShooterSteps | Source/Level.cpp:286-297 | each generated shooter's directions are distinct unit steps, one for each adjacent marker, at most four |
| Generation.GeneratedShooterDirections | Source/Level.cpp:286-295 | each shooter from the image has at most four unit-step directions, one per adjacent marker; a marker beside two shooters serves both |
| Games.NewGame | Source/Game.cpp:11-16 | the game starts in the main menu over an empty level |
| Games.UpdateGame | Source/Game.cpp:39-58 | creating a level generates it and starts play; play moves to game over exactly when the level update returns false; the menu and game over do nothing |
| Games.OnKey | Source/Game.cpp:80-98 | in play the key goes to the level; in the menu only Enter or keypad Enter, with any action, moves to level creation; in game over only Escape returns to the menu |
| Games.OnMouseMove | Source/Game.cpp:60-68 | the pointer reaches the level only in play; the screen never changes |
| Games.OnMouseButton | Source/Game.cpp:70-78 | the click reaches the level only in play; the screen never changes |
| Games.EventsFollowCycle | Source/Game.cpp:39-98 | each event keeps the screen or moves one step along menu → creating → playing → game over → menu; the menu is reached only from game over by Escape |
| Games.InputReachesLevelOnlyInPlay | Source/Game.cpp:60-98 | outside play, key and mouse events leave the level unchanged |
| Games.MenuNeedsEscape | Source/Game.cpp:80-98 | a run starting outside the menu reaches the menu only if it contains an Escape key event |
| Games.PlayNeverEnds | Source/Game.cpp:47-52 | a level in play whose game is not over never reports game over, so play never reaches the game-over screen |

## Left out

- Box2D physics: stepping, bodies, fixtures, impulses, per-fixture ray casts and the body and fixture settings of each kind. A foreign library; its results are the `Levels.Physics` inputs.
- Rendering: every `Render` and `_PrepareRenderer`, shaders, UI, overlay and main menu drawing. These are OpenGL calls with no decision logic. Only the renderer-prepared flag is kept. `Levels.RenderStep` sets it on every alive shooter it draws, and the guard in `AddShootingDirection` tests it; the source's guard tests the vertex array handle, which `_PrepareRenderer` sets together with the flag. `Shooter::Render` is declared with one argument while `Level::Render` passes two; the model follows the evident intent that drawing a shooter prepares it.
- PNG input and output through libpng: `_Validate`, the stream setup of `_ReadStream`, and `Save`. Only the channel-expansion loop is modelled.
- Audio, windowing and the error dialog. These are I/O; `Game::UpdateGame`'s background music calls and the overlay creation have no counterpart.
- Floating point: the shaker's exp/sin offset, the pow damping factors, the aim projection and normalisation of a player shot, and float↔byte channel conversion. Reals stand in for floats, and channels are modelled as bytes.
- The random draws: they are parameters. The diamond pick must be one of the level's shooters; the shake draws are any reals, since their distribution only shapes the shake offset, which is not modelled. A level generated from an image with no red pixels has no shooters, so once its time passes 5 the pick `uniform_int_distribution<int>(0, _shooters.size() - 1)` has a lower bound above its upper bound, which is undefined behaviour; `Levels.Update` and `Games.TickReady` then have no pick that meets their requires, and the model promises nothing for that frame.
- Queue drain: `Bullet.cpp:44` and `PlayerController.cpp:49` append to `_on_update`, and no function in these sources runs or clears it, so the queue only grows. `Levels.ApplyExplode` states what a queued explosion would do if it ran. Diamond reward volleys, health and score have no code in these sources.
- Insert during iteration: shooters add bullets to the entity set while `Level::Update` iterates it. Here the spawns are collected during the pass and added after the dead are removed.
- The order of the screen shakers: `Level` keeps them in a pointer-keyed set; here they are a sequence in insertion order. Only the summed shake offset, which is not modelled, could observe the order.
- Unsigned overflow of `x + width` in `SubImage`: sizes are `nat`.
- `Level::Raycast`'s `tmin` and the ray's origin and direction: they only feed the physics query, whose hits are inputs.
- Levels.RenderStep: requires a tracked player inside the level, as `Level::Render` dereferences it. Drawing the player when it is dead is rendering and left out.
- Players.OnCollisionStart: `Player.cpp` defines one-argument `OnCollisionStart` and `OnCollisionEnd` (as `Player.h` and the stale `Entity.h` declare them), while the contact listener calls two-argument handlers (Level.cpp:18-19, 26-27). Read literally, the player's handlers would never run, so it would never touch a wall or catch a bullet. The model follows the evident intent that they handle the player's contacts; `Players.OnCollisionEnd` and the player branches of `Levels.StartWith` and `Levels.EndWith` rest on the same reading.
- Controllers.DampingByKeys: `std::signbit` is modelled as `x < 0`, so the sign bit of −0.0 is not distinguished.
- Levels.ApplyContact: a contact naming an entity not in the level changes nothing. The physics world only reports bodies of live entities.
- Homing steering when no player exists: `Bullet::InternalUpdate` dereferences the player; `Levels.Homing` steers nothing then.
- The "Invalid color" diagnostic printed by `GenerateLevel` for other colours: the cell simply adds nothing.
- The stored `_alive` is a `float` in the source; it is a `bool` here, which reads back identically.
- `Game`'s initial screen: the constructor leaves it unset and the header is out of date; the model starts in the main menu.
- Diamond.cpp and the other entity bodies beyond their kinds are not part of this model.
