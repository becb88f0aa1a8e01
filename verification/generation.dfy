/**
 * Level::GenerateLevel: the level image is scanned column by column; each
 * opaque cell's colour makes it a wall, a shooter or a direction marker;
 * every marker orthogonally next to a shooter gives that shooter a shooting
 * direction; finally the player is created at (2, 5).
 */
module Generation {
  import opened Wrappers
  import opened Entities
  import Images
  import Shooters
  import Players
  import Controllers
  import Levels

  /** Shooting interval and starting clock of every generated shooter. */
  const ShooterInterval: real := 1.0
  const ShooterStartClock: real := -3.9
  /** Where the player starts. */
  const PlayerStartX: real := 2.0
  const PlayerStartY: real := 5.0

  /** The colours, as the upper three bytes of a packed pixel. */
  const WallColor: bv32 := 0x000000
  const ShooterColor: bv32 := 0xFF0000
  const MarkerColor: bv32 := 0x0000FF

  /** What a cell of the level image stands for. An `Invalid` colour is reported and ignored. */
  datatype Cell = Transparent | WallCell | ShooterCell | MarkerCell | Invalid(color: bv32)

  /** The colour test of Level::GenerateLevel on a packed RGBA word. */
  function Classify(word: bv32): Cell
  {
    if word & 0xFF == 0 then Transparent
    else
      var color := word >> 8;
      if color == WallColor then WallCell
      else if color == ShooterColor then ShooterCell
      else if color == MarkerColor then MarkerCell
      else Invalid(color)
  }

  /**
   * In terms of the pixel's channels: alpha 0 is skipped whatever the colour;
   * an opaque black cell is a wall, pure red a shooter, pure blue a marker.
   */
  lemma ClassifyPixel(p: Images.Pixel)
    ensures Classify(Images.RGBA(p)) == Transparent <==> p.alpha == 0
    ensures Classify(Images.RGBA(p)) == WallCell <==>
              p.alpha != 0 && p.red == 0 && p.green == 0 && p.blue == 0
    ensures Classify(Images.RGBA(p)) == ShooterCell <==>
              p.alpha != 0 && p.red == 0xFF && p.green == 0 && p.blue == 0
    ensures Classify(Images.RGBA(p)) == MarkerCell <==>
              p.alpha != 0 && p.red == 0 && p.green == 0 && p.blue == 0xFF
  {
    Images.RGBAFields(p);
  }

  /** One visited cell: what it is and where. */
  datatype Scanned = Scanned(cell: Cell, x: nat, y: nat)

  /** The k-th cell of the scan: column k / height, row k % height. */
  function CellAt(img: Images.Image, k: nat): (r: Scanned)
    requires Images.Valid(img) && k < img.width * img.height
    ensures r.x == k / img.height && r.y == k % img.height
    ensures r.x < img.width && r.y < img.height
    ensures r.cell == Classify(Images.RGBA(Images.At(img, r.x, r.y)))
  {
    Images.CellOf(k, img.height, img.width);
    Scanned(Classify(Images.RGBA(Images.At(img, k / img.height, k % img.height))), k / img.height, k % img.height)
  }

  /** The cells in the order the two nested loops visit them: columns outer, rows inner. */
  function Cells(img: Images.Image): (r: seq<Scanned>)
    requires Images.Valid(img)
    ensures |r| == img.width * img.height
    ensures forall k :: 0 <= k < |r| ==> r[k] == CellAt(img, k)
  {
    seq(img.width * img.height, k requires 0 <= k < img.width * img.height => CellAt(img, k))
  }

  /** The scan visits cell (x, y) at position x * height + y. */
  lemma ScanVisitsEachCell(img: Images.Image, x: nat, y: nat)
    requires Images.Valid(img) && x < img.width && y < img.height
    ensures x * img.height + y < |Cells(img)|
    ensures Cells(img)[x * img.height + y] ==
              Scanned(Classify(Images.RGBA(Images.At(img, x, y))), x, y)
  {
    Images.IndexInRange(img.height, img.width, y, x);
    Images.IndexRoundTrip(img.height, y, x);
    assert Images.Index(img.height, y, x) == x * img.height + y;
  }

  /** No cell is visited twice. */
  lemma ScanVisitsOnce(img: Images.Image, k1: nat, k2: nat)
    requires Images.Valid(img) && k1 < k2 < img.width * img.height
    ensures CellAt(img, k1).x != CellAt(img, k2).x || CellAt(img, k1).y != CellAt(img, k2).y
  {
    var h := img.height;
    assert k1 == h * (k1 / h) + k1 % h;
    assert k2 == h * (k2 / h) + k2 % h;
  }

  /** A wall or shooter cell of the scan, in the order the entities are created. */
  datatype Placed = Placed(shooter: bool, x: nat, y: nat)

  /** The wall and shooter cells of a scan, in scan order. */
  function Solid(cells: seq<Scanned>): seq<Placed>
    decreases |cells|
  {
    if cells == [] then []
    else
      var c := cells[|cells| - 1];
      Solid(cells[..|cells| - 1]) +
        (match c.cell
         case WallCell => [Placed(false, c.x, c.y)]
         case ShooterCell => [Placed(true, c.x, c.y)]
         case _ => [])
  }

  /** The marker cells of a scan, in scan order. */
  function Markers(cells: seq<Scanned>): seq<IVec>
    decreases |cells|
  {
    if cells == [] then []
    else
      var c := cells[|cells| - 1];
      Markers(cells[..|cells| - 1]) + (if c.cell == MarkerCell then [IVec(c.x, c.y)] else [])
  }

  /** The entity a placed cell creates. */
  function EntityFor(p: Placed): Entity
  {
    if p.shooter then Shooters.NewShooter(p.x, p.y, ShooterInterval, ShooterStartClock)
    else Create(p.x as real, p.y as real, 0.0, Wall)
  }

  /** The level being generated and the markers collected so far. */
  datatype Layout = Layout(level: Levels.Level, markers: seq<IVec>)

  /** The body of the scanning loops for one cell. */
  function Place(t: Layout, c: Scanned): Layout
  {
    match c.cell
    case WallCell => t.(level := Levels.AddWall(t.level, c.x, c.y))
    case ShooterCell => t.(level := Levels.AddShooter(t.level, c.x, c.y, ShooterInterval, ShooterStartClock))
    case MarkerCell => t.(markers := t.markers + [IVec(c.x, c.y)])
    case _ => t
  }

  /**
   * The scanning loops over a run of cells, on a new level: the entities are
   * exactly the wall and shooter cells under ids 0, 1, ... in scan order, the
   * shooter set holds the shooter cells' ids, and the markers are collected in
   * scan order.
   */
  function PlaceAll(cells: seq<Scanned>): (r: Layout)
    ensures Levels.Valid(r.level)
    ensures r.level.(entities := map[], nextId := 0, shooters := {}) == Levels.NewLevel()
    ensures r.markers == Markers(cells)
    ensures r.level.nextId == |Solid(cells)|
    ensures forall id: nat :: id in r.level.entities <==> id < |Solid(cells)|
    ensures forall n :: 0 <= n < |Solid(cells)| ==> r.level.entities[n] == EntityFor(Solid(cells)[n])
    ensures forall id: nat :: id in r.level.shooters <==> id < |Solid(cells)| && Solid(cells)[id].shooter
    decreases |cells|
  {
    if cells == [] then
      assert Solid(cells) == [];
      Layout(Levels.NewLevel(), [])
    else
      var prefix := cells[..|cells| - 1];
      var c := cells[|cells| - 1];
      var t := PlaceAll(prefix);
      var r := Place(t, c);
      var solid := Solid(cells);
      assert solid[..|Solid(prefix)|] == Solid(prefix);
      assert c.cell.WallCell? ==> solid == Solid(prefix) + [Placed(false, c.x, c.y)];
      assert c.cell.ShooterCell? ==> solid == Solid(prefix) + [Placed(true, c.x, c.y)];
      assert !c.cell.WallCell? && !c.cell.ShooterCell? ==> solid == Solid(prefix);
      r
  }

  /** C++ float-to-int conversion: toward zero. */
  function Trunc(r: real): int
  {
    if r >= 0.0 then r.Floor else -((-r).Floor)
  }

  function Abs(n: int): nat
  {
    if n < 0 then -n else n
  }

  /** The adjacency test: the truncated distances are 1 and 0 in either order. */
  predicate Adjacent(x: real, y: real, m: IVec)
  {
    var dx := Abs(Trunc(x - m.x as real));
    var dy := Abs(Trunc(y - m.y as real));
    (dx == 1 && dy == 0) || (dx == 0 && dy == 1)
  }

  /** The direction from (x, y) to the marker, converted to int. */
  function Toward(x: real, y: real, m: IVec): IVec
  {
    IVec(Trunc(m.x as real - x), Trunc(m.y as real - y))
  }

  /** The directions a shooter at (x, y) gains from the markers, in marker order. */
  function Directions(x: real, y: real, markers: seq<IVec>): seq<IVec>
    decreases |markers|
  {
    if markers == [] then []
    else
      var m := markers[|markers| - 1];
      Directions(x, y, markers[..|markers| - 1]) + (if Adjacent(x, y, m) then [Toward(x, y, m)] else [])
  }

  /** A shooter with the given directions appended. */
  function WithDirections(s: Entity, ds: seq<IVec>): Entity
    requires s.kind.Shooter?
  {
    s.(kind := s.kind.(directions := s.kind.directions + ds))
  }

  /** Whether every shooter of the level is still open to new directions. */
  ghost predicate Unprepared(l: Levels.Level)
  {
    forall id :: id in l.shooters && id in l.entities && l.entities[id].kind.Shooter? ==>
      !l.entities[id].kind.rendererPrepared
  }

  /** Appending two runs of directions is appending their concatenation. */
  lemma AppendDirections(s: Entity, a: seq<IVec>, b: seq<IVec>)
    requires s.kind.Shooter?
    ensures WithDirections(WithDirections(s, a), b) == WithDirections(s, a + b)
  {
    assert s.kind.directions + a + b == s.kind.directions + (a + b);
  }

  /** The inner loop for one marker: every shooter next to it gains the direction to it. */
  function AttachMarker(l: Levels.Level, m: IVec): (r: Levels.Level)
    requires Levels.Valid(l) && Unprepared(l)
    ensures Levels.Valid(r) && Unprepared(r)
    ensures r.(entities := l.entities) == l && r.entities.Keys == l.entities.Keys
    ensures forall id :: id in l.entities && id !in l.shooters ==> r.entities[id] == l.entities[id]
    ensures forall id :: id in l.shooters ==>
              r.entities[id] == WithDirections(l.entities[id],
                                  if Adjacent(l.entities[id].x, l.entities[id].y, m)
                                  then [Toward(l.entities[id].x, l.entities[id].y, m)] else [])
  {
    l.(entities := map id | id in l.entities :: Attached(l, m, id))
  }

  /** One entity after the inner loop for marker `m`: a shooter next to it gains the direction to it. */
  function Attached(l: Levels.Level, m: IVec, id: EntityId): (e: Entity)
    requires Levels.Valid(l) && Unprepared(l) && id in l.entities
    ensures id !in l.shooters ==> e == l.entities[id]
    ensures id in l.shooters ==>
              && e.kind.Shooter? && e.alive && !e.kind.rendererPrepared
              && e == WithDirections(l.entities[id],
                        if Adjacent(l.entities[id].x, l.entities[id].y, m)
                        then [Toward(l.entities[id].x, l.entities[id].y, m)] else [])
  {
    var s := l.entities[id];
    if id in l.shooters && Adjacent(s.x, s.y, m) then
      Shooters.AddShootingDirection(s, Toward(s.x, s.y, m).x, Toward(s.x, s.y, m).y).value
    else s
  }

  /** The outer loop over the markers, in the order collected. */
  function AttachAll(l: Levels.Level, markers: seq<IVec>): (r: Levels.Level)
    requires Levels.Valid(l) && Unprepared(l)
    ensures Levels.Valid(r) && Unprepared(r)
    ensures r.(entities := l.entities) == l && r.entities.Keys == l.entities.Keys
    ensures forall id :: id in l.entities && id !in l.shooters ==> r.entities[id] == l.entities[id]
    ensures forall id :: id in l.shooters ==>
              r.entities[id] == WithDirections(l.entities[id],
                                  Directions(l.entities[id].x, l.entities[id].y, markers))
    decreases |markers|
  {
    if markers == [] then
      assert forall id :: id in l.shooters ==> WithDirections(l.entities[id], []) == l.entities[id];
      l
    else
      var prefix := markers[..|markers| - 1];
      var m := markers[|markers| - 1];
      var prev := AttachAll(l, prefix);
      var r := AttachMarker(prev, m);
      assert forall id :: id in l.shooters ==>
               r.entities[id] == WithDirections(l.entities[id], Directions(l.entities[id].x, l.entities[id].y, markers)) by {
        forall id | id in l.shooters
          ensures r.entities[id] == WithDirections(l.entities[id], Directions(l.entities[id].x, l.entities[id].y, markers))
        {
          var e := l.entities[id];
          AppendDirections(e, Directions(e.x, e.y, prefix), if Adjacent(e.x, e.y, m) then [Toward(e.x, e.y, m)] else []);
        }
      }
      r
  }

  /**
   * Level::GenerateLevel on the cells of a scan. The first entities are the
   * wall and shooter cells in scan order, each shooter carrying the directions
   * of its adjacent markers; the last is the one player, at (2, 5), with a
   * fresh controller.
   */
  function GenerateFrom(cells: seq<Scanned>): (r: Levels.Level)
    ensures Levels.Valid(r) && !r.gameOver
    ensures r.time == 0.0 && r.diamond.None? && !r.hasDiamond && r.shakers == []
    ensures var solid := Solid(cells);
      && r.nextId == |solid| + 1
      && r.player == Some(|solid|) && r.controller == Some(Controllers.NewController())
      && r.entities[|solid|] == Players.NewPlayer(PlayerStartX, PlayerStartY)
      && (forall id: nat :: id in r.entities <==> id <= |solid|)
      && (forall id: nat :: id in r.shooters <==> id < |solid| && solid[id].shooter)
    ensures var solid := Solid(cells);
      && (forall n :: 0 <= n < |solid| && !solid[n].shooter ==>
            r.entities[n] == Create(solid[n].x as real, solid[n].y as real, 0.0, Wall))
      && (forall n :: 0 <= n < |solid| && solid[n].shooter ==>
            r.entities[n] == WithDirections(Shooters.NewShooter(solid[n].x, solid[n].y, ShooterInterval, ShooterStartClock),
                                            Directions(solid[n].x as real, solid[n].y as real, Markers(cells))))
  {
    var t := PlaceAll(cells);
    var l := AttachAll(t.level, t.markers);
    var r := Levels.CreatePlayer(l, PlayerStartX, PlayerStartY);
    GeneratedShape(cells, t, l, r);
    GeneratedCells(cells, t, l, r);
    r
  }

  /** Level::GenerateLevel on a level image: GenerateFrom on the image's scan. */
  function GenerateLevel(img: Images.Image): (r: Levels.Level)
    requires Images.Valid(img)
    ensures Levels.Valid(r) && !r.gameOver && r.player.Some? && r.controller.Some?
  {
    GenerateFrom(Cells(img))
  }

  /** The level around the cells: fresh state, one entity per solid cell and the player after them. */
  lemma GeneratedShape(cells: seq<Scanned>, t: Layout, l: Levels.Level, r: Levels.Level)
    requires t == PlaceAll(cells) && Unprepared(t.level)
    requires l == AttachAll(t.level, t.markers)
    requires r == Levels.CreatePlayer(l, PlayerStartX, PlayerStartY)
    ensures Levels.Valid(r) && !r.gameOver
    ensures r.time == 0.0 && r.diamond.None? && !r.hasDiamond && r.shakers == []
    ensures var solid := Solid(cells);
      && r.nextId == |solid| + 1
      && r.player == Some(|solid|) && r.controller == Some(Controllers.NewController())
      && r.entities[|solid|] == Players.NewPlayer(PlayerStartX, PlayerStartY)
      && (forall id: nat :: id in r.entities <==> id <= |solid|)
      && (forall id: nat :: id in r.shooters <==> id < |solid| && solid[id].shooter)
  {
    var solid := Solid(cells);
    assert r.entities.Keys == t.level.entities.Keys + {|solid|};
    forall id: nat
      ensures id in r.entities <==> id <= |solid|
    {
      assert id in t.level.entities <==> id < |solid|;
    }
  }

  /** The cells of the scan keep their entities through the marker loop and the player's creation. */
  lemma GeneratedCells(cells: seq<Scanned>, t: Layout, l: Levels.Level, r: Levels.Level)
    requires t == PlaceAll(cells) && Unprepared(t.level)
    requires l == AttachAll(t.level, t.markers)
    requires r == Levels.CreatePlayer(l, PlayerStartX, PlayerStartY)
    ensures var solid := Solid(cells);
      && (forall n :: 0 <= n < |solid| && !solid[n].shooter ==>
            r.entities[n] == Create(solid[n].x as real, solid[n].y as real, 0.0, Wall))
      && (forall n :: 0 <= n < |solid| && solid[n].shooter ==>
            r.entities[n] == WithDirections(Shooters.NewShooter(solid[n].x, solid[n].y, ShooterInterval, ShooterStartClock),
                                            Directions(solid[n].x as real, solid[n].y as real, Markers(cells))))
  {
    var solid := Solid(cells);
    forall n | 0 <= n < |solid|
      ensures !solid[n].shooter ==> r.entities[n] == Create(solid[n].x as real, solid[n].y as real, 0.0, Wall)
      ensures solid[n].shooter ==>
                r.entities[n] == WithDirections(Shooters.NewShooter(solid[n].x, solid[n].y, ShooterInterval, ShooterStartClock),
                                                Directions(solid[n].x as real, solid[n].y as real, Markers(cells)))
    {
      assert t.level.entities[n] == EntityFor(solid[n]);
      assert r.entities[n] == l.entities[n];
      if solid[n].shooter {
        assert n in t.level.shooters;
      } else {
        assert n !in t.level.shooters;
      }
    }
  }

  // ---------------------------------------------------------------- properties of the layout

  /** The cell kind a placed entity comes from. */
  function SourceCell(p: Placed): Cell
  {
    if p.shooter then ShooterCell else WallCell
  }

  /** A placed entity is exactly a wall or shooter cell of the scan. */
  lemma {:induction false} SolidMembers(cells: seq<Scanned>, p: Placed)
    ensures p in Solid(cells) <==> exists k :: 0 <= k < |cells| && cells[k] == Scanned(SourceCell(p), p.x, p.y)
    decreases |cells|
  {
    if cells != [] {
      var prefix := cells[..|cells| - 1];
      SolidMembers(prefix, p);
      assert forall k :: 0 <= k < |prefix| ==> prefix[k] == cells[k];
      if p in Solid(prefix) {
        var k :| 0 <= k < |prefix| && prefix[k] == Scanned(SourceCell(p), p.x, p.y);
        assert cells[k] == Scanned(SourceCell(p), p.x, p.y);
      }
    }
  }

  /** A collected marker is exactly a marker cell of the scan. */
  lemma {:induction false} MarkerMembers(cells: seq<Scanned>, m: IVec)
    ensures m in Markers(cells) <==>
              exists k :: 0 <= k < |cells| && cells[k].cell == MarkerCell && cells[k].x == m.x && cells[k].y == m.y
    decreases |cells|
  {
    if cells != [] {
      var prefix := cells[..|cells| - 1];
      MarkerMembers(prefix, m);
      assert forall k :: 0 <= k < |prefix| ==> prefix[k] == cells[k];
      if m in Markers(prefix) {
        var k :| 0 <= k < |prefix| && prefix[k].cell == MarkerCell && prefix[k].x == m.x && prefix[k].y == m.y;
        assert cells[k] == prefix[k];
      }
    }
  }

  /** The scan entry for a position is the one at x * height + y. */
  lemma ScanPosition(img: Images.Image, k: nat, x: nat, y: nat)
    requires Images.Valid(img) && k < img.width * img.height
    requires CellAt(img, k).x == x && CellAt(img, k).y == y
    ensures k == x * img.height + y
  {
    var h := img.height;
    assert k == h * (k / h) + k % h;
  }

  /**
   * The generated walls and shooters are the image's cells of those colours:
   * a wall (a shooter) is created for (x, y) exactly when that pixel is opaque
   * black (opaque pure red), and a marker is collected exactly for opaque pure
   * blue pixels. Every other pixel contributes nothing.
   */
  lemma GeneratedFromPixels(img: Images.Image, x: nat, y: nat)
    requires Images.Valid(img) && x < img.width && y < img.height
    ensures var p := Images.At(img, x, y);
      && (Placed(false, x, y) in Solid(Cells(img)) <==>
            p.alpha != 0 && p.red == 0 && p.green == 0 && p.blue == 0)
      && (Placed(true, x, y) in Solid(Cells(img)) <==>
            p.alpha != 0 && p.red == 0xFF && p.green == 0 && p.blue == 0)
      && (IVec(x, y) in Markers(Cells(img)) <==>
            p.alpha != 0 && p.red == 0 && p.green == 0 && p.blue == 0xFF)
  {
    var cells := Cells(img);
    var c := Classify(Images.RGBA(Images.At(img, x, y)));
    ClassifyPixel(Images.At(img, x, y));
    OnlyVisit(img, x, y);
    SolidMembers(cells, Placed(false, x, y));
    SolidMembers(cells, Placed(true, x, y));
    MarkerMembers(cells, IVec(x, y));
    assert Placed(false, x, y) in Solid(cells) <==> c == WallCell;
    assert Placed(true, x, y) in Solid(cells) <==> c == ShooterCell;
    assert IVec(x, y) in Markers(cells) <==> c == MarkerCell;
  }

  /** The scan has exactly one entry for (x, y), and it holds that pixel's class. */
  lemma OnlyVisit(img: Images.Image, x: nat, y: nat)
    requires Images.Valid(img) && x < img.width && y < img.height
    ensures forall k :: 0 <= k < |Cells(img)| && Cells(img)[k].x == x && Cells(img)[k].y == y ==>
              Cells(img)[k].cell == Classify(Images.RGBA(Images.At(img, x, y)))
    ensures exists k :: 0 <= k < |Cells(img)| && Cells(img)[k] == Scanned(Classify(Images.RGBA(Images.At(img, x, y))), x, y)
  {
    var cells := Cells(img);
    ScanVisitsEachCell(img, x, y);
    var here := x * img.height + y;
    forall k | 0 <= k < |cells| && cells[k].x == x && cells[k].y == y
      ensures k == here
    {
      ScanPosition(img, k, x, y);
    }
  }

  /** Grid positions and marker offsets are whole numbers, so truncation is exact. */
  lemma TruncWhole(a: int, b: int)
    ensures Trunc(a as real - b as real) == a - b
  {
    assert a as real - b as real == (a - b) as real;
  }

  /** The four unit steps a shooter can be given. */
  predicate Cardinal(d: IVec)
  {
    d == IVec(1, 0) || d == IVec(-1, 0) || d == IVec(0, 1) || d == IVec(0, -1)
  }

  /**
   * For a shooter on grid cell (x, y), a direction is given for exactly the
   * markers at Manhattan distance 1 (never a diagonal), and each is the unit
   * step from the shooter to its marker.
   */
  lemma DirectionsAreSteps(x: int, y: int, markers: seq<IVec>)
    ensures forall d :: d in Directions(x as real, y as real, markers) ==>
              Cardinal(d) && IVec(x + d.x, y + d.y) in markers
    ensures forall m :: m in markers && Abs(m.x - x) + Abs(m.y - y) == 1 ==>
              IVec(m.x - x, m.y - y) in Directions(x as real, y as real, markers)
  {
    DirectionsSound(x, y, markers);
    DirectionsComplete(x, y, markers);
  }

  /** Every direction given is a unit step to one of the markers. */
  lemma {:induction false} DirectionsSound(x: int, y: int, markers: seq<IVec>)
    ensures forall d :: d in Directions(x as real, y as real, markers) ==>
              Cardinal(d) && IVec(x + d.x, y + d.y) in markers
    decreases |markers|
  {
    if markers != [] {
      var prefix := markers[..|markers| - 1];
      var m := markers[|markers| - 1];
      DirectionsSound(x, y, prefix);
      AdjacentWhole(x, y, m);
      assert markers == prefix + [m];
      var ds := Directions(x as real, y as real, prefix);
      var step := if Adjacent(x as real, y as real, m) then [Toward(x as real, y as real, m)] else [];
      assert Directions(x as real, y as real, markers) == ds + step;
      forall d | d in ds + step
        ensures Cardinal(d) && IVec(x + d.x, y + d.y) in markers
      {
        if d in ds {
          assert IVec(x + d.x, y + d.y) in prefix;
        } else {
          assert d == IVec(m.x - x, m.y - y);
          assert IVec(x + d.x, y + d.y) == m;
        }
      }
    }
  }

  /** Every marker at Manhattan distance 1 gives its unit step. */
  lemma {:induction false} DirectionsComplete(x: int, y: int, markers: seq<IVec>)
    ensures forall m :: m in markers && Abs(m.x - x) + Abs(m.y - y) == 1 ==>
              IVec(m.x - x, m.y - y) in Directions(x as real, y as real, markers)
    decreases |markers|
  {
    if markers != [] {
      var prefix := markers[..|markers| - 1];
      var last := markers[|markers| - 1];
      DirectionsComplete(x, y, prefix);
      AdjacentWhole(x, y, last);
      assert markers == prefix + [last];
      var ds := Directions(x as real, y as real, prefix);
      var step := if Adjacent(x as real, y as real, last) then [Toward(x as real, y as real, last)] else [];
      assert Directions(x as real, y as real, markers) == ds + step;
      forall m | m in markers && Abs(m.x - x) + Abs(m.y - y) == 1
        ensures IVec(m.x - x, m.y - y) in ds + step
      {
        if m in prefix {
          assert IVec(m.x - x, m.y - y) in ds;
        } else {
          assert m == last;
          assert step == [IVec(m.x - x, m.y - y)];
        }
      }
    }
  }

  /** On whole coordinates the adjacency test is Manhattan distance 1 and the direction is the exact step. */
  lemma AdjacentWhole(x: int, y: int, m: IVec)
    ensures Toward(x as real, y as real, m) == IVec(m.x - x, m.y - y)
    ensures Adjacent(x as real, y as real, m) <==> Abs(m.x - x) + Abs(m.y - y) == 1
    ensures Adjacent(x as real, y as real, m) ==> Cardinal(Toward(x as real, y as real, m))
  {
    TruncWhole(x, m.x);
    TruncWhole(y, m.y);
    TruncWhole(m.x, x);
    TruncWhole(m.y, y);
  }

  /** No element of the sequence appears twice. */
  predicate Distinct<T(==)>(s: seq<T>)
  {
    forall i, j :: 0 <= i < j < |s| ==> s[i] != s[j]
  }

  /** Distinct markers give distinct directions. */
  lemma {:induction false} DirectionsDistinct(x: int, y: int, markers: seq<IVec>)
    requires Distinct(markers)
    ensures Distinct(Directions(x as real, y as real, markers))
    decreases |markers|
  {
    if markers != [] {
      var prefix := markers[..|markers| - 1];
      var m := markers[|markers| - 1];
      assert Distinct(prefix);
      DirectionsDistinct(x, y, prefix);
      DirectionsAreSteps(x, y, prefix);
      var ds := Directions(x as real, y as real, prefix);
      if Adjacent(x as real, y as real, m) {
        TruncWhole(m.x, x);
        TruncWhole(m.y, y);
        var d := Toward(x as real, y as real, m);
        assert d == IVec(m.x - x, m.y - y);
        assert m !in prefix by {
          forall i | 0 <= i < |prefix| ensures prefix[i] != m {
            assert prefix[i] == markers[i];
          }
        }
        forall e | e in ds ensures e != d {
          assert IVec(x + e.x, y + e.y) in prefix;
        }
      }
    }
  }

  /** A sequence of distinct cardinal steps has at most four elements. */
  lemma AtMostFourSteps(ds: seq<IVec>)
    requires Distinct(ds) && forall d :: d in ds ==> Cardinal(d)
    ensures |ds| <= 4
  {
    var all := {IVec(1, 0), IVec(-1, 0), IVec(0, 1), IVec(0, -1)};
    var elems := set d | d in ds;
    assert elems <= all;
    DistinctCardinality(ds);
    assert |all| == 4;
    SubsetCardinality(elems, all);
  }

  lemma SubsetCardinality<T>(a: set<T>, b: set<T>)
    requires a <= b
    ensures |a| <= |b|
  {
    assert b == a + (b - a);
  }

  lemma {:induction false} DistinctCardinality<T>(s: seq<T>)
    requires Distinct(s)
    ensures |set x | x in s| == |s|
    decreases |s|
  {
    if s != [] {
      var rest := s[1..];
      assert Distinct(rest);
      DistinctCardinality(rest);
      assert (set x | x in s) == (set x | x in rest) + {s[0]};
      assert s[0] !in rest;
    }
  }

  /** The collected markers are distinct, since the scan visits every cell once. */
  lemma MarkersDistinct(img: Images.Image)
    requires Images.Valid(img)
    ensures Distinct(Markers(Cells(img)))
  {
    var cells := Cells(img);
    forall k1, k2 | 0 <= k1 < k2 < |cells|
      ensures cells[k1].x != cells[k2].x || cells[k1].y != cells[k2].y
    {
      ScanVisitsOnce(img, k1, k2);
    }
    MarkersOfDistinctCells(cells);
  }

  lemma {:induction false} MarkersOfDistinctCells(cells: seq<Scanned>)
    requires forall k1, k2 :: 0 <= k1 < k2 < |cells| ==> cells[k1].x != cells[k2].x || cells[k1].y != cells[k2].y
    ensures Distinct(Markers(cells))
    decreases |cells|
  {
    if cells != [] {
      var prefix := cells[..|cells| - 1];
      var c := cells[|cells| - 1];
      MarkersOfDistinctCells(prefix);
      MarkerMembers(prefix, IVec(c.x, c.y));
      forall k | 0 <= k < |prefix| ensures prefix[k].x != c.x || prefix[k].y != c.y {
        assert prefix[k] == cells[k];
      }
    }
  }

  /** The directions a shooter on a whole cell gains from distinct markers. */
  lemma StepsToMarkers(x: int, y: int, markers: seq<IVec>)
    requires Distinct(markers)
    ensures var ds := Directions(x as real, y as real, markers);
      && |ds| <= 4 && Distinct(ds)
      && (forall d :: d in ds ==> Cardinal(d) && IVec(x + d.x, y + d.y) in markers)
      && (forall m :: m in markers && Abs(m.x - x) + Abs(m.y - y) == 1 ==> IVec(m.x - x, m.y - y) in ds)
  {
    DirectionsDistinct(x, y, markers);
    DirectionsAreSteps(x, y, markers);
    AtMostFourSteps(Directions(x as real, y as real, markers));
  }

  /** The shooter directions of a generated level, for a scan whose markers are distinct. */
  lemma ShooterSteps(cells: seq<Scanned>, n: nat, x: int, y: int)
    requires Distinct(Markers(cells)) && n in GenerateFrom(cells).shooters
    requires GenerateFrom(cells).entities[n].x == x as real && GenerateFrom(cells).entities[n].y == y as real
    ensures var s := GenerateFrom(cells).entities[n];
      && s.kind.Shooter? && |s.kind.directions| <= 4 && Distinct(s.kind.directions)
      && (forall d :: d in s.kind.directions ==> Cardinal(d) && IVec(x + d.x, y + d.y) in Markers(cells))
      && (forall m :: m in Markers(cells) && Abs(m.x - x) + Abs(m.y - y) == 1 ==>
            IVec(m.x - x, m.y - y) in s.kind.directions)
  {
    var s := GeneratedShooter(cells, n);
    assert s.kind.directions == Directions(x as real, y as real, Markers(cells));
    StepsToMarkers(x, y, Markers(cells));
  }

  /** A generated shooter is the shooter of its cell with the directions of the markers around it. */
  lemma GeneratedShooter(cells: seq<Scanned>, n: nat) returns (s: Entity)
    requires n in GenerateFrom(cells).shooters
    ensures s == GenerateFrom(cells).entities[n]
    ensures s.kind.Shooter?
    ensures s.kind.directions == Directions(s.x.Floor as real, s.y.Floor as real, Markers(cells))
  {
    var r := GenerateFrom(cells);
    var solid := Solid(cells);
    assert n < |solid| && solid[n].shooter;
    var p := solid[n];
    s := r.entities[n];
    assert s == WithDirections(Shooters.NewShooter(p.x, p.y, ShooterInterval, ShooterStartClock),
                               Directions(p.x as real, p.y as real, Markers(cells)));
    assert s.x.Floor == p.x && s.y.Floor == p.y;
  }

  /**
   * Every generated shooter has at most four shooting directions, all unit
   * cardinal steps, one per adjacent marker; a marker between two shooters
   * serves both.
   */
  lemma GeneratedShooterDirections(img: Images.Image, n: nat, x: int, y: int)
    requires Images.Valid(img)
    requires n in GenerateLevel(img).shooters
    requires GenerateLevel(img).entities[n].x == x as real && GenerateLevel(img).entities[n].y == y as real
    ensures var s := GenerateLevel(img).entities[n];
      && s.kind.Shooter? && |s.kind.directions| <= 4 && Distinct(s.kind.directions)
      && (forall d :: d in s.kind.directions ==> Cardinal(d) && IVec(x + d.x, y + d.y) in Markers(Cells(img)))
      && (forall m :: m in Markers(Cells(img)) && Abs(m.x - x) + Abs(m.y - y) == 1 ==>
            IVec(m.x - x, m.y - y) in s.kind.directions)
  {
    MarkersDistinct(img);
    ShooterSteps(Cells(img), n, x, y);
  }
}
