/// The outer boundary of the play field (map.rs): a grid of the map's
/// dimensions, centred on the origin, fenced by a ring of wall entities.
module GameMap {
  import opened Geometry
  import opened Components
  import Ecs

  /// The `Map` resource.
  datatype Map = Map(dimensions: IVec2, tileSize: nat)

  /// The map the plugin inserts: 100 x 75 tiles of 16 pixels.
  const DefaultMap := Map(IVec2(100, 75), 16)

  /// `i32` division by 2, which truncates toward zero.
  function Half(n: int): (r: int)
    ensures n >= 0 ==> 0 <= n - 2 * r <= 1
    ensures n < 0 ==> -1 <= n - 2 * r <= 0
  {
    if n >= 0 then n / 2 else -((-n) / 2)
  }

  /// `Map::half_extent`: both dimensions halved, toward zero.
  function HalfExtent(m: Map): IVec2 {
    IVec2(Half(m.dimensions.x), Half(m.dimensions.y))
  }

  /// The default map spans -50..50 by -37..37 tiles; the odd height loses a row.
  lemma DefaultHalfExtent()
    ensures HalfExtent(DefaultMap) == IVec2(50, 37)
  {
  }

  /// `grid_to_world`: sixteen pixels per cell, drawn at depth -1.
  function GridToWorld(p: IVec2): Vec3 {
    Vec3((16 * p.x) as real, (16 * p.y) as real, -1.0)
  }

  /// Distinct cells are drawn at distinct places, all at depth -1.
  lemma GridToWorldInjective(p: IVec2, q: IVec2)
    ensures GridToWorld(p).z == -1.0
    ensures GridToWorld(p) == GridToWorld(q) <==> p == q
  {
  }

  /// One wall entity of the boundary: its cell and its collider.
  datatype WallSpawn = WallSpawn(cell: IVec2, collider: Collider)

  /// The wall top along y = -half.y.
  const TopOfWall := ColliderWithOffset(Vec2(16.0, 12.0), Vec2(0.0, -4.0))
  /// The wall face along y = half.y.
  const WallFace := ColliderWithOffset(Vec2(16.0, 8.0), Vec2(0.0, 4.0))
  /// The side walls along x = -half.x and x = half.x.
  const LeftWall := ColliderWithOffset(Vec2(6.0, 16.0), Vec2(-2.0, 0.0))
  const RightWall := ColliderWithOffset(Vec2(6.0, 16.0), Vec2(2.0, 0.0))

  /// Cells in `lo..=hi`, as the inclusive ranges of the source count them.
  function Span(lo: int, hi: int): nat {
    if lo > hi then 0 else hi - lo + 1
  }

  /// The horizontal walls for columns `lo..=hi`: each column gets a wall top
  /// at row -hy, then a wall face at row hy.
  function Horizontal(lo: int, hi: int, hy: int): seq<WallSpawn>
    decreases Span(lo, hi)
  {
    if lo > hi then []
    else Horizontal(lo, hi - 1, hy) + [WallSpawn(IVec2(hi, -hy), TopOfWall), WallSpawn(IVec2(hi, hy), WallFace)]
  }

  /// The vertical walls for rows `lo..=hi`: each row gets a left wall at
  /// column -hx, then a right wall at column hx.
  function Vertical(lo: int, hi: int, hx: int): seq<WallSpawn>
    decreases Span(lo, hi)
  {
    if lo > hi then []
    else Vertical(lo, hi - 1, hx) + [WallSpawn(IVec2(-hx, hi), LeftWall), WallSpawn(IVec2(hx, hi), RightWall)]
  }

  /// Every boundary wall in spawn order: the horizontal loop, then the vertical one.
  function OuterWalls(m: Map): seq<WallSpawn> {
    var half := HalfExtent(m);
    Horizontal(-half.x, half.x, half.y) + Vertical(-half.y, half.y, half.x)
  }

  /// The two nested loops of `add_outer_walls`, listing the walls they spawn.
  method OuterWallPlacements(m: Map) returns (walls: seq<WallSpawn>)
    ensures walls == OuterWalls(m)
  {
    var half := HalfExtent(m);
    var horizontal := HorizontalPlacements(half);
    var vertical := VerticalPlacements(half);
    walls := horizontal + vertical;
  }

  /// The horizontal-walls loop: for every column, a wall top on the lowest
  /// row and a wall face on the highest.
  method HorizontalPlacements(half: IVec2) returns (walls: seq<WallSpawn>)
    ensures walls == Horizontal(-half.x, half.x, half.y)
  {
    walls := [];
    var x := -half.x;
    while x <= half.x
      invariant -half.x <= x && (x <= half.x + 1 || x == -half.x)
      invariant walls == Horizontal(-half.x, x - 1, half.y)
      decreases half.x - x
    {
      for pass := 0 to 2
        invariant walls == Horizontal(-half.x, x - 1, half.y) +
          [WallSpawn(IVec2(x, -half.y), TopOfWall), WallSpawn(IVec2(x, half.y), WallFace)][..pass]
      {
        var topOfWall := pass == 0;
        var y := if topOfWall then -half.y else half.y;
        walls := walls + [WallSpawn(IVec2(x, y), if topOfWall then TopOfWall else WallFace)];
      }
      x := x + 1;
    }
  }

  /// The vertical-walls loop: for every row, a left wall on the lowest
  /// column and a right wall on the highest.
  method VerticalPlacements(half: IVec2) returns (walls: seq<WallSpawn>)
    ensures walls == Vertical(-half.y, half.y, half.x)
  {
    walls := [];
    var y := -half.y;
    while y <= half.y
      invariant -half.y <= y && (y <= half.y + 1 || y == -half.y)
      invariant walls == Vertical(-half.y, y - 1, half.x)
      decreases half.y - y
    {
      for pass := 0 to 2
        invariant walls == Vertical(-half.y, y - 1, half.x) +
          [WallSpawn(IVec2(-half.x, y), LeftWall), WallSpawn(IVec2(half.x, y), RightWall)][..pass]
      {
        var leftWall := pass == 0;
        var cx := if leftWall then -half.x else half.x;
        walls := walls + [WallSpawn(IVec2(cx, y), if leftWall then LeftWall else RightWall)];
      }
      y := y + 1;
    }
  }

  /// The entity a boundary wall becomes: the map's wall marker, its collider,
  /// and a transform at its cell.
  function WallBundle(s: WallSpawn): Components {
    Bare.(translation := Some(GridToWorld(s.cell)), collider := Some(s.collider), tags := {MapWall})
  }

  function WallBundles(walls: seq<WallSpawn>): (r: seq<Components>)
    ensures |r| == |walls| && forall i :: 0 <= i < |walls| ==> r[i] == WallBundle(walls[i])
  {
    seq(|walls|, i requires 0 <= i < |walls| => WallBundle(walls[i]))
  }

  /// `add_outer_walls`: one new entity per boundary wall, in spawn order.
  method AddOuterWalls(w: Ecs.World, m: Map)
    requires w.Valid()
    modifies w`order, w`entities, w`nextId
    ensures w.Valid()
    ensures w.order == old(w.order) + Ecs.FreshIds(old(w.nextId), |OuterWalls(m)|)
    ensures w.entities == Ecs.WithSpawned(old(w.entities), old(w.nextId), WallBundles(OuterWalls(m)))
  {
    var walls := OuterWallPlacements(m);
    w.SpawnAll(WallBundles(walls));
  }

  lemma {:induction false} HorizontalLength(lo: int, hi: int, hy: int)
    ensures |Horizontal(lo, hi, hy)| == 2 * Span(lo, hi)
    decreases Span(lo, hi)
  {
    if lo <= hi {
      HorizontalLength(lo, hi - 1, hy);
    }
  }

  lemma {:induction false} VerticalLength(lo: int, hi: int, hx: int)
    ensures |Vertical(lo, hi, hx)| == 2 * Span(lo, hi)
    decreases Span(lo, hi)
  {
    if lo <= hi {
      VerticalLength(lo, hi - 1, hx);
    }
  }

  /// There are 2(2hx + 1) + 2(2hy + 1) boundary walls: 352 for the default map.
  lemma OuterWallCount(m: Map)
    ensures var half := HalfExtent(m);
      |OuterWalls(m)| == 2 * Span(-half.x, half.x) + 2 * Span(-half.y, half.y)
    ensures |OuterWalls(DefaultMap)| == 352
  {
    var half := HalfExtent(m);
    HorizontalLength(-half.x, half.x, half.y);
    VerticalLength(-half.y, half.y, half.x);
    HorizontalLength(-50, 50, 37);
    VerticalLength(-37, 37, 50);
  }

  /// The horizontal walls are exactly a wall top on row -hy and a wall face on
  /// row hy for every column of the range.
  lemma {:induction false} HorizontalMembers(lo: int, hi: int, hy: int, s: WallSpawn)
    ensures s in Horizontal(lo, hi, hy) <==>
      lo <= s.cell.x <= hi && ((s.cell.y == -hy && s.collider == TopOfWall) || (s.cell.y == hy && s.collider == WallFace))
    decreases Span(lo, hi)
  {
    if lo <= hi {
      HorizontalMembers(lo, hi - 1, hy, s);
    }
  }

  /// The vertical walls are exactly a left wall on column -hx and a right wall
  /// on column hx for every row of the range.
  lemma {:induction false} VerticalMembers(lo: int, hi: int, hx: int, s: WallSpawn)
    ensures s in Vertical(lo, hi, hx) <==>
      lo <= s.cell.y <= hi && ((s.cell.x == -hx && s.collider == LeftWall) || (s.cell.x == hx && s.collider == RightWall))
    decreases Span(lo, hi)
  {
    if lo <= hi {
      VerticalMembers(lo, hi - 1, hx, s);
    }
  }

  /// How many walls of the list stand on `cell`.
  function CountAt(walls: seq<WallSpawn>, cell: IVec2): nat {
    if walls == [] then 0
    else CountAt(walls[..|walls| - 1], cell) + (if walls[|walls| - 1].cell == cell then 1 else 0)
  }

  lemma {:induction false} CountAtConcat(a: seq<WallSpawn>, b: seq<WallSpawn>, cell: IVec2)
    ensures CountAt(a + b, cell) == CountAt(a, cell) + CountAt(b, cell)
  {
    if b == [] {
      assert a + b == a;
    } else {
      CountAtConcat(a, b[..|b| - 1], cell);
      assert (a + b)[..|a + b| - 1] == a + b[..|b| - 1];
    }
  }

  function OneIf(b: bool): nat { if b then 1 else 0 }

  lemma {:induction false} HorizontalCountAt(lo: int, hi: int, hy: int, cell: IVec2)
    ensures CountAt(Horizontal(lo, hi, hy), cell) ==
      if lo <= cell.x <= hi then OneIf(cell.y == -hy) + OneIf(cell.y == hy) else 0
    decreases Span(lo, hi)
  {
    if lo <= hi {
      var rest := Horizontal(lo, hi - 1, hy);
      var row := [WallSpawn(IVec2(hi, -hy), TopOfWall), WallSpawn(IVec2(hi, hy), WallFace)];
      HorizontalCountAt(lo, hi - 1, hy, cell);
      CountAtConcat(rest, row, cell);
      assert row[..1][..0] == [];
      assert row[..|row| - 1] == row[..1];
      assert CountAt(row[..1], cell) == OneIf(row[0].cell == cell);
      assert CountAt(row, cell) == OneIf(cell == IVec2(hi, -hy)) + OneIf(cell == IVec2(hi, hy));
    }
  }

  lemma {:induction false} VerticalCountAt(lo: int, hi: int, hx: int, cell: IVec2)
    ensures CountAt(Vertical(lo, hi, hx), cell) ==
      if lo <= cell.y <= hi then OneIf(cell.x == -hx) + OneIf(cell.x == hx) else 0
    decreases Span(lo, hi)
  {
    if lo <= hi {
      var rest := Vertical(lo, hi - 1, hx);
      var row := [WallSpawn(IVec2(-hx, hi), LeftWall), WallSpawn(IVec2(hx, hi), RightWall)];
      VerticalCountAt(lo, hi - 1, hx, cell);
      CountAtConcat(rest, row, cell);
      assert row[..1][..0] == [];
      assert row[..|row| - 1] == row[..1];
      assert CountAt(row[..1], cell) == OneIf(row[0].cell == cell);
      assert CountAt(row, cell) == OneIf(cell == IVec2(-hx, hi)) + OneIf(cell == IVec2(hx, hi));
    }
  }

  /// When both half extents are positive, each corner cell gets two walls
  /// (one horizontal, one vertical) and every other boundary cell one.
  lemma CornersGetTwoWalls(m: Map, cell: IVec2)
    requires HalfExtent(m).x > 0 && HalfExtent(m).y > 0
    ensures var half := HalfExtent(m);
      var corner := (cell.x == -half.x || cell.x == half.x) && (cell.y == -half.y || cell.y == half.y);
      var onEdge := (-half.x <= cell.x <= half.x && (cell.y == -half.y || cell.y == half.y)) ||
                    (-half.y <= cell.y <= half.y && (cell.x == -half.x || cell.x == half.x));
      CountAt(OuterWalls(m), cell) == if corner then 2 else if onEdge then 1 else 0
  {
    var half := HalfExtent(m);
    CountAtConcat(Horizontal(-half.x, half.x, half.y), Vertical(-half.y, half.y, half.x), cell);
    HorizontalCountAt(-half.x, half.x, half.y, cell);
    VerticalCountAt(-half.y, half.y, half.x, cell);
  }
}
