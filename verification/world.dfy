/** The world layout _generateEnvironment (FPEngine.cpp) builds from the
    matrix read_csv returns: a building wherever the matrix holds 1, a
    collectable point wherever it holds 0, three units apart. */
module World {
  import opened Geometry
  import opened Collision

  const WALL_CODE: int := 1
  const POINT_CODE: int := 0
  /** Distance between neighbouring cells of the grid. */
  const CELL_SPACING: real := 3.0
  /** Radius of the collision circle registered for a building. */
  const WALL_RADIUS: real := 2.1

  /** PointsData without its render matrix and colour. */
  datatype Point = Point(position: Vec2, toBeDeleted: bool)

  /** A cell of the matrix: row i, column j. */
  datatype Cell = Cell(i: nat, j: nat)

  /** The loops run i over the length of the first row and j over the
      number of rows, and index the matrix as [i][j]; every access is in
      bounds exactly when this holds (a square matrix, for instance). */
  predicate ScanInBounds(m: seq<seq<int>>)
  {
    |m| > 0 && |m[0]| <= |m| && forall i :: 0 <= i < |m[0]| ==> |m| <= |m[i]|
  }

  /** c comes before d in the i-outer, j-inner scan. */
  predicate Before(c: Cell, d: Cell) { c.i < d.i || (c.i == d.i && c.j < d.j) }

  predicate InScanOrder(cs: seq<Cell>)
  {
    forall k, l :: 0 <= k < l < |cs| ==> Before(cs[k], cs[l])
  }

  /** Cells (i, 0) .. (i, n - 1) holding `code`, in order. */
  function RowCells(m: seq<seq<int>>, i: nat, n: nat, code: int): (cs: seq<Cell>)
    requires i < |m| && n <= |m[i]|
    ensures forall c :: c in cs <==> c.i == i && c.j < n && m[i][c.j] == code
    ensures InScanOrder(cs)
  {
    if n == 0 then []
    else RowCells(m, i, n - 1, code) + (if m[i][n - 1] == code then [Cell(i, n - 1)] else [])
  }

  /** Cells [i][j] holding `code` with i below xCells and j below zCells, the
      bounds of _generateEnvironment's outer and inner loops, in scan order. */
  function GridCells(m: seq<seq<int>>, xCells: nat, zCells: nat, code: int): (cs: seq<Cell>)
    requires xCells <= |m| && forall r :: 0 <= r < xCells ==> zCells <= |m[r]|
    ensures forall c :: c in cs <==> c.i < xCells && c.j < zCells && m[c.i][c.j] == code
    ensures InScanOrder(cs)
  {
    if xCells == 0 then []
    else
      var front := GridCells(m, xCells - 1, zCells, code);
      var last := RowCells(m, xCells - 1, zCells, code);
      assert forall k, l :: 0 <= k < |front| && 0 <= l < |last| ==> Before(front[k], last[l]) by {
        forall k, l | 0 <= k < |front| && 0 <= l < |last| ensures Before(front[k], last[l]) {
          assert front[k] in front && last[l] in last;
        }
      }
      front + last
  }

  /** The collision circle registered for a building at cell c. */
  function WallAt(c: Cell): CollisionObject
  {
    CollisionObject(Vec3(CELL_SPACING * c.i as real, 0.0, CELL_SPACING * c.j as real), WALL_RADIUS, false)
  }

  /** The point placed at cell c, not yet collected. */
  function PointAt(c: Cell): Point
  {
    Point(Vec2(CELL_SPACING * c.i as real, CELL_SPACING * c.j as real), false)
  }

  function Walls(cs: seq<Cell>): (os: seq<CollisionObject>)
    ensures |os| == |cs|
  {
    seq(|cs|, k requires 0 <= k < |cs| => WallAt(cs[k]))
  }

  function PointsAt(cs: seq<Cell>): (ps: seq<Point>)
    ensures |ps| == |cs|
  {
    seq(|cs|, k requires 0 <= k < |cs| => PointAt(cs[k]))
  }

  /** The scan up to row i + 1 is the scan up to row i followed by row i. */
  lemma LayoutNextRow(m: seq<seq<int>>, i: nat)
    requires ScanInBounds(m) && i < Columns(m)
    ensures Walls(GridCells(m, i + 1, |m|, WALL_CODE))
         == Walls(GridCells(m, i, |m|, WALL_CODE)) + Walls(RowCells(m, i, |m|, WALL_CODE))
    ensures PointsAt(GridCells(m, i + 1, |m|, POINT_CODE))
         == PointsAt(GridCells(m, i, |m|, POINT_CODE)) + PointsAt(RowCells(m, i, |m|, POINT_CODE))
  {
    assert GridCells(m, i + 1, |m|, WALL_CODE) == GridCells(m, i, |m|, WALL_CODE) + RowCells(m, i, |m|, WALL_CODE);
    assert GridCells(m, i + 1, |m|, POINT_CODE) == GridCells(m, i, |m|, POINT_CODE) + RowCells(m, i, |m|, POINT_CODE);
    WallsConcat(GridCells(m, i, |m|, WALL_CODE), RowCells(m, i, |m|, WALL_CODE));
    PointsConcat(GridCells(m, i, |m|, POINT_CODE), RowCells(m, i, |m|, POINT_CODE));
  }

  /** The same, after whatever was registered before the scan. */
  lemma LayoutNextRowAfter(objects: seq<CollisionObject>, points: seq<Point>, m: seq<seq<int>>, i: nat)
    requires ScanInBounds(m) && i < Columns(m)
    ensures objects + Walls(GridCells(m, i, |m|, WALL_CODE)) + Walls(RowCells(m, i, |m|, WALL_CODE))
         == objects + Walls(GridCells(m, i + 1, |m|, WALL_CODE))
    ensures points + PointsAt(GridCells(m, i, |m|, POINT_CODE)) + PointsAt(RowCells(m, i, |m|, POINT_CODE))
         == points + PointsAt(GridCells(m, i + 1, |m|, POINT_CODE))
  {
    LayoutNextRow(m, i);
    var walls, row := Walls(GridCells(m, i, |m|, WALL_CODE)), Walls(RowCells(m, i, |m|, WALL_CODE));
    assert objects + walls + row == objects + (walls + row);
    var pts, prow := PointsAt(GridCells(m, i, |m|, POINT_CODE)), PointsAt(RowCells(m, i, |m|, POINT_CODE));
    assert points + pts + prow == points + (pts + prow);
  }

  /** The buildings of row i, columns 0 .. n - 1, in the order the inner loop registers them.
      The same list as Walls(RowCells(m, i, n, WALL_CODE)) (RowWallsPlaced), grown one
      cell at a time so that PlaceRow's loop invariant can name it. */
  function RowWalls(m: seq<seq<int>>, i: nat, n: nat): seq<CollisionObject>
    requires i < |m| && n <= |m[i]|
  {
    if n == 0 then [] else RowWalls(m, i, n - 1) + (if m[i][n - 1] == WALL_CODE then [WallAt(Cell(i, n - 1))] else [])
  }

  /** The points of row i, columns 0 .. n - 1, in the order the inner loop appends them.
      The same list as PointsAt(RowCells(m, i, n, POINT_CODE)) (RowPointsPlaced), kept for
      PlaceRow's loop invariant. */
  function RowPoints(m: seq<seq<int>>, i: nat, n: nat): seq<Point>
    requires i < |m| && n <= |m[i]|
  {
    if n == 0 then [] else RowPoints(m, i, n - 1) + (if m[i][n - 1] == POINT_CODE then [PointAt(Cell(i, n - 1))] else [])
  }

  /** The inner loop registers exactly the buildings of the row's cells. */
  lemma {:induction false} RowWallsPlaced(m: seq<seq<int>>, i: nat, n: nat)
    requires i < |m| && n <= |m[i]|
    ensures RowWalls(m, i, n) == Walls(RowCells(m, i, n, WALL_CODE))
  {
    if n > 0 {
      RowWallsPlaced(m, i, n - 1);
      WallsConcat(RowCells(m, i, n - 1, WALL_CODE), if m[i][n - 1] == WALL_CODE then [Cell(i, n - 1)] else []);
    }
  }

  /** The inner loop appends exactly the points of the row's cells. */
  lemma {:induction false} RowPointsPlaced(m: seq<seq<int>>, i: nat, n: nat)
    requires i < |m| && n <= |m[i]|
    ensures RowPoints(m, i, n) == PointsAt(RowCells(m, i, n, POINT_CODE))
  {
    if n > 0 {
      RowPointsPlaced(m, i, n - 1);
      PointsConcat(RowCells(m, i, n - 1, POINT_CODE), if m[i][n - 1] == POINT_CODE then [Cell(i, n - 1)] else []);
    }
  }

  lemma WallsConcat(a: seq<Cell>, b: seq<Cell>)
    ensures Walls(a + b) == Walls(a) + Walls(b)
  {
  }

  lemma PointsConcat(a: seq<Cell>, b: seq<Cell>)
    ensures PointsAt(a + b) == PointsAt(a) + PointsAt(b)
  {
  }

  /** Width of the world in cells: the length of the first row. */
  function Columns(m: seq<seq<int>>): nat
    requires |m| > 0
  {
    |m[0]|
  }

  /** The buildings, in the order the loops register them. */
  function Obstacles(m: seq<seq<int>>): (os: seq<CollisionObject>)
    requires ScanInBounds(m)
    ensures forall k :: 0 <= k < |os| ==> os[k].radius == WALL_RADIUS && !os[k].isTree && os[k].position.y == 0.0
  {
    Walls(GridCells(m, Columns(m), |m|, WALL_CODE))
  }

  /** The points, in the order the loops append them. */
  function Pickups(m: seq<seq<int>>): (ps: seq<Point>)
    requires ScanInBounds(m)
    ensures forall k :: 0 <= k < |ps| ==> !ps[k].toBeDeleted
  {
    PointsAt(GridCells(m, Columns(m), |m|, POINT_CODE))
  }

  /** Matrix entry [i][j] is 1 exactly when a building stands at
      (3i, 3j), and every building stands on such a cell. */
  lemma ObstaclesExactly(m: seq<seq<int>>)
    requires ScanInBounds(m)
    ensures forall c: Cell :: c.i < Columns(m) && c.j < |m| ==>
      (WallAt(c) in Obstacles(m) <==> m[c.i][c.j] == WALL_CODE)
    ensures forall o :: o in Obstacles(m) ==>
      exists c: Cell :: c.i < Columns(m) && c.j < |m| && m[c.i][c.j] == WALL_CODE && o == WallAt(c)
  {
    var walls := GridCells(m, Columns(m), |m|, WALL_CODE);
    forall c: Cell | c.i < Columns(m) && c.j < |m| ensures WallAt(c) in Obstacles(m) <==> m[c.i][c.j] == WALL_CODE {
      if m[c.i][c.j] == WALL_CODE {
        var k :| 0 <= k < |walls| && walls[k] == c;
        assert Obstacles(m)[k] == WallAt(c);
      }
      if WallAt(c) in Obstacles(m) {
        var k :| 0 <= k < |walls| && Obstacles(m)[k] == WallAt(c);
        assert walls[k] == c;
      }
    }
    forall o | o in Obstacles(m) ensures exists c: Cell :: c.i < Columns(m) && c.j < |m| && m[c.i][c.j] == WALL_CODE && o == WallAt(c) {
      var k :| 0 <= k < |walls| && Obstacles(m)[k] == o;
      assert walls[k] in walls;
    }
  }

  /** Matrix entry [i][j] is 0 exactly when a point lies at (3i, 3j), and
      every point lies on such a cell. */
  lemma PickupsExactly(m: seq<seq<int>>)
    requires ScanInBounds(m)
    ensures forall c: Cell :: c.i < Columns(m) && c.j < |m| ==>
      (PointAt(c) in Pickups(m) <==> m[c.i][c.j] == POINT_CODE)
    ensures forall p :: p in Pickups(m) ==>
      exists c: Cell :: c.i < Columns(m) && c.j < |m| && m[c.i][c.j] == POINT_CODE && p == PointAt(c)
  {
    var points := GridCells(m, Columns(m), |m|, POINT_CODE);
    forall c: Cell | c.i < Columns(m) && c.j < |m| ensures PointAt(c) in Pickups(m) <==> m[c.i][c.j] == POINT_CODE {
      if m[c.i][c.j] == POINT_CODE {
        var k :| 0 <= k < |points| && points[k] == c;
        assert Pickups(m)[k] == PointAt(c);
      }
      if PointAt(c) in Pickups(m) {
        var k :| 0 <= k < |points| && Pickups(m)[k] == PointAt(c);
        assert points[k] == c;
      }
    }
    forall p | p in Pickups(m) ensures exists c: Cell :: c.i < Columns(m) && c.j < |m| && m[c.i][c.j] == POINT_CODE && p == PointAt(c) {
      var k :| 0 <= k < |points| && Pickups(m)[k] == p;
      assert points[k] in points;
    }
  }

  /** Buildings and points never share a spot, and everything lies inside
      the square the player is clamped to. */
  lemma WorldInsideBounds(m: seq<seq<int>>)
    requires ScanInBounds(m)
    ensures forall o, p :: o in Obstacles(m) && p in Pickups(m) ==> Footprint(o) != p.position
    ensures forall o :: o in Obstacles(m) ==>
      0.0 <= o.position.x <= CELL_SPACING * Columns(m) as real && 0.0 <= o.position.z <= CELL_SPACING * |m| as real
    ensures forall p :: p in Pickups(m) ==>
      0.0 <= p.position.x <= CELL_SPACING * Columns(m) as real && 0.0 <= p.position.y <= CELL_SPACING * |m| as real
  {
    ObstaclesExactly(m);
    PickupsExactly(m);
  }
}
