/**
 * The spherical-grid part of the rosbag mesh: rows already rasterised to integer (azimuth,
 * elevation) cells with a distance to their cell centre, the per-cell deduplication, the lookup of
 * a cell's point, and the triangulation that joins every cell to its right, upper and upper-right
 * neighbours.
 */
module RosbagMesh {
  import opened Wrappers
  import Seqs

  /** A cell of the spherical raster, `UnitSphericalCellIndex3(azimuth, elevation)`. */
  datatype Cell = Cell(azimuth: int, elevation: int)

  datatype Point3 = Point3(x: real, y: real, z: real)

  /** One row of the rasterised data frame: its cell indices, its cell-centre distance and its
      coordinates. */
  datatype GridRow = GridRow(cell: Cell, cellCenterDistance: real, point: Point3)

  datatype Triangle = Triangle(a: Point3, b: Point3, c: Point3)

  predicate Occupied(rows: seq<GridRow>, c: Cell)
  {
    exists i :: 0 <= i < |rows| && rows[i].cell == c
  }

  // ---------------------------------------------------------------------------------------------
  // remove_cell_duplicates

  /** The cells of `rows`, each once, in order of first appearance. */
  function Cells(rows: seq<GridRow>): (r: seq<Cell>)
    ensures Seqs.NoDuplicates(r)
    ensures forall c :: c in r <==> Occupied(rows, c)
  {
    var cells := Seqs.Map(rows, (p: GridRow) => p.cell);
    var r := Seqs.Distinct(cells);
    assert forall c :: c in r <==> Occupied(rows, c) by {
      forall c ensures c in r <==> Occupied(rows, c) {
        Seqs.DistinctMember(cells, c);
        if Occupied(rows, c) {
          var i :| 0 <= i < |rows| && rows[i].cell == c;
          assert cells[i] == c;
        }
      }
    }
    r
  }

  /** The first row of cell `c` with the least cell-centre distance: the first row of the cell
      once its rows are sorted by distance. */
  function Nearest(rows: seq<GridRow>, c: Cell): (r: Option<GridRow>)
    ensures r.None? <==> !Occupied(rows, c)
    ensures r.Some? ==> r.value in rows && r.value.cell == c
    ensures r.Some? ==> forall q :: q in rows && q.cell == c ==> r.value.cellCenterDistance <= q.cellCenterDistance
  {
    if rows == [] then None
    else
      var rest := Nearest(rows[1..], c);
      assert forall q :: q in rows ==> q == rows[0] || q in rows[1..];
      assert Occupied(rows[1..], c) ==> Occupied(rows, c) by {
        if Occupied(rows[1..], c) {
          var i :| 0 <= i < |rows[1..]| && rows[1..][i].cell == c;
          assert rows[i + 1].cell == c;
        }
      }
      assert Occupied(rows, c) && rows[0].cell != c ==> Occupied(rows[1..], c) by {
        if Occupied(rows, c) && rows[0].cell != c {
          var i :| 0 <= i < |rows| && rows[i].cell == c;
          assert rows[1..][i - 1].cell == c;
        }
      }
      if rows[0].cell != c then rest
      else if rest.Some? && rest.value.cellCenterDistance < rows[0].cellCenterDistance then rest
      else Some(rows[0])
  }

  /**
   * `remove_cell_duplicates`: group the rows by (elevation, azimuth) cell and keep, per cell, the
   * row that comes first when the cell's rows are sorted by cell-centre distance.
   */
  function RemoveCellDuplicates(rows: seq<GridRow>): (r: seq<GridRow>)
    ensures |r| == |Cells(rows)|
    ensures forall k :: 0 <= k < |r| ==> Some(r[k]) == Nearest(rows, Cells(rows)[k])
  {
    var cells := Cells(rows);
    seq(|cells|, k requires 0 <= k < |cells| => Nearest(rows, cells[k]).value)
  }

  /** After deduplication each cell has one row, and the occupied cells are those before. */
  lemma RemoveCellDuplicatesCells(rows: seq<GridRow>)
    ensures var r := RemoveCellDuplicates(rows);
            && (forall i, j :: 0 <= i < j < |r| ==> r[i].cell != r[j].cell)
            && (forall c :: Occupied(r, c) <==> Occupied(rows, c))
  {
    var r := RemoveCellDuplicates(rows);
    var cells := Cells(rows);
    assert forall k :: 0 <= k < |r| ==> r[k].cell == cells[k] by {
      forall k | 0 <= k < |r| ensures r[k].cell == cells[k] {
        assert Some(r[k]) == Nearest(rows, cells[k]);
      }
    }
    forall c ensures Occupied(r, c) <==> Occupied(rows, c) {
      if Occupied(rows, c) {
        var k :| 0 <= k < |cells| && cells[k] == c;
        assert r[k].cell == c;
      }
      if Occupied(r, c) {
        var k :| 0 <= k < |r| && r[k].cell == c;
        assert cells[k] in cells;
      }
    }
  }

  /** The row kept for a cell is one of that cell's rows, and none of them is nearer its centre. */
  lemma RemoveCellDuplicatesNearest(rows: seq<GridRow>, k: nat)
    requires k < |RemoveCellDuplicates(rows)|
    ensures var p := RemoveCellDuplicates(rows)[k];
            && p in rows
            && forall q :: q in rows && q.cell == p.cell ==> p.cellCenterDistance <= q.cellCenterDistance
  {
    assert Some(RemoveCellDuplicates(rows)[k]) == Nearest(rows, Cells(rows)[k]);
  }

  /** A frame with one row per cell is left as it is: deduplicating twice changes nothing more. */
  lemma RemoveCellDuplicatesOnUniqueCells(rows: seq<GridRow>)
    requires forall i, j :: 0 <= i < j < |rows| ==> rows[i].cell != rows[j].cell
    ensures RemoveCellDuplicates(rows) == rows
  {
    var m := Seqs.Map(rows, (p: GridRow) => p.cell);
    Seqs.DistinctOfNoDuplicates(m);
    var r := RemoveCellDuplicates(rows);
    forall k | 0 <= k < |r| ensures r[k] == rows[k] {
      assert Some(r[k]) == Nearest(rows, m[k]);
      var j :| 0 <= j < |rows| && rows[j] == r[k];
    }
  }

  // ---------------------------------------------------------------------------------------------
  // sort by (elevation, azimuth)

  /** The data frame order: elevation first, then azimuth. */
  predicate CellBefore(p: GridRow, q: GridRow)
  {
    p.cell.elevation < q.cell.elevation || (p.cell.elevation == q.cell.elevation && p.cell.azimuth <= q.cell.azimuth)
  }

  predicate SortedByCell(s: seq<GridRow>)
  {
    forall i, j :: 0 <= i < j < |s| ==> CellBefore(s[i], s[j])
  }

  function Insert(p: GridRow, s: seq<GridRow>): (r: seq<GridRow>)
    requires SortedByCell(s)
    ensures SortedByCell(r)
    ensures multiset(r) == multiset(s) + multiset{p}
  {
    if s == [] then [p]
    else if CellBefore(p, s[0]) then [p] + s
    else
      var rest := Insert(p, s[1..]);
      assert s == [s[0]] + s[1..];
      assert forall x :: x in rest ==> CellBefore(s[0], x) by {
        forall x | x in rest ensures CellBefore(s[0], x) {
          assert x in multiset(rest);
          if x != p {
            assert x in multiset(s[1..]);
            var j :| 0 <= j < |s[1..]| && s[1..][j] == x;
            assert s[j + 1] == x;
          }
        }
      }
      [s[0]] + rest
  }

  /** `sort([elevation, azimuth])`: the rows in ascending (elevation, azimuth) order. */
  function SortByCell(s: seq<GridRow>): (r: seq<GridRow>)
    ensures SortedByCell(r)
    ensures multiset(r) == multiset(s)
  {
    if s == [] then []
    else
      assert s == [s[0]] + s[1..];
      Insert(s[0], SortByCell(s[1..]))
  }

  /** Sorting keeps exactly the occupied cells. */
  lemma SortKeepsCells(rows: seq<GridRow>, c: Cell)
    ensures Occupied(SortByCell(rows), c) <==> Occupied(rows, c)
  {
    var s := SortByCell(rows);
    if Occupied(rows, c) {
      var i :| 0 <= i < |rows| && rows[i].cell == c;
      assert rows[i] in multiset(rows);
      assert rows[i] in s;
    }
    if Occupied(s, c) {
      var i :| 0 <= i < |s| && s[i].cell == c;
      assert s[i] in multiset(s);
      assert s[i] in rows;
    }
  }

  // ---------------------------------------------------------------------------------------------
  // get_row_point

  /** `get_row_point`: the point of the first row in cell `c`, or None when no row is in it. */
  function GetRowPoint(c: Cell, rows: seq<GridRow>): (r: Option<Point3>)
    ensures r.None? <==> !Occupied(rows, c)
  {
    if rows == [] then None
    else if rows[0].cell == c then Some(rows[0].point)
    else
      assert Occupied(rows, c) ==> Occupied(rows[1..], c) by {
        if Occupied(rows, c) {
          var i :| 0 <= i < |rows| && rows[i].cell == c;
          assert rows[1..][i - 1].cell == c;
        }
      }
      GetRowPoint(c, rows[1..])
  }

  /** The point found is that of the first row in the cell. */
  lemma {:induction false} GetRowPointFirst(c: Cell, rows: seq<GridRow>)
    requires Occupied(rows, c)
    ensures exists i :: 0 <= i < |rows| && rows[i].cell == c && GetRowPoint(c, rows) == Some(rows[i].point) &&
                        forall j :: 0 <= j < i ==> rows[j].cell != c
  {
    if rows[0].cell != c {
      GetRowPointFirst(c, rows[1..]);
      var i :| 0 <= i < |rows[1..]| && rows[1..][i].cell == c && GetRowPoint(c, rows[1..]) == Some(rows[1..][i].point) &&
               forall j :: 0 <= j < i ==> rows[1..][j].cell != c;
      forall j | 0 <= j < i + 1 ensures rows[j].cell != c {
        if j > 0 {
          assert rows[j] == rows[1..][j - 1];
        }
      }
      assert rows[i + 1].cell == c && GetRowPoint(c, rows) == Some(rows[i + 1].point);
    } else {
      assert GetRowPoint(c, rows) == Some(rows[0].point);
    }
  }

  // ---------------------------------------------------------------------------------------------
  // generate_mesh_from_spherical_point_cloud

  function Right(c: Cell): Cell { Cell(c.azimuth + 1, c.elevation) }
  function Upper(c: Cell): Cell { Cell(c.azimuth, c.elevation + 1) }
  function UpperRight(c: Cell): Cell { Cell(c.azimuth + 1, c.elevation + 1) }

  /** A cell is triangulated when its right, upper and upper-right neighbours are all occupied;
      azimuth does not wrap around. */
  predicate Qualifies(rows: seq<GridRow>, c: Cell)
  {
    Occupied(rows, Right(c)) && Occupied(rows, Upper(c)) && Occupied(rows, UpperRight(c))
  }

  /** The triangles one row of the sorted frame contributes: `[current, upper, right]` and
      `[right, upper, upper_right]`, or none. */
  function CellTriangles(sorted: seq<GridRow>, p: GridRow): seq<Triangle>
  {
    var right := GetRowPoint(Right(p.cell), sorted);
    var upper := GetRowPoint(Upper(p.cell), sorted);
    var upperRight := GetRowPoint(UpperRight(p.cell), sorted);
    if right.Some? && upper.Some? && upperRight.Some? then
      [Triangle(p.point, upper.value, right.value), Triangle(right.value, upper.value, upperRight.value)]
    else []
  }

  /** The triangles of the rows of `sorted` from `rows`, in row order. */
  function TrianglesOf(sorted: seq<GridRow>, rows: seq<GridRow>): seq<Triangle>
  {
    Seqs.FlatMap(rows, (p: GridRow) => CellTriangles(sorted, p))
  }

  /** The mesh of a rasterised frame: every row's triangles, rows in (elevation, azimuth) order. */
  function Mesh(rows: seq<GridRow>): seq<Triangle>
  {
    var sorted := SortByCell(rows);
    TrianglesOf(sorted, sorted)
  }

  /**
   * `generate_mesh_from_spherical_point_cloud`: sort the frame, then for each row in order look up
   * its three neighbours and add two triangles when all three exist.
   */
  method GenerateMesh(rows: seq<GridRow>) returns (mesh: seq<Triangle>)
    ensures mesh == Mesh(rows)
  {
    var sorted := SortByCell(rows);
    mesh := Triangulate(sorted);
  }

  /** The loop of `generate_mesh_from_spherical_point_cloud` over the sorted frame. */
  method Triangulate(sorted: seq<GridRow>) returns (mesh: seq<Triangle>)
    ensures mesh == TrianglesOf(sorted, sorted)
  {
    mesh := [];
    for i := 0 to |sorted|
      invariant mesh == TrianglesOf(sorted, sorted[..i])
    {
      var current := sorted[i];
      var right := GetRowPoint(Right(current.cell), sorted);
      var upper := GetRowPoint(Upper(current.cell), sorted);
      var upperRight := GetRowPoint(UpperRight(current.cell), sorted);
      TrianglesOfSnoc(sorted, sorted[..i], current);
      assert sorted[..i + 1] == sorted[..i] + [current];
      if right.Some? && upper.Some? && upperRight.Some? {
        mesh := mesh + [Triangle(current.point, upper.value, right.value)];
        mesh := mesh + [Triangle(right.value, upper.value, upperRight.value)];
      }
    }
    assert sorted[..|sorted|] == sorted;
  }

  lemma TrianglesOfSnoc(sorted: seq<GridRow>, rows: seq<GridRow>, p: GridRow)
    ensures TrianglesOf(sorted, rows + [p]) == TrianglesOf(sorted, rows) + CellTriangles(sorted, p)
  {
    Seqs.FlatMapSnoc(rows, (q: GridRow) => CellTriangles(sorted, q), p);
  }

  /** A row gives triangles exactly when its cell qualifies, and then exactly two: the current
      point with its upper and right neighbours, and the right, upper and upper-right neighbours,
      each neighbour the first row of its cell. */
  lemma CellTrianglesIff(sorted: seq<GridRow>, p: GridRow)
    ensures CellTriangles(sorted, p) != [] <==> Qualifies(sorted, p.cell)
    ensures Qualifies(sorted, p.cell) ==>
              && |CellTriangles(sorted, p)| == 2
              && CellTriangles(sorted, p)[0] ==
                   Triangle(p.point, GetRowPoint(Upper(p.cell), sorted).value, GetRowPoint(Right(p.cell), sorted).value)
              && CellTriangles(sorted, p)[1] ==
                   Triangle(GetRowPoint(Right(p.cell), sorted).value, GetRowPoint(Upper(p.cell), sorted).value,
                            GetRowPoint(UpperRight(p.cell), sorted).value)
    ensures !Qualifies(sorted, p.cell) ==> CellTriangles(sorted, p) == []
  {
  }

  /** The number of qualifying rows among `rows`. */
  function QualifyingCount(sorted: seq<GridRow>, rows: seq<GridRow>): nat
  {
    if rows == [] then 0
    else (if Qualifies(sorted, rows[0].cell) then 1 else 0) + QualifyingCount(sorted, rows[1..])
  }

  /** Two triangles for every qualifying row, none for the others. */
  lemma {:induction false} TrianglesCount(sorted: seq<GridRow>, rows: seq<GridRow>)
    ensures |TrianglesOf(sorted, rows)| == 2 * QualifyingCount(sorted, rows)
  {
    if rows != [] {
      CellTrianglesIff(sorted, rows[0]);
      TrianglesCount(sorted, rows[1..]);
    }
  }

  /** The mesh has two triangles per qualifying row of the frame, and a row of the frame qualifies
      exactly when its three neighbour cells are occupied in the frame as given. */
  lemma MeshSize(rows: seq<GridRow>)
    ensures |Mesh(rows)| == 2 * QualifyingCount(SortByCell(rows), SortByCell(rows))
    ensures forall c :: Qualifies(SortByCell(rows), c) <==> Qualifies(rows, c)
  {
    var sorted := SortByCell(rows);
    TrianglesCount(sorted, sorted);
    forall c ensures Qualifies(sorted, c) <==> Qualifies(rows, c) {
      SortKeepsCells(rows, Right(c));
      SortKeepsCells(rows, Upper(c));
      SortKeepsCells(rows, UpperRight(c));
    }
  }
}
