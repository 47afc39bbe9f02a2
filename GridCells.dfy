/** Python-Scripts/map_gps_to_cells.py: binning points into square cells of a grid
    whose south-west corner is (22.0, 113) and whose cell side is a twentieth of a
    degree of latitude, labelled "row-column". Arithmetic is exact: the model reads
    the floor division of the script as the floor of the exact quotient. */
module GridCells {

  import opened Tables
  import opened Records
  import opened Decimal

  const MaxLat: real := 23.0
  const MinLat: real := 22.0
  const MinLong: real := 113.0
  const MaxLong: real := 115.0

  /** The same side is used for rows and for columns. */
  const CellSize: real := (MaxLat - MinLat) / 20.0

  /** The cell number of a point: its label `"row-col"`, or the integer -1 the script
      returns for a point south or west of the grid. */
  datatype CellId = CellName(name: string) | NoCell

  /** The triple `map_gps_to_box` returns. */
  datatype GridCell = GridCell(cell: CellId, row: int, column: int)

  function RowNumber(latitude: real): int
  {
    ((latitude - MinLat) / CellSize).Floor
  }

  function ColumnNumber(longitude: real): int
  {
    ((longitude - MinLong) / CellSize).Floor
  }

  /** `concat(row, col)`. */
  function Concat(row: int, col: int): string
  {
    IntToString(row) + "-" + IntToString(col)
  }

  /** `map_gps_to_box`: (-1, -1, -1) when either number is negative, the label and
      the two numbers otherwise. */
  function MapGpsToBox(latitude: real, longitude: real): (c: GridCell)
    ensures c.cell.NoCell? <==> RowNumber(latitude) < 0 || ColumnNumber(longitude) < 0
    ensures c.cell.NoCell? ==> c.row == -1 && c.column == -1
    ensures c.cell.CellName? ==> c.row == RowNumber(latitude) >= 0 && c.column == ColumnNumber(longitude) >= 0
  {
    var rowNumber := RowNumber(latitude);
    var colNumber := ColumnNumber(longitude);
    if colNumber < 0 || rowNumber < 0 then GridCell(NoCell, -1, -1)
    else GridCell(CellName(Concat(rowNumber, colNumber)), rowNumber, colNumber)
  }

  /** A point is outside the grid exactly when it lies south of its southern edge or
      west of its western edge. */
  lemma OutsideGrid(latitude: real, longitude: real)
    ensures MapGpsToBox(latitude, longitude).cell.NoCell? <==> latitude < MinLat || longitude < MinLong
  {
    NegativeQuotient(latitude - MinLat);
    NegativeQuotient(longitude - MinLong);
  }

  lemma NegativeQuotient(d: real)
    ensures (d / CellSize).Floor < 0 <==> d < 0.0
  {
    assert CellSize == 0.05;
  }

  /** A cell is the half-open square it names: its row and column bound the point from
      below and the next row and column from above. */
  lemma CellContainsPoint(latitude: real, longitude: real)
    requires MapGpsToBox(latitude, longitude).cell.CellName?
    ensures var c := MapGpsToBox(latitude, longitude);
            MinLat + CellSize * c.row as real <= latitude < MinLat + CellSize * (c.row + 1) as real &&
            MinLong + CellSize * c.column as real <= longitude < MinLong + CellSize * (c.column + 1) as real
  {
    FloorBounds(latitude - MinLat);
    FloorBounds(longitude - MinLong);
  }

  lemma FloorBounds(d: real)
    ensures CellSize * (d / CellSize).Floor as real <= d < CellSize * ((d / CellSize).Floor + 1) as real
  {
    var q := d / CellSize;
    assert CellSize == 0.05;
    assert d == CellSize * q;
    assert q.Floor as real <= q < q.Floor as real + 1.0;
  }

  /** Nothing bounds the grid from the north: every point at or north of the northern
      edge, and not west of the grid, gets a cell in row 20 or above, although the grid
      is meant to have rows 0 to 19. */
  lemma NoNorthernBound(latitude: real, longitude: real)
    requires latitude >= MaxLat && longitude >= MinLong
    ensures MapGpsToBox(latitude, longitude).cell.CellName?
    ensures MapGpsToBox(latitude, longitude).row >= 20
  {
    assert CellSize == 0.05;
    assert (latitude - MinLat) / CellSize >= 20.0;
    assert (longitude - MinLong) / CellSize >= 0.0;
  }

  /** Nor from the east: every point at or east of the eastern edge, and not south of
      the grid, gets a cell in column 40 or above. */
  lemma NoEasternBound(latitude: real, longitude: real)
    requires latitude >= MinLat && longitude >= MaxLong
    ensures MapGpsToBox(latitude, longitude).cell.CellName?
    ensures MapGpsToBox(latitude, longitude).column >= 40
  {
    assert CellSize == 0.05;
    assert (latitude - MinLat) / CellSize >= 0.0;
    assert (longitude - MinLong) / CellSize >= 40.0;
  }

  /** Different cells have different labels: the label determines the row and the
      column. */
  lemma LabelsDistinct(lat1: real, long1: real, lat2: real, long2: real)
    requires MapGpsToBox(lat1, long1).cell.CellName?
    requires MapGpsToBox(lat1, long1).cell == MapGpsToBox(lat2, long2).cell
    ensures MapGpsToBox(lat1, long1) == MapGpsToBox(lat2, long2)
  {
    var c1 := MapGpsToBox(lat1, long1);
    var c2 := MapGpsToBox(lat2, long2);
    SplitAtDash(NatToString(c1.row), NatToString(c1.column), NatToString(c2.row), NatToString(c2.column));
    NatToStringInjective(c1.row, c2.row);
    NatToStringInjective(c1.column, c2.column);
  }

  /** Two digit strings joined by a dash can be split back apart. */
  lemma SplitAtDash(a: string, b: string, a': string, b': string)
    requires AllDigits(a) && AllDigits(a')
    requires a + "-" + b == a' + "-" + b'
    ensures a == a' && b == b'
  {
    var s := a + "-" + b;
    FirstDash(a, b);
    FirstDash(a', b');
    assert |a| == IndexOf(s, '-') == |a'|;
    assert a == s[..|a|] == a';
    assert b == s[|a| + 1..] == b';
  }

  /** The first dash after a string of digits is the one that follows it. */
  lemma FirstDash(a: string, b: string)
    requires AllDigits(a)
    ensures '-' in a + "-" + b && IndexOf(a + "-" + b, '-') == |a|
  {
    var s := a + "-" + b;
    assert s[|a|] == '-';
    forall j | 0 <= j < |a| ensures s[j] != '-' {
      assert s[j] == a[j] && IsDigit(a[j]);
    }
    IndexOfUnique(s, '-', |a|);
  }

  /** A table row with the three columns `map_gps_to_cell` adds. */
  datatype CelledRow = CelledRow(row: RouteRow, cell: CellId, rowNumber: int, column: int)

  /** `map_gps_to_cell`: one cell, row and column per table row, in table order, each
      the result of `map_gps_to_box` on that row's position. */
  method MapGpsToCell(df: seq<RouteRow>) returns (r: seq<CelledRow>)
    ensures |r| == |df|
    ensures forall i :: 0 <= i < |df| ==>
              r[i].row == df[i] &&
              GridCell(r[i].cell, r[i].rowNumber, r[i].column) == MapGpsToBox(df[i].reading.lat, df[i].reading.long)
  {
    var cells: seq<CellId> := [];
    var rows: seq<int> := [];
    var cols: seq<int> := [];
    var k := 0;
    while k < |df|
      invariant 0 <= k <= |df|
      invariant |cells| == |rows| == |cols| == k
      invariant forall i :: 0 <= i < k ==>
                  GridCell(cells[i], rows[i], cols[i]) == MapGpsToBox(df[i].reading.lat, df[i].reading.long)
    {
      var lat := df[k].reading.lat;
      var long := df[k].reading.long;
      var c := MapGpsToBox(lat, long);
      cells := cells + [c.cell];
      cols := cols + [c.column];
      rows := rows + [c.row];
      k := k + 1;
    }
    r := seq(|df|, i requires 0 <= i < |df| => CelledRow(df[i], cells[i], rows[i], cols[i]));
  }
}
