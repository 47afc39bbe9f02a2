/** another_one.py: binning trip endings into a grid of fifteen rows over the
    latitudes 22.444014 to 22.858081, the cell side also used for longitude from
    113.749946, and numbering a cell by writing its row and column digits one after
    the other. Arithmetic is exact, as in GridCells. */
module EndingCells {

  import opened Tables
  import opened Records
  import opened Decimal

  const MaxLat: real := 22.858081
  const MinLat: real := 22.444014
  const MinLong: real := 113.749946
  const MaxLong: real := 114.628818

  const CellSize: real := (MaxLat - MinLat) / 15.0

  function RowNumber(latitude: real): int
  {
    ((latitude - MinLat) / CellSize).Floor
  }

  function ColumnNumber(longitude: real): int
  {
    ((longitude - MinLong) / CellSize).Floor
  }

  /** `int(str(row) + str(col))`: the text of the row followed by the text of the
      column, read back as an integer. */
  function CellNumber(row: int, col: int): Result<int>
  {
    var cellNumberStr := IntToString(row) + IntToString(col);
    match ParseInt(cellNumberStr)
    case None => Err(NotAnInteger)
    case Some(n) => Ok(n)
  }

  /** `map_ending_to_box`. */
  function MapEndingToBox(latitude: real, longitude: real): Result<int>
  {
    CellNumber(RowNumber(latitude), ColumnNumber(longitude))
  }

  /** What the digit concatenation computes: the row shifted left by as many decimal
      places as the column has digits, plus the column, with the row's sign; a negative
      column puts a minus sign inside the text, which `int` refuses. */
  lemma CellNumberMeaning(row: int, col: int)
    ensures col < 0 ==> CellNumber(row, col) == Err(NotAnInteger)
    ensures col >= 0 && row >= 0 ==>
              CellNumber(row, col) == Ok(row * Pow10(|NatToString(col)|) + col)
    ensures col >= 0 && row < 0 ==>
              CellNumber(row, col) == Ok(-((-row) * Pow10(|NatToString(col)|) + col))
  {
    if col < 0 {
      var s := IntToString(row) + IntToString(col);
      assert s[|IntToString(row)|] == '-';
      ParseIntRejectsInnerSign(s, |IntToString(row)|);
    } else {
      var n: nat := if row < 0 then -row else row;
      var digits := NatToString(n) + NatToString(col);
      assert IntToString(row) + IntToString(col) == if row < 0 then "-" + digits else digits;
      JoinedDigits(n, col);
      ParseDigits(digits);
    }
  }

  /** The digits of `n` followed by those of `col` denote `n` shifted past `col`. */
  lemma JoinedDigits(n: nat, col: nat)
    ensures AllDigits(NatToString(n) + NatToString(col))
    ensures DigitsValue(NatToString(n) + NatToString(col)) == n * Pow10(|NatToString(col)|) + col
  {
    DigitsValueConcat(NatToString(n), NatToString(col));
    NatToStringRoundTrip(n);
    NatToStringRoundTrip(col);
  }

  /** Row 1, column 12 and row 11, column 2 get the same number, 112: the number does
      not identify the cell. */
  lemma CellNumbersCollide()
    ensures CellNumber(1, 12) == CellNumber(11, 2) == Ok(112)
  {
    CellNumberMeaning(1, 12);
    CellNumberMeaning(11, 2);
    assert NatToString(12) == "12";
    assert NatToString(2) == "2";
  }

  /** The centres of cells (1, 12) and (11, 2) get the same number. */
  lemma EndingsCollide()
    ensures RowNumber(GetLatForRow(1) + CellSize / 2.0) == 1
    ensures ColumnNumber(MinLong + CellSize * 12.5) == 12
    ensures RowNumber(GetLatForRow(11) + CellSize / 2.0) == 11
    ensures ColumnNumber(MinLong + CellSize * 2.5) == 2
    ensures MapEndingToBox(GetLatForRow(1) + CellSize / 2.0, MinLong + CellSize * 12.5) ==
            MapEndingToBox(GetLatForRow(11) + CellSize / 2.0, MinLong + CellSize * 2.5)
  {
    RowOfLatitude(GetLatForRow(1) + CellSize / 2.0, 1);
    RowOfLatitude(GetLatForRow(11) + CellSize / 2.0, 11);
    ColumnOfLongitude(MinLong + CellSize * 12.5, 12);
    ColumnOfLongitude(MinLong + CellSize * 2.5, 2);
    CellNumbersCollide();
  }

  /** A point west of the grid gets a negative column, and its ending raises. */
  lemma WestOfGridFails(latitude: real, longitude: real)
    requires longitude < MinLong
    ensures MapEndingToBox(latitude, longitude) == Err(NotAnInteger)
  {
    assert CellSize > 0.0;
    assert (longitude - MinLong) / CellSize < 0.0;
    CellNumberMeaning(RowNumber(latitude), ColumnNumber(longitude));
  }

  /** `get_lat_for_row`: the southern edge of a row. */
  function GetLatForRow(rowNumber: int): real
  {
    MinLat + CellSize * rowNumber as real
  }

  /** A latitude falls in row `r` exactly when it lies between that row's southern
      edge and the next row's, the southern edge included. */
  lemma RowOfLatitude(latitude: real, r: int)
    ensures RowNumber(latitude) == r <==> GetLatForRow(r) <= latitude < GetLatForRow(r + 1)
  {
    QuotientFloor(latitude - MinLat, r);
  }

  /** A longitude falls in column `c` exactly when it lies between that column's western
      edge and the next column's, the western edge included. */
  lemma ColumnOfLongitude(longitude: real, c: int)
    ensures ColumnNumber(longitude) == c <==>
            MinLong + CellSize * c as real <= longitude < MinLong + CellSize * (c + 1) as real
  {
    QuotientFloor(longitude - MinLong, c);
  }

  lemma QuotientFloor(d: real, r: int)
    ensures (d / CellSize).Floor == r <==> CellSize * r as real <= d < CellSize * (r + 1) as real
  {
    var q := d / CellSize;
    assert CellSize > 0.0;
    assert d == CellSize * q;
    assert q.Floor == r <==> r as real <= q < (r + 1) as real;
    assert r as real <= q <==> CellSize * r as real <= CellSize * q;
    assert q < (r + 1) as real <==> CellSize * q < CellSize * (r + 1) as real;
  }

  /** A trip ending with the `cell` column `map_endings_to_cell` adds. */
  datatype EndingRow = EndingRow(row: RouteRow, cell: int)

  /** `map_endings_to_cell`: the cell number of each ending, in table order; the first
      ending whose number `int` refuses raises and nothing is returned. */
  method MapEndingsToCell(endsDf: seq<RouteRow>) returns (r: Result<seq<EndingRow>>)
    ensures r.Err? <==> exists i :: 0 <= i < |endsDf| && MapEndingToBox(endsDf[i].reading.lat, endsDf[i].reading.long).Err?
    ensures r.Err? ==> r.error == NotAnInteger
    ensures r.Ok? ==> |r.value| == |endsDf|
    ensures r.Ok? ==> forall i :: 0 <= i < |endsDf| ==>
              r.value[i].row == endsDf[i] &&
              Ok(r.value[i].cell) == MapEndingToBox(endsDf[i].reading.lat, endsDf[i].reading.long)
  {
    var cells: seq<int> := [];
    var k := 0;
    while k < |endsDf|
      invariant 0 <= k <= |endsDf| && |cells| == k
      invariant forall i :: 0 <= i < k ==> Ok(cells[i]) == MapEndingToBox(endsDf[i].reading.lat, endsDf[i].reading.long)
    {
      var lat := endsDf[k].reading.lat;
      var long := endsDf[k].reading.long;
      var cellNumber := MapEndingToBox(lat, long);
      if cellNumber.Err? {
        return Err(cellNumber.error);
      }
      cells := cells + [cellNumber.value];
      k := k + 1;
    }
    r := Ok(seq(|endsDf|, i requires 0 <= i < |endsDf| => EndingRow(endsDf[i], cells[i])));
  }
}
