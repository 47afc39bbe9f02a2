/** AirToTrain/Notebooks/new_data.py: trip labelling that also tags each trip's start
    and end reading with the zone it lies in (airport or train station), drops the
    readings of no trip, carries the trip counter from one input file to the next, and
    names the input files `part-m-00000`, `part-m-00001`, ... */
module NewData {

  import opened Tables
  import opened Records
  import opened Zones
  import opened Decimal
  import opened Trajectories

  /** The six zone columns the script adds. */
  datatype ZoneFlags = ZoneFlags(relevantStart: bool, relevantEnd: bool,
                                 airportStart: bool, airportEnd: bool,
                                 trainStart: bool, trainEnd: bool)

  /** A reading with its trip label and its zone columns. */
  datatype ZoneRow = ZoneRow(reading: Reading, trip: Label, zones: ZoneFlags)

  const NoZone := ZoneFlags(false, false, false, false, false, false)

  /** The flags of a trip's end reading: relevant when near the airport or the train
      station, the airport taking precedence. */
  function EndFlags(x: Reading): ZoneFlags
  {
    if NearAirport(x.lat, x.long) || NearTrainStation(x.lat, x.long) then
      if NearAirport(x.lat, x.long) then ZoneFlags(false, true, false, true, false, false)
      else ZoneFlags(false, true, false, false, false, true)
    else NoZone
  }

  /** The flags of a trip's start reading, by the same rule. */
  function StartFlags(x: Reading): ZoneFlags
  {
    if NearAirport(x.lat, x.long) || NearTrainStation(x.lat, x.long) then
      if NearAirport(x.lat, x.long) then ZoneFlags(true, false, true, false, false, false)
      else ZoneFlags(true, false, false, false, true, false)
    else NoZone
  }

  /** The zone flags of a labelled reading: the end branch of the loop sets end flags,
      the start branch start flags, the other branches none. */
  function ZoneFlagsFor(trip: Label, x: Reading): ZoneFlags
  {
    if trip.end then EndFlags(x) else if trip.start then StartFlags(x) else NoZone
  }

  function WithZones(x: RouteRow): ZoneRow
  {
    ZoneRow(x.reading, x.trip, ZoneFlagsFor(x.trip, x.reading))
  }

  /** The zone columns added to labelled rows. */
  function Zoned(s: seq<RouteRow>): (r: seq<ZoneRow>)
    ensures |r| == |s|
  {
    seq(|s|, k requires 0 <= k < |s| => WithZones(s[k]))
  }

  lemma ZonedConcat(a: seq<RouteRow>, b: seq<RouteRow>)
    ensures Zoned(a + b) == Zoned(a) + Zoned(b)
  {
  }

  /** The mask `taxi_df.route_number != -1`. */
  function OnRoute(): ZoneRow -> bool
  {
    (z: ZoneRow) => z.trip.route != EmptyRoute
  }

  /** The loop body for one reading: the next state, and the entries it adds to the
      label lists and to the zone lists. */
  method ZoneStep(passengerGotIn: bool, trajectoryNumber: int, row: Reading)
    returns (onBoard: bool, nextNumber: int, routeNumber: int, routeStart: bool, routeEnd: bool, zones: ZoneFlags)
    ensures Tracker(onBoard, nextNumber) == StepTracker(Tracker(passengerGotIn, trajectoryNumber), Occupied(row))
    ensures Label(routeNumber, routeStart, routeEnd) ==
            StepLabel(Tracker(passengerGotIn, trajectoryNumber), Occupied(row))
    ensures zones == ZoneFlagsFor(Label(routeNumber, routeStart, routeEnd), row)
  {
    var passengerInTaxi := Occupied(row);
    onBoard, nextNumber := passengerGotIn, trajectoryNumber;
    var relevantStart, relevantEnd, airportStart, airportEnd, trainStart, trainEnd :=
      false, false, false, false, false, false;
    if passengerGotIn {
      if passengerInTaxi {
        // trip still going
        routeNumber, routeStart, routeEnd := trajectoryNumber, false, false;
      } else {
        // trip ended: is its end point relevant?
        onBoard := false;
        routeNumber, routeStart, routeEnd := trajectoryNumber, false, true;
        nextNumber := trajectoryNumber + 1;
        if NearAirport(row.lat, row.long) || NearTrainStation(row.lat, row.long) {
          relevantEnd := true;
          if NearAirport(row.lat, row.long) {
            airportEnd, trainEnd := true, false;
          } else {
            airportEnd, trainEnd := false, true;
          }
        }
      }
    } else if passengerInTaxi {
      // someone just got in: is the start point relevant?
      onBoard := true;
      routeNumber, routeStart, routeEnd := trajectoryNumber, true, false;
      if NearAirport(row.lat, row.long) || NearTrainStation(row.lat, row.long) {
        relevantStart := true;
        if NearAirport(row.lat, row.long) {
          airportStart, trainStart := true, false;
        } else {
          trainStart, airportStart := true, false;
        }
      }
    } else {
      routeNumber, routeStart, routeEnd := EmptyRoute, false, false;
    }
    zones := ZoneFlags(relevantStart, relevantEnd, airportStart, airportEnd, trainStart, trainEnd);
  }

  /** One taxi's loop: it fills the label lists and the zone lists in step, one entry
      each per reading whatever the branch (the column assignments would fail
      otherwise), then keeps the rows of a trip. The six zone lists are kept as one list
      of `ZoneFlags` records. The labels are those of the shared state machine. */
  method LabelTaxiZones(rows: seq<Reading>, counter: int) returns (kept: seq<ZoneRow>, next: int)
    ensures kept == Filter(Zoned(LabelRows(counter, rows)), OnRoute())
    ensures next == TrackerAfter(counter, rows).counter
  {
    var passengerGotIn := false;
    var trajectoryNumber := counter;
    var routeNumbers: seq<int> := [];
    var routeStarts: seq<bool> := [];
    var routeEnds: seq<bool> := [];
    var zoneColumns: seq<ZoneFlags> := [];
    var i := 0;
    while i < |rows|
      invariant 0 <= i <= |rows|
      invariant |routeNumbers| == i && |routeStarts| == i && |routeEnds| == i && |zoneColumns| == i
      invariant Tracker(passengerGotIn, trajectoryNumber) == TrackerAfter(counter, rows[..i])
      invariant forall k :: 0 <= k < i ==>
                  LabelRows(counter, rows[..i])[k] ==
                  RouteRow(rows[k], Label(routeNumbers[k], routeStarts[k], routeEnds[k]))
      invariant forall k :: 0 <= k < i ==>
                  zoneColumns[k] == ZoneFlagsFor(Label(routeNumbers[k], routeStarts[k], routeEnds[k]), rows[k])
    {
      ghost var before := Tracker(passengerGotIn, trajectoryNumber);
      var passengerInTaxi := Occupied(rows[i]);
      var routeNumber, routeStart, routeEnd, zones;
      passengerGotIn, trajectoryNumber, routeNumber, routeStart, routeEnd, zones :=
        ZoneStep(passengerGotIn, trajectoryNumber, rows[i]);
      routeNumbers, routeStarts, routeEnds := routeNumbers + [routeNumber], routeStarts + [routeStart], routeEnds + [routeEnd];
      zoneColumns := zoneColumns + [zones];
      LabelRowsStep(counter, rows, i);
      i := i + 1;
    }
    assert rows[..i] == rows;
    var taxiDf := seq(|rows|, k requires 0 <= k < |rows| =>
                    ZoneRow(rows[k], Label(routeNumbers[k], routeStarts[k], routeEnds[k]), zoneColumns[k]));
    ghost var labels := LabelRows(counter, rows);
    forall k | 0 <= k < |rows| ensures taxiDf[k] == Zoned(labels)[k] {
      assert labels[k] == RouteRow(rows[k], Label(routeNumbers[k], routeStarts[k], routeEnds[k]));
    }
    assert taxiDf == Zoned(labels);
    kept := Filter(taxiDf, OnRoute());
    next := trajectoryNumber;
  }

  /** The rows `label_trajectories` returns for the listed taxis: the shared labelling
      with each taxi's readings sorted by time, zone columns added, trip-less rows
      dropped. */
  function ZoneTable(df: seq<Reading>, ids: seq<int>, counter: int): seq<ZoneRow>
  {
    Filter(Zoned(LabelTaxis(df, ids, true, counter).rows), OnRoute())
  }

  method LabelZoneTable(df: seq<Reading>, ids: seq<int>, counter: int) returns (out: seq<ZoneRow>, next: int)
    ensures out == ZoneTable(df, ids, counter)
    ensures next == LabelTaxis(df, ids, true, counter).next
  {
    out, next := [], counter;
    var k := 0;
    while k < |ids|
      invariant 0 <= k <= |ids|
      invariant out == ZoneTable(df, ids[..k], counter)
      invariant next == LabelTaxis(df, ids[..k], true, counter).next
    {
      var taxiDf := TaxiRows(df, ids[k], true);
      var kept, c := LabelTaxiZones(taxiDf, next);
      LabelTaxisStep(df, ids, true, counter, k);
      ghost var done := LabelTaxis(df, ids[..k], true, counter);
      ZonedConcat(done.rows, LabelRows(done.next, taxiDf));
      FilterConcat(Zoned(done.rows), Zoned(LabelRows(done.next, taxiDf)), OnRoute());
      out, next := out + kept, c;
      k := k + 1;
    }
    assert ids[..k] == ids;
  }

  /** `label_trajectories(df, trajectory_number)`: every taxi of the table, numbering
      from the number passed in, returning the rows and the next unused number. */
  method LabelTrajectoriesWithZones(df: seq<Reading>, trajectoryNumber: int)
    returns (r: Result<seq<ZoneRow>>, next: int)
    ensures r.Ok? <==> df != []
    ensures df == [] ==> r == Err(EmptyConcat)
    ensures df != [] ==> r == Ok(ZoneTable(df, Unique(TaxiIds(df)), trajectoryNumber))
    ensures next == LabelTaxis(df, Unique(TaxiIds(df)), true, trajectoryNumber).next
  {
    var ids := Unique(TaxiIds(df));
    var out;
    out, next := LabelZoneTable(df, ids, trajectoryNumber);
    if df == [] {
      // no taxi ids, no frames to concatenate
      return Err(EmptyConcat), next;
    }
    r := Ok(out);
  }

  // ---------------------------------------------------------------------------
  // What the zone columns mean
  // ---------------------------------------------------------------------------

  /** The zone columns of a row agree with its trip label and its position: start
      flags only on a start row, end flags only on an end row; on such a row the
      relevant flag holds iff the reading is near the airport or the train station, the
      airport and train flags exclude each other and their disjunction is the relevant
      flag; no row has a start flag and an end flag. */
  predicate ZonesConsistent(z: ZoneRow)
  {
    var nearA := NearAirport(z.reading.lat, z.reading.long);
    var nearT := NearTrainStation(z.reading.lat, z.reading.long);
    var f := z.zones;
    (f.relevantStart <==> z.trip.start && (nearA || nearT)) &&
    (f.airportStart <==> z.trip.start && nearA) &&
    (f.trainStart <==> z.trip.start && !nearA && nearT) &&
    (f.relevantEnd <==> z.trip.end && (nearA || nearT)) &&
    (f.airportEnd <==> z.trip.end && nearA) &&
    (f.trainEnd <==> z.trip.end && !nearA && nearT) &&
    !(f.airportStart && f.trainStart) && !(f.airportEnd && f.trainEnd) &&
    (f.airportStart || f.trainStart) == f.relevantStart &&
    (f.airportEnd || f.trainEnd) == f.relevantEnd &&
    !((f.relevantStart || f.airportStart || f.trainStart) && (f.relevantEnd || f.airportEnd || f.trainEnd))
  }

  /** Every row the labelling returns has consistent zone columns, is part of a trip,
      and carries a route number from the counter passed in up to the next unused
      one; an end row's number is below the next unused one. */
  lemma ZoneTableRows(df: seq<Reading>, ids: seq<int>, counter: int, z: ZoneRow)
    requires 0 <= counter && z in ZoneTable(df, ids, counter)
    ensures ZonesConsistent(z)
    ensures z.trip.route != EmptyRoute
    ensures counter <= z.trip.route <= LabelTaxis(df, ids, true, counter).next
    ensures z.trip.end ==> z.trip.route < LabelTaxis(df, ids, true, counter).next
  {
    var out := LabelTaxis(df, ids, true, counter);
    LabelTaxisRoutes(df, ids, true, counter);
    var zs := Zoned(out.rows);
    var k :| 0 <= k < |zs| && zs[k] == z;
    assert z == WithZones(out.rows[k]);
  }

  /** The two row selections of `find_trajectories_at_airport_or_bus`. */
  function AirToTrainRows(df: seq<ZoneRow>): seq<ZoneRow>
  {
    Filter(df, (z: ZoneRow) => z.zones.airportStart && z.zones.trainEnd)
  }

  function TrainToAirRows(df: seq<ZoneRow>): seq<ZoneRow>
  {
    Filter(df, (z: ZoneRow) => z.zones.trainStart && z.zones.airportEnd)
  }

  /** No row carries a start-zone flag and an end-zone flag at once, so on the rows the
      labelling returns both selections are empty. */
  lemma ZoneSelectionsEmpty(df: seq<Reading>, ids: seq<int>, counter: int)
    requires 0 <= counter
    ensures AirToTrainRows(ZoneTable(df, ids, counter)) == []
    ensures TrainToAirRows(ZoneTable(df, ids, counter)) == []
  {
    var t := ZoneTable(df, ids, counter);
    forall i | 0 <= i < |t|
      ensures !(t[i].zones.airportStart && t[i].zones.trainEnd)
      ensures !(t[i].zones.trainStart && t[i].zones.airportEnd)
    {
      ZoneTableRows(df, ids, counter, t[i]);
    }
    FilterNone(t, (z: ZoneRow) => z.zones.airportStart && z.zones.trainEnd);
    FilterNone(t, (z: ZoneRow) => z.zones.trainStart && z.zones.airportEnd);
  }

  // ---------------------------------------------------------------------------
  // Several input files, one counter
  // ---------------------------------------------------------------------------

  /** `'0000' + str(i)` below ten, `'000' + str(i)` from ten on. */
  function FileNumber(i: nat): string
  {
    if i < 10 then "0000" + NatToString(i) else "000" + NatToString(i)
  }

  /** For the numbers below 100 the script is written for, the file number is the
      five-digit zero-padded decimal of `i`. */
  lemma FileNumberPadded(i: nat)
    requires i < 100
    ensures |FileNumber(i)| == 5 && AllDigits(FileNumber(i))
    ensures DigitsValue(FileNumber(i)) == i
  {
    var s := NatToString(i);
    NatToStringRoundTrip(i);
    if i >= 10 {
      assert NatToString(i / 10) == [DigitChar(i / 10)];
    }
    var pad := if i < 10 then "0000" else "000";
    ZerosValue(pad);
    DigitsValueConcat(pad, s);
  }

  /** The tables of the files labelled so far, or the error that stopped the loop, and
      the counter handed to the next file. */
  datatype FilesLabelled = FilesLabelled(tables: Result<seq<seq<ZoneRow>>>, next: int)

  /** What `load_all_data_from`'s loop computes: each file labelled with the counter
      the previous file returned; an empty file stops the loop with the concatenation
      error. */
  function LabelFiles(files: seq<seq<Reading>>, counter: int): FilesLabelled
    decreases |files|
  {
    if files == [] then FilesLabelled(Ok([]), counter)
    else
      var done := LabelFiles(files[..|files| - 1], counter);
      var df := files[|files| - 1];
      if done.tables.Err? then done
      else if df == [] then FilesLabelled(Err(EmptyConcat), done.next)
      else
        FilesLabelled(Ok(done.tables.value + [ZoneTable(df, Unique(TaxiIds(df)), done.next)]),
                      LabelTaxis(df, Unique(TaxiIds(df)), true, done.next).next)
  }

  lemma LabelFilesStep(files: seq<seq<Reading>>, counter: int, i: nat)
    requires i < |files|
    ensures var done := LabelFiles(files[..i], counter);
            var df := files[i];
            LabelFiles(files[..i + 1], counter) ==
              if done.tables.Err? then done
              else if df == [] then FilesLabelled(Err(EmptyConcat), done.next)
              else
                FilesLabelled(Ok(done.tables.value + [ZoneTable(df, Unique(TaxiIds(df)), done.next)]),
                              LabelTaxis(df, Unique(TaxiIds(df)), true, done.next).next)
  {
    var pre := files[..i + 1];
    assert pre[..|pre| - 1] == files[..i] && pre[|pre| - 1] == files[i];
  }

  /** Once the loop has stopped on an error, later files change nothing. */
  lemma {:induction false} LabelFilesStops(files: seq<seq<Reading>>, counter: int, n: nat)
    requires n <= |files| && LabelFiles(files[..n], counter).tables.Err?
    ensures LabelFiles(files, counter) == LabelFiles(files[..n], counter)
    decreases |files|
  {
    if n < |files| {
      var init := files[..|files| - 1];
      assert files[..n] == init[..n];
      LabelFilesStops(init, counter, n);
    } else {
      assert files[..n] == files;
    }
  }

  /** `files[i]` holds the readings of the file named `part-m-` followed by `FileNumber(i)`. */
  method LoadAllDataFrom(files: seq<seq<Reading>>) returns (r: Result<seq<seq<ZoneRow>>>, next: int)
    ensures FilesLabelled(r, next) == LabelFiles(files, 1)
  {
    var trajectoryNumber := 1;
    var relevantDfs: seq<seq<ZoneRow>> := [];
    var i := 0;
    while i < |files|
      invariant 0 <= i <= |files|
      invariant FilesLabelled(Ok(relevantDfs), trajectoryNumber) == LabelFiles(files[..i], 1)
    {
      LabelFilesStep(files, 1, i);
      var df, newTrajectoryNumber := LabelTrajectoriesWithZones(files[i], trajectoryNumber);
      if df.Err? {
        LabelFilesStops(files, 1, i + 1);
        return Err(df.error), trajectoryNumber;
      }
      relevantDfs := relevantDfs + [df.value];
      trajectoryNumber := newTrajectoryNumber;
      i := i + 1;
    }
    assert files[..i] == files;
    r, next := Ok(relevantDfs), trajectoryNumber;
  }

  /** Every row of the tables has a route number from `lo` on. */
  predicate RoutesFrom(tables: seq<seq<ZoneRow>>, lo: int)
  {
    forall i, z :: 0 <= i < |tables| && z in tables[i] ==> lo <= z.trip.route
  }

  /** Every finished trip in the tables has a number below `hi`. */
  predicate EndsBelow(tables: seq<seq<ZoneRow>>, hi: int)
  {
    forall i, z :: 0 <= i < |tables| && z in tables[i] && z.trip.end ==> z.trip.route < hi
  }

  /** No finished trip of one table shares its number with a row of a later table. */
  predicate NoReuse(tables: seq<seq<ZoneRow>>)
  {
    forall i, j, x, y :: 0 <= i < j < |tables| && x in tables[i] && y in tables[j] && x.trip.end ==>
      x.trip.route != y.trip.route
  }

  /** Labelling files in turn never lowers the counter, and a trip finished in one
      file never shares its number with any row of a later file: numbers repeat across
      files only through a trip left open at the end of a taxi's readings. */
  lemma {:induction false} FinishedTripsNotReused(files: seq<seq<Reading>>, counter: int)
    requires 0 <= counter
    ensures var out := LabelFiles(files, counter);
            counter <= out.next &&
            (out.tables.Ok? ==>
               RoutesFrom(out.tables.value, counter) && EndsBelow(out.tables.value, out.next) &&
               NoReuse(out.tables.value))
    decreases |files|
  {
    if files != [] {
      var n := |files| - 1;
      LabelFilesStep(files, counter, n);
      assert files[..n + 1] == files;
      var init := files[..n];
      FinishedTripsNotReused(init, counter);
      var done := LabelFiles(init, counter);
      var df := files[n];
      if done.tables.Ok? && df != [] {
        var ids := Unique(TaxiIds(df));
        ZoneTableBounds(df, ids, done.next);
        AppendTable(done.tables.value, ZoneTable(df, ids, done.next), counter, done.next,
                    LabelTaxis(df, ids, true, done.next).next);
      }
    }
  }

  /** The rows of one file's table are numbered from the counter passed in up to the
      next unused number, finished trips strictly below it. */
  lemma ZoneTableBounds(df: seq<Reading>, ids: seq<int>, counter: int)
    requires 0 <= counter
    ensures var next := LabelTaxis(df, ids, true, counter).next;
            counter <= next &&
            forall z :: z in ZoneTable(df, ids, counter) ==>
              counter <= z.trip.route <= next && (z.trip.end ==> z.trip.route < next)
  {
    LabelTaxisNextGrows(df, ids, counter);
    forall z | z in ZoneTable(df, ids, counter)
      ensures var next := LabelTaxis(df, ids, true, counter).next;
              counter <= z.trip.route <= next && (z.trip.end ==> z.trip.route < next)
    {
      ZoneTableRows(df, ids, counter, z);
    }
  }

  /** Appending a table numbered from `lo`, the counter after all earlier tables, keeps
      the three properties. */
  lemma AppendTable(tables: seq<seq<ZoneRow>>, t: seq<ZoneRow>, counter: int, lo: int, next: int)
    requires counter <= lo <= next
    requires RoutesFrom(tables, counter) && EndsBelow(tables, lo) && NoReuse(tables)
    requires forall z :: z in t ==> lo <= z.trip.route <= next && (z.trip.end ==> z.trip.route < next)
    ensures RoutesFrom(tables + [t], counter) && EndsBelow(tables + [t], next) && NoReuse(tables + [t])
  {
    var ts := tables + [t];
    var n := |tables|;
    forall i, z: ZoneRow | 0 <= i < |ts| && z in ts[i] ensures counter <= z.trip.route {
      if i < n {
        assert ts[i] == tables[i];
      }
    }
    forall i, z: ZoneRow | 0 <= i < |ts| && z in ts[i] && z.trip.end ensures z.trip.route < next {
      if i < n {
        assert ts[i] == tables[i];
      }
    }
    forall i, j, x: ZoneRow, y: ZoneRow | 0 <= i < j < |ts| && x in ts[i] && y in ts[j] && x.trip.end
      ensures x.trip.route != y.trip.route
    {
      assert ts[i] == tables[i];
      if j < n {
        assert ts[j] == tables[j];
      }
    }
  }

  lemma LabelTaxisNextGrows(df: seq<Reading>, ids: seq<int>, counter: int)
    requires 0 <= counter
    ensures counter <= LabelTaxis(df, ids, true, counter).next
  {
    LabelTaxisRoutes(df, ids, true, counter);
  }
}
