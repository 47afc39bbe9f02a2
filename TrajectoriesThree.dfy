/** AirToTrain/Python-Scripts/find_relevant_trajectories_three.py: the same trip
    labelling, applied to the first ten taxis without sorting their readings, and the
    selection of trips between the airport and the bus station in either direction. */
module TrajectoriesThree {

  import opened Tables
  import opened Records
  import opened Zones
  import opened Trajectories

  /** This script's `label_trajectories`: the first ten distinct taxi ids, each taxi's
      readings in the order the table holds them, trips numbered from 1; an empty table
      leaves nothing to concatenate. */
  method LabelTrajectoriesUnsorted(df: seq<Reading>) returns (r: Result<seq<RouteRow>>)
    ensures df == [] ==> r == Err(EmptyConcat)
    ensures df != [] ==> r == Ok(LabelTaxis(df, FirstTaxis(df), false, 1).rows)
  {
    var ids := FirstTaxis(df);
    if ids == [] {
      return Err(EmptyConcat);
    }
    var out, _ := LabelTable(df, ids, false, 1);
    r := Ok(out);
  }

  /** The readings of the listed taxis, taxi by taxi, each in table order. */
  function TaxiGroups(df: seq<Reading>, ids: seq<int>): seq<Reading>
    decreases |ids|
  {
    if ids == [] then [] else TaxiGroups(df, ids[..|ids| - 1]) + Filter(df, IsTaxi(ids[|ids| - 1]))
  }

  /** Without the sort, the labelled table is the table's own readings grouped by taxi:
      within each taxi the readings keep their input order. */
  lemma {:induction false} UnsortedKeepsTableOrder(df: seq<Reading>, ids: seq<int>, counter: int)
    ensures Readings(LabelTaxis(df, ids, false, counter).rows) == TaxiGroups(df, ids)
    decreases |ids|
  {
    if ids != [] {
      var init := ids[..|ids| - 1];
      var done := LabelTaxis(df, init, false, counter);
      var rows := TaxiRows(df, ids[|ids| - 1], false);
      UnsortedKeepsTableOrder(df, init, counter);
      ReadingsConcat(done.rows, LabelRows(done.next, rows));
      LabelRowsReadings(done.next, rows);
    }
  }

  /** The test of this script's `find_trajectories_at_airport_or_bus`: airport to bus
      station, or bus station to airport. */
  predicate AirportBusEitherWay(start: Reading, end: Reading)
  {
    if NearAirport(start.lat, start.long) && NearBusStation(end.lat, end.long) then true
    else NearBusStation(start.lat, start.long) && NearAirport(end.lat, end.long)
  }

  method FindTrajectoriesAtAirportOrBus(df: seq<RouteRow>) returns (r: Result<seq<int>>)
    ensures r == ClassifyRoutes(df, Unique(RouteNumbers(df)), AirportBusEitherWay)
  {
    r := SelectRoutes(df, AirportBusEitherWay);
  }

  /** Route `r` is returned iff it is not -1 and its first start row and first end row
      are at the airport and the bus station, one of each, in either order. */
  lemma AirportOrBusSelection(df: seq<RouteRow>, r: int)
    requires ClassifyRoutes(df, Unique(RouteNumbers(df)), AirportBusEitherWay).Ok?
    ensures var rs := ClassifyRoutes(df, Unique(RouteNumbers(df)), AirportBusEitherWay).value;
            r in rs <==>
              r in RouteNumbers(df) && r != EmptyRoute && StartRow(df, r).Some? && EndRow(df, r).Some? &&
              var st := StartRow(df, r).value.reading;
              var en := EndRow(df, r).value.reading;
              (NearAirport(st.lat, st.long) && NearBusStation(en.lat, en.long)) ||
              (NearBusStation(st.lat, st.long) && NearAirport(en.lat, en.long))
  {
    SelectRoutesContents(df, AirportBusEitherWay);
    var q := Qualifying(df, AirportBusEitherWay);
    if StartRow(df, r).Some? && EndRow(df, r).Some? {
      var st := StartRow(df, r).value.reading;
      var en := EndRow(df, r).value.reading;
      assert q(r) <==> r != EmptyRoute && AirportBusEitherWay(st, en);
    }
  }

  /** Because the airport and bus station boxes are disjoint, a returned route always
      starts in one zone and ends in the other: never both ends in the same zone. */
  lemma NoSameZoneRoute(df: seq<RouteRow>, r: int)
    requires ClassifyRoutes(df, Unique(RouteNumbers(df)), AirportBusEitherWay).Ok?
    requires r in ClassifyRoutes(df, Unique(RouteNumbers(df)), AirportBusEitherWay).value
    ensures StartRow(df, r).Some? && EndRow(df, r).Some?
    ensures var st := StartRow(df, r).value.reading;
            var en := EndRow(df, r).value.reading;
            NearAirport(st.lat, st.long) != NearAirport(en.lat, en.long) &&
            NearBusStation(st.lat, st.long) != NearBusStation(en.lat, en.long)
  {
    AirportOrBusSelection(df, r);
    var st := StartRow(df, r).value.reading;
    var en := EndRow(df, r).value.reading;
    ZonesDisjoint(st.lat, st.long);
    ZonesDisjoint(en.lat, en.long);
  }
}
