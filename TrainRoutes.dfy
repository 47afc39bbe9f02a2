/** AirToTrain/Python-Scripts/find_train_to_train_routes.py: selecting readings inside
    a latitude/longitude range, matching taxis and routes between frames, keeping routes
    with enough readings or with consistent start and end times, and the fraud filter. */
module TrainRoutes {

  import opened Tables
  import opened Records
  import opened Zones

  // ---------------------------------------------------------------------------
  // Range filters
  // ---------------------------------------------------------------------------

  function LatBetween(minLat: real, maxLat: real): Reading -> bool
  {
    (r: Reading) => r.lat >= minLat && r.lat <= maxLat
  }

  function LongBetween(minLong: real, maxLong: real): Reading -> bool
  {
    (r: Reading) => r.long >= minLong && r.long <= maxLong
  }

  /** The mask `df['occupancy_status'] == 1`. */
  function HasPassenger(): Reading -> bool
  {
    (r: Reading) => r.occupancy == 1
  }

  /** The whole selection of `filter_data_by_gps` as one mask. */
  function InGpsRange(minLat: real, maxLat: real, minLong: real, maxLong: real, withPass: bool): Reading -> bool
  {
    (r: Reading) => InBox(r.lat, r.long, minLat, maxLat, minLong, maxLong) && (withPass ==> r.occupancy == 1)
  }

  /** `filter_data_by_gps`: a latitude mask, then a longitude mask, then (with
      `with_pass`) an occupancy mask. The result is the order-preserving selection of
      the readings inside the closed range, with a passenger when `withPass` holds. */
  function FilterByGps(df: seq<Reading>, minLat: real, maxLat: real, minLong: real, maxLong: real, withPass: bool)
    : (r: seq<Reading>)
    ensures r == Filter(df, InGpsRange(minLat, maxLat, minLong, maxLong, withPass))
    ensures forall x :: x in r <==>
              x in df && minLat <= x.lat <= maxLat && minLong <= x.long <= maxLong &&
              (withPass ==> x.occupancy == 1)
  {
    var nearLat := Filter(df, LatBetween(minLat, maxLat));
    var nearLatAndLong := Filter(nearLat, LongBetween(minLong, maxLong));
    FilterFilter(df, LatBetween(minLat, maxLat), LongBetween(minLong, maxLong));
    FilterFilter(df, And(LatBetween(minLat, maxLat), LongBetween(minLong, maxLong)), HasPassenger());
    SameFilter(df, And(LatBetween(minLat, maxLat), LongBetween(minLong, maxLong)),
               InGpsRange(minLat, maxLat, minLong, maxLong, false));
    SameFilter(df, And(And(LatBetween(minLat, maxLat), LongBetween(minLong, maxLong)), HasPassenger()),
               InGpsRange(minLat, maxLat, minLong, maxLong, true));
    if withPass then Filter(nearLatAndLong, HasPassenger()) else nearLatAndLong
  }

  /** Shenzhen west train station, and the half-widths of the box around it. */
  const WestStationLat: real := 22.5316
  const WestStationLong: real := 113.903
  const LatDiff: real := 0.025
  const LongDiff: real := 0.025

  /** The readings with a passenger near the west train station (lines 50-55). */
  function NearWestTrain(df: seq<Reading>): seq<Reading>
  {
    FilterByGps(df, WestStationLat - LatDiff, WestStationLat + LatDiff,
                WestStationLong - LongDiff, WestStationLong + LongDiff, true)
  }

  function Abs(x: real): real
  {
    if x < 0.0 then -x else x
  }

  /** The west-station box is the station's position plus or minus 0.025 degrees in
      both coordinates. */
  lemma NearWestTrainBox(df: seq<Reading>, x: Reading)
    ensures x in NearWestTrain(df) <==>
            x in df && x.occupancy == 1 &&
            Abs(x.lat - 22.5316) <= 0.025 && Abs(x.long - 113.903) <= 0.025
  {
  }

  /** The readings with a passenger near the north train station (lines 58-66). */
  function NearNorthTrain(df: seq<Reading>): seq<Reading>
  {
    FilterByGps(df, 22.605502, 22.613580, 114.023724, 114.034568, true)
  }

  // ---------------------------------------------------------------------------
  // Membership filters
  // ---------------------------------------------------------------------------

  function Keys<T, K>(df: seq<T>, key: T -> K): (ks: seq<K>)
    ensures |ks| == |df| && forall i :: 0 <= i < |df| ==> ks[i] == key(df[i])
  {
    seq(|df|, i requires 0 <= i < |df| => key(df[i]))
  }

  function KeyIn<T, K(==)>(key: T -> K, vals: seq<K>): T -> bool
  {
    x => key(x) in vals
  }

  /** `get_rows_with_col_value_in`: `df[df[col].isin(vals)]`. */
  function RowsWithKeyIn<T(!new), K(==)>(df: seq<T>, key: T -> K, vals: seq<K>): (r: seq<T>)
    ensures forall x :: x in r <==> x in df && key(x) in vals
  {
    Filter(df, KeyIn(key, vals))
  }

  /** `get_gps_records_with_taxi_id_in`: the readings of the listed taxis. */
  function GpsRecordsWithTaxiIdIn(taxiIds: seq<int>, df: seq<Reading>): (r: seq<Reading>)
    ensures forall x :: x in r <==> x in df && x.taxiId in taxiIds
  {
    RowsWithKeyIn(df, TaxiId, taxiIds)
  }

  /** `find_column_intersection`: the values present in the column of both frames,
      each once. Python's set order is unspecified; the model lists them in order of
      first appearance in the first frame. */
  function ColumnIntersection<T, K(==,!new)>(df1: seq<T>, df2: seq<T>, key: T -> K): (r: seq<K>)
    ensures Distinct(r)
    ensures forall v :: v in r <==> v in Keys(df1, key) && v in Keys(df2, key)
  {
    var inSecond := Unique(Keys(df2, key));
    FilterDistinct(Unique(Keys(df1, key)), (v: K) => v in inSecond);
    Filter(Unique(Keys(df1, key)), (v: K) => v in inSecond)
  }

  /** A value is in the intersection iff some row of each frame has it. */
  lemma ColumnIntersectionMeaning<T(!new), K(!new)>(df1: seq<T>, df2: seq<T>, key: T -> K, v: K)
    ensures v in ColumnIntersection(df1, df2, key) <==>
            (exists x :: x in df1 && key(x) == v) && (exists y :: y in df2 && key(y) == v)
  {
    if v in Keys(df1, key) && v in Keys(df2, key) {
      var i :| 0 <= i < |df1| && Keys(df1, key)[i] == v;
      var j :| 0 <= j < |df2| && Keys(df2, key)[j] == v;
      assert df1[i] in df1 && df2[j] in df2;
    }
    if (exists x :: x in df1 && key(x) == v) && (exists y :: y in df2 && key(y) == v) {
      var x :| x in df1 && key(x) == v;
      var y :| y in df2 && key(y) == v;
      var i :| 0 <= i < |df1| && df1[i] == x;
      var j :| 0 <= j < |df2| && df2[j] == y;
      assert Keys(df1, key)[i] == v && Keys(df2, key)[j] == v;
    }
  }

  // ---------------------------------------------------------------------------
  // Routes with enough readings
  // ---------------------------------------------------------------------------

  /** The default of `min_num_readings`. */
  const DefaultMinReadings: int := 10

  /** The frames the loop of `find_routes_with_ten_readings` appends, in the order of
      `route_numbers`: all rows of each listed route that has at least `minReadings`. */
  function LongRouteFrames(df: seq<RouteRow>, routeNumbers: seq<int>, minReadings: int): seq<seq<RouteRow>>
    decreases |routeNumbers|
  {
    if routeNumbers == [] then []
    else
      var done := LongRouteFrames(df, routeNumbers[..|routeNumbers| - 1], minReadings);
      var routeDf := Filter(df, IsRoute(routeNumbers[|routeNumbers| - 1]));
      if |routeDf| >= minReadings then done + [routeDf] else done
  }

  /** `find_routes_with_ten_readings`, also defined with the same loop in
      Python-Scripts/map_gps_to_cells.py: the concatenated frames, or an error when no
      route qualifies. */
  method FindRoutesWithReadings(df: seq<RouteRow>, routeNumbers: seq<int>, minReadings: int := DefaultMinReadings)
    returns (r: Result<seq<RouteRow>>)
    ensures r == ConcatFrames(LongRouteFrames(df, routeNumbers, minReadings))
  {
    var routes: seq<seq<RouteRow>> := [];
    var k := 0;
    while k < |routeNumbers|
      invariant 0 <= k <= |routeNumbers|
      invariant routes == LongRouteFrames(df, routeNumbers[..k], minReadings)
    {
      var routeDf := Filter(df, IsRoute(routeNumbers[k]));
      ghost var pre := routeNumbers[..k + 1];
      assert pre[..|pre| - 1] == routeNumbers[..k] && pre[|pre| - 1] == routeNumbers[k];
      if |routeDf| >= minReadings {
        routes := routes + [routeDf];
      }
      k := k + 1;
    }
    assert routeNumbers[..k] == routeNumbers;
    if routes == [] {
      return Err(EmptyConcat);
    }
    r := Ok(Flatten(routes));
  }

  /** A row is kept iff its route is listed and has at least `minReadings` rows; the
      call fails iff no listed route has that many. */
  lemma {:induction false} LongRoutesMeaning(df: seq<RouteRow>, routeNumbers: seq<int>, minReadings: int)
    ensures LongRouteFrames(df, routeNumbers, minReadings) == [] <==>
            forall k :: 0 <= k < |routeNumbers| ==> |Filter(df, IsRoute(routeNumbers[k]))| < minReadings
    ensures forall x :: x in Flatten(LongRouteFrames(df, routeNumbers, minReadings)) <==>
              x in df && x.trip.route in routeNumbers && |Filter(df, IsRoute(x.trip.route))| >= minReadings
    decreases |routeNumbers|
  {
    if routeNumbers != [] {
      var init := routeNumbers[..|routeNumbers| - 1];
      var n := routeNumbers[|routeNumbers| - 1];
      LongRoutesMeaning(df, init, minReadings);
      var done := LongRouteFrames(df, init, minReadings);
      var routeDf := Filter(df, IsRoute(n));
      assert routeNumbers == init + [n];
      if |routeDf| >= minReadings {
        var frames := done + [routeDf];
        assert frames[..|frames| - 1] == done;
        assert Flatten(frames) == Flatten(done) + routeDf;
      }
    }
  }

  // ---------------------------------------------------------------------------
  // Routes with consistent start and end times
  // ---------------------------------------------------------------------------

  /** Route `r` has a start row and an end row. */
  predicate HasStartAndEnd(df: seq<RouteRow>, r: int)
  {
    StartRow(df, r).Some? && EndRow(df, r).Some?
  }

  /** The first end time of a route minus its first start time. */
  function Elapsed(df: seq<RouteRow>, r: int): int
    requires HasStartAndEnd(df, r)
  {
    EndRow(df, r).value.reading.time - StartRow(df, r).value.reading.time
  }

  /** Route `r` has a start row and an end row and its first start time is strictly
      before its first end time. */
  predicate HasProperTimes(df: seq<RouteRow>, r: int)
  {
    HasStartAndEnd(df, r) && Elapsed(df, r) > 0
  }

  /** Route `r` gets a duration: it has both end rows and, when `ordered`, its start
      precedes its end. */
  predicate Timed(df: seq<RouteRow>, r: int, ordered: bool)
  {
    HasStartAndEnd(df, r) && (ordered ==> Elapsed(df, r) > 0)
  }

  /** The `route_durations` dictionary built by visiting `routeIds` in turn, as a list
      of entries in insertion order. With `ordered` it is the one of
      `remove_routes_with_corrupt_start_end_times_and_calc_duration`; without, the one of
      distance_time.py's `calculate_route_durations`. */
  function Durations(df: seq<RouteRow>, routeIds: seq<int>, ordered: bool): seq<RouteDuration>
    decreases |routeIds|
  {
    if routeIds == [] then []
    else
      var done := Durations(df, routeIds[..|routeIds| - 1], ordered);
      var r := routeIds[|routeIds| - 1];
      if Timed(df, r, ordered) then done + [RouteDuration(r, Elapsed(df, r))] else done
  }

  /** The loop over the distinct route numbers: it records the duration of every route
      whose start precedes its end, and keeps the rows of exactly those routes. */
  method RemoveRoutesWithCorruptTimes(df: seq<RouteRow>)
    returns (durations: seq<RouteDuration>, kept: seq<RouteRow>)
    ensures durations == Durations(df, Unique(RouteNumbers(df)), true)
    ensures kept == RowsWithKeyIn(df, RouteOf, DurationRoutes(durations))
  {
    var routeIds := Unique(RouteNumbers(df));
    durations := [];
    var properRouteNumbers: seq<int> := [];
    var k := 0;
    while k < |routeIds|
      invariant 0 <= k <= |routeIds|
      invariant durations == Durations(df, routeIds[..k], true)
      invariant properRouteNumbers == DurationRoutes(durations)
    {
      var routeId := routeIds[k];
      ghost var pre := routeIds[..k + 1];
      assert pre[..|pre| - 1] == routeIds[..k] && pre[|pre| - 1] == routeId;
      var startRow := StartRow(df, routeId);
      var endRow := EndRow(df, routeId);
      var hasStartAndEnd := true;
      if startRow.None? {
        hasStartAndEnd := false;
      }
      if endRow.None? {
        hasStartAndEnd := false;
      }
      if hasStartAndEnd {
        var startTime := startRow.value.reading.time;
        var endTime := endRow.value.reading.time;
        if startTime < endTime {
          durations := durations + [RouteDuration(routeId, endTime - startTime)];
          properRouteNumbers := properRouteNumbers + [routeId];
        }
      }
      k := k + 1;
    }
    assert routeIds[..k] == routeIds;
    kept := Filter(df, KeyIn(RouteOf, properRouteNumbers));
  }

  /** Route `r` gets a duration entry iff it is visited and qualifies; the entry is its
      first end time minus its first start time, positive when `ordered`; and no route
      gets two entries when the visited numbers are distinct. */
  lemma {:induction false} DurationsMeaning(df: seq<RouteRow>, routeIds: seq<int>, ordered: bool)
    requires Distinct(routeIds)
    ensures Distinct(DurationRoutes(Durations(df, routeIds, ordered)))
    ensures forall r :: r in DurationRoutes(Durations(df, routeIds, ordered)) <==>
              r in routeIds && Timed(df, r, ordered)
    ensures forall d :: d in Durations(df, routeIds, ordered) ==>
              Timed(df, d.route, ordered) && d.seconds == Elapsed(df, d.route) &&
              (ordered ==> d.seconds > 0)
    decreases |routeIds|
  {
    if routeIds != [] {
      var init := routeIds[..|routeIds| - 1];
      var r := routeIds[|routeIds| - 1];
      assert routeIds == init + [r];
      assert Distinct(init) && r !in init;
      DurationsMeaning(df, init, ordered);
      var done := Durations(df, init, ordered);
      if Timed(df, r, ordered) {
        var ds := done + [RouteDuration(r, Elapsed(df, r))];
        assert DurationRoutes(ds) == DurationRoutes(done) + [r];
      }
    }
  }

  /** The rows kept are exactly those of routes whose start precedes their end. */
  lemma RemoveRoutesKeeps(df: seq<RouteRow>, x: RouteRow)
    ensures x in RowsWithKeyIn(df, RouteOf, DurationRoutes(Durations(df, Unique(RouteNumbers(df)), true))) <==>
            x in df && HasProperTimes(df, x.trip.route)
  {
    DurationsMeaning(df, Unique(RouteNumbers(df)), true);
    if x in df {
      var i :| 0 <= i < |df| && df[i] == x;
      assert RouteNumbers(df)[i] == x.trip.route;
    }
  }

  // ---------------------------------------------------------------------------
  // Fraud threshold
  // ---------------------------------------------------------------------------

  function IsFraudSuspect(avgTime: real, avgDistance: real): MeasuredRow -> bool
  {
    (x: MeasuredRow) => x.distanceKm >= avgDistance && x.durationSec as real >= avgTime
  }

  /** `find_fraud_routes_by_time_distance`: the rows at least as long, in distance and
      in time, as the thresholds (both inclusive), in their original order. */
  function FindFraudRoutes(df: seq<MeasuredRow>, avgTime: real, avgDistance: real): (r: seq<MeasuredRow>)
    ensures forall x :: x in r <==> x in df && x.distanceKm >= avgDistance && x.durationSec as real >= avgTime
    ensures forall x :: multiset(r)[x] == if x.distanceKm >= avgDistance && x.durationSec as real >= avgTime
                                          then multiset(df)[x] else 0
  {
    forall x ensures multiset(Filter(df, IsFraudSuspect(avgTime, avgDistance)))[x] ==
                     if x.distanceKm >= avgDistance && x.durationSec as real >= avgTime then multiset(df)[x] else 0 {
      FilterCount(df, IsFraudSuspect(avgTime, avgDistance), x);
    }
    Filter(df, IsFraudSuspect(avgTime, avgDistance))
  }
}
