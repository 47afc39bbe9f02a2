/** AirToTrain/Python-Scripts/distance_time.py: per-route durations, copying a
    route's distance and duration onto its rows, keeping the first row per value of a
    column, and the distance between two points made non-negative. */
module DistanceTime {

  import opened Tables
  import opened Records
  import opened TrainRoutes

  // ---------------------------------------------------------------------------
  // Route durations
  // ---------------------------------------------------------------------------

  /** The script's own lookup: among the rows of route `r`, the first one flagged as a
      start. It is the first start row of `r` in the whole table. */
  lemma RouteStartRow(df: seq<RouteRow>, r: int)
    ensures First(Filter(df, IsRoute(r)), (x: RouteRow) => x.trip.start) == StartRow(df, r)
    ensures First(Filter(df, IsRoute(r)), (x: RouteRow) => x.trip.end) == EndRow(df, r)
  {
    FilterFilter(df, IsRoute(r), (x: RouteRow) => x.trip.start);
    SameFilter(df, And(IsRoute(r), (x: RouteRow) => x.trip.start), IsStartOf(r));
    FilterFilter(df, IsRoute(r), (x: RouteRow) => x.trip.end);
    SameFilter(df, And(IsRoute(r), (x: RouteRow) => x.trip.end), IsEndOf(r));
  }

  /** `calculate_route_durations`: for every distinct route number (route -1
      included), the first end time minus the first start time when the route has a
      start row and an end row. An end before the start only prints a warning: the
      negative duration is recorded. */
  method CalculateRouteDurations(df: seq<RouteRow>) returns (durations: seq<RouteDuration>)
    ensures durations == Durations(df, Unique(RouteNumbers(df)), false)
  {
    var routeIds := Unique(RouteNumbers(df));
    durations := [];
    var k := 0;
    while k < |routeIds|
      invariant 0 <= k <= |routeIds|
      invariant durations == Durations(df, routeIds[..k], false)
    {
      var routeId := routeIds[k];
      ghost var pre := routeIds[..k + 1];
      assert pre[..|pre| - 1] == routeIds[..k] && pre[|pre| - 1] == routeId;
      var startRow := StartRow(df, routeId);
      var endRow := EndRow(df, routeId);
      var hasStartAndEnd := true;
      if startRow.None? {
        hasStartAndEnd := false;
      }
      if endRow.None? {
        hasStartAndEnd := false;
      }
      if hasStartAndEnd {
        var startTime := startRow.value.reading.time;
        var endTime := endRow.value.reading.time;
        var routeDuration := endTime - startTime;
        durations := durations + [RouteDuration(routeId, routeDuration)];
      }
      k := k + 1;
    }
    assert routeIds[..k] == routeIds;
  }

  /** A route gets an entry iff it has a start row and an end row, at most one entry
      per route. */
  lemma RouteDurationsMeaning(df: seq<RouteRow>, r: int)
    ensures Distinct(DurationRoutes(Durations(df, Unique(RouteNumbers(df)), false)))
    ensures r in DurationRoutes(Durations(df, Unique(RouteNumbers(df)), false)) <==> HasStartAndEnd(df, r)
  {
    DurationsMeaning(df, Unique(RouteNumbers(df)), false);
    if HasStartAndEnd(df, r) {
      FirstIsEarliest(df, IsStartOf(r));
      var i :| 0 <= i < |df| && df[i] == StartRow(df, r).value && IsStartOf(r)(df[i]);
      assert RouteNumbers(df)[i] == r;
    }
  }

  /** The duration is recorded even when the end comes first. */
  lemma NegativeDurationRecorded()
    ensures var df := [RouteRow(Reading(1, 100, 0.0, 0.0, 1), Label(5, true, false)),
                       RouteRow(Reading(1, 40, 0.0, 0.0, 0), Label(5, false, true))];
            Durations(df, [5], false) == [RouteDuration(5, -60)]
  {
    var df := [RouteRow(Reading(1, 100, 0.0, 0.0, 1), Label(5, true, false)),
               RouteRow(Reading(1, 40, 0.0, 0.0, 0), Label(5, false, true))];
    FirstIsEarliest(df, IsStartOf(5));
    FirstIsEarliest(df, IsEndOf(5));
    assert [5][..0] == [];
  }

  // ---------------------------------------------------------------------------
  // Distance
  // ---------------------------------------------------------------------------

  /** `distance_between_gps`, the great-circle distance being the `haversine`
      argument: a negative value is negated. The same function is defined in
      find_train_to_train_routes.py. */
  function DistanceBetweenGps(haversine: (Gps, Gps) -> real, one: Gps, two: Gps): (d: real)
    ensures d >= 0.0
    ensures d == haversine(one, two) || d == -haversine(one, two)
  {
    var kmDistance := haversine(one, two);
    if kmDistance < 0.0 then -kmDistance else kmDistance
  }

  // ---------------------------------------------------------------------------
  // Distance and duration onto the rows
  // ---------------------------------------------------------------------------

  /** The first row of `dt_df` for route `r`. */
  function MeasureOf(dt: seq<RouteMeasure>, r: int): Option<RouteMeasure>
  {
    First(dt, (m: RouteMeasure) => m.route == r)
  }

  /** The rows of route `r` with its measures set. */
  function Broadcast(rows: seq<RouteRow>, m: RouteMeasure): (r: seq<MeasuredRow>)
    ensures |r| == |rows|
  {
    seq(|rows|, i requires 0 <= i < |rows| => MeasuredRow(rows[i], m.distanceKm, m.durationSec))
  }

  /** The loop of `merge_distance_time_into_route_df` over the route numbers
      `routeIds`: a route without a row in `dt_df` raises at `.iloc[0]`. */
  function MergeRoutes(dt: seq<RouteMeasure>, df: seq<RouteRow>, routeIds: seq<int>): Result<seq<MeasuredRow>>
    decreases |routeIds|
  {
    if routeIds == [] then Ok([])
    else
      var done := MergeRoutes(dt, df, routeIds[..|routeIds| - 1]);
      var r := routeIds[|routeIds| - 1];
      if done.Err? then done
      else if MeasureOf(dt, r).None? then Err(MissingRow)
      else Ok(done.value + Broadcast(Filter(df, IsRoute(r)), MeasureOf(dt, r).value))
  }

  method MergeDistanceTimeIntoRouteDf(dt: seq<RouteMeasure>, df: seq<RouteRow>) returns (r: Result<seq<MeasuredRow>>)
    ensures df == [] ==> r == Err(EmptyConcat)
    ensures df != [] ==> r == MergeRoutes(dt, df, Unique(RouteNumbers(df)))
  {
    var routeIds := Unique(RouteNumbers(df));
    var routeDfs: seq<MeasuredRow> := [];
    var k := 0;
    while k < |routeIds|
      invariant 0 <= k <= |routeIds|
      invariant MergeRoutes(dt, df, routeIds[..k]) == Ok(routeDfs)
    {
      var routeId := routeIds[k];
      var routeDf := Filter(df, IsRoute(routeId));
      var distanceTime := MeasureOf(dt, routeId);
      MergeRoutesStep(dt, df, routeIds, k);
      if distanceTime.None? {
        MergeRoutesStops(dt, df, routeIds, k + 1);
        return Err(MissingRow);
      }
      routeDfs := routeDfs + Broadcast(routeDf, distanceTime.value);
      k := k + 1;
    }
    assert routeIds[..k] == routeIds;
    if df == [] {
      return Err(EmptyConcat);
    }
    r := Ok(routeDfs);
  }

  lemma MergeRoutesStep(dt: seq<RouteMeasure>, df: seq<RouteRow>, routeIds: seq<int>, k: nat)
    requires k < |routeIds| && MergeRoutes(dt, df, routeIds[..k]).Ok?
    ensures MergeRoutes(dt, df, routeIds[..k + 1]) ==
            if MeasureOf(dt, routeIds[k]).None? then Err(MissingRow)
            else Ok(MergeRoutes(dt, df, routeIds[..k]).value +
                    Broadcast(Filter(df, IsRoute(routeIds[k])), MeasureOf(dt, routeIds[k]).value))
  {
    var pre := routeIds[..k + 1];
    assert pre[..|pre| - 1] == routeIds[..k] && pre[|pre| - 1] == routeIds[k];
  }

  lemma {:induction false} MergeRoutesStops(dt: seq<RouteMeasure>, df: seq<RouteRow>, routeIds: seq<int>, n: nat)
    requires n <= |routeIds| && MergeRoutes(dt, df, routeIds[..n]).Err?
    ensures MergeRoutes(dt, df, routeIds) == MergeRoutes(dt, df, routeIds[..n])
    decreases |routeIds|
  {
    if n < |routeIds| {
      var init := routeIds[..|routeIds| - 1];
      assert routeIds[..n] == init[..n];
      MergeRoutesStops(dt, df, init, n);
    } else {
      assert routeIds[..n] == routeIds;
    }
  }

  /** The merge fails iff some listed route has no row in `dt_df`, and the error is
      then the one `.iloc[0]` raises. */
  lemma {:induction false} MergeRoutesFails(dt: seq<RouteMeasure>, df: seq<RouteRow>, routeIds: seq<int>)
    ensures MergeRoutes(dt, df, routeIds).Err? <==> exists r :: r in routeIds && MeasureOf(dt, r).None?
    ensures MergeRoutes(dt, df, routeIds).Err? ==> MergeRoutes(dt, df, routeIds).error == MissingRow
    decreases |routeIds|
  {
    if routeIds != [] {
      var init := routeIds[..|routeIds| - 1];
      var r := routeIds[|routeIds| - 1];
      assert routeIds == init + [r];
      MergeRoutesFails(dt, df, init);
      if exists q :: q in routeIds && MeasureOf(dt, q).None? {
        var q :| q in routeIds && MeasureOf(dt, q).None?;
        if q != r {
          assert q in init;
        }
      }
    }
  }

  /** Row `m` carries the distance and duration of the first `dt_df` row of its route. */
  predicate MeasuredAsRoute(dt: seq<RouteMeasure>, m: MeasuredRow)
  {
    var measure := MeasureOf(dt, m.row.trip.route);
    measure.Some? && m.distanceKm == measure.value.distanceKm && m.durationSec == measure.value.durationSec
  }

  /** Every merged row carries its route's measures. */
  lemma {:induction false} MergeRoutesMeasures(dt: seq<RouteMeasure>, df: seq<RouteRow>, routeIds: seq<int>)
    requires MergeRoutes(dt, df, routeIds).Ok?
    ensures forall m :: m in MergeRoutes(dt, df, routeIds).value ==> MeasuredAsRoute(dt, m)
    decreases |routeIds|
  {
    if routeIds != [] {
      var init := routeIds[..|routeIds| - 1];
      var r := routeIds[|routeIds| - 1];
      MergeRoutesMeasures(dt, df, init);
      var done := MergeRoutes(dt, df, init).value;
      var rows := Filter(df, IsRoute(r));
      var part := Broadcast(rows, MeasureOf(dt, r).value);
      forall m | m in part ensures MeasuredAsRoute(dt, m) {
        var i :| 0 <= i < |part| && part[i] == m;
        assert rows[i] in rows;
      }
    }
  }

  /** Each row of a listed route appears in the merge exactly as often as in the table,
      and no other row appears. */
  lemma {:induction false} MergeRoutesRows(dt: seq<RouteMeasure>, df: seq<RouteRow>, routeIds: seq<int>, x: RouteRow)
    requires Distinct(routeIds)
    requires MergeRoutes(dt, df, routeIds).Ok?
    ensures multiset(Rows(MergeRoutes(dt, df, routeIds).value))[x] ==
            if x.trip.route in routeIds then multiset(df)[x] else 0
    decreases |routeIds|
  {
    if routeIds != [] {
      var init := routeIds[..|routeIds| - 1];
      var r := routeIds[|routeIds| - 1];
      assert routeIds == init + [r];
      assert Distinct(init) && r !in init;
      MergeRoutesRows(dt, df, init, x);
      var done := MergeRoutes(dt, df, init).value;
      var rows := Filter(df, IsRoute(r));
      RowsOfAppend(done, rows, MeasureOf(dt, r).value);
      assert multiset(Rows(MergeRoutes(dt, df, routeIds).value)) == multiset(Rows(done)) + multiset(rows);
      FilterCount(df, IsRoute(r), x);
    }
  }

  /** The labelled rows beneath measured rows. */
  function Rows(s: seq<MeasuredRow>): (rs: seq<RouteRow>)
    ensures |rs| == |s| && forall i :: 0 <= i < |s| ==> rs[i] == s[i].row
  {
    seq(|s|, i requires 0 <= i < |s| => s[i].row)
  }

  lemma RowsOfAppend(done: seq<MeasuredRow>, rows: seq<RouteRow>, m: RouteMeasure)
    ensures Rows(done + Broadcast(rows, m)) == Rows(done) + rows
  {
  }

  /** Over a whole table: the merge fails iff a row's route is missing from `dt_df`;
      otherwise it holds every row of the table exactly once, each with its route's
      distance and duration. */
  lemma MergeKeepsEveryRow(dt: seq<RouteMeasure>, df: seq<RouteRow>)
    ensures MergeRoutes(dt, df, Unique(RouteNumbers(df))).Err? <==>
            exists x :: x in df && MeasureOf(dt, x.trip.route).None?
    ensures MergeRoutes(dt, df, Unique(RouteNumbers(df))).Ok? ==>
              var out := MergeRoutes(dt, df, Unique(RouteNumbers(df))).value;
              multiset(Rows(out)) == multiset(df) && forall m :: m in out ==> MeasuredAsRoute(dt, m)
  {
    var ids := Unique(RouteNumbers(df));
    MergeRoutesFails(dt, df, ids);
    forall x | x in df ensures x.trip.route in ids {
      var i :| 0 <= i < |df| && df[i] == x;
      assert RouteNumbers(df)[i] == x.trip.route;
    }
    if exists q :: q in ids && MeasureOf(dt, q).None? {
      var q :| q in ids && MeasureOf(dt, q).None?;
      var i :| 0 <= i < |df| && RouteNumbers(df)[i] == q;
      assert df[i] in df;
    }
    if MergeRoutes(dt, df, ids).Ok? {
      var out := MergeRoutes(dt, df, ids).value;
      MergeRoutesMeasures(dt, df, ids);
      forall x ensures multiset(Rows(out))[x] == multiset(df)[x] {
        MergeRoutesRows(dt, df, ids, x);
        if x !in df {
          assert multiset(df)[x] == 0;
        }
      }
    }
  }

  // ---------------------------------------------------------------------------
  // First row per value of a column
  // ---------------------------------------------------------------------------

  /** The first row whose column value is `v`. */
  function FirstWithKey<T(!new), K(==)>(df: seq<T>, key: T -> K, v: K): (x: T)
    requires v in Keys(df, key)
    ensures x in df && key(x) == v
  {
    var i :| 0 <= i < |df| && Keys(df, key)[i] == v;
    df[EarliestIndex(df, (y: T) => key(y) == v)]
  }

  /** The rows `reduce_dataframe_by_col` collects for the values `vals`, in turn. */
  function FirstRows<T(!new), K(==)>(df: seq<T>, key: T -> K, vals: seq<K>): seq<T>
    requires forall v :: v in vals ==> v in Keys(df, key)
    decreases |vals|
  {
    if vals == [] then []
    else FirstRows(df, key, vals[..|vals| - 1]) + [FirstWithKey(df, key, vals[|vals| - 1])]
  }

  /** `reduce_dataframe_by_col(df, col_name)`: for each distinct value of the column, in
      order of first appearance, the first row having it; an empty table leaves nothing
      to concatenate. */
  method ReduceDataframeByCol<T(!new), K(==,!new)>(df: seq<T>, key: T -> K) returns (r: Result<seq<T>>)
    ensures df == [] ==> r == Err(EmptyConcat)
    ensures df != [] ==> r == Ok(FirstRows(df, key, Unique(Keys(df, key))))
  {
    var uniqueValues := Unique(Keys(df, key));
    var rowDfs: seq<T> := [];
    var k := 0;
    while k < |uniqueValues|
      invariant 0 <= k <= |uniqueValues|
      invariant rowDfs == FirstRows(df, key, uniqueValues[..k])
    {
      ghost var pre := uniqueValues[..k + 1];
      assert pre[..|pre| - 1] == uniqueValues[..k] && pre[|pre| - 1] == uniqueValues[k];
      rowDfs := rowDfs + [FirstWithKey(df, key, uniqueValues[k])];
      k := k + 1;
    }
    assert uniqueValues[..k] == uniqueValues;
    if df == [] {
      return Err(EmptyConcat);
    }
    r := Ok(rowDfs);
  }

  /** One row per distinct value: row `i` holds the `i`-th distinct value in order of
      first appearance and is the first row of the table with that value. */
  lemma FirstRowsMeaning<T(!new), K(!new)>(df: seq<T>, key: T -> K, i: nat)
    requires i < |Unique(Keys(df, key))|
    ensures |FirstRows(df, key, Unique(Keys(df, key)))| == |Unique(Keys(df, key))|
    ensures var x := FirstRows(df, key, Unique(Keys(df, key)))[i];
            x in df && key(x) == Unique(Keys(df, key))[i] &&
            exists j :: 0 <= j < |df| && df[j] == x && forall j' :: 0 <= j' < j ==> key(df[j']) != key(x)
  {
    var u := Unique(Keys(df, key));
    FirstRowsAt(df, key, u, i);
    var v := u[i];
    var p := (y: T) => key(y) == v;
    var j := EarliestIndex(df, p);
    assert forall j' :: 0 <= j' < j ==> !p(df[j']);
  }

  lemma {:induction false} FirstRowsAt<T(!new), K(!new)>(df: seq<T>, key: T -> K, vals: seq<K>, i: nat)
    requires forall v :: v in vals ==> v in Keys(df, key)
    requires i < |vals|
    ensures |FirstRows(df, key, vals)| == |vals|
    ensures FirstRows(df, key, vals)[i] == FirstWithKey(df, key, vals[i])
    decreases |vals|
  {
    var init := vals[..|vals| - 1];
    if i < |init| {
      FirstRowsAt(df, key, init, i);
    } else if init != [] {
      FirstRowsAt(df, key, init, 0);
    }
  }
}
