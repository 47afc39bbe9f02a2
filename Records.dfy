/** The rows of the scripts' data frames. */
module Records {

  import opened Tables

  /** One GPS reading of the Shenzhen taxi trace: `taxi_id`, `time` (in seconds),
      `latitude`, `longitude` and `occupancy_status` (1 with a passenger, 0 without). */
  datatype Reading = Reading(taxiId: int, time: int, lat: real, long: real, occupancy: int)

  /** The three columns `label_trajectories` adds to a reading. */
  datatype Label = Label(route: int, start: bool, end: bool)

  datatype RouteRow = RouteRow(reading: Reading, trip: Label)

  /** A row of the duration frame: `route_number` and `duration_in_seconds`. */
  datatype RouteDuration = RouteDuration(route: int, seconds: int)

  /** A row of the distance/duration frame `dt_df`. */
  datatype RouteMeasure = RouteMeasure(route: int, distanceKm: real, durationSec: int)

  /** A labelled row with its route's `distance_in_km` and `duration_in_seconds`. */
  datatype MeasuredRow = MeasuredRow(row: RouteRow, distanceKm: real, durationSec: int)

  /** A latitude/longitude pair. */
  datatype Gps = Gps(lat: real, long: real)

  /** The route number of a reading that belongs to no trip. */
  const EmptyRoute: int := -1

  function TaxiId(r: Reading): int { r.taxiId }

  function RouteOf(x: RouteRow): int { x.trip.route }

  /** The `taxi_id` column. */
  function TaxiIds(df: seq<Reading>): (ids: seq<int>)
    ensures |ids| == |df| && forall i :: 0 <= i < |df| ==> ids[i] == df[i].taxiId
  {
    seq(|df|, i requires 0 <= i < |df| => df[i].taxiId)
  }

  /** The `route_number` column. */
  function RouteNumbers(df: seq<RouteRow>): (nums: seq<int>)
    ensures |nums| == |df| && forall i :: 0 <= i < |df| ==> nums[i] == df[i].trip.route
  {
    seq(|df|, i requires 0 <= i < |df| => df[i].trip.route)
  }

  /** The readings beneath labelled rows. */
  function Readings(df: seq<RouteRow>): (rs: seq<Reading>)
    ensures |rs| == |df| && forall i :: 0 <= i < |df| ==> rs[i] == df[i].reading
  {
    seq(|df|, i requires 0 <= i < |df| => df[i].reading)
  }

  lemma ReadingsConcat(a: seq<RouteRow>, b: seq<RouteRow>)
    ensures Readings(a + b) == Readings(a) + Readings(b)
  {
  }

  /** The mask `(df['route_start'] == True) & (df['route_number'] == r)`. */
  function IsStartOf(r: int): RouteRow -> bool
  {
    (x: RouteRow) => x.trip.start && x.trip.route == r
  }

  /** The mask `(df['route_end'] == True) & (df['route_number'] == r)`. */
  function IsEndOf(r: int): RouteRow -> bool
  {
    (x: RouteRow) => x.trip.end && x.trip.route == r
  }

  /** The mask `df['route_number'] == r`. */
  function IsRoute(r: int): RouteRow -> bool
  {
    (x: RouteRow) => x.trip.route == r
  }

  function DurationRoutes(ds: seq<RouteDuration>): (rs: seq<int>)
    ensures |rs| == |ds| && forall i :: 0 <= i < |ds| ==> rs[i] == ds[i].route
  {
    seq(|ds|, i requires 0 <= i < |ds| => ds[i].route)
  }

  /** The first start row of route `r`, where the scripts take `.iloc[0]`. */
  function StartRow(df: seq<RouteRow>, r: int): Option<RouteRow>
  {
    First(df, IsStartOf(r))
  }

  /** The first end row of route `r`. */
  function EndRow(df: seq<RouteRow>, r: int): Option<RouteRow>
  {
    First(df, IsEndOf(r))
  }
}
