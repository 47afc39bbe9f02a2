/** AirToTrain/Python-Scripts/find_relevant_trajectories.py: splitting each taxi's
    reading stream into numbered trips, and picking the trips that go from the airport
    or the bus station to the train station. The per-taxi state machine defined here
    is shared by the other labelling scripts. */
module Trajectories {

  import opened Tables
  import opened Records
  import opened Zones
  import TrainRoutes

  // ---------------------------------------------------------------------------
  // The per-taxi state machine
  // ---------------------------------------------------------------------------

  /** The loop's state: `passenger_got_in` and `trajectory_number`. */
  datatype Tracker = Tracker(onBoard: bool, counter: int)

  /** The truth value of `occupancy_status` as the loop tests it. */
  predicate Occupied(r: Reading)
  {
    r.occupancy != 0
  }

  /** The label the loop appends for a reading, given the state before it. */
  function StepLabel(t: Tracker, occupied: bool): Label
  {
    if t.onBoard then
      if occupied then Label(t.counter, false, false)  // trip still going
      else Label(t.counter, false, true)               // trip ended
    else if occupied then Label(t.counter, true, false) // passenger got in
    else Label(EmptyRoute, false, false)
  }

  /** The state after a reading. */
  function StepTracker(t: Tracker, occupied: bool): Tracker
  {
    if t.onBoard then
      if occupied then t else Tracker(false, t.counter + 1)
    else if occupied then Tracker(true, t.counter)
    else t
  }

  /** The state after a taxi's readings, starting with no passenger. */
  function TrackerAfter(counter: int, rows: seq<Reading>): Tracker
    decreases |rows|
  {
    if rows == [] then Tracker(false, counter)
    else StepTracker(TrackerAfter(counter, rows[..|rows| - 1]), Occupied(rows[|rows| - 1]))
  }

  /** A taxi's readings with their labels, the trip counter starting at `counter`. */
  function LabelRows(counter: int, rows: seq<Reading>): (r: seq<RouteRow>)
    ensures |r| == |rows|
    decreases |rows|
  {
    if rows == [] then []
    else
      var init := rows[..|rows| - 1];
      var last := rows[|rows| - 1];
      LabelRows(counter, init) + [RouteRow(last, StepLabel(TrackerAfter(counter, init), Occupied(last)))]
  }

  /** The inner loop of `label_trajectories` over one taxi's readings. It fills the
      `route_number`, `route_start` and `route_end` lists and assigns them as columns,
      which pandas accepts only when each has one entry per reading. */
  method LabelTaxi(rows: seq<Reading>, counter: int) returns (labelled: seq<RouteRow>, next: int)
    ensures labelled == LabelRows(counter, rows)
    ensures next == TrackerAfter(counter, rows).counter
  {
    var passengerGotIn := false;
    var trajectoryNumber := counter;
    var routeNumbers: seq<int> := [];
    var routeStarts: seq<bool> := [];
    var routeEnds: seq<bool> := [];
    var i := 0;
    while i < |rows|
      invariant 0 <= i <= |rows|
      invariant |routeNumbers| == i && |routeStarts| == i && |routeEnds| == i
      invariant Tracker(passengerGotIn, trajectoryNumber) == TrackerAfter(counter, rows[..i])
      invariant forall k :: 0 <= k < i ==>
                  LabelRows(counter, rows[..i])[k] ==
                  RouteRow(rows[k], Label(routeNumbers[k], routeStarts[k], routeEnds[k]))
    {
      var passengerInTaxi := Occupied(rows[i]);
      ghost var before := Tracker(passengerGotIn, trajectoryNumber);
      if passengerGotIn {
        if passengerInTaxi {
          routeStarts, routeEnds := routeStarts + [false], routeEnds + [false];
          routeNumbers := routeNumbers + [trajectoryNumber];
        } else {
          passengerGotIn := false;
          routeStarts, routeEnds := routeStarts + [false], routeEnds + [true];
          routeNumbers := routeNumbers + [trajectoryNumber];
          trajectoryNumber := trajectoryNumber + 1;
        }
      } else if passengerInTaxi {
        passengerGotIn := true;
        routeStarts, routeEnds := routeStarts + [true], routeEnds + [false];
        routeNumbers := routeNumbers + [trajectoryNumber];
      } else {
        routeStarts, routeEnds := routeStarts + [false], routeEnds + [false];
        routeNumbers := routeNumbers + [EmptyRoute];
      }
      LabelRowsStep(counter, rows, i);
      i := i + 1;
    }
    assert rows[..i] == rows;
    labelled := seq(|rows|, k requires 0 <= k < |rows| =>
                  RouteRow(rows[k], Label(routeNumbers[k], routeStarts[k], routeEnds[k])));
    next := trajectoryNumber;
  }

  /** One more reading extends the labels and the state by one step of the machine. */
  lemma LabelRowsStep(counter: int, rows: seq<Reading>, i: nat)
    requires i < |rows|
    ensures LabelRows(counter, rows[..i + 1]) ==
            LabelRows(counter, rows[..i]) + [RouteRow(rows[i], StepLabel(TrackerAfter(counter, rows[..i]), Occupied(rows[i])))]
    ensures TrackerAfter(counter, rows[..i + 1]) == StepTracker(TrackerAfter(counter, rows[..i]), Occupied(rows[i]))
  {
    assert rows[..i + 1][..i] == rows[..i];
  }

  // ---------------------------------------------------------------------------
  // What the labels mean, reading by reading
  // ---------------------------------------------------------------------------

  /** Reading `i` is occupied and the one before it (if any) is not. */
  predicate StartsAt(rows: seq<Reading>, i: nat)
    requires i < |rows|
  {
    Occupied(rows[i]) && (i == 0 || !Occupied(rows[i - 1]))
  }

  /** Reading `i` is unoccupied and the one before it is occupied. */
  predicate EndsAt(rows: seq<Reading>, i: nat)
    requires i < |rows|
  {
    !Occupied(rows[i]) && i > 0 && Occupied(rows[i - 1])
  }

  /** The number of occupied-to-unoccupied changes in a reading stream. */
  function EndCount(rows: seq<Reading>): nat
    decreases |rows|
  {
    if rows == [] then 0
    else EndCount(rows[..|rows| - 1]) + (if EndsAt(rows, |rows| - 1) then 1 else 0)
  }

  /** The state after a taxi's readings: a passenger is on board exactly when the last
      reading is occupied, and the counter has advanced once per finished trip. */
  lemma {:induction false} TrackerAfterClosedForm(counter: int, rows: seq<Reading>)
    ensures TrackerAfter(counter, rows) ==
            Tracker(|rows| > 0 && Occupied(rows[|rows| - 1]), counter + EndCount(rows))
    decreases |rows|
  {
    if rows != [] {
      var init := rows[..|rows| - 1];
      TrackerAfterClosedForm(counter, init);
      if |rows| > 1 {
        assert init[|init| - 1] == rows[|rows| - 2];
      }
    }
  }

  lemma {:induction false} LabelRowsPrefix(counter: int, rows: seq<Reading>, n: nat)
    requires n <= |rows|
    ensures LabelRows(counter, rows[..n]) == LabelRows(counter, rows)[..n]
    decreases |rows|
  {
    if n < |rows| {
      var init := rows[..|rows| - 1];
      assert rows[..n] == init[..n];
      LabelRowsPrefix(counter, init, n);
    } else {
      assert rows[..n] == rows;
    }
  }

  /** The label of every reading, stated without the loop: a reading starts a trip
      iff it is occupied after an unoccupied reading (or first), ends one iff it is
      unoccupied after an occupied reading, and carries route -1 iff it does neither
      and is unoccupied; otherwise its route number is the counter's initial value plus
      the trips finished before it. */
  lemma LabelClosedForm(counter: int, rows: seq<Reading>, i: nat)
    requires i < |rows|
    ensures LabelRows(counter, rows)[i].reading == rows[i]
    ensures LabelRows(counter, rows)[i].trip ==
            Label(if Occupied(rows[i]) || EndsAt(rows, i) then counter + EndCount(rows[..i]) else EmptyRoute,
                  StartsAt(rows, i), EndsAt(rows, i))
  {
    LabelRowsPrefix(counter, rows, i + 1);
    var pre := rows[..i + 1];
    assert pre[..i] == rows[..i];
    TrackerAfterClosedForm(counter, rows[..i]);
    assert LabelRows(counter, rows)[i] == LabelRows(counter, pre)[i];
  }

  /** No reading both starts and ends a trip, and, the counter being non-negative as
      it always is in the scripts, a reading of no trip has neither flag. */
  lemma StartEndExclusive(counter: int, rows: seq<Reading>, i: nat)
    requires 0 <= counter && i < |rows|
    ensures !(LabelRows(counter, rows)[i].trip.start && LabelRows(counter, rows)[i].trip.end)
    ensures LabelRows(counter, rows)[i].trip.route == EmptyRoute ==>
              !LabelRows(counter, rows)[i].trip.start && !LabelRows(counter, rows)[i].trip.end &&
              !Occupied(rows[i])
  {
    LabelClosedForm(counter, rows, i);
    assert counter + EndCount(rows[..i]) >= counter;
  }

  lemma {:induction false} EndCountPrefix(rows: seq<Reading>, n: nat)
    requires n <= |rows|
    ensures EndCount(rows[..n]) <= EndCount(rows)
    ensures n < |rows| && EndsAt(rows, n) ==> EndCount(rows[..n]) < EndCount(rows)
    decreases |rows|
  {
    if n < |rows| {
      var init := rows[..|rows| - 1];
      assert rows[..n] == init[..n];
      if n < |init| {
        EndCountPrefix(init, n);
        assert EndsAt(rows, n) == EndsAt(init, n);
      } else {
        assert init[..n] == init;
      }
    } else {
      assert rows[..n] == rows;
    }
  }

  /** The counter only grows, and only at trip ends: the counter after reading `i`
      exceeds the one before it by one exactly when reading `i` ends a trip. */
  lemma CounterAdvancesAtEnds(counter: int, rows: seq<Reading>, i: nat)
    requires i < |rows|
    ensures TrackerAfter(counter, rows[..i + 1]).counter ==
            TrackerAfter(counter, rows[..i]).counter + (if LabelRows(counter, rows)[i].trip.end then 1 else 0)
    ensures TrackerAfter(counter, rows).counter >= counter
  {
    LabelClosedForm(counter, rows, i);
    TrackerAfterClosedForm(counter, rows[..i]);
    TrackerAfterClosedForm(counter, rows[..i + 1]);
    TrackerAfterClosedForm(counter, rows);
    var pre := rows[..i + 1];
    assert pre[..i] == rows[..i];
    assert EndsAt(pre, i) == EndsAt(rows, i);
  }

  /** Every route number a taxi's labels use lies between the initial and the final
      counter, and a finished trip's number is below the final counter. */
  lemma RouteNumberBounds(counter: int, rows: seq<Reading>, i: nat)
    requires i < |rows|
    ensures var l := LabelRows(counter, rows)[i].trip;
            l.route == EmptyRoute || counter <= l.route <= TrackerAfter(counter, rows).counter
    ensures var l := LabelRows(counter, rows)[i].trip;
            l.end ==> l.route < TrackerAfter(counter, rows).counter
  {
    LabelClosedForm(counter, rows, i);
    TrackerAfterClosedForm(counter, rows);
    EndCountPrefix(rows, i);
  }

  // ---------------------------------------------------------------------------
  // Labelling a whole table, taxi by taxi
  // ---------------------------------------------------------------------------

  predicate SortedByTime(s: seq<Reading>)
  {
    forall i, j :: 0 <= i < j < |s| ==> s[i].time <= s[j].time
  }

  function InsertByTime(x: Reading, s: seq<Reading>): (r: seq<Reading>)
    requires SortedByTime(s)
    ensures SortedByTime(r)
    ensures multiset(r) == multiset(s) + multiset{x}
    ensures forall y :: y in r ==> y in s || y == x
    decreases |s|
  {
    if s == [] || x.time <= s[0].time then
      SortedHead(s);
      SortedCons(x, s);
      [x] + s
    else
      SortedHead(s);
      var r' := InsertByTime(x, s[1..]);
      SortedCons(s[0], r');
      assert s == [s[0]] + s[1..];
      [s[0]] + r'
  }

  /** The first reading of a sorted sequence is no later than any other, and the rest
      is sorted too. */
  lemma SortedHead(s: seq<Reading>)
    requires SortedByTime(s)
    ensures s != [] ==> SortedByTime(s[1..])
    ensures s != [] ==> forall y :: y in s ==> s[0].time <= y.time
  {
  }

  /** A reading no later than every reading of a sorted sequence can go in front. */
  lemma SortedCons(h: Reading, t: seq<Reading>)
    requires SortedByTime(t)
    requires forall y :: y in t ==> h.time <= y.time
    ensures SortedByTime([h] + t)
  {
    var s := [h] + t;
    forall i, j | 0 <= i < j < |s| ensures s[i].time <= s[j].time {
      assert s[j] == t[j - 1] && s[j] in t;
      if i > 0 {
        assert s[i] == t[i - 1];
      }
    }
  }

  /** `sort_values(by=['time'])`: the same readings in non-decreasing time order. */
  function SortByTime(s: seq<Reading>): (r: seq<Reading>)
    ensures SortedByTime(r)
    ensures multiset(r) == multiset(s)
    decreases |s|
  {
    if s == [] then []
    else
      assert s == [s[0]] + s[1..];
      InsertByTime(s[0], SortByTime(s[1..]))
  }

  /** The mask `df['taxi_id'] == id`. */
  function IsTaxi(id: int): Reading -> bool
  {
    (r: Reading) => r.taxiId == id
  }

  /** `df.loc[df['taxi_id'] == id]`, sorted by time when `byTime` holds. */
  function TaxiRows(df: seq<Reading>, id: int, byTime: bool): (rows: seq<Reading>)
    ensures multiset(rows) == multiset(Filter(df, IsTaxi(id)))
  {
    var rows := Filter(df, IsTaxi(id));
    if byTime then SortByTime(rows) else rows
  }

  /** The labelled rows of a table and the next unused trip number. */
  datatype Labelled = Labelled(rows: seq<RouteRow>, next: int)

  /** The outer loop of `label_trajectories`: each taxi of `ids` in turn, with the
      passenger flag reset and the trip counter carried on. */
  function LabelTaxis(df: seq<Reading>, ids: seq<int>, byTime: bool, counter: int): Labelled
    decreases |ids|
  {
    if ids == [] then Labelled([], counter)
    else
      var done := LabelTaxis(df, ids[..|ids| - 1], byTime, counter);
      var rows := TaxiRows(df, ids[|ids| - 1], byTime);
      Labelled(done.rows + LabelRows(done.next, rows), TrackerAfter(done.next, rows).counter)
  }

  method LabelTable(df: seq<Reading>, ids: seq<int>, byTime: bool, counter: int)
    returns (out: seq<RouteRow>, next: int)
    ensures Labelled(out, next) == LabelTaxis(df, ids, byTime, counter)
  {
    out, next := [], counter;
    var k := 0;
    while k < |ids|
      invariant 0 <= k <= |ids|
      invariant Labelled(out, next) == LabelTaxis(df, ids[..k], byTime, counter)
    {
      var taxiRows := TaxiRows(df, ids[k], byTime);
      var labelled, c := LabelTaxi(taxiRows, next);
      LabelTaxisStep(df, ids, byTime, counter, k);
      out, next := out + labelled, c;
      k := k + 1;
    }
    assert ids[..k] == ids;
  }

  lemma LabelTaxisStep(df: seq<Reading>, ids: seq<int>, byTime: bool, counter: int, k: nat)
    requires k < |ids|
    ensures var done := LabelTaxis(df, ids[..k], byTime, counter);
            var rows := TaxiRows(df, ids[k], byTime);
            LabelTaxis(df, ids[..k + 1], byTime, counter) ==
            Labelled(done.rows + LabelRows(done.next, rows), TrackerAfter(done.next, rows).counter)
  {
    var pre := ids[..k + 1];
    assert pre[..|pre| - 1] == ids[..k] && pre[|pre| - 1] == ids[k];
  }

  /** The first definition of `label_trajectories` (lines 39-98): every taxi, each
      taxi's readings sorted by time, trips numbered from 1. `pd.concat` of no frames
      fails, so an empty table is an error. */
  method LabelTrajectoriesAllTaxis(df: seq<Reading>) returns (r: Result<seq<RouteRow>>)
    ensures df == [] ==> r == Err(EmptyConcat)
    ensures df != [] ==> r == Ok(LabelTaxis(df, Unique(TaxiIds(df)), true, 1).rows)
  {
    var ids := Unique(TaxiIds(df));
    if ids == [] {
      return Err(EmptyConcat);
    }
    var out, _ := LabelTable(df, ids, true, 1);
    r := Ok(out);
  }

  /** How many taxis the later definitions label. */
  const TaxiLimit: nat := 10

  /** `taxi_ids[:10]`. */
  function FirstTaxis(df: seq<Reading>): (ids: seq<int>)
    ensures |ids| <= TaxiLimit && Distinct(ids)
    ensures ids == [] <==> df == []
  {
    var all := Unique(TaxiIds(df));
    assert df != [] ==> df[0].taxiId in TaxiIds(df);
    if |all| <= TaxiLimit then all else all[..TaxiLimit]
  }

  /** The second definition of `label_trajectories` (lines 214-272), which shadows
      the first: only the first ten distinct taxi ids, readings sorted by time. */
  method LabelTrajectories(df: seq<Reading>) returns (r: Result<seq<RouteRow>>)
    ensures df == [] ==> r == Err(EmptyConcat)
    ensures df != [] ==> r == Ok(LabelTaxis(df, FirstTaxis(df), true, 1).rows)
  {
    var ids := FirstTaxis(df);
    if ids == [] {
      return Err(EmptyConcat);
    }
    var out, _ := LabelTable(df, ids, true, 1);
    r := Ok(out);
  }

  lemma {:induction false} LabelRowsReadings(counter: int, rows: seq<Reading>)
    ensures Readings(LabelRows(counter, rows)) == rows
  {
    forall i | 0 <= i < |rows| ensures LabelRows(counter, rows)[i].reading == rows[i] {
      LabelClosedForm(counter, rows, i);
    }
  }

  /** Every reading of the labelled taxis appears in the output exactly as often as in
      the input, and no other reading does. */
  lemma {:induction false} LabelTaxisReadings(df: seq<Reading>, ids: seq<int>, byTime: bool, counter: int, x: Reading)
    requires Distinct(ids)
    ensures multiset(Readings(LabelTaxis(df, ids, byTime, counter).rows))[x] ==
            if x.taxiId in ids then multiset(df)[x] else 0
    decreases |ids|
  {
    if ids != [] {
      var init := ids[..|ids| - 1];
      var id := ids[|ids| - 1];
      var done := LabelTaxis(df, init, byTime, counter);
      var rows := TaxiRows(df, id, byTime);
      LabelTaxisReadings(df, init, byTime, counter, x);
      ReadingsConcat(done.rows, LabelRows(done.next, rows));
      LabelRowsReadings(done.next, rows);
      FilterCount(df, IsTaxi(id), x);
      assert ids == init + [id];
      assert id !in init;
    }
  }

  /** The first definition labels every reading of the table exactly once. */
  lemma AllTaxisLabelsEveryReading(df: seq<Reading>)
    ensures multiset(Readings(LabelTaxis(df, Unique(TaxiIds(df)), true, 1).rows)) == multiset(df)
  {
    var ids := Unique(TaxiIds(df));
    forall x ensures multiset(Readings(LabelTaxis(df, ids, true, 1).rows))[x] == multiset(df)[x] {
      LabelTaxisReadings(df, ids, true, 1, x);
      if x in df {
        var i :| 0 <= i < |df| && df[i] == x;
        assert TaxiIds(df)[i] == x.taxiId;
      }
    }
  }

  /** The effective definition labels exactly the readings of the first ten taxis. */
  lemma FirstTenTaxisOnly(df: seq<Reading>, x: Reading)
    ensures multiset(Readings(LabelTaxis(df, FirstTaxis(df), true, 1).rows))[x] ==
            if x.taxiId in FirstTaxis(df) then multiset(df)[x] else 0
  {
    LabelTaxisReadings(df, FirstTaxis(df), true, 1, x);
  }

  /** Over a whole table the counter never goes back, every route number lies between
      the first and the next unused number, no row both starts and ends a trip, and
      a finished trip's number is below the next unused number. */
  lemma {:induction false} LabelTaxisRoutes(df: seq<Reading>, ids: seq<int>, byTime: bool, counter: int)
    requires 0 <= counter
    ensures var out := LabelTaxis(df, ids, byTime, counter);
            counter <= out.next &&
            forall i :: 0 <= i < |out.rows| ==>
              !(out.rows[i].trip.start && out.rows[i].trip.end) &&
              (out.rows[i].trip.route == EmptyRoute || counter <= out.rows[i].trip.route <= out.next) &&
              (out.rows[i].trip.end ==> out.rows[i].trip.route < out.next)
    decreases |ids|
  {
    if ids != [] {
      var init := ids[..|ids| - 1];
      var done := LabelTaxis(df, init, byTime, counter);
      var rows := TaxiRows(df, ids[|ids| - 1], byTime);
      var labels := LabelRows(done.next, rows);
      LabelTaxisRoutes(df, init, byTime, counter);
      TrackerAfterClosedForm(done.next, rows);
      var out := LabelTaxis(df, ids, byTime, counter);
      assert out.rows == done.rows + labels;
      forall i | 0 <= i < |out.rows|
        ensures !(out.rows[i].trip.start && out.rows[i].trip.end)
        ensures out.rows[i].trip.route == EmptyRoute || counter <= out.rows[i].trip.route <= out.next
        ensures out.rows[i].trip.end ==> out.rows[i].trip.route < out.next
      {
        if i >= |done.rows| {
          var k := i - |done.rows|;
          assert out.rows[i] == labels[k];
          StartEndExclusive(done.next, rows, k);
          RouteNumberBounds(done.next, rows, k);
        }
      }
    }
  }

  /** The counter is not reset per taxi but the passenger flag is: when one taxi's
      readings `a` end with a trip still open, the next taxi's readings `b`, labelled
      from the counter `a` leaves, start their first trip with the open trip's number. */
  lemma OpenTripSharesNumber(counter: int, a: seq<Reading>, b: seq<Reading>, j: nat)
    requires |a| > 0 && Occupied(a[|a| - 1])
    requires j < |b| && Occupied(b[j])
    requires forall k :: 0 <= k < j ==> !Occupied(b[k])
    ensures var next := TrackerAfter(counter, a).counter;
            LabelRows(next, b)[j].trip.start &&
            LabelRows(counter, a)[|a| - 1].trip.route == LabelRows(next, b)[j].trip.route
  {
    var n := |a|;
    LabelClosedForm(counter, a, n - 1);
    TrackerAfterClosedForm(counter, a);
    assert a[..n] == a;
    assert EndCount(a) == EndCount(a[..n - 1]);
    var next := TrackerAfter(counter, a).counter;
    LabelClosedForm(next, b, j);
    NoEndsWhileEmpty(b[..j]);
    assert j > 0 ==> !Occupied(b[j - 1]);
  }

  /** Unoccupied readings finish no trip. */
  lemma {:induction false} NoEndsWhileEmpty(rows: seq<Reading>)
    requires forall k :: 0 <= k < |rows| ==> !Occupied(rows[k])
    ensures EndCount(rows) == 0
    decreases |rows|
  {
    if rows != [] {
      var init := rows[..|rows| - 1];
      assert forall k :: 0 <= k < |init| ==> init[k] == rows[k];
      NoEndsWhileEmpty(init);
    }
  }

  // ---------------------------------------------------------------------------
  // Selecting routes by where they start and end
  // ---------------------------------------------------------------------------

  /** Route `r` is a real route whose start row or end row cannot be found. */
  predicate Unlocatable(df: seq<RouteRow>, r: int)
  {
    r != EmptyRoute && (StartRow(df, r).None? || EndRow(df, r).None?)
  }

  /** Route `r` is a real route, both end rows exist, and `qualifies` holds of them. */
  function Qualifying(df: seq<RouteRow>, qualifies: (Reading, Reading) -> bool): int -> bool
  {
    (r: int) =>
      r != EmptyRoute && StartRow(df, r).Some? && EndRow(df, r).Some? &&
      qualifies(StartRow(df, r).value.reading, EndRow(df, r).value.reading)
  }

  /** The route-selection loop over `route_numbers`: route -1 is skipped; for any other
      route the first start row and the first end row are looked up, pandas raising
      when either is missing, and the route is kept when `qualifies` holds of them. */
  function ClassifyRoutes(df: seq<RouteRow>, routeNumbers: seq<int>, qualifies: (Reading, Reading) -> bool)
    : Result<seq<int>>
    decreases |routeNumbers|
  {
    if routeNumbers == [] then Ok([])
    else
      var found := ClassifyRoutes(df, routeNumbers[..|routeNumbers| - 1], qualifies);
      var r := routeNumbers[|routeNumbers| - 1];
      if found.Err? || r == EmptyRoute then found
      else if StartRow(df, r).None? || EndRow(df, r).None? then Err(MissingRow)
      else if qualifies(StartRow(df, r).value.reading, EndRow(df, r).value.reading) then Ok(found.value + [r])
      else found
  }

  /** The selection fails iff some listed route cannot be located, and otherwise keeps
      exactly the qualifying routes, in the order they are listed. */
  lemma {:induction false} ClassifyRoutesMeaning(df: seq<RouteRow>, routeNumbers: seq<int>,
                                                 qualifies: (Reading, Reading) -> bool)
    ensures ClassifyRoutes(df, routeNumbers, qualifies).Err? <==>
            exists k :: 0 <= k < |routeNumbers| && Unlocatable(df, routeNumbers[k])
    ensures ClassifyRoutes(df, routeNumbers, qualifies).Err? ==>
            ClassifyRoutes(df, routeNumbers, qualifies).error == MissingRow
    ensures ClassifyRoutes(df, routeNumbers, qualifies).Ok? ==>
            ClassifyRoutes(df, routeNumbers, qualifies).value == Filter(routeNumbers, Qualifying(df, qualifies))
    decreases |routeNumbers|
  {
    if routeNumbers != [] {
      var init := routeNumbers[..|routeNumbers| - 1];
      var r := routeNumbers[|routeNumbers| - 1];
      ClassifyRoutesMeaning(df, init, qualifies);
      assert routeNumbers == init + [r];
      if ClassifyRoutes(df, init, qualifies).Err? {
        var k :| 0 <= k < |init| && Unlocatable(df, init[k]);
        assert routeNumbers[k] == init[k];
      }
      if exists k :: 0 <= k < |routeNumbers| && Unlocatable(df, routeNumbers[k]) {
        var k :| 0 <= k < |routeNumbers| && Unlocatable(df, routeNumbers[k]);
        if k < |init| {
          assert init[k] == routeNumbers[k];
        }
      }
    }
  }

  lemma ClassifyRoutesPrefixError(df: seq<RouteRow>, routeNumbers: seq<int>, qualifies: (Reading, Reading) -> bool, n: nat)
    requires n <= |routeNumbers| && ClassifyRoutes(df, routeNumbers[..n], qualifies).Err?
    ensures ClassifyRoutes(df, routeNumbers, qualifies) == Err(MissingRow)
  {
    ClassifyRoutesMeaning(df, routeNumbers[..n], qualifies);
    ClassifyRoutesMeaning(df, routeNumbers, qualifies);
    var k :| 0 <= k < n && Unlocatable(df, routeNumbers[..n][k]);
    assert routeNumbers[k] == routeNumbers[..n][k];
  }

  /** The loop of `find_trajectories_at_airport_or_train` (and of the airport/bus
      variant), over the distinct route numbers of the labelled table. */
  method SelectRoutes(df: seq<RouteRow>, qualifies: (Reading, Reading) -> bool) returns (r: Result<seq<int>>)
    ensures r == ClassifyRoutes(df, Unique(RouteNumbers(df)), qualifies)
  {
    var routeNumbers := Unique(RouteNumbers(df));
    var relevantRouteNumbers: seq<int> := [];
    var k := 0;
    while k < |routeNumbers|
      invariant 0 <= k <= |routeNumbers|
      invariant ClassifyRoutes(df, routeNumbers[..k], qualifies) == Ok(relevantRouteNumbers)
    {
      var routeNumber := routeNumbers[k];
      ghost var pre := routeNumbers[..k + 1];
      assert pre[..|pre| - 1] == routeNumbers[..k] && pre[|pre| - 1] == routeNumber;
      if routeNumber != EmptyRoute {
        var startRow := StartRow(df, routeNumber);
        var endRow := EndRow(df, routeNumber);
        if startRow.None? || endRow.None? {
          ClassifyRoutesPrefixError(df, routeNumbers, qualifies, k + 1);
          return Err(MissingRow);
        }
        if qualifies(startRow.value.reading, endRow.value.reading) {
          relevantRouteNumbers := relevantRouteNumbers + [routeNumber];
        }
      }
      k := k + 1;
    }
    assert routeNumbers[..k] == routeNumbers;
    r := Ok(relevantRouteNumbers);
  }

  /** Selecting over the table's route numbers fails iff some route other than -1
      lacks a start row or an end row. */
  lemma SelectRoutesFails(df: seq<RouteRow>, qualifies: (Reading, Reading) -> bool)
    ensures ClassifyRoutes(df, Unique(RouteNumbers(df)), qualifies).Err? <==>
            exists x :: x in df && Unlocatable(df, x.trip.route)
  {
    var nums := RouteNumbers(df);
    var u := Unique(nums);
    ClassifyRoutesMeaning(df, u, qualifies);
    if ClassifyRoutes(df, u, qualifies).Err? {
      var k :| 0 <= k < |u| && Unlocatable(df, u[k]);
      assert u[k] in u;
      var i :| 0 <= i < |nums| && nums[i] == u[k];
      assert df[i] in df && df[i].trip.route == u[k];
    }
    if exists x :: x in df && Unlocatable(df, x.trip.route) {
      var x :| x in df && Unlocatable(df, x.trip.route);
      var i :| 0 <= i < |df| && df[i] == x;
      assert nums[i] in u;
      var k :| 0 <= k < |u| && u[k] == nums[i];
    }
  }

  /** A successful selection lists each qualifying route of the table once and
      nothing else. */
  lemma SelectRoutesContents(df: seq<RouteRow>, qualifies: (Reading, Reading) -> bool)
    requires ClassifyRoutes(df, Unique(RouteNumbers(df)), qualifies).Ok?
    ensures var rs := ClassifyRoutes(df, Unique(RouteNumbers(df)), qualifies).value;
            Distinct(rs) && forall r :: r in rs <==> r in RouteNumbers(df) && Qualifying(df, qualifies)(r)
  {
    var u := Unique(RouteNumbers(df));
    ClassifyRoutesMeaning(df, u, qualifies);
    FilterDistinct(u, Qualifying(df, qualifies));
  }

  /** ... in order of first appearance of the route numbers in the table. */
  lemma SelectRoutesOrder(df: seq<RouteRow>, qualifies: (Reading, Reading) -> bool, i: nat, j: nat)
    requires ClassifyRoutes(df, Unique(RouteNumbers(df)), qualifies).Ok?
    requires i < j < |ClassifyRoutes(df, Unique(RouteNumbers(df)), qualifies).value|
    ensures var rs := ClassifyRoutes(df, Unique(RouteNumbers(df)), qualifies).value;
            rs[i] in RouteNumbers(df) && rs[j] in RouteNumbers(df) &&
            IndexOf(RouteNumbers(df), rs[i]) < IndexOf(RouteNumbers(df), rs[j])
  {
    var nums := RouteNumbers(df);
    var u := Unique(nums);
    ClassifyRoutesMeaning(df, u, qualifies);
    var f := Filter(u, Qualifying(df, qualifies));
    FilterOrder(u, Qualifying(df, qualifies), i, j);
    UniqueFirstAppearance(nums, IndexOf(u, f[i]), IndexOf(u, f[j]));
  }

  /** `find_trajectories_at_airport_or_train`'s test: the trip starts near the airport
      or near the bus station and ends near the train station. */
  predicate FromAirportOrBusToTrain(start: Reading, end: Reading)
  {
    if NearAirport(start.lat, start.long) && NearTrainStation(end.lat, end.long) then true
    else NearBusStation(start.lat, start.long) && NearTrainStation(end.lat, end.long)
  }

  method FindTrajectoriesAtAirportOrTrain(df: seq<RouteRow>) returns (r: Result<seq<int>>)
    ensures r == ClassifyRoutes(df, Unique(RouteNumbers(df)), FromAirportOrBusToTrain)
  {
    r := SelectRoutes(df, FromAirportOrBusToTrain);
  }

  /** Route `r` is returned iff it is not -1, its first end row is in the train box,
      and its first start row is in the airport box or the bus box. */
  lemma AirportOrTrainSelection(df: seq<RouteRow>, r: int)
    requires ClassifyRoutes(df, Unique(RouteNumbers(df)), FromAirportOrBusToTrain).Ok?
    ensures var rs := ClassifyRoutes(df, Unique(RouteNumbers(df)), FromAirportOrBusToTrain).value;
            r in rs <==>
              r in RouteNumbers(df) && r != EmptyRoute && StartRow(df, r).Some? && EndRow(df, r).Some? &&
              NearTrainStation(EndRow(df, r).value.reading.lat, EndRow(df, r).value.reading.long) &&
              (NearAirport(StartRow(df, r).value.reading.lat, StartRow(df, r).value.reading.long) ||
               NearBusStation(StartRow(df, r).value.reading.lat, StartRow(df, r).value.reading.long))
  {
    SelectRoutesContents(df, FromAirportOrBusToTrain);
    var q := Qualifying(df, FromAirportOrBusToTrain);
    if StartRow(df, r).Some? && EndRow(df, r).Some? {
      var st := StartRow(df, r).value.reading;
      var en := EndRow(df, r).value.reading;
      assert q(r) <==> r != EmptyRoute && FromAirportOrBusToTrain(st, en);
    }
  }

  // ---------------------------------------------------------------------------
  // Airport and train station readings
  // ---------------------------------------------------------------------------

  /** `filter_data_by_gps` of this script: the readings inside the airport box written
      into it (which is not `near_airport`'s box), with a passenger when `withPass`. */
  function FilterDataByGps(df: seq<Reading>, withPass: bool): (r: seq<Reading>)
    ensures forall x :: x in r <==>
              x in df && 22.606742 <= x.lat <= 22.627078 && 113.804928 <= x.long <= 113.827262 &&
              (withPass ==> x.occupancy == 1)
  {
    var nearLat := Filter(df, TrainRoutes.LatBetween(22.606742, 22.627078));
    var nearAirport := Filter(nearLat, TrainRoutes.LongBetween(113.804928, 113.827262));
    if withPass then Filter(nearAirport, TrainRoutes.HasPassenger()) else nearAirport
  }

  /** `filter_data_by_train_gps`: the same selection in the train station box. */
  function FilterDataByTrainGps(df: seq<Reading>, withPass: bool): (r: seq<Reading>)
    ensures forall x :: x in r <==>
              x in df && 22.605502 <= x.lat <= 22.613580 && 114.023724 <= x.long <= 114.034568 &&
              (withPass ==> x.occupancy == 1)
  {
    var nearLat := Filter(df, TrainRoutes.LatBetween(22.605502, 22.613580));
    var nearStation := Filter(nearLat, TrainRoutes.LongBetween(114.023724, 114.034568));
    if withPass then Filter(nearStation, TrainRoutes.HasPassenger()) else nearStation
  }

  /** Both filters are the parameterised `filter_data_by_gps` of
      find_train_to_train_routes.py with their boxes filled in, so they keep the rows'
      order too; the train box is the one the later script uses for the north station. */
  lemma FixedBoxFilters(df: seq<Reading>, withPass: bool)
    ensures FilterDataByGps(df, withPass) ==
            TrainRoutes.FilterByGps(df, 22.606742, 22.627078, 113.804928, 113.827262, withPass)
    ensures FilterDataByTrainGps(df, withPass) ==
            TrainRoutes.FilterByGps(df, 22.605502, 22.613580, 114.023724, 114.034568, withPass)
    ensures FilterDataByTrainGps(df, true) == TrainRoutes.NearNorthTrain(df)
  {
  }

  /** `get_taxi_data_near_airport_data`: every reading of the full table whose taxi
      appears among the airport readings. */
  function GetTaxiDataNearAirportData(nearAirport: seq<Reading>, fullDf: seq<Reading>): (r: seq<Reading>)
    ensures forall x :: x in r <==> x in fullDf && exists y :: y in nearAirport && y.taxiId == x.taxiId
  {
    var taxiIds := Unique(TaxiIds(nearAirport));
    assert forall x: Reading :: x.taxiId in taxiIds <==> exists y :: y in nearAirport && y.taxiId == x.taxiId by {
      forall x: Reading ensures x.taxiId in taxiIds <==> exists y :: y in nearAirport && y.taxiId == x.taxiId {
        if x.taxiId in TaxiIds(nearAirport) {
          var i :| 0 <= i < |nearAirport| && TaxiIds(nearAirport)[i] == x.taxiId;
          assert nearAirport[i] in nearAirport;
        }
        if y :| y in nearAirport && y.taxiId == x.taxiId {
          var i :| 0 <= i < |nearAirport| && nearAirport[i] == y;
          assert TaxiIds(nearAirport)[i] == x.taxiId;
        }
      }
    }
    TrainRoutes.RowsWithKeyIn(fullDf, TaxiId, taxiIds)
  }
}
