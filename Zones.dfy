/** The fixed geographic zones of Shenzhen the scripts test readings against.
    `near_airport`, `near_bus_station` and `near_train_station` are defined with the
    same constants in find_relevant_trajectories.py, find_relevant_trajectories_three.py
    and Notebooks/new_data.py; they are modelled once here. */
module Zones {

  /** A closed latitude/longitude box. */
  predicate InBox(lat: real, long: real, minLat: real, maxLat: real, minLong: real, maxLong: real)
  {
    minLat <= lat <= maxLat && minLong <= long <= maxLong
  }

  /** Bao'an airport. */
  predicate NearAirport(lat: real, long: real)
  {
    22.605770 <= lat <= 22.667089 && 113.784647 <= long <= 113.837340
  }

  predicate NearBusStation(lat: real, long: real)
  {
    22.567210 <= lat <= 22.568807 && 114.089676 <= long <= 114.091320
  }

  /** The north train station. */
  predicate NearTrainStation(lat: real, long: real)
  {
    22.604998 <= lat <= 22.614221 && 114.021111 <= long <= 114.034778
  }

  /** The three zones are pairwise disjoint, so no point is near two of them. */
  lemma ZonesDisjoint(lat: real, long: real)
    ensures !(NearAirport(lat, long) && NearBusStation(lat, long))
    ensures !(NearAirport(lat, long) && NearTrainStation(lat, long))
    ensures !(NearBusStation(lat, long) && NearTrainStation(lat, long))
  {
  }

  /** The zones are closed boxes: their corners belong to them. */
  lemma ZonesAreClosed()
    ensures NearAirport(22.605770, 113.784647) && NearAirport(22.667089, 113.837340)
    ensures NearBusStation(22.567210, 114.089676) && NearBusStation(22.568807, 114.091320)
    ensures NearTrainStation(22.604998, 114.021111) && NearTrainStation(22.614221, 114.034778)
  {
  }
}
