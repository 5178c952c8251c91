/** The records of src/types.ts. Optional TypeScript fields (`x?: T`) become `Option<T>`. */
module Types {
  import opened Wrappers

  datatype ScheduleRelationship = Scheduled | Skipped | NoData

  /** A GTFS-Realtime stop time event; `delay` is in seconds. */
  datatype StopTimeEvent = StopTimeEvent(delay: Option<int>, time: Option<int>, uncertainty: Option<int>)

  datatype StopTimeUpdate = StopTimeUpdate(
    stopSequence: Option<int>,
    arrival: Option<StopTimeEvent>,
    departure: Option<StopTimeEvent>,
    stopId: Option<string>,
    scheduleRelationship: ScheduleRelationship)

  datatype Trip = Trip(
    tripId: string,
    startTime: string,
    startDate: string,
    scheduleRelationship: ScheduleRelationship,
    routeId: string)

  datatype TripUpdate = TripUpdate(trip: Trip, stopTimeUpdate: Option<seq<StopTimeUpdate>>)

  datatype Entity = Entity(id: Option<string>, tripUpdate: Option<TripUpdate>)

  datatype FeedHeader = FeedHeader(gtfsRealtimeVersion: string, timestamp: int)

  /** A GTFS-Realtime TripUpdates feed, as the service reads it. */
  datatype Feed = Feed(header: FeedHeader, entity: seq<Entity>)

  /** A local wall-clock time "HH:MM:SS" from the timetable; GTFS allows hours past 23. */
  datatype ClockTime = ClockTime(hour: nat, minute: nat, second: nat)

  /** One scheduled departure of a trip at a stop, as the timetable query returns it. */
  datatype StopTimesQueryResult = StopTimesQueryResult(
    scheduledDepartureTime: ClockTime,
    stopName: string,
    routeId: int,
    stopId: string,
    tripId: string,
    tripHeadsign: string,
    serviceId: string,
    stopSequence: int)

  /** One departure as the API returns it. */
  datatype StopTime = StopTime(
    scheduledDepartureTime: ClockTime,
    departureMins: int,
    tripId: string,
    realtimeOffset: Option<int>)

  datatype StopTimesApiResult = StopTimesApiResult(
    stopName: string,
    routeId: int,
    stopSequence: int,
    stopId: string,
    serviceId: string,
    times: seq<StopTime>)

  datatype StopsByRouteQueryResult = StopsByRouteQueryResult(
    stopId: string,
    stopName: string,
    stopLat: real,
    stopLon: real,
    stopSequence: int,
    directionId: int)

  datatype StopsByRouteApiResult = StopsByRouteApiResult(
    routeId: string,
    routeShortName: string,
    directions: seq<seq<StopsByRouteQueryResult>>)

  datatype RoutesQueryResult = RoutesQueryResult(routeId: string, routeShortName: string, agencyName: string)

  /** A value of the route lookup table, keyed by route short name. */
  datatype AppCacheRouteEntry = AppCacheRouteEntry(id: string, agency: string)

  datatype GtfsConfig = GtfsConfig(agencies: seq<string>, sqlitePath: string, verbose: bool)

  /** A JavaScript TypeError raised at run time (a property read on `undefined`). */
  datatype Fault = TypeError(message: string)
}
