/** src/realtime.ts: the shape check on a fetched GTFS-Realtime payload and the
    outcome of one refresh. The HTTP request, `resp.json()` and the snapshot write are
    effects; the model takes what the request produced as an input and reports the
    request it would issue and the snapshot it would write. */
module Realtime {
  import opened Wrappers
  import opened Types

  /** A value produced by `JSON.parse`. Objects keep their members in source order. */
  datatype Json =
    | JNull
    | JBool(b: bool)
    | JNumber(n: int)
    | JString(s: string)
    | JArray(items: seq<Json>)
    | JObject(members: seq<(string, Json)>)

  /** Property access on a parsed object: a repeated key takes its last value. */
  function Member(members: seq<(string, Json)>, name: string): Option<Json> {
    if members == [] then None
    else if members[|members| - 1].0 == name then Some(members[|members| - 1].1)
    else Member(members[..|members| - 1], name)
  }

  /** `value.name`, or `undefined`. */
  function Prop(value: Json, name: string): Option<Json> {
    if value.JObject? then Member(value.members, name) else None
  }

  /** `isPlainObject`: on parsed JSON, exactly the objects (not arrays, not null). */
  predicate IsPlainObject(v: Option<Json>) {
    v.Some? && v.value.JObject?
  }

  predicate IsArray(v: Option<Json>) {
    v.Some? && v.value.JArray?
  }

  /** `isGtfsRealtimeFeed`: a plain object whose `header` is a plain object and whose
      `entity` is an array. The entities themselves are not inspected. */
  predicate IsGtfsRealtimeFeed(value: Json): (b: bool)
    ensures b ==> value.JObject?
    ensures b <==> (exists h, items :: Prop(value, "header") == Some(JObject(h))
                                     && Prop(value, "entity") == Some(JArray(items)))
  {
    IsPlainObject(Some(value)) && IsPlainObject(Prop(value, "header")) && IsArray(Prop(value, "entity"))
  }

  /** `isNil`: `null` or `undefined`. */
  predicate IsNil(v: Json) {
    v.JNull?
  }

  // ---------------------------------------------------------------------------
  // The JSON form of a typed feed (what `JSON.stringify` writes; absent optional
  // fields are omitted).

  function Field(name: string, v: Option<Json>): seq<(string, Json)> {
    if v.Some? then [(name, v.value)] else []
  }

  function NumberOf(n: Option<int>): Option<Json> {
    if n.Some? then Some(JNumber(n.value)) else None
  }

  function RelationshipJson(r: ScheduleRelationship): Json {
    match r
    case Scheduled => JString("SCHEDULED")
    case Skipped => JString("SKIPPED")
    case NoData => JString("NO_DATA")
  }

  function EventJson(e: StopTimeEvent): Json {
    JObject(Field("delay", NumberOf(e.delay)) + Field("time", NumberOf(e.time)) + Field("uncertainty", NumberOf(e.uncertainty)))
  }

  function UpdateJson(u: StopTimeUpdate): Json {
    JObject(
      Field("stop_sequence", NumberOf(u.stopSequence))
      + Field("arrival", if u.arrival.Some? then Some(EventJson(u.arrival.value)) else None)
      + Field("departure", if u.departure.Some? then Some(EventJson(u.departure.value)) else None)
      + Field("stop_id", if u.stopId.Some? then Some(JString(u.stopId.value)) else None)
      + [("schedule_relationship", RelationshipJson(u.scheduleRelationship))])
  }

  function UpdatesJson(us: seq<StopTimeUpdate>): seq<Json> {
    if us == [] then [] else [UpdateJson(us[0])] + UpdatesJson(us[1..])
  }

  function TripJson(t: Trip): Json {
    JObject([
      ("trip_id", JString(t.tripId)),
      ("start_time", JString(t.startTime)),
      ("start_date", JString(t.startDate)),
      ("schedule_relationship", RelationshipJson(t.scheduleRelationship)),
      ("route_id", JString(t.routeId))])
  }

  function TripUpdateJson(tu: TripUpdate): Json {
    JObject([("trip", TripJson(tu.trip))]
      + Field("stop_time_update", if tu.stopTimeUpdate.Some? then Some(JArray(UpdatesJson(tu.stopTimeUpdate.value))) else None))
  }

  function EntityJson(en: Entity): Json {
    JObject(
      Field("id", if en.id.Some? then Some(JString(en.id.value)) else None)
      + Field("trip_update", if en.tripUpdate.Some? then Some(TripUpdateJson(en.tripUpdate.value)) else None))
  }

  function EntitiesJson(es: seq<Entity>): seq<Json> {
    if es == [] then [] else [EntityJson(es[0])] + EntitiesJson(es[1..])
  }

  function FeedJson(f: Feed): Json {
    JObject([
      ("header", JObject([
        ("gtfs_realtime_version", JString(f.header.gtfsRealtimeVersion)),
        ("timestamp", JNumber(f.header.timestamp))])),
      ("entity", JArray(EntitiesJson(f.entity)))])
  }

  /** Every well-typed feed, written out as JSON, passes the shape check. */
  lemma EncodedFeedPassesShapeCheck(f: Feed)
    ensures IsGtfsRealtimeFeed(FeedJson(f))
  {
    var ms := FeedJson(f).members;
    assert "entity" != "header" by {
      assert "entity"[0] != "header"[0];
    }
    assert Member(ms, "header") == Member(ms[..1], "header");
    assert Member(ms[..1], "header") == Some(ms[0].1);
  }

  /** Only the top-level `header` and `entity` members decide the verdict: whatever
      the entity array holds, and whatever other members the object has. */
  lemma ShapeCheckIgnoresEntityContents(members: seq<(string, Json)>, items: seq<Json>, others: seq<(string, Json)>)
    requires IsPlainObject(Member(members, "header"))
    requires forall i :: 0 <= i < |others| ==> others[i].0 != "header" && others[i].0 != "entity"
    ensures IsGtfsRealtimeFeed(JObject(members + [("entity", JArray(items))] + others))
  {
    MemberSkipsOthers(members + [("entity", JArray(items))], others, "entity");
    MemberSkipsOthers(members + [("entity", JArray(items))], others, "header");
    var withEntity := members + [("entity", JArray(items))];
    assert withEntity[..|withEntity| - 1] == members;
    assert "entity" != "header" by {
      assert "entity"[0] != "header"[0];
    }
  }

  lemma {:induction false} MemberSkipsOthers(members: seq<(string, Json)>, others: seq<(string, Json)>, name: string)
    requires forall i :: 0 <= i < |others| ==> others[i].0 != name
    ensures Member(members + others, name) == Member(members, name)
  {
    if others != [] {
      var init := others[..|others| - 1];
      MemberSkipsOthers(members, init, name);
      assert (members + others)[..|members + others| - 1] == members + init;
    } else {
      assert members + others == members;
    }
  }

  // ---------------------------------------------------------------------------
  // One refresh

  const FeedUrl: string := "https://api.nationaltransport.ie/gtfsr/v2/gtfsr?format=json"

  /** A GET request carrying the API key in the `x-api-key` header. */
  datatype Request = Request(url: string, apiKey: string)

  /** What the request produced: no response at all, or a response whose body did
      or did not parse as JSON. */
  datatype Fetched =
    | TransportFailure(reason: string)
    | Received(ok: bool, status: int, body: Option<Json>)

  datatype RefreshError =
    | MissingApiKey
    | TransportError(reason: string)
    | FetchFailed
    | BodyNotJson
    | UnknownFormat

  function Message(e: RefreshError): string {
    match e
    case MissingApiKey => "NTA_API_KEY is not set"
    case TransportError(reason) => reason
    case FetchFailed => "Error fetching Real-time data"
    case BodyNotJson => "invalid json response body"
    case UnknownFormat => "Unknown data format returned"
  }

  /** The request issued (if any), how the promise settles, and the snapshot written (if any). */
  datatype Refresh = Refresh(request: Option<Request>, result: Result<Json, RefreshError>, snapshot: Option<Json>)

  /** `refreshRealtimeData`, given the API key from the environment and what the
      request produced. */
  function RefreshRealtimeData(apiKey: Option<string>, fetched: Fetched): (r: Refresh)
    ensures r.request.Some? <==> apiKey.Some?
    ensures r.request.Some? ==> r.request.value == Request(FeedUrl, apiKey.value)
    ensures apiKey.None? ==> r.result == Failure(MissingApiKey)
    ensures r.result.Success? ==>
      && IsGtfsRealtimeFeed(r.result.value)
      && fetched.Received? && fetched.ok && fetched.body == Some(r.result.value)
    ensures r.snapshot.Some? <==> r.result.Success?
    ensures r.snapshot.Some? ==> r.snapshot.value == r.result.value
  {
    if apiKey.None? then Refresh(None, Failure(MissingApiKey), None)
    else
      var request := Some(Request(FeedUrl, apiKey.value));
      match fetched
      case TransportFailure(reason) => Refresh(request, Failure(TransportError(reason)), None)
      case Received(ok, _, body) =>
        if !ok then Refresh(request, Failure(FetchFailed), None)
        else if body.None? then Refresh(request, Failure(BodyNotJson), None)
        else if IsGtfsRealtimeFeed(body.value) then Refresh(request, Success(body.value), Some(body.value))
        else Refresh(request, Failure(UnknownFormat), None)
  }

  /** A response that is not ok never yields a feed. */
  lemma NotOkIsRejected(apiKey: string, status: int, body: Option<Json>)
    ensures RefreshRealtimeData(Some(apiKey), Received(false, status, body)).result == Failure(FetchFailed)
  {
  }

  /** An ok response settles with the body unchanged exactly when the body passes the
      shape check, and with "Unknown data format returned" when it does not. */
  lemma OkBodyDecidedByShape(apiKey: string, status: int, body: Json)
    ensures var r := RefreshRealtimeData(Some(apiKey), Received(true, status, Some(body)));
      && (r.result == Success(body) <==> IsGtfsRealtimeFeed(body))
      && (r.result == Failure(UnknownFormat) <==> !IsGtfsRealtimeFeed(body))
  {
  }

  /** A payload without an `entity` member is refused and nothing is written. */
  lemma MissingEntityIsRefused(apiKey: string, status: int, members: seq<(string, Json)>)
    requires Member(members, "entity").None?
    ensures var r := RefreshRealtimeData(Some(apiKey), Received(true, status, Some(JObject(members))));
      r.result == Failure(UnknownFormat) && r.snapshot.None?
  {
  }
}
