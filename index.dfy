/** src/index.ts: the realtime store, the refresh that overwrites it, and the route
    lookup table keyed by route short name. */
module Index {
  import opened Wrappers
  import opened Types
  import Records
  import Realtime

  /** The `realtimeData` setting of the application, read and written through the
      store's `get` and `set`. It holds `undefined` until the first `set`. */
  class RealtimeStore {
    var realtimeData: Option<Realtime.Json>

    constructor ()
      ensures realtimeData == None
    {
      realtimeData := None;
    }

    method Set(data: Realtime.Json)
      modifies this
      ensures realtimeData == Some(data)
    {
      realtimeData := Some(data);
    }

    method Get() returns (data: Option<Realtime.Json>)
      ensures data == realtimeData
    {
      data := realtimeData;
    }
  }

  /** `fetchRealtimeData`: store the refreshed feed when the refresh resolves to a
      non-nil value; log a rejection and swallow it. */
  method FetchRealtimeData(store: RealtimeStore, refreshed: Realtime.Refresh) returns (logged: Option<string>)
    modifies store
    ensures store.realtimeData ==
      if refreshed.result.Success? && !Realtime.IsNil(refreshed.result.value) then Some(refreshed.result.value)
      else old(store.realtimeData)
    ensures logged.Some? <==> refreshed.result.Failure?
    ensures logged.Some? ==> logged.value == "refreshRealtimeData() failed: " + Realtime.Message(refreshed.result.error)
  {
    match refreshed.result
    case Success(result) =>
      if !Realtime.IsNil(result) {
        store.Set(result);
      }
      logged := None;
    case Failure(e) =>
      logged := Some("refreshRealtimeData() failed: " + Realtime.Message(e));
  }

  /** A refresh stores exactly the feeds it validated: a resolved refresh carries a
      value that passed the shape check, which is never nil, so the nil guard never
      keeps a resolved value out of the store. */
  lemma ResolvedRefreshIsStored(apiKey: Option<string>, fetched: Realtime.Fetched)
    ensures var r := Realtime.RefreshRealtimeData(apiKey, fetched);
      r.result.Success? ==> !Realtime.IsNil(r.result.value) && Realtime.IsGtfsRealtimeFeed(r.result.value)
  {
  }

  /** Two successive refreshes, the second refused: the store keeps the first feed. */
  method RefreshTwice(store: RealtimeStore, first: Realtime.Refresh, second: Realtime.Refresh)
    returns (current: Option<Realtime.Json>)
    requires first.result.Success? && Realtime.IsGtfsRealtimeFeed(first.result.value)
    requires second.result.Failure?
    modifies store
    ensures current == Some(first.result.value)
  {
    var _ := FetchRealtimeData(store, first);
    var _ := FetchRealtimeData(store, second);
    current := store.Get();
  }

  // ---------------------------------------------------------------------------
  // Route lookup table

  function EntryOf(route: RoutesQueryResult): AppCacheRouteEntry {
    AppCacheRouteEntry(route.routeId, route.agencyName)
  }

  /** The object the reduce at `initRouteLookupCache` builds. */
  function RouteTable(routes: seq<RoutesQueryResult>): Records.Object<AppCacheRouteEntry> {
    if routes == [] then []
    else
      var last := routes[|routes| - 1];
      Records.Assign(RouteTable(routes[..|routes| - 1]), last.routeShortName, EntryOf(last))
  }

  /** The reduce of `initRouteLookupCache`: `acc[route_short_name] = {id, agency}`
      for each route in turn. */
  method InitRouteLookupCache(routes: seq<RoutesQueryResult>) returns (acc: Records.Object<AppCacheRouteEntry>)
    ensures acc == RouteTable(routes)
  {
    acc := [];
    var i := 0;
    while i < |routes|
      invariant 0 <= i <= |routes|
      invariant acc == RouteTable(routes[..i])
    {
      assert routes[..i + 1][..i] == routes[..i];
      acc := Records.Assign(acc, routes[i].routeShortName, EntryOf(routes[i]));
      i := i + 1;
    }
    assert routes[..i] == routes;
  }

  function ShortNames(routes: seq<RoutesQueryResult>): set<string> {
    set i | 0 <= i < |routes| :: routes[i].routeShortName
  }

  lemma ShortNamesSnoc(routes: seq<RoutesQueryResult>)
    requires routes != []
    ensures ShortNames(routes) == ShortNames(routes[..|routes| - 1]) + {routes[|routes| - 1].routeShortName}
  {
    var init := routes[..|routes| - 1];
    forall n | n in ShortNames(routes) ensures n in ShortNames(init) + {routes[|routes| - 1].routeShortName} {
      var i :| 0 <= i < |routes| && routes[i].routeShortName == n;
      if i < |init| { assert init[i] == routes[i]; }
    }
    forall n | n in ShortNames(init) ensures n in ShortNames(routes) {
      var i :| 0 <= i < |init| && init[i].routeShortName == n;
      assert routes[i] == init[i];
    }
  }

  /** The table's keys are exactly the short names seen, each once. */
  lemma {:induction false} RouteTableKeys(routes: seq<RoutesQueryResult>)
    ensures Records.DistinctKeys(RouteTable(routes))
    ensures Records.Keys(RouteTable(routes)) == ShortNames(routes)
  {
    if routes != [] {
      RouteTableKeys(routes[..|routes| - 1]);
      ShortNamesSnoc(routes);
    }
  }

  /** No later route carries the short name of route `i`. */
  predicate LastWithItsName(routes: seq<RoutesQueryResult>, i: int)
    requires 0 <= i < |routes|
  {
    forall j :: i < j < |routes| ==> routes[j].routeShortName != routes[i].routeShortName
  }

  /** A short name maps to the entry of the last route that carries it. */
  lemma {:induction false} RouteTableLastWriteWins(routes: seq<RoutesQueryResult>)
    ensures forall i :: 0 <= i < |routes| && LastWithItsName(routes, i) ==>
                          Records.Get(RouteTable(routes), routes[i].routeShortName) == Some(EntryOf(routes[i]))
  {
    forall i | 0 <= i < |routes| && LastWithItsName(routes, i)
      ensures Records.Get(RouteTable(routes), routes[i].routeShortName) == Some(EntryOf(routes[i]))
    {
      LastWriteWinsAt(routes, i);
    }
  }

  /** Route `i`, if no later route shares its short name, is the one the table keeps. */
  lemma {:induction false} LastWriteWinsAt(routes: seq<RoutesQueryResult>, i: int)
    requires 0 <= i < |routes| && LastWithItsName(routes, i)
    ensures Records.Get(RouteTable(routes), routes[i].routeShortName) == Some(EntryOf(routes[i]))
  {
    var init := routes[..|routes| - 1];
    if i < |init| {
      assert init[i] == routes[i];
      forall j | i < j < |init| ensures init[j].routeShortName != init[i].routeShortName {
        assert init[j] == routes[j];
      }
      LastWriteWinsAt(init, i);
      assert routes[|routes| - 1].routeShortName != routes[i].routeShortName;
    }
  }
}
