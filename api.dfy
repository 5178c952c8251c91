/** src/api.ts: the data transforms inside the `/getStopsByRoute`,
    `/getRealTimeSummary` and `/getRoutes` handlers. Timetable queries are inputs. */
module Api {
  import opened Wrappers
  import opened Types
  import Records
  import Sorting
  import Utilities
  import Index

  // ---------------------------------------------------------------------------
  // /getStopsByRoute

  function StopSequenceOf(stop: StopsByRouteQueryResult): int {
    stop.stopSequence
  }

  /** The stops in direction `d`, in query order. */
  function InDirection(stops: seq<StopsByRouteQueryResult>, d: int): seq<StopsByRouteQueryResult> {
    if stops == [] then []
    else InDirection(stops[..|stops| - 1], d) + (if stops[|stops| - 1].directionId == d then [stops[|stops| - 1]] else [])
  }

  /** Every stop's direction indexes one of the two accumulator lists. */
  predicate KnownDirections(stops: seq<StopsByRouteQueryResult>) {
    forall i :: 0 <= i < |stops| ==> 0 <= stops[i].directionId <= 1
  }

  /** The reduce `acc[stop.direction_id].push(stop)` starting from `[[], []]`; any other
      direction reads `undefined`, and calling `push` on it throws. */
  method GroupByDirection(stops: seq<StopsByRouteQueryResult>) returns (r: Result<seq<seq<StopsByRouteQueryResult>>, Fault>)
    ensures r.Success? <==> KnownDirections(stops)
    ensures r.Success? ==> r.value == [InDirection(stops, 0), InDirection(stops, 1)]
  {
    var acc: seq<seq<StopsByRouteQueryResult>> := [[], []];
    var i := 0;
    while i < |stops|
      invariant 0 <= i <= |stops|
      invariant forall j :: 0 <= j < i ==> 0 <= stops[j].directionId <= 1
      invariant acc == [InDirection(stops[..i], 0), InDirection(stops[..i], 1)]
    {
      var d := stops[i].directionId;
      if d < 0 || d > 1 {
        return Failure(TypeError("Cannot read properties of undefined (reading 'push')"));
      }
      InDirectionStep(stops, i, 0);
      InDirectionStep(stops, i, 1);
      if d == 0 {
        assert InDirection(stops[..i + 1], 0) == acc[0] + [stops[i]];
        assert InDirection(stops[..i + 1], 1) == acc[1];
        acc := [acc[0] + [stops[i]], acc[1]];
      } else {
        assert InDirection(stops[..i + 1], 0) == acc[0];
        assert InDirection(stops[..i + 1], 1) == acc[1] + [stops[i]];
        acc := [acc[0], acc[1] + [stops[i]]];
      }
      i := i + 1;
    }
    assert stops[..i] == stops;
    r := Success(acc);
  }

  lemma InDirectionStep(stops: seq<StopsByRouteQueryResult>, i: int, d: int)
    requires 0 <= i < |stops|
    ensures InDirection(stops[..i + 1], d) ==
      InDirection(stops[..i], d) + (if stops[i].directionId == d then [stops[i]] else [])
  {
    assert stops[..i + 1][..i] == stops[..i];
  }

  lemma {:induction false} InDirectionMembership(stops: seq<StopsByRouteQueryResult>, d: int)
    ensures forall x :: x in InDirection(stops, d) <==> x in stops && x.directionId == d
  {
    if stops != [] {
      InDirectionMembership(stops[..|stops| - 1], d);
      assert stops == stops[..|stops| - 1] + [stops[|stops| - 1]];
    }
  }

  lemma KnownDirectionsPrefix(stops: seq<StopsByRouteQueryResult>, n: int)
    requires KnownDirections(stops) && 0 <= n <= |stops|
    ensures KnownDirections(stops[..n])
  {
    forall i | 0 <= i < n ensures 0 <= stops[..n][i].directionId <= 1 {
      assert stops[..n][i] == stops[i];
    }
  }

  lemma MultisetOfSnoc<T>(s: seq<T>)
    requires s != []
    ensures multiset(s) == multiset(s[..|s| - 1]) + multiset{s[|s| - 1]}
  {
    assert s == s[..|s| - 1] + [s[|s| - 1]];
  }

  /** With known directions, the two lists split the stops: nothing lost, nothing repeated. */
  lemma {:induction false} InDirectionPartition(stops: seq<StopsByRouteQueryResult>)
    requires KnownDirections(stops)
    ensures multiset(InDirection(stops, 0)) + multiset(InDirection(stops, 1)) == multiset(stops)
  {
    if stops != [] {
      var n := |stops| - 1;
      KnownDirectionsPrefix(stops, n);
      InDirectionPartition(stops[..n]);
      var init, last := stops[..n], stops[n];
      InDirectionStep(stops, n, 0);
      InDirectionStep(stops, n, 1);
      assert stops[..n + 1] == stops;
      MultisetOfSnoc(stops);
      if last.directionId == 0 {
        assert InDirection(stops, 0) == InDirection(init, 0) + [last];
        assert InDirection(stops, 1) == InDirection(init, 1);
      } else {
        assert InDirection(stops, 0) == InDirection(init, 0);
        assert InDirection(stops, 1) == InDirection(init, 1) + [last];
      }
    }
  }

  /** The response's `directions`: each list sorted by `stop_sequence`. */
  function Directions(stops: seq<StopsByRouteQueryResult>): (r: seq<seq<StopsByRouteQueryResult>>)
    ensures |r| == 2
    ensures Sorting.SortedBy(r[0], StopSequenceOf) && Sorting.SortedBy(r[1], StopSequenceOf)
    ensures multiset(r[0]) == multiset(InDirection(stops, 0))
    ensures multiset(r[1]) == multiset(InDirection(stops, 1))
  {
    var toward := Sorting.SortBy(InDirection(stops, 0), StopSequenceOf);
    var back := Sorting.SortBy(InDirection(stops, 1), StopSequenceOf);
    Sorting.SortByIsStableSort(InDirection(stops, 0), StopSequenceOf);
    Sorting.SortByIsStableSort(InDirection(stops, 1), StopSequenceOf);
    [toward, back]
  }

  /** List `d` of the response holds the stops of direction `d`, sorted ascending by
      `stop_sequence`, stops with equal sequence numbers in query order. */
  lemma DirectionSortedBySequence(stops: seq<StopsByRouteQueryResult>, d: int)
    requires 0 <= d < 2
    ensures Sorting.SortedBy(Directions(stops)[d], StopSequenceOf)
    ensures multiset(Directions(stops)[d]) == multiset(InDirection(stops, d))
    ensures forall x :: x in Directions(stops)[d] <==> x in stops && x.directionId == d
    ensures forall k :: Sorting.WithKey(Directions(stops)[d], StopSequenceOf, k) ==
                        Sorting.WithKey(InDirection(stops, d), StopSequenceOf, k)
  {
    var sorted := Directions(stops)[d];
    Sorting.SortByIsStableSort(InDirection(stops, d), StopSequenceOf);
    InDirectionMembership(stops, d);
    forall x ensures x in sorted <==> x in InDirection(stops, d) {
      assert x in sorted <==> x in multiset(sorted);
    }
  }

  /** With known directions, the two lists together hold every stop exactly once. */
  lemma DirectionsPartitionStops(stops: seq<StopsByRouteQueryResult>)
    requires KnownDirections(stops)
    ensures |Directions(stops)| == 2
    ensures multiset(Directions(stops)[0]) + multiset(Directions(stops)[1]) == multiset(stops)
    ensures |Directions(stops)[0]| + |Directions(stops)[1]| == |stops|
  {
    InDirectionPartition(stops);
    DirectionSortedBySequence(stops, 0);
    DirectionSortedBySequence(stops, 1);
    assert |multiset(Directions(stops)[0])| == |Directions(stops)[0]|;
    assert |multiset(Directions(stops)[1])| == |Directions(stops)[1]|;
    assert |multiset(stops)| == |stops|;
  }

  /** `String.prototype.toUpperCase` on the ASCII letters; every other character is
      kept as it is. */
  function UpperChar(c: char): char {
    if 'a' <= c <= 'z' then (c as int - 32) as char else c
  }

  /** `route.toUpperCase()`: the same length, each ASCII lower-case letter replaced by
      its capital. */
  function ToUpperCase(s: string): (r: string)
    ensures |r| == |s|
    ensures forall i :: 0 <= i < |s| ==> r[i] == UpperChar(s[i])
  {
    seq(|s|, i requires 0 <= i < |s| => UpperChar(s[i]))
  }

  /** `/getStopsByRoute` as written: the stops are queried under the id of the
      upper-cased short name, but the response's `route_id` looks the short name up
      as given, which throws when only its upper-cased form is a key. */
  method GetStopsByRouteAsWritten(
    table: Records.Object<AppCacheRouteEntry>, route: string, stopsOf: string -> seq<StopsByRouteQueryResult>)
    returns (r: Result<StopsByRouteApiResult, Fault>)
    ensures var id := Utilities.RouteId(table, ToUpperCase(route));
      r.Success? <==>
        id.Success? && KnownDirections(stopsOf(id.value)) && Utilities.RouteId(table, route).Success?
    ensures r.Success? ==>
      var stops := stopsOf(Utilities.RouteId(table, ToUpperCase(route)).value);
      r.value == StopsByRouteApiResult(Utilities.RouteId(table, route).value, route, Directions(stops))
  {
    var id := Utilities.RouteId(table, ToUpperCase(route));
    if id.Failure? {
      return Failure(id.error);
    }
    var grouped := GroupByDirection(stopsOf(id.value));
    if grouped.Failure? {
      return Failure(grouped.error);
    }
    var responseId := Utilities.RouteId(table, route);
    if responseId.Failure? {
      return Failure(responseId.error);
    }
    var directions := [Sorting.SortBy(grouped.value[0], StopSequenceOf), Sorting.SortBy(grouped.value[1], StopSequenceOf)];
    r := Success(StopsByRouteApiResult(responseId.value, route, directions));
  }

  /** A lower-case request for a route stored under its upper-case short name: the
      stop query's lookup succeeds, the response's lookup throws. */
  lemma LowerCaseRouteFailsAsWritten()
    ensures var table := [("39A", AppCacheRouteEntry("60-39A-b12-1", "Dublin Bus"))];
      && Utilities.RouteId(table, ToUpperCase("39a")) == Success("60-39A-b12-1")
      && Utilities.RouteId(table, "39a").Failure?
  {
    var table := [("39A", AppCacheRouteEntry("60-39A-b12-1", "Dublin Bus"))];
    assert ToUpperCase("39a") == "39A";
    assert "39a" != "39A" by {
      assert "39a"[2] != "39A"[2];
    }
    assert table[0].0 == "39A";
    assert "39a" !in Records.Keys(table);
  }

  /** The request `?route=39a` against a table holding route "39A": the handler as
      written fails after querying the stops, the corrected one answers. */
  method LowerCaseRequest() returns (asWritten: Result<StopsByRouteApiResult, Fault>, corrected: Result<StopsByRouteApiResult, Fault>)
    ensures asWritten.Failure?
    ensures corrected == Success(StopsByRouteApiResult("60-39A-b12-1", "39a", [[], []]))
  {
    var table := [("39A", AppCacheRouteEntry("60-39A-b12-1", "Dublin Bus"))];
    var noStops := (routeId: string) => [];
    LowerCaseRouteFailsAsWritten();
    assert KnownDirections(noStops("60-39A-b12-1"));
    assert Directions([]) == [[], []];
    asWritten := GetStopsByRouteAsWritten(table, "39a", noStops);
    corrected := GetStopsByRoute(table, "39a", noStops);
  }

  /** `/getStopsByRoute` with both lookups on the upper-cased short name. */
  method GetStopsByRoute(
    table: Records.Object<AppCacheRouteEntry>, route: string, stopsOf: string -> seq<StopsByRouteQueryResult>)
    returns (r: Result<StopsByRouteApiResult, Fault>)
    ensures var id := Utilities.RouteId(table, ToUpperCase(route));
      r.Success? <==> id.Success? && KnownDirections(stopsOf(id.value))
    ensures r.Success? ==>
      var id := Utilities.RouteId(table, ToUpperCase(route)).value;
      r.value == StopsByRouteApiResult(id, route, Directions(stopsOf(id)))
  {
    var id := Utilities.RouteId(table, ToUpperCase(route));
    if id.Failure? {
      return Failure(id.error);
    }
    var grouped := GroupByDirection(stopsOf(id.value));
    if grouped.Failure? {
      return Failure(grouped.error);
    }
    var directions := [Sorting.SortBy(grouped.value[0], StopSequenceOf), Sorting.SortBy(grouped.value[1], StopSequenceOf)];
    r := Success(StopsByRouteApiResult(id.value, route, directions));
  }

  // ---------------------------------------------------------------------------
  // /getRealTimeSummary

  /** An entity is listed under short name `k` when it has a trip update with stop time
      updates and the lookup maps its route id to `k`. */
  predicate ListedUnder(en: Entity, lookup: string -> Option<string>, k: string) {
    && en.tripUpdate.Some?
    && en.tripUpdate.value.stopTimeUpdate.Some?
    && lookup(en.tripUpdate.value.trip.routeId) == Some(k)
  }

  /** The trip ids listed under `k`, in feed order, repeats kept. */
  function TripsUnder(es: seq<Entity>, lookup: string -> Option<string>, k: string): seq<string> {
    if es == [] then []
    else
      var last := es[|es| - 1];
      TripsUnder(es[..|es| - 1], lookup, k) + (if ListedUnder(last, lookup, k) then [last.tripUpdate.value.trip.tripId] else [])
  }

  function NonEmpty(ts: seq<string>): Option<seq<string>> {
    if ts == [] then None else Some(ts)
  }

  /** The reduce of `/getRealTimeSummary`, with the short-name lookup as a parameter:
      `acc[k] = [...(acc[k] || []), trip_id]` for each listed entity. */
  method RealTimeSummary(es: seq<Entity>, lookup: string -> Option<string>) returns (acc: Records.Object<seq<string>>)
    ensures Records.DistinctKeys(acc)
    ensures forall k :: Records.Get(acc, k) == NonEmpty(TripsUnder(es, lookup, k))
    ensures (forall k :: TripsUnder(es, lookup, k) == []) ==> acc == []
  {
    acc := [];
    var i := 0;
    while i < |es|
      invariant 0 <= i <= |es|
      invariant Records.DistinctKeys(acc)
      invariant forall k :: Records.Get(acc, k) == NonEmpty(TripsUnder(es[..i], lookup, k))
    {
      var tripUpdate := es[i].tripUpdate;
      if tripUpdate.Some? && tripUpdate.value.stopTimeUpdate.Some? && lookup(tripUpdate.value.trip.routeId).Some? {
        var k := lookup(tripUpdate.value.trip.routeId).value;
        var updated := Records.Assign(acc, k, Records.Get(acc, k).GetOr([]) + [tripUpdate.value.trip.tripId]);
        SummaryStepListed(acc, updated, es, i, lookup, k);
        acc := updated;
      } else {
        SummaryStepUnlisted(acc, es, i, lookup);
      }
      i := i + 1;
    }
    assert es[..i] == es;
    if acc != [] {
      assert acc[0].0 in Records.Keys(acc);
      assert TripsUnder(es, lookup, acc[0].0) != [];
    }
  }

  lemma TripsUnderStep(es: seq<Entity>, i: int, lookup: string -> Option<string>)
    requires 0 <= i < |es|
    ensures forall k :: TripsUnder(es[..i + 1], lookup, k) ==
                        TripsUnder(es[..i], lookup, k) +
                        (if ListedUnder(es[i], lookup, k) then [es[i].tripUpdate.value.trip.tripId] else [])
  {
    assert es[..i + 1][..i] == es[..i];
  }

  lemma SummaryStepListed(
    acc: Records.Object<seq<string>>, acc': Records.Object<seq<string>>,
    es: seq<Entity>, i: int, lookup: string -> Option<string>, k: string)
    requires 0 <= i < |es| && ListedUnder(es[i], lookup, k)
    requires forall k' :: Records.Get(acc, k') == NonEmpty(TripsUnder(es[..i], lookup, k'))
    requires acc' == Records.Assign(acc, k, Records.Get(acc, k).GetOr([]) + [es[i].tripUpdate.value.trip.tripId])
    ensures forall k' :: Records.Get(acc', k') == NonEmpty(TripsUnder(es[..i + 1], lookup, k'))
  {
    TripsUnderStep(es, i, lookup);
    forall k' ensures Records.Get(acc', k') == NonEmpty(TripsUnder(es[..i + 1], lookup, k')) {
      if k' != k {
        assert !ListedUnder(es[i], lookup, k');
        assert TripsUnder(es[..i + 1], lookup, k') == TripsUnder(es[..i], lookup, k');
      }
    }
  }

  lemma SummaryStepUnlisted(acc: Records.Object<seq<string>>, es: seq<Entity>, i: int, lookup: string -> Option<string>)
    requires 0 <= i < |es|
    requires !(es[i].tripUpdate.Some? && es[i].tripUpdate.value.stopTimeUpdate.Some?
               && lookup(es[i].tripUpdate.value.trip.routeId).Some?)
    requires forall k' :: Records.Get(acc, k') == NonEmpty(TripsUnder(es[..i], lookup, k'))
    ensures forall k' :: Records.Get(acc, k') == NonEmpty(TripsUnder(es[..i + 1], lookup, k'))
  {
    TripsUnderStep(es, i, lookup);
    forall k' ensures TripsUnder(es[..i + 1], lookup, k') == TripsUnder(es[..i], lookup, k') {
      assert !ListedUnder(es[i], lookup, k');
    }
  }

  /** A trip id is listed under `k` exactly when some listed entity of the feed carries it. */
  lemma {:induction false} TripsUnderMembership(es: seq<Entity>, lookup: string -> Option<string>, k: string)
    ensures forall t :: t in TripsUnder(es, lookup, k) <==>
      exists en :: en in es && ListedUnder(en, lookup, k) && en.tripUpdate.value.trip.tripId == t
  {
    if es != [] {
      TripsUnderMembership(es[..|es| - 1], lookup, k);
      assert es == es[..|es| - 1] + [es[|es| - 1]];
    }
  }

  /** The lists follow feed order: the trips of an earlier part of the feed come first. */
  lemma {:induction false} TripsUnderInFeedOrder(es1: seq<Entity>, es2: seq<Entity>, lookup: string -> Option<string>, k: string)
    ensures TripsUnder(es1 + es2, lookup, k) == TripsUnder(es1, lookup, k) + TripsUnder(es2, lookup, k)
  {
    if es2 == [] {
      assert es1 + es2 == es1;
    } else {
      var init := es2[..|es2| - 1];
      TripsUnderInFeedOrder(es1, init, lookup, k);
      assert (es1 + es2)[..|es1 + es2| - 1] == es1 + init;
    }
  }

  /** A lookup that finds nothing lists nothing. */
  lemma {:induction false} NothingListedWithoutShortNames(es: seq<Entity>, lookup: string -> Option<string>, k: string)
    requires forall routeId :: lookup(routeId).None?
    ensures TripsUnder(es, lookup, k) == []
  {
    if es != [] {
      NothingListedWithoutShortNames(es[..|es| - 1], lookup, k);
    }
  }

  /** `getShortRouteName` over the route lookup table, as the handler calls it. */
  function ShortRouteNameIn(table: Records.Object<AppCacheRouteEntry>): string -> Option<string> {
    (routeId: string) => Utilities.ShortRouteName(table, routeId)
  }

  /** `/getRealTimeSummary` as written: since `getShortRouteName` finds nothing, the
      summary is always the empty object. */
  method GetRealTimeSummaryAsWritten(table: Records.Object<AppCacheRouteEntry>, rt: Feed) returns (summary: Records.Object<seq<string>>)
    ensures summary == []
  {
    var lookup := ShortRouteNameIn(table);
    summary := RealTimeSummary(rt.entity, lookup);
    forall routeId ensures lookup(routeId).None? {
      Utilities.ShortRouteNameNeverFound(table, routeId);
    }
    forall k ensures TripsUnder(rt.entity, lookup, k) == [] {
      NothingListedWithoutShortNames(rt.entity, lookup, k);
    }
  }

  /** The short-name lookup comparing each entry's `id` with the route id. */
  function ShortRouteNameByIdIn(table: Records.Object<AppCacheRouteEntry>): string -> Option<string> {
    (routeId: string) => Utilities.ShortRouteNameById(table, routeId)
  }

  /** `/getRealTimeSummary` with the lookup comparing entry ids. */
  method GetRealTimeSummary(table: Records.Object<AppCacheRouteEntry>, rt: Feed) returns (summary: Records.Object<seq<string>>)
    ensures Records.DistinctKeys(summary)
    ensures forall k :: Records.Get(summary, k) == NonEmpty(TripsUnder(rt.entity, ShortRouteNameByIdIn(table), k))
  {
    summary := RealTimeSummary(rt.entity, ShortRouteNameByIdIn(table));
  }

  /** With the id lookup, an entity with stop time updates is listed under the first
      short name whose entry carries its route id. */
  lemma ListedUnderFirstShortName(table: Records.Object<AppCacheRouteEntry>, en: Entity, i: int)
    requires 0 <= i < |table|
    requires en.tripUpdate.Some? && en.tripUpdate.value.stopTimeUpdate.Some?
    requires en.tripUpdate.value.trip.routeId == table[i].1.id
    requires forall j :: 0 <= j < i ==> table[j].1.id != table[i].1.id
    ensures ListedUnder(en, ShortRouteNameByIdIn(table), table[i].0)
  {
    var found := Utilities.ShortRouteNameById(table, table[i].1.id);
    var j :| 0 <= j < |table| && table[j].0 == found.value && table[j].1.id == table[i].1.id
      && forall j' :: 0 <= j' < j ==> table[j'].1.id != table[i].1.id;
    assert j == i;
  }

  // ---------------------------------------------------------------------------
  // /getRoutes

  /** `/getRoutes`: the same reduce as the route lookup table, from a fresh query. */
  method GetRoutes(routes: seq<RoutesQueryResult>) returns (body: Records.Object<AppCacheRouteEntry>)
    ensures Records.Keys(body) == Index.ShortNames(routes)
    ensures Records.DistinctKeys(body)
    ensures forall i :: 0 <= i < |routes| && Index.LastWithItsName(routes, i) ==>
                          Records.Get(body, routes[i].routeShortName) == Some(Index.EntryOf(routes[i]))
  {
    body := Index.InitRouteLookupCache(routes);
    Index.RouteTableKeys(routes);
    Index.RouteTableLastWriteWins(routes);
  }
}
