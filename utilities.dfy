/** src/utilities.ts: route lookups and the fusion of a timetable query with a
    GTFS-Realtime TripUpdates feed into "minutes until departure".
    Time is local seconds since midnight; both readings of "now" are the same instant. */
module Utilities {
  import opened Wrappers
  import opened Types
  import Records
  import Sorting

  // ---------------------------------------------------------------------------
  // Route lookup table

  /** `getRouteId`: the `.id` of the entry stored under the short name; reading
      `.id` of `undefined` throws when the short name is not a key. */
  function RouteId(table: Records.Object<AppCacheRouteEntry>, routeShortName: string): (r: Result<string, Fault>)
    ensures r.Success? <==> routeShortName in Records.Keys(table)
    ensures r.Success? ==>
      exists i :: 0 <= i < |table| && table[i].0 == routeShortName && table[i].1.id == r.value
  {
    match Records.Get(table, routeShortName)
    case Some(entry) => Success(entry.id)
    case None => Failure(TypeError("Cannot read properties of undefined (reading 'id')"))
  }

  /** The two kinds of JavaScript value that `getShortRouteName` compares. */
  datatype JsValue = JsString(s: string) | JsObject(entry: AppCacheRouteEntry)

  /** `a === b`. Strings compare by content and an object is never strictly equal
      to a string; object identity is not needed here, so objects equal nothing. */
  predicate StrictEquals(a: JsValue, b: JsValue) {
    a.JsString? && b.JsString? && a.s == b.s
  }

  /** The callback of `find` as written: the table's value, an `{id, agency}` object,
      is compared with the route id string. */
  function StoredValueIs(routeId: string): AppCacheRouteEntry -> bool {
    (entry: AppCacheRouteEntry) => StrictEquals(JsObject(entry), JsString(routeId))
  }

  /** `getShortRouteName` as written: `Object.keys(table).find(...)` is undefined
      exactly when the callback accepts no stored value. */
  function ShortRouteName(table: Records.Object<AppCacheRouteEntry>, routeId: string): (r: Option<string>)
    ensures r.None? <==> forall i :: 0 <= i < |table| ==> !StoredValueIs(routeId)(table[i].1)
  {
    Records.FindKeyIsFirstMatch(table, StoredValueIs(routeId));
    Records.FindKey(table, StoredValueIs(routeId))
  }

  /** As written, `getShortRouteName` finds nothing, whatever the table and the route id. */
  lemma {:induction false} ShortRouteNameNeverFound(table: Records.Object<AppCacheRouteEntry>, routeId: string)
    ensures ShortRouteName(table, routeId) == None
  {
    Records.FindKeyIsFirstMatch(table, StoredValueIs(routeId));
  }

  /** The callback as evidently intended: compare the entry's `id` with the route id. */
  function IdIs(routeId: string): AppCacheRouteEntry -> bool {
    (entry: AppCacheRouteEntry) => entry.id == routeId
  }

  /** `getShortRouteName` as evidently intended: the first short name, in enumeration
      order, whose entry has the given route id. */
  function ShortRouteNameById(table: Records.Object<AppCacheRouteEntry>, routeId: string): (r: Option<string>)
    ensures r.None? <==> forall i :: 0 <= i < |table| ==> table[i].1.id != routeId
    ensures r.Some? ==>
      exists i :: 0 <= i < |table| && table[i].0 == r.value && table[i].1.id == routeId
        && forall j :: 0 <= j < i ==> table[j].1.id != routeId
  {
    Records.FindKeyIsFirstMatch(table, IdIs(routeId));
    Records.FindKey(table, IdIs(routeId))
  }

  // ---------------------------------------------------------------------------
  // Selecting the stop time updates for a scheduled departure

  predicate ForTrip(en: Entity, tripId: string) {
    en.tripUpdate.Some? && en.tripUpdate.value.trip.tripId == tripId
  }

  /** The entities whose trip update is for `tripId`, in feed order. */
  function TripUpdatesFor(es: seq<Entity>, tripId: string): seq<Entity> {
    if es == [] then []
    else TripUpdatesFor(es[..|es| - 1], tripId) + (if ForTrip(es[|es| - 1], tripId) then [es[|es| - 1]] else [])
  }

  /** The stop time updates an entity carries; none when either level is absent. */
  function UpdatesOf(en: Entity): seq<StopTimeUpdate> {
    if en.tripUpdate.Some? && en.tripUpdate.value.stopTimeUpdate.Some? then en.tripUpdate.value.stopTimeUpdate.value
    else []
  }

  /** The three-way matching rule between an update and a scheduled departure. */
  predicate StopMatches(u: StopTimeUpdate, time: StopTimesQueryResult) {
    var stopIdsEqual := u.stopId == Some(time.stopId);
    var stopSequenceEqual := u.stopSequence == Some(time.stopSequence);
    (stopIdsEqual && stopSequenceEqual)
    || (u.stopSequence.None? && stopIdsEqual)
    || (u.stopId.None? && stopSequenceEqual)
  }

  /** The rule, restated: at least one of the two fields is present, and each present field agrees. */
  lemma StopMatchesIffPresentFieldsAgree(u: StopTimeUpdate, time: StopTimesQueryResult)
    ensures StopMatches(u, time) <==>
      && (u.stopId.Some? || u.stopSequence.Some?)
      && (u.stopId.Some? ==> u.stopId.value == time.stopId)
      && (u.stopSequence.Some? ==> u.stopSequence.value == time.stopSequence)
  {
  }

  /** The updates of `us` that match `time`, in order. */
  function MatchingIn(us: seq<StopTimeUpdate>, time: StopTimesQueryResult): seq<StopTimeUpdate> {
    if us == [] then []
    else MatchingIn(us[..|us| - 1], time) + (if StopMatches(us[|us| - 1], time) then [us[|us| - 1]] else [])
  }

  /** The matching updates of the given entities, entity by entity. */
  function Collected(tes: seq<Entity>, time: StopTimesQueryResult): seq<StopTimeUpdate> {
    if tes == [] then []
    else Collected(tes[..|tes| - 1], time) + MatchingIn(UpdatesOf(tes[|tes| - 1]), time)
  }

  /** What `getStopTimeUpdates` returns for a scheduled departure and a feed's entities. */
  function MatchedUpdates(time: StopTimesQueryResult, es: seq<Entity>): seq<StopTimeUpdate> {
    Collected(TripUpdatesFor(es, time.tripId), time)
  }

  /** `getStopTimeUpdates`: filter the entities by trip id, then push every matching
      update of each into an accumulator. */
  method GetStopTimeUpdates(time: StopTimesQueryResult, rt: Feed) returns (acc: seq<StopTimeUpdate>)
    ensures acc == MatchedUpdates(time, rt.entity)
  {
    var tripUpdates := TripUpdatesFor(rt.entity, time.tripId);
    acc := [];
    var i := 0;
    while i < |tripUpdates|
      invariant 0 <= i <= |tripUpdates|
      invariant acc == Collected(tripUpdates[..i], time)
    {
      var entity := tripUpdates[i];
      if entity.tripUpdate.Some? && entity.tripUpdate.value.stopTimeUpdate.Some? {
        var updates := entity.tripUpdate.value.stopTimeUpdate.value;
        var j := 0;
        while j < |updates|
          invariant 0 <= j <= |updates|
          invariant acc == Collected(tripUpdates[..i], time) + MatchingIn(updates[..j], time)
        {
          assert updates[..j + 1][..j] == updates[..j];
          if StopMatches(updates[j], time) {
            acc := acc + [updates[j]];
          }
          j := j + 1;
        }
        assert updates[..j] == updates;
      }
      assert tripUpdates[..i + 1][..i] == tripUpdates[..i];
      i := i + 1;
    }
    assert tripUpdates[..i] == tripUpdates;
  }

  lemma {:induction false} TripUpdatesForMembership(es: seq<Entity>, tripId: string)
    ensures forall en :: en in TripUpdatesFor(es, tripId) <==> en in es && ForTrip(en, tripId)
  {
    if es != [] {
      TripUpdatesForMembership(es[..|es| - 1], tripId);
      assert es == es[..|es| - 1] + [es[|es| - 1]];
    }
  }

  lemma {:induction false} MatchingInMembership(us: seq<StopTimeUpdate>, time: StopTimesQueryResult)
    ensures forall u :: u in MatchingIn(us, time) <==> u in us && StopMatches(u, time)
  {
    if us != [] {
      MatchingInMembership(us[..|us| - 1], time);
      assert us == us[..|us| - 1] + [us[|us| - 1]];
    }
  }

  /** Within one entity the kept updates stay in feed order: filtering a concatenation
      keeps the first part's matches ahead of the second's. */
  lemma {:induction false} MatchingInAppend(a: seq<StopTimeUpdate>, b: seq<StopTimeUpdate>, time: StopTimesQueryResult)
    ensures MatchingIn(a + b, time) == MatchingIn(a, time) + MatchingIn(b, time)
  {
    if b == [] {
      assert a + b == a;
    } else {
      var init, last := b[..|b| - 1], b[|b| - 1];
      MatchingInAppend(a, init, time);
      assert (a + b)[..|a + b| - 1] == a + init;
      assert (a + b)[|a + b| - 1] == last;
      ConcatAssociates(MatchingIn(a, time), MatchingIn(init, time), if StopMatches(last, time) then [last] else []);
    }
  }

  lemma {:induction false} CollectedMembership(tes: seq<Entity>, time: StopTimesQueryResult)
    ensures forall u :: u in Collected(tes, time) <==>
      exists en :: en in tes && u in UpdatesOf(en) && StopMatches(u, time)
  {
    if tes != [] {
      var init, last := tes[..|tes| - 1], tes[|tes| - 1];
      CollectedMembership(init, time);
      MatchingInMembership(UpdatesOf(last), time);
      assert tes == init + [last];
    }
  }

  /** An update is selected exactly when it belongs to an entity for the same trip
      and matches the scheduled stop. */
  lemma MatchedUpdatesMembership(time: StopTimesQueryResult, es: seq<Entity>)
    ensures forall u :: u in MatchedUpdates(time, es) <==>
      exists en :: en in es && ForTrip(en, time.tripId) && u in UpdatesOf(en) && StopMatches(u, time)
  {
    TripUpdatesForMembership(es, time.tripId);
    CollectedMembership(TripUpdatesFor(es, time.tripId), time);
  }

  /** Every selected update agrees with the scheduled departure on each field it
      carries, and carries at least one of them. */
  lemma MatchedUpdatesAgreeWithEntry(time: StopTimesQueryResult, es: seq<Entity>)
    ensures forall u :: u in MatchedUpdates(time, es) ==>
      && (u.stopId.Some? || u.stopSequence.Some?)
      && (u.stopId.Some? ==> u.stopId.value == time.stopId)
      && (u.stopSequence.Some? ==> u.stopSequence.value == time.stopSequence)
  {
    MatchedUpdatesMembership(time, es);
  }

  lemma {:induction false} TripUpdatesForAppend(es1: seq<Entity>, es2: seq<Entity>, tripId: string)
    ensures TripUpdatesFor(es1 + es2, tripId) == TripUpdatesFor(es1, tripId) + TripUpdatesFor(es2, tripId)
  {
    if es2 == [] {
      assert es1 + es2 == es1;
    } else {
      var init := es2[..|es2| - 1];
      TripUpdatesForAppend(es1, init, tripId);
      assert (es1 + es2)[..|es1 + es2| - 1] == es1 + init;
    }
  }

  lemma {:induction false} CollectedAppend(tes1: seq<Entity>, tes2: seq<Entity>, time: StopTimesQueryResult)
    ensures Collected(tes1 + tes2, time) == Collected(tes1, time) + Collected(tes2, time)
  {
    if tes2 == [] {
      assert tes1 + tes2 == tes1;
    } else {
      var init := tes2[..|tes2| - 1];
      var m := MatchingIn(UpdatesOf(tes2[|tes2| - 1]), time);
      CollectedAppend(tes1, init, time);
      CollectedAppendLast(tes1, tes2, time);
      CollectedAppendLast([], tes2, time);
      assert [] + tes2 == tes2 && [] + init == init;
      ConcatAssociates(Collected(tes1, time), Collected(init, time), m);
    }
  }

  lemma ConcatAssociates<T>(a: seq<T>, b: seq<T>, c: seq<T>)
    ensures (a + b) + c == a + (b + c)
  {
  }

  lemma CollectedAppendLast(tes1: seq<Entity>, tes2: seq<Entity>, time: StopTimesQueryResult)
    requires tes2 != []
    ensures Collected(tes1 + tes2, time) ==
      Collected(tes1 + tes2[..|tes2| - 1], time) + MatchingIn(UpdatesOf(tes2[|tes2| - 1]), time)
  {
    var all := tes1 + tes2;
    assert all[..|all| - 1] == tes1 + tes2[..|tes2| - 1];
    assert all[|all| - 1] == tes2[|tes2| - 1];
  }

  /** Selected updates come back in feed order: the updates of an earlier entity
      precede those of a later one. */
  lemma MatchedUpdatesInFeedOrder(time: StopTimesQueryResult, es1: seq<Entity>, es2: seq<Entity>)
    ensures MatchedUpdates(time, es1 + es2) == MatchedUpdates(time, es1) + MatchedUpdates(time, es2)
  {
    TripUpdatesForAppend(es1, es2, time.tripId);
    CollectedAppend(TripUpdatesFor(es1, time.tripId), TripUpdatesFor(es2, time.tripId), time);
  }

  lemma {:induction false} NoTripUpdatesFor(es: seq<Entity>, tripId: string)
    requires forall en :: en in es ==> !ForTrip(en, tripId)
    ensures TripUpdatesFor(es, tripId) == []
  {
    if es != [] {
      var init := es[..|es| - 1];
      forall en | en in init ensures en in es { }
      NoTripUpdatesFor(init, tripId);
      assert es[|es| - 1] in es;
    }
  }

  lemma {:induction false} NoTripUpdateNoMatch(time: StopTimesQueryResult, es: seq<Entity>)
    requires forall en :: en in es ==> !ForTrip(en, time.tripId)
    ensures MatchedUpdates(time, es) == []
  {
    NoTripUpdatesFor(es, time.tripId);
  }

  // ---------------------------------------------------------------------------
  // The applied delay

  /** `update.departure.delay` when both levels are present. */
  function DepartureDelay(u: StopTimeUpdate): Option<int> {
    if u.departure.Some? then u.departure.value.delay else None
  }

  /** The departure delay of the last update that carries one. */
  function LastDelay(us: seq<StopTimeUpdate>): Option<int> {
    if us == [] then None
    else if DepartureDelay(us[|us| - 1]).Some? then DepartureDelay(us[|us| - 1])
    else LastDelay(us[..|us| - 1])
  }

  /** No delay is applied exactly when no update carries one; otherwise the applied
      delay is carried by some update and no later update carries a delay. */
  lemma {:induction false} LastDelayIsLastCarried(us: seq<StopTimeUpdate>)
    ensures LastDelay(us).None? <==> forall i :: 0 <= i < |us| ==> DepartureDelay(us[i]).None?
    ensures LastDelay(us).Some? ==>
      exists i :: 0 <= i < |us| && DepartureDelay(us[i]) == LastDelay(us)
        && forall j :: i < j < |us| ==> DepartureDelay(us[j]).None?
  {
    if us != [] {
      var init := us[..|us| - 1];
      LastDelayIsLastCarried(init);
      forall i | 0 <= i < |init| ensures init[i] == us[i] { }
      if DepartureDelay(us[|us| - 1]).None? && LastDelay(us).Some? {
        var i :| 0 <= i < |init| && DepartureDelay(init[i]) == LastDelay(init)
          && forall j :: i < j < |init| ==> DepartureDelay(init[j]).None?;
        assert DepartureDelay(us[i]) == LastDelay(us);
      }
    }
  }

  // ---------------------------------------------------------------------------
  // Minutes until departure

  /** The scheduled time as seconds after local midnight; hours, minutes or seconds
      past their range roll over into the next unit. */
  function SecondsOfDay(t: ClockTime): int {
    t.hour * 3600 + t.minute * 60 + t.second
  }

  /** moment's `diff(..., 'minutes')`: whole minutes, truncated toward zero. */
  function MinutesTowardZero(secs: int): (m: int)
    ensures secs >= 0 ==> 0 <= secs - 60 * m < 60
    ensures secs < 0 ==> -60 < secs - 60 * m <= 0
  {
    if secs >= 0 then secs / 60 else -((-secs) / 60)
  }

  /** A departure counts as past only once it is a whole minute late. */
  lemma PastOnlyAfterAWholeMinute(secs: int)
    ensures MinutesTowardZero(secs) < 0 <==> secs <= -60
    ensures -60 < secs < 60 ==> MinutesTowardZero(secs) == 0
  {
  }

  function MinsOf(st: StopTime): int {
    st.departureMins
  }

  /** The departure computed for one scheduled entry. */
  function Augmented(time: StopTimesQueryResult, es: seq<Entity>, now: int): StopTime {
    var applied := LastDelay(MatchedUpdates(time, es));
    var departureSecs := SecondsOfDay(time.scheduledDepartureTime) + applied.GetOr(0);
    StopTime(time.scheduledDepartureTime, MinutesTowardZero(departureSecs - now), time.tripId, applied)
  }

  /** The callback of `times.map`: the trip's matching updates, the last departure
      delay among them, and the countdown. */
  method AugmentTime(time: StopTimesQueryResult, rt: Feed, now: int) returns (st: StopTime)
    ensures st == Augmented(time, rt.entity, now)
  {
    var updates := GetStopTimeUpdates(time, rt);
    var delay := 0;
    var hasRealtimeUpdate := false;
    var i := 0;
    while i < |updates|
      invariant 0 <= i <= |updates|
      invariant hasRealtimeUpdate <==> LastDelay(updates[..i]).Some?
      invariant delay == LastDelay(updates[..i]).GetOr(0)
    {
      assert updates[..i + 1][..i] == updates[..i];
      var update := updates[i];
      if update.departure.Some? && update.departure.value.delay.Some? {
        delay := update.departure.value.delay.value;
        hasRealtimeUpdate := true;
      }
      i := i + 1;
    }
    assert updates[..i] == updates;
    var departureSecs := SecondsOfDay(time.scheduledDepartureTime) + delay;
    st := StopTime(
      time.scheduledDepartureTime,
      MinutesTowardZero(departureSecs - now),
      time.tripId,
      if hasRealtimeUpdate then Some(delay) else None);
  }

  function AugmentAll(times: seq<StopTimesQueryResult>, es: seq<Entity>, now: int): seq<StopTime> {
    seq(|times|, i requires 0 <= i < |times| => Augmented(times[i], es, now))
  }

  /** The `filter` keeping departures whose countdown is not negative. */
  function Upcoming(sts: seq<StopTime>): seq<StopTime> {
    if sts == [] then []
    else (if sts[0].departureMins >= 0 then [sts[0]] else []) + Upcoming(sts[1..])
  }

  /** What `augmentStopTimesWithRealtime` returns. */
  function Augment(times: seq<StopTimesQueryResult>, rt: Feed, now: int): Option<StopTimesApiResult> {
    if |times| == 0 then None
    else Some(StopTimesApiResult(
      times[0].stopName,
      times[0].routeId,
      times[0].stopSequence,
      times[0].stopId,
      times[0].serviceId,
      Sorting.SortBy(Upcoming(AugmentAll(times, rt.entity, now)), MinsOf)))
  }

  /** `augmentStopTimesWithRealtime`. */
  method AugmentStopTimesWithRealtime(times: seq<StopTimesQueryResult>, rt: Feed, now: int)
    returns (r: Option<StopTimesApiResult>)
    ensures r == Augment(times, rt, now)
  {
    if |times| == 0 {
      return None;
    }
    var mapped: seq<StopTime> := [];
    var i := 0;
    while i < |times|
      invariant 0 <= i <= |times|
      invariant |mapped| == i
      invariant forall j :: 0 <= j < i ==> mapped[j] == Augmented(times[j], rt.entity, now)
    {
      var st := AugmentTime(times[i], rt, now);
      mapped := mapped + [st];
      i := i + 1;
    }
    assert mapped == AugmentAll(times, rt.entity, now);
    var resultTimes := Sorting.SortBy(Upcoming(mapped), MinsOf);
    r := Some(StopTimesApiResult(
      times[0].stopName,
      times[0].routeId,
      times[0].stopSequence,
      times[0].stopId,
      times[0].serviceId,
      resultTimes));
  }

  lemma {:induction false} UpcomingMembership(sts: seq<StopTime>)
    ensures multiset(Upcoming(sts)) <= multiset(sts)
    ensures forall x :: x in Upcoming(sts) <==> x in sts && x.departureMins >= 0
  {
    if sts != [] {
      UpcomingMembership(sts[1..]);
      assert sts == [sts[0]] + sts[1..];
    }
  }

  lemma {:induction false} UpcomingKeepsKeyGroups(sts: seq<StopTime>, k: int)
    ensures Sorting.WithKey(Upcoming(sts), MinsOf, k) == (if k >= 0 then Sorting.WithKey(sts, MinsOf, k) else [])
  {
    if sts != [] {
      var rest := Upcoming(sts[1..]);
      UpcomingKeepsKeyGroups(sts[1..], k);
      if sts[0].departureMins >= 0 {
        assert Upcoming(sts) == [sts[0]] + rest;
        assert ([sts[0]] + rest)[1..] == rest;
      } else {
        assert Upcoming(sts) == rest;
      }
    }
  }

  /** The result is `undefined` exactly when there are no scheduled entries; otherwise
      its header fields are those of the first entry, even when every time is filtered out. */
  lemma AugmentUndefinedIffNoEntries(times: seq<StopTimesQueryResult>, rt: Feed, now: int)
    ensures Augment(times, rt, now).None? <==> times == []
    ensures times != [] ==>
      var r := Augment(times, rt, now).value;
      && r.stopName == times[0].stopName
      && r.routeId == times[0].routeId
      && r.stopSequence == times[0].stopSequence
      && r.stopId == times[0].stopId
      && r.serviceId == times[0].serviceId
  {
  }

  /** The returned times are exactly the entries' departures that are not in the past,
      each once per entry, ordered by countdown, ties in entry order. */
  lemma AugmentIsStableSortOfUpcoming(times: seq<StopTimesQueryResult>, rt: Feed, now: int)
    requires times != []
    ensures var r := Augment(times, rt, now).value.times;
      && Sorting.SortedBy(r, MinsOf)
      && multiset(r) <= multiset(AugmentAll(times, rt.entity, now))
      && (forall st :: st in r <==> st in AugmentAll(times, rt.entity, now) && st.departureMins >= 0)
      && (forall k :: Sorting.WithKey(r, MinsOf, k) ==
            if k >= 0 then Sorting.WithKey(AugmentAll(times, rt.entity, now), MinsOf, k) else [])
  {
    var all := AugmentAll(times, rt.entity, now);
    Sorting.SortByIsStableSort(Upcoming(all), MinsOf);
    UpcomingMembership(all);
    var r := Augment(times, rt, now).value.times;
    forall st ensures st in r <==> st in Upcoming(all) {
      assert st in r <==> st in multiset(r);
    }
    forall k ensures Sorting.WithKey(r, MinsOf, k) ==
      if k >= 0 then Sorting.WithKey(all, MinsOf, k) else []
    {
      UpcomingKeepsKeyGroups(all, k);
    }
  }

  /** No returned departure is in the past, and each is the departure computed for one
      of the scheduled entries. */
  lemma AugmentedTimesNotInPast(times: seq<StopTimesQueryResult>, rt: Feed, now: int)
    requires times != []
    ensures forall st :: st in Augment(times, rt, now).value.times ==>
      st.departureMins >= 0 && exists i :: 0 <= i < |times| && st == Augmented(times[i], rt.entity, now)
  {
    AugmentIsStableSortOfUpcoming(times, rt, now);
  }

  /** `realtime_offset` is the departure delay of the last matched update that carries
      one (a present delay of 0 included), undefined exactly when none does; the
      countdown applies that delay, or none. */
  lemma OffsetIsLastMatchedDelay(time: StopTimesQueryResult, es: seq<Entity>, now: int)
    ensures var st := Augmented(time, es, now);
      var us := MatchedUpdates(time, es);
      && (st.realtimeOffset.None? <==> forall i :: 0 <= i < |us| ==> DepartureDelay(us[i]).None?)
      && (st.realtimeOffset.Some? ==>
            exists i :: 0 <= i < |us| && DepartureDelay(us[i]) == st.realtimeOffset
              && forall j :: i < j < |us| ==> DepartureDelay(us[j]).None?)
      && st.departureMins ==
           MinutesTowardZero(SecondsOfDay(time.scheduledDepartureTime) + st.realtimeOffset.GetOr(0) - now)
  {
    LastDelayIsLastCarried(MatchedUpdates(time, es));
  }

  /** A departure with no trip update for its trip gets no delay and no realtime offset. */
  lemma NoTripUpdateNoOffset(time: StopTimesQueryResult, es: seq<Entity>, now: int)
    requires forall en :: en in es ==> !ForTrip(en, time.tripId)
    ensures Augmented(time, es, now).realtimeOffset == None
    ensures Augmented(time, es, now).departureMins == MinutesTowardZero(SecondsOfDay(time.scheduledDepartureTime) - now)
  {
    NoTripUpdateNoMatch(time, es);
  }

  // ---------------------------------------------------------------------------
  // Worked examples, at 08:10:00 and 08:00:00 local time

  function ExampleEntry(departure: ClockTime): StopTimesQueryResult {
    StopTimesQueryResult(departure, "Parnell Square", 1, "8220DB000002", "T1", "Ringsend", "S1", 7)
  }

  function ExampleFeed(delay: int): Feed {
    var update := StopTimeUpdate(Some(7), None, Some(StopTimeEvent(Some(delay), None, None)), Some("8220DB000002"), Scheduled);
    var trip := Trip("T1", "08:00:00", "20240101", Scheduled, "R1");
    Feed(FeedHeader("2.0", 0), [Entity(Some("E1"), Some(TripUpdate(trip, Some([update]))))])
  }

  /** Due at 08:15:00, now 08:10:00, no realtime data: 5 minutes, no offset. */
  lemma ScenarioWithoutRealtime()
    ensures Augment([ExampleEntry(ClockTime(8, 15, 0))], Feed(FeedHeader("2.0", 0), []), 8 * 3600 + 10 * 60)
         == Some(StopTimesApiResult("Parnell Square", 1, 7, "8220DB000002", "S1",
              [StopTime(ClockTime(8, 15, 0), 5, "T1", None)]))
  {
    var st := StopTime(ClockTime(8, 15, 0), 5, "T1", None);
    var all := AugmentAll([ExampleEntry(ClockTime(8, 15, 0))], [], 8 * 3600 + 10 * 60);
    assert all == [st];
    assert Upcoming([st]) == [st];
    assert Sorting.SortBy([st], MinsOf) == [st];
  }

  /** The same departure with a matching 300-second departure delay: 10 minutes, offset 300. */
  lemma ScenarioWithDelay()
    ensures Augmented(ExampleEntry(ClockTime(8, 15, 0)), ExampleFeed(300).entity, 8 * 3600 + 10 * 60)
         == StopTime(ClockTime(8, 15, 0), 10, "T1", Some(300))
  {
    var e := ExampleEntry(ClockTime(8, 15, 0));
    var es := ExampleFeed(300).entity;
    assert TripUpdatesFor(es, "T1") == es by {
      assert es[..0] == [];
    }
    assert MatchedUpdates(e, es) == UpdatesOf(es[0]) by {
      var tes := TripUpdatesFor(es, "T1");
      assert tes[..0] == [];
      var us := UpdatesOf(es[0]);
      assert us[..0] == [];
    }
  }

  /** A departure an hour ago is dropped. */
  lemma ScenarioPastDeparture()
    ensures Augment([ExampleEntry(ClockTime(7, 0, 0))], Feed(FeedHeader("2.0", 0), []), 8 * 3600)
         == Some(StopTimesApiResult("Parnell Square", 1, 7, "8220DB000002", "S1", []))
  {
  }
}
