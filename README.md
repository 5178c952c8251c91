# nta-gtfs-node-api in Dafny

A model of the core of `nta-gtfs-node-api`, a small HTTP service for Irish public
transport. The service fuses the GTFS static timetable with the National Transport
Authority's GTFS-Realtime TripUpdates feed to answer "minutes until departure". The
model covers:

- the fusion of scheduled stop times with realtime delays: selecting a trip's stop
  time updates, taking the last departure delay, the whole-minute countdown truncated
  toward zero, dropping past departures, and a stable sort by countdown
  (`utilities.dfy`);
- the route lookups by short name and by route id (`utilities.dfy`);
- the weekly dataset reimport, with its backup, rollback and last-update record, over
  a filesystem held as a map from path to content (`import_gtfs.dfy`);
- the realtime payload shape check and the outcome of one refresh (`realtime.dfy`);
- the realtime store cell, the refresh that overwrites it, and the route lookup table
  (`index.dfy`);
- the response shaping of `/getStopsByRoute`, `/getRealTimeSummary` and `/getRoutes`
  (`api.dfy`).

These modules support the model:

- `types.dfy` holds the records of `src/types.ts` as datatypes, with optional fields
  as `Option`.
- `records.dfy` holds a JavaScript object with string keys, kept as its entries in
  enumeration order.
- `sorting.dfy` holds lodash's stable `sortBy`, an insertion sort.
- `wrappers.dfy` holds `Option`, `Result` and `Outcome`.

Time is abstracted. The clock of `augmentStopTimesWithRealtime` is an integer count of
seconds since local midnight, and a scheduled `HH:MM:SS` is a `ClockTime`. The
reimport's clock is integer milliseconds. The realtime fetch, the `importGtfs`
library and the SQL queries are parameters that describe their outcome.

## Model

| member | source | states |
|---|---|---|
| Records.Get | src/utilities.ts:9 | reading `o[k]` yields a value exactly when `k` is a key, and that value is stored under `k` |
| Records.Assign | src/index.ts:51-54 | `o[k] = v` makes `k` read `v`, leaves every other key's value alone, adds `k` to the keys and keeps keys distinct |
| Records.FindKeyIsFirstMatch | src/utilities.ts:13-15 | `Object.entries(o).find` on values finds nothing exactly when no value satisfies the test; otherwise it finds the key of the first value that does |
| Sorting.SortByIsStableSort | src/api.ts:34 | lodash `sortBy` returns a sorted permutation that keeps the input order within every group of equal keys |
| Utilities.RouteId | src/utilities.ts:8-10 | `getRouteId` succeeds exactly when the short name is a key of the table, with the `id` of an entry stored under it; otherwise it throws a TypeError |
| Utilities.ShortRouteName | src/utilities.ts:12-21 | `getShortRouteName` as written returns undefined exactly when the `find` callback accepts no stored value of the table |
| Utilities.ShortRouteNameNeverFound | src/utilities.ts:12-21 | `getShortRouteName` as written compares each `{id, agency}` entry with a route id string using `===`, so it returns undefined for every route id |
| Utilities.ShortRouteNameById | src/utilities.ts:12-21 | the corrected lookup is undefined exactly when no entry has that id; otherwise it returns the short name of the first entry that has it |
| Utilities.StopMatchesIffPresentFieldsAgree | src/utilities.ts:35-40 | the three-way rule accepts an update exactly when it has a stop id or a stop sequence and every field it has equals the entry's |
| Utilities.GetStopTimeUpdates | src/utilities.ts:23-47 | the nested push loop returns the matching stop time updates of the trip's entities, in feed order |
| Utilities.TripUpdatesForMembership | src/utilities.ts:24-26 | the entity filter keeps exactly the entities whose trip update names the entry's trip |
| Utilities.MatchingInMembership | src/utilities.ts:34-43 | within one entity, exactly the updates satisfying the three-way rule are kept |
| Utilities.MatchingInAppend | src/utilities.ts:34-43 | within one entity the kept updates stay in `stop_time_update` order: the matches of an earlier part come before those of a later part |
| Utilities.CollectedMembership | src/utilities.ts:32-46 | the reduce collects exactly the matching updates of the filtered entities that carry updates |
| Utilities.MatchedUpdatesMembership | src/utilities.ts:23-47 | an update is returned exactly when it belongs to an entity of the entry's trip and satisfies the three-way rule |
| Utilities.MatchedUpdatesAgreeWithEntry | src/utilities.ts:35-40 | no returned update has a present stop id or stop sequence that differs from the entry's, and none lacks both |
| Utilities.TripUpdatesForAppend | src/utilities.ts:24-26 | the entity filter distributes over concatenation of feeds |
| Utilities.CollectedAppend | src/utilities.ts:32-46 | the reduce distributes over concatenation of entity lists |
| Utilities.MatchedUpdatesInFeedOrder | src/utilities.ts:32-46 | matched updates come in feed order: those of an earlier part of the feed come first |
| Utilities.NoTripUpdatesFor | src/utilities.ts:24-26 | a feed with no entity for the trip yields no entities |
| Utilities.NoTripUpdateNoMatch | src/utilities.ts:23-47 | a feed with no entity for the trip yields no updates |
| Utilities.LastDelayIsLastCarried | src/utilities.ts:60-68 | no delay is applied exactly when no matched update carries a departure delay; otherwise the applied delay is carried by an update after which none carries one |
| Utilities.MinutesTowardZero | src/utilities.ts:80 | moment's minute difference is the whole number of minutes truncated toward zero, for both signs |
| Utilities.PastOnlyAfterAWholeMinute | src/utilities.ts:80-85 | the countdown is negative exactly when the departure is at least 60 s past, and 0 within a minute either side |
| Utilities.AugmentTime | src/utilities.ts:58-82 | the `map` callback with its `delay` and `hasRealtimeUpdate` loop computes the departure of one entry |
| Utilities.OffsetIsLastMatchedDelay | src/utilities.ts:60-81 | `realtime_offset` is the last matched departure delay, a delay of 0 included, and is undefined exactly when no matched update carries one; the countdown applies that delay |
| Utilities.AugmentStopTimesWithRealtime | src/utilities.ts:49-95 | the result is the header of the first entry with the sorted upcoming departures, or undefined for no entries |
| Utilities.UpcomingMembership | src/utilities.ts:83-85 | the filter keeps exactly the departures with a countdown of at least 0, each at most as often as in its input |
| Utilities.UpcomingKeepsKeyGroups | src/utilities.ts:83-85 | the filter keeps each group of equal non-negative countdowns intact and in order, and drops the negative groups |
| Utilities.AugmentUndefinedIffNoEntries | src/utilities.ts:54-94 | the result is undefined exactly when there are no entries; otherwise its header fields are those of the first entry |
| Utilities.AugmentIsStableSortOfUpcoming | src/utilities.ts:58-85 | the returned times are sorted by countdown and are exactly the upcoming computed departures, with ties kept in input order |
| Utilities.AugmentedTimesNotInPast | src/utilities.ts:83-85 | no returned departure has a negative countdown |
| Utilities.NoTripUpdateNoOffset | src/utilities.ts:60-81 | without realtime data for the trip the offset is undefined and the countdown is the scheduled one |
| Utilities.ScenarioWithoutRealtime | src/utilities.ts:70-85 | 08:15:00 scheduled at 08:10:00 with no realtime data is 5 minutes away, with no offset |
| Utilities.ScenarioWithDelay | src/utilities.ts:60-81 | the same departure delayed by 300 s is 10 minutes away, with offset 300 |
| Utilities.ScenarioPastDeparture | src/utilities.ts:80-85 | 07:00:00 scheduled at 08:00:00 is dropped, leaving no times |
| Realtime.EncodedFeedPassesShapeCheck | src/realtime.ts:13-17 | every feed encoded as JSON passes `isGtfsRealtimeFeed` |
| Realtime.ShapeCheckIgnoresEntityContents | src/realtime.ts:13-17 | the shape check looks only at `header` and at `entity` being an array, whatever the array holds |
| Realtime.MemberSkipsOthers | src/realtime.ts:13-17 | a property read is unaffected by members of other names |
| Realtime.IsGtfsRealtimeFeed | src/realtime.ts:13-17 | the shape check holds only for an object, and holds exactly when its `header` reads as an object and its `entity` reads as an array |
| Realtime.RefreshRealtimeData | src/realtime.ts:19-49 | a missing API key throws before any request; otherwise one GET carries the key; a feed is returned only from an ok response whose body passes the shape check, unchanged, and exactly then a snapshot of it is written |
| Realtime.NotOkIsRejected | src/realtime.ts:31-35 | a response that is not ok rejects with "Error fetching Real-time data" |
| Realtime.OkBodyDecidedByShape | src/realtime.ts:36-47 | an ok response resolves to its body exactly when the body passes the shape check, and rejects with "Unknown data format returned" exactly when it does not |
| Realtime.MissingEntityIsRefused | src/realtime.ts:36-47 | a payload without `entity` is refused and no snapshot is written |
| Index.RealtimeStore.constructor | src/index.ts:37-46 | a new store holds nothing |
| Index.RealtimeStore.Set | src/index.ts:39-41 | `set` replaces the stored value |
| Index.RealtimeStore.Get | src/index.ts:42-44 | `get` returns the stored value |
| Index.FetchRealtimeData | src/index.ts:61-69 | the store is replaced exactly when the refresh resolves to a non-nil value and is kept otherwise; a rejection is logged with its message and not propagated |
| Index.ResolvedRefreshIsStored | src/index.ts:62-65 | a resolved refresh always carries a validated, non-nil feed, so it is always stored |
| Index.RefreshTwice | src/index.ts:61-69 | after a stored feed, a failed refresh leaves `get` returning that feed |
| Index.InitRouteLookupCache | src/index.ts:48-59 | the reduce loop builds the route lookup table from the routes in query order |
| Index.RouteTableKeys | src/index.ts:50-56 | the table's keys are distinct and are exactly the short names seen |
| Index.RouteTableLastWriteWins | src/index.ts:50-56 | each short name maps to `{id, agency}` of the last route bearing it |
| Index.LastWriteWinsAt | src/index.ts:50-56 | a route that no later route shares a short name with is the entry kept under that name |
| Api.GroupByDirection | src/api.ts:26-29 | grouping succeeds exactly when every direction is 0 or 1, giving the two direction lists; any other direction throws |
| Api.InDirectionMembership | src/api.ts:26-29 | list `d` holds exactly the stops of direction `d` |
| Api.InDirectionPartition | src/api.ts:26-29 | with known directions the two lists together hold every stop exactly once |
| Api.Directions | src/api.ts:34 | the response has two lists, list `d` is sorted by `stop_sequence` and is a permutation of the stops of direction `d` |
| Api.DirectionSortedBySequence | src/api.ts:34 | each returned list is sorted by `stop_sequence`, holds exactly its direction's stops and keeps query order among equal sequence numbers |
| Api.DirectionsPartitionStops | src/api.ts:26-34 | there are exactly two returned lists, and together they hold every stop once, so the stop count is preserved |
| Api.ToUpperCase | src/api.ts:25 | `toUpperCase` keeps the length and replaces each ASCII lower-case letter by its capital, leaving every other character as it is |
| Api.GetStopsByRouteAsWritten | src/api.ts:23-40 | the handler as written answers exactly when the upper-cased name is known, the directions are known and the name as given is also a key |
| Api.LowerCaseRouteFailsAsWritten | src/api.ts:25-32 | for the table holding "39A", "39a" upper-cases to a known route but is itself not a key |
| Api.LowerCaseRequest | src/api.ts:23-40 | the request for "39a" fails as written and is answered by the corrected handler |
| Api.GetStopsByRoute | src/api.ts:23-40 | the corrected handler answers exactly when the upper-cased name is known and the directions are known, with that route's id, the name as given and the sorted direction lists |
| Api.RealTimeSummary | src/api.ts:72-87 | the summary has distinct keys, lists under `k` exactly the trips listed under `k` in feed order when there are any, and is empty when none are |
| Api.TripsUnderMembership | src/api.ts:72-87 | trip `t` is listed under `k` exactly when an entity has a trip update with stop time updates, the lookup maps its route to `k` and its trip is `t` |
| Api.TripsUnderInFeedOrder | src/api.ts:72-87 | per-key lists follow feed order and keep repeats |
| Api.NothingListedWithoutShortNames | src/api.ts:77-78 | a lookup that never finds a short name lists nothing |
| Api.GetRealTimeSummaryAsWritten | src/api.ts:70-88 | with `getShortRouteName` as written, the summary is always the empty object |
| Api.GetRealTimeSummary | src/api.ts:70-88 | with the corrected lookup, the summary lists trips under the short names their route ids belong to |
| Api.ListedUnderFirstShortName | src/api.ts:77-78 | with the corrected lookup, an entity with stop time updates is listed under the first short name whose entry has its route id |
| Api.GetRoutes | src/api.ts:94-102 | the `/getRoutes` map has distinct keys, exactly the short names, each mapped to `{id, agency}` of the last route bearing it |
| ImportGtfs.BackupPathIsSeparate | src/import-gtfs.ts:6-10 | the backup path differs from both the database path and the last-update file |
| ImportGtfs.Linked | src/import-gtfs.ts:28 | `link` succeeds exactly when the destination is absent |
| ImportGtfs.FileSystem.Link | src/import-gtfs.ts:28 | `link` copies the content to an absent destination, or rejects with EEXIST and changes nothing |
| ImportGtfs.FileSystem.Unlink | src/import-gtfs.ts:29 | `unlink` removes the path and nothing else |
| ImportGtfs.FileSystem.WriteFile | src/import-gtfs.ts:37 | `writeFile` sets the path's content and nothing else |
| ImportGtfs.MaybeImportGtfs | src/import-gtfs.ts:9-50 | the step-by-step run leaves the files and settles as the run specification says |
| ImportGtfs.UpToDateIffFresh | src/import-gtfs.ts:12-25 | the run stops at once exactly when the database and the last-update file exist and the recorded import is less than 7 days old; it then touches no file |
| ImportGtfs.UnreadableLastUpdateRejects | src/import-gtfs.ts:12-16 | a last-update file that is not valid JSON rejects the run before anything changes |
| ImportGtfs.MoveAsideKeepsPreviousDatabase | src/import-gtfs.ts:27-30 | after moving aside, the backup holds the previous database, the database path is absent, and no other path changed |
| ImportGtfs.StaleBackupBlocksReimport | src/import-gtfs.ts:27-28 | a leftover backup makes the first `link` reject with EEXIST and nothing changes |
| ImportGtfs.SuccessfulImportRecordsCompletion | src/import-gtfs.ts:32-42 | a successful import records its completion instant, removes the backup, keeps what the import wrote and changes no other path |
| ImportGtfs.FailedImportRestoresFiles | src/import-gtfs.ts:27-49 | a failed import that wrote nothing leaves the filesystem exactly as before, and the error is swallowed |
| ImportGtfs.PartialDatabaseKeepsBackup | src/import-gtfs.ts:43-47 | a failed import that left a partial database makes the restoring `link` reject with EEXIST, with the partial database and the backup both kept |
| ImportGtfs.FailureNeverWritesTimestamp | src/import-gtfs.ts:33-49 | a failed import never writes the last-update file |
| ImportGtfs.NoDatabaseNoRollback | src/import-gtfs.ts:27-49 | without a database or a backup a failed import restores nothing and leaves what the import wrote |
| ImportGtfs.StaleBackupRestoredOnFailure | src/import-gtfs.ts:27-47 | a leftover backup with no database is moved into place by a failed import that wrote nothing |
| ImportGtfs.ReimportThenUpToDate | src/import-gtfs.ts:12-37 | a reimport that installed a database makes any run within 7 days of its completion stop at once |

## Left out

- Time zones and DST: `moment().tz(timezone)` is an integer count of seconds since local midnight, and both `moment()` calls at src/utilities.ts:71 and 80 read the same instant.
- Parsing of `"HH:MM:SS"` with `split` and `parseInt`: the scheduled time is already a `ClockTime`.
- `StopTime.destination` is declared in src/types.ts but never set by the code, so the model has no such field.
- The conversion of the stored JSON value into a typed `Feed` is an unchecked cast in the source and is not modelled. The fusion and summary operations take a `Feed`.
- The store being empty before the first refresh, where `rts.get().entity` would throw, is not modelled.
- JSON numbers are integers in the model, and JSON text is not modelled: parsing and `JSON.stringify` are outcomes.
- Api.ToUpperCase: only ASCII letters are upper-cased. JavaScript also maps other letters (`"é"` to `"É"`) and can lengthen a string (`"ß"` to `"SS"`); that mapping is not modelled, so for a route name with such letters the model may look up a different key from the source.
- Realtime.Message: for a body that is not JSON the message is only the start of node-fetch's error text, because the library's full message is not part of this model.
- The network request, its headers and `resp.json()` are outcomes given as parameters. The snapshot `writeFile` is not awaited, so the model records only that it is issued.
- Records: JavaScript enumerates integer-like keys first, in numeric order. The model keeps insertion order for every key, because route short names are treated as ordinary strings.
- ImportGtfs: `./x` and `x` are the same file in the source, while paths are plain map keys here. `importGtfs` is assumed to touch only the database path.
- ImportGtfs: the instant written by `new Date().toISOString()` is a parameter. Date parsing of the stored value is abstracted into the `LastUpdateRecord` datatype.
- ImportGtfs: in the success handler `unlink` and `writeFile` cannot fail in the model. In the source such a failure would fall through to the `.catch` handler.
- Timers, cron, console output and the one-second settle delay after an import.
- The startup sequence (`init`, `openDb`, config loading, the snapshot bootstrap read and its race with the first fetch), because it is I/O and concurrency.
- The SQL queries in src/queries.ts, which are opaque stores. `/getStopsByRoute` takes the stop query as a function.
- Express routing, HTTP status codes, the 422 and 500 branches, the `/getStopTimes` double response, `/rt` and `/getAgencies`, because they are HTTP plumbing.

## Findings

| source | as written | input that shows it | evidently intended | confidence | as-written member | corrected member |
|---|---|---|---|---|---|---|
| src/utilities.ts:13-15 | `getShortRouteName` compares each stored `{id, agency}` record with the route id string using `===`, which never holds, so `/getRealTimeSummary` is always `{}` | a table holding `"39A"` with id `"60-39A-b12-1"`, asked for route id `"60-39A-b12-1"`, returns undefined (`Utilities.ShortRouteName`) | compare the entry's `id` with the route id and return the first short name whose entry has it | high, not executed | Utilities.ShortRouteNameNeverFound | Utilities.ShortRouteNameById |
| src/api.ts:32 | the response's `route_id` looks up `req.query.route` without `toUpperCase`, unlike the stop query at src/api.ts:25 | a table holding only `"39A"`, requested as `?route=39a`: the stop query resolves, then the second lookup throws a TypeError (`Api.LowerCaseRouteFailsAsWritten`, `Api.LowerCaseRequest`) | look the route up by the upper-cased name in both places | medium, not executed | Api.GetStopsByRouteAsWritten | Api.GetStopsByRoute |
