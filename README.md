# CityPulse core in Dafny

CityPulse is a city-events platform. The API serves a ranked feed of events that have not yet ended. It offers text and radius search, a live chat lobby for events that are running, event creation with owner-only update and delete, likes, attendance, follows and comments. A web client pages through the feed and builds the search query string. This project models that core in Dafny and proves properties of the model:

- the ranking formula and its live boost;
- the feed query with its paging and the controller's clamping of `page` and `limit`;
- the client's page walk;
- the search validator, the SQL the search service builds, and what that SQL selects;
- the client's search query string;
- the chat lobby's room map, message checks and upgrade checks;
- the event validators, the create, detail, update and delete services, and the dynamic `SET` list of an update;
- like toggling, attendance upserts, follow toggling and the follower lists;
- comment sanitising;
- the Express error handler.

The database is one value, `Schema.Tables`, held by the class `Schema.Database`. Each service that writes is a method with `modifies db`. Its `ensures` gives the new tables as the old ones with exactly one table replaced. Three things the database decides are parameters of the functions that read them: the row order an `ORDER BY` leaves open when keys tie, the generated ids, and `NOW()`. Each ordering parameter is constrained by a predicate: same rows, sorted by the key. A sort function proves that such an ordering always exists.

Some operations live outside the code. These are parameters, each with the law the proofs rely on:

- the `EXP` decay of the score: positive, equal to one at age zero, and strictly decreasing in the age;
- the PostGIS distance;
- JavaScript's `new Date` and PostgreSQL's timestamp input, which read alike every ISO-8601 string with an explicit offset (`Z` or `±hh:mm`), the form `toISOString` gives;
- `String` and `Number` on the client's numbers, which form a round trip at each number the client sends (stated per value, since no function from the reals into strings is one-to-one);
- Clerk's token verification.

The SQL the services build is modelled as data: clauses that carry their `$k` placeholder numbers, plus the list of bound values. Interpreters (`EvalWhere`, `ApplyClauses`) give that data its meaning. This lets the proofs show, for any input, that every placeholder names the value it should and that the statement does what the request means.

Modules: `Wrappers`, `Json`, `Schema`, `Text` and `Ordering` hold the shared definitions. The others follow the source files: `Ranking`, `Feed`, `FeedController`, `FeedClient`, `SearchValidation`, `SearchService`, `SearchClient`, `ChatService`, `ChatWs`, `EventsValidation`, `EventsService`, `Interactions`, `Users`, `CommentsValidation`, `ErrorHandler`.

## Model

| member | source | states |
|---|---|---|
| Ranking.LiveBoundaries | apps/api/src/modules/recommendations/ranking.util.ts:37-38 | an event is live at its start instant and no longer live at its end instant (the end is exclusive) |
| Ranking.Boost | apps/api/src/modules/recommendations/ranking.util.ts:26-29 | the multiplier is 2.0 exactly when the event is live at `now`, and 1.0 otherwise |
| Ranking.AgeHours | apps/api/src/modules/recommendations/ranking.util.ts:25 | the age in hours is non-negative iff `created_at` is not after `now` |
| Ranking.Base | apps/api/src/modules/recommendations/ranking.util.ts:24 | the weighted sum of likes and attendees is never negative, and is zero iff both counts are zero |
| Ranking.Score | apps/api/src/modules/recommendations/ranking.util.ts:23-30 | an event without likes or attendees scores 0; with a positive decay and boost, the score is positive iff there is a like or an attendee |
| Ranking.LiveDoublesScore | apps/api/src/modules/recommendations/ranking.util.ts:26-29 | a live event scores exactly twice what the same counts and age score when not live |
| Ranking.Weights | apps/api/src/modules/recommendations/ranking.util.ts:24 | one more like adds `2 * decay * boost`, one more attendee adds `1.5 * decay * boost` |
| Ranking.ScoreMonotone | apps/api/src/modules/recommendations/ranking.util.ts:24 | with decay and boost fixed, more likes or attendees never lower the score |
| Ranking.OlderScoresLower | apps/api/src/modules/recommendations/ranking.util.ts:25 | with equal counts and equal liveness, an older event never outscores a newer one |
| Ranking.FutureCreationExceedsOne | apps/api/src/modules/recommendations/ranking.util.ts:25 | nothing clamps the age: a `created_at` in the future gives a decay factor above one |
| Feed.Unexpired | apps/api/src/modules/feed/feed.service.ts:38 | the events kept are exactly those of the table whose end is after `now`, each as often as in the table |
| Feed.Candidates | apps/api/src/modules/feed/feed.service.ts:33-38 | row i is for the i-th unexpired event, so the rows' events are the unexpired events in table order; its counts, `is_live` and score come from the tables at `now` |
| Feed.OrderedRowsAreFeedRows | apps/api/src/modules/feed/feed.service.ts:39 | any `ORDER BY score DESC` of the candidates is a true feed row per position, and its events are a permutation of the unexpired events: each listed as often as the table holds it |
| Feed.WindowOfRanking | apps/api/src/modules/feed/feed.service.ts:39-40 | a `LIMIT`/`OFFSET` window of that ordering holds feed rows in non-increasing score; it is empty iff the offset is past the last event or the limit is 0 |
| Feed.GetFeed | apps/api/src/modules/feed/feed.service.ts:10-59 | fails with a database error exactly when the limit or offset is negative or beyond `bigint`, or the count overflows `COUNT(*)::int`, each with its own error; otherwise echoes `page` and `limit`, `total` is every unexpired event, and `events` is exactly `Window(ranked, (page - 1) * limit, limit)`: at most `limit` rows best first |
| Feed.TotalIgnoresPaging | apps/api/src/modules/feed/feed.service.ts:43-56 | `total` is the same whatever the page, the limit or the tie order |
| Feed.PageStartIsOffset | apps/api/src/modules/feed/feed.service.ts:12 | the start of page `k + 1`, summed page by page, is `k * limit` |
| Feed.WindowIsSlice | apps/api/src/modules/feed/feed.service.ts:40 | a page is the slice of the ordering between its offset and the next page's, clipped to the ordering's length |
| Feed.PagesUpToPrefix | apps/api/src/modules/feed/feed.service.ts:39-40 | pages 1 to n of one ordering, concatenated, are its prefix up to `n * limit` |
| Feed.PagesCoverRanking | apps/api/src/modules/feed/feed.service.ts:39-40 | when n pages reach past the last event, pages 1 to n list the whole ordering |
| Ordering.DescLimitKeepsTop | apps/api/src/modules/feed/feed.service.ts:39-40 | the first n rows of a descending ordering are rows of the input, and no row left out has a key above any row kept |
| Ordering.AscLimitKeepsBottom | apps/api/src/modules/search/search.service.ts:68-69 | the first n rows of an ascending ordering are rows of the input, and no row left out has a key below any row kept |
| Ordering.MapPermutation | apps/api/src/modules/feed/feed.service.ts:39 | mapping a column over two permutations of the same rows gives two permutations of the same values |
| Feed.ServedPages | apps/api/src/modules/feed/feed.service.ts:10-59 | the events `getFeed` returns for pages 1 to n with one limit, concatenated, are the first n pages of the ordering, when every page's offset lies within `bigint` and the count within `integer` |
| Feed.ServedPagesListEachEventOnce | apps/api/src/modules/feed/feed.service.ts:10-59 | when page n is the last non-empty page and the count fits `integer`, every page is served, and pages 1 to n are the whole ordering and list each unexpired event exactly as often as the table holds it |
| FeedController.OrDefault | apps/api/src/modules/feed/feed.controller.ts:20 | `parseInt(x) \|\| d` is the integer when it is a non-zero integer, and the default for a missing, non-numeric or zero parameter |
| FeedController.PageOf | apps/api/src/modules/feed/feed.controller.ts:20 | the page is at least 1; it is the given integer when that is at least 1, and 1 otherwise |
| FeedController.LimitOf | apps/api/src/modules/feed/feed.controller.ts:21-24 | the limit lies between 1 and 100; an in-range integer is kept, a larger one becomes 100, a negative one becomes 1, and a missing, non-numeric or zero one becomes 20 |
| FeedController.ParseFeedQuery | apps/api/src/modules/feed/feed.controller.ts:20-26 | the parsed query has a page of at least 1, a limit between 1 and 100, and a non-negative offset |
| FeedController.HandlerFailsOnlyOutOfRange | apps/api/src/modules/feed/feed.controller.ts:20-26 | `getFeed` on the parsed query succeeds iff the offset `(page - 1) * limit` lies within `bigint` and the count within `integer`; a failure is the out-of-range database error; on success at most 100 events and the parsed `page` and `limit` echoed |
| FeedController.SafePageServed | apps/api/src/modules/feed/feed.controller.ts:20-26 | every page up to `Number.MAX_SAFE_INTEGER` is served, whatever the limit parameter, while the count fits `integer` |
| FeedController.HugePageFails | apps/api/src/modules/feed/feed.controller.ts:20-26 | `?page=1000000000000000000` gives an offset past `bigint`, and the request fails with the out-of-range database error |
| FeedController.ZeroFallsBackToDefault | apps/api/src/modules/feed/feed.controller.ts:20-23 | `limit=0` gives the default 20, not the lower bound 1; `page=0` gives 1; -5 and 500 clamp to 1 and 100 |
| FeedClient.TotalPages | apps/web/hooks/useFeed.ts:24 | the page count is the least n with `total <= n * 20` (0 for an empty feed) |
| FeedClient.NextPageParam | apps/web/hooks/useFeed.ts:23-26 | there is a next page iff the last page is before the page count, and it is the following page |
| FeedClient.RequestRoundTrip | apps/web/hooks/useFeed.ts:15-21 | the server parses the client's request for page p as page p with the client's own limit of 20 |
| FeedClient.PagesFromCounts | apps/web/hooks/useFeed.ts:22-26 | from page p the client requests p, p + 1, ... up to the page count, each once |
| FeedClient.VisitsEveryPageOnce | apps/web/hooks/useFeed.ts:22-26 | from page 1 the client requests exactly pages 1 to max(1, ceil(total / 20)), in order |
| FeedClient.EmptyFeedFetchesOnce | apps/web/hooks/useFeed.ts:22-26 | with an empty feed, page 1 is the only request |
| FeedClient.ClientFetchListsEachEventOnce | apps/web/hooks/useFeed.ts:15-26 | while the count fits `integer`, page 1 is served with `total` the unexpired count, and the pages the client then requests, each answered by `getFeed` with limit 20, together list every unexpired event exactly as often as the table holds it, in ranking order |
| SearchValidation.ValidateSearchQuery | apps/api/src/modules/search/search.validation.ts:6-32 | success iff the geo parameters are all numeric and in range (when any is given) and `q` is absent or a string, and `q` is truthy or geo is given; each message is reported exactly for the inputs whose first failing check is its own |
| SearchValidation.ParseSearchQuery | apps/api/src/modules/search/search.validation.ts:34-41 | `q` is kept, trimmed, iff it is truthy; the numbers pass through unchanged |
| SearchValidation.ValidatedGeoAllOrNone | apps/api/src/modules/search/search.validation.ts:12-20 | after a successful validation the parsed query has all three geo values, numeric and in range, or none of them |
| SearchValidation.WhitespaceQueryAccepted | apps/api/src/modules/search/search.validation.ts:27-36 | a whitespace-only `q` without geo passes validation and parses to the empty text with no geo filter |
| SearchValidation.ValidateSearchQueryTrimmed | apps/api/src/modules/search/search.validation.ts:27-29 | the corrected validator refuses only more than the original, and it differs exactly on a non-empty, whitespace-only `q` without geo |
| SearchValidation.TrimmedValidationGivesFilter | apps/api/src/modules/search/search.validation.ts:27-36 | a query the corrected validator accepts reaches the service with a non-empty text or with a valid geo filter |
| SearchService.BuildSearchSql | apps/api/src/modules/search/search.service.ts:11-69 | the conditions start with the expiry test and add a text and a geo condition exactly when those filters are on; every placeholder names one of the bound values (pattern, longitude, latitude, metres); the order is distance when geo is on and newest first otherwise; the limit is 50; for every event the `WHERE` clause holds iff the event matches the search |
| SearchService.WhereMeansSearch | apps/api/src/modules/search/search.service.ts:11-39 | the conditions as they are pushed, evaluated with their bound values, select exactly the events matching the query |
| SearchService.Round2 | apps/api/src/modules/search/search.service.ts:44-49 | `ROUND(x::numeric, 2)` is within 0.005 of x and is non-negative when x is |
| SearchService.Matching | apps/api/src/modules/search/search.service.ts:66-67 | the rows selected are exactly the table's events matching the search |
| SearchService.Candidates | apps/api/src/modules/search/search.service.ts:52-67 | row i is for the i-th matching event, so the rows' events are the matching events in table order, none added and none repeated beyond the table; its counts and, with geo on, its rounded distance |
| SearchService.OrderedRowsAreSearchRows | apps/api/src/modules/search/search.service.ts:68 | any `ORDER BY` of the candidates is a true result row per position, and its events are a permutation of the matching events |
| SearchService.SearchEvents | apps/api/src/modules/search/search.service.ts:52-73 | the result is the first (at most) 50 rows of the ordering, each a true result row; ascending by distance with geo, descending by creation time without |
| SearchService.SearchKeepsNearestOrNewest | apps/api/src/modules/search/search.service.ts:68-69 | the result rows are matching rows; with geo on no row left out is nearer than a row kept, without geo no row left out is newer |
| SearchService.TypeOf | apps/api/src/modules/search/search.service.ts:44-49 | `ROUND(e, 2)` has a type only when e is `numeric`; a division whose left side is `double precision` and whose right side has a type is `double precision` |
| SearchService.DistanceTyping | apps/api/src/modules/search/search.service.ts:44-49 | `ROUND(ST_Distance(...) / 1000.0, 2)` as written has no type (no `round(double precision, integer)`), while the cast form is `numeric` |
| SearchService.SearchEventsAsWritten | apps/api/src/modules/search/search.service.ts:43-73 | as written, a search fails with the missing-`round` database error iff geo is on; a text-only search gives `SearchEvents` |
| SearchService.HandleSearchAsWritten | apps/api/src/modules/search/search.controller.ts:10-31 | with the validator as written: 400 iff it refuses; an accepted geo query gives the database error; any other gives `SearchEvents` |
| SearchService.TextConditionIsSubstring | apps/api/src/modules/search/search.service.ts:19-23 | for a `q` without `%`, `_` or backslash, the text condition is a case-insensitive substring test on the title or the description |
| SearchService.WildcardsNotEscaped | apps/api/src/modules/search/search.service.ts:23 | `q` is not escaped: the search "a_c" finds an event titled "abc" although "a_c" does not occur in it |
| SearchService.WhitespaceQuerySearchesEverything | apps/api/src/modules/search/search.service.ts:11-25 | as written, a whitespace-only `q` passes validation and the search selects every unexpired event |
| SearchService.HandleSearch | apps/api/src/modules/search/search.controller.ts:10-31 | answers 400 with the validator's message iff the query is refused; otherwise the result is `SearchEvents` on the parsed query: at most 50 true result rows, each selected by the text filter or the geo filter |
| SearchClient.HasQuery | apps/web/hooks/useSearch.ts:15 | the search runs iff `q` is non-empty or all three geo values are non-zero |
| SearchClient.SetEntry | apps/web/hooks/useSearch.ts:18-21 | `set` makes the name map to the value and leaves the other names' pairs alone; a new name goes at the end |
| SearchClient.QueryString.Set | apps/web/hooks/useSearch.ts:18-21 | the object's pairs become those `set` gives on the old pairs |
| SearchClient.QueryString.constructor | apps/web/hooks/useSearch.ts:17 | a new `URLSearchParams` has no pairs |
| SearchClient.AssembleShape | apps/web/hooks/useSearch.ts:17-21 | the names are set in the order q, lat, lng, radius_km, each once and only when its test holds, each with its own value |
| SearchClient.QueryEntriesShape | apps/web/hooks/useSearch.ts:17-21 | the client sends exactly the truthy parameters, in the fixed order, each with its value |
| SearchClient.BuildQueryString | apps/web/hooks/useSearch.ts:17-21 | the four guarded `set` calls produce exactly the parameter list the hook's truthiness tests give |
| SearchClient.ZeroLatitudeRejected | apps/web/hooks/useSearch.ts:19-21 | as written, a search for "rock" at latitude 0 is enabled but drops `lat`, and the server refuses it for the missing latitude, whenever `String` and `Number` round-trip 10 and 5 |
| SearchClient.DefinedEntriesReceived | apps/web/hooks/useSearch.ts:19-21 | with presence tests, the server receives exactly the parameters the client has, zeros included, whenever `String` and `Number` round-trip the numbers sent |
| SearchClient.RoundTripsForSomeCodec | apps/web/hooks/useSearch.ts:19-21 | for any search parameters, some `String`/`Number` pair round-trips every number they hold, so the round-trip premise can always be met |
| SearchClient.DefinedGeoAccepted | apps/web/hooks/useSearch.ts:15-25 | with presence tests, any in-range coordinates and radius pass the server's validation, whenever `String` and `Number` round-trip them |
| ChatService.IsEventActive | apps/api/src/modules/chat/chat.service.ts:11-18 | a missing event is inactive; an existing one is active iff it is live at `now` |
| ChatService.ActiveMeansLive | apps/api/src/modules/chat/chat.service.ts:13-17 | with unique ids, a lobby is active iff some event with that id has started and not ended |
| ChatService.SaveMessage | apps/api/src/modules/chat/chat.service.ts:21-33 | when `user_id` is an internal `users.id`, the message with the given id, content and time is appended to the comments and returned; otherwise the insert is refused by the foreign key, with a database error, and nothing changes |
| ChatService.GetRecentMessages | apps/api/src/modules/chat/chat.service.ts:36-52 | an inactive lobby gives no messages; an active one gives the first `limit` entries of the newest-first ordering of that event's comments |
| ChatService.RecentMessagesAreNewest | apps/api/src/modules/chat/chat.service.ts:36-52 | for an active lobby the messages are comments of the event, and no comment of the event left out is newer than one listed |
| ChatService.SavedMessageIsListed | apps/api/src/modules/chat/chat.service.ts:21-52 | a saved message that is strictly newer than every other comment of its active event is among the recent messages for any limit of at least one |
| ChatWs.Joined | apps/api/src/modules/chat/chat.ws.ts:23-26 | joining puts the socket in the event's room, creating the room if needed, and leaves other rooms alone; no room becomes empty |
| ChatWs.Left | apps/api/src/modules/chat/chat.ws.ts:28-31 | leaving removes the socket from the room and drops the room when it empties; other rooms do not change |
| ChatWs.JoinThenLeave | apps/api/src/modules/chat/chat.ws.ts:23-31 | a socket that joins a room it was not in and then leaves restores the map |
| ChatWs.NoExcludeReachesSender | apps/api/src/modules/chat/chat.ws.ts:72-73 | a broadcast without `exclude` reaches an open sender; excluding it would not |
| ChatWs.CheckContent | apps/api/src/modules/chat/chat.ws.ts:62-68 | the content is accepted, trimmed, iff it is a string whose trim has 1 to 1000 characters; missing or `null` content, or a bad length, gives "Message content invalid"; a non-string or a frame that is not JSON gives the processing failure |
| ChatWs.BlankContentInvalid | apps/api/src/modules/chat/chat.ws.ts:63-65 | whitespace-only content is refused as invalid |
| ChatWs.ChatPathEventId | apps/api/src/modules/chat/chat.ws.ts:97-105 | an accepted path yields a non-empty segment without `/` |
| ChatWs.ChatPathSegments | apps/api/src/modules/chat/chat.ws.ts:97 | `/chat/<id>` followed by more splits into "chat", the id, and the rest's segments |
| ChatWs.ChatPathAccepted | apps/api/src/modules/chat/chat.ws.ts:97-105 | `/chat/<id>` and `/chat/<id>/...` both name event `<id>` |
| ChatWs.ChatPathRefused | apps/api/src/modules/chat/chat.ws.ts:100-103 | worked examples: `/chat`, `/chat/` and `/lobby/e1` are refused |
| ChatWs.ChatPathRefusedAll | apps/api/src/modules/chat/chat.ws.ts:100-103 | every path whose first segment is not `chat` is refused, whatever follows it, and so is `/chat` followed only by slashes |
| ChatWs.UpgradeDecision | apps/api/src/modules/chat/chat.ws.ts:94-136 | the upgrade is accepted iff the path names an event, the token is present, Clerk accepts it with a user id, and the lobby is active; it yields that user and event |
| ChatWs.Lobby.constructor | apps/api/src/modules/chat/chat.ws.ts:21 | the room map starts empty and without empty rooms |
| ChatWs.Lobby.JoinRoom | apps/api/src/modules/chat/chat.ws.ts:23-26 | the map becomes the joined map and keeps the no-empty-room invariant |
| ChatWs.Lobby.LeaveRoom | apps/api/src/modules/chat/chat.ws.ts:28-31 | the map becomes the left map and keeps the no-empty-room invariant |
| ChatWs.Lobby.Broadcast | apps/api/src/modules/chat/chat.ws.ts:33-42 | the payload goes to exactly the open members of the room other than `exclude` |
| ChatWs.Lobby.OnMessage | apps/api/src/modules/chat/chat.ws.ts:48-77 | an unauthenticated socket is closed; a closed lobby or bad content gets its error; otherwise the socket's Clerk id is passed as `user_id`: when it is not a `users.id` the insert fails and the sender gets "Failed to process message"; else the message is stored and delivered to every open member |
| ChatWs.Lobby.OnMessageResolved | apps/api/src/modules/chat/chat.ws.ts:48-77 | the handler with the Clerk id resolved first: an unknown Clerk id gets "Failed to process message" and nothing changes; a known one stores the message under its internal id and delivers it to every open member |
| ChatWs.Lobby.HandleUpgrade | apps/api/src/modules/chat/chat.ws.ts:88-148 | the socket joins the event's room iff the upgrade is accepted; otherwise the map is unchanged |
| EventsValidation.ValidateCreateEvent | apps/api/src/modules/events/events.validation.ts:7-50 | success iff the title is a non-blank string, the coordinates are numbers in range, and both times are given and parse with the end after the start; each of the title and coordinate messages is reported exactly for its own first failure |
| EventsValidation.CreateLatRangeMessage | apps/api/src/modules/events/events.validation.ts:22-24 | the latitude message is reported exactly when the title and both coordinates are well typed and the latitude is out of range |
| EventsValidation.CreateLngRangeMessage | apps/api/src/modules/events/events.validation.ts:26-28 | the longitude message is reported exactly when the latitude is fine and the longitude is out of range |
| EventsValidation.CreateStartRequiredMessage | apps/api/src/modules/events/events.validation.ts:30-32 | "start_time is required" is reported exactly when everything before it passes and `start_time` is falsy |
| EventsValidation.CreateEndRequiredMessage | apps/api/src/modules/events/events.validation.ts:34-36 | "end_time is required" is reported exactly when everything before it passes and `end_time` is falsy |
| EventsValidation.CreateStartInvalidMessage | apps/api/src/modules/events/events.validation.ts:41 | the invalid-start message is reported exactly when everything before it passes and the start does not parse |
| EventsValidation.CreateEndInvalidMessage | apps/api/src/modules/events/events.validation.ts:42 | the invalid-end message is reported exactly when the start parses and the end does not |
| EventsValidation.CreateEndNotAfterStartMessage | apps/api/src/modules/events/events.validation.ts:45-47 | the order message is reported exactly when both times parse and the end is not after the start |
| EventsValidation.BlankTitleRefused | apps/api/src/modules/events/events.validation.ts:10-12 | a title whose trim is empty is refused as missing |
| EventsValidation.ValidateUpdateEvent | apps/api/src/modules/events/events.validation.ts:52-88 | success iff some allowed key is given, each coordinate given is a number in range, and, when both times are given, they parse with the end after the start; a time message needs both times given; each message is reported exactly for its own first failure |
| EventsValidation.UpdateStartInvalidMessage | apps/api/src/modules/events/events.validation.ts:78-85 | the update reports "start_time is not a valid date" iff the other fields pass and both times are given and `start_time` does not parse |
| EventsValidation.UpdateEndInvalidMessage | apps/api/src/modules/events/events.validation.ts:78-85 | the update reports "end_time is not a valid date" iff the other fields pass, both times are given, `start_time` parses and `end_time` does not |
| EventsValidation.UpdateEndNotAfterStartMessage | apps/api/src/modules/events/events.validation.ts:78-85 | the update reports "end_time must be after start_time" iff the other fields pass and both times parse with the end not after the start |
| EventsValidation.UnknownKeysIgnored | apps/api/src/modules/events/events.validation.ts:55-56 | keys outside the six allowed ones never change the outcome |
| EventsValidation.SingleCoordinatePasses | apps/api/src/modules/events/events.validation.ts:62-76 | a body with only `lat` passes |
| EventsValidation.ValidateUpdateAgainst | apps/api/src/modules/events/events.validation.ts:78-85 | the corrected validator accepts iff the original does and the times the row will have after the update parse with the end after the start; it keeps the original's message on failure and its verdict when both times are given |
| EventsService.AcceptedCreateIsTyped | apps/api/src/modules/events/events.validation.ts:10-28 | a body the create validator accepts has a typed form, with a non-blank title and in-range coordinates |
| EventsService.CreateEvent | apps/api/src/modules/events/events.service.ts:25-53 | succeeds iff PostgreSQL reads both times; then exactly one row is appended, with the trimmed title, the point `(lng, lat)`, the parsed times and the caller as owner; on failure nothing changes |
| EventsService.ValidatedCreateEndsAfterStart | apps/api/src/modules/events/events.validation.ts:38-47 | a validated creation stores an event that ends after it starts, so creation keeps that invariant of the table |
| EventsService.ValidatedCreateParses | apps/api/src/modules/events/events.validation.ts:38-42 | validation rules out every time PostgreSQL would refuse |
| EventsService.AttendeeRows | apps/api/src/modules/events/events.service.ts:86-100 | one attendee row per key, in the keys' order, with that key's status |
| EventsService.GetEventDetail | apps/api/src/modules/events/events.service.ts:74-104 | `null` iff the event is missing; otherwise the event, its like count, every attendance row of the event (`attendee_count` is their number), and the first 50 entries of the newest-first ordering of its comments |
| EventsService.DetailCommentsAreNewest | apps/api/src/modules/events/events.service.ts:89-93 | the detail's comments are comments of the event, and no comment of the event left out is newer than one listed |
| EventsService.PushColumn | apps/api/src/modules/events/events.service.ts:136-160 | one guarded push: when the dto supplies the column, its clause and values are appended with the next placeholder numbers, otherwise nothing changes; the built invariant is kept |
| EventsService.Push | apps/api/src/modules/events/events.service.ts:136-139 | appending a clause with fresh placeholders and the values they name keeps every clause bound and the numbering `$1..$n` |
| EventsService.PushKeepsBuilt | apps/api/src/modules/events/events.service.ts:134-160 | a clause pushed with fresh placeholders and the values they name keeps the builder's invariant |
| EventsService.BuildSetList | apps/api/src/modules/events/events.service.ts:132-160 | the clauses cover exactly the supplied columns in the service's order, every placeholder is bound, and the next index follows the last value |
| EventsService.BuildUpdateSql | apps/api/src/modules/events/events.service.ts:131-167 | one clause per supplied field, in order, numbered `$1..$n` and naming the values they should; the list is empty iff nothing is supplied; the id is bound last for `WHERE id = $n` |
| EventsService.ApplyDto | apps/api/src/modules/events/events.service.ts:136-160 | a supplied field replaces the stored one (the title trimmed, the location only with both coordinates); everything else, including id, owner and creation time, is kept; a time PostgreSQL refuses fails the update |
| EventsService.SuppliedColumnsApply | apps/api/src/modules/events/events.service.ts:164-170 | assigning the supplied columns in the service's order means what the dto means |
| EventsService.BuiltUpdateMeansDto | apps/api/src/modules/events/events.service.ts:164-170 | the built `SET` list, run by PostgreSQL on the stored row, does what the dto means |
| EventsService.ReplaceById | apps/api/src/modules/events/events.service.ts:164-170 | every row with the id becomes the updated row and no other row changes |
| EventsService.ReplaceByIdLookups | apps/api/src/modules/events/events.service.ts:164-172 | after the update, the id finds the new row and every other id finds what it found before |
| EventsService.UpdateOutcome | apps/api/src/modules/events/events.service.ts:109-173 | 404 iff the event is missing, 403 iff the caller is not the owner, PostgreSQL's syntax error iff nothing is supplied, otherwise what the dto means for the stored row |
| EventsService.UpdateEvent | apps/api/src/modules/events/events.service.ts:109-173 | returns the outcome; on success the stored row is replaced by the updated one and nothing else changes; on failure nothing changes |
| EventsService.RemoveById | apps/api/src/modules/events/events.service.ts:194 | the rows kept are exactly those with another id |
| EventsService.RemoveByIdLookups | apps/api/src/modules/events/events.service.ts:194 | after the delete, the id finds nothing and every other id finds what it found before |
| EventsService.DeleteEvent | apps/api/src/modules/events/events.service.ts:177-195 | 404 for a missing event and 403 for a caller who is not the owner, both leaving the tables unchanged; otherwise only that event's rows go |
| EventsService.SingleCoordinateUpdateFails | apps/api/src/modules/events/events.service.ts:146-166 | a body with only `lat`, or only `lng`, passes validation, yet the service builds an empty `SET` list, which PostgreSQL refuses |
| EventsService.PartialUpdateBreaksOrder | apps/api/src/modules/events/events.service.ts:152-160 | as written, an update of `start_time` alone to or past the stored end passes validation and is stored, giving an event that does not end after it starts |
| EventsService.PartialUpdateExample | apps/api/src/modules/events/events.service.ts:152-160 | an event from 10 to 20 whose start is moved to 30 is stored that way |
| EventsService.ReplaceKeepsEndsAfterStart | apps/api/src/modules/events/events.service.ts:164-170 | replacing rows by one that ends after it starts keeps the table's time order |
| EventsService.CorrectedUpdateKeepsOrder | apps/api/src/modules/events/events.validation.ts:78-85 | with the corrected validator, every successful update stores a row that ends after it starts, so updates keep the table's time order |
| Interactions.ToggledLikes | apps/api/src/modules/interactions/interactions.service.ts:22-37 | the pair's like is removed when present and added when absent; every other like is unchanged |
| Interactions.ToggleTwiceRestores | apps/api/src/modules/interactions/interactions.service.ts:22-36 | toggling twice gives back the original likes |
| Interactions.ToggleCount | apps/api/src/modules/interactions/interactions.service.ts:39-44 | the event's like count goes down by one on an unlike and up by one on a like |
| Interactions.ToggleOtherEvents | apps/api/src/modules/interactions/interactions.service.ts:25-35 | other events' like counts do not move |
| Interactions.ToggleLike | apps/api/src/modules/interactions/interactions.service.ts:10-45 | the like table is toggled and nothing else changes; `liked` is true iff the like was absent before, which is iff it is present now; the count is the event's likes afterwards |
| Interactions.StatusOf | apps/api/src/modules/interactions/interactions.controller.ts:35-36 | only the strings "going" and "interested" are accepted, as their statuses |
| Interactions.Upserted | apps/api/src/modules/interactions/interactions.service.ts:55-61 | the pair's row gets the status, inserted or updated; other rows are unchanged |
| Interactions.UpsertIdempotent | apps/api/src/modules/interactions/interactions.service.ts:55-61 | marking the same attendance again changes nothing |
| Interactions.UpsertCount | apps/api/src/modules/interactions/interactions.service.ts:63-68 | the event's attendance count grows by one for a new row and stays the same for a status change |
| Interactions.MarkAttendance | apps/api/src/modules/interactions/interactions.service.ts:49-69 | the attendance table gets the upserted row and nothing else changes; the status echoes the request and the count is the event's rows of any status |
| Users.ResolveDbUserId | apps/api/src/lib/resolveUser.ts:11-26 | a 401 with the profile-not-found message iff the Clerk id has no `users` row; otherwise that row's internal id |
| Users.ClerkIdIsNoUserId | apps/api/src/lib/resolveUser.ts:1-7 | when every `users.id` is a UUID (as `gen_random_uuid()` makes them), a Clerk id of the form `user_...` is never a `users.id` |
| Users.ToggledFollows | apps/api/src/modules/users/users.service.ts:45-57 | the follow row is removed when present and added with `now` when absent; other rows are unchanged |
| Users.ToggleFollowTwice | apps/api/src/modules/users/users.service.ts:45-57 | toggling twice restores which follows exist, and a new row followed by its removal restores the map |
| Users.ToggleFollow | apps/api/src/modules/users/users.service.ts:28-58 | 401 for an unknown caller and 400 for following oneself, both leaving the tables unchanged; otherwise only the follows table is toggled, and the result is true iff the follow now exists |
| Users.FollowersResultExists | apps/api/src/modules/users/users.service.ts:62-86 | both follower queries always have an answer: each user once, ordered by follow time |
| Users.FollowersAreFollowRows | apps/api/src/modules/users/users.service.ts:62-72 | the followers listed are exactly the users with a follow row for the user, each once |
| Users.FollowingIsConverse | apps/api/src/modules/users/users.service.ts:76-86 | g is among u's followed users iff u is among g's followers |
| Users.ToggleShowsInFollowers | apps/api/src/modules/users/users.service.ts:45-72 | after a toggle, the follower is listed among the followed user's followers iff the toggle returned true |
| CommentsValidation.StripTags | apps/api/src/modules/interactions/comments.validation.ts:12 | the result is no longer than the input and keeps only the input's characters |
| CommentsValidation.StripTagsNoTag | apps/api/src/modules/interactions/comments.validation.ts:12 | after the tags are removed no `<` is followed by a `>` |
| CommentsValidation.StripTagsTagFree | apps/api/src/modules/interactions/comments.validation.ts:12 | a string without tags is left as it is |
| CommentsValidation.StripHtmlNoTag | apps/api/src/modules/interactions/comments.validation.ts:11-13 | the result of `stripHtml` has no tag |
| CommentsValidation.StripHtmlIdempotent | apps/api/src/modules/interactions/comments.validation.ts:11-13 | sanitising twice gives what sanitising once gives |
| CommentsValidation.ValidateAndSanitizeComment | apps/api/src/modules/interactions/comments.validation.ts:15-37 | "content is required" iff the content is not a non-blank string; the empty-after-sanitising and too-long messages exactly for their inputs; success iff the sanitised text has 1 to 1000 characters, and then the content is that text, free of tags |
| CommentsValidation.SingleTagStripped | apps/api/src/modules/interactions/comments.validation.ts:12 | a single tag `<...>` is removed entirely |
| CommentsValidation.OnlyTagsRefused | apps/api/src/modules/interactions/comments.validation.ts:26-30 | content made only of a tag is refused as empty after sanitising, not as missing |
| CommentsValidation.UnclosedKept | apps/api/src/modules/interactions/comments.validation.ts:12 | a `<` with no `>` after it is kept |
| ErrorHandler.HandleError | apps/api/src/middleware/errorHandler.ts:8-34 | the status is the error's, or 500 without one; the error's own message is sent for a status below 500 and outside production; otherwise production sends "Internal Server Error"; `success` is false |
| ErrorHandler.NoLeakInProduction | apps/api/src/middleware/errorHandler.ts:14-24 | in production a 5xx response carries the generic message, and the error's own message is sent iff the error is a known one |
| ErrorHandler.FailureResponse | apps/api/src/middleware/errorHandler.ts:14-33 | a service error below 500 reaches the client with its own status and text; a database error is a 500 whose text production hides |
| ErrorHandler.ServiceErrorsExposed | apps/api/src/middleware/errorHandler.ts:19-21 | the 400, 401, 403 and 404 errors the services raise reach the client unchanged |
| Text.TrimIsSlice | apps/api/src/modules/interactions/comments.validation.ts:12 | the trim is a slice `s[a..b]` of its input whose cut-off ends `s[..a]` and `s[b..]` are whitespace; with `TrimEnds` this fixes it as the input without its blank ends |
| Text.TrimEmpty | apps/api/src/modules/interactions/comments.validation.ts:22 | the trim is empty iff every character is whitespace |
| Text.TrimEnds | apps/api/src/modules/interactions/comments.validation.ts:12 | a non-empty trim starts and ends with a non-whitespace character |
| Text.TrimOfTrimmed | apps/api/src/modules/interactions/comments.validation.ts:12 | a string without whitespace at either end is its own trim |
| Text.TrimIdempotent | apps/api/src/modules/interactions/comments.validation.ts:12 | trimming twice gives what trimming once gives |
| Text.Lower | apps/api/src/modules/search/search.service.ts:21 | lower-casing keeps the length and folds each character on its own |
| Text.LiteralMatch | apps/api/src/modules/search/search.service.ts:23 | a pattern without `%`, `_` or backslash matches exactly itself |
| Text.ContainsPattern | apps/api/src/modules/search/search.service.ts:21-23 | for such a `q`, `%q%` matches a string iff `q` occurs in it |
| Text.ILikeContains | apps/api/src/modules/search/search.service.ts:21-23 | `ILIKE '%q%'` for such a `q` is case-insensitive substring search |
| Text.UnderscoreIsWildcard | apps/api/src/modules/search/search.service.ts:23 | `%a_c%` matches "abc" although "a_c" does not occur in it |
| Schema.FindEvent | apps/api/src/modules/events/events.service.ts:75-80 | the row found has the id and is in the table; nothing is found iff no row has the id |
| Schema.CommentsOf | apps/api/src/modules/events/events.service.ts:89-93 | exactly the table's comments of the event, no more |
| Schema.OrderedComments | apps/api/src/modules/events/events.service.ts:89-93 | any `ORDER BY created_at DESC` of an event's comments lists exactly that event's comments |
| Ordering.SortDesc | apps/api/src/modules/feed/feed.service.ts:39 | the sorted rows are an ordering of the input by the key, descending: a permutation whose keys never increase |
| Ordering.AscOrderingExists | apps/api/src/modules/search/search.service.ts:68 | every row sequence has an ascending ordering |
| Ordering.DescOrderingExists | apps/api/src/modules/feed/feed.service.ts:39 | every row sequence has a descending ordering |
| Ordering.Window | apps/api/src/modules/feed/feed.service.ts:40 | `LIMIT`/`OFFSET` gives at most `limit` rows, the rows at positions `offset` onward |
| Json.Field | apps/api/src/modules/events/events.validation.ts:8-10 | a missing key reads as `undefined`, and a present one reads as its value |

## Left out

- Database I/O, connection pooling and `Promise.all` are left out. Each query is a function of the tables, and concurrent queries read the same tables.
- Each query calls `NOW()` at its own instant. The model uses one instant `now` per request, shared by the feed's two queries and by the chat checks that take place in one handler.
- PostGIS, `ST_Distance` and `ST_MakePoint` are outside the model: the distance is a parameter. A point is a pair of reals, with no check of the spatial reference system.
- `EXP` and floating point are outside the model: the decay is any function that meets the stated law, and scores are exact reals.
- JavaScript coercions are modelled as parameters or data. `Number`, `parseInt` and `new Date` appear as inputs already classified (a number, `NaN`, missing) or as a parser parameter; PostgreSQL's timestamp input is a second parser. The two are linked by the `SameDates` law.
- `trim` and `ILIKE` case folding cover ASCII only, and lengths count characters rather than UTF-16 code units.
- Foreign keys and `ON DELETE CASCADE` are not modelled, except that a chat message's `user_id` must be a `users.id`. `DeleteEvent` removes the event's row; the likes, attendance rows and comments that the database would cascade are left in place.
- Likes are a set of (user, event) pairs. The like rows have their own generated `id`, and nothing shown enforces one row per pair; the model takes the pair to be unique, as a `UNIQUE (user_id, event_id)` constraint would make it. Duplicate rows from two toggles racing between the `SELECT` and the `INSERT` are not modelled, nor are the rows' `id` and `created_at`.
- EventsService.ReplaceById: exact for one row under unique ids, as the primary key ensures; the contract states the replacement of every row with the id.
- EventsService.CreateEvent: follows a body only in its typed form. `CreateDtoOf` and `UpdateDtoOf` give no form for a body whose fields have undeclared types; what the service would do with such values is not modelled.
- Feed.GetFeed: a negative `LIMIT` or `OFFSET` is modelled as a database error. The controller never produces one.
- Feed.GetFeed: an offset of `1e21` or more is sent in JavaScript's exponent notation, which `bigint` refuses too; the model folds it into the out-of-range error. When both queries fail, the model reports the page query's error, while `Promise.all` reports whichever fails first.
- FeedController.PageOf: a page parameter is the number `parseInt` returns, taken exactly. Above `Number.MAX_SAFE_INTEGER` the program rounds the digits to a double and computes `(page - 1) * limit` in floating point, so its echoed page and offset can differ from the model's; `SafePageServed` covers every page below that bound.
- SearchClient.HasQuery: a JavaScript `NaN` in the client's parameters is not represented.
- SearchClient.BuildQueryString: URL percent-encoding and the literal `/search?` prefix are left out; the string is modelled as its list of name/value pairs.
- SearchService.HandleSearch: models the `/search` handler with both corrections, the trimmed validator and the `::numeric` cast (see Findings); the as-written handler is `HandleSearchAsWritten`.
- Feed.PagesCoverRanking: every page is served from one ordering. Separate requests may tie-break differently, and the model does not cover that case.
- The error handler's `console.error` logging is left out.
- `getEventById` appears only through `Schema.FindEvent`, as the lookups inside update and delete. `getUserById` (apps/api/src/modules/users/users.service.ts:11) is not modelled: it is a one-row profile read that none of the modelled operations calls.
- Users.FollowersAreFollowRows: the follower lists are modelled as internal user ids; the joined profile columns are left out.
- ChatWs.Lobby.OnMessage: the `ws.close` code and reason are reduced to an outcome tag, and the `connection` emit and the `close` listener are not modelled beyond `LeaveRoom`.
- WebSocket transport and `readyState` are left out: the set of open sockets is a parameter.
- Clerk's token verification is a parameter, `authenticate`.
- EventsService.ValidatedCreateEndsAfterStart: the link between the two date parsers holds only for strings with an explicit offset, so the lemma requires both times to carry one; a string without one is read in the server's and the browser's time zones, which may differ.
- EventsService.ValidatedCreateParses: requires explicit offsets on both times, for the same reason.
- EventsService.CorrectedUpdateKeepsOrder: requires an explicit offset on each time given, for the same reason.
- Instants are whole microseconds, as `timestamptz` stores them; that a JavaScript `Date` is a whole number of milliseconds is not enforced.
- The REST comment and interaction handlers are not part of this model; only the chat path's use of the Clerk id is.

## Findings

| source | as written | input that shows it | evidently intended | confidence | as-written member | corrected member |
|---|---|---|---|---|---|---|
| apps/api/src/modules/search/search.validation.ts:27-36 | the emptiness check tests `q` before it is trimmed, while `parseSearchQuery` trims it | `q=" "` with no geo parameters passes, and the search returns every unexpired event | a query that is blank once trimmed is refused with the "Provide at least a text query" message | not executed | SearchValidation.WhitespaceQueryAccepted, SearchService.WhitespaceQuerySearchesEverything | SearchValidation.ValidateSearchQueryTrimmed, SearchValidation.TrimmedValidationGivesFilter |
| apps/api/src/modules/events/events.validation.ts:79-85 | the update validator checks the time order only when both times are in the body | an event from 10 to 20 that is updated with `start_time` 30 alone is stored starting after it ends | the order is checked on the times the row will have after the update | not executed | EventsService.PartialUpdateBreaksOrder, EventsService.PartialUpdateExample | EventsValidation.ValidateUpdateAgainst, EventsService.CorrectedUpdateKeepsOrder |
| apps/web/hooks/useSearch.ts:19-21 | each coordinate is sent only when truthy, so 0 is dropped | q "rock", lat 0, lng 10, radius 5: the search is enabled, `lat` is not sent, and the server answers 400 "lat (number) is required for geo search" | each parameter is sent when it is defined | not executed | SearchClient.ZeroLatitudeRejected | SearchClient.QueryEntriesDefined, SearchClient.DefinedEntriesReceived, SearchClient.DefinedGeoAccepted |
| apps/api/src/modules/search/search.service.ts:43-49 | the distance is `ROUND(ST_Distance(...) / 1000.0, 2)`; the quotient is `double precision`, and PostgreSQL has no `round(double precision, integer)` | any search with `lat`, `lng` and `radius_km`, such as lat 40, lng -74, radius 5: the statement is refused with "function round(double precision, integer) does not exist" | the quotient is cast first, `ROUND((ST_Distance(...) / 1000.0)::numeric, 2)`, and the nearest events are returned | not executed | SearchService.DistanceTyping, SearchService.SearchEventsAsWritten, SearchService.HandleSearchAsWritten | SearchService.SearchEvents, SearchService.SearchKeepsNearestOrNewest, SearchService.HandleSearch |
| apps/api/src/modules/chat/chat.ws.ts:70 | the chat handler stores the socket's Clerk id (set at line 140) as the comment's `user_id`, while `user_id` refers to the UUID `users.id` (apps/api/src/lib/resolveUser.ts:1-7) | any authenticated chat message, from Clerk user "user_2abc": the insert is refused, by the foreign key or, if `user_id` is a `uuid` column, by the cast of "user_2abc" to `uuid`, and the sender gets "Failed to process message" | the Clerk id is resolved to the internal id with `resolveDbUserId` before the insert | not executed | ChatWs.Lobby.OnMessage, Users.ClerkIdIsNoUserId | ChatWs.Lobby.OnMessageResolved |
