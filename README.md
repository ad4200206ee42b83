# Finland train tracker — a Dafny model of its feed and search logic

The tracker is a Dash web application that shows the trains of the
Finnish railway network on a map. It exists in two near-identical versions:
`train_tracker.py`, a desktop app that uses pandas, and `api/vercel_app.py`,
a serverless deployment that uses plain lists. Both versions poll a GTFS
Realtime vehicle-positions feed. Each poll turns the feed entities into train
records, with a per-process rate limit and a label that says how the
snapshot was captured. A search box filters the trains, and the result is
listed in id order next to the map markers and a few summary counts.

The model has six modules:

- `Gtfs` (gtfs.dfy): the decoded `FeedEntity` / `VehiclePosition`
  messages. Every optional sub-message and field is an `Option`.
- `Trains` (trains.dfy): the train record and the normaliser loop.
  - The loop is a method, `Normalize`. It is proved equal to a recursive
    specification, `Normalized`.
  - Lemmas then say which entities are kept, in which order, and what each
    record contains.
- `FeedClient` (feed_client.dfy): `fetch_train_locations`.
  - The process-wide `last_request_time` is the field of a `Client`
    class.
  - The request outcome is a parameter, and so are the clock readings and
    the time of day.
  - The capture label is a function with an inverse, `ParseSuffix`.
- `Text` (text.dfy): the string operations the search relies on:
  - `strip`, `isdigit` and substring search;
  - ASCII lower-casing and code-point string order;
  - decimal rendering of a status code.
- `Search` (search.dfy): `filter_trains`, the pandas search cascade and
  the sort by id. The cascade is modelled as written, which is what the
  list shows, and also as evidently intended (see Findings).
- `Views` (views.dfy): what the callbacks compute from the train list:
  - the moving/stopped classification and the summary counts;
  - the `update_data` serialisation, and the store it replaces;
  - the marker arrays of `update_map`;
  - the items of `update_train_list`.

`App` selects between the two versions where they differ:

- which optional text fields are shown;
- which search runs;
- whether the statistics line is present.

Time is a `real`, and so are latitude, longitude and speed. That makes the
×3.6 speed conversion exact.

## Model

| member | source | states |
|---|---|---|
| FeedClient.Client.constructor | train_tracker.py:33 | no successful request is on record at start-up (`last_request_time` is 0) |
| FeedClient.WaitBefore | train_tracker.py:42-48 | the wait is never negative. After a successful request (`last > 0`), the request goes out at least 5 s after it, and any wait ends exactly 5 s after it. There is no wait iff there was no previous request or 5 s have already passed |
| FeedClient.CaptureOf | train_tracker.py:55-136 | the snapshot is fresh iff the status is 200 and the body decodes. A non-200 status is reported with its own code. A 200 whose body does not decode is reported by the catch-all handler. `HTTPError`, `ConnectionError`, `Timeout`, `RequestException` and any other exception are reported as API error, connection error, timeout, request error and unexpected error |
| FeedClient.FetchedTrains | train_tracker.py:57 | trains are returned only for a fresh snapshot, and then they are the normalised feed. Every error path returns an empty list |
| FeedClient.MarksRequest | train_tracker.py:55-60 | the last-request time is recorded for every fresh snapshot, and otherwise only for a status-200 answer whose body fails to decode (the catch-all case) |
| FeedClient.Suffix | train_tracker.py:113-136 | the label has no suffix iff the capture is fresh; every other suffix is a parenthesised note after a space |
| FeedClient.CaptureLabel | train_tracker.py:57 | the label starts with the time of day, and it is the bare time of day iff the capture succeeded |
| FeedClient.ParseSuffixRoundTrip | train_tracker.py:113-136 | each category's suffix (`(Error: <code>)`, `(API Error)`, `(Connection Error)`, `(Timeout)`, `(Request Error)`, `(Error)`, or none) reads back to that category |
| FeedClient.CaptureLabelInjective | train_tracker.py:113-136 | at one time of day, two different captures never share a label, so each label names exactly one outcome |
| FeedClient.ServiceUnavailableLabel | train_tracker.py:55-57 | a 503 answer yields no trains and the label `<time> (Error: 503)` |
| FeedClient.Client.Fetch | train_tracker.py:37-136 | the request time is `now` plus the rate-limit wait, at least 5 s after the previous successful request. `last_request_time` becomes the completion time iff the status is 200, even when the body then fails to decode, and is unchanged otherwise. The returned trains and label are those of the outcome |
| FeedClient.FetchTwice | api/vercel_app.py:59-79 | after a call answered with status 200, the next request goes out at least 5 s after that call's request |
| Trains.VehicleId | train_tracker.py:73 | the id is the descriptor's id when set, and "Unknown" otherwise |
| Trains.TripField | train_tracker.py:95-100 | a trip field is present only when the trip sub-message is, and is then the field itself |
| Trains.Record | train_tracker.py:73-111 | the record carries the entity's vehicle id and its latitude and longitude. Its speed is the feed speed × 3.6, and is absent (never 0) when the feed omits it. The timestamp is present iff the feed sets one, and then holds the feed's epoch seconds. `trip_id` and `route_id` come from the trip, or are `None` without one |
| Trains.RecordMoving | train_tracker.py:81-84 | a record counts as moving iff the feed reported a positive speed in m/s |
| Trains.Normalized | api/vercel_app.py:86-130 | the specification of the normaliser loop never yields more records than the feed has entities |
| Trains.Normalize | train_tracker.py:67-111 | the loop returns exactly the specification list `Normalized`: one record per entity with a vehicle position that has a position, in feed order |
| Trains.NormalizedMatchesKeptEntities | train_tracker.py:68-103 | record k comes from the k-th kept entity. The kept indices are increasing, and an index is kept iff its entity has both a vehicle and a position |
| Trains.NormalizedStampsAreMoments | train_tracker.py:89-92 | every normalised timestamp is a `datetime` from epoch seconds, never text |
| Trains.NormalizedLength | api/vercel_app.py:86-130 | the train list is exactly as long as the number of kept entities, and no longer than the feed |
| Text.Strip | api/vercel_app.py:256 | the stripped query has no leading or trailing whitespace, and it is a contiguous slice of the input |
| Text.StripIdempotent | train_tracker.py:347 | stripping a stripped query changes nothing |
| Text.StripUnpadded | train_tracker.py:347 | a query with no surrounding whitespace is left unchanged by strip |
| Text.TrimStartDropsSpace | api/vercel_app.py:256 | trimming the start drops a whitespace prefix and nothing else |
| Text.TrimEndDropsSpace | api/vercel_app.py:256 | trimming the end drops a whitespace suffix and nothing else |
| Text.ContainsIffOccurs | api/vercel_app.py:264 | `q in id` holds iff `q` occurs at some position of `id` |
| Text.Lower | train_tracker.py:366 | case-insensitive matching compares ASCII-lowered strings of the same length, character by character |
| Text.LexLeTotal | api/vercel_app.py:381 | the `str` order used as the sort key relates any two ids |
| Text.LexLeTransitive | api/vercel_app.py:381 | the `str` order is transitive |
| Text.NatString | train_tracker.py:57 | a rendered status code is a non-empty string of digits without a leading zero |
| Text.ParseIntString | train_tracker.py:57 | the rendered status code reads back to the code |
| Search.Select | api/vercel_app.py:259 | a comprehension never returns more trains than its input |
| Search.SelectMembers | api/vercel_app.py:259 | the comprehension keeps exactly the input trains whose id matches |
| Search.SelectIsSubsequence | api/vercel_app.py:264 | a comprehension keeps the input order: its result is a subsequence |
| Search.SelectAppend | api/vercel_app.py:381 | selecting from a concatenation is the concatenation of the selections |
| Search.FilterStripped | api/vercel_app.py:256-265 | the search after strip never returns more trains than it was given |
| Search.FilterTrains | api/vercel_app.py:252-265 | `filter_trains` never returns more trains than it was given |
| Search.FilterStrippedMeaning | api/vercel_app.py:256-265 | after strip, if some id equals the query the result is exactly those trains; otherwise it is exactly the trains whose id contains the query, case-sensitively. It is always a subsequence of the input |
| Search.FilterTrainsMeaning | api/vercel_app.py:252-265 | an absent or empty query returns the input unchanged, and any query returns a subsequence of it |
| Search.TrackerSearchAsWritten | train_tracker.py:345-366 | the tracker's search, as written, never returns more trains than the list holds |
| Search.CascadeAsWritten | train_tracker.py:349-366 | the cascade after strip, as written, never returns more trains than it was given |
| Search.TrackerSearchAsWrittenMeaning | train_tracker.py:345-366 | as written, an absent or empty search keeps every train, and any search returns a subsequence of the list |
| Search.AsWrittenTextQueryContains | train_tracker.py:364-366 | as written, a search that is not all digits keeps exactly the trains whose id contains it, ignoring case |
| Search.AsWrittenDigitQueryIsExact | train_tracker.py:346-363 | as written, an all-digit query returns exactly the trains whose id equals it; the fallbacks never add a row |
| Search.AsWrittenMissesFallback | train_tracker.py:353-363 | as written, the query "14" against the ids {"149"} returns nothing, although the id contains the query; the corrected search returns that train |
| Search.TrackerSearch | train_tracker.py:353-363 | the corrected search (fallbacks over the whole list) never returns more trains than the list holds |
| Search.Cascade | train_tracker.py:353-363 | the corrected cascade never returns more trains than it was given |
| Search.CascadeSound | train_tracker.py:346-366 | every train the corrected cascade returns comes from the input, in order, and its id contains the query ignoring case |
| Search.CascadeComplete | train_tracker.py:350-366 | the corrected cascade finds something whenever some id contains the query ignoring case, for a non-digit or short digit query. When an id equals an all-digit query, it returns exactly the exact matches |
| Search.TrackerSearchMeaning | train_tracker.py:353-363 | for the corrected search, an absent or empty search keeps every train, and any search returns a subsequence of the list |
| Search.TextQueryContains | train_tracker.py:364-366 | the corrected search agrees with the one as written on a search that is not all digits: exactly the trains whose id contains it, ignoring case |
| Search.OrderedIsSorted | api/vercel_app.py:381 | adjacent order implies that every id is at most every later id |
| Search.Insert | api/vercel_app.py:381 | inserting a train lengthens the list by exactly one |
| Search.InsertPermutes | api/vercel_app.py:381 | inserting adds exactly that one train to the multiset |
| Search.InsertOrdered | api/vercel_app.py:381 | insertion keeps the list ordered |
| Search.InsertStable | api/vercel_app.py:381 | the new train goes after every train of equal id already present |
| Search.SortById | api/vercel_app.py:381 | sorting keeps the length of the list |
| Search.SortByIdOrdered | api/vercel_app.py:381 | the sorted list is ordered by id |
| Search.SortByIdStable | api/vercel_app.py:381 | trains with the same id keep their original relative order (`sorted` is stable) |
| Search.SortByIdPermutes | api/vercel_app.py:381 | sorting is a permutation of its input |
| Search.SortByIdCorrect | api/vercel_app.py:381 | the result is sorted by id, is a permutation of the input, and is stable |
| Views.StatusOf | api/vercel_app.py:387-390 | a train is reported "Moving" iff its speed is present and positive |
| Views.ColorOf | api/vercel_app.py:305-307 | a marker is blue iff its train is moving |
| Views.StoppedMeansNoPositiveSpeed | api/vercel_app.py:305-307 | a train is stopped (red) iff its speed is absent or not positive, and an absent speed is always stopped |
| Views.CountMoving | api/vercel_app.py:420 | the moving count is at most the number of trains |
| Views.CountMovingIsCardinality | api/vercel_app.py:420 | the count equals the number of positions that hold a moving train |
| Views.SummaryOf | api/vercel_app.py:419-421 | the total is the number of trains, moving + stopped = total, and moving is the number of moving trains |
| Views.SerializeTrain | api/vercel_app.py:244-247 | only the timestamp changes: a present timestamp becomes its ISO text, and an absent one stays absent |
| Views.SerializeTrains | api/vercel_app.py:242-249 | the serialised list has the same length and order, and record i is record i with only its timestamp converted |
| Views.FetchedStampsAreFresh | train_tracker.py:219-228 | every list the feed client returns can be serialised: its timestamps are `datetime`s |
| Views.TrainStore.constructor | train_tracker.py:139-203 | the store starts without trains, and the update-time text shows the label of the start-up fetch. The store's initial `None` and an empty list are treated alike by every callback (`if not train_data`) |
| Views.TrainStore.UpdateData | train_tracker.py:219-230 | the store is replaced wholesale by the serialised fetch result and its label, so on an error it holds no trains. The client's rate-limit state is updated as by one fetch |
| Views.HoverOf | api/vercel_app.py:309-318 | route and trip lines appear iff the field is shown: train_tracker.py shows any present value, api/vercel_app.py only a non-empty one. A shown line holds the record's own value. The id, speed and position are the record's |
| Views.MapMarkers | api/vercel_app.py:290-321 | the five marker lists are as long as the train list, and entry i of each comes from train i. The number of blue markers equals the summary's moving count |
| Views.ItemOf | api/vercel_app.py:386-411 | a list item says "Moving" iff the train is moving, and it shows a route iff the route field is shown, and then the record's own route. The id, speed and position are the record's |
| Views.Displayed | api/vercel_app.py:373-381 | the displayed list is never longer than the train list |
| Views.DisplayedMeaning | api/vercel_app.py:376-381 | the listed trains are sorted by id and are a permutation of the search result, which is a subsequence of the train list. For train_tracker.py the search is the one as written. In api/vercel_app.py, equal ids keep their original order |
| Views.BuildItems | api/vercel_app.py:384-413 | one item per train, in the same order, item i describing train i |
| Views.UpdateTrainList | api/vercel_app.py:369-429 | an empty store gives "No trains found", and a search with no result gives "No trains match your search". Otherwise there is one item per displayed train, in display order; train_tracker.py displays the result of its search as written. The statistics (api/vercel_app.py only) count the whole train list, whatever the search |

## Left out

- HTTP and decoding are not modelled:
  - the `requests` session, its headers and its timeout;
  - protobuf `ParseFromString`.

  The outcome of the request is a parameter. The categories of `requests`
  exceptions are taken as disjoint, although `ConnectTimeout` is both a
  connection error and a timeout in Python.
- Clock, sleep and formatting are not modelled:
  - `time.time`, `time.sleep` and `datetime.now().strftime`;
  - `datetime.fromtimestamp` in the local time zone, and `isoformat`;
  - `format_timestamp` (api/vercel_app.py:38-53).

  They become parameters: `now`, `completedAt`, the time-of-day text and an
  `isoformat` function. An epoch value outside the platform's `datetime`
  range, which raises in Python, is not modelled.
- The Dash/Plotly presentation is not modelled: layout, callback wiring,
  figure construction, the HTML of list items and number formatting
  (`:.1f`, `:.4f`). Hover texts and list items are modelled by their
  content, not by their markup.
- Latitude, longitude and speed are exact reals, not binary floating point.
- Concurrent runs of the interval and button callbacks are not modelled.
- test_gtfs_endpoint.py (a network diagnostic script) and api/index.py (an
  import shim) are not part of this model.
- Search.Matches: `str.contains` at train_tracker.py:366 treats the query
  as a regular expression. The model treats it as a literal substring. The
  two agree on queries without regex metacharacters, and every all-digit
  query is one.
- Search.IsWordChar: the word characters of the `\b` pattern at
  train_tracker.py:358 are ASCII letters, digits and `_`. Python's `re` also
  counts non-ASCII letters and digits as word characters.
- Text.Lower: case folding and `isdigit` are ASCII only. Python also lowers
  non-ASCII letters and accepts non-ASCII digits.
- Text.Strip: the whitespace set is ASCII whitespace plus the separators
  U+001C–U+001F. Python's `str.strip` also removes non-ASCII whitespace.
- Views.DisplayedMeaning: for train_tracker.py it claims only sorted order
  and permutation. pandas `sort_values` (train_tracker.py:372) is not a
  stable sort, so the model's stable order among equal ids is one of the
  orders it may produce.
- Trains.Record: the source's records are dicts, and the model's records
  are a datatype with the same seven fields. `update_map` of
  train_tracker.py goes through a DataFrame, where `None` becomes `NaN`;
  the model keeps `None` as `None`, and the check for a missing value
  (`pd.notna`) is read as a test for `None`.
- FeedClient.FetchTwice: the spacing bound assumes the first call completes
  no earlier than its request is sent, at a positive clock reading. Only
  status-200 answers update `last_request_time`, so after an error answer
  the next request may go out immediately. This follows the code, not the
  intent stated for the rate limit ("minimum time between requests").

## Findings

| source | as written | input that shows it | evidently intended | confidence | as-written member | corrected member |
|---|---|---|---|---|---|---|
| train_tracker.py:353-363 | after an all-digit query with no exact match, the word-boundary and substring fallbacks filter `df`, which line 353 has already replaced by the empty exact-match frame, so they never find anything | trains with ids {"149"} and the search "14": the result is empty | the fallbacks search the whole train list, as the comments at lines 355 and 361 say, so "14" finds train "149" | not executed | Search.AsWrittenMissesFallback | Search.CascadeComplete |
