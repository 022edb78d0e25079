# Immich iPad photo frame: the photo sampler, modelled in Dafny

The server picks photos at random from an Immich library and gives them to an
iPad slideshow one at a time. Its core is `PhotoCache`:

- it keeps a FIFO queue of ready photos and the set of photo IDs shown in the current cycle;
- when the queue is empty it makes up to ten attempts, each asking the Immich
  metadata search for one record of a random page in `[1, maxPage]`;
- it enqueues the first record whose ID has not been shown yet;
- every dispatch marks the ID as shown, and once `maxPage * 10` IDs have been
  shown the set is cleared and a new cycle starts.

Alongside the cache the model covers:

- the post-decode part of a search: screenshots are dropped, each kept asset
  becomes a `PhotoInfo` with its date formatted, and `hasMore` is computed;
- `formatDate`: an asset timestamp becomes "<day> <Turkish month> <year>", or "" when it cannot be read;
- the location line of an asset: city and country joined by ", ", with `state` ignored;
- `loadConfig` defaulting over an environment map;
- start-up: refuse to run without URL and API key, then build the cache with `maxPage = 85000`.

main.go holds an earlier, behaviourally identical copy of cache.go, config.go,
format.go and the location join; there `fetchPage` takes the client and
configuration as parameters and `fetchCity` is a free function. One model serves both copies. main.go's own lines are
cited for construction and start-up.

Modules and files:

| file | module | contents |
|---|---|---|
| wrappers.dfy | Wrappers | `Option` |
| decimal.dfy | Decimal | digit strings, `%d` printing, `strconv.Atoi` |
| format.dfy | Format | `PhotoInfo`, the month table, the two timestamp layouts, `formatDate` |
| immich.dfy | Immich | the decoded shape of a metadata-search response |
| sequences.dfy | Sequences | order-preserving filter and map over sequences |
| location.dfy | Location | the location join and the lazy city fill of `/random` |
| config.dfy | Configuration | `Config` and `loadConfig` |
| cache.dfy | Cache | the screenshot filter, the refill specification, the `PhotoCache` class |
| startup.dfy | Startup | the start-up check and cache construction of `main` |

The cache is a class with these fields:

- `queue: seq<PhotoInfo>`;
- `shown: set<string>` (the Go map is only ever set to `true`);
- `maxPage`;
- `cfg`;
- a ghost `dispatched`, the IDs handed out this cycle in order.

Its invariant `Valid()` says:

- `shown` is exactly the set of `dispatched`;
- no ID was dispatched twice in the cycle;
- `|shown| < maxPage * 10`;
- queued records are distinct, unshown and unresolved.

`FillQueue` and `Next` are proved against the specification function
`FirstFresh`, the first usable attempt. Each call receives the ten
`rand.Intn(maxPage)` draws and the ten per-attempt search outcomes, with
`None` standing for any request, transport, status or decode failure. Each
call returns the search request bodies it builds, one per attempt.

## Model

| member | source | states |
|---|---|---|
| Cache.PhotoCache.Next | cache.go:98-120 | Keeps `Valid()`: no ID is dispatched twice in a cycle, and `shown` stays below `maxPage*10`. A non-empty queue is served without any request: the old head is returned and the queue becomes its tail. An empty queue is refilled by `FirstFresh`; if that finds nothing the result is `None` and nothing changes. The dispatched ID was not shown before, and it is in `shown` unless the set was just cleared on reaching the threshold. The queue is empty after a call that found it empty, and the returned record is unresolved. Same rules as main.go:252-274. |
| Cache.PhotoCache.FillQueue | cache.go:24-38 | `shown` is untouched. The queue gains exactly the record of the first attempt that yields a record with an unshown ID, or stays unchanged when there is none. One request body is built per attempt, up to and including that attempt, at most ten. Request `i` is for page `draws[i]+1` in `[1, maxPage]`, size 1, type IMAGE and the configured model. Same rules as main.go:178-192. |
| Cache.PhotoCache.FetchPage | cache.go:79-95 | The records are exactly `PagePhotos(outcome)`: the kept items in order, none for a failure or an empty page. All records are unresolved. `hasMore` holds iff the page had items, `nextPage` is non-empty and there are at least `pageSize` items. Same as main.go:233-249. |
| Cache.PhotoCache.constructor | main.go:89-94 | A new cache has an empty queue and shown set, the given `maxPage` and configuration, and satisfies `Valid()`. |
| Cache.FirstFresh | cache.go:25-36 | The attempt found lies in range and yields a record whose ID is not in `shown`, and that record is the attempt's first. |
| Cache.FirstFreshSkipsOnlyUnusable | cache.go:28-36 | Every attempt before the one that ends the refill yielded nothing or an already shown ID. |
| Cache.FirstFreshNoneIff | cache.go:25-37 | A refill finds nothing iff every attempt yields an empty list or an already shown ID (both directions). |
| Cache.FirstFreshStep | cache.go:28-36 | A usable attempt ends the refill with its first record; an unusable one passes on to the next attempt. |
| Cache.AttemptsMade | cache.go:25-35 | One refill builds between 1 and 10 request bodies. |
| Cache.RequestsForSnoc | cache.go:26-27 | Each attempt adds the request for its own draw. |
| Cache.RequestsInRange | cache.go:26-27 | Every request is for a page in `[1, maxPage]` with size 1. |
| Cache.ToLower | cache.go:85 | Lower-casing keeps the length and lower-cases each character. |
| Cache.ToLowerIdempotent | cache.go:85 | Lower-casing twice is lower-casing once. |
| Cache.Contains | cache.go:85 | No contract of its own. `ContainsIff` shows it is `strings.Contains`: the substring occurs at some index. |
| Cache.IsScreenshot | cache.go:85 | No contract of its own. `ScreenshotIgnoresCase` shows the test ignores letter case, as lower-casing before `strings.Contains` intends. |
| Cache.ContainsIff | cache.go:85 | `strings.Contains` holds iff the substring occurs at some index (both directions). |
| Cache.ScreenshotIgnoresCase | cache.go:85 | The screenshot test gives the same answer for a file name and its lower-cased form. |
| Cache.ToPhoto | cache.go:88-91 | A built record keeps the asset's ID, carries `formatDate` of its creation time, and has empty city, `cityDone` false and index and total 0. |
| Cache.KeptItems | cache.go:84-87 | No contract of its own. `KeptItemsSnoc` and the `Sequences.Without` lemmas show it keeps exactly the non-screenshot items, in order. |
| Cache.KeptPhotos | cache.go:84-92 | No contract of its own. `KeptPhotosCharacterized` and `KeptPhotosExtremes` state which records it builds. |
| Cache.PagePhotos | cache.go:79-92 | No contract of its own. It yields no records for a failed request, and the kept records of a decoded page otherwise. `PagePhotosUnresolved` and `FetchPage`'s contract state its properties. |
| Cache.KeptPhotosCharacterized | cache.go:84-92 | Each kept record comes from an item of the page that is no screenshot, in item order. Every non-screenshot item is kept. The filter distributes over concatenation. |
| Cache.KeptPhotosExtremes | cache.go:84-92 | A page without screenshots is kept whole. A page of screenshots only yields no records. |
| Cache.KeptItemsSnoc | cache.go:84-87 | One more item is kept iff it is no screenshot. |
| Cache.PagePhotosUnresolved | cache.go:88-91 | Every record built from a search has empty city, `cityDone` false and index and total 0. |
| Cache.RefillKeepsInvariant | cache.go:32-33 | A standalone statement, on values, of the invariant step that `FillQueue` and `Next` prove in place. Appending an unresolved record whose ID is not yet shown to an empty queue keeps the cache invariant: shown IDs are exactly the IDs dispatched this cycle, with no repeats, fewer than `maxPage*10` of them, and every queued record unresolved and unshown. |
| Cache.DispatchKeepsInvariant | cache.go:109-117 | A standalone statement, on values, of the invariant step that `Next` proves in place. The dispatched head is unresolved and not yet shown. Below the threshold, marking it shown keeps the invariant. At the threshold the cycle restarts with an empty shown set, which also satisfies the invariant. |
| Cache.NextWhenEveryAttemptFails | cache.go:102-107 | With an empty queue and every attempt failing or already shown, `next` returns nothing after building all ten request bodies, the queue stays empty and `shown` is unchanged. |
| Cache.ConsecutiveDispatchesDiffer | cache.go:109-117 | Two consecutive dispatches in the same cycle never return the same photo, and the cache stays valid. |
| Sequences.Without | cache.go:84-87 | The filter never grows the sequence, and it keeps no rejected element. |
| Sequences.WithoutAppend | cache.go:84-87 | Filtering a concatenation is concatenating the filtered parts. This is what makes the item-by-item loop agree with the whole-page filter. |
| Sequences.WithoutSingle | cache.go:84-87 | A one-element sequence keeps its element exactly when it is not rejected. |
| Sequences.WithoutSound | cache.go:84-87 | Every kept element comes from the input. |
| Sequences.WithoutComplete | cache.go:84-87 | Every element that is not rejected is kept. |
| Sequences.WithoutNothingDropped | cache.go:84-87 | With nothing to reject, the sequence comes out unchanged. |
| Sequences.WithoutAllDropped | cache.go:84-87 | With everything rejected, nothing is left. |
| Sequences.MapSeqAt | cache.go:88-91 | Record `i` is built from kept item `i`. |
| Sequences.MapSeqSnoc | cache.go:88-91 | Appending one item appends its record, as the append loop does. |
| Format.ParseDateTime | format.go:23-25 | An accepted fixed-width date-time prefix always yields a valid calendar date: month 1..12 and a day that exists in that month, leap years included. |
| Format.ParseDateTimeSound | format.go:23-25 | An accepted prefix has its separators in place. Its year, month and day fields read as the returned date. Its hour is numeric and at most 23, its minute and second numeric and at most 59. |
| Format.ParseDateTimeRejectsHour | format.go:23-25 | A prefix whose hour field is above 23 is rejected. |
| Format.FormatDateRejectsHour24 | format.go:22-31 | "2023-05-04T24:00:00Z" is rejected by both layouts and formats as "". |
| Format.ParseDateTimeAccepts | format.go:23-25 | Conversely, a prefix with its separators in place and every field in range is accepted with those year, month and day. |
| Format.ParseRfc3339 | format.go:23 | An accepted timestamp always has a valid calendar date. |
| Format.ParseRfc3339Sound | format.go:23 | An accepted timestamp is an accepted date-time prefix with the same date, followed by an optional fraction and then "Z" or a numeric offset. |
| Format.Rfc3339RoundTrip | format.go:23 | Round trip: any valid date with hour at most 23 and minute and second at most 59 is written as "YYYY-MM-DDThh:mm:ss", followed by an optional fraction of any length and "Z" or a numeric offset. That text parses back to the same date. |
| Format.ParseMillisLayout | format.go:25 | An accepted timestamp always has a valid calendar date. |
| Format.ParseMillisLayoutSound | format.go:25 | An accepted timestamp is 24 characters long: an accepted date-time prefix with the same date, '.', three digits and 'Z'. |
| Format.MillisLayoutRoundTrip | format.go:25 | Round trip: every valid date and time of day written as "YYYY-MM-DDThh:mm:ss.fffZ" parses back to that date. |
| Format.FormatDate | format.go:22-31 | No contract of its own. `FormatDateEmptyIff`, `FallbackNeverDecides`, `FormatDateRoundTrip`, `FormatDateExample` and `FormatDateRejectsHour24` state its behaviour. |
| Format.FormatDateRoundTrip | format.go:22-31 | Every well-formed RFC 3339 timestamp of a valid date displays as "<day> <month name> <year>" of that date. |
| Format.MonthName | format.go:17-20 | Every month 1..12 has a name in the twelve-entry table (`month-1` is in bounds). Each name is non-empty, has no space and does not start with a digit. |
| Format.MonthNameIsTableEntry | format.go:17-20 | The month table has exactly twelve entries, and each month's name is entry `month-1`. |
| Format.Display | format.go:30 | A formatted date is never empty. |
| Format.FormatDateEmptyIff | format.go:22-31 | `formatDate` gives "" iff both the RFC 3339 layout and the millisecond layout reject the input (both directions). |
| Format.MillisLayoutIsRfc3339 | format.go:23-25 | For the strict layouts modelled here, a timestamp that the fallback layout accepts is also accepted by the RFC 3339 layout, with the same date. |
| Format.FallbackNeverDecides | format.go:23-29 | For the strict layouts modelled here, `formatDate` is the RFC 3339 reading displayed, or "": once the RFC 3339 reading fails, the fallback fails too. |
| Format.MonthNameInjective | format.go:17-20 | The twelve month names are pairwise distinct. |
| Format.DisplayInjective | format.go:30 | Different valid dates give different output strings. |
| Format.FormatDateExample | format.go:22-31 | "2023-05-04T10:00:00.000Z" formats as "4 Mayıs 2023". |
| Format.FormatDateRejectsText | format.go:26-28 | The example text "not-a-date" formats as "". `FormatDateEmptyIff` gives the general case. |
| Decimal.NatToDecimal | format.go:30 | `%d` prints at least one digit and no leading zero, and the digits read back as the number. |
| Decimal.Atoi | config.go:19 | No contract of its own. `AtoiReadsDecimal`, `AtoiNegativeSign` and `AtoiRejectsNonDigit` state what it accepts and the value it reads. |
| Decimal.AtoiReadsDecimal | config.go:19 | `strconv.Atoi` reads back every printed number, unsigned, with '+' or with '-'. |
| Decimal.AtoiNegativeSign | config.go:19 | A string starting with '-' never reads as a positive number. |
| Decimal.AtoiRejectsNonDigit | config.go:19 | Any non-digit after the first character is a parse error. |
| Configuration.Getenv | config.go:18 | No contract of its own. It models `os.Getenv`: an unset variable reads as "". `LoadConfig`'s contract states every use of it. |
| Configuration.LoadConfig | config.go:16-41 | The interval is always positive. It is 15 unless `SLIDESHOW_INTERVAL` parses as an `n > 0`, in which case it is `n`. `PORT` and `DEVICE_MODEL` are copied verbatim when non-empty and otherwise default to "3000" and "iPhone 14 Pro". URL and API key are copied verbatim and may be empty. Same as main.go:49-74. |
| Configuration.IntervalFromDecimal | config.go:17-22 | Any positive decimal, unsigned or with '+', becomes the interval. |
| Configuration.IntervalRejectsNonPositive | config.go:17-22 | "0" and any negative number leave the interval at 15. |
| Configuration.IntervalRejectsNonNumeric | config.go:17-22 | A value with a non-digit after its first character makes `Atoi` fail, so the interval stays 15. |
| Location.Join | server.go:60 | The joined length is the total length of the parts plus one separator per neighbouring pair. |
| Location.Parts | server.go:53-59 | At most two parts are collected, and each is non-empty. |
| Location.LocationOf | server.go:25-60 | Any failure of the asset lookup gives "". |
| Location.LocationCases | server.go:53-60 | Both fields empty gives "". Only one set gives that field alone. Both set gives `city + ", " + country`. Same as main.go:305-312. |
| Location.LocationIgnoresState | server.go:42-60 | Changing `state` never changes the location. |
| Location.JoinFramedByParts | server.go:60 | A join starts with its first part and ends with its last. With non-empty parts, no separator leads or trails. |
| Location.LocationEmptyIff | server.go:53-60 | The location is "" iff the lookup failed or both city and country are empty (both directions). |
| Location.ResolveCity | main.go:113-116 | A dispatched record with an unresolved city gets the looked-up location and is marked resolved. A resolved record is left alone, and other fields never change. |
| Startup.HasCredentials | main.go:79 | No contract of its own. `CredentialsFromEnvironment` ties it to the two environment variables. |
| Startup.CredentialsFromEnvironment | main.go:77-81 | The server may start iff `IMMICH_URL` and `IMMICH_API_KEY` are both set and non-empty. |
| Startup.Start | main.go:76-94 | Start-up fails exactly when a credential is missing. Otherwise it yields a new valid cache with an empty queue and shown set, `maxPage` 85000 and hence a reset threshold of 850000, and the loaded configuration. |

## Left out

- HTTP routing and handlers are left out: the index page, `/photo` proxying and the JSON encoding of `/random`. They are I/O plumbing. Only the city fill of `/random` is modelled, as `ResolveCity`.
- Building and sending the search and asset requests is left out, along with JSON encoding and decoding. The decoded response, or `None` for a failure, is an input.
- The `requests` out-parameter of `FillQueue` and `Next` is added by the model. It records the search request body built for each attempt. When `json.Marshal` or `http.NewRequest` fails, as for a malformed `IMMICH_URL`, Go sends nothing. The model then has a `None` outcome for that attempt but still records the request.
- The `sync.Mutex` in `next` is left out. `Next` is one atomic sequential step.
- `math/rand` is replaced by supplied draws in `[0, maxPage)`. `maxPage > 0` is required because `rand.Intn` panics otherwise.
- `log.Printf`, `log.Fatal` output, the 120 s client timeout and the template parse failure in `main` are left out. A missing credential is modelled as `Start` returning `null`.
- Format.ParseRfc3339 and Format.ParseMillisLayout: model the strict fixed-width form. It does not model the leniencies of Go's general layout parser, such as a one-digit hour, a ',' before the fraction, a signed fraction in the millisecond layout (".+12", which Go's `time.atoi` reads), or offsets with hour 24 or minute 60. Those inputs are rejected here.
- Format.MillisLayoutIsRfc3339 and Format.FallbackNeverDecides: both hold of the strict layouts modelled here. In Go the fallback layout does decide a signed-fraction input such as "2023-05-04T10:00:00.+12Z": RFC 3339 rejects it, the millisecond layout accepts it, and `formatDate` returns "4 Mayıs 2023" where the model returns "".
- Time zones: as with Go's `time.Parse`, the date is read in the offset written in the timestamp. No zone database is modelled.
- Decimal.Atoi: does not model `strconv.Atoi`'s out-of-range error for values beyond 64 bits. Such values parse here.
- Cache.ToLower: models only ASCII letters. It does not model Unicode case mapping. It is used only to find the ASCII word "screenshot".
- Go's `int` is unbounded here. `maxPage * 10` cannot overflow for the constant 85000.
- An album/shuffle cache with refresh, reshuffle, cursor, index/total assignment and a 5-attempt random-asset fetch is documented for this program but does not exist in its code, so it is not part of this model. `index` and `total` stay 0.
- The program's documentation says the location joins city, state and country. The code decodes `state` but joins only city and country, and the model follows the code.
