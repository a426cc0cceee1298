# dongguaTV cache and aggregation core, in Dafny

This project models the server-side core of dongguaTV, a video-search aggregator
built on Express. The server queries many independent video-listing APIs, merges
what they return and caches the result. The model covers:

- **`CacheManager`** (`cache_manager.dfy`, specified in `cache_spec.dfy`). One
  get/set interface over a *search* domain and a *detail* domain. Four variants
  exist: disabled (`none`), in-memory, JSON-file-backed and SQLite-backed. The
  server tests only for `sqlite`, `json` and `none`, so any other `CACHE_TYPE`
  value behaves as the in-memory variant, and the model's `Memory` stands for
  all of them (an unset `CACHE_TYPE` means `json`). The model includes:
  - keyword case folding;
  - the `{data, ttl, ts}` entry and the legacy bare-array entry;
  - lazy expiry on read;
  - count-capped eviction in the JSON variant (300 search entries, 500 detail entries);
  - the fallback from SQLite to memory when the SQLite runtime cannot be loaded.

  The class keeps its maps as fields and every method updates them in place. Each
  method is proved against value-level functions and relations on a `Store`
  snapshot. The properties are then proved as lemmas about those.
- **The search route** (`search.dfy`). The route returns an empty answer for an
  empty keyword and short-circuits on a cache hit. It builds one query URL per
  active source (`uri.dfy`) and selects `list || data` from each response
  (`items.dfy`). Each item gets the source's `site_key`/`site_name`. The settled
  outcomes are merged in arrival order, and in streaming mode the route writes
  one chunk per delivering source. The cache write uses the freshness TTL
  heuristic, which is built on a model of JavaScript `parseInt` (`numbers.dfy`).
- **The detail route** (`detail.dfy`):
  - the composite key `site_key + "_" + id`;
  - a cache-first read;
  - 404 for an unknown source, with no outbound call;
  - 500 for a failed call or a markup body;
  - caching only of bodies that carry `list` or `data`.
- **JavaScript runtime helpers the routes depend on** (`text.dfy`, `numbers.dfy`,
  `uri.dfy`): `toLowerCase`, `trim`, `parseInt`, `encodeURIComponent`,
  `includes`.

The clock (`Date.now()`, `getFullYear()`) is passed in as a parameter. The
upstream responses are parameters too: one `Option<Payload>` per source, in
arrival order. The routes return the outbound URLs they would request.

## Model

| member | source | states |
|---|---|---|
| Text.Lower | server.js:97 | the folded key has the keyword's length; every character is the ASCII lower-case of the original; no upper-case letter remains |
| Text.LowerIdempotent | server.js:122 | folding an already folded key changes nothing, so reads and writes of case variants meet at one key |
| Text.TrimStart | server.js:331 | the result is a suffix of the input; everything dropped is JavaScript whitespace; the result does not start with whitespace |
| Numbers.ParseInt | server.js:261 | a string that is empty or all JavaScript whitespace parses to NaN (`None`); its decimal reading is fixed by `Numbers.ParseIntDecimal` and `Numbers.ParseIntNoDigits` |
| Numbers.ParseIntDecimal | server.js:261 | `parseInt` of a decimal number, followed by any text that does not start with a digit, yields that number (`"2024x"` reads 2024); only `0` followed by `x`/`X` is read as a hexadecimal prefix instead |
| Numbers.ParseIntNoDigits | server.js:261-262 | a string with no decimal digit parses to NaN (`None`), so it never counts as recent |
| Numbers.ValueOfDecimal | server.js:261 | the digit value of a number's decimal rendering is the number itself |
| Numbers.DigitRunStops | server.js:261 | the digit run `parseInt` reads stops exactly at the first non-digit |
| Items.Stamp | server.js:243-247 | the stamped item carries the source's key and name; these override upstream fields of the same name; all other fields are kept; no other field is added |
| Items.StampAll | server.js:243-247 | every item of the list is stamped, in order, and the length is kept |
| Items.SelectList | server.js:241-242 | a non-empty `list` array is selected; otherwise, when `list` is falsy, a non-empty `data` array is selected; nothing else is accepted and the selection is never empty |
| Items.EmptyListHidesData | server.js:241 | an empty `list` array is truthy, so `data` is not consulted and nothing is selected |
| Items.StampKeepsYear | server.js:243-247 | stamping does not change the year an item reports |
| Items.YearOf | server.js:261 | an item without `vod_year` has no year; the year of a present field is `parseInt` of it, read through `Search.CurrentYearGivesHour`, and stamping keeps it (`Items.StampKeepsYear`) |
| Uri.EncodeUriComponent | server.js:237 | the encoded keyword consists only of unreserved characters and `%` |
| Uri.EncodeKeepsUnreserved | server.js:237 | a keyword of unreserved characters is left as it is |
| Uri.EncodedHasNoDelimiters | server.js:237 | the encoded keyword contains no `?`, `&` or `=` |
| Uri.SearchParams | server.js:237 | the search query parameters contain no `?` |
| Uri.DetailParams | server.js:324 | the detail query `ac=detail&ids=` plus the id, unencoded: it holds a `?` exactly when the id does (`Uri.DetailUrlQuestionMarks` counts them) |
| Uri.Connector | server.js:236 | the connector is `&` or `?`, the base API followed by it always holds a `?`, and it is `?` only when the base API has none, so it is `&` exactly when the base API already has a `?`; `Uri.QueryUrlCount` counts the question marks that result |
| Uri.QueryUrl | server.js:236-238 | the URL starts with the base API followed by the connector, always contains `out=json`, and its tail is the parameters alone or the parameters plus `&out=json` when `out=json` was absent |
| Uri.QueryUrlShape | server.js:323-325 | the URL is the base API, the connector and the parameters, possibly followed by `&out=json` |
| Uri.QueryUrlCount | server.js:236-238 | the URL's question marks are the base API's (or the connector's single one when the base has none) plus those of the parameters |
| Uri.QueryUrlQuestionMarks | server.js:276-278 | when the parameters carry no `?`, no second `?` is introduced: the URL has exactly the base API's question marks if it had any, and exactly one otherwise |
| Uri.SearchUrlQuestionMarks | server.js:236-238 | the same holds for every search URL, whatever the keyword |
| Uri.DetailUrlQuestionMarks | server.js:323-325 | a detail URL's question marks are the base API's (or one) plus every `?` in the unencoded id |
| Uri.DetailUrlWithTwoQuestionMarks | server.js:324 | an id with one `?`, such as `7?x`, gives a URL over a base API without a query string two `?` |
| CacheSpec.SlotsDistinct | server.js:131-156 | `s_` and `d_` memory slots never clash, and within a domain distinct keys get distinct slots |
| CacheSpec.SlotTagsMatch | server.js:106 | in a well-formed store an `s_` slot always holds a search value and a `d_` slot a detail value, so the model's tag tests read what the untested slot reads in the server |
| CacheSpec.Init | server.js:36-47 | the initial state keeps the in-memory store free of mis-tagged slots |
| CacheSpec.SqliteFallback | server.js:64-67 | when SQLite cannot be loaded, the variant becomes memory with every map empty |
| CacheSpec.Unwrap | server.js:110 | the unwrapped timestamp is the eviction rank (`ts`, or 0 when absent), and a legacy bare array reads as its items with TTL 0 (`CacheSpec.LegacyNeverExpires`) |
| CacheSpec.StoredTs | server.js:86 | the search rank `ts`, or 0 when absent: a wrapped entry ranks by its `ts`, a legacy array by 0, and it is the timestamp `CacheSpec.Unwrap` reads; `Cache.EvictOldest` and `CacheSpec.FullSearchStoreEvictsOldest` evict by it |
| CacheSpec.PayloadTs | server.js:86 | the detail rank; it is the constant 0 because the server adds no `ts` to detail bodies (server.js:153) and the model's `Payload` has no `ts` field, so a body's own numeric `ts` is not modelled; `Cache.EvictOldest` evicts by it |
| CacheSpec.Expired | server.js:112 | expiry with the `item.ts` guard: an expired entry is dropped (`CacheSpec.ExpiredEntryIsDropped`), any other is returned (`CacheSpec.LiveEntryIsReturned`), and an entry with `ts` 0 never expires (`CacheSpec.LegacyNeverExpires`) |
| CacheSpec.RowExpired | server.js:102 | expiry without the `ts` guard: an expired row reads as absent and stays stored (`CacheSpec.SqliteExpiredRowStays`) |
| CacheSpec.StoredSearch | server.js:106 | the JSON search map or the `s_` memory slot, whichever the variant reads; a search write is read back through it (`CacheSpec.JsonSearchWriteKept`, `CacheSpec.SearchRoundTrip`) and a detail write never changes it (`CacheSpec.DetailWriteKeepsSearch`) |
| CacheSpec.ForgetSearch | server.js:113-114 | `delete` of the expired entry: the key's search value is gone afterwards, and the variant, the SQLite tables and the JSON detail domain are unchanged (`CacheSpec.ExpiredEntryIsDropped` shows every other key stays) |
| CacheSpec.SearchReadDependsOnSearchState | server.js:95-118 | a search read depends only on the variant, the SQLite search table and the stored search value for the folded key |
| CacheSpec.GetSearch | server.js:95-118 | a read either leaves the store as it was or forgets exactly the looked-up key and reports absence; the disabled variant reads nothing and changes nothing |
| CacheSpec.GetDetail | server.js:136-145 | the disabled variant reads nothing |
| CacheSpec.EvictedCount | server.js:86-89 | eviction removes exactly `count - cap` keys when the domain is over its cap and none otherwise |
| CacheSpec.Evicted | server.js:86-88 | the relation between a domain and its evicted copy; `Cache.EvictOldest` computes it, `CacheSpec.EvictedCount` counts what it removes and `CacheSpec.FullSearchStoreEvictsOldest` names the victim |
| CacheSpec.YoungerSurvivesSingleEviction | server.js:86-88 | when at most one key is evicted, a key strictly younger than another key stays |
| CacheSpec.JsonSearchWriteKept | server.js:127-129 | a JSON search write keeps its fresh entry when the domain fits its cap afterwards, or every other entry is older, or the domain was within its cap and some other entry is older |
| CacheSpec.GetSearchKeepsWellFormed | server.js:112-116 | deleting an expired entry keeps every memory slot under its domain's prefix |
| CacheSpec.SetSearchKeepsWellFormed | server.js:131 | a search write keeps every memory slot under its domain's prefix |
| CacheSpec.SetDetailKeepsWellFormed | server.js:156 | a detail write keeps every memory slot under its domain's prefix |
| CacheSpec.SetSearchStep | server.js:120-133 | the search write of each variant; `Cache.CacheManager.SetSearch` performs it and `CacheSpec.SearchRoundTrip` reads it back |
| CacheSpec.SetDetailStep | server.js:147-158 | the detail write of each variant; `Cache.CacheManager.SetDetail` performs it and `CacheSpec.DetailRoundTrip` reads it back |
| CacheSpec.SearchRoundTrip | server.js:120-133 | after `setSearch(keyword, data, ttl)` at `now`, any case variant of the keyword reads `{data, ttl, ts: now}` until the TTL runs out and reads nothing after (in the JSON variant, when the entry survives the write's eviction) |
| CacheSpec.LegacyNeverExpires | server.js:110-112 | a stored bare array reads as `{data, ttl: 0, ts: 0}` at every time and is never dropped |
| CacheSpec.ExpiredEntryIsDropped | server.js:112-116 | an expired entry reads as absent and is deleted; every other search key and every detail entry stay as they were |
| CacheSpec.LiveEntryIsReturned | server.js:112-117 | an entry that has not expired is returned unchanged and the store is untouched |
| CacheSpec.SqliteExpiredRowStays | server.js:99-104 | the SQLite variant reports an expired row as absent and does not delete it |
| CacheSpec.DisabledIsInert | server.js:96-148 | the disabled variant returns nothing from both reads, and both writes leave the state unchanged |
| CacheSpec.DetailWriteKeepsSearch | server.js:147-158 | a detail write never changes what any search read returns |
| CacheSpec.SearchWriteKeepsDetail | server.js:120-133 | a search write never changes what any detail read returns |
| CacheSpec.DetailRoundTrip | server.js:147-158 | a detail write is read back under the same key |
| CacheSpec.FullSearchStoreEvictsOldest | server.js:81-89 | writing a 301st distinct search entry to a full JSON store, when some stored entry is older than the write's clock `now`, evicts exactly one entry, one with the smallest timestamp among the previous 300, and keeps the new one |
| Cache.OldestExists | server.js:87-88 | a non-empty domain has an entry whose rank is no greater than any other's |
| Cache.EvictOldest | server.js:85-89 | only keys are removed and kept values are unchanged; nothing goes while the domain fits the cap; otherwise exactly `count - cap` keys go, none younger than a key that stays |
| Cache.CacheManager.constructor | server.js:36-47 | the new manager's state is the initial state for its variant and the persisted data |
| Cache.CacheManager.InitSqlite | server.js:49-68 | loaded tables become the SQLite state; a failed load switches the variant to memory and leaves the rest unchanged |
| Cache.CacheManager.InitJson | server.js:70-76 | the two JSON domains become what the files held; nothing else changes |
| Cache.CacheManager.SaveJson | server.js:78-92 | the written domain is evicted down to its cap; the other domain and the other variants' state are unchanged |
| Cache.CacheManager.GetSearch | server.js:95-118 | the returned entry and the new state are those of `CacheSpec.GetSearch` on the old state |
| Cache.CacheManager.SetSearch | server.js:120-133 | the new state is related to the old one by the search write step, including the eviction |
| Cache.CacheManager.GetDetail | server.js:136-145 | returns what `CacheSpec.GetDetail` reads from the current state |
| Cache.CacheManager.SetDetail | server.js:147-158 | the new state is related to the old one by the detail write step, including the eviction |
| Search.ContributionNonEmpty | server.js:282-288 | a settled call adds items to the merged set exactly when its source delivered a list |
| Search.Delivered | server.js:282 | the settled call succeeded and `list`-or-`data` selected a non-empty array (`Items.SelectList`); exactly then the call contributes items (`Search.ContributionNonEmpty`) |
| Search.Contribution | server.js:241-248 | the stamped list of a delivering call, nothing otherwise; non-empty exactly when the source delivered (`Search.ContributionNonEmpty`) |
| Search.Merge | server.js:288 | the fold of the contributions in arrival order: it holds exactly the contributed items (`Search.MergedItemSource`, `Search.ContributionIsMerged`) and equals the streamed chunks concatenated (`Search.ChunksFlattenToMerge`) |
| Search.Chunks | server.js:250 | one chunk per delivering source, each its whole stamped list (`Search.ChunksAreSourceLists`) |
| Search.ChunksFlattenToMerge | server.js:248-250 | the streamed chunks concatenate to exactly the merged set that is cached |
| Search.ChunksAreSourceLists | server.js:242-250 | every chunk is non-empty and is one delivering source's whole stamped list |
| Search.MergedItemSource | server.js:288 | every merged item comes from the contribution of some settled call |
| Search.ContributionIsMerged | server.js:288 | every item a settled call contributes is in the merged set |
| Search.MergedItemsCarryProvenance | server.js:283-288 | every merged item names, in `site_key` and `site_name`, a source that delivered it |
| Search.MergeEmptyIffNoneDelivered | server.js:274-295 | search never fails: the merged set is empty exactly when no source delivered |
| Search.Aggregate | server.js:274-293 | the accumulated `allResults` is the fold of the contributions, and the chunks are those of streaming mode |
| Search.HasRecentItem | server.js:297-300 | true exactly when some item's parsed year is at least `currentYear - 1` |
| Search.IsRecent | server.js:299 | `!isNaN(y) && y >= currentYear - 1`; an item of the current year is recent (`Search.CurrentYearGivesHour`), and one two years back or unreadable is not (`Search.OldItemsNeverExpire`) |
| Search.CacheTtl | server.js:295-302 | the TTL is 3600 or 0, and it is 3600 exactly when some item is recent |
| Search.CurrentYearGivesHour | server.js:296-301 | an item released in the current year gives a TTL of 3600 |
| Search.OldItemsNeverExpire | server.js:296-301 | a set whose years are all at most `currentYear - 2`, or unreadable, gets TTL 0 |
| Search.Active | server.js:225 | a source is queried exactly when it is registered and active |
| Search.ActiveAppend | server.js:225 | filtering distributes over concatenation, so the active sources keep their registration order |
| Search.ActiveOne | server.js:225 | a single source survives the filter exactly when it is active |
| Search.SearchRequests | server.js:274-278 | one URL per active source, in order, each built by the query URL rule from the encoded keyword |
| Search.HandleSearch | server.js:205-308 | an empty keyword answers an empty list with no call and no state change; a hit answers the cached list (one chunk when streaming) with no call; a miss calls every active source, answers the merged set (or its chunks), and writes it with the TTL heuristic exactly when it is non-empty |
| Detail.DetailKeyInjective | server.js:313 | when source keys contain no underscore, distinct requests get distinct cache keys |
| Detail.DetailKeysCanCollide | server.js:313 | without that condition, two requests can share a key: `a_b` with id `c`, and `a` with id `b_c` |
| Detail.DetailKey | server.js:313 | `site_key + "_" + id`; injective when source keys contain no underscore (`Detail.DetailKeyInjective`), colliding otherwise (`Detail.DetailKeysCanCollide`) |
| Detail.FindSite | server.js:319 | the first registered source with the key is found, or none exists |
| Detail.MarkupAfterWhitespace | server.js:331 | a text body whose first non-whitespace character is `<` is rejected as markup |
| Detail.IsMarkup | server.js:331 | a text body starting with `<` after whitespace is markup (`Detail.MarkupAfterWhitespace`); text without `<` and any object is not (`Detail.NoAngleIsNotMarkup`) |
| Detail.NoAngleIsNotMarkup | server.js:331 | text with no `<` at all, and any non-text body, passes the markup guard |
| Detail.PayloadTruthy | server.js:317 | `if (cachedData)`: `null` and the empty string miss; a cacheable body is always truthy (`Detail.CachedBodyIsTruthy`) |
| Detail.Cacheable | server.js:333 | only an object with a truthy `list` or `data` is cached (`Detail.HandleDetail`); text is never cached (`Detail.CachedBodyIsTruthy`) |
| Detail.CachedBodyIsTruthy | server.js:317-333 | a cacheable body is truthy and not markup, so the next request for it is a cache hit; a text body is never cacheable |
| Detail.HandleDetail | server.js:311-341 | a truthy cached body is answered with no call; an unknown source answers 404 with no call; otherwise one call is made: a failure or markup answers 500 and leaves the cache as it was, and any other body is answered and cached exactly when it carries `list` or `data` |

## Behaviour notes

- The JSON variant ranks entries by `ts || 0`. The server adds no `ts` to detail
  bodies, and the model's payloads have no `ts` field, so in the model every
  detail entry ranks 0 (an upstream body with its own numeric `ts` would rank by
  it in the server, which the model does not capture). With equal ranks, which
  detail entries are evicted depends only on key order (the sort is stable over
  insertion order). The model leaves ties unconstrained.
- A search entry written in the JSON variant is evicted at once only in one
  case: the domain is over its cap after the write, and no other entry that
  would otherwise go first is older than the write time. With at most 300
  entries before the write, one strictly older entry is enough to keep the
  fresh one (`CacheSpec.JsonSearchWriteKept`). When every other entry has a
  `ts` of at least `now`, for example after a clock step back, the fresh entry
  can be the one removed.
- The SQLite variant has no `ts` guard on expiry and does not delete expired
  rows. A later write replaces them.
- The detail id is inserted into the URL unencoded. So an id carrying `?` gives
  the detail URL a second `?` (`Uri.DetailUrlQuestionMarks`,
  `Uri.DetailUrlWithTwoQuestionMarks`); search URLs never get one, because the
  keyword is encoded.
- The detail cache key is not injective when source keys contain `_`
  (`Detail.DetailKeysCanCollide`).
- The in-memory store keeps both domains in one map, told apart by the `s_` and
  `d_` prefixes. The model tags each value with its domain as well, and
  `CacheSpec.WellFormed`, which every state-changing method keeps, makes the
  tag agree with the prefix (`CacheSpec.SlotTagsMatch`).

## Left out

- HTTP framing is not modelled. This covers Express routing, response headers,
  status-code plumbing, the `data:` / `event: done` server-sent-event framing,
  `JSON.stringify` of bodies and logging. The routes return the reply values.
- The network calls (`axios`) and their timeouts are not modelled. Each source's
  settled outcome is a parameter, and `None` means failure or timeout.
- The concurrency of `Promise.allSettled` is not modelled. The model takes one
  arrival order as a parameter and folds over it.
- The SQL of the SQLite variant is not modelled, nor `JSON.parse` of rows. The
  two tables are maps from key to row.
- File I/O is not modelled: `fs.existsSync`, `readFileSync` and `writeFileSync`
  in `initJSON`/`saveJSON`. The persisted contents are constructor parameters, so
  a missing or unreadable file is an empty map. `initJSON` reads both files in
  one `try` block, so an unreadable search file also leaves the detail domain
  empty. Write errors swallowed by `saveJSON` are not modelled.
- `getDB` and the `db.json` bootstrap are not modelled. The registered sources
  are a parameter.
- `Date.now()` and `new Date().getFullYear()` are parameters.
- Text.Lower: folds ASCII letters only, whereas `toLowerCase` folds every
  Unicode cased letter.
- Numbers.ParseIntDecimal: `parseInt` is modelled on unbounded integers. The
  loss of precision above 2^53 is not modelled, and item fields are strings,
  whereas a JSON number `vod_year` is parsed from its string form.
- Uri.EncodeUriComponent: lone surrogates cannot occur in a Dafny string. So the
  `URIError` that `encodeURIComponent` throws for them, which would fail every
  source of a search, is not modelled.
- CacheSpec.SearchRoundTrip: in the JSON variant it assumes the fresh entry
  survives the write's eviction (`CacheSpec.FreshSearchSurvives`). Otherwise
  eviction may remove it, as the behaviour notes describe.
- CacheSpec.DetailRoundTrip: in the JSON variant it assumes the domain fits its
  cap after the write. The server's stable sort over insertion order puts a new
  detail key last among the equal ranks, so with at most 500 entries before the
  write it is never the one evicted. The model does not record insertion order
  and leaves ties free, so it cannot promise that.
- Search.HandleSearch and Detail.HandleDetail treat each request as atomic. The
  server awaits the upstream calls between its cache read and its cache write,
  and other requests can read, write or evict entries in that gap. The
  contracts apply the write to the state this request's own read left, and do
  not model other requests' cache operations across those awaits.
- Search.HandleSearch: it requires the settled outcomes to be exactly one per
  active source, in some order. This describes the environment, since
  `allSettled` waits for every call.
- Some stored values are not modelled: values that are neither an entry nor a
  bare array (a hand-edited file); a `null` detail value, on which `saveJSON`'s
  ranking would throw; and non-numeric `ts`.
- JavaScript object quirks are not modelled: keys such as `__proto__` and
  repeated query parameters that arrive as arrays.
- Upstream items are modelled as maps from field name to string. Nested values
  are not modelled.
- The other endpoints (`/api/check`, `/api/hot`, `/api/config`, `/api/sites`)
  and the service worker `public/sw.js` are not modelled. They are plumbing, or
  browser APIs with no logic of their own.
