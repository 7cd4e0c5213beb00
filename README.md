# Hubstaff node for n8n — verified model of its request engine

The Hubstaff node connects n8n workflows to the Hubstaff v2 REST API. Most of the node is
declarative parameter schema and resource/operation glue. Under that glue sits a small engine,
and this project models that engine in Dafny and proves properties of it:

- **Access-token cache** (`token_cache.dfy`, module `TokenCache`). This is a process-wide map from a
  refresh token to `{token, expiresAt}`. `cleanExpiredTokens` sweeps out every entry whose
  expiry has been reached. `getAccessToken` does three things in order:
  - it sweeps;
  - it serves a live cached token;
  - otherwise it exchanges the refresh token for an access token (the refresh-token grant of
    section 6 of RFC 6749, at the endpoint named by OpenID Connect Discovery 1.0, section 4) and
    stores it until `replyAt + (expires_in - 300) * 1000`, where `replyAt` is the clock read after
    the exchange.

  The cache is a class with a `map` field. `Sweep` and `GetAccessToken` are methods that change
  that field. Each method is proved equal to a specification function (`Swept`, `AccessToken`).
- **Response extractor** (`responses.dfy`, module `Responses`). `extractDataFromResponse` is an
  ordered decision over a JSON value. Beside it is the keyed list/single unwrap that every resource
  operation repeats inline, for example `{"tasks": [...]}` → records, or a bare array → records.
- **Paginator** (`paginator.dfy`, module `Paginator`). `hubstaffRequestAllItems` requests pages
  1, 2, … with `page` and `per_page` added to the base query. It stops either by the
  `meta.pagination` rule or by the empty/short-page rule. The loop is a method. It is proved equal
  to a recursive specification, and the specification is proved to request consecutive pages
  and to collect their records in order.
- **Task filters** (`task_filters.dfy`, module `TaskFilters`):
  - `parseIdList`, which reads ID lists given as arrays, JSON-array text or comma-separated text;
  - the query builder for task listing;
  - the choice of the tasks endpoint.
- **Rate defaulting** (`rates.dfy`, module `Rates`). This is the pay/bill-rate rule used by project
  creation and for project members.

Supporting modules give JavaScript's semantics in Dafny's terms:

- `JsValues` (`js_values.dfy`):
  - JSON/JS values whose objects are ordered field lists;
  - truthiness;
  - property reads;
  - the object spread with one assignment (`{ ...q, k: v }`);
  - `Number(x)`.
- `JsNumbers` (`js_numbers.dfy`):
  - IEEE special values as `NaN`, `±Infinity` and finite reals;
  - comparisons, arithmetic and `Math.ceil`;
  - string-to-number conversion.
- `JsStrings` (`js_strings.dfy`): `trim`, `split` and `join` on one character.
- `Wrappers` (`wrappers.dfy`): `Option` and `Result`.

`JSON.parse` is a parameter of type `string -> Option<Value>`: `None` stands for a thrown
`SyntaxError`. The clock is given as parameters: `now` is the instant of the sweep and cache test,
and `replyAt` is the `Date.now()` read after the exchange.

## Model

| member | source | states |
|---|---|---|
| TokenCache.Swept | dist/nodes/Hubstaff.node.js:9-16 | after the sweep at `now`, exactly the entries with `now < expiresAt` (or a NaN expiry) remain, each unchanged, and nothing is added |
| TokenCache.AccessTokenCache.Sweep | dist/nodes/Hubstaff.node.js:9-16 | the loop over the cache's keys deletes every expired entry, leaving the cache equal to `Swept(old cache, now)` |
| TokenCache.SweepKeepsExactlyUnexpired | dist/nodes/Hubstaff.node.js:9-16 | an entry survives the sweep if and only if it has not expired; a live entry survives unchanged |
| TokenCache.NaNExpiryLingers | dist/nodes/Hubstaff.node.js:12 | an entry whose `expiresAt` is NaN (a non-numeric `expires_in`) is never swept and never served |
| TokenCache.SweepLater | dist/nodes/Hubstaff.node.js:9-16 | sweeping at `t1` then at a later `t2` is the same as sweeping once at `t2` |
| TokenCache.AccessTokenCache.GetAccessToken | dist/nodes/Hubstaff.node.js:18-101 | the method returns the outcome and leaves the cache that the specification `AccessToken` gives: sweep, serve a live entry, else exchange and store |
| TokenCache.CacheHit | dist/nodes/Hubstaff.node.js:19-25 | with a live entry for the refresh token, the cached token is returned whatever the network would reply, and the cache is only swept |
| TokenCache.MissStores | dist/nodes/Hubstaff.node.js:94-100 | on a miss with a successful exchange, the new access token is returned and exactly that key is set in the swept cache; no other key is added or removed |
| TokenCache.FailureAddsNothing | dist/nodes/Hubstaff.node.js:73-93 | a failed exchange reports its error and leaves the cache only swept, with no new entry for the refresh token |
| TokenCache.ParseBeforeStatus | dist/nodes/Hubstaff.node.js:73-85 | an unparsable token body is a parse failure whatever the status; a parsed body with a status outside [200, 300) is a status failure carrying status and body |
| TokenCache.ExpiryOfSeconds | dist/nodes/Hubstaff.node.js:95 | a numeric `expires_in` of E seconds gives `expiresAt = replyAt + (E - 300) * 1000` |
| TokenCache.Freshness | dist/nodes/Hubstaff.node.js:19-25 | a token issued from any token document carrying `access_token` and `expires_in` E (other fields such as `token_type` may be present) is served from the cache at every later call before `replyAt + (E - 300) * 1000`, and from then on it is swept and re-issued |
| Responses.ExtractFalsy | dist/nodes/Hubstaff.node.js:1870-1871 | a falsy response yields no records |
| Responses.ExtractIdempotent | dist/nodes/Hubstaff.node.js:1872-1873 | an array is returned as it is, so extracting from the extractor's output changes nothing |
| Responses.ExtractAgreesWithDataUnwrap | dist/nodes/Hubstaff.node.js:1874-1877 | `data` holding an array gives its elements and `data` holding an object gives `[data]`, the same as the keyed unwrap under `data` |
| Responses.ExtractFirstArray | dist/nodes/Hubstaff.node.js:1878-1881 | with no usable `data`, an object yields the first array-valued property in key order |
| Responses.ExtractNoArray | dist/nodes/Hubstaff.node.js:1882 | with no usable `data` and no array property, the object itself is the one record |
| Responses.FirstArrayFieldAt | dist/nodes/Hubstaff.node.js:1878-1881 | the key scan finds the first array-valued property whatever follows it |
| Responses.FirstArrayFieldNone | dist/nodes/Hubstaff.node.js:1878-1882 | the key scan finds nothing if and only if no property holds an array |
| Responses.ParsedOnce | dist/nodes/Hubstaff.node.js:1605-1613 | a string response that parses to a non-string value is unwrapped, by the list and the single-record unwrap alike, exactly as if the server had sent that value |
| Responses.ListIsSingleAsList | dist/nodes/Hubstaff.node.js:1006-1024 | the list unwrap of the get-all operations is the single-record unwrap of `:947-962` read as a list |
| Responses.EnvelopeUnwrap | dist/nodes/Hubstaff.node.js:1614-1616 | `{key: [a, b]}` gives `[a, b]` and `{key: x}` gives `[x]`; the single-record unwrap gives `x` |
| Responses.NormalizeIdempotent | dist/nodes/Hubstaff.node.js:1617-1619 | an array is taken as the record list unchanged, so unwrapping the unwrapped list changes nothing |
| Responses.UnparsableKept | dist/nodes/Hubstaff.node.js:1639-1644 | a string that does not parse is kept as the one record, by both unwraps |
| Responses.NormalizeEmptyIff | dist/nodes/Hubstaff.node.js:1048-1066 | the record list is empty if and only if the payload is an empty array |
| Responses.ProjectsEnvelopeExample | dist/nodes/Hubstaff.node.js:1015-1017 | `{"projects": [p1, p2]}` gives `[p1, p2]` and `{"projects": p1}` gives `[p1]` |
| Paginator.FetchAllItems | dist/nodes/Hubstaff.node.js:1885-1909 | the `while (true)` loop returns the records, and sends the queries, that the recursive specification `Paginate` gives |
| Paginator.PaginateShape | dist/nodes/Hubstaff.node.js:1886-1907 | pagination sends between 1 and one-past-the-last page of queries, for pages 1, 2, … consecutively, and returns the extracted records of exactly those pages in order |
| Paginator.FetchFromShape | dist/nodes/Hubstaff.node.js:1889-1907 | from any page, under any stopping rule that stops past the server's last page, the queries are consecutive and the records are each page's decision in order |
| Paginator.CollectedIsGathered | dist/nodes/Hubstaff.node.js:1891-1903 | under both stopping rules, every requested page contributes its extracted records |
| Paginator.QueriesAt | dist/nodes/Hubstaff.node.js:1890 | the i-th query sent from page p asks for page p + i |
| Paginator.StopsAt | dist/nodes/Hubstaff.node.js:1896-1906 | when the stopping rule says "go on" up to page `last` and "stop" there, exactly the pages from the start to `last` are requested |
| Paginator.MetadataPath | dist/nodes/Hubstaff.node.js:1891-1898 | with `meta.pagination` on every page, whatever form its page count takes, the loop requests exactly the pages up to the first page with `page >= totalPages` and collects those pages' records |
| Paginator.LastByTotal | dist/nodes/Hubstaff.node.js:1895-1896 | without `total_pages`, the page count is `ceil(total / size)` (`total` defaulting to 0, `size` the record's `per_page` or else the request's), so the loop stops at `page` exactly when `page * size >= total` |
| Paginator.LastByTotalPages | dist/nodes/Hubstaff.node.js:1894-1895 | with `total_pages = N`, the metadata rule stops at a page if and only if `page >= N` |
| Paginator.ShortPagePath | dist/nodes/Hubstaff.node.js:1900-1906 | without metadata, full pages go on and the first short page is the last one requested, its records included |
| Paginator.EmptyPageStops | dist/nodes/Hubstaff.node.js:1901-1902 | without metadata, an empty page ends the loop and adds no records |
| Paginator.DefaultPageSize | dist/nodes/Hubstaff.node.js:1888 | without `per_page` in the base query, the page size is 100 |
| Paginator.PageQueryCarries | dist/nodes/Hubstaff.node.js:1890 | every page query carries `page` and `per_page`, and every other key of the base query unchanged |
| Paginator.ThreePagesExample | dist/nodes/Hubstaff.node.js:1885-1909 | pages of 100, 100 and 37 records at the default page size give 237 records from three requests |
| TaskFilters.KeepIds | dist/nodes/Hubstaff.node.js:1541-1558 | the surviving IDs are no more than the entries and none is NaN |
| TaskFilters.KeepIdsAppend | dist/nodes/Hubstaff.node.js:1541-1558 | the entries are filtered one by one: the IDs of a concatenation are the concatenated IDs, so input order is kept |
| TaskFilters.KeepIdsSingle | dist/nodes/Hubstaff.node.js:1542-1556 | one entry survives exactly when it converts to a number that is not NaN, and then it is that number |
| TaskFilters.BlankEntriesDropped | dist/nodes/Hubstaff.node.js:1543-1548 | null, undefined and blank strings are dropped |
| TaskFilters.NumbersKept | dist/nodes/Hubstaff.node.js:1551-1552 | a list of non-NaN numbers is kept as it is |
| TaskFilters.NothingParsed | dist/nodes/Hubstaff.node.js:1516-1518 | undefined, null, booleans, numbers and objects give no IDs |
| TaskFilters.JsonArrayString | dist/nodes/Hubstaff.node.js:1528-1531 | text that parses as a JSON array contributes that array's IDs |
| TaskFilters.CommaSeparated | dist/nodes/Hubstaff.node.js:1524-1538 | non-blank text whose trimmed form does not parse to a JSON array is trimmed, split on commas, and each part is read as an ID |
| TaskFilters.CsvRoundTrip | dist/nodes/Hubstaff.node.js:1515-1559 | IDs written as comma-separated decimal numerals are read back as the same numbers in the same order |
| TaskFilters.TaskQueryFields | dist/nodes/Hubstaff.node.js:1574-1591 | the query holds exactly `page_start_id`, `page_limit`, `per_page`, `status[]`, `user_ids[]`, `project_ids[]`, `global_todo_ids[]` in that order, each only when its filter is truthy, a non-empty array or a non-empty parsed ID list |
| TaskFilters.PagingQueryFields | dist/nodes/Hubstaff.node.js:1575-1584 | `page_limit` is copied into both `page_limit` and `per_page`, and only the paging and status keys appear |
| TaskFilters.TaskQueryPerPage | dist/nodes/Hubstaff.node.js:1578-1580 | the paginator's page size for a task query is the converted `page_limit` when it is set, else 100 |
| TaskFilters.TaskQueryStatus | dist/nodes/Hubstaff.node.js:1582-1584 | `status[]` is the status list exactly when that list is a non-empty array, and absent otherwise |
| TaskFilters.TaskEndpointChoice | dist/nodes/Hubstaff.node.js:1561-1571 | the endpoint is exactly `/projects/{projectId}/tasks` when a project is given, else exactly `/organizations/{organizationId}/tasks`, and an error exactly when neither is given |
| TaskFilters.SinglePageQueryLimit | dist/nodes/Hubstaff.node.js:1597-1601 | without `returnAll`, the one request's query sets `per_page` to the limit and keeps every other key |
| Rates.RateRange | dist/nodes/Hubstaff.node.js:1095-1108 | the rate is null exactly for null; otherwise it is a number of at least 0.01, either the converted input or 1.00 |
| Rates.UsableRateKept | dist/nodes/Hubstaff.node.js:1104-1106 | a rate converting to at least 0.01 is sent unchanged |
| Rates.UnusableRateDefaults | dist/nodes/Hubstaff.node.js:1174-1177 | a rate below 0.01, or one that is not numeric, falls back to 1.00 |
| Rates.NormalizeRateIdempotent | dist/nodes/Hubstaff.node.js:1169-1178 | normalizing an already normalized rate changes nothing |
| Rates.NumeralRate | dist/nodes/Hubstaff.node.js:1101-1106 | a whole-number rate given as text is sent as that number, and `"0"` as 1.00 |
| JsValues.SetFieldBinds | dist/nodes/Hubstaff.node.js:1889 | `{ ...q, k: v }` binds `k` to `v`, keeps the key order when `k` exists and appends `k` otherwise |
| JsValues.SetFieldOthers | dist/nodes/Hubstaff.node.js:1601 | `{ ...q, k: v }` leaves every other key's value unchanged |
| JsStrings.JoinSplit | dist/nodes/Hubstaff.node.js:1534 | joining the parts of a split with the same separator gives the text back |
| JsStrings.SplitJoin | dist/nodes/Hubstaff.node.js:1534 | splitting a join of separator-free parts gives the parts back |
| JsStrings.TrimUnpadded | dist/nodes/Hubstaff.node.js:1524 | trimming text without surrounding white space changes nothing |
| JsNumbers.NumeralToNumber | dist/nodes/Hubstaff.node.js:1549 | `Number` of a decimal numeral is the number it denotes |

## Left out

- HTTPS plumbing is not modelled. The discovery request, the token POST, chunk accumulation,
  `new URL(...)` and `execFunctions.helpers.request` are I/O. The token exchange is the abstract
  `TokenReply`: discovery failed, request failed, or a status and a body. A paginated page is an
  element of a finite sequence of responses, and any request past its end gets an empty array.
- `Date.now()` is not modelled. It becomes the parameters `now` and `replyAt`, and the two reads at
  lines 20 and 23 are taken as one instant.
- Concurrency is not modelled. Interleaved `getAccessToken` calls racing on the shared cache are
  outside a sequential model.
- Numbers are not IEEE-754 doubles. They are reals with NaN and ±Infinity, so there is no rounding,
  no overflow to Infinity and no `-0`. For example, `0.01` is exact.
- `Number()` on strings: trimming, `Infinity`, hexadecimal, octal and binary prefixes, and
  decimal/exponent notation are modelled, and every other string gives NaN.
- JSON text is not modelled. `JSON.parse` is an opaque parameter, and property enumeration order is
  the field order of the parsed value. The engine's reordering of integer-like keys is taken as
  already applied.
- IDs in URL paths are not converted. Template literals call `String(...)` on the ID, and the model
  takes `projectId` and `organizationId` as strings already.
- The parameter schema, the resource/operation dispatch, `continueOnFail` and the request-body
  assembly of create/update operations are not modelled. They are declarative configuration and
  glue. The rate rule is modelled as the one function they apply.
- Encoding `key[]` query arrays into the URL is not modelled. The host library does it, and its code
  is not part of this model.
- The credential definitions are not modelled. They are static form fields with no logic.
- A failed request is not modelled. When one page request rejects, the whole
  `hubstaffRequestAllItems` call rejects and the records gathered so far are discarded; the modelled
  server always answers.
- Normalize, NormalizeSingle and Has take `key` to be one of the node's resource names
  (`organizations`, `projects`, `tasks`, ...). JavaScript's `in` also sees array properties such as
  `length` and inherited ones such as `constructor`, which Has does not model.
- Object values are field lists that may repeat a key, which `JSON.parse` never produces. Lookup
  reads the first binding, which is the only one when the keys are distinct.
