# Comet router core in Dafny

This project models the core of Comet, a router for edge functions. It also models the small pure transformations of Comet's OpenAPI generator. Each part of the model is proved against a specification.

- **Route registry** (`routing.dfy`): the `Router` class of `src/router.ts` and its copy in `src/v2/attempt2.ts`. `register` builds a route from its options and validates it. It then appends the route and marks the router as not ready. `find` is a first-match scan. `init` is a lazy, in-place sort of the routes with the source's comparator.
- **Request pipeline** (`server.dfy`): `Server.handler` of `src/v2/attempt2.ts`. It runs these steps in order:
  1. global before-middleware, stopping once the reply is sent;
  2. the date check (400);
  3. the route lookup (404);
  4. local before-middleware;
  5. the handler, only while the reply is unsent;
  6. every local after-middleware;
  7. every global after-middleware;
  8. turning the reply into a response.

  One catch-all turns any exception into a 500 response with no body. Middleware and handlers are user code. The model runs them as given functions of the event state, and each may throw. A trace of steps records which code ran.
- **Middleware** (`middleware.dfy`): `middleware()` overload resolution, `next`, and the wrapped handler. The wrapped handler exists in two styles, each updating the event object in place:
  - the one in `src/v2/middleware.ts` gives the user handler the event itself;
  - the one in `src/v2/attempt2.ts` gives it a shallow copy.
- **Event data** (`data.dfy`, `events.dfy`): `Data.fromRequest` and `parseRequestBody`. The url-encoded body is split on `&`, then on `=`, then percent-decoded (`uri.dfy` models `decodeURIComponent` and proves it inverts `encodeURIComponent`).
- **OpenAPI paths** (`openapi_paths.dfy`): `buildPaths` and `compareDatesBeforeToday` of `packages/openapi-generator/scripts/worker/paths.ts`:
  - ALL routes expand into one route per method;
  - routes are grouped by pathname and method;
  - one route is selected per group;
  - the result is keyed by `/`-prefixed pathname and lower-case method.
- **JSDoc tags** (`comments.dfy`): `parseComment` of `packages/openapi-generator/scripts/comments.ts`.
- **Path templates** (`path_keys.dfy`): the rewrite of `/:name` into `/{name}` in `packages/openapi-generator/scripts/generate.ts`. It is modelled as the left-to-right scan of the regular expression and characterised segment by segment.

Supporting modules:
- `wrappers.dfy`: `Option`/`Result`.
- `text.dfy`: JavaScript `split`, `join`, `trim` and ASCII case mapping.
- `objects.dfy`: JavaScript objects as dictionaries with key order.
- `utils.dfy`: method and date rules.

Several helpers are not part of this model's sources: `comparePathnames`, `isValidPathname` and `getPathnameParameters` (`src/utils`), and the `Reply` class. The pathname helpers are parameters of the model (`Utils.PathRules`), so every property holds whatever they do. The method and date helpers are given concrete definitions in `utils.dfy`, and these definitions are choices of the model:
- a method matches when it is equal or the route's method is ALL;
- a date is valid when it is `YYYY-MM-DD`;
- a route date matches when it is absent, or when the request has a date and the route's date is not later, both read as `Date`s (a day past the end of its month runs on into the next month).

A `Reply` is either unsent or sent with a status and a body. Turning it into a response is a parameter that may throw.

Two lines of the code behave in ways worth spelling out; the model follows them as written:
- **Date test in the route selection loop** (`paths.ts:68`). The test `comparedDate === object.compatibilityDate` compares a `Date` (or `undefined`) with a string (or `undefined`). It holds only when both are `undefined`. That happens when the current route's date is absent or later than the target, and the new route has no date. Then the new route replaces the current one. Otherwise the current route stays, even when the new route's date is later but still within the target. `OpenApiPaths.Replaces` models this. `SelectedFirstWhenDated` proves that the first route is kept when it has a date within the target, or when every route is dated. `SelectedIgnoresLaterDate` shows on two dated routes that the later date is not preferred.
- **`register`'s pathname default** (`router.ts:81`). The pathname default `*` is applied after the prefix. The stored pathname is therefore `prefix + "*"` when no pathname is given.

## Model

| member | source | states |
|---|---|---|
| Routing.BuildRoute | src/router.ts:81-84 | the stored pathname is the prefix (or nothing) followed by the pathname (or `*`); the method defaults to ALL; the name defaults to `"METHOD path"` with `" (date)"` when a date is given; date, middleware and handler are carried over |
| Routing.RegisterError | src/router.ts:85-92 | a route is refused exactly when its pathname is invalid, or (second router) its method is invalid, or it has a date that is invalid; an invalid pathname gives the pathname message |
| Routing.FirstMatch | src/router.ts:105-112 | the index of the first route whose pathname, method and (unless ignored) date match; no earlier route matches |
| Routing.Lookup | src/router.ts:105-114 | `find` returns nothing exactly when no route qualifies, and otherwise a qualifying route of the list |
| Routing.LookupAppend | src/router.ts:93-95 | appending a route never changes a lookup that succeeds, and a lookup that failed now finds the new route exactly when it qualifies |
| Routing.IgnoringDates | src/router.ts:110 | with `ignoreCompatibilityDate`, `find` stops no later in the list and succeeds whenever the dated lookup does |
| Routing.CompareFlip | src/router.ts:119-121 | the comparator moves a route after another only within a (pathname, method) group, and then orders the pair the other way round |
| Routing.ChainSorted | src/router.ts:116-121 | along a run of one group in comparator order, dates never increase |
| Routing.AdjacentToGroupSorted | src/router.ts:116-121 | when each group is contiguous, neighbour order gives every group in descending date order |
| Routing.LookupLatest | src/router.ts:116 | on group-sorted routes, `find` returns the route with the latest matching date of its group |
| Routing.CompareFlippable | src/router.ts:119-121 | on routes with valid dates the comparator meets the condition the sort needs |
| Routing.Insert | src/router.ts:119-122 | one insertion step: a permutation that keeps every slot's group and extends the sorted prefix by one |
| Routing.Sort | src/router.ts:119-122 | the sort returns a permutation of the routes, every slot keeps its group, and all neighbours are in comparator order |
| Routing.Router.constructor | src/router.ts:52-53 | a new router has no routes and is ready |
| Routing.Router.Register | src/router.ts:81-95 | on success exactly the built route is appended and the router is not ready; on failure routes and readiness are unchanged; the error is `RegisterError` |
| Routing.Router.Find | src/router.ts:104-114 | the loop returns `Lookup` of the routes |
| Routing.Router.Init | src/router.ts:117-124 | a ready router is unchanged; otherwise the routes are permuted with every slot keeping its group, neighbours are sorted, and the router is ready, so a second `init` changes nothing |
| Server.Chain | src/v2/attempt2.ts:268-273 | a middleware loop runs middleware in list order from the first; a stopping loop that ends early does so because the reply was sent, and a throw ends it |
| Server.RunHandler | src/v2/attempt2.ts:302 | the route handler runs exactly when the reply is unsent, and otherwise the event is unchanged |
| Server.Serve | src/v2/attempt2.ts:267-327 | whenever the catch-all fires, the response is the 500 response with no body |
| Server.ServeCatchAll | src/v2/attempt2.ts:267-327 | a throw in global before-middleware gives the 500 response with only their trace; a throw there or in the main logic, a throw in global after-middleware, or a `toResponse` that throws gives the 500 response; otherwise the response is `toResponse` of the reply global after-middleware leave |
| Server.GlobalShortCircuit | src/v2/attempt2.ts:268-276 | when global before-middleware send the reply, nothing is looked up, no route code runs, and only global middleware runs |
| Server.Dispatch | src/v2/attempt2.ts:256-328 | a request whose body cannot be decoded yields the 500 response before any code runs; any caught exception yields the 500 response |
| Server.ChainShortCircuit | src/v2/attempt2.ts:268-273 | if the stopping loop ran the middleware at index n, every middleware before it left the reply unsent |
| Server.ChainRunsAll | src/v2/attempt2.ts:305-309 | a non-stopping loop that does not throw runs every middleware |
| Server.FutureDateRollsOver | src/v2/attempt2.ts:280 | a date header of 31 February 2025 is later than 2 March 2025 and not later than 3 March 2025 |
| Server.FutureDateSkipsRoute | src/v2/attempt2.ts:279-282 | with a future date header, the route is not looked up, no route code runs, and only global middleware runs |
| Server.FutureDateReply | src/v2/attempt2.ts:279-281 | a future date header gives the bad-request reply and no further steps |
| Server.MissingRouteIsNotFound | src/v2/attempt2.ts:285-287 | when `find` returns nothing the reply is not found, the lookup is the only step, and no route code runs |
| Server.HandlerRunsIffUnsent | src/v2/attempt2.ts:294-302 | the handler runs exactly when local before-middleware returned and left the reply unsent, and it runs right after them |
| Server.LocalAfterRunsAll | src/v2/attempt2.ts:304-309 | when the route part does not throw, every local after-middleware runs, whether or not the reply was sent |
| Server.GlobalAfterRunsAll | src/v2/attempt2.ts:316-320 | when the catch-all does not fire, every global after-middleware ran, including after a 400, a 404 or a short-circuit |
| Server.Server.constructor | src/v2/attempt2.ts:250-253 | a server owns a fresh, empty, ready second-variant router and keeps its global middleware |
| Server.Server.Route | src/v2/attempt2.ts:248-252 | `route` is the router's `register`, with its contract |
| Server.Server.RunChain | src/v2/attempt2.ts:268-273 | the middleware loop over the event leaves the state and trace of `Chain`, and reports a throw exactly when `Chain` does |
| Server.Server.RoutePhase | src/v2/attempt2.ts:290-309 | parameters, local before-middleware, handler and local after-middleware leave the state and trace of `RouteLogic` |
| Server.Server.MainPhase | src/v2/attempt2.ts:276-313 | the date check, lookup and route part leave the state and trace of `MainLogic` |
| Server.Server.ServeEvent | src/v2/attempt2.ts:263-327 | handling a fresh event gives the response and trace of `Serve` |
| Server.Server.Handle | src/v2/attempt2.ts:256-328 | `handler` initialises the router (a permutation that keeps every slot's group and orders neighbours, now ready, and unchanged when it was ready) and gives the response and trace of `Dispatch` over the sorted routes |
| Middlewares.Build | src/v2/middleware.ts:67-71 | fails with the source's message exactly when there is no handler; a function as first argument is the handler with empty options; otherwise name, requires and replies are kept |
| Middlewares.Next | src/v2/middleware.ts:29-34 | `next()` with no argument carries an empty extension, otherwise the one given |
| Middlewares.Apply | src/v2/middleware.ts:72-75 | the wrapped handler updates the event to what `Run` describes, and throws exactly when the user handler does (having added `next` in place first) |
| Middlewares.ExtensionOverwrites | src/v2/middleware.ts:74 | after a `NextData` result, its fields overwrite the event's and every other field is kept |
| Middlewares.CopyIsolation | src/v2/attempt2.ts:125-128 | on a copy, the user handler's property changes do not reach the event: parameters stay and only the shared reply and the returned extension change it |
| Middlewares.InPlaceKeepsChanges | src/v2/middleware.ts:73-74 | in place, a result that is not `NextData` leaves the event exactly as the user handler left it |
| Events.Event.constructor | src/v2/attempt2.ts:263-265 | a new event has an unsent reply, no parameters and no extension fields |
| RequestData.MediaType | src/v2/attempt2.ts:41 | the media type is the content type up to its first `;`, and absent when the header is |
| RequestData.DecodeAll | src/v2/attempt2.ts:51 | every piece is percent-decoded, failing exactly when one piece is malformed |
| RequestData.PairEntry | src/v2/attempt2.ts:51 | a pair is split on `=` and decoded; the first two pieces make the entry |
| RequestData.PairEntries | src/v2/attempt2.ts:51 | every pair becomes its entry, failing exactly when one pair fails |
| RequestData.ParseUrlEncoded | src/v2/attempt2.ts:49-53 | the body is split on `&`; a malformed escape is the `URIError` the source throws |
| RequestData.ParseRequestBody | src/v2/attempt2.ts:40-57 | JSON gives the request's JSON and fails exactly when it has none; multipart gives the form entries as an object and fails exactly when there is no form; url-encoded gives `ParseUrlEncoded` of the text and fails exactly when that does; any other media type, or none, gives no body |
| RequestData.FromRequest | src/v2/attempt2.ts:26-38 | the event data has the upper-case method, the lower-case hostname, the pathname, the headers, the query entries as an object and the parsed body of the request, and fails exactly when body decoding fails |
| RequestData.ParseSerialized | src/v2/attempt2.ts:49-53 | decoding a body serialised from entries with `encodeURIComponent` gives back exactly those entries |
| RequestData.ParseEmpty | src/v2/attempt2.ts:49-53 | an empty body decodes to the single key `""` without a value |
| RequestData.PairWithoutValue | src/v2/attempt2.ts:51-52 | a pair without `=` gives a key with no value |
| RequestData.PairWithExtraPieces | src/v2/attempt2.ts:51-52 | a pair with several `=` keeps only its first two pieces |
| Uri.DecodeEncode | src/v2/attempt2.ts:51 | `decodeURIComponent` inverts `encodeURIComponent` on every string |
| Uri.DecodePlain | src/v2/attempt2.ts:51 | text without `%` decodes to itself |
| Objects.Put | packages/openapi-generator/scripts/worker/paths.ts:45-47 | assignment gives the key the value, appends a new key to the key order, and keeps an existing key's place |
| Objects.FromEntries | src/v2/attempt2.ts:52 | `Object.fromEntries` lists every key once |
| Objects.FromEntriesKeys | src/v2/attempt2.ts:52 | the keys are exactly those of the entries |
| Objects.EntryKeyKept | src/v2/attempt2.ts:52 | the key of every entry is a key of the object |
| Objects.KeySource | src/v2/attempt2.ts:52 | every key of the object is the key of some entry |
| Objects.FromEntriesLastWins | src/v2/attempt2.ts:52 | a repeated key takes the value of its last entry |
| Text.Split | packages/openapi-generator/scripts/comments.ts:71 | `split` returns at least one piece |
| Text.SplitJoin | packages/openapi-generator/scripts/comments.ts:71 | joining the pieces with the separator gives back the string |
| Text.SplitPiecesFree | packages/openapi-generator/scripts/comments.ts:71 | no piece contains the separator |
| Text.Trim | packages/openapi-generator/scripts/comments.ts:85 | the result is a slice of the input that neither starts nor ends with whitespace, and only whitespace lies before and after it |
| Text.TrimIdempotent | packages/openapi-generator/scripts/comments.ts:85 | trimming twice is trimming once |
| Text.ToLower | packages/openapi-generator/scripts/worker/paths.ts:89 | lower-casing keeps the length, turns each upper-case ASCII letter into its lower-case letter and keeps every other character |
| Text.ToUpper | src/v2/attempt2.ts:29 | upper-casing keeps the length, turns each lower-case ASCII letter into its upper-case letter and keeps every other character |
| Utils.Number | packages/openapi-generator/scripts/worker/paths.ts:13-14 | a range of the text is a number exactly when every character in it is a decimal digit |
| Utils.ParseDate | packages/openapi-generator/scripts/worker/paths.ts:13-14 | a text is a date exactly when it is `YYYY-MM-DD` with digits, a month from 1 to 12 and a day from 1 to 31; its key is `Y * 10000 + M * 100 + D` |
| Utils.LexCompareNumbers | packages/openapi-generator/scripts/worker/paths.ts:13-14 | on equally long digit ranges the character-by-character order is the numeric order |
| Utils.DateTextOrder | packages/openapi-generator/scripts/worker/paths.ts:13-14 | two date texts are ordered character by character as their years, then months, then days are; they are equal exactly when all three are |
| Utils.DateOrder | packages/openapi-generator/scripts/worker/paths.ts:30-35 | two dates' keys are ordered as their texts are, character by character, and are equal exactly when the texts are |
| Utils.MonthLength | packages/openapi-generator/scripts/worker/paths.ts:13-14 | every month has 28 to 31 days |
| Utils.DayOf | packages/openapi-generator/scripts/worker/paths.ts:13-14 | a text has a day exactly when it is a date |
| Utils.RollOver | packages/openapi-generator/scripts/worker/paths.ts:13-14 | a day past the end of its month is the matching day of the next month, as `new Date` rolls it over |
| Utils.CivilDayOrder | packages/openapi-generator/scripts/worker/paths.ts:30-35 | days within their months are ordered by year, then month, then day |
| Utils.DayOrder | packages/openapi-generator/scripts/worker/paths.ts:30-35 | for dates within their months, the days are ordered as the texts are, character by character |
| Utils.DatesMatchPreorder | src/router.ts:119-121 | date matching is a total preorder on absent-or-valid dates |
| OpenApiPaths.Kept | packages/openapi-generator/scripts/worker/paths.ts:23-28 | a kept date is never later than the target |
| OpenApiPaths.CompareDatesBeforeToday | packages/openapi-generator/scripts/worker/paths.ts:8-36 | dates later than the target count as absent; the result is absent when both are, the present one when one is, and otherwise the later of the two |
| OpenApiPaths.ExpandRoute | packages/openapi-generator/scripts/worker/paths.ts:39-42 | an ALL route becomes one copy per method of the list with only the method changed; any other route is kept as it is |
| OpenApiPaths.ExpandSound | packages/openapi-generator/scripts/worker/paths.ts:39-42 | after expansion no route is ALL, every route is an input route with its method changed, and every non-ALL route is kept |
| OpenApiPaths.ExpandCoversAll | packages/openapi-generator/scripts/worker/paths.ts:39-42 | every ALL route appears once with every method of the list |
| OpenApiPaths.ExpandSource | packages/openapi-generator/scripts/worker/paths.ts:39-42 | each expanded route is not ALL and is an input route with only its method changed |
| OpenApiPaths.ExpandKeeps | packages/openapi-generator/scripts/worker/paths.ts:39-42 | an input route that is not ALL appears after expansion |
| OpenApiPaths.Matching | packages/openapi-generator/scripts/worker/paths.ts:44-49 | a group holds only input routes of its pathname and method |
| OpenApiPaths.AddKeepsWellFormed | packages/openapi-generator/scripts/worker/paths.ts:45-47 | one `reduce` step keeps both levels of keys listed once |
| OpenApiPaths.AddRouteGroup | packages/openapi-generator/scripts/worker/paths.ts:45-47 | after one `reduce` step, a method group of a pathname exists exactly when some route so far has that pathname and method, and it lists those routes in order |
| OpenApiPaths.AddOtherPath | packages/openapi-generator/scripts/worker/paths.ts:45-47 | adding a route leaves the groups of every other pathname as they were |
| OpenApiPaths.AddRoute | packages/openapi-generator/scripts/worker/paths.ts:45-47 | one `reduce` step turns the groups of some routes into the groups of those routes and the next |
| OpenApiPaths.GroupsFromMatch | packages/openapi-generator/scripts/worker/paths.ts:44-49 | the groups have a pathname exactly when a route has it and a method exactly when a route has both, and each group lists those routes in input order |
| OpenApiPaths.GroupRoutes | packages/openapi-generator/scripts/worker/paths.ts:44-49 | the grouping loop builds exactly those groups |
| OpenApiPaths.SelectRoute | packages/openapi-generator/scripts/worker/paths.ts:57-81 | the selection loop over one group returns `Selected` |
| OpenApiPaths.PickFrom | packages/openapi-generator/scripts/worker/paths.ts:59-72 | the selected route is the first route or one of the rest |
| OpenApiPaths.PickKeepsDated | packages/openapi-generator/scripts/worker/paths.ts:63-70 | a held route with a date within the target is never replaced |
| OpenApiPaths.PickKeepsWhenAllDated | packages/openapi-generator/scripts/worker/paths.ts:63-70 | when every later route has a date, the held route is never replaced |
| OpenApiPaths.SelectedFromGroup | packages/openapi-generator/scripts/worker/paths.ts:57-81 | only an empty group selects nothing; a group of one selects its route; the selection is in the group, and is its first route or an undated one |
| OpenApiPaths.SelectedFirstWhenDated | packages/openapi-generator/scripts/worker/paths.ts:57-75 | a group whose first route is dated within the target, or whose routes are all dated, selects its first route |
| OpenApiPaths.SelectedIgnoresLaterDate | packages/openapi-generator/scripts/worker/paths.ts:63-70 | of routes dated 2024-01-01 and 2024-06-01 with target 2025-01-01, the first is selected |
| OpenApiPaths.FoundOnePerGroup | packages/openapi-generator/scripts/worker/paths.ts:53-84 | each method group of a pathname contributes exactly one route, its selection, in key order |
| OpenApiPaths.SelectPath | packages/openapi-generator/scripts/worker/paths.ts:56-82 | the loop over one pathname's method groups returns `Found` |
| OpenApiPaths.SelectAll | packages/openapi-generator/scripts/worker/paths.ts:53-84 | the selected routes are keyed by the pathnames of the groups, in order, each with `Found` of its groups |
| OpenApiPaths.PathKey | packages/openapi-generator/scripts/worker/paths.ts:88 | a path key starts with `/`: the pathname when it does, otherwise `/` and the pathname |
| OpenApiPaths.Operations | packages/openapi-generator/scripts/worker/paths.ts:89 | each route is keyed by its lower-case method |
| OpenApiPaths.PathEntries | packages/openapi-generator/scripts/worker/paths.ts:86-91 | each pathname gives its path key and its operations object |
| OpenApiPaths.PathsShape | packages/openapi-generator/scripts/worker/paths.ts:86-91 | every key of the paths object starts with `/` and every operation key is lower case |
| OpenApiPaths.PathKeyStarts | packages/openapi-generator/scripts/worker/paths.ts:88 | one key of the paths object starts with `/` |
| OpenApiPaths.OperationKeyLower | packages/openapi-generator/scripts/worker/paths.ts:89 | one operation key of the paths object is in lower case |
| OpenApiPaths.OperationSource | packages/openapi-generator/scripts/worker/paths.ts:86-91 | each operation is a selected route of a pathname whose key is the path key, listed under its lower-case method |
| OpenApiPaths.SelectedSource | packages/openapi-generator/scripts/worker/paths.ts:53-84 | a selected route is one of the routes, with the pathname it was grouped under |
| OpenApiPaths.OperationFrom | packages/openapi-generator/scripts/worker/paths.ts:86-91 | one operation of the paths object is a route under its own path key and method |
| OpenApiPaths.OperationsFromRoutes | packages/openapi-generator/scripts/worker/paths.ts:53-91 | every operation of the paths object is a route under its own path key and method |
| OpenApiPaths.BuildPaths | packages/openapi-generator/scripts/worker/paths.ts:38-92 | the paths object lists each key once; its keys start with `/`; every operation is an expanded route listed under its own path key and lower-case method |
| Comments.DropLastTwo | packages/openapi-generator/scripts/comments.ts:72 | `slice(0, -2)` drops the last two characters, leaving nothing of a shorter string |
| Comments.Pieces | packages/openapi-generator/scripts/comments.ts:71-73 | there is one piece per `* @` marker, since the text before the first is dropped |
| Comments.LastContentNone | packages/openapi-generator/scripts/comments.ts:84-89 | a field stays unset exactly when no piece has its head |
| Comments.LastContentSome | packages/openapi-generator/scripts/comments.ts:84-89 | a set field holds the content of the last piece with its head |
| Comments.TagSources | packages/openapi-generator/scripts/comments.ts:90-91 | every tag is the content of a `tag` piece, and there are no tags exactly when no piece sets `tag` |
| Comments.TagSource | packages/openapi-generator/scripts/comments.ts:90-91 | each tag has a `tag` piece whose content it is |
| Comments.TagsEmpty | packages/openapi-generator/scripts/comments.ts:90-91 | there are no tags exactly when no piece sets `tag` |
| Comments.ParseComment | packages/openapi-generator/scripts/comments.ts:70-98 | description and summary are the trimmed content of the last piece that sets them plus a line break, or empty; tags are the trimmed contents of the `tag` pieces in order |
| Comments.NoMarker | packages/openapi-generator/scripts/comments.ts:71-79 | text without `* @` gives an empty description, an empty summary and no tags |
| Comments.PieceEffect | packages/openapi-generator/scripts/comments.ts:82-96 | a piece sets the field its head names, overwriting earlier pieces; a `tag` piece appends; any other head changes nothing |
| Comments.SplitAfterPrefix | packages/openapi-generator/scripts/comments.ts:71 | text without a marker before the first marker is split off as one piece |
| Comments.PrefixDiscarded | packages/openapi-generator/scripts/comments.ts:71 | whatever precedes the first marker does not change the pieces |
| PathKeys.Params | packages/openapi-generator/scripts/generate.ts:172 | every segment but a leading one is rewritten on its own |
| PathKeys.ScanSegments | packages/openapi-generator/scripts/generate.ts:172 | the regular-expression scan is the join of the rewritten `/`-separated segments |
| PathKeys.RewriteSegments | packages/openapi-generator/scripts/generate.ts:172 | the segments of the result are those of the path, each one after a `/` that starts with `:` turned into `{rest}` and the others unchanged |
| PathKeys.RewriteExample | packages/openapi-generator/scripts/generate.ts:172 | `/:id` becomes `/{id}` |
| PathKeys.RewriteKeepsSegmentCount | packages/openapi-generator/scripts/generate.ts:172 | the rewrite keeps every `/` and the number of segments |
| PathKeys.RewriteIdempotent | packages/openapi-generator/scripts/generate.ts:184 | rewriting already rewritten keys changes nothing |
| PathKeys.ParamsFixed | packages/openapi-generator/scripts/generate.ts:172 | rewriting the segments changes none exactly when no segment after the first starts with `:` |
| PathKeys.RewriteUnchanged | packages/openapi-generator/scripts/generate.ts:172 | a path without `/:` is returned unchanged, and only such a path |
| PathKeys.Renamed | packages/openapi-generator/scripts/generate.ts:171-172 | each path of the object, in key order, is paired with its rewritten key and its own value |
| PathKeys.RewriteKeys | packages/openapi-generator/scripts/generate.ts:171-173 | the rewritten paths object lists each key once |
| PathKeys.RewriteKeysDomain | packages/openapi-generator/scripts/generate.ts:171-173 | its keys are exactly the rewritten paths |
| PathKeys.RewriteKeysValue | packages/openapi-generator/scripts/generate.ts:171-173 | a path keeps its value unless a later path rewrites to the same template |

## Left out

- Platform calls are not modelled. URL parsing, `Cookies.parse`, `request.json()`, `request.formData()` and `request.text()` become fields of the request. JSON and multipart bodies are opaque values.
- The clock is a parameter. `new Date()` is today's date as a day index (`Utils.CivilDay`). The index gives each year 366 places rather than counting days from an epoch. A parsed day is at most 31, so it never runs past December, and the index orders and equates dates as the calendar does. Date texts other than `YYYY-MM-DD`, time zones and times of day are not modelled. A date header that is not a date counts as not later than today, as an invalid `Date` compares false.
- `isValidPathname`, `comparePathnames` and `getPathnameParameters` are not part of this model. They are function parameters (`Utils.PathRules`).
- The concrete rules for `isValidMethod`, `compareMethods`, `isValidCompatibilityDate` and `compareCompatibilityDates` are choices of the model, since `src/utils` is not part of this model.
- `Reply` is not part of this model. A reply is unsent or sent with a status and body. `Reply.toResponse` is a parameter that may throw.
- Logging (`console`, the logger) is left out.
- `async`/`await` are ordinary sequential steps, as every await is sequential.
- User middleware and handlers are functions of the event state that return the new state or throw. Aliasing between the event and objects the user code keeps is not modelled.
- In the copying wrapper, the copy shares the reply object with the event, so the model keeps the user handler's reply. Changes the user code makes to other shared nested objects (such as `params`) are not kept.
- Extension fields are kept apart from the data fields of the event. An extension key that names a data field (`pathname`, `method`, ...) does not overwrite it in the model.
- Routing.Init: `Array.prototype.sort` is modelled as a stable insertion sort with the source's comparator, not as the engine's algorithm. The comparator is not a consistent order, so a different engine may order groups differently. The proved order is neighbour order, and date order within each group follows from it only when each group is contiguous (`AdjacentToGroupSorted`).
- JavaScript objects list integer-like keys first. The model keeps plain insertion order.
- Strings are sequences of characters, not UTF-16 code units. Case mapping is ASCII only, and `trim` removes the ECMAScript whitespace characters.
- `routeToOpenApiOperation` (zod schemas) is outside this model. The selected route stands for its operation object.
- The Babel traversal that attaches comments to operations, the bundler, the worker and the CLI of the OpenAPI generator are left out.
- OpenApiPaths.BuildPaths: not every route gets an entry. Two pathnames that map to one path key (`a` and `/a`), or methods that differ only in case, overwrite each other as `Object.fromEntries` does. Only the direction that every output operation comes from a route is stated.
