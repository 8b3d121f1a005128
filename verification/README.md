# ORS orchestration of the adjudication map, in Dafny

This project models the OpenRouteService layer of the "adjofer" map
(`dist/maps/adjofer/map.js`). The layer asks a remote service for three
things: isochrones around an origin, a route from the origin to a school
centre, and geocoding of an address or a point. The model covers:

- the pending tracker `espera`, a list of tags that the context menus read;
- the three services `Isocronas`, `Ruta` and `Geocode`, each with a
  tri-state value (false = absent, null = in progress, or a result), and,
  for the first two, a cache keyed by the points of the last computation;
- the four-way promise value each request resolves to. `null` means
  another request is in flight, `false` a cache hit, `true` a fresh
  result, and `undefined` a failure;
- `mismoPunto`, the point equality that keys both caches;
- the map facade. This is the `isocronas`, `ruta` and `direccion` setters
  with the `contador` they bump and the change events they fire, the
  origin change handlers, and the two context-menu entries that read the
  tracker;
- the chunked ring pass `crearIsocronas`, which turns nested solid
  polygons into rings with decreasing `ratio`;
- the marker helpers `rgb2hex`, `numofer` and `bil`, and the travel time
  shown in the route popup;
- the correction predicates `adjpue`, `ofens`, `turno`, `tipo` and `vi`.

Each service operation is a pure function from a state to a `Base.Step`.
A step holds the new state, the new tracker and what happened to the
caller's promise. The promise may settle with an outcome, wait on a
transport call, be rejected, or never settle. Transport callbacks are
events, and `Facade.Run` plays any sequence of events against the map.

`Facade.Variant` selects the definitions the services use:

- `AsWritten` uses the code as it is;
- `Corrected` uses the fixes listed under "## Findings".

`Facade.Inv` holds on every reachable map under both variants.
`Facade.Tracked` says that each kind's tag is pending exactly while its
service is in progress. It holds under `Corrected` and can be broken
under `AsWritten`.

## Model

| member | source | states |
|---|---|---|
| Base.Encode | dist/maps/adjofer/map.js:1306-1309 | each outcome has its own promise value: null exactly for a duplicate, false exactly for a cache hit, a truthy value exactly for a fresh computation and undefined exactly for a failure |
| Base.EncodeDecode | dist/maps/adjofer/map.js:1306-1309 | the four promise values and the four outcomes correspond one to one, in both directions |
| Espera.IndexOf | dist/maps/adjofer/map.js:1224 | -1 exactly when the value is absent, otherwise the position of its first occurrence |
| Espera.Remove | dist/maps/adjofer/map.js:1223-1230 | answers true iff the tag was pending; removes exactly one occurrence and leaves the list untouched when absent |
| Espera.RemoveDeletesFirst | dist/maps/adjofer/map.js:1224-1226 | the occurrence removed is the first one; the rest keeps its order |
| Espera.HasIsMembership | dist/maps/adjofer/map.js:638 | the `indexOf(...) !== -1` test the menus use is list membership |
| Espera.RemoveKeepsOthers | dist/maps/adjofer/map.js:1223-1230 | removing one tag keeps every other tag and its count |
| Espera.PushThenRemove | dist/maps/adjofer/map.js:1223-1230 | removing a tag just pushed succeeds and gives back the tracker's contents, and the exact list when the tag was absent before |
| Espera.PushRemoveOtherCommute | dist/maps/adjofer/map.js:1223-1230 | a push of one tag and a removal of another commute up to order |
| Points.MismoPunto | dist/maps/adjofer/map.js:1723-1728 | false when either point is missing, otherwise equality of latitude and longitude |
| Points.MismoPuntoSymmetric | dist/maps/adjofer/map.js:1723-1728 | the point equality is symmetric, and reflexive on present points |
| Isocronas.SetOptions | dist/maps/adjofer/map.js:1297-1303 | given members replace the current ones; the range always ends up a list with the same seconds |
| Isocronas.SetOptionsIdempotent | dist/maps/adjofer/map.js:1297-1303 | applying the same options twice, or an empty patch afterwards, changes nothing |
| Isocronas.InitValid | dist/maps/adjofer/map.js:1268-1295 | a fresh service is well formed and its default range is the list [3600] |
| Isocronas.Remove | dist/maps/adjofer/map.js:1416-1422 | true iff rings were shown; the display is cleared while cache and options are kept; false leaves the service unchanged |
| Isocronas.RemoveIdempotent | dist/maps/adjofer/map.js:1416-1422 | a second removal answers false and changes nothing |
| Isocronas.Create | dist/maps/adjofer/map.js:1314-1358 | duplicate exactly while in progress, with nothing changed; cache hit exactly when the origin equals the cached one, showing the cached rings; otherwise a request for the origin with the current options; the tag is pushed on every non-duplicate path |
| Isocronas.SingleFlight | dist/maps/adjofer/map.js:1318-1321 | while a request is outstanding, any further create is a duplicate that changes nothing |
| Isocronas.Complete | dist/maps/adjofer/map.js:1401-1405 | the rings are shown and cached with the origin, the promise resolves true, and one tag is removed |
| Isocronas.CacheReuse | dist/maps/adjofer/map.js:1326-1331 | after a computation at p and a removal, a create at p is a cache hit showing the same rings, with no request |
| Isocronas.CacheInvalidation | dist/maps/adjofer/map.js:1333-1337 | with the cache at p, a create at another point q issues a request for q |
| Isocronas.RatioDecreasing | dist/maps/adjofer/map.js:1390 | ratios `1 - i/n` lie in (0, 1] and strictly decrease with i |
| Isocronas.RingsOfShape | dist/maps/adjofer/map.js:1383-1393 | ring 0 copies the first solid, ring i is the difference of solids i and i-1, and each ring and its solid share a decreasing ratio |
| Isocronas.Batch | dist/maps/adjofer/map.js:1375-1396 | one invocation of `process` extends the rings built so far by at least one index, and by all of them when chunking is off |
| Isocronas.CrearIsocronas | dist/maps/adjofer/map.js:1361-1410 | whatever the timing, the result is exactly the reference rings and solids; the progress reports strictly increase and the last one is (n, n) |
| Isocronas.FailAsWrittenLocksOut | dist/maps/adjofer/map.js:1351-1355 | as written, a failed request leaves the tag pending and the promise unsettled, and every later create is a duplicate |
| Isocronas.Fail | dist/maps/adjofer/map.js:1351-1355 | the corrected failure empties the display, keeps the cache, resolves undefined and removes one tag |
| Isocronas.FailClearsTag | dist/maps/adjofer/map.js:1351-1355 | with the corrected failure, the tracker returns to its state before the request and the next create goes to the network |
| Isocronas.CacheHitLeaksTag | dist/maps/adjofer/map.js:1323-1331 | as written, every cache hit adds one "isocronas" tag that nothing ever removes |
| Isocronas.CreateFixed | dist/maps/adjofer/map.js:1314-1358 | same outcome and state as create; the tag is pushed only when a request is issued |
| Isocronas.CacheHitFixedKeepsTracker | dist/maps/adjofer/map.js:1323-1331 | with the tag pushed after the cache test, a cache hit leaves the tracker as it was |
| Isocronas.StaleOriginServed | dist/maps/adjofer/map.js:1401-1403 | as written, if the origin moves from p to q during a request, a later create at q is served the rings computed for p |
| Isocronas.CompleteFixed | dist/maps/adjofer/map.js:1401-1405 | the corrected completion caches the rings under the requested location |
| Isocronas.CacheKeyIsRequest | dist/maps/adjofer/map.js:1326-1331 | after the corrected completion, a create at q is a cache hit iff q is the requested location |
| Ruta.SetOptions | dist/maps/adjofer/map.js:1614-1616 | a given profile replaces the current one, and nothing else changes |
| Ruta.Remove | dist/maps/adjofer/map.js:1709-1716 | true iff a route was shown; the display is cleared while the cache is kept |
| Ruta.RemoveIdempotent | dist/maps/adjofer/map.js:1709-1716 | a second removal answers false and changes nothing |
| Ruta.Create | dist/maps/adjofer/map.js:1618-1671 | duplicate exactly while in progress; cache hit exactly when both origin and destination equal the cached ones, without touching the tracker; otherwise a request for the two points with "rutas" pushed |
| Ruta.SingleFlight | dist/maps/adjofer/map.js:1622-1625 | while a request is outstanding, any further create is a duplicate that changes nothing |
| Ruta.Succeed | dist/maps/adjofer/map.js:1673-1682 | the route is shown and cached with both points, the promise resolves true, and one "rutas" tag is removed |
| Ruta.CacheReuse | dist/maps/adjofer/map.js:1627-1636 | after a route from p to d and a removal, the same request is a cache hit |
| Ruta.CacheNeedsBothPoints | dist/maps/adjofer/map.js:1627-1628 | changing either the destination or the origin alone forces a new request |
| Ruta.Fail | dist/maps/adjofer/map.js:1664-1668 | as written, a failure removes the tag and resolves undefined but leaves the value null; an error body that cannot be read abandons the promise |
| Ruta.FailClearsTag | dist/maps/adjofer/map.js:1664-1668 | a failure with an error body gives back the tracker as before the request |
| Ruta.FailLocksOut | dist/maps/adjofer/map.js:1641 | as written, after a failure every later create, for any points, is a duplicate |
| Ruta.FailFixed | dist/maps/adjofer/map.js:1664-1668 | the corrected failure returns the value to absent and keeps the cache, with the same tracker and promise effect |
| Ruta.FailFixedAllowsRetry | dist/maps/adjofer/map.js:1664-1668 | after the corrected failure the next create issues a request |
| Ruta.StaleOriginServed | dist/maps/adjofer/map.js:1677-1678 | as written, if the origin moves from p to q during a request, a later route from q is served the route computed from p |
| Ruta.SucceedFixed | dist/maps/adjofer/map.js:1673-1682 | the corrected success caches the route under the requested start and end |
| Ruta.CacheKeyIsRequest | dist/maps/adjofer/map.js:1627-1628 | after the corrected success, a create is a cache hit iff both points are those requested |
| Geocode.SetOptions | dist/maps/adjofer/map.js:1506-1508 | a given country replaces the current one, and the value is untouched |
| Geocode.Query | dist/maps/adjofer/map.js:1518-1543 | duplicate exactly while in progress; otherwise marks busy, pushes "geocode" and issues a search or reverse request restricted to the country |
| Geocode.SingleFlight | dist/maps/adjofer/map.js:1520-1523 | after a query is issued, any further query is a duplicate |
| Geocode.ObtenerCoordenadas | dist/maps/adjofer/map.js:1568-1575 | no candidates gives null, otherwise the candidates themselves |
| Geocode.ObtenerDireccion | dist/maps/adjofer/map.js:1564-1566 | the label of the first feature, or "Dirección desconocida" when there is none |
| Geocode.Succeed | dist/maps/adjofer/map.js:1544-1551 | the promise resolves true and one tag is removed; a search stores its candidates, or null when there are none, and a reverse lookup stores the label `obtenerDireccion` gives |
| Geocode.NoCache | dist/maps/adjofer/map.js:1518-1543 | after a successful query the same query goes to the network again |
| Geocode.Fail | dist/maps/adjofer/map.js:1552-1558 | the error object becomes the value, the tag is removed and the promise resolves undefined; an unreadable body abandons the promise with the query still busy |
| Geocode.SettleClearsTag | dist/maps/adjofer/map.js:1544-1558 | both settling paths give back the tracker as before the query |
| Geocode.EmptySearchLocksOut | dist/maps/adjofer/map.js:1568-1572 | as written, an address with no candidates resolves true but leaves the value null, and every later query is a duplicate |
| Geocode.SucceedFixed | dist/maps/adjofer/map.js:1544-1551 | the corrected success never leaves the service busy, and is the original one unless the search found nothing |
| Geocode.EmptySearchFixedAllowsRetry | dist/maps/adjofer/map.js:1568-1572 | after a corrected empty search the next query goes to the network |
| Facade.ReactCreate | dist/maps/adjofer/map.js:366-371 | `contador` grows exactly on a fresh computation or a failure; the event fires on every outcome except a duplicate |
| Facade.ReactQuery | dist/maps/adjofer/map.js:390-395 | the address setter bumps and fires together, exactly when the outcome is not a duplicate |
| Facade.ReactionsByOutcome | dist/maps/adjofer/map.js:366-371 | a cache hit is announced but not counted, and a duplicate is silent |
| Facade.SetIsocronasStep | dist/maps/adjofer/map.js:359-378 | a call never bumps `contador`; off removes the display, keeps the cache and fires the event; on while computing changes nothing; on otherwise fires only for a cache hit, showing the cached rings, or requests the rings for the current origin and pushes "isocronas" |
| Facade.SetRutaStep | dist/maps/adjofer/map.js:404-423 | a call never bumps `contador`; null removes the route, keeps the cache and fires the event; a destination while computing changes nothing; otherwise it fires only for a cache hit, showing the cached route to that destination, or requests the route from the origin and pushes "rutas" |
| Facade.SetDireccionStep | dist/maps/adjofer/map.js:383-398 | nothing is counted or fired at the call; an empty address or a busy service changes nothing, otherwise the service is busy, "geocode" is pushed and the query is outstanding |
| Facade.SetOrigenStep | dist/maps/adjofer/map.js:455-481 | the origin becomes the new one, the isochrones are removed with their event, a shown route is removed with its event, and caches, tracker, counter and outstanding calls stay |
| Facade.IsoLoadedStep | dist/maps/adjofer/map.js:1344-1349 | the rings of the features are shown and cached, keyed by the origin at completion as written or by the requested point corrected; one "isocronas" is removed, `contador` grows and the event fires |
| Facade.IsoFailedStep | dist/maps/adjofer/map.js:1350-1354 | as written only the outstanding call is gone; corrected, the service is absent, one "isocronas" is removed, `contador` grows and the event fires |
| Facade.RouteLoadedStep | dist/maps/adjofer/map.js:1659-1682 | the route to the requested destination is shown and cached, from the origin at arrival as written or the requested start corrected; one "rutas" is removed, `contador` grows and the event fires |
| Facade.RouteFailedStep | dist/maps/adjofer/map.js:1664-1668 | without an error body only the call is gone; with one, one "rutas" is removed, `contador` grows and the event fires, the route staying in progress as written and absent corrected |
| Facade.GeoSettle | dist/maps/adjofer/map.js:390-395 | the service takes the callback's state; a settled answer other than a duplicate bumps `contador` and fires the event, anything else neither |
| Facade.Step | dist/maps/adjofer/map.js:346-491 | a transport callback with no call of its kind outstanding changes nothing |
| Facade.StepGrows | dist/maps/adjofer/map.js:346-491 | every event keeps the events already fired, fires at most two more, and bumps `contador` at most once and only with an event |
| Facade.Run | dist/maps/adjofer/map.js:346-491 | along any run of events the fired events only grow, `contador` grows by at most one per event and never outruns the events fired |
| Facade.SetIsocronasPreserves | dist/maps/adjofer/map.js:359-378 | the isochrone setter keeps the invariant, and keeps the tracker truthful when corrected |
| Facade.SetRutaPreserves | dist/maps/adjofer/map.js:404-423 | the route setter keeps the invariant and a truthful tracker |
| Facade.SetDireccionPreserves | dist/maps/adjofer/map.js:383-398 | the address setter keeps the invariant and a truthful tracker |
| Facade.StepPreservesInv | dist/maps/adjofer/map.js:346-491 | every setter call, origin change and transport callback keeps the invariant, in both variants |
| Facade.StepKeepsTracked | dist/maps/adjofer/map.js:346-491 | with the corrections, every event keeps each tag pending exactly while its service is in progress |
| Facade.RunPreservesInv | dist/maps/adjofer/map.js:346-491 | every sequence of events keeps the invariant, and a truthful tracker when corrected |
| Facade.Reachable | dist/maps/adjofer/map.js:346-491 | every map reachable from a fresh one satisfies the invariant, and, corrected, has a truthful tracker |
| Facade.SingleFlight | dist/maps/adjofer/map.js:359-423 | while a call of a kind is outstanding, asking for that kind again through its setter changes nothing at all |
| Facade.IsochroneCacheReuse | dist/maps/adjofer/map.js:359-378 | switching shown isochrones off and on again shows the same rings, fires two events and leaves `contador` alone |
| Facade.CrearRutaNeverWaits | dist/maps/adjofer/map.js:690-695 | as written, with an origin set the route entry is never disabled by a pending route; testing "rutas" it is |
| Facade.MenusTruthful | dist/maps/adjofer/map.js:636-640 | with a truthful tracker, "Generar isocronas" is disabled iff isochrones are in progress, and the corrected route entry iff there is no origin or a route is in progress |
| Facade.CacheHitDisablesMenu | dist/maps/adjofer/map.js:1323-1331 | as written, off, on (a cache hit) and off leaves nothing in progress but "Generar isocronas" disabled |
| Corrections.BitAnd | dist/maps/adjofer/map.js:881 | the bitwise and of two codes is no greater than either |
| Corrections.BitAndShares | dist/maps/adjofer/map.js:881 | on codes up to 3, the and is non-zero iff the two codes share a half (bit) |
| Corrections.Overlaps | dist/maps/adjofer/map.js:987 | on codes up to 3, true iff the codes share a half |
| Corrections.Listed | dist/maps/adjofer/map.js:768 | membership in the list, turned round by `inv` |
| Corrections.AdjPue | dist/maps/adjofer/map.js:764-770 | an adjudication matches iff its post is in the list, or iff it is not when inverted |
| Corrections.OfEns | dist/maps/adjofer/map.js:773-778 | an offered teaching matches iff its code is in the list, or iff it is not when inverted |
| Corrections.ListedInverts | dist/maps/adjofer/map.js:764-778 | flipping `inv` negates both list corrections |
| Corrections.ShiftCode | dist/maps/adjofer/map.js:872-876 | a shift name maps to a code of at most two bits |
| Corrections.Turno | dist/maps/adjofer/map.js:869-882 | a blended-learning teaching (null shift) never matches; any other matches iff its shift shares no half of the day with the selection, or shares one when inverted |
| Corrections.TurnoByShift | dist/maps/adjofer/map.js:869-882 | a morning or evening teaching is kept exactly when its half of the day is selected, an all-day one is always kept, and an unknown shift name is always removed |
| Corrections.TurnoDefaultShift | dist/maps/adjofer/map.js:879 | a teaching without a shift counts as evening for adults and as morning otherwise |
| Corrections.DifCode | dist/maps/adjofer/map.js:983-985 | the centre kind maps to 0, 1 or 2 |
| Corrections.Tipo | dist/maps/adjofer/map.js:980-989 | a centre matches iff its kind shares a bit with the selection, turned round by `inv`; an ordinary centre matches iff inverted |
| Corrections.TipoSelectsKinds | dist/maps/adjofer/map.js:980-989 | selection 1 picks "compensatoria", 2 picks "dificil", 3 any non-ordinary kind, and inverting 3 negates it |
| Corrections.ViAsWritten | dist/maps/adjofer/map.js:814-826 | as written, the answer is true iff the position of the adjudication plus one exceeds the vacancies, whatever the count the loop computed |
| Corrections.ViLoop | dist/maps/adjofer/map.js:820-822 | the loop ends with the index one past `idx` and the count of adjudications to the post up to `idx` |
| Corrections.Vi | dist/maps/adjofer/map.js:814-826 | corrected, an adjudication is removed iff the adjudications to its post up to it outnumber the initial vacancies |
| Corrections.CountIsSet | dist/maps/adjofer/map.js:820-823 | the loop's count is the number of positions holding the post |
| Corrections.ViMonotone | dist/maps/adjofer/map.js:814-826 | once an adjudication to a post is beyond the vacancies, so is every later one to that post |
| Corrections.ViAsWrittenCountsPositions | dist/maps/adjofer/map.js:824 | adjudications [A, B] with one vacancy: B is the first to its post, so the corrected rule keeps it, yet `ViAsWritten` removes it |
| Converters.Round | dist/maps/adjofer/map.js:1054 | `Math.round` on a non-negative number: the nearest integer, halves up |
| Converters.RoundThird | dist/maps/adjofer/map.js:1054 | rounding a third of n gives (n + 1) / 3 |
| Converters.NumOfer | dist/maps/adjofer/map.js:1048-1055 | the result is the visible desirable teachings plus a third of the other visible ones, rounded half up |
| Converters.NumOferSteps | dist/maps/adjofer/map.js:1048-1055 | a hidden teaching changes nothing, and a visible desirable one adds exactly one |
| Converters.Language | dist/maps/adjofer/map.js:1059 | a teaching has a language iff it is visible and its language is non-empty |
| Converters.Idiomas | dist/maps/adjofer/map.js:1059-1061 | the kept languages have no repeats and are exactly the languages of visible teachings |
| Converters.Bilingue | dist/maps/adjofer/map.js:1057-1073 | null iff no visible language, the language iff exactly one distinct one, "multi" iff two or more |
| Converters.BilingueIgnoresRepeats | dist/maps/adjofer/map.js:1057-1073 | a hidden teaching or a repeated language leaves the answer unchanged |
| Numerals.ToBase | dist/maps/adjofer/map.js:106 | `toString(radix)` writes at least one digit of the radix, reading it back gives the number, and it starts with "0" only for zero, which is written "0" |
| Numerals.ToBaseUnique | dist/maps/adjofer/map.js:106 | a string of decimal or hex digits with no leading zero is exactly what `toString` writes for its value, so the written form is unique |
| Colors.Pad2 | dist/maps/adjofer/map.js:106 | the padded component is the two hex digits of the component modulo 256 |
| Colors.Rgb2Hex | dist/maps/adjofer/map.js:105-107 | "#" followed by two hex digits per component |
| Colors.ParseRgb2Hex | dist/maps/adjofer/map.js:105-107 | reading the colour back gives every component modulo 256, so components below 256 come back unchanged |
| Popup.Tiempo | dist/maps/adjofer/map.js:1737-1745 | the whole minutes are the floor of seconds over 60; up to 60 minutes stay minutes, above that become hours and minutes under 60 |
| Popup.Show | dist/maps/adjofer/map.js:1742 | a number is written in decimal digits with no leading zero that read back as itself, after a "-" when negative |
| Popup.ParseRender | dist/maps/adjofer/map.js:1737-1745 | the popup text for any non-negative duration reads back as the duration it came from |

## Left out

- Leaflet, the DOM and the UI are not modelled: layers, markers, popups other than the time text, the progress bar, the loading image and the binding of context menus. The menus appear only as their two `disabled` flags.
- The "Geolocalizar" entry's flag is not modelled, because it reads the origin marker's `postal` attribute, which is outside this layer.
- HTTP transport, JSON parsing and the Promise machinery are replaced by events. The URL, headers and API key of each request are not modelled; the request keeps only the points and options.
- turf's `difference` is the parameter `diff`. turf returning null for an empty difference is not modelled.
- Clocks and `setTimeout` are the oracle `late(batch, i)`. The first index of every batch is always processed, as the time since the batch started is then zero; this is what makes the chunked pass terminate.
- Floating-point coordinates, seconds and ratios are reals. Rounding and overflow of doubles are not modelled.
- `HSLtoRGB`, `blancoNegro`, the `adjref` and `escEquiv` corrections and the correction engine and `Converter` are not modelled; they are markers and filters outside the request layer.
- The chained `ofens` correction (lines 779-800) is not modelled, because it reads the global teaching catalogue.
- The `oldval`/`newval` payloads of the change events are not modelled; an event is its name.
- `sidebar.js` is not part of this model.
- Markers are reduced to their points; marker identity and other attributes are not modelled.
- JavaScript's 32-bit `&` is `Corrections.BitAnd` on naturals, which agrees with it on the codes 0 to 3 that occur.
- Negative or fractional rgb components are not modelled.
- Options other than the isochrone options, the route profile and the geocoding country are not modelled.
- A null or undefined address given to the `direccion` setter is not modelled; only the empty string is.
- A rejected promise gets no reaction from the setters; the model drops it.
- `remove()` returning `this` is modelled as true.
- Isocronas.SetOptions: the contract speaks of profile, interval and range; the other members are merged the same way but are not stated.
- Corrections.Turno: the meaning is stated for selections up to 3, the values the menus offer.
- Corrections.Tipo: the meaning is stated for selections up to 3, the values the menus offer.
- Converters.Round: requires a non-negative argument, since the counts it rounds are never negative.

## Findings

| source | as written | input that shows it | evidently intended | confidence | as-written member | corrected member |
|---|---|---|---|---|---|---|
| dist/maps/adjofer/map.js:1351-1355 | the failure callback calls `failback()` without the response, which throws before the tag is removed and before `resolve` | any isochrone request whose transport fails | clear the tag, resolve undefined and leave the service absent | high, not executed | Isocronas.FailAsWrittenLocksOut | Isocronas.FailClearsTag |
| dist/maps/adjofer/map.js:1323-1331 | "isocronas" is pushed before the cache test, and the cache-hit path never removes it | a shown isochrone at origin p switched off, on and off again | a cache hit leaves the tracker alone, so "Generar isocronas" is enabled again | high, not executed | Facade.CacheHitDisablesMenu | Facade.MenusTruthful |
| dist/maps/adjofer/map.js:693 | the route menu tests the tag "ruta" while the route service pushes "rutas" | an origin set and a route request outstanding | the entry is disabled while a route is in progress | high, not executed | Facade.CrearRutaNeverWaits | Facade.MenusTruthful |
| dist/maps/adjofer/map.js:1664-1668 | a failed route leaves `value` null, the in-progress mark | any route request whose transport fails, then any other route | the service returns to absent so the next route can be requested | high, not executed | Ruta.FailLocksOut | Ruta.FailFixedAllowsRetry |
| dist/maps/adjofer/map.js:1401-1403 | the cached origin is read when the rings are complete, not when they were requested | request at p, origin moved to q before the response, isochrones asked again at q | the cache is keyed by the origin the rings were computed for | medium, not executed | Isocronas.StaleOriginServed | Isocronas.CacheKeyIsRequest |
| dist/maps/adjofer/map.js:1677-1678 | the cached origin is read when the route arrives, not when it was requested | route from p to d, origin moved to q before the response, route from q to d asked | the cache is keyed by the two points the route was computed for | medium, not executed | Ruta.StaleOriginServed | Ruta.CacheKeyIsRequest |
| dist/maps/adjofer/map.js:1568-1572 | an address with no candidates stores null, which is also the in-progress mark | a search for an address with no results, then any query | "nothing found" is a value of its own and later queries go ahead | medium, not executed | Geocode.EmptySearchLocksOut | Geocode.EmptySearchFixedAllowsRetry |
| dist/maps/adjofer/map.js:824 | `vi` compares the loop index, one past the position, with the vacancies and ignores the count it computed | adjudications [A, B], index 1, one initial vacancy for B | compare the number of adjudications to the post with the vacancies | high, not executed | Corrections.ViAsWrittenCountsPositions | Corrections.Vi |

The corrected definitions (`Isocronas.Fail`, `Isocronas.CreateFixed`,
`Isocronas.CompleteFixed`, `Ruta.FailFixed`, `Ruta.SucceedFixed`,
`Geocode.SucceedFixed`) are the ones `Facade.Step` uses under `Corrected`;
`Facade.CrearRutaDisabledFixed` is the route entry's test with the tag the
route service pushes. `Corrections.Vi` is the model's
definition of the `vi` correction; `Corrections.ViAsWritten` stands beside
it only to exhibit the discrepancy.
