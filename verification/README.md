# gpx-library core, modelled in Dafny

This project models the sequential logic of a hiking-route catalogue shown on an
interactive map: the walk entity (total ascent, distance, numeric index, memoized
ascent), the leading-edge throttle with trailing coalescing, the map's
click-to-select ring search and its echo-suppressing shadow selection, the GeoJSON
and zoom-expression builders, the tag comparator, and the base-map style switcher.

Everything is immutable datatypes and pure functions, plus one method with a loop.
Stateful pieces are explicit state records stepped by events:

- `option.dfy` (`Optional`): `Option`, standing for `undefined` / `null` / the `+Infinity` seed.
- `walk.dfy` (`Walks`): `getAscent` as a left fold over the heights, next to an independent
  reference sum `Rise`. Construction takes the class-wide counter as an explicit value and
  returns the incremented one. The `ascent` getter returns the value, the walk with its memo
  slot filled, and whether it recomputed.
- `throttle.dfy` (`Throttle`): the closure state is `(timer deadline, cached args)`. The
  inputs are `send` and `clear` at integer millisecond times. Timer callbacks are steps of
  their own; they run at their deadline, and any callback due by the time of an input runs
  before that input. `func` and `onClear` calls are returned as timed effects.
- `map_data.dfy` (`MapData`): `fromZoom`, `makeGeoJsonData` and `surround`. The polyline
  decoder `toGeoJSON` is a function parameter.
- `map_selection.dfy` (`MapSelection`): `useMapSelection`. `queryRenderedFeatures` is a
  function parameter from (box, layer names) to the ids of the features hit, in the
  library's order. A closed-loop `Page` pairs the engine with an owner that stores every
  emitted selection. That owner counts camera flights.
- `comparators.dfy` (`Comparators`): `tagComparator`. The `\p{Lu}` test and `localeCompare`
  are parameters, and each order property is stated under hypotheses about `localeCompare`.
- `map_style.dfy` (`MapStyles`): the style index, the `localStorage` preference as a
  `map<string, string>`, and the style watcher's write-through.

The selection watcher compares the external value with `localSelection`, which also
adopts changes made elsewhere, not only the engine's own clicks. `Walk` never assigns
`tags`, so a constructed walk has no tags.

## Model

| member | source | states |
|---|---|---|
| Walks.AscentStep | src/interfaces/Walk.ts:15-16 | one reducer step remembers the new sample; the `+Infinity` seed contributes nothing, otherwise the gain is `max(0, next - prev)` |
| Walks.FoldAscent | src/interfaces/Walk.ts:14-17 | the fold never decreases the running ascent and ends with the last sample as `prev` |
| Walks.GetAscent | src/interfaces/Walk.ts:13-18 | ascent is never negative; an empty or one-sample series has ascent 0 |
| Walks.FoldFromSample | src/interfaces/Walk.ts:14-17 | after a first sample `p`, the fold adds exactly the reference rise of `p` followed by the rest |
| Walks.AscentIsRise | src/interfaces/Walk.ts:13-18 | the fold equals the independent sum over consecutive pairs of the positive rise, for every series |
| Walks.AscentOfNonDecreasing | src/interfaces/Walk.ts:14-17 | on a series that never descends, ascent is last minus first |
| Walks.AscentOfNonIncreasing | src/interfaces/Walk.ts:14-17 | on a series that never rises, ascent is 0 |
| Walks.AscentAtLeastNetGain | src/interfaces/Walk.ts:13-18 | ascent is at least the net gain from first to last sample |
| Walks.Construct | src/interfaces/Walk.ts:41-52 | copies description, name, filename, author, heights, length and polyline; leaves tags undefined; bumps the counter and takes the new value as index |
| Walks.ConstructAll | src/interfaces/Walk.ts:39-52 | successive constructions get indices counter+1, counter+2, ...: strictly increasing, above every earlier index, fields copied |
| Walks.FirstIndexIsOne | src/interfaces/Walk.ts:39-51 | the first walk of a program run has index 1 |
| Walks.Distance | src/interfaces/Walk.ts:54-57 | distance in km times 1000 is the length in metres; non-negative for a non-negative length |
| Walks.ReadAscent | src/interfaces/Walk.ts:59-65 | the getter returns the ascent of the heights, recomputes exactly when nothing is cached, and then caches it |
| Walks.AscentMemoized | src/interfaces/Walk.ts:59-65 | a second read returns the same value, does not recompute and changes nothing |
| Throttle.CallAndTimeout | src/utils/throttle.ts:16-26 | calls `func` now and sets a deadline `wait` ms ahead, leaving the cache alone |
| Throttle.SendStep | src/utils/throttle.ts:28-31 | idle: calls `func` at once and starts the cooldown; pending: no call, only the latest args are cached |
| Throttle.TimerStep | src/utils/throttle.ts:18-25 | at the deadline, cached args are delivered, the timer restarts and the cache empties; without cached args the throttle goes idle silently |
| Throttle.ClearStep | src/utils/throttle.ts:33-38 | clear drops the timer and the cached args and calls `onClear` exactly once when one was given |
| Throttle.Advance | src/utils/throttle.ts:18-25 | running the callbacks due by `t` leaves no deadline at or before `t`, and changes nothing if none was due |
| Throttle.Drain | src/utils/throttle.ts:18-25 | once inputs stop, the callbacks run out and the throttle ends idle with nothing cached |
| Throttle.FirstCallImmediate | src/utils/throttle.ts:28-29 | the first `send` of a fresh throttle calls `func` at once with its args |
| Throttle.ImmediateIffQuiet | src/utils/throttle.ts:3-6 | after any history without clear and in time order, a `send` at `t` calls `func` at once exactly when `func` was never called or was last called at least `wait` ms before `t` |
| Throttle.ClearDiscards | src/utils/throttle.ts:33-38 | after clear nothing sent earlier is ever delivered, the next send is immediate, and `onClear` is the only extra effect |
| Throttle.DeliveredInSendOrder | src/utils/throttle.ts:13-31 | over any trace, clears included, the args delivered form a subsequence of the args sent: nothing superseded arrives after something newer |
| Throttle.LatestArgsWin | src/utils/throttle.ts:16-31 | without clear, the last args sent are the last args delivered |
| Throttle.CallsAtLeastWaitApart | src/utils/throttle.ts:1-31 | without clear and with inputs in time order, consecutive calls of `func` are at least `wait` ms apart |
| Throttle.QuietMeansImmediate | src/utils/throttle.ts:3-4 | after any history in time order, `clear` included, a `send` at `t` calls `func` at once when `func` was never called or was last called at least `wait` ms before `t` |
| Throttle.ClearEndsCooldown | src/utils/throttle.ts:28-36 | a call at 0, `clear` at 10 and a send at 20 with the default wait give calls at 0 and 20: after `clear` a send is immediate even within `wait` of the last call |
| Throttle.BurstExample | src/utils/throttle.ts:8-31 | sends at 0, 10, 10, 10 ms with the default wait of 100 give exactly two calls: the first args at 0 and the last args at 100 |
| MapData.FlattenStops | src/utils/map.ts:28 | the pairs are flattened in order, zoom before value, two entries per pair |
| MapData.FromZoom | src/utils/map.ts:22-29 | the expression is `interpolate, [linear], [zoom]` followed by the stops; its length is 3 + 2 per stop |
| MapData.FromZoomRoundTrip | src/utils/map.ts:22-29 | the stops can be read back from the expression unchanged and in order |
| MapData.WithPolyline | src/utils/map.ts:36 | the filter keeps only walks with a non-empty polyline and never grows the list |
| MapData.WithPolylineMembers | src/utils/map.ts:36 | a walk is kept exactly when it is in the input and has a non-empty polyline |
| MapData.WithPolylineAppend | src/utils/map.ts:35-36 | the filter preserves order: filtering a concatenation concatenates the filtered parts |
| MapData.MakeGeoJsonData | src/utils/map.ts:31-44 | one feature per kept walk, in order, with `properties.id` the walk's id and geometry decoded from its polyline |
| MapData.FeaturesComeFromWalks | src/utils/map.ts:31-44 | every feature comes from an input walk with a polyline |
| MapData.EveryDrawableWalkHasFeature | src/utils/map.ts:35-43 | every input walk with a polyline yields its feature |
| MapData.MakeGeoJsonDataEmpty | src/utils/map.ts:31-33 | the default empty walk list gives no features |
| MapData.MakeGeoJsonDataAppend | src/utils/map.ts:31-44 | features of a concatenation are the features of each part, in order |
| MapData.Surround | src/utils/map.ts:104-110 | the two corners are centred on the point and span `2·offset` on each axis |
| MapData.InSurround | src/utils/map.ts:104-110 | a point is in the box exactly when it is within `offset` of the centre on both axes |
| MapData.SurroundNested | src/utils/map.ts:104-110 | a wider ring's box contains every point of a narrower ring's box |
| MapSelection.Hits | src/utils/map.ts:152-154 | ring `i` passes the query a box that holds exactly the points within `i` pixels of the click on both axes, and only the `lines` and `selected` layers |
| MapSelection.SearchRings | src/utils/map.ts:151-159 | rings are queried in increasing order; it stops at the first ring with a hit and takes its first id; with no hit, all rings up to 4 were queried and were empty |
| MapSelection.Select | src/utils/map.ts:140-143 | `select` stores the id as the shadow selection and emits that same value |
| MapSelection.Click | src/utils/map.ts:145-161 | a repeated click (detail > 1) queries nothing and emits nothing; otherwise exactly one emission, equal to the new shadow selection, which is the first id of the first ring with hits, or none |
| MapSelection.ClickPicksSmallestRing | src/utils/map.ts:151-158 | if ring k is the first with hits, the click selects that ring's first id after querying rings 0..k |
| MapSelection.OnExternalChange | src/utils/map.ts:131-137 | the watcher adopts the external value and flies exactly when it differs from the shadow copy; an equal value changes nothing |
| MapSelection.WatcherIdempotent | src/utils/map.ts:131-137 | seeing the same external value twice flies at most once |
| MapSelection.ClickNeverFlies | src/utils/map.ts:131-143 | when the owner echoes a click's emission back, the camera does not fly and the page is in sync |
| MapSelection.ChangeExternal | src/utils/map.ts:131-137 | the watcher runs only when the owner's value changes; the page adopts the new value, and the camera flies once exactly when the value is new and differs from `localSelection` |
| MapSelection.ExternalChangeFliesOnce | src/utils/map.ts:131-137 | from a synced page, a change made elsewhere flies exactly once and keeps the page in sync |
| MapSelection.FreshPageStaysSynced | src/utils/map.ts:129-161 | a page loaded with nothing selected and `localSelection` undefined stays synced after any sequence of clicks and external changes |
| MapSelection.RunPageKeepsSynced | src/utils/map.ts:129-161 | once the shadow copy agrees with the owner, it agrees after any sequence of clicks and external changes |
| MapSelection.OnlyExternalChangesFly | src/utils/map.ts:129-161 | a sequence of clicks alone never makes the camera fly: no feedback loop |
| Comparators.IsUppercase | src/utils/comparators.ts:1-3 | a word is upper-case exactly when it is non-empty and its first code point is an upper-case letter |
| Comparators.TagComparator | src/utils/comparators.ts:5-9 | a tag with a colon sorts first; with equal colon status an upper-case initial sorts first; only when both tie does `localeCompare` decide |
| Comparators.ComparatorIsLexicographic | src/utils/comparators.ts:5-9 | the comparator's sign is that of the lexicographic order on (colon/upper-case rank, locale order) |
| Comparators.ComparatorAntisymmetric | src/utils/comparators.ts:5-9 | sign(cmp(a,b)) = -sign(cmp(b,a)) when `localeCompare` is antisymmetric on a, b |
| Comparators.ComparatorReflexive | src/utils/comparators.ts:5-9 | cmp(a,a) = 0 when `localeCompare(a,a)` is 0 |
| Comparators.ComparatorTransitive | src/utils/comparators.ts:5-9 | "sorts no later than" is transitive when `localeCompare` is transitive on the three tags |
| Comparators.UppercaseByFirstCodePoint | src/utils/comparators.ts:1-3 | the upper-case test depends only on the first code point, and the empty tag is not upper-case |
| MapStyles.IndexFrom | src/utils/map-style.ts:11-13 | `indexOf` gives the first position whose style value equals the stored string, or -1 when none does |
| MapStyles.CachedMapStyleIndex | src/utils/map-style.ts:11-13 | the cached index is -1 or a valid position whose style value is the stored preference |
| MapStyles.UpdateMapStyleCache | src/utils/map-style.ts:15-17 | the preference key now holds the style's value and every other key is untouched |
| MapStyles.UseMapStyle | src/utils/map-style.ts:19-20 | the starting index is the cached one when found, otherwise 0; always in range |
| MapStyles.CurrentStyle | src/utils/map-style.ts:22 | the computed style is always one of the listed styles |
| MapStyles.NextMapStyle | src/utils/map-style.ts:24-30 | the index advances by one modulo the list length, the style changes, and the store holds the new style under the preference key |
| MapStyles.CacheRoundTrip | src/utils/map-style.ts:8-17 | reading back a persisted style finds that same style |
| MapStyles.SwitchSurvivesReload | src/utils/map-style.ts:11-30 | after a switch, a program loaded from the store starts on the style switched to |
| MapStyles.UnknownPreferenceFallsBack | src/utils/map-style.ts:11-20 | with no usable stored preference the switcher starts on the first style |
| MapStyles.NextNCycles | src/utils/map-style.ts:24-26 | switching n times moves the index n places round the list |
| MapStyles.FullCycleReturns | src/utils/map-style.ts:9-26 | switching as many times as there are styles (2) returns to the starting style |

## Left out

- Polyline encoding and decoding, bearing interpolation along a route and elevation-profile building are not part of this model; no source for them is among the modelled files. `toGeoJSON` is a function parameter.
- `addLayersToMap`, `applyWalks`, `buildLineLayer`, `makeGeoJson`, the `layers` table and `greaterBounds` (src/utils/map.ts) only drive the rendering library; src/utils/os-map.ts is the same kind of plumbing.
- src/interfaces/VirtualNode.ts (DOM), src/router/index.ts, src/main.ts, vue.config.js, eslint.config.js (configuration) and apache/upload.php, apache/update.php (file, HTTP and shell I/O) are not modelled.
- Vue's `watch` and `nextTick` are not modelled as such. The selection watcher is an explicit step that gets the external value its deferred callback reads. Several external changes that merge into one tick are not modelled. The style watcher runs inside `NextMapStyle`, straight after the index changes.
- Real timers are idealised. A callback runs exactly at its deadline, and a callback due at the time of an input runs first. Browser clamping and timer drift are not modelled.
- Calls to `send` made from inside `func` (re-entrant calls) are not modelled.
- Numbers are exact: heights, lengths and screen coordinates are reals, and `length / 1000` is exact division. NaN and infinite inputs are not modelled.
- The walk counter is an unbounded natural number, so exhausting it is not modelled.
- `\p{Lu}` and `localeCompare` are parameters with no fixed collation. Their order properties are stated as hypotheses of the comparator lemmas.
- `makeGeoJsonData` reads `walk.id`, which the `Walk` class shown does not declare. Its input is therefore a record holding just `id` and `polyline`.
- Throttle.CallsAtLeastWaitApart: stated only for traces without `clear`, because a `send` right after `clear` is immediate however recent the last call was, by construction.
- Throttle.LatestArgsWin: stated only for traces without `clear`, because `clear` drops cached args by construction.
- Walks.ReadAscent: heights are treated as an immutable value. The source shares the caller's array, so changing it after the first read would leave the cached ascent stale; that is not modelled.
- Throttle.Config: `wait` is a natural number of milliseconds. A negative or fractional `wait`, which `setTimeout` clamps or rounds, is not modelled.
- Throttle.ImmediateIffQuiet: both directions are stated only for traces without `clear`. After `clear` a `send` is immediate even within `wait` of the last call (Throttle.ClearEndsCooldown). The direction "quiet implies immediate" holds for every trace and is Throttle.QuietMeansImmediate.
- `func` and `onClear` are assumed to return normally. In the source, a `func` that throws inside the timer callback skips the reset of `cachedArgs`, and `timeout` keeps the handle of the timer that already fired. From then on every `send` only caches, and `func` is not called again until `clear`. A `func` that throws on an idle `send` starts no cooldown. The model has no such failure, so Throttle.Drain, Throttle.LatestArgsWin and the other throttle lemmas describe only runs where `func` returns.
