# In-region disaster alerts: a Dafny model

This project models the logic of the disaster-monitoring dashboard's
`app.js` that decides which upstream disaster events are shown for India,
along with the dashboard's small configuration normaliser:

- `flattenCoords` walks a nested GeoJSON-style coordinate structure. It
  collects every leaf (an array whose first element is a number) depth
  first, left to right (module `Coords`).
- `geometryWithinIndia` tests one geometry entry against the fixed
  `INDIA_BBOX` (module `Region`). A point is tested directly. A shape is
  flattened and tested existentially. Every exception is caught and gives
  `false`.
- `fetchAndRenderAlerts` selects events (module `Events`). The events list
  is read from the feed body, then filtered stably: an event is kept when
  its `geometry` list is non-empty and at least one entry is in the region.
- `addAlertsToMap` swaps `[lng, lat]` leaves into the `[lat, lng]` positions
  the map takes (module `MapView`).
- The settings form's submit handler trims each field; only the two URL
  fields fall back to their defaults. `loadConfig` spreads the stored
  object over `DEFAULTS`; `saveConfig` stores the configuration as JSON
  (module `Config`).

JavaScript values are the datatype `JsValues.JVal`:
`Num | Arr | Null | Other`. The source's runtime type tests become
constructor tests on it. A JavaScript evaluation that can throw returns
`Completion<T> = Normal(value) | Throw`. `geometryWithinIndia`'s `catch`
is the `Throw` branch mapped to `false`.

`flattenCoords` pushes onto a shared accumulator, so it is modelled twice:
- the method `Coords.FlattenCoords`, which threads the accumulator through
  the child loop;
- the function `Coords.Flatten`, which is its specification and which the
  rest of the model uses.

Relational comparison with a non-number operand follows JavaScript's
numeric conversion (`JsValues.ToNumber`):
- `null` converts to 0, and `[]` to 0;
- `[x]` converts as the string form of `x` does, which for a number, null,
  string or array is the same as converting `x` itself (a boolean element
  is not: `[true]` is `"true"`, which is NaN, and the model gives NaN);
- an array of two or more elements converts to NaN;
- NaN fails every comparison.

Three behaviours of the code are easy to miss, and the model follows them:
- A coordinate leaf is any array whose first element is a number, not only
  a two-element pair. `[lng]` is a leaf; its latitude is `undefined`, and
  the box test then fails.
- A null that the walk reaches does not just add nothing: indexing it
  throws, so the whole geometry is rejected even when other leaves lie
  inside the box. The walk reaches the node itself and the children of
  every array whose first element is not a number. A null inside a leaf,
  as in `[80, null]`, is never indexed: that leaf is pushed whole and only
  fails its own box test (`null` compares as 0).
- A stored configuration property overrides its default even when its
  stored value is the empty string. Only a missing property keeps the
  default.

## Model

| member | source | states |
|---|---|---|
| JsValues.IsLeaf | app.js:105 | the `typeof x[0] === "number"` leaf test: an array whose first element is a number |
| JsValues.ToNumber | app.js:107-109 | the numeric conversion of a comparison operand: null and `[]` are 0, `[x]` converts as the string form of `x` (the same as `x` itself for a number, null, string or array), longer arrays and other values are NaN |
| Coords.Flatten | app.js:123-130 | every element a completed walk returns is a leaf (an array whose first element is a number) |
| Coords.FlattenAll | app.js:127 | the child loop returns only leaves |
| Coords.FlattenCoords | app.js:123-130 | the imperative walk over an accumulator throws exactly when the specification throws, and otherwise returns the accumulator followed by the leaves in depth-first order |
| Coords.FlattenAllAppend | app.js:126-128 | depth-first, left to right: the leaves of `a + b` are those of `a` followed by those of `b`, and the walk throws if either part throws |
| Coords.FlattenThrowsIffNull | app.js:124 | the walk throws exactly when a null is reachable through non-leaf arrays |
| Coords.FlattenAllThrowsIffNull | app.js:127 | the child loop throws exactly when some child reaches a null |
| Coords.FlattenMembers | app.js:123-130 | a completed walk outputs exactly the leaves of the structure: nothing is invented and nothing is dropped |
| Coords.FlattenAllMembers | app.js:127 | the child loop outputs exactly the leaves of the children |
| Coords.FlattenAllOfLeaves | app.js:124-125 | a list of leaves walks to itself |
| Coords.FlatListUnchanged | app.js:123-130 | an already-flat list of coordinate leaves comes back unchanged |
| Coords.FlattenIdempotent | app.js:123-130 | flattening the output of a flatten again gives the same output |
| Coords.AddsNothing | app.js:124-128 | a nested number, string, boolean, object or empty array adds nothing and raises nothing, wherever it sits |
| Coords.NestedExample | app.js:123-130 | `[[1,2],[[3,4],[5,6]]]` flattens to `[[1,2],[3,4],[5,6]]` |
| Region.IndiaBox | app.js:79 | `INDIA_BBOX`: latitude 6.0 to 37.5, longitude 68.0 to 97.5 |
| Region.PointInBox | app.js:106-110 | the leaf read as `[lng, lat]`, with both converted components inside their inclusive ranges |
| Region.GeometryWithinIndia | app.js:100-121 | a geometry in the region is present and reaches no null |
| Region.WithinIndiaIff | app.js:100-121 | in the region iff present, no null is reachable, and some leaf of the coordinates passes the inclusive box test |
| Region.PointTest | app.js:105-110 | a point `[lng, lat, ...]` is in the region iff 6.0 <= lat <= 37.5 and 68.0 <= lng <= 97.5, both ends inclusive |
| Region.PointWithoutLatitude | app.js:106-110 | a leaf with no second element is never in the region |
| Region.ShapeClips | app.js:112-117 | a shape with one leaf in the box and no reachable null is in the region |
| Region.NullRejectsWhole | app.js:113-120 | a null among a shape's children rejects the whole geometry, whatever the other children hold |
| Region.NullInsideLeaf | app.js:112-117 | `[[80, null], [80, 20]]` is in the region: the null inside a leaf is never indexed and only that leaf fails the box test |
| Region.NullCoordinatesExcluded | app.js:101-105 | an absent geometry, or one whose coordinates are null or missing, is excluded without a fault |
| Region.CityScenarios | app.js:79 | Delhi (77.2, 28.6) is in the region; New York (-74.0, 40.7) is not |
| Region.OneCornerInside | app.js:112-117 | a polygon ring with a single corner inside the box is in the region |
| Events.Qualifies | app.js:198-199 | the filter callback: a non-empty geometry list with at least one entry in the region |
| Events.Filter | app.js:197 | `filter` returns no more elements than it is given, each passing the callback and taken from the input |
| Events.FilterIsOrderedSubsequence | app.js:197 | the output of `filter` is the input read at a strictly increasing list of positions, which holds exactly the positions whose element passes |
| Events.FilterAppend | app.js:197 | filtering distributes over concatenation |
| Events.SelectInIndia | app.js:197-200 | every selected event qualifies and comes from the input |
| Events.SelectionIsOrderedSubsequence | app.js:197-200 | the selection is the stable subsequence of exactly the qualifying events |
| Events.KeepsQualifying | app.js:197-200 | every qualifying event is selected |
| Events.SelectAppend | app.js:197-200 | selecting from `a + b` gives the selection from `a` followed by the selection from `b` |
| Events.NoGeometryExcluded | app.js:198 | an event whose geometry list is absent or empty is never selected |
| Events.OrderScenario | app.js:197-200 | from `[A, B, C]` where only A and C qualify, the selection is `[A, C]` |
| Events.AlertsInIndia | app.js:196-200 | the refresh throws exactly for a null or truthy scalar body, or an object body without events. Otherwise it is the selection from the list `data.events \|\| data \|\| []` picks: the `events` field when truthy, a bare array itself, and nothing for a falsy body |
| MapView.Swap | app.js:177 | the leaf's first element becomes the longitude and its second the latitude, so the map position passes the box test exactly when the leaf does |
| MapView.ShapeLatLngs | app.js:177 | the shape's position list throws exactly when a null is reachable, and otherwise holds one swapped position per leaf, in walk order |
| MapView.PointMarkerInBox | app.js:165-167 | a point's marker position is in the box exactly when the point geometry is in the region |
| MapView.ShapeVerticesInBox | app.js:177 | a shape geometry is in the region exactly when its polygon draws without throwing and some vertex lies in the box |
| Config.Defaults | app.js:2-7 | `DEFAULTS`: the EONET open-events URL, two empty API keys and the OpenStreetMap tile template |
| Config.LeadingWhitespace | app.js:52-55 | the counted prefix is all whitespace and is followed by a non-whitespace character or the end |
| Config.TrailingWhitespace | app.js:52-55 | the counted suffix is all whitespace and is preceded by a non-whitespace character or the start |
| Config.Trim | app.js:52-55 | the trimmed value is no longer than the field and has no whitespace at either end |
| Config.TrimRemovesOnlyWhitespace | app.js:52-55 | the trimmed value is a contiguous slice of the field with only whitespace before and after it |
| Config.TrimUnchanged | app.js:52-55 | a value without surrounding whitespace trims to itself |
| Config.TrimIdempotent | app.js:52-55 | trimming twice is trimming once |
| Config.SubmitConfig | app.js:51-56 | every submitted value is trimmed. `alertsApi` and `tilesUrl` are the trimmed field, or the default when that is empty, so they are never empty. The two API keys are the trimmed field with no fallback |
| Config.DefaultsTrimmed | app.js:2-7 | neither default URL carries surrounding whitespace |
| Config.ResubmitUnchanged | app.js:44-56 | re-submitting the form as initialised from a submitted configuration changes nothing |
| Config.OrDefault | app.js:52-55 | `v \|\| d` on strings is `v` unless `v` is empty, and is empty only when both are |
| Config.LoadConfig | app.js:9-16 | with stored fields overlaid, the configuration's properties are those of the right-biased merge of the stored object over `DEFAULTS`: each stored property overrides its default and the others keep the default. A storage error, no entry, empty text or unparseable text gives exactly `DEFAULTS` |
| Config.ToObject | app.js:18-20 | the object `saveConfig` serialises has exactly the four configuration properties |
| Config.SaveThenLoad | app.js:18-20 | loading what `saveConfig` stored gives back the saved configuration |

## Left out

- DOM handling is not modelled: navbar scrolling, the settings dropdown, form wiring, the volunteer form and HTML templating. It is UI with no logic beyond string interpolation.
- The Leaflet calls are foreign library code: markers, polygons, bounds and tile layers. Only the coordinate swap of `addAlertsToMap` is modelled.
- The effect of a throw in `addAlertsToMap` on the refresh is not modelled: the map drawing is abandoned after the list has been rendered. `MapView.ShapeLatLngs` models the throw itself. It happens when a kept event has another geometry entry, before or after the qualifying one, that is null, has null or missing coordinates, or reaches a null.
- `fetch` and `res.json()` are I/O. The parsed feed body is the parameter `Events.Feed`.
- `localStorage` and `JSON.parse` are I/O and foreign parsing. Their outcome is the parameter `Config.StoreRead`; what `saveConfig` stores is `Config.ToObject`.
- The three refresh routines are asynchronous and race (the last response wins). This concurrency is not modelled.
- `Math.round` of temperatures and `Date`/`toLocaleString` formatting are not modelled.
- The weather and news widgets are not modelled.
- JsValues.ToNumber: a string, boolean or object coordinate converts to NaN. The model does not capture that a numeric string such as `"80"` compares as a number, nor that `true` compares as 1. Nor does it capture an object whose conversion throws, such as `{"toString": 0}`: in the source the comparison throws and the `catch` rejects the whole geometry, while the model treats that leaf as failing the box test and goes on to the other leaves.
- JsValues.IsLeaf: an object whose `0` property is a number, such as `{0: 5}`, passes the source's leaf test; in the model every object is `Other` and is never a leaf.
- Events.Event: a `geometry` field that is a truthy non-array with a length, such as a string, makes `.some` throw and aborts the refresh. The model treats every such field as absent.
- Events.AlertsInIndia: a null element in the events list makes the filter throw and aborts the refresh. The model's events are always objects. An `events` field holding a truthy non-array is not modelled either.
- Coords.FlattenCoords: the source's accumulator is one array shared by every recursive call and pushed in place. The model passes it as a value and returns the extended value, so aliasing of the caller's array is not captured.
- Config.LoadConfig: the loaded configuration keeps only the four properties the dashboard reads. Other spread properties of the stored object, and stored values that are not strings, are not represented.
