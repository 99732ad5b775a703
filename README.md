# GeoJSON document builder, modelled in Dafny

`geojson.dfy` models the `GeoJson` builder class of `GeoJson.js`. The builder holds one mutable
GeoJSON document. The document's `type` tag selects one of three shapes:

- `FeatureCollection`, which has `features`;
- `GeometryCollection`, which has `geometries`;
- any other tag, which has `coordinates`.

The builder's methods append, replace and remove features, and they validate geometry types
against an allow-list.

Layout, all in module `GeoJsonBuilder`:

- **Values.** `Doc` is the document, one constructor per shape. `Feature` and `Geometry` are the
  objects stored inside it. `Value` is an opaque JSON value used for properties and coordinates.
  `Element` is what a caller hands to `add`.
- **Errors.** Each `throw` becomes a `Result`/`Option` carrying an `Error`.
- **Pure members.** The class's pure members (`useFeatureCollection`, the validators, `feature`,
  `point`, `multiPoint`, `polygone`) are module-level functions, because they read no builder state.
- **The class.** `GeoJson` has one field, `doc`. Its constructor and its methods `AddFeature`,
  `RemoveFeature`, `UpdateFeature` and `Add` change that field in place. Each method's `ensures`
  gives the whole new document in terms of the old one.
- **Specification functions.** These have their properties proved as lemmas: `Replaced` for
  `updateFeature`, `RemoveAsWritten` and `Splice` for `removeFeature`, and `FirstRejected` and
  `AppendedUpTo` for `add`.
- **The allow-list invariant.** `AllAuthorized(doc)` says every feature of a FeatureCollection has
  an authorized geometry type. The constructor establishes it. `AddFeature`, `UpdateFeature`,
  `RemoveFeature`, and `Add` in both collection modes preserve it.
- **Client methods.** `FeatureSession`, `RemoveSession`, `AddSession` and `BypassSession` derive
  concrete outcomes of a session from the contracts alone.

In several places the method names and JSDoc comments of `GeoJson.js` suggest one behaviour and the
code does another. The model follows the code:

- The `add` comment (GeoJson.js:52-55) speaks of adding an element to a single-geometry document.
  The code instead replaces the whole document with the first element (GeoJson.js:68). So the
  document's `type` can change after construction, and a Point document can even become a
  FeatureCollection. The same comment says GeometryCollection elements are "added" to
  `geometries`, but the code replaces that array wholesale (GeoJson.js:66).
- The allow-list check guards every feature that `addFeature` and `updateFeature` store. `add` in
  single-geometry mode bypasses it: the new document may be a FeatureCollection whose features have
  any geometry type. `BypassSession` shows a Point document becoming a FeatureCollection holding a
  `"Circle"` geometry, and that is why `Add` promises `AllAuthorized` only in the two collection
  modes.
- The name `removeFeature(id)` suggests removing the feature with that id, but the code never
  looks at `id`. `filter` returns a fresh array, so `indexOf` of it is
  -1, and `splice(-1, 1)` then drops the last feature. An empty collection is left unchanged
  without an error.
- `throwErrorIfNoTypeGiven` suggests untyped geometries get their own error, but the
  "geometry.type is required" check cannot fire. It runs after the allow-list check, which
  already rejects a geometry that has no `type`. `ValidateGeometry` states this.
- The allow-list is named for geometry types, but it also contains `Feature` and
  `GeometryCollection`. The model keeps both, as the code does.
- The `add` comment describes adding the elements, which reads as all of them. In
  FeatureCollection mode the operation is not atomic. The elements before the first rejected one
  stay appended.

## Model

| member | source | states |
|---|---|---|
| `GeoJsonBuilder.GeoJson.constructor` | GeoJson.js:6-19 | It establishes `Valid()` and `AllAuthorized`. The default and `"FeatureCollection"` give `{FeatureCollection, features: []}`. `"GeometryCollection"` gives `{GeometryCollection, geometries: []}`. Any other string gives `{type: that string, coordinates: []}` with no allow-list check. The document's type always equals the argument. |
| `GeoJsonBuilder.UseFeatureCollection` | GeoJson.js:23-28 | The result is a FeatureCollection, typed `"FeatureCollection"`, with no features. |
| `GeoJsonBuilder.UseDefaultType` | GeoJson.js:34-39 | The result is a single-geometry document whose type is the given string verbatim, with empty coordinates. |
| `GeoJsonBuilder.UseGeometryCollectionType` | GeoJson.js:45-50 | The result is a GeometryCollection, typed `"GeometryCollection"`, with no geometries. |
| `GeoJsonBuilder.GeoJson.Add` | GeoJson.js:60-71 | FeatureCollection mode: each element is appended in order with a non-negative id, its geometry, and its properties or `{}`. Appending stops at the first element whose geometry type is off the allow-list. The features appended before it stay, and the result is that error. GeometryCollection mode: `geometries` becomes the elements verbatim. Any other mode: the document becomes the first element, tag included. Each success returns the new document. In both collection modes it preserves `AllAuthorized`. |
| `GeoJsonBuilder.FirstRejected` | GeoJson.js:62-64 | The index of the first element whose geometry `addFeature` rejects. Every earlier element passes. It equals the length exactly when every element passes. |
| `GeoJsonBuilder.GeometriesOf` | GeoJson.js:66 | The geometries stored by `add` are the elements verbatim: same length, same order. |
| `GeoJsonBuilder.PropertiesOrDefault` | GeoJson.js:78 | Missing properties become `{}`. Given properties are kept. |
| `GeoJsonBuilder.GeoJson.AddFeature` | GeoJson.js:78-89 | Outside a FeatureCollection it fails with NotFeatureCollection(actual type) and nothing changes. With an unauthorized or missing geometry type it fails with IllegalGeometryType and nothing changes. Otherwise exactly `{id, properties, geometry}` is appended after the unchanged earlier features, and the builder is returned. It preserves `AllAuthorized`. |
| `GeoJsonBuilder.GeoJson.RemoveFeature` | GeoJson.js:95-104 | Outside a FeatureCollection it fails with NotFeatureCollection and nothing changes. Otherwise it returns the builder with the features as the as-written removal leaves them: the last one dropped, whatever the id. It preserves `AllAuthorized`. |
| `GeoJsonBuilder.Splice` | GeoJson.js:101 | JavaScript `splice`. It never lengthens the array. It is a no-op for a non-positive count or a start at or beyond the end. A negative start that stays in range with a count of 1 deletes exactly the element at `|s| + start`, counted from the end. |
| `GeoJsonBuilder.RemoveAsWritten` | GeoJson.js:97-102 | A non-empty feature list loses exactly its last element. An empty one stays empty. |
| `GeoJsonBuilder.RemoveUndoesAppend` | GeoJson.js:95-104 | The as-written removal undoes the last append, for any id. |
| `GeoJsonBuilder.RemoveFeatureIgnoresId` | GeoJson.js:97-101 | For features with ids 1 and 2, removing id 1 as written keeps id 1 and drops id 2. The intended removal keeps id 2. |
| `GeoJsonBuilder.RemoveFirstWithId` | GeoJson.js:97-101 | The intended removal. With no matching id the list is unchanged. With a match exactly one feature goes. The result is a sub-multiset of the input. |
| `GeoJsonBuilder.RemoveFirstWithIdAt` | GeoJson.js:97-101 | When `k` is the first index carrying the id, the intended removal is `features[..k] + features[k+1..]`. |
| `GeoJsonBuilder.RemoveFirstWithIdUndoesAppend` | GeoJson.js:95-104 | The intended removal of an id that no earlier feature carries undoes the `addFeature` that appended it. |
| `GeoJsonBuilder.GeoJson.UpdateFeature` | GeoJson.js:111-121 | Outside a FeatureCollection it fails with NotFeatureCollection. With an illegal geometry type it fails with IllegalGeometryType. In both cases the check runs before any write and nothing changes. Otherwise the features become `Replaced(old, id, feature)` and the builder is returned. It preserves `AllAuthorized`. |
| `GeoJsonBuilder.ReplacedAt` | GeoJson.js:115-119 | The update keeps the length. At every index whose id matches, the given feature stands verbatim; every other index is untouched. |
| `GeoJsonBuilder.ReplacedAuthorized` | GeoJson.js:111-121 | When every feature is authorized and the replacement is too, every feature after the update is authorized. |
| `GeoJsonBuilder.ReplacedLength` | GeoJson.js:115-119 | The update preserves the number of features. |
| `GeoJsonBuilder.ReplacedNoMatch` | GeoJson.js:115-119 | When no feature carries the id, the update changes nothing. |
| `GeoJsonBuilder.ReplacedIdempotent` | GeoJson.js:111-121 | Repeating the same update changes nothing more. |
| `GeoJsonBuilder.UpdateWithoutIdRemovesId` | GeoJson.js:111-121 | After an update with a feature built by `feature(...)`, which has no id, no feature carries the updated id. |
| `GeoJsonBuilder.MakeFeature` | GeoJson.js:128-134 | `feature(g, p)` carries `g` and `p` and no id, so it matches no id. |
| `GeoJsonBuilder.Point` | GeoJson.js:140-145 | Tags the coordinates `"Point"`, verbatim. The result passes the geometry checks. |
| `GeoJsonBuilder.MultiPoint` | GeoJson.js:151-156 | Tags the coordinates `"MultiPoint"`, verbatim. The result passes the geometry checks. |
| `GeoJsonBuilder.Polygon` | GeoJson.js:170-175 | `polygone` tags the coordinates `"Polygon"`, verbatim. The result passes the geometry checks. |
| `GeoJsonBuilder.GeoJson.GetType` | GeoJson.js:180-182 | Returns the document's tag. On a valid builder it is `"FeatureCollection"` or `"GeometryCollection"` exactly when the document has that shape. |
| `GeoJsonBuilder.SquaredDistance` | GeoJson.js:188-190 | An integer analogue of the planar distance, namely its square: zero exactly when the two points coincide. |
| `GeoJsonBuilder.FeatureCollectionCheck` | GeoJson.js:202-206 | No error exactly for a FeatureCollection-typed document. Otherwise NotFeatureCollection, carrying the type found. |
| `GeoJsonBuilder.IsAFeatureCollection` | GeoJson.js:211-213 | On a well-formed document the type test holds exactly for the FeatureCollection shape. |
| `GeoJsonBuilder.IsAGeometryCollection` | GeoJson.js:218-220 | On a well-formed document the type test holds exactly for the GeometryCollection shape. |
| `GeoJsonBuilder.IsAuthorized` | GeoJson.js:226-236 | True exactly for the eight listed type strings. An absent type is never authorized. |
| `GeoJsonBuilder.IllegalTypeCheck` | GeoJson.js:225-239 | No error exactly for an authorized type. Otherwise IllegalGeometryType. |
| `GeoJsonBuilder.NoTypeGivenCheck` | GeoJson.js:244-248 | No error exactly when the geometry has a `type`. Otherwise MissingGeometryType. |
| `GeoJsonBuilder.ValidateGeometry` | GeoJson.js:80-81 | The two checks in their order accept exactly the authorized types. An untyped geometry gets IllegalGeometryType. MissingGeometryType never results. |
| `GeoJsonBuilder.Message` | GeoJson.js:202-248 | The NotFeatureCollection text is 33 characters longer than the found type and holds it verbatim at offset 27, just after `"expect a FeatureCollection "`. |
| `GeoJsonBuilder.MessageInjective` | GeoJson.js:202-248 | Two errors with the same text are the same error, so the found type can be read back from the message. |

## Left out

- `randomId` (`Math.random() * Date.now()`) is not modelled. `AddFeature` takes the generated id as a `nat` argument. `Add` picks each id nondeterministically. Nothing is claimed about uniqueness.
- `getDistanceInPixels` is floating-point `Math.hypot` and is not modelled. `SquaredDistance` is only an integer analogue.
- JavaScript's dynamic-typing failures are excluded by well-typed inputs: an undefined `geometry`, a `type` inherited rather than own, and non-array arguments.
- `Add` requires `Fits`: each element has the shape its mode reads. In a single-geometry document the element list must also be non-empty, where JavaScript would leave the document `undefined`.
- `Add` in GeometryCollection mode accepts any objects verbatim in JavaScript. The model stores geometries only.
- `Add` in a single-geometry document accepts only a `DocumentInput` holding a `WellFormed` `Doc`: a FeatureCollection, a GeometryCollection or a `{type, coordinates}` object. JavaScript takes any object. Three kinds of object have no counterpart:
  - a Feature object such as `feature(g, p)`, which is the ordinary single-root GeoJSON (GeoJson.js:68, GeoJson.js:128-133);
  - an object with fields beyond `type` and `coordinates`, because `Single(tag, coordinates)` would drop them;
  - an object tagged as a collection but lacking the matching array.
- Properties and coordinates are opaque `Value`s. Numbers are integers, because floating point is not modelled. Coordinate shapes are not validated, as in the code.
- A feature's own `type` field is always `"Feature"` in the model. A caller-supplied feature with another `type` is not representable.
- JavaScript object identity and aliasing are not modelled. Stored geometries and properties are values, and the returned builder is `this`.
- In JavaScript a thrown error makes `add` return nothing. The model returns `Err`, and the document keeps what was appended before the error.

## Findings

| source | as written | input that shows it | evidently intended | confidence | as-written member | corrected member |
|---|---|---|---|---|---|---|
| GeoJson.js:97-101 | `indexOf` of the array returned by `filter` is always -1, so `splice(-1, 1)` removes the last feature whatever the id | features with ids [1, 2]; `removeFeature(1)` leaves [1] | remove the feature carrying `id`, and change nothing when none does | high (not executed) | `GeoJsonBuilder.RemoveFeatureIgnoresId` | `GeoJsonBuilder.RemoveFirstWithIdAt` |
