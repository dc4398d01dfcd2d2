# Earthquake map styling, modelled in Dafny

This project models the decision logic of a browser script. The script draws the last week's USGS earthquakes on a Leaflet map as circle markers. Each marker's colour comes from the event's depth in kilometres, and its radius comes from the event's magnitude. The script also looks up a single event by id for diagnostics. Around that logic, everything is map-library and DOM glue. All of the logic is pure, so it is modelled with datatypes, functions and lemmas.

- `Classifier` (classifier.dfy): the six marker colours and `chooseColor`'s if/else ladder. Beside the ladder sit an independent table of the upper bounds `[10, 25, 40, 55, 70]` and the half-open band `(lower, upper]` of each colour. The module also holds `chooseRadius` and its inverse.
- `Style` (style.dfy): the feature record (`id`, `geometry.coordinates`, `properties.mag`) and `styleInfo`, which builds the marker options `{color, radius, fillColor}`.
- `Lookup` (lookup.dfy): `features.filter(f => f.id == target)` followed by `results[0]`. An empty result gives an explicit `NotFound`.
- `Legend` (legend.dfy): the depth intervals that the legend labels name. It holds the legend as written and a legend derived from the classifier's table.
- `Wrappers` (wrappers.dfy): an `Option` type.

Depth and magnitude are `real`, so `magnitude * 5` is exact. Values in Dafny are immutable, so `styleInfo` cannot modify the feature it reads.

## Model

| member | source | states |
|---|---|---|
| `Classifier.Color.Rank` | logic.js:44-51 | each colour has a position in the depth order red < orange < yellow < pink < blue < green, and the palette at that position is the colour itself |
| `Classifier.ChooseColor` | logic.js:44-51 | the ladder's colour is one whose band `(lower, upper]`, taken from the table of bounds, contains the depth |
| `Classifier.BandIndex` | logic.js:44-51 | first-match table lookup: every earlier bound is below the depth, and the returned bound (when there is one) is at least the depth |
| `Classifier.LadderIsTable` | logic.js:45-50 | the if/else ladder equals the first-match lookup over `[10, 25, 40, 55, 70]` with green as the fall-through, so the `depth > k &&` guards are redundant |
| `Classifier.BandsPartition` | logic.js:44-51 | a depth lies in a colour's band if and only if the ladder returns that colour: the six bands are total and mutually exclusive |
| `Classifier.BandsDisjoint` | logic.js:44-51 | no depth lies in two bands |
| `Classifier.BoundaryBelongsToLowerBand` | logic.js:45-49 | depths of exactly 10, 25, 40, 55 and 70 take the lower band (red, orange, yellow, pink, blue); any depth strictly above a bound gets a later colour |
| `Classifier.DeepestIsGreen` | logic.js:49-50 | the catch-all `else` gives green exactly for depths above 70 |
| `Classifier.BandIndexMonotone` | logic.js:44-51 | a larger depth never gets an earlier table index, for any table of bounds |
| `Classifier.ChooseColorMonotone` | logic.js:44-51 | if d1 <= d2 then the colour of d1 comes no later in the order than the colour of d2 |
| `Classifier.Color.Name` | logic.js:45-50 | each colour's CSS name (the string `chooseColor` returns) reads back as that colour, so no two colours share a name |
| `Classifier.NameInjective` | logic.js:45-50 | the six CSS colour names are pairwise distinct |
| `Classifier.ChooseRadius` | logic.js:54-56 | no clamping: the radius is zero exactly when the magnitude is zero and negative exactly when the magnitude is negative |
| `Classifier.RadiusRoundTrip` | logic.js:54-56 | dividing the radius by five recovers the magnitude, and the other way round |
| `Classifier.RadiusStrictlyIncreasing` | logic.js:55 | a larger magnitude gives a strictly larger radius, and conversely |
| `Classifier.RadiusLinear` | logic.js:55 | the radius scale preserves sums and multiples |
| `Style.StyleInfo` | logic.js:35-41 | `color == fillColor`; that colour's band contains the third coordinate (depth); the radius divided by five is `properties.mag` |
| `Style.StyleDependsOnDepthAndMagnitude` | logic.js:35-41 | two features get the same style if and only if their depths get the same colour and their magnitudes are equal; id, longitude and latitude play no part |
| `Style.StyleMonotone` | logic.js:35-41 | a deeper, stronger event never gets an earlier colour or a smaller radius |
| `Lookup.FilterById` | logic.js:101 | the result is an order-preserving subsequence of the input, every entry has the target id, and each feature with the target id appears as often as in the input (duplicates kept) |
| `Lookup.FilterMembers` | logic.js:101 | a feature is in the filter's result if and only if it is in the input and has the target id |
| `Lookup.FilterHeadIsFirstMatch` | logic.js:101-102 | when some feature matches, `results[0]` is the first matching feature in input order |
| `Lookup.FindById` | logic.js:101-104 | the outcome is `NotFound` if and only if no feature has the target id (the case where the field access at line 104 faults); a found feature has the id and comes from the input |
| `Lookup.FindByIdIsFirstMatch` | logic.js:101-104 | the lookup finds something if and only if a first match exists, and then it returns exactly that feature |
| `Legend.WrittenLegend` | logic.js:83-88 | the six labels as written: one per colour, listed in band order red, orange, yellow, pink, blue, green |
| `Legend.WrittenLegendAgreesAwayFromTen` | logic.js:83-88 | at every depth other than 10, each written label covers exactly the depths the ladder gives its colour |
| `Legend.WrittenLegendMissesTen` | logic.js:83-84 | depth 10 is drawn red, yet no written label covers it |
| `Legend.DerivedLegend` | logic.js:83-88 | the legend built from the bounds table has one entry per colour, in band order |
| `Legend.DerivedLegendAgrees` | logic.js:83-88 | each derived label covers exactly the depths that the ladder gives its colour |
| `Legend.DerivedLegendFixesRedLabel` | logic.js:83 | the derived legend differs from the written one only in the red label, which becomes `Depth <= 10` |

## Left out

- The map setup is not modelled: the tile layer, the map, base maps, layer groups, overlays and the layer control (logic.js:5-32). These are calls into the Leaflet library, which is not part of this model.
- Marker creation and popups are not modelled: `L.geoJson`, `circleMarker` and `bindPopup` (logic.js:60-65). The tectonic-plate overlay with its fixed style (logic.js:69-75) is not modelled either. The model supplies the style values that these calls consume.
- The network fetches through `d3.json` (logic.js:59, 69, 96) are asynchronous I/O. Nothing is shared between them, so their relative order carries no logic.
- The legend's HTML (logic.js:79-93) is not modelled. Only the depth interval named by each label is kept, in `Legend`.
- The `console.log` calls, and the field reads after the lookup that exist only to be logged (logic.js:97-116), are output. The fault at line 104 is modelled as `NotFound`.
- IEEE-754 rounding is not modelled: depth, coordinates and magnitude are exact reals.
- Missing or non-numeric inputs are not modelled. In the script, an absent third coordinate or `mag` becomes `undefined`, and then every comparison in the ladder is false, so the marker is green and the radius is NaN. A `"mag": null` in the feed takes a different path: `null * 5` is `0` (logic.js:55), so that event gets radius 0. A position is therefore modelled as exactly three reals, and the magnitude as a real.
- The id comparison is modelled as string equality. The script's loose `==` behaves the same way when both sides are strings, which is the case for the feed's ids.

## Findings

| source | as written | input that shows it | evidently intended | confidence | as-written member | corrected member |
|---|---|---|---|---|---|---|
| logic.js:83 | the red legend label reads `(Depth < 10)`, while the ladder at logic.js:45 colours `depth <= 10` red and the orange label reads `(10 < Depth <= 25)` | depth = 10: the marker is red, but neither the red nor any other label covers 10 | red label `(Depth <= 10)` | medium, not executed | `Legend.WrittenLegendMissesTen` | `Legend.DerivedLegendAgrees` |
