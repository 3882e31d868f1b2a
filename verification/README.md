# crime-vis: loader, flower glyph scaling and day/night views

This project models the logic of `script.js`, the page script that draws crime
clusters as "flower" glyphs on two synchronised Leaflet maps, one for day and
one for night. The model covers three pieces, and Dafny proves properties of
each:

- **Loader** (module `Records`, helpers in `Text`). The fetched CSV text is
  split on `"\n"` and the header line is dropped. Each remaining line is split
  on `","` and destructured into a fixed 15-column record: `cluster`,
  `centroid_lat`, `centroid_lon`, `DN`, `all`, then the ten category counts.
  `DN` keeps the raw string. A missing cell is JavaScript `undefined`, which
  converts to NaN. `parseInt` and `parseFloat` are passed in as a `Converters`
  value of two total functions.
- **Flower glyph** (module `Flower`). The ten category values of one record are
  taken in the fixed petal order drug, financial, low_level_property,
  low_level_violent, non_criminal, public_order, severe_property,
  severe_violent, sexual_offenses, weapon. Petal k sits at angle k·2π/10. The
  local range is the minimum and maximum of these ten values. Each value is
  mapped linearly onto a length in [10, 20] and a stroke width in [1, 5].
  Numbers are `Finite(real) | NaN`, and NaN spreads as it does in JavaScript.
  A NaN value makes `Math.min` and `Math.max` NaN, so every petal is NaN. If
  all ten values are equal, every petal computes 0/0, which is also NaN.
- **Views** (module `Views`). `addFlowersToMap` keeps the records whose `DN` is
  exactly `"D"` (day map) or exactly `"N"` (night map), in input order. It
  draws one marker per kept record at the record's centroid. Leaflet's marker
  constructor throws when a coordinate is NaN. That ends the `forEach` loop,
  and it ends the whole `then` callback too. So a "D" record with a
  non-numeric centroid cuts the day map short at that record, and the night
  map is never drawn.

When all ten category values of a glyph are equal, the code divides 0 by 0 and
every petal length and width is NaN. The model keeps that result:
`Flower.FlowerUndefined` proves that a petal is NaN exactly in this case or when
some value is NaN.

## Model

| member | source | states |
|---|---|---|
| Text.Split | script.js:25 | `split` on one character gives count(sep) + 1 parts; no part contains the separator; joining the parts gives back the input |
| Text.SplitJoin | script.js:7-25 | Round trip: splitting a join of separator-free parts gives back exactly those parts |
| Text.SplitTrailingSeparator | script.js:7 | A trailing newline adds exactly one empty last line |
| Records.ParseData | script.js:7-8 | The number of records equals the number of newlines in the text: the first line is the header and every later line gives one record |
| Records.ParseRow | script.js:8-43 | Cell i of the comma-split line goes to column i. Cluster, all and the ten categories go through `parseInt`, the coordinates through `parseFloat`, and DN keeps the raw string. A missing cell gives NaN, or no DN |
| Records.ParseFile | script.js:7-44 | A header line followed by newline-free rows gives one record per row, in row order, whatever the header says |
| Records.ParseFormattedRow | script.js:9-43 | Fifteen comma-free cells joined with commas parse back cell by cell, and DN is the raw fourth cell |
| Records.ExtraCellsIgnored | script.js:9-25 | Cells after the fifteenth do not change the record |
| Records.TrailingNewline | script.js:7-44 | A newline at the end of the file adds one record, parsed from an empty line, and that record has no DN |
| Flower.Petals | script.js:106-155 | A glyph always has exactly ten petals; petal k has category k of the fixed order and angle index k |
| Flower.FlowerOf | script.js:78-189 | The glyph of a record has ten petals in petal order. Its lengths and widths are finite exactly when the ten category values are finite and not all equal, and then lie in [10, 20] and [1, 5] |
| Flower.PetalColumns | script.js:78-90 | Petal k of a parsed row is the `parseInt` of cell 5 + k, so the petal order is the column order of the last ten columns |
| Flower.FlowerOnlyReadsCategories | script.js:78-90 | Two records with the same ten category values have the same glyph, whatever their cluster, coordinates, DN and all |
| Flower.Min | script.js:151 | The minimum is at most every value and equals one of them |
| Flower.Max | script.js:152 | The maximum is at least every value and equals one of them |
| Flower.LocalRange | script.js:150-152 | A range exists exactly when no value is NaN; then min ≤ max, every value lies between them, and both are attained |
| Flower.RangeProper | script.js:150-152 | With finite values, min < max exactly when the ten values are not all equal |
| Flower.Rescale | script.js:162-165 | The affine map is NaN exactly when the range is a single point (0/0) |
| Flower.PetalLength | script.js:158-165 | Over a proper range the length is finite and in [10, 20]. It is 10 exactly at the minimum and 20 exactly at the maximum. Over a single-point range it is NaN |
| Flower.StrokeWidth | script.js:178-185 | Over a proper range the width is finite and in [1, 5]. It is 1 exactly at the minimum and 5 exactly at the maximum. Over a single-point range it is NaN |
| Flower.RescaleBounds | script.js:158-165 | Over a proper range, each image lies in [outLo, outHi]; the image is outLo exactly at the minimum and outHi exactly at the maximum |
| Flower.RescaleMonotone | script.js:162-165 | Over a proper range the map preserves order, both non-strict and strict, in both directions |
| Flower.RescaleInverse | script.js:162-165 | The inverse affine map recovers the value from its image |
| Flower.FlowerBounds | script.js:158-185 | When the values are finite and not all equal, every length is in [10, 20] and every width in [1, 5]; length 10 and width 1 occur exactly at the minimum; length 20 and width 5 occur exactly at the maximum |
| Flower.FlowerEndpointsAttained | script.js:150-185 | When the values are scalable, some petal has length 10 and width 1, and some petal has length 20 and width 5 |
| Flower.FlowerMonotone | script.js:162-185 | A larger value never gives a shorter or thinner petal; a strictly larger value gives a strictly longer and thicker one, and the converse also holds |
| Flower.FlowerUndefined | script.js:150-185 | A petal's length or width is NaN exactly when some value is NaN or all ten values are equal (0/0) |
| Flower.FlowerInverse | script.js:162-165 | Each petal value is recovered from its length and the local range |
| Views.Filter | script.js:196 | `filter` returns no more elements than its input, and every element it returns passes the predicate |
| Views.FilterIsSubsequence | script.js:196 | `filter` keeps input order: its result is a subsequence of the input |
| Views.FilterCounts | script.js:196 | `filter` keeps every copy of an element that passes and drops every copy of one that fails |
| Views.FilterAppend | script.js:196 | Filtering a concatenation is the concatenation of the filtered parts |
| Views.FilterMembers | script.js:196 | A record is kept exactly when it occurs in the input and passes the predicate |
| Views.IsDay | script.js:214 | Only a present DN cell can make a record a day record, and a record whose DN is "N" never is one |
| Views.IsNight | script.js:215 | Only a present DN cell can make a record a night record, and a record whose DN is "D" never is one |
| Views.DayNightPartition | script.js:214-215 | The day view holds exactly the "D" records and the night view exactly the "N" records, each in input order with its multiplicity; no record is in both; a record with any other DN is in neither |
| Views.MarkerOf | script.js:197-204 | A marker sits at its record's numeric centroid and shows ten petals in petal order |
| Views.DrawAllPrefix | script.js:196-205 | The `forEach` loop adds markers in order and stops at the first record whose centroid is not numeric. The result is the markers of the longest placeable prefix, and the loop completes exactly when every record is placeable |
| Views.DrawnFromData | script.js:196-205 | Every marker drawn from a filtered list is the marker of a placeable input record that passes the filter |
| Views.DrawMaps | script.js:213-216 | Every day marker belongs to a "D" record and every night marker to an "N" record. The night map has markers only if the day loop completed |
| Views.Render | script.js:7-216 | The two maps together never show more markers than the file has data lines |
| Views.DrawMapsComplete | script.js:195-216 | If every "D" and "N" record has a numeric centroid, every "D" record's marker is on the day map and every "N" record's on the night map. There is one marker per record, in input order |
| Views.DrawMapsNightAbort | script.js:195-216 | If every "D" centroid is numeric but an "N" record's is not, the day map holds every "D" marker in order. The night map then shows only the markers of the "N" records before the first one without a numeric centroid |
| Views.DrawMapsAbort | script.js:195-216 | A "D" record with a non-numeric centroid leaves the night map empty. The day map then shows only the markers of the "D" records before the first such record |
| Views.ViewsCoverDayAndNight | script.js:214-215 | No record is in both partitions, so the "D" records and the "N" records together are exactly as many as the records whose DN is "D" or "N" |
| Views.TrailingNewlineDrawsNothing | script.js:7-216 | A trailing newline in the file changes neither map |

## Left out

- Fetching (`fetch`, `response.text()`) and the async `then` chain are left out because they are I/O. The model starts from the fetched text.
- `parseInt` and `parseFloat` are abstract parameters, because their exact behaviour belongs to the JavaScript runtime. The one exception is a missing cell, which converts to NaN.
- IEEE-754 rounding and Infinity are not modelled: numbers are exact reals or NaN. A value that overflows to Infinity is therefore not represented.
- Flower.Rescale: it requires the value to lie inside the range. `createFlowerSVG` only ever calls the map with one of the ten values the range was computed from, so this always holds there. The x/0 = ±Infinity case for values outside the range never arises.
- `Math.cos`/`Math.sin` endpoint coordinates and SVG construction are left out because they are floating-point trigonometry and DOM work. The petal's angle is kept as its index k, for angle k·2π/10.
- The Leaflet maps, tile layers, `L.divIcon` and the `syncMaps` move-event wiring are left out because they are library UI calls. A marker is modelled as (lat, lon, petals). The one piece of Leaflet behaviour kept is that `L.marker` throws on a NaN coordinate (`Views.Placeable`). Any other validation Leaflet does is not modelled.
- clusters.js is left out because it only loads a CSV through d3 and draws dashed hull polygons.
