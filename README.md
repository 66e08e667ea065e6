# code-grid in Dafny

This is a model of the MapColonies code-grid library. The library converts between three coordinate kinds:

- a **geodetic** position (WGS84 longitude and latitude);
- a **UTM** coordinate (zone, hemisphere, easting, northing);
- a **grid code**: a three-character designator naming a registered rectangular cell, plus three two-character tokens.

Easting and northing digits are interleaved in the tokens. Together they locate a 10-meter square inside the cell.

The model covers the whole codec:

- the cell registry, with its two first-match lookups (by containment of a UTM point, and by designator);
- the validation schemas;
- the UTM and grid-code constructors;
- the encoder `toGridCode` with its decimal rendering, padding and slicing;
- the decoder fold `toUTMCoord`, and `toString`;
- derivation of the zone, hemisphere and EPSG identifier from a geodetic position;
- the compositions that pass through the projection engine.

The projection engine (proj4) is a parameter of type `Projection = (string, string, Point) -> Point`. Nothing is assumed about it. The constructor checks are stated as facts about what it returns.

Modules, in dependency order:

- `Types`: errors, `Result`, raw JavaScript objects (`map<string, JsValue>`), cells and points.
- `Decimal`: `Math.trunc`, integer `toString`, `padStart`, `slice(0, k)` and single-character `parseInt`, on exact integers.
- `Validations`: the zod schemas of src/validations.ts, and the `Geodetic` constructor.
- `Registry`: the ordered list of cells, the two first-match searches, and the `GridCells` class whose `Load` replaces the list.
- `Geodetic`: zone and hemisphere of a position, zone longitude spans, EPSG identifiers.
- `GridCode`: the grid-code constructor, `toString`, and the decode fold.
- `Utm`: the UTM constructor, `localCoordinate` and the encoder.
- `Conversions`: `Geodetic.toUTMCoord` and `toGridCodeCoord`, plus `GridCode.toUTMCoord` and `toGeodeticCoord`.
- `RoundTrip`: encode-then-decode (lossy, within 10 m) and decode-then-encode (exact).
- `SampleCell`: worked values on the cell `ABC` of the example at src/grid-cells.ts:14-21.

Every value type of the source (`Geodetic`, `UTM`, `GridCode`, cells) is fixed once its constructor returns. So each one is a datatype, built by a function that returns `Result`. A thrown exception becomes `Failure(kind)`. The getters are the datatype's fields: the constructors' contracts state that the stored values are the validated inputs, unchanged. Only the registry is updated in place, so it is a class.

Two behaviours of the code are worth stating outright:

- The fold at src/grid-code.ts:49-58 adds 4·1000 + 5·100 + 6·10 to the cell's left edge for `ABC 415963`, so that code decodes to easting 774560 (`SampleCell.DecodeSample`).
- For offsets of 10000 meters or more, `localCoordinate` at src/utm.ts:124 keeps the leading three digits of the truncated offset, not the offset modulo 1000 (`Utm.LocalCoordinateOverflow`).

## Model

| member | source | states |
|---|---|---|
| Decimal.ParseDigit | src/grid-code.ts:52-53 | `Number.parseInt` of one character is a number exactly when the character is a digit, and then it is that digit's value |
| Decimal.NatToDecimal | src/utm.ts:124 | the numeral of a non-negative integer is non-empty, made of digits, and starts with '0' only for zero |
| Decimal.DecimalValueOfNatToDecimal | src/utm.ts:124 | reading the numeral back gives the number, so distinct numbers render differently |
| Decimal.IntToDecimal | src/utm.ts:124 | a minus sign appears exactly for negative integers; a non-negative integer renders as its shortest numeral |
| Decimal.Trunc | src/utm.ts:124 | `Math.trunc` rounds toward zero: on a non-negative number the result is at most the number and within 1 below it, on a negative one at least the number and within 1 above it |
| Decimal.PadStart | src/utm.ts:124 | the result is at least the requested width, ends with the input, and every character added in front is the fill |
| Decimal.Prefix | src/utm.ts:124 | the result is the first k characters, or the whole string when it is shorter |
| Decimal.PadStartOfDecimal | src/utm.ts:124 | zero-padding the numeral of a number with at most w digits to width w gives its w place-value digits |
| Decimal.LeadingDigitsOfDecimal | src/utm.ts:124 | the first three characters of the numeral of a number of three or more digits are its leading three digits |
| Decimal.DecimalValueOfThree | src/grid-code.ts:50-53 | a three-digit numeral is worth 100, 10 and 1 times its digits, the reduce's magnitudes divided by ten |
| Decimal.ThreeDigitsValue | src/grid-code.ts:49-58 | the three place-value digits of a number below 1000 read back as that number |
| Decimal.ThreeDigitsOfValue | src/grid-code.ts:49-58 | every three-digit string is below 1000 in value and is the place-value rendering of that value |
| Validations.ParseHemisphere | src/validations.ts:17 | accepts exactly "N" and "S" and returns the same hemisphere; anything else fails as an invalid hemisphere |
| Validations.ParseZone | src/validations.ts:19 | accepts exactly the integers 1..60 and returns the same number; anything else fails as an invalid zone |
| Validations.ParseGeodeticCoord | src/validations.ts:6-11 | succeeds iff the object has exactly the keys longitude and latitude, both numbers, with longitude in [-180, 180) and latitude in [-90, 90); the accepted value is the input object unchanged |
| Validations.GeodeticCoordRoundTrip | src/geodetic.ts:16-18 | every coordinate in range is accepted by the `Geodetic` constructor, and its getters return it unchanged |
| Validations.GeodeticBounds | src/validations.ts:6-7 | -180 and -90 are accepted; longitude 180, latitude 90 and an extra key are each rejected |
| Validations.ParseCell | src/validations.ts:21-29 | succeeds iff the object has exactly the seven cell keys: four numbers with no ordering check, a valid zone, a three-character designator and a valid hemisphere; the accepted cell is the input object |
| Validations.CellRoundTrip | src/validations.ts:21-29 | every cell with a valid zone and designator is accepted from its plain object and comes back unchanged |
| Validations.ParseCellsFrom | src/validations.ts:30 | the list from index i on succeeds iff every cell from i on is valid; the result has one cell per input, each the input object at the same position |
| Validations.ParseCellsFromFailure | src/validations.ts:30 | a failing list reports the index of its first invalid cell: that cell is invalid and every cell before it is valid |
| Validations.ParseCells | src/validations.ts:30 | the list schema: an empty list fails; otherwise it succeeds iff every cell is valid, and the result is the input list cell for cell, in order |
| Registry.FindIndex | src/utm.ts:69 | `Array.prototype.find` by position: the lowest index satisfying the predicate, or none iff no element does |
| Registry.FirstContaining | src/utm.ts:69-74 | the cell at the lowest index that matches hemisphere and zone and contains the point on half-open intervals; none iff the registry is unset or no cell contains the point |
| Registry.FirstWithDesignator | src/grid-code.ts:24-25 | the cell at the lowest index carrying the designator; none iff the registry is unset or no cell carries it |
| Registry.DesignatorFindsItsCell | src/grid-cells.ts:25 | when designators are unique (the registry does not enforce this), the designator lookup finds every registered cell itself |
| Registry.GridCells.constructor | src/grid-cells.ts:8 | before any list is loaded the registry is unset |
| Registry.GridCells.Load | src/grid-cells.ts:24-27 | the result is the list schema's verdict; on success the registry becomes exactly the parsed list, in order; on failure it keeps its previous contents |
| Geodetic.UtmZoneOf | src/geodetic.ts:38 | `floor((lon+180)/6)+1` is in 1..60 for every valid longitude, and its span `[(zone-1)*6-180, zone*6-180)` holds the longitude |
| Geodetic.ZoneOfIsUnique | src/utm.ts:32-35 | the derived zone is the only zone whose span check the longitude passes |
| Geodetic.UtmCrsIdShape | src/geodetic.ts:39 | for zones 1..60 the identifier is "EPSG:32", then 6 (north) or 7 (south), then the zone's two digits |
| Geodetic.UtmCrsIdInjective | src/geodetic.ts:39 | distinct zone and hemisphere pairs in 1..60 × {N, S} give distinct identifiers |
| Geodetic.UtmCrsIdExample | src/utm.ts:51 | zone 36 north is "EPSG:32636"; the same identifier function serves both projection directions |
| GridCode.NewGridCode | src/grid-code.ts:20-27 | fails on a designator whose length is not 3, then on sub-levels that are not three two-character strings, then with designator-not-found; otherwise it binds the first cell carrying the designator and keeps the inputs |
| GridCode.UnsetRegistryFindsNothing | src/grid-code.ts:24-25 | with the registry unset, every well-shaped grid code fails with designator-not-found |
| GridCode.ToString | src/grid-code.ts:68-70 | for a well-shaped code the string is ten characters: the designator, a space, and the three tokens in order |
| GridCode.ToStringInjective | src/grid-code.ts:68-70 | two well-shaped codes with the same string have the same designator and tokens |
| GridCode.DecodeOffsets | src/grid-code.ts:49-58 | on three two-character tokens the fold succeeds iff every character is a digit; otherwise it is NaN (`NotANumber`); on success each axis is the cell corner plus 10 times the three-digit number read down that axis's column (weights 1000, 100, 10) |
| GridCode.Magnitudes | src/grid-code.ts:50 | `1000 / 10 ** index` is 1000, 100 and 10 for the three tokens |
| GridCode.StepOnDigits | src/grid-code.ts:49-54 | on a two-digit token one reduce step moves the accumulator east by the first digit and north by the second, each times the token's magnitude |
| GridCode.DecodeThree | src/grid-code.ts:49-58 | the same fold, unrolled over the three tokens from the cell's south-west corner |
| GridCode.DecodeFailsAt | src/grid-code.ts:52-53 | a non-digit character in any token makes the fold NaN, whatever was accumulated before it |
| GridCode.DecodedOffsetsInRange | src/grid-code.ts:49-58 | with digit tokens the decoded offsets from the corner lie in [0, 9990] and are multiples of 10 |
| Utm.ToGeodeticCoord | src/utm.ts:45-55 | succeeds iff the back-projected point is a valid geodetic position, and returns that point |
| Utm.NewUtm | src/utm.ts:24-38 | fails on the hemisphere first, then on the zone; it succeeds iff the back-projected point is a valid position inside the UTM band [-80, 84] and the zone's longitude span; the error names the failing check (invalid geodetic position, latitude out of band, longitude out of zone with the span bounds); on success it stores the inputs unchanged (the getters) |
| Utm.Zone36Span | src/utm.ts:32-37 | in zone 36 north, a point projecting back outside longitudes [30, 36) fails with those bounds |
| Utm.LocalCoordinate | src/utm.ts:123-125 | the rendering always has three characters |
| Utm.LocalCoordinateInRange | src/utm.ts:123-125 | for an offset in [0, 10000), truncating, padding to four and keeping three gives the three digits of trunc(d)/10, so the ones digit is dropped |
| Utm.LocalCoordinateOverflow | src/utm.ts:123-125 | for an offset of 10000 or more, nothing is padded and the result is the leading three digits of trunc(d) |
| Utm.LocalCoordinateOverflowExample | src/utm.ts:124 | 12345 renders as "123", not the "234" that dropping the ones digit modulo 1000 would give |
| Utm.Interleave | src/utm.ts:79-83 | token i is the i-th easting character followed by the i-th northing character; there are three tokens of length 2 |
| Utm.InterleaveDigits | src/utm.ts:79-83 | interleaving two digit strings gives tokens made only of digits |
| Utm.OffsetTokens | src/utm.ts:77-83 | the tokens of any pair of offsets pass the sub-level schema |
| Utm.EncodeTokens | src/utm.ts:77-83 | the tokens of a point in a cell pass the sub-level schema |
| Utm.OffsetTokensDigits | src/utm.ts:77-83 | for offsets in [0, 10000) every token is two digits, namely the interleaved three-digit renderings of the offsets in tens of meters |
| Utm.ToGridCode | src/utm.ts:68-85 | fails with cell-not-found iff no cell contains the point (for a registry of accepted cells); otherwise the designator is the first containing cell's, the three tokens encode the offsets from its corner, and the bound cell is the first cell carrying that designator |
| Utm.UnsetRegistryContainsNothing | src/utm.ts:69-75 | with the registry unset, encoding always fails with cell-not-found |
| Conversions.GeodeticToUtm | src/geodetic.ts:35-43 | a latitude outside [-80, 84] fails before any projection; on success the zone is the derived zone, the hemisphere is N iff latitude ≥ 0, and the point is the forward projection; for a valid longitude in the band it succeeds iff the constructor's checks accept the projected point; inside the band the result is the UTM constructor's own, so its failures (invalid position, latitude out of band, longitude out of zone) reach the caller unchanged |
| Conversions.GeodeticToUtmOnExactInverse | src/geodetic.ts:37-42 | when the inverse projection returns the original position, the conversion succeeds: the input longitude always passes its own zone's span check |
| Conversions.GeodeticToGridCode | src/geodetic.ts:25-28 | `toUTMCoord` then `toGridCode`: it inherits every failure of the first step; once that succeeds the result is exactly the encoder's on the UTM point, so (for a registry of accepted cells) it succeeds iff some cell contains the point, with that first containing cell's designator |
| Conversions.GridCodeToUtm | src/grid-code.ts:48-61 | NaN tokens fail; on success the point has the bound cell's zone and hemisphere and the decoded easting and northing; for an accepted cell it succeeds iff the UTM constructor's checks hold; once decoding succeeds the result is the UTM constructor's own, so its failures reach the caller unchanged |
| Conversions.GridCodeToGeodetic | src/grid-code.ts:34-41 | it succeeds exactly when the UTM step succeeds, and the result is the back-projection of the decoded south-west corner, which lies inside the UTM band and the zone's span; failures of the decoding are passed through |
| RoundTrip.DecodeOfOffsetTokens | src/grid-code.ts:49-58 | decoding the tokens of offsets in [0, 10000) adds to the corner those offsets with the ones digit dropped |
| RoundTrip.ColumnsOfInterleave | src/utm.ts:79-83 | reading down the two columns of the interleaved tokens gives back the easting and northing numerals |
| RoundTrip.InterleaveOfColumns | src/utm.ts:79-83 | interleaving the two columns of three two-character tokens rebuilds the tokens |
| RoundTrip.OffsetColumns | src/utm.ts:77-83 | for offsets in [0, 10000) the token columns are the three-digit renderings of the offsets in whole tens of meters |
| RoundTrip.OffsetColumnValues | src/grid-code.ts:49-58 | read back as numbers, those columns are the offsets in whole tens of meters |
| RoundTrip.OffsetTokensOfDecode | src/utm.ts:77-83 | for digit tokens, encoding offsets of ten times the numbers read down the two token columns gives back the tokens |
| RoundTrip.Quantization | src/utm.ts:124 | dropping the ones digit of a non-negative offset lowers it by less than 10 and never raises it |
| RoundTrip.EncodedInCell | src/utm.ts:68-85 | inside its first containing cell, when that cell owns its designator, the encoder binds that cell and gives its tokens |
| RoundTrip.EncodeDecode | src/utm.ts:77-84 | encode then decode (offsets under 10000, cell found by its designator): same designator and cell; the decoded point lies in the cell, less than 10 m west and south of the original and never past it |
| RoundTrip.EncodeDecodeUtm | src/grid-code.ts:48-61 | the same through the UTM constructor: same zone and hemisphere, within 10 m on each axis |
| RoundTrip.DecodeEncode | src/grid-code.ts:49-60 | decode then encode is exact when the decoded point's first containing cell is the bound cell |
| RoundTrip.DecodedOffsets | src/grid-code.ts:49-58 | for digit tokens the fold succeeds and each decoded offset from the bound cell's corner is ten times the number read down that axis's column |
| RoundTrip.DecodedTokens | src/utm.ts:77-83 | encoding the decoded south-west corner against the bound cell gives back the grid code's own tokens |
| RoundTrip.DecodeEncodeUtm | src/grid-code.ts:48-61 | the same through the UTM constructor |
| SampleCell.SampleCellAccepted | src/grid-cells.ts:14-21 | the example cell ABC is accepted as a one-cell registry |
| SampleCell.EncodedInSample | src/utm.ts:68-84 | every point inside ABC is encoded against ABC, with the tokens of its offsets from ABC's corner |
| SampleCell.CentreTokens | src/utm.ts:77-83 | offsets of 5000 m on both axes give the tokens 55, 00, 00 |
| SampleCell.EncodeCentre | tests/unit/utm.spec.ts:96-107 | (775000, 3525000) in zone 36 north encodes to ABC with tokens 55, 00, 00 |
| SampleCell.SamplePointTokens | src/utm.ts:77-83 | offsets of 4565.936 m east and 1931.04 m north give the tokens 41, 59, 63 |
| SampleCell.EncodeSamplePoint | tests/unit/geodetic.spec.ts:81-91 | (774565.936, 3521931.04) encodes to ABC with tokens 41, 59, 63 |
| SampleCell.ConstructSample | src/grid-code.ts:18-27 | `ABC` with 41, 59, 63 is accepted and prints as "ABC 415963" |
| SampleCell.DecodeSample | src/grid-code.ts:49-58 | ABC 415963 decodes to (774560, 3521930) |
| SampleCell.DecodeCentre | src/grid-code.ts:49-58 | ABC 550000 decodes to the cell's centre (775000, 3525000) |
| SampleCell.RepeatedGridLookups | src/grid-cells.ts:25 | with two cells sharing a designator, the containment lookup finds the second and the designator lookup the first |
| SampleCell.RepeatedDesignatorRebinds | src/utm.ts:84 | a point in the second of two cells sharing a designator encodes to a grid code bound to the first, which decodes 10 km away |

## Left out

- The projection engine (proj4, transverse Mercator) is an uninterpreted parameter. No geodetic↔UTM round trip is claimed. Neither is the forward projection's result in any particular range.
- src/projections.ts only registers reference systems with proj4 in a loop, a side effect in a foreign library. The identifiers it registers (src/projections.ts:16, 27) have the form of `Geodetic.UtmCrsId`.
- src/index.ts is wiring. It sets up the projections, reloads the registry and re-exports the classes. The reload is `Registry.GridCells.Load`.
- The process-wide static `GridCells.grid` is an explicit `Grid` value, passed to each operation. Sharing it between callers and concurrent access are not modelled.
- Error messages (zod's wording, thrown `Error` text) are not modelled; only the kind of failure is.
- Floating point is not modelled. Coordinates are exact reals, with no NaN, Infinity, rounding, or exponent notation from `toString`.
- `Utm.LocalCoordinate` on a negative offset renders with a minus sign, as JavaScript does. This case cannot arise, because the containing cell guarantees non-negative offsets.
- `GridCode.DecodeOffsets`: a non-digit token character makes `parseInt` return NaN. The model stops there with `NotANumber`. The source carries NaN on and fails later, inside the UTM constructor (src/grid-code.ts:60); what the projection engine does with NaN is outside the source.
- String lengths are counted in Dafny characters. JavaScript counts UTF-16 code units; the two agree on designators inside the Basic Multilingual Plane, which includes the Hebrew designators of the tests.
- Test machinery (faker, the test fixture tests/unit/helpers/gridCodeCells.json) is not modelled. The worked values use only the example cell of src/grid-cells.ts:14-21, plus an invented neighbour that shares its designator.
