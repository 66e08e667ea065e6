/**
 * The validation schemas: ranges and shapes of latitudes, longitudes, the
 * UTM band, zones, hemispheres, designators, sub-level tokens and cells.
 * A schema that accepts a value hands it back unchanged; the parse
 * functions below state that as a round trip with the raw object.
 */
module Validations {
  import opened Types

  /** The UTM latitude band, closed at both ends. */
  predicate UtmLatitudeValid(lat: real) {
    -80.0 <= lat <= 84.0
  }

  predicate LatitudeValid(lat: real) {
    -90.0 <= lat < 90.0
  }

  predicate LongitudeValid(lon: real) {
    -180.0 <= lon < 180.0
  }

  /** An integer from 1 to 60. */
  predicate ZoneValid(z: real) {
    z == z.Floor as real && 1 <= z.Floor <= 60
  }

  predicate HemisphereValid(s: string) {
    s == "N" || s == "S"
  }

  /** A designator is exactly three characters, any characters. */
  predicate DesignatorValid(s: string) {
    |s| == 3
  }

  /** A sub-level token is exactly two characters, any characters. */
  predicate SubLevelValid(s: string) {
    |s| == 2
  }

  /** The sub-levels form a tuple of exactly three tokens. */
  predicate SubLevelsValid(t: seq<string>) {
    |t| == 3 && forall i :: 0 <= i < |t| ==> SubLevelValid(t[i])
  }

  predicate IsNumber(o: RawObject, key: string) {
    key in o && o[key].JsNumber?
  }

  predicate IsString(o: RawObject, key: string) {
    key in o && o[key].JsString?
  }

  // ---------------------------------------------------------------- hemisphere, zone

  function ParseHemisphere(s: string): (r: Result<Hemisphere>)
    ensures r.Success? <==> HemisphereValid(s)
    ensures r.Success? ==> HemisphereText(r.value) == s
    ensures r.Failure? ==> r.error == InvalidHemisphere
  {
    if s == "N" then Success(N) else if s == "S" then Success(S) else Failure(InvalidHemisphere)
  }

  function ParseZone(z: real): (r: Result<int>)
    ensures r.Success? <==> ZoneValid(z)
    ensures r.Success? ==> r.value as real == z && 1 <= r.value <= 60
    ensures r.Failure? ==> r.error == InvalidZone
  {
    if ZoneValid(z) then Success(z.Floor) else Failure(InvalidZone)
  }

  // ---------------------------------------------------------------- geodetic object

  const GeodeticKeys: set<string> := {"longitude", "latitude"}

  /** A strict object: exactly `longitude` and `latitude`, both numbers in range. */
  predicate GeodeticCoordValid(o: RawObject) {
    && o.Keys == GeodeticKeys
    && IsNumber(o, "longitude") && LongitudeValid(o["longitude"].num)
    && IsNumber(o, "latitude") && LatitudeValid(o["latitude"].num)
  }

  /** The plain object a geodetic coordinate is built from. */
  function GeodeticCoordToRaw(g: GeodeticCoord): (o: RawObject)
    ensures o.Keys == GeodeticKeys
  {
    map["longitude" := JsNumber(g.longitude), "latitude" := JsNumber(g.latitude)]
  }

  /** The geodetic schema, as the `Geodetic` constructor runs it. */
  function ParseGeodeticCoord(o: RawObject): (r: Result<GeodeticCoord>)
    ensures r.Success? <==> GeodeticCoordValid(o)
    ensures r.Success? ==> GeodeticCoordToRaw(r.value) == o
    ensures r.Success? ==> LongitudeValid(r.value.longitude) && LatitudeValid(r.value.latitude)
    ensures r.Failure? ==> r.error == InvalidGeodetic
  {
    if GeodeticCoordValid(o) then
      var g := GeodeticCoord(o["longitude"].num, o["latitude"].num);
      assert GeodeticCoordToRaw(g) == o;
      Success(g)
    else
      Failure(InvalidGeodetic)
  }

  /** Every coordinate in range is accepted from its plain object, and comes back unchanged. */
  lemma GeodeticCoordRoundTrip(g: GeodeticCoord)
    requires LongitudeValid(g.longitude) && LatitudeValid(g.latitude)
    ensures ParseGeodeticCoord(GeodeticCoordToRaw(g)) == Success(g)
  {
    var o := GeodeticCoordToRaw(g);
    assert o["longitude"] == JsNumber(g.longitude) && o["latitude"] == JsNumber(g.latitude);
  }

  /**
   * The geodetic ranges are closed below and open above: -180 and -90 are
   * accepted, 180 and 90 are not, and an extra key is refused.
   */
  lemma GeodeticBounds()
    ensures ParseGeodeticCoord(GeodeticCoordToRaw(GeodeticCoord(-180.0, -90.0))).Success?
    ensures ParseGeodeticCoord(GeodeticCoordToRaw(GeodeticCoord(180.0, 0.0))) == Failure(InvalidGeodetic)
    ensures ParseGeodeticCoord(GeodeticCoordToRaw(GeodeticCoord(0.0, 90.0))) == Failure(InvalidGeodetic)
    ensures ParseGeodeticCoord(GeodeticCoordToRaw(GeodeticCoord(0.0, 0.0))["height" := JsNumber(0.0)]) ==
      Failure(InvalidGeodetic)
  {
    GeodeticCoordRoundTrip(GeodeticCoord(-180.0, -90.0));
    assert "height" !in GeodeticKeys;
  }

  // ---------------------------------------------------------------- cells

  const CellKeys: set<string> := {"left", "bottom", "right", "top", "zone", "gridCodeZone", "hemisphere"}

  /**
   * A strict cell object: four unconstrained numbers for its bounds (no
   * `left < right` check), a valid zone, designator and hemisphere.
   */
  predicate CellValid(o: RawObject) {
    && o.Keys == CellKeys
    && IsNumber(o, "left") && IsNumber(o, "bottom") && IsNumber(o, "right") && IsNumber(o, "top")
    && IsNumber(o, "zone") && ZoneValid(o["zone"].num)
    && IsString(o, "gridCodeZone") && DesignatorValid(o["gridCodeZone"].str)
    && IsString(o, "hemisphere") && HemisphereValid(o["hemisphere"].str)
  }

  /** What every accepted cell satisfies. */
  predicate WellFormedCell(c: Cell) {
    1 <= c.zone <= 60 && DesignatorValid(c.gridCodeZone)
  }

  function CellToRaw(c: Cell): (o: RawObject)
    ensures o.Keys == CellKeys
  {
    map[
      "left" := JsNumber(c.left), "bottom" := JsNumber(c.bottom),
      "right" := JsNumber(c.right), "top" := JsNumber(c.top),
      "zone" := JsNumber(c.zone as real),
      "gridCodeZone" := JsString(c.gridCodeZone),
      "hemisphere" := JsString(HemisphereText(c.hemisphere))]
  }

  function ParseCell(o: RawObject): (r: Option<Cell>)
    ensures r.Some? <==> CellValid(o)
    ensures r.Some? ==> CellToRaw(r.value) == o && WellFormedCell(r.value)
  {
    if CellValid(o) then
      var c := Cell(
        o["left"].num, o["bottom"].num, o["right"].num, o["top"].num,
        o["zone"].num.Floor, o["gridCodeZone"].str,
        if o["hemisphere"].str == "N" then N else S);
      assert CellToRaw(c) == o;
      Some(c)
    else
      None
  }

  /** Every well-formed cell is accepted from its plain object, and comes back unchanged. */
  lemma CellRoundTrip(c: Cell)
    requires WellFormedCell(c)
    ensures ParseCell(CellToRaw(c)) == Some(c)
  {
    var o := CellToRaw(c);
    assert o["zone"].num.Floor == c.zone;
    assert o["hemisphere"].str == HemisphereText(c.hemisphere);
    assert CellValid(o);
  }

  /** The cells `raw[i..]`, each validated, in order; fails at the first bad one. */
  function ParseCellsFrom(raw: seq<RawObject>, i: nat): (r: Result<seq<Cell>>)
    requires i <= |raw|
    ensures r.Success? <==> forall j :: i <= j < |raw| ==> CellValid(raw[j])
    ensures r.Success? ==> |r.value| == |raw| - i
    ensures r.Success? ==> forall j :: 0 <= j < |r.value| ==>
      CellToRaw(r.value[j]) == raw[i + j] && WellFormedCell(r.value[j])
    decreases |raw| - i
  {
    if i == |raw| then Success([])
    else match ParseCell(raw[i])
      case None => Failure(InvalidCell(i))
      case Some(c) =>
        match ParseCellsFrom(raw, i + 1)
        case Failure(e) => Failure(e)
        case Success(rest) => Success([c] + rest)
  }

  /** A failure names the first invalid cell from `i` on. */
  lemma {:induction false} ParseCellsFromFailure(raw: seq<RawObject>, i: nat)
    requires i <= |raw|
    ensures var r := ParseCellsFrom(raw, i);
      r.Failure? ==>
        && r.error.InvalidCell? && i <= r.error.index < |raw|
        && !CellValid(raw[r.error.index])
        && forall j :: i <= j < r.error.index ==> CellValid(raw[j])
    decreases |raw| - i
  {
    if i < |raw| && CellValid(raw[i]) {
      ParseCellsFromFailure(raw, i + 1);
    }
  }

  /** The cell-list schema: at least one cell, every cell valid. */
  function ParseCells(raw: seq<RawObject>): (r: Result<seq<Cell>>)
    ensures r.Success? <==> |raw| >= 1 && forall j :: 0 <= j < |raw| ==> CellValid(raw[j])
    ensures |raw| == 0 ==> r == Failure(EmptyCells)
    ensures r.Success? ==> |r.value| == |raw| && forall j :: 0 <= j < |raw| ==>
      CellToRaw(r.value[j]) == raw[j] && WellFormedCell(r.value[j])
  {
    if |raw| == 0 then Failure(EmptyCells) else ParseCellsFrom(raw, 0)
  }
}
