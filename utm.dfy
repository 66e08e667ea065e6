/**
 * A UTM coordinate: its constructor, which checks the back-projected
 * position against the UTM band and the zone's longitude span, and the
 * encoder that turns the coordinate into a grid code.
 */
module Utm {
  import opened Types
  import opened Decimal
  import opened Validations
  import opened Registry
  import opened Geodetic
  import opened GridCode

  datatype Utm = Utm(zone: int, hemisphere: Hemisphere, easting: real, northing: real)

  /** The geodetic point the projection engine returns for a UTM position. */
  function BackProjected(zone: int, hemisphere: Hemisphere, easting: real, northing: real, proj: Projection): Point {
    proj(UtmCrsId(hemisphere, zone), Wgs84, Point(easting, northing))
  }

  /** `toGeodeticCoord`: project back to WGS84, then build a `Geodetic` from the result. */
  function ToGeodeticCoord(zone: int, hemisphere: Hemisphere, easting: real, northing: real, proj: Projection): (r: Result<GeodeticCoord>)
    ensures var p := BackProjected(zone, hemisphere, easting, northing, proj);
      && (r.Success? <==> LongitudeValid(p.x) && LatitudeValid(p.y))
      && (r.Success? ==> r.value == GeodeticCoord(p.x, p.y))
      && (r.Failure? ==> r.error == InvalidGeodetic)
  {
    var p := BackProjected(zone, hemisphere, easting, northing, proj);
    var r := ParseGeodeticCoord(map["longitude" := JsNumber(p.x), "latitude" := JsNumber(p.y)]);
    assert r.Success? ==> GeodeticCoordToRaw(r.value) == GeodeticCoordToRaw(GeodeticCoord(p.x, p.y));
    r
  }

  /** What the constructor demands of the back-projected position of a coordinate. */
  predicate ProjectionAccepts(zone: int, hemisphere: Hemisphere, easting: real, northing: real, proj: Projection) {
    var p := BackProjected(zone, hemisphere, easting, northing, proj);
    && LongitudeValid(p.x) && LatitudeValid(p.y)
    && UtmLatitudeValid(p.y)
    && InZoneSpan(zone, p.x)
  }

  /**
   * `new UTM(zone, hemisphere, easting, northing)`: validate the hemisphere,
   * then the zone, then project back and require the UTM latitude band and
   * the zone's longitude span `[(zone-1)*6-180, zone*6-180)`.
   */
  function NewUtm(zone: real, hemisphere: string, easting: real, northing: real, proj: Projection): (r: Result<Utm>)
    ensures !HemisphereValid(hemisphere) ==> r == Failure(InvalidHemisphere)
    ensures HemisphereValid(hemisphere) && !ZoneValid(zone) ==> r == Failure(InvalidZone)
    ensures r.Success? <==>
      && HemisphereValid(hemisphere) && ZoneValid(zone)
      && ProjectionAccepts(zone.Floor, if hemisphere == "N" then N else S, easting, northing, proj)
    ensures r.Success? ==>
      && r.value.zone as real == zone
      && HemisphereText(r.value.hemisphere) == hemisphere
      && r.value.easting == easting && r.value.northing == northing
    ensures HemisphereValid(hemisphere) && ZoneValid(zone) ==>
      var p := BackProjected(zone.Floor, if hemisphere == "N" then N else S, easting, northing, proj);
      && (!(LongitudeValid(p.x) && LatitudeValid(p.y)) ==> r == Failure(InvalidGeodetic))
      && (LongitudeValid(p.x) && LatitudeValid(p.y) && !UtmLatitudeValid(p.y) ==> r == Failure(LatitudeOutOfBand))
      && (LongitudeValid(p.x) && LatitudeValid(p.y) && UtmLatitudeValid(p.y) && !InZoneSpan(zone.Floor, p.x) ==>
            r == Failure(LongitudeOutOfZone(ZoneWest(zone.Floor), ZoneEast(zone.Floor))))
  {
    var h :- ParseHemisphere(hemisphere);
    var z :- ParseZone(zone);
    var g :- ToGeodeticCoord(z, h, easting, northing, proj);
    if !UtmLatitudeValid(g.latitude) then
      Failure(LatitudeOutOfBand)
    else
      var minLongitude, maxLongitude := ZoneWest(z), ZoneEast(z);
      if g.longitude < minLongitude as real || g.longitude >= maxLongitude as real then
        Failure(LongitudeOutOfZone(minLongitude, maxLongitude))
      else
        Success(Utm(z, h, easting, northing))
  }

  /**
   * Zone 36 north spans longitudes `[30, 36)`: a position that projects back
   * inside the UTM band but outside that span is refused with those bounds.
   */
  lemma Zone36Span(easting: real, northing: real, proj: Projection)
    requires var p := BackProjected(36, N, easting, northing, proj);
      LongitudeValid(p.x) && LatitudeValid(p.y) && UtmLatitudeValid(p.y) && !(30.0 <= p.x < 36.0)
    ensures NewUtm(36.0, "N", easting, northing, proj) == Failure(LongitudeOutOfZone(30, 36))
  {
    assert ZoneWest(36) == 30 && ZoneEast(36) == 36;
  }

  // ---------------------------------------------------------------- encoding

  const NumberOfSubLevels: nat := 3

  /**
   * `localCoordinate`: truncate, render in decimal, pad to four characters
   * with '0', keep the first three.
   */
  function LocalCoordinate(coordinate: real): (s: string)
    ensures |s| == NumberOfSubLevels
  {
    Prefix(PadStart(IntToDecimal(Trunc(coordinate)), 4, '0'), NumberOfSubLevels)
  }

  /**
   * On an offset in `[0, 10000)` the string manipulation is the arithmetic
   * rendering: the three place-value digits of the truncated offset divided
   * by ten, so the ones-meter digit is dropped.
   */
  lemma LocalCoordinateInRange(d: real)
    requires 0.0 <= d < 10000.0
    ensures Trunc(d) / 10 < 1000
    ensures LocalCoordinate(d) == ThreeDigits(Trunc(d) / 10)
    ensures AllDigits(LocalCoordinate(d))
  {
    var n: nat := Trunc(d);
    assert Pow10(4) == 10000;
    PadStartOfDecimal(n, 4);
    assert FixedDigits(n, 4) == FixedDigits(n / 10, 3) + [DigitChar(n % 10)];
    assert FixedDigits(n, 4)[..3] == FixedDigits(n / 10, 3);
    ThreeDigitsIsFixed(n / 10);
  }

  /**
   * On an offset of 10000 or more nothing is padded, and the three
   * characters are the leading digits of the truncated offset (not its
   * value modulo 1000).
   */
  lemma LocalCoordinateOverflow(d: real)
    requires d >= 10000.0
    ensures Trunc(d) >= 10000 && |NatToDecimal(Trunc(d))| > 4
    ensures LocalCoordinate(d) == NatToDecimal(Trunc(d))[..3]
    ensures LocalCoordinate(d) == ThreeDigits(LeadingThree(Trunc(d)))
  {
    var n: nat := Trunc(d);
    assert Pow10(4) == 10000;
    DecimalLengthAbove(n, 4);
    LeadingDigitsOfDecimal(n);
  }

  /** 12345 meters renders as "123", its leading digits, where dropping the ones digit would give "234". */
  lemma LocalCoordinateOverflowExample()
    ensures LocalCoordinate(12345.0) == "123"
    ensures ThreeDigits(12345 / 10 % 1000) == "234"
  {
    var d := 12345.0;
    assert Trunc(d) == 12345;
    LocalCoordinateOverflow(d);
    assert LeadingThree(12345) == 123;
    assert ThreeDigits(123) == "123" by {
      assert 123 / 100 % 10 == 1 && 123 / 10 % 10 == 2 && 123 % 10 == 3;
      assert DigitChar(1) == '1' && DigitChar(2) == '2' && DigitChar(3) == '3';
    }
    assert 234 / 100 % 10 == 2 && 234 / 10 % 10 == 3 && 234 % 10 == 4;
    assert DigitChar(2) == '2' && DigitChar(3) == '3' && DigitChar(4) == '4';
  }

  /** Token `i` is the `i`-th easting digit followed by the `i`-th northing digit. */
  function Interleave(east: string, north: string): (tokens: seq<string>)
    requires |east| == 3 && |north| == 3
    ensures SubLevelsValid(tokens)
    ensures forall i :: 0 <= i < 3 ==> tokens[i] == [east[i], north[i]]
  {
    [[east[0], north[0]], [east[1], north[1]], [east[2], north[2]]]
  }

  /** Interleaving two three-digit numerals gives three two-digit tokens. */
  lemma InterleaveDigits(east: string, north: string)
    requires |east| == 3 && |north| == 3 && AllDigits(east) && AllDigits(north)
    ensures DigitTokens(Interleave(east, north))
  {
    var t := Interleave(east, north);
    forall i | 0 <= i < 3
      ensures AllDigits(t[i])
    {
      assert t[i] == [east[i], north[i]];
    }
  }

  /** The cell `toGridCode` encodes against: the first registered cell containing the coordinate. */
  function ContainingCell(u: Utm, grid: Grid): Option<Cell> {
    FirstContaining(grid, u.zone, u.hemisphere, u.easting, u.northing)
  }

  /** The three tokens of a point whose offsets from the cell's south-west corner are `de`, `dn`. */
  function OffsetTokens(de: real, dn: real): (tokens: seq<string>)
    ensures SubLevelsValid(tokens)
  {
    Interleave(LocalCoordinate(de), LocalCoordinate(dn))
  }

  /** How far a coordinate lies past a cell edge. */
  function Offset(coordinate: real, edge: real): real {
    coordinate - edge
  }

  /** The three tokens of a coordinate inside cell `c`. */
  function EncodeTokens(u: Utm, c: Cell): (tokens: seq<string>)
    ensures SubLevelsValid(tokens)
  {
    OffsetTokens(Offset(u.easting, c.left), Offset(u.northing, c.bottom))
  }

  /**
   * `toGridCode`: find the first containing cell, encode the offsets from
   * its south-west corner, and build the grid code from its designator
   * (which binds the first cell carrying that designator).
   */
  function ToGridCode(u: Utm, grid: Grid): (r: Result<GridCode>)
    ensures ContainingCell(u, grid).None? ==> r == Failure(CellNotFound)
    ensures WellFormedGrid(grid) ==> (r.Success? <==> ContainingCell(u, grid).Some?)
    ensures r.Success? ==> ContainingCell(u, grid).Some?
    ensures r.Success? ==>
      var c := ContainingCell(u, grid).value;
      && r.value.gridCodeZone == c.gridCodeZone
      && |r.value.subLevelGridCodeZones| == 3
      && r.value.subLevelGridCodeZones == EncodeTokens(u, c)
      && Some(r.value.gridCodeCell) == FirstWithDesignator(grid, c.gridCodeZone)
  {
    if ContainingCell(u, grid).None? then Failure(CellNotFound)
    else
      var c := ContainingCell(u, grid).value;
      NewGridCode(c.gridCodeZone, EncodeTokens(u, c), grid)
  }

  /**
   * With offsets in `[0, 10000)` on both axes every token is two decimal
   * digits: token `i` is the `i`-th easting digit then the `i`-th northing
   * digit of the offsets in tens of meters.
   */
  lemma OffsetTokensDigits(de: real, dn: real)
    requires 0.0 <= de < 10000.0 && 0.0 <= dn < 10000.0
    ensures DigitTokens(OffsetTokens(de, dn))
    ensures OffsetTokens(de, dn) == Interleave(ThreeDigits(Trunc(de) / 10), ThreeDigits(Trunc(dn) / 10))
  {
    LocalCoordinateInRange(de);
    LocalCoordinateInRange(dn);
    InterleaveDigits(LocalCoordinate(de), LocalCoordinate(dn));
  }

  /** Before any cell list is loaded the encoder reports that no cell contains the point. */
  lemma UnsetRegistryContainsNothing(u: Utm)
    ensures ToGridCode(u, None) == Failure(CellNotFound)
  {
  }
}
