/**
 * The conversions between the three coordinate kinds that go through the
 * projection engine: a geodetic coordinate to UTM and on to a grid code,
 * and a grid code back to UTM and on to a geodetic coordinate.
 */
module Conversions {
  import opened Types
  import opened Validations
  import opened Registry
  import opened Geodetic
  import opened GridCode
  import opened Utm

  /** The planar point the projection engine returns for a geodetic position in its own zone. */
  function ForwardProjected(g: GeodeticCoord, proj: Projection): Point {
    proj(Wgs84, UtmCrsId(UtmHemisphere(g.latitude), UtmZoneOf(g.longitude)), Point(g.longitude, g.latitude))
  }

  /**
   * `Geodetic.toUTMCoord`: reject a latitude outside the UTM band before any
   * projection, derive the hemisphere and zone, project, and build the UTM
   * coordinate (whose constructor projects back and checks again).
   */
  function GeodeticToUtm(g: GeodeticCoord, proj: Projection): (r: Result<Utm>)
    ensures !UtmLatitudeValid(g.latitude) ==> r == Failure(LatitudeOutOfBand)
    ensures r.Success? ==>
      && UtmLatitudeValid(g.latitude)
      && r.value.zone == UtmZoneOf(g.longitude)
      && (r.value.hemisphere == N <==> g.latitude >= 0.0)
      && Point(r.value.easting, r.value.northing) == ForwardProjected(g, proj)
    ensures LongitudeValid(g.longitude) && UtmLatitudeValid(g.latitude) ==>
      var p := ForwardProjected(g, proj);
      (r.Success? <==> ProjectionAccepts(UtmZoneOf(g.longitude), UtmHemisphere(g.latitude), p.x, p.y, proj))
    ensures UtmLatitudeValid(g.latitude) ==>
      r == NewUtm(UtmZoneOf(g.longitude) as real, HemisphereText(UtmHemisphere(g.latitude)),
        ForwardProjected(g, proj).x, ForwardProjected(g, proj).y, proj)
  {
    if !UtmLatitudeValid(g.latitude) then Failure(LatitudeOutOfBand)
    else
      NewUtm(UtmZoneOf(g.longitude) as real, HemisphereText(UtmHemisphere(g.latitude)),
        ForwardProjected(g, proj).x, ForwardProjected(g, proj).y, proj)
  }

  /**
   * When the engine's inverse brings the projected point back to where it
   * started, the conversion of a valid coordinate inside the UTM band
   * succeeds: the derived zone's span always holds the input longitude.
   */
  lemma GeodeticToUtmOnExactInverse(g: GeodeticCoord, proj: Projection)
    requires LongitudeValid(g.longitude) && LatitudeValid(g.latitude) && UtmLatitudeValid(g.latitude)
    requires var p := ForwardProjected(g, proj);
      BackProjected(UtmZoneOf(g.longitude), UtmHemisphere(g.latitude), p.x, p.y, proj) == Point(g.longitude, g.latitude)
    ensures GeodeticToUtm(g, proj).Success?
    ensures var p := ForwardProjected(g, proj);
      GeodeticToUtm(g, proj).value == Utm(UtmZoneOf(g.longitude), UtmHemisphere(g.latitude), p.x, p.y)
  {
    var p := ForwardProjected(g, proj);
    assert ProjectionAccepts(UtmZoneOf(g.longitude), UtmHemisphere(g.latitude), p.x, p.y, proj);
  }

  /** `Geodetic.toGridCodeCoord`: convert to UTM, then encode; either step's failure is the result. */
  function GeodeticToGridCode(g: GeodeticCoord, grid: Grid, proj: Projection): (r: Result<GridCode>)
    ensures !UtmLatitudeValid(g.latitude) ==> r == Failure(LatitudeOutOfBand)
    ensures GeodeticToUtm(g, proj).Failure? ==> r == Failure(GeodeticToUtm(g, proj).error)
    ensures GeodeticToUtm(g, proj).Success? && ContainingCell(GeodeticToUtm(g, proj).value, grid).None? ==>
      r == Failure(CellNotFound)
    ensures r.Success? ==>
      && GeodeticToUtm(g, proj).Success?
      && ContainingCell(GeodeticToUtm(g, proj).value, grid).Some?
      && r.value.gridCodeZone == ContainingCell(GeodeticToUtm(g, proj).value, grid).value.gridCodeZone
    ensures GeodeticToUtm(g, proj).Success? ==> r == ToGridCode(GeodeticToUtm(g, proj).value, grid)
    ensures GeodeticToUtm(g, proj).Success? && WellFormedGrid(grid) ==>
      (r.Success? <==> ContainingCell(GeodeticToUtm(g, proj).value, grid).Some?)
  {
    match GeodeticToUtm(g, proj)
    case Failure(e) => Failure(e)
    case Success(u) => ToGridCode(u, grid)
  }

  /**
   * `GridCode.toUTMCoord`: fold the tokens onto the bound cell's south-west
   * corner, then build the UTM coordinate in the cell's zone and hemisphere.
   */
  function GridCodeToUtm(gc: GridCode, proj: Projection): (r: Result<Utm>)
    ensures SubLevelsValid(gc.subLevelGridCodeZones) && !DigitTokens(gc.subLevelGridCodeZones) ==>
      r == Failure(NotANumber)
    ensures r.Success? ==>
      && r.value.zone == gc.gridCodeCell.zone
      && r.value.hemisphere == gc.gridCodeCell.hemisphere
      && DecodeOffsets(gc) == Success(EastNorth(r.value.easting, r.value.northing))
    ensures WellFormedCell(gc.gridCodeCell) && DecodeOffsets(gc).Success? ==>
      var en := DecodeOffsets(gc).value;
      (r.Success? <==> ProjectionAccepts(gc.gridCodeCell.zone, gc.gridCodeCell.hemisphere, en.easting, en.northing, proj))
    ensures DecodeOffsets(gc).Success? ==>
      r == NewUtm(gc.gridCodeCell.zone as real, HemisphereText(gc.gridCodeCell.hemisphere),
        DecodeOffsets(gc).value.easting, DecodeOffsets(gc).value.northing, proj)
  {
    match DecodeOffsets(gc)
    case Failure(e) => Failure(e)
    case Success(en) =>
      assert ZoneValid(gc.gridCodeCell.zone as real) ==> ParseZone(gc.gridCodeCell.zone as real) == Success(gc.gridCodeCell.zone);
      assert ParseHemisphere(HemisphereText(gc.gridCodeCell.hemisphere)) == Success(gc.gridCodeCell.hemisphere);
      NewUtm(gc.gridCodeCell.zone as real, HemisphereText(gc.gridCodeCell.hemisphere), en.easting, en.northing, proj)
  }

  /**
   * `GridCode.toGeodeticCoord`: the geodetic position of the grid code's
   * south-west corner, through its UTM coordinate.
   */
  function GridCodeToGeodetic(gc: GridCode, proj: Projection): (r: Result<GeodeticCoord>)
    ensures r.Success? ==> GridCodeToUtm(gc, proj).Success?
    ensures r.Success? ==>
      var u := GridCodeToUtm(gc, proj).value;
      && r.value == GeodeticCoord(BackProjected(u.zone, u.hemisphere, u.easting, u.northing, proj).x,
                                  BackProjected(u.zone, u.hemisphere, u.easting, u.northing, proj).y)
      && UtmLatitudeValid(r.value.latitude) && InZoneSpan(u.zone, r.value.longitude)
    ensures GridCodeToUtm(gc, proj).Failure? ==> r == Failure(GridCodeToUtm(gc, proj).error)
    ensures GridCodeToUtm(gc, proj).Success? ==> r.Success?
  {
    match GridCodeToUtm(gc, proj)
    case Failure(e) => Failure(e)
    case Success(u) => ToGeodeticCoord(u.zone, u.hemisphere, u.easting, u.northing, proj)
  }
}
