/**
 * Shared value types of the code-grid library: the failure kinds, the
 * loosely typed JavaScript values the validation schemas inspect, and the
 * validated records (geodetic coordinate, grid-code cell).
 */
module Types {

  datatype Option<+T> = None | Some(value: T)

  /** The kinds of failure the constructors and conversions raise. */
  datatype Error =
    | InvalidGeodetic        // geodetic object failed its schema (keys, types, ranges)
    | InvalidHemisphere      // hemisphere other than "N" / "S"
    | InvalidZone            // zone not an integer in 1..60
    | InvalidDesignator      // grid-code zone designator not of length 3
    | InvalidSubLevels       // sub-levels not a tuple of three strings of length 2
    | InvalidCell(index: nat)   // the cell at this position failed its schema
    | EmptyCells             // the cell list has no element
    | LatitudeOutOfBand      // latitude outside the UTM band [-80, 84]
    | LongitudeOutOfZone(min: int, max: int)  // longitude outside [min, max) of the zone
    | CellNotFound           // no registered cell contains the UTM point
    | DesignatorNotFound(designator: string)  // no registered cell carries this designator
    | NotANumber             // a sub-level character that parses to NaN

  datatype Result<+T> = Success(value: T) | Failure(error: Error) {
    predicate IsFailure() { Failure? }
    function PropagateFailure<U>(): Result<U> requires Failure? { Failure(error) }
    function Extract(): T requires Success? { value }
  }

  /** A JavaScript value as a schema sees it: a number, a string, or anything else. */
  datatype JsValue = JsNumber(num: real) | JsString(str: string) | JsOther

  /** A plain JavaScript object: its own keys and their values. */
  type RawObject = map<string, JsValue>

  datatype Hemisphere = N | S

  /** The hemisphere as the source spells it. */
  function HemisphereText(h: Hemisphere): (s: string)
    ensures s == "N" || s == "S"
    ensures s == "N" <==> h == N
  {
    match h
    case N => "N"
    case S => "S"
  }

  /** A validated geodetic coordinate, in degrees. */
  datatype GeodeticCoord = GeodeticCoord(longitude: real, latitude: real)

  /**
   * A validated grid-code cell: a rectangle in UTM meters within one zone and
   * hemisphere, tagged by its three-character designator `gridCodeZone`.
   */
  datatype Cell = Cell(
    left: real, bottom: real, right: real, top: real,
    zone: int, gridCodeZone: string, hemisphere: Hemisphere)

  /** A planar or angular point handed to and returned by the projection engine. */
  datatype Point = Point(x: real, y: real)

  /**
   * The projection engine (proj4): from source reference system, to target
   * reference system, point in, point out. Left uninterpreted.
   */
  type Projection = (string, string, Point) -> Point

  /** The geodetic reference system identifier the library projects from and to. */
  const Wgs84: string := "EPSG:4326"
}
