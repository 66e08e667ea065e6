/**
 * The geodetic side of the projection gateway: deriving the UTM zone and
 * hemisphere of a geodetic position, the longitude span of each zone, and
 * the EPSG identifier of a zone/hemisphere reference system.
 */
module Geodetic {
  import opened Types
  import opened Validations
  import opened Decimal

  const ZoneWidth: int := 6
  const LongitudeOrigin: int := -180

  /** The western edge of a zone's longitude span, `(zone-1)*6 - 180`. */
  function ZoneWest(zone: int): int {
    (zone - 1) * ZoneWidth + LongitudeOrigin
  }

  /** The eastern edge of a zone's longitude span, `zone*6 - 180` (exclusive). */
  function ZoneEast(zone: int): int {
    zone * ZoneWidth + LongitudeOrigin
  }

  predicate InZoneSpan(zone: int, lon: real) {
    ZoneWest(zone) as real <= lon < ZoneEast(zone) as real
  }

  /** The hemisphere of a latitude: north from the equator on. */
  function UtmHemisphere(lat: real): Hemisphere {
    if lat >= 0.0 then N else S
  }

  /** `Math.floor((longitude + 180) / 6) + 1`. */
  function UtmZoneOf(lon: real): (zone: int)
    ensures LongitudeValid(lon) ==> 1 <= zone <= 60
    ensures InZoneSpan(zone, lon)
  {
    ((lon + 180.0) / 6.0).Floor + 1
  }

  /** The derived zone is the only zone whose span holds the longitude. */
  lemma ZoneOfIsUnique(lon: real, zone: int)
    requires InZoneSpan(zone, lon)
    ensures zone == UtmZoneOf(lon)
  {
  }

  /** The UTM/WGS84 reference system of a zone and hemisphere: `EPSG:326zz` north, `EPSG:327zz` south. */
  function UtmCrsId(hemisphere: Hemisphere, zone: int): string {
    "EPSG:32" + (if hemisphere == N then "6" else "7") + PadStart(IntToDecimal(zone), 2, '0')
  }

  lemma FixedTwoDigits(n: nat)
    requires n < 100
    ensures FixedDigits(n, 2) == [DigitChar(n / 10), DigitChar(n % 10)]
  {
    assert FixedDigits(n / 10, 1) == FixedDigits(n / 100, 0) + [DigitChar(n / 10 % 10)];
    assert n / 10 % 10 == n / 10;
  }

  /** A valid zone renders as exactly two digits, tens then ones. */
  lemma ZoneDigits(zone: int)
    requires 1 <= zone <= 60
    ensures PadStart(IntToDecimal(zone), 2, '0') == [DigitChar(zone / 10), DigitChar(zone % 10)]
  {
    var n: nat := zone;
    assert Pow10(2) == 100;
    assert IntToDecimal(zone) == NatToDecimal(n);
    PadStartOfDecimal(n, 2);
    FixedTwoDigits(n);
  }

  /** For a valid zone the identifier is ten characters: the prefix, the hemisphere digit, two zone digits. */
  lemma UtmCrsIdShape(hemisphere: Hemisphere, zone: int)
    requires 1 <= zone <= 60
    ensures |UtmCrsId(hemisphere, zone)| == 10
    ensures UtmCrsId(hemisphere, zone)[..7] == "EPSG:32"
    ensures UtmCrsId(hemisphere, zone)[7] == if hemisphere == N then '6' else '7'
    ensures UtmCrsId(hemisphere, zone)[8] == DigitChar(zone / 10)
    ensures UtmCrsId(hemisphere, zone)[9] == DigitChar(zone % 10)
  {
    ZoneDigits(zone);
  }

  /** Distinct zone/hemisphere pairs get distinct reference systems. */
  lemma UtmCrsIdInjective(h1: Hemisphere, z1: int, h2: Hemisphere, z2: int)
    requires 1 <= z1 <= 60 && 1 <= z2 <= 60
    requires UtmCrsId(h1, z1) == UtmCrsId(h2, z2)
    ensures h1 == h2 && z1 == z2
  {
    UtmCrsIdShape(h1, z1);
    UtmCrsIdShape(h2, z2);
    assert CharValue(DigitChar(z1 / 10)) == CharValue(DigitChar(z2 / 10));
    assert CharValue(DigitChar(z1 % 10)) == CharValue(DigitChar(z2 % 10));
    assert z1 / 10 == z2 / 10 && z1 % 10 == z2 % 10;
    assert z1 == 10 * (z1 / 10) + z1 % 10 && z2 == 10 * (z2 / 10) + z2 % 10;
  }

  /** The identifier of zone 36 north, the zone of the sample cell. */
  lemma UtmCrsIdExample()
    ensures UtmCrsId(N, 36) == "EPSG:32636"
  {
    var p := PadStart(IntToDecimal(36), 2, '0');
    ZoneDigits(36);
    assert p == ['3', '6'];
    assert UtmCrsId(N, 36) == "EPSG:32" + "6" + p;
  }
}
