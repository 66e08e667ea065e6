/**
 * How the encoder (`UTM.toGridCode`) and the decoder (`GridCode.toUTMCoord`)
 * undo each other: encoding then decoding lands on the south-west corner of
 * the 10-meter sub-cell holding the point (lossy), and decoding then
 * encoding gives back the very grid code (exact) as long as the decoded
 * point falls in the bound cell and no earlier cell claims it.
 */
module RoundTrip {
  import opened Types
  import opened Decimal
  import opened Validations
  import opened Registry
  import opened GridCode
  import opened Utm
  import opened Conversions

  /** Reading the two columns of interleaved tokens gives back the two numerals. */
  lemma ColumnsOfInterleave(east: string, north: string)
    requires |east| == 3 && |north| == 3
    ensures Column(Interleave(east, north), 0) == east
    ensures Column(Interleave(east, north), 1) == north
  {
  }

  /** Interleaving the two columns of well-shaped tokens gives back the tokens. */
  lemma InterleaveOfColumns(t: seq<string>)
    requires SubLevelsValid(t)
    ensures Interleave(Column(t, 0), Column(t, 1)) == t
  {
    var r := Interleave(Column(t, 0), Column(t, 1));
    forall i | 0 <= i < 3
      ensures r[i] == t[i]
    {
      assert r[i] == [t[i][0], t[i][1]];
    }
  }

  /** Dropping the ones digit of a non-negative offset moves it down by less than ten meters. */
  lemma Quantization(d: real)
    requires 0.0 <= d
    ensures 0 <= 10 * (Trunc(d) / 10)
    ensures d - 10.0 < (10 * (Trunc(d) / 10)) as real <= d
  {
    var n := Trunc(d);
    assert n - 9 <= 10 * (n / 10) <= n;
  }

  /** A whole number of tens of meters truncates to itself. */
  lemma TruncOfTens(d: real, q: nat)
    requires d == (10 * q) as real
    ensures Trunc(d) == 10 * q && Trunc(d) / 10 == q
  {
  }

  /**
   * Decoding the tokens of offsets `de`, `dn` in `[0, 10000)` from any cell
   * adds to its corner the offsets with their ones digit dropped.
   */
  lemma DecodeOfOffsetTokens(designator: string, de: real, dn: real, cell: Cell)
    requires 0.0 <= de < 10000.0 && 0.0 <= dn < 10000.0
    ensures DigitTokens(OffsetTokens(de, dn))
    ensures DecodeOffsets(GridCode(designator, OffsetTokens(de, dn), cell)) ==
      Success(EastNorth(cell.left + (10 * (Trunc(de) / 10)) as real, cell.bottom + (10 * (Trunc(dn) / 10)) as real))
  {
    OffsetColumnValues(de, dn);
  }

  /** The columns of the tokens of offsets in `[0, 10000)` are the offsets' renderings in tens of meters. */
  lemma OffsetColumns(de: real, dn: real)
    requires 0.0 <= de < 10000.0 && 0.0 <= dn < 10000.0
    ensures DigitTokens(OffsetTokens(de, dn))
    ensures Column(OffsetTokens(de, dn), 0) == ThreeDigits(Trunc(de) / 10)
    ensures Column(OffsetTokens(de, dn), 1) == ThreeDigits(Trunc(dn) / 10)
  {
    OffsetTokensDigits(de, dn);
    ColumnsOfInterleave(ThreeDigits(Trunc(de) / 10), ThreeDigits(Trunc(dn) / 10));
  }

  /** Read back, those columns give the offsets in tens of meters. */
  lemma OffsetColumnValues(de: real, dn: real)
    requires 0.0 <= de < 10000.0 && 0.0 <= dn < 10000.0
    ensures DigitTokens(OffsetTokens(de, dn))
    ensures AllDigits(Column(OffsetTokens(de, dn), 0)) && AllDigits(Column(OffsetTokens(de, dn), 1))
    ensures DecimalValue(Column(OffsetTokens(de, dn), 0)) == Trunc(de) / 10
    ensures DecimalValue(Column(OffsetTokens(de, dn), 1)) == Trunc(dn) / 10
  {
    OffsetColumns(de, dn);
    LocalCoordinateInRange(de);
    LocalCoordinateInRange(dn);
    ThreeDigitsValue(Trunc(de) / 10);
    ThreeDigitsValue(Trunc(dn) / 10);
  }

  /**
   * Encoding the offsets that digit tokens decode to (ten times the numbers
   * read down the token columns) gives back the tokens.
   */
  lemma OffsetTokensOfDecode(t: seq<string>, de: real, dn: real)
    requires SubLevelsValid(t) && DigitTokens(t)
    requires AllDigits(Column(t, 0)) && AllDigits(Column(t, 1))
    requires de == (10 * DecimalValue(Column(t, 0))) as real && dn == (10 * DecimalValue(Column(t, 1))) as real
    ensures OffsetTokens(de, dn) == t
  {
    var e, n := Column(t, 0), Column(t, 1);
    ThreeDigitsOfValue(e);
    ThreeDigitsOfValue(n);
    var qe, qn := DecimalValue(e), DecimalValue(n);
    assert Trunc(de) / 10 == qe && Trunc(dn) / 10 == qn by {
      TruncOfTens(de, qe);
      TruncOfTens(dn, qn);
    }
    OffsetTokensDigits(de, dn);
    InterleaveOfColumns(t);
  }

  /**
   * Encode then decode. Inside its first containing cell, with offsets under
   * 10000 meters and that cell the one its designator resolves to (as with
   * unique designators), the grid code names the cell and decodes to a
   * point of the same cell at most 10 meters south-west of the original on
   * each axis, never past it.
   */
  lemma EncodeDecode(u: Utm, grid: Grid, c: Cell)
    requires WellFormedGrid(grid) && ContainingCell(u, grid) == Some(c)
    requires FirstWithDesignator(grid, c.gridCodeZone) == Some(c)
    requires u.easting - c.left < 10000.0 && u.northing - c.bottom < 10000.0
    ensures ToGridCode(u, grid).Success?
    ensures ToGridCode(u, grid).value.gridCodeZone == c.gridCodeZone
    ensures ToGridCode(u, grid).value.gridCodeCell == c
    ensures DecodeOffsets(ToGridCode(u, grid).value).Success?
    ensures var en := DecodeOffsets(ToGridCode(u, grid).value).value;
      && u.easting - 10.0 < en.easting <= u.easting
      && u.northing - 10.0 < en.northing <= u.northing
      && c.left <= en.easting < c.right
      && c.bottom <= en.northing < c.top
  {
    var de, dn := Offset(u.easting, c.left), Offset(u.northing, c.bottom);
    var gc := GridCode(c.gridCodeZone, EncodeTokens(u, c), c);
    assert EncodeTokens(u, c) == OffsetTokens(de, dn);
    assert ToGridCode(u, grid) == Success(gc) by {
      EncodedInCell(u, grid, c);
    }
    assert 0.0 <= de && 0.0 <= dn by {
      assert ContainsPoint(c, u.zone, u.hemisphere, u.easting, u.northing);
    }
    var en := EastNorth(c.left + (10 * (Trunc(de) / 10)) as real, c.bottom + (10 * (Trunc(dn) / 10)) as real);
    assert DecodeOffsets(gc) == Success(en) by {
      DecodeOfOffsetTokens(c.gridCodeZone, de, dn, c);
    }
    Quantization(de);
    Quantization(dn);
  }

  /** The grid code the encoder builds inside the first containing cell, when that cell owns its designator. */
  lemma EncodedInCell(u: Utm, grid: Grid, c: Cell)
    requires WellFormedGrid(grid) && ContainingCell(u, grid) == Some(c)
    requires FirstWithDesignator(grid, c.gridCodeZone) == Some(c)
    ensures ToGridCode(u, grid) == Success(GridCode(c.gridCodeZone, EncodeTokens(u, c), c))
  {
  }

  /**
   * Encode then decode through the UTM constructor: when the decoded point
   * is accepted, it has the zone and hemisphere of the original and lies
   * less than 10 meters south-west of it on each axis.
   */
  lemma EncodeDecodeUtm(u: Utm, grid: Grid, c: Cell, proj: Projection)
    requires WellFormedGrid(grid) && ContainingCell(u, grid) == Some(c)
    requires FirstWithDesignator(grid, c.gridCodeZone) == Some(c)
    requires u.easting - c.left < 10000.0 && u.northing - c.bottom < 10000.0
    ensures ToGridCode(u, grid).Success?
    ensures GridCodeToUtm(ToGridCode(u, grid).value, proj).Success? ==>
      var v := GridCodeToUtm(ToGridCode(u, grid).value, proj).value;
      && v.zone == u.zone && v.hemisphere == u.hemisphere
      && u.easting - 10.0 < v.easting <= u.easting
      && u.northing - 10.0 < v.northing <= u.northing
  {
    EncodeDecode(u, grid, c);
  }

  /**
   * Decode then encode. For a grid code the constructor accepted, with digit
   * tokens, whose decoded point has the bound cell as its first containing
   * cell, encoding the decoded point reproduces the grid code exactly.
   */
  lemma DecodeEncode(gc: GridCode, grid: Grid)
    requires NewGridCode(gc.gridCodeZone, gc.subLevelGridCodeZones, grid) == Success(gc)
    requires DigitTokens(gc.subLevelGridCodeZones) && WellFormedGrid(grid)
    requires DecodeOffsets(gc).Success?
    requires var en := DecodeOffsets(gc).value;
      ContainingCell(Utm(gc.gridCodeCell.zone, gc.gridCodeCell.hemisphere, en.easting, en.northing), grid) == Some(gc.gridCodeCell)
    ensures var en := DecodeOffsets(gc).value;
      ToGridCode(Utm(gc.gridCodeCell.zone, gc.gridCodeCell.hemisphere, en.easting, en.northing), grid) == Success(gc)
  {
    var c := gc.gridCodeCell;
    var en := DecodeOffsets(gc).value;
    var u := Utm(c.zone, c.hemisphere, en.easting, en.northing);
    assert EastNorth(u.easting, u.northing) == en;
    DecodedTokens(gc, u);
    assert ToGridCode(u, grid) == NewGridCode(c.gridCodeZone, EncodeTokens(u, c), grid);
  }

  /** A UTM point at the decoded south-west corner has, in the bound cell, the grid code's own tokens. */
  lemma DecodedTokens(gc: GridCode, u: Utm)
    requires SubLevelsValid(gc.subLevelGridCodeZones) && DigitTokens(gc.subLevelGridCodeZones)
    requires DecodeOffsets(gc) == Success(EastNorth(u.easting, u.northing))
    ensures EncodeTokens(u, gc.gridCodeCell) == gc.subLevelGridCodeZones
  {
    var c, t := gc.gridCodeCell, gc.subLevelGridCodeZones;
    var de, dn := Offset(u.easting, c.left), Offset(u.northing, c.bottom);
    assert OffsetTokens(de, dn) == t by {
      DecodedOffsets(gc);
      OffsetTokensOfDecode(t, de, dn);
    }
  }

  /** The decoded offsets from the bound cell's corner, in meters. */
  lemma DecodedOffsets(gc: GridCode)
    requires SubLevelsValid(gc.subLevelGridCodeZones) && DigitTokens(gc.subLevelGridCodeZones)
    ensures DecodeOffsets(gc).Success?
    ensures AllDigits(Column(gc.subLevelGridCodeZones, 0)) && AllDigits(Column(gc.subLevelGridCodeZones, 1))
    ensures DecodeOffsets(gc).value.easting - gc.gridCodeCell.left ==
      (10 * DecimalValue(Column(gc.subLevelGridCodeZones, 0))) as real
    ensures DecodeOffsets(gc).value.northing - gc.gridCodeCell.bottom ==
      (10 * DecimalValue(Column(gc.subLevelGridCodeZones, 1))) as real
  {
  }

  /**
   * Decode then encode through the UTM constructor: whenever the decoded UTM
   * coordinate is accepted and the bound cell is its first containing cell,
   * encoding it gives back the grid code.
   */
  lemma DecodeEncodeUtm(gc: GridCode, grid: Grid, proj: Projection)
    requires NewGridCode(gc.gridCodeZone, gc.subLevelGridCodeZones, grid) == Success(gc)
    requires WellFormedGrid(grid)
    requires GridCodeToUtm(gc, proj).Success?
    requires ContainingCell(GridCodeToUtm(gc, proj).value, grid) == Some(gc.gridCodeCell)
    ensures ToGridCode(GridCodeToUtm(gc, proj).value, grid) == Success(gc)
  {
    assert SubLevelsValid(gc.subLevelGridCodeZones);
    assert DigitTokens(gc.subLevelGridCodeZones);
    DecodeEncode(gc, grid);
  }
}
