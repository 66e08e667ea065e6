/**
 * Worked values on the sample cell `ABC` of zone 36 north, spanning
 * eastings [770000, 780000) and northings [3520000, 3530000).
 */
module SampleCell {
  import opened Types
  import opened Decimal
  import opened Validations
  import opened Registry
  import opened GridCode
  import opened Utm
  import opened RoundTrip

  const Abc: Cell := Cell(770000.0, 3520000.0, 780000.0, 3530000.0, 36, "ABC", N)

  const SampleGrid: Grid := Some([Abc])

  /** The sample cell is accepted from its plain object, and the registry holding it is well formed. */
  lemma SampleCellAccepted()
    ensures ParseCells([CellToRaw(Abc)]) == Success([Abc])
    ensures WellFormedGrid(SampleGrid) && UniqueDesignators(SampleGrid)
  {
    var raw := [CellToRaw(Abc)];
    CellRoundTrip(Abc);
    assert ParseCell(raw[0]) == Some(Abc);
    assert ParseCellsFrom(raw, 1) == Success([]);
    assert ParseCellsFrom(raw, 0) == Success([Abc] + []);
    assert [Abc] + [] == [Abc];
    assert ParseCells(raw) == ParseCellsFrom(raw, 0);
  }

  /** A point of the sample cell is encoded against it. */
  lemma EncodedInSample(u: Utm)
    requires ContainsPoint(Abc, u.zone, u.hemisphere, u.easting, u.northing)
    ensures ToGridCode(u, SampleGrid) == Success(GridCode("ABC", EncodeTokens(u, Abc), Abc))
  {
    assert ContainingCell(u, SampleGrid) == Some(Abc);
    EncodedInCell(u, SampleGrid, Abc);
  }

  /** Offsets of 5000 meters on both axes give the tokens `55`, `00`, `00`. */
  lemma CentreTokens()
    ensures OffsetTokens(5000.0, 5000.0) == ["55", "00", "00"]
  {
    OffsetTokensDigits(5000.0, 5000.0);
    assert Trunc(5000.0) == 5000 && Trunc(5000.0) / 10 == 500;
    assert 500 / 100 % 10 == 5 && 500 / 10 % 10 == 0 && 500 % 10 == 0;
    assert DigitChar(5) == '5' && DigitChar(0) == '0';
    assert ThreeDigits(500) == ['5', '0', '0'];
  }

  /** The centre of the cell, 5000 meters in on both axes, is `ABC 550000`. */
  lemma EncodeCentre()
    ensures ToGridCode(Utm(36, N, 775000.0, 3525000.0), SampleGrid) ==
      Success(GridCode("ABC", ["55", "00", "00"], Abc))
  {
    var u := Utm(36, N, 775000.0, 3525000.0);
    EncodedInSample(u);
    assert EncodeTokens(u, Abc) == OffsetTokens(5000.0, 5000.0);
    CentreTokens();
  }

  /** Offsets of 4565.936 and 1931.04 meters give the tokens `41`, `59`, `63`. */
  lemma SamplePointTokens()
    ensures OffsetTokens(4565.936, 1931.04) == ["41", "59", "63"]
  {
    OffsetTokensDigits(4565.936, 1931.04);
    SampleTruncations();
    SampleDigits();
    assert Interleave("456", "193") == ["41", "59", "63"];
  }

  /** The sample offsets in whole tens of meters: 456 and 193. */
  lemma SampleTruncations()
    ensures Trunc(4565.936) / 10 == 456 && Trunc(1931.04) / 10 == 193
  {
    assert Trunc(4565.936) == 4565;
    assert Trunc(1931.04) == 1931;
  }

  /** The place-value renderings of 456 and 193. */
  lemma SampleDigits()
    ensures ThreeDigits(456) == "456" && ThreeDigits(193) == "193"
  {
    assert 456 / 100 % 10 == 4 && 456 / 10 % 10 == 5 && 456 % 10 == 6;
    assert 193 / 100 % 10 == 1 && 193 / 10 % 10 == 9 && 193 % 10 == 3;
    assert DigitChar(4) == '4' && DigitChar(5) == '5' && DigitChar(6) == '6';
    assert DigitChar(1) == '1' && DigitChar(9) == '9' && DigitChar(3) == '3';
  }

  /** A point 4565.936 meters east and 1931.04 meters north of the corner is `ABC 415963`. */
  lemma EncodeSamplePoint()
    ensures ToGridCode(Utm(36, N, 774565.936, 3521931.04), SampleGrid) ==
      Success(GridCode("ABC", ["41", "59", "63"], Abc))
  {
    var u := Utm(36, N, 774565.936, 3521931.04);
    EncodedInSample(u);
    assert EncodeTokens(u, Abc) == OffsetTokens(4565.936, 1931.04);
    SamplePointTokens();
  }

  /** `ABC 415963` is accepted against the sample registry and prints as such. */
  lemma ConstructSample()
    ensures NewGridCode("ABC", ["41", "59", "63"], SampleGrid) == Success(GridCode("ABC", ["41", "59", "63"], Abc))
    ensures ToString(GridCode("ABC", ["41", "59", "63"], Abc)) == "ABC 415963"
  {
    var gc := GridCode("ABC", ["41", "59", "63"], Abc);
    var s := ToString(gc);
    assert s[..3] == "ABC" && s[3] == ' ' && s[4..6] == "41" && s[6..8] == "59" && s[8..] == "63";
    assert s == s[..3] + [s[3]] + s[4..6] + s[6..8] + s[8..];
  }

  /** `ABC 415963` decodes to (774560, 3521930): 4*1000 + 5*100 + 6*10 east, 1*1000 + 9*100 + 3*10 north. */
  lemma DecodeSample()
    ensures DecodeOffsets(GridCode("ABC", ["41", "59", "63"], Abc)) == Success(EastNorth(774560.0, 3521930.0))
  {
    var t: seq<string> := ["41", "59", "63"];
    assert Column(t, 0) == "456" && Column(t, 1) == "193";
    DecimalValueOfThree("456");
    DecimalValueOfThree("193");
  }

  /** The eastern neighbour of `ABC`, registered under the same designator (nothing forbids it). */
  const AbcEast: Cell := Cell(780000.0, 3520000.0, 790000.0, 3530000.0, 36, "ABC", N)

  const RepeatedGrid: Grid := Some([Abc, AbcEast])

  /** The point 5000 meters into the eastern neighbour is contained first by that neighbour. */
  lemma RepeatedGridLookups()
    ensures ContainingCell(Utm(36, N, 785000.0, 3525000.0), RepeatedGrid) == Some(AbcEast)
    ensures FirstWithDesignator(RepeatedGrid, "ABC") == Some(Abc)
  {
    var u := Utm(36, N, 785000.0, 3525000.0);
    var cells := RepeatedGrid.value;
    assert cells[0] == Abc && cells[1] == AbcEast;
    assert !ContainsPoint(Abc, u.zone, u.hemisphere, u.easting, u.northing);
    assert ContainsPoint(AbcEast, u.zone, u.hemisphere, u.easting, u.northing);
    var found := ContainingCell(u, RepeatedGrid);
    assert found.Some?;
    var k :| 0 <= k < 2 && cells[k] == found.value &&
      forall j :: 0 <= j < k ==> !ContainsPoint(cells[j], u.zone, u.hemisphere, u.easting, u.northing);
    assert k == 1;
  }

  /** `ABC 550000` decodes to the centre of `ABC`. */
  lemma DecodeCentre()
    ensures DecodeOffsets(GridCode("ABC", ["55", "00", "00"], Abc)) == Success(EastNorth(775000.0, 3525000.0))
  {
    var t: seq<string> := ["55", "00", "00"];
    assert Column(t, 0) == "500" && Column(t, 1) == "500";
    DecimalValueOfThree("500");
  }

  /**
   * With a repeated designator the encoder finds the containing cell (the
   * second one) but the grid code it builds binds the first cell carrying
   * the designator, so the code decodes 10 kilometers west of the point
   * (see `DecodeCentre`).
   */
  lemma RepeatedDesignatorRebinds()
    ensures ToGridCode(Utm(36, N, 785000.0, 3525000.0), RepeatedGrid) == Success(GridCode("ABC", ["55", "00", "00"], Abc))
  {
    var u := Utm(36, N, 785000.0, 3525000.0);
    RepeatedGridLookups();
    assert EncodeTokens(u, AbcEast) == OffsetTokens(5000.0, 5000.0);
    CentreTokens();
  }
}
