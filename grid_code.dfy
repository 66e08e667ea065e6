/**
 * A grid code: a three-character designator, three two-character
 * sub-level tokens, and the registered cell the designator resolves to.
 * This module holds its constructor, its string form, and the
 * positional fold that turns its tokens into a UTM offset.
 */
module GridCode {
  import opened Types
  import opened Decimal
  import opened Validations
  import opened Registry

  datatype GridCode = GridCode(gridCodeZone: string, subLevelGridCodeZones: seq<string>, gridCodeCell: Cell)

  /**
   * `new GridCode(designator, subLevels)`: validate the designator, then the
   * sub-levels, then bind the first registered cell with that designator.
   */
  function NewGridCode(gridCodeZone: string, subLevels: seq<string>, grid: Grid): (r: Result<GridCode>)
    ensures !DesignatorValid(gridCodeZone) ==> r == Failure(InvalidDesignator)
    ensures DesignatorValid(gridCodeZone) && !SubLevelsValid(subLevels) ==> r == Failure(InvalidSubLevels)
    ensures DesignatorValid(gridCodeZone) && SubLevelsValid(subLevels) ==>
      match FirstWithDesignator(grid, gridCodeZone)
      case None => r == Failure(DesignatorNotFound(gridCodeZone))
      case Some(c) => r == Success(GridCode(gridCodeZone, subLevels, c))
    ensures r.Success? ==> r.value.gridCodeZone == gridCodeZone && r.value.subLevelGridCodeZones == subLevels
    ensures r.Success? ==> r.value.gridCodeCell.gridCodeZone == gridCodeZone
  {
    if !DesignatorValid(gridCodeZone) then Failure(InvalidDesignator)
    else if !SubLevelsValid(subLevels) then Failure(InvalidSubLevels)
    else match FirstWithDesignator(grid, gridCodeZone)
      case None => Failure(DesignatorNotFound(gridCodeZone))
      case Some(c) => Success(GridCode(gridCodeZone, subLevels, c))
  }

  /** Before any cell list is loaded, every well-shaped grid code is reported as not found. */
  lemma UnsetRegistryFindsNothing(gridCodeZone: string, subLevels: seq<string>)
    requires DesignatorValid(gridCodeZone) && SubLevelsValid(subLevels)
    ensures NewGridCode(gridCodeZone, subLevels, None) == Failure(DesignatorNotFound(gridCodeZone))
  {
  }

  function Concat(parts: seq<string>): (s: string)
    ensures |parts| == 0 ==> s == []
  {
    if parts == [] then [] else parts[0] + Concat(parts[1..])
  }

  /** `toString`: the designator, a space, and the three tokens joined without separator. */
  function ToString(gc: GridCode): (s: string)
    ensures DesignatorValid(gc.gridCodeZone) && SubLevelsValid(gc.subLevelGridCodeZones) ==>
      |s| == 10 && s[..3] == gc.gridCodeZone && s[3] == ' ' &&
      s[4..6] == gc.subLevelGridCodeZones[0] &&
      s[6..8] == gc.subLevelGridCodeZones[1] &&
      s[8..] == gc.subLevelGridCodeZones[2]
  {
    ConcatThree(gc.subLevelGridCodeZones);
    gc.gridCodeZone + " " + Concat(gc.subLevelGridCodeZones)
  }

  /** Joining three parts is writing them one after the other. */
  lemma ConcatThree(parts: seq<string>)
    ensures |parts| == 3 ==> Concat(parts) == parts[0] + parts[1] + parts[2]
  {
    if |parts| == 3 {
      assert Concat(parts[1..]) == parts[1] + Concat(parts[2..]);
      assert Concat(parts[2..]) == parts[2] + Concat(parts[3..]);
    }
  }

  /** Well-shaped grid codes with the same string form have the same designator and tokens. */
  lemma ToStringInjective(a: GridCode, b: GridCode)
    requires DesignatorValid(a.gridCodeZone) && SubLevelsValid(a.subLevelGridCodeZones)
    requires DesignatorValid(b.gridCodeZone) && SubLevelsValid(b.subLevelGridCodeZones)
    requires ToString(a) == ToString(b)
    ensures a.gridCodeZone == b.gridCodeZone
    ensures a.subLevelGridCodeZones == b.subLevelGridCodeZones
  {
    var s := ToString(a);
    var ta, tb := a.subLevelGridCodeZones, b.subLevelGridCodeZones;
    assert ta[0] == s[4..6] == tb[0];
    assert ta[1] == s[6..8] == tb[1];
    assert ta[2] == s[8..] == tb[2];
  }

  // ---------------------------------------------------------------- decoding

  /** The accumulator of the decode fold. */
  datatype EastNorth = EastNorth(easting: real, northing: real)

  /** The place value of sub-level `index`: `1000 / 10^index` meters. */
  function Magnitude(index: nat): real {
    1000.0 / (Pow10(index) as real)
  }

  /** `Number.parseInt(s.charAt(k))`: NaN (None) past the end or on a non-digit. */
  function ParseCharAt(s: string, k: nat): Option<nat> {
    if k < |s| then ParseDigit(s[k]) else None
  }

  /** One step of the `reduce`: add this token's easting and northing digits at their place value. */
  function DecodeStep(acc: EastNorth, token: string, index: nat): Result<EastNorth> {
    var e, n := ParseCharAt(token, 0), ParseCharAt(token, 1);
    if e.Some? && n.Some? then Success(Shift(acc, e.value, n.value, Magnitude(index)))
    else Failure(NotANumber)
  }

  /** Move the accumulator by digit `e` east and digit `n` north at place value `place`. */
  function Shift(acc: EastNorth, e: nat, n: nat, place: real): EastNorth {
    EastNorth(acc.easting + e as real * place, acc.northing + n as real * place)
  }

  /** The place values of the three sub-levels: 1000, 100 and 10 meters. */
  lemma Magnitudes()
    ensures Magnitude(0) == 1000.0 && Magnitude(1) == 100.0 && Magnitude(2) == 10.0
  {
    assert Pow10(0) == 1 && Pow10(1) == 10 && Pow10(2) == 100;
  }

  /** The `reduce` over the tokens from `index` on. */
  function DecodeFrom(tokens: seq<string>, index: nat, acc: EastNorth): Result<EastNorth>
    decreases |tokens| - index
  {
    if index >= |tokens| then Success(acc)
    else match DecodeStep(acc, tokens[index], index)
      case Failure(e) => Failure(e)
      case Success(next) => DecodeFrom(tokens, index + 1, next)
  }

  /** Every token character is a decimal digit. */
  predicate DigitTokens(tokens: seq<string>) {
    forall i :: 0 <= i < |tokens| ==> AllDigits(tokens[i])
  }

  /** The three digits of one axis, read down the tokens: column 0 easting, column 1 northing. */
  function Column(tokens: seq<string>, k: nat): (s: string)
    requires SubLevelsValid(tokens) && k < 2
    ensures |s| == 3 && forall i :: 0 <= i < 3 ==> s[i] == tokens[i][k]
  {
    [tokens[0][k], tokens[1][k], tokens[2][k]]
  }

  /**
   * `toUTMCoord`'s fold, from `(left, bottom)` of the bound cell. On digit
   * tokens each axis moves by ten times the three-digit number read down
   * its column; any other character makes the fold NaN.
   */
  function DecodeOffsets(gc: GridCode): (r: Result<EastNorth>)
    ensures SubLevelsValid(gc.subLevelGridCodeZones) ==>
      (r.Success? <==> DigitTokens(gc.subLevelGridCodeZones))
    ensures SubLevelsValid(gc.subLevelGridCodeZones) && !DigitTokens(gc.subLevelGridCodeZones) ==>
      r == Failure(NotANumber)
    ensures SubLevelsValid(gc.subLevelGridCodeZones) && r.Success? ==>
      var t := gc.subLevelGridCodeZones;
      AllDigits(Column(t, 0)) && AllDigits(Column(t, 1)) &&
      r.value == EastNorth(
        gc.gridCodeCell.left + 10.0 * DecimalValue(Column(t, 0)) as real,
        gc.gridCodeCell.bottom + 10.0 * DecimalValue(Column(t, 1)) as real)
  {
    var cell := gc.gridCodeCell;
    var t := gc.subLevelGridCodeZones;
    DecodeThree(t, cell);
    DecodeFrom(t, 0, EastNorth(cell.left, cell.bottom))
  }

  lemma DecodeThree(t: seq<string>, cell: Cell)
    ensures SubLevelsValid(t) ==>
      var r := DecodeFrom(t, 0, EastNorth(cell.left, cell.bottom));
      && (r.Success? <==> DigitTokens(t))
      && (!DigitTokens(t) ==> r == Failure(NotANumber))
      && (r.Success? ==>
        AllDigits(Column(t, 0)) && AllDigits(Column(t, 1)) &&
        r.value == EastNorth(
          cell.left + 10.0 * DecimalValue(Column(t, 0)) as real,
          cell.bottom + 10.0 * DecimalValue(Column(t, 1)) as real))
  {
    Magnitudes();
    var r := DecodeFrom(t, 0, EastNorth(cell.left, cell.bottom));
    if !SubLevelsValid(t) {
    } else if DigitTokens(t) {
      assert AllDigits(t[0]) && AllDigits(t[1]) && AllDigits(t[2]);
      var e0, e1, e2 := CharValue(t[0][0]), CharValue(t[1][0]), CharValue(t[2][0]);
      var n0, n1, n2 := CharValue(t[0][1]), CharValue(t[1][1]), CharValue(t[2][1]);
      var a1 := Shift(EastNorth(cell.left, cell.bottom), e0, n0, 1000.0);
      var a2 := Shift(a1, e1, n1, 100.0);
      var a3 := Shift(a2, e2, n2, 10.0);
      StepOnDigits(EastNorth(cell.left, cell.bottom), t[0], 0);
      StepOnDigits(a1, t[1], 1);
      StepOnDigits(a2, t[2], 2);
      assert DecodeFrom(t, 3, a3) == Success(a3);
      assert DecodeFrom(t, 2, a2) == Success(a3);
      assert DecodeFrom(t, 1, a1) == Success(a3);
      assert r == Success(a3);
      DecimalValueOfThree(Column(t, 0));
      DecimalValueOfThree(Column(t, 1));
    } else {
      var i :| 0 <= i < 3 && !AllDigits(t[i]);
      var k :| 0 <= k < 2 && !IsDigit(t[i][k]);
      DecodeFailsAt(t, 0, EastNorth(cell.left, cell.bottom), i);
    }
  }

  /** One fold step on a two-digit token adds each digit at the step's place value. */
  lemma StepOnDigits(acc: EastNorth, token: string, index: nat)
    requires |token| == 2 && AllDigits(token)
    ensures DecodeStep(acc, token, index) == Success(Shift(acc, CharValue(token[0]), CharValue(token[1]), Magnitude(index)))
  {
    assert ParseCharAt(token, 0) == Some(CharValue(token[0]));
    assert ParseCharAt(token, 1) == Some(CharValue(token[1]));
  }

  /** A non-digit character in token `i` makes the fold fail, whatever came before. */
  lemma {:induction false} DecodeFailsAt(t: seq<string>, index: nat, acc: EastNorth, i: nat)
    requires SubLevelsValid(t) && index <= i < 3 && !AllDigits(t[i])
    ensures DecodeFrom(t, index, acc) == Failure(NotANumber)
    decreases i - index
  {
    if index < i {
      match DecodeStep(acc, t[index], index)
      case Failure(e) =>
      case Success(next) => DecodeFailsAt(t, index + 1, next, i);
    } else {
      var k :| 0 <= k < 2 && !IsDigit(t[i][k]);
      assert ParseCharAt(t[i], k).None?;
    }
  }

  /** On digit tokens the decoded offsets are multiples of ten from 0 to 9990 on each axis. */
  lemma DecodedOffsetsInRange(gc: GridCode)
    requires SubLevelsValid(gc.subLevelGridCodeZones) && DigitTokens(gc.subLevelGridCodeZones)
    ensures DecodeOffsets(gc).Success?
    ensures var en := DecodeOffsets(gc).value;
      && 0.0 <= en.easting - gc.gridCodeCell.left <= 9990.0
      && 0.0 <= en.northing - gc.gridCodeCell.bottom <= 9990.0
      && (en.easting - gc.gridCodeCell.left) / 10.0 == ((en.easting - gc.gridCodeCell.left) / 10.0).Floor as real
      && (en.northing - gc.gridCodeCell.bottom) / 10.0 == ((en.northing - gc.gridCodeCell.bottom) / 10.0).Floor as real
  {
    var t := gc.subLevelGridCodeZones;
    ThreeDigitsOfValue(Column(t, 0));
    ThreeDigitsOfValue(Column(t, 1));
    var en := DecodeOffsets(gc).value;
    TensInRange(DecimalValue(Column(t, 0)), en.easting - gc.gridCodeCell.left);
    TensInRange(DecimalValue(Column(t, 1)), en.northing - gc.gridCodeCell.bottom);
  }

  /** Ten times a number below 1000 lies in [0, 9990] and is a whole number of tens. */
  lemma TensInRange(q: nat, d: real)
    requires q < 1000 && d == 10.0 * q as real
    ensures 0.0 <= d <= 9990.0 && d / 10.0 == (d / 10.0).Floor as real
  {
    assert d / 10.0 == q as real;
  }
}
