/**
 * Locator validation and locator-to-coordinate decoding
 * (`GetLastLocatorPart` and `LocatorToLatLng`).
 *
 * Coordinates are exact reals: the decoded point is a rational number of
 * degrees, so the model has no rounding.
 */
module Decoding {
  import opened Grid
  import Text

  /** A (latitude, longitude) pair in degrees. */
  datatype Coord = Coord(lat: real, lon: real)

  /** `c - base` as the source writes it on `char`s, an `int`. */
  function Ord(c: char, base: char): int
  {
    c as int - base as int
  }

  /**
   * `GetLastLocatorPart`: the number of fields of an already normalised
   * locator, trying the four patterns in turn, or `FormatError` when none
   * matches.
   */
  function GetLastLocatorPart(locator: string): (r: Result<nat>)
    ensures r.Ok? <==> IsLocator(locator)
    ensures r.Ok? ==> r.value == Fields(locator) && 2 <= r.value <= 5
  {
    var lastPart: Option<nat> := None;
    var lastPart := if MatchesPattern(locator, 2) then Some(2) else lastPart;
    var lastPart := if MatchesPattern(locator, 3) then Some(3) else lastPart;
    var lastPart := if MatchesPattern(locator, 4) then Some(4) else lastPart;
    var lastPart := if MatchesPattern(locator, 5) then Some(5) else lastPart;
    if lastPart.None? then FormatError else Ok(lastPart.value)
  }

  /**
   * `LocatorToLatLng`: trims and upper-cases the locator, then sums, per
   * field present, symbol index times field span, adding half a span on the
   * finest field, and moves the origin to (-90, -180).
   */
  function LocatorToLatLng(locator: string): (r: Result<Coord>)
    ensures r.Ok? <==> IsLocator(Text.Normalize(locator))
  {
    var s := Text.Normalize(locator);
    if MatchesPattern(s, 2) then
      var lon := (Ord(s[0], 'A') * 20) as real + (Ord(s[2], '0') as real + 0.5) * 2.0 - 180.0;
      var lat := (Ord(s[1], 'A') * 10) as real + (Ord(s[3], '0') as real + 0.5) - 90.0;
      Ok(Coord(lat, lon))
    else if MatchesPattern(s, 3) then
      var lon := (Ord(s[0], 'A') * 20) as real + (Ord(s[2], '0') * 2) as real
                 + (Ord(s[4], 'A') as real + 0.5) / 12.0 - 180.0;
      var lat := (Ord(s[1], 'A') * 10) as real + Ord(s[3], '0') as real
                 + (Ord(s[5], 'A') as real + 0.5) / 24.0 - 90.0;
      Ok(Coord(lat, lon))
    else if MatchesPattern(s, 4) then
      var lon := (Ord(s[0], 'A') * 20) as real + (Ord(s[2], '0') * 2) as real
                 + (Ord(s[4], 'A') as real + 0.0) / 12.0 + (Ord(s[6], '0') as real + 0.5) / 120.0 - 180.0;
      var lat := (Ord(s[1], 'A') * 10) as real + Ord(s[3], '0') as real
                 + (Ord(s[5], 'A') as real + 0.0) / 24.0 + (Ord(s[7], '0') as real + 0.5) / 240.0 - 90.0;
      Ok(Coord(lat, lon))
    else if MatchesPattern(s, 5) then
      var lon := (Ord(s[0], 'A') * 20) as real + (Ord(s[2], '0') * 2) as real
                 + (Ord(s[4], 'A') as real + 0.0) / 12.0 + (Ord(s[6], '0') as real + 0.0) / 120.0
                 + (Ord(s[8], 'A') as real + 0.5) / 120.0 / 24.0 - 180.0;
      var lat := (Ord(s[1], 'A') * 10) as real + Ord(s[3], '0') as real
                 + (Ord(s[5], 'A') as real + 0.0) / 24.0 + (Ord(s[7], '0') as real + 0.0) / 240.0
                 + (Ord(s[9], 'A') as real + 0.5) / 240.0 / 24.0 - 90.0;
      Ok(Coord(lat, lon))
    else
      FormatError
  }

  /** Centre, along `axis`, of cell number `index` of the finest field of an m-field locator. */
  function CellCentre(axis: Axis, m: nat, index: int): real
    requires 1 <= m <= 5
  {
    (index as real + 0.5) * Span(axis, m - 1) - Extent(axis) / 2.0
  }

  /** The centre of the cell a well-formed locator names. */
  function Centre(s: string): Coord
    requires IsLocator(s)
  {
    var m := Fields(s);
    Coord(CellCentre(Latitude, m, AxisValue(s, Latitude, m)),
          CellCentre(Longitude, m, AxisValue(s, Longitude, m)))
  }

  /**
   * Decoding yields the exact centre of the finest cell: half a finest span
   * past the south-west corner given by the cell index of each axis.
   */
  lemma DecodeIsCellCentre(locator: string)
    ensures var s := Text.Normalize(locator);
      LocatorToLatLng(locator) == if IsLocator(s) then Ok(Centre(s)) else FormatError
  {
    var s := Text.Normalize(locator);
    if IsLocator(s) {
      var m := Fields(s);
      assert MatchesPattern(s, m);
      if m == 2 {
        DecodeTwoFields(locator);
      } else if m == 3 {
        DecodeThreeFields(locator);
      } else if m == 4 {
        DecodeFourFields(locator);
      } else {
        DecodeFiveFields(locator);
      }
    }
  }

  lemma DecodeTwoFields(locator: string)
    requires var s := Text.Normalize(locator); IsLocator(s) && |s| == 4
    ensures LocatorToLatLng(locator) == Ok(Centre(Text.Normalize(locator)))
  {
    var s := Text.Normalize(locator);
    assert MatchesPattern(s, 2);
    TwoFieldCentre(s);
  }

  /** The decoder's two-field sums are the coordinates of the cell centre. */
  lemma TwoFieldCentre(s: string)
    requires IsLocator(s) && |s| == 4
    ensures (Ord(s[0], 'A') * 20) as real + (Ord(s[2], '0') as real + 0.5) * 2.0 - 180.0
      == CellCentre(Longitude, 2, AxisValue(s, Longitude, 2))
    ensures (Ord(s[1], 'A') * 10) as real + (Ord(s[3], '0') as real + 0.5) - 90.0
      == CellCentre(Latitude, 2, AxisValue(s, Latitude, 2))
  {
    AxisValueUnfolded(s, Longitude, 2);
    AxisValueUnfolded(s, Latitude, 2);
  }

  lemma DecodeThreeFields(locator: string)
    requires var s := Text.Normalize(locator); IsLocator(s) && |s| == 6
    ensures LocatorToLatLng(locator) == Ok(Centre(Text.Normalize(locator)))
  {
    var s := Text.Normalize(locator);
    assert MatchesPattern(s, 3);
    ThreeFieldCentre(s);
  }

  /** The decoder's three-field sums are the coordinates of the cell centre. */
  lemma ThreeFieldCentre(s: string)
    requires IsLocator(s) && |s| == 6
    ensures (Ord(s[0], 'A') * 20) as real + (Ord(s[2], '0') * 2) as real
      + (Ord(s[4], 'A') as real + 0.5) / 12.0 - 180.0
      == CellCentre(Longitude, 3, AxisValue(s, Longitude, 3))
    ensures (Ord(s[1], 'A') * 10) as real + Ord(s[3], '0') as real
      + (Ord(s[5], 'A') as real + 0.5) / 24.0 - 90.0
      == CellCentre(Latitude, 3, AxisValue(s, Latitude, 3))
  {
    AxisValueUnfolded(s, Longitude, 3);
    AxisValueUnfolded(s, Latitude, 3);
  }

  lemma DecodeFourFields(locator: string)
    requires var s := Text.Normalize(locator); IsLocator(s) && |s| == 8
    ensures LocatorToLatLng(locator) == Ok(Centre(Text.Normalize(locator)))
  {
    var s := Text.Normalize(locator);
    assert MatchesPattern(s, 4);
    FourFieldLongitude(s);
    FourFieldLatitude(s);
  }

  /** The decoder's four-field longitude sum is the longitude of the cell centre. */
  lemma FourFieldLongitude(s: string)
    requires IsLocator(s) && |s| == 8
    ensures (Ord(s[0], 'A') * 20) as real + (Ord(s[2], '0') * 2) as real
      + (Ord(s[4], 'A') as real + 0.0) / 12.0 + (Ord(s[6], '0') as real + 0.5) / 120.0 - 180.0
      == CellCentre(Longitude, 4, AxisValue(s, Longitude, 4))
  {
    AxisValueUnfolded(s, Longitude, 4);
    FourFieldSum(Ord(s[0], 'A'), Ord(s[2], '0'), Ord(s[4], 'A'), Ord(s[6], '0'), 20, 2, 12.0, 120.0, 180.0);
  }

  /** The decoder's four-field latitude sum is the latitude of the cell centre. */
  lemma FourFieldLatitude(s: string)
    requires IsLocator(s) && |s| == 8
    ensures (Ord(s[1], 'A') * 10) as real + Ord(s[3], '0') as real
      + (Ord(s[5], 'A') as real + 0.0) / 24.0 + (Ord(s[7], '0') as real + 0.5) / 240.0 - 90.0
      == CellCentre(Latitude, 4, AxisValue(s, Latitude, 4))
  {
    AxisValueUnfolded(s, Latitude, 4);
    FourFieldSum(Ord(s[1], 'A'), Ord(s[3], '0'), Ord(s[5], 'A'), Ord(s[7], '0'), 10, 1, 24.0, 240.0, 90.0);
  }

  lemma DecodeFiveFields(locator: string)
    requires var s := Text.Normalize(locator); IsLocator(s) && |s| == 10
    ensures LocatorToLatLng(locator) == Ok(Centre(Text.Normalize(locator)))
  {
    var s := Text.Normalize(locator);
    assert MatchesPattern(s, 5);
    FiveFieldLongitude(s);
    FiveFieldLatitude(s);
  }

  /** The decoder's five-field longitude sum is the longitude of the cell centre. */
  lemma FiveFieldLongitude(s: string)
    requires IsLocator(s) && |s| == 10
    ensures (Ord(s[0], 'A') * 20) as real + (Ord(s[2], '0') * 2) as real
      + (Ord(s[4], 'A') as real + 0.0) / 12.0 + (Ord(s[6], '0') as real + 0.0) / 120.0
      + (Ord(s[8], 'A') as real + 0.5) / 120.0 / 24.0 - 180.0
      == CellCentre(Longitude, 5, AxisValue(s, Longitude, 5))
  {
    AxisValueUnfolded(s, Longitude, 5);
    FiveFieldSum(Ord(s[0], 'A'), Ord(s[2], '0'), Ord(s[4], 'A'), Ord(s[6], '0'), Ord(s[8], 'A'),
                 20, 2, 12.0, 120.0, 180.0);
  }

  /** The decoder's five-field latitude sum is the latitude of the cell centre. */
  lemma FiveFieldLatitude(s: string)
    requires IsLocator(s) && |s| == 10
    ensures (Ord(s[1], 'A') * 10) as real + Ord(s[3], '0') as real
      + (Ord(s[5], 'A') as real + 0.0) / 24.0 + (Ord(s[7], '0') as real + 0.0) / 240.0
      + (Ord(s[9], 'A') as real + 0.5) / 240.0 / 24.0 - 90.0
      == CellCentre(Latitude, 5, AxisValue(s, Latitude, 5))
  {
    AxisValueUnfolded(s, Latitude, 5);
    FiveFieldSum(Ord(s[1], 'A'), Ord(s[3], '0'), Ord(s[5], 'A'), Ord(s[7], '0'), Ord(s[9], 'A'),
                 10, 1, 24.0, 240.0, 90.0);
  }

  /**
   * The decoder's four-field sum is the centre of the cell whose index is the
   * digits' Horner value; f0, f1, f2 and f3 are the reciprocal spans of the
   * axis and h half its extent.
   */
  lemma FourFieldSum(d0: int, d1: int, d2: int, d3: int, f0: int, f1: int, f2: real, f3: real, h: real)
    requires (f0 == 20 && f1 == 2 && f2 == 12.0 && f3 == 120.0 && h == 180.0)
          || (f0 == 10 && f1 == 1 && f2 == 24.0 && f3 == 240.0 && h == 90.0)
    ensures (d0 * f0) as real + (d1 * f1) as real + (d2 as real + 0.0) / f2 + (d3 as real + 0.5) / f3 - h
      == ((((d0 * 10 + d1) * 24 + d2) * 10 + d3) as real + 0.5) * (1.0 / f3) - h
  {
  }

  /** The five-field analogue of FourFieldSum. */
  lemma FiveFieldSum(d0: int, d1: int, d2: int, d3: int, d4: int, f0: int, f1: int, f2: real, f3: real, h: real)
    requires (f0 == 20 && f1 == 2 && f2 == 12.0 && f3 == 120.0 && h == 180.0)
          || (f0 == 10 && f1 == 1 && f2 == 24.0 && f3 == 240.0 && h == 90.0)
    ensures (d0 * f0) as real + (d1 * f1) as real + (d2 as real + 0.0) / f2 + (d3 as real + 0.0) / f3
      + (d4 as real + 0.5) / f3 / 24.0 - h
      == (((((d0 * 10 + d1) * 24 + d2) * 10 + d3) * 24 + d4) as real + 0.5) * (1.0 / f3 / 24.0) - h
  {
  }

  /** The axis value written out as the digit sums the decoder adds up. */
  lemma AxisValueUnfolded(s: string, axis: Axis, m: nat)
    requires 2 <= m <= 5 && 2 * m <= |s|
    ensures m == 2 ==> AxisValue(s, axis, m) == Digit(s, axis, 0) * 10 + Digit(s, axis, 1)
    ensures m == 3 ==> AxisValue(s, axis, m) == (Digit(s, axis, 0) * 10 + Digit(s, axis, 1)) * 24 + Digit(s, axis, 2)
    ensures m == 4 ==> (AxisValue(s, axis, m) ==
      ((Digit(s, axis, 0) * 10 + Digit(s, axis, 1)) * 24 + Digit(s, axis, 2)) * 10 + Digit(s, axis, 3))
    ensures m == 5 ==> (AxisValue(s, axis, m) ==
      (((Digit(s, axis, 0) * 10 + Digit(s, axis, 1)) * 24 + Digit(s, axis, 2)) * 10 + Digit(s, axis, 3)) * 24
      + Digit(s, axis, 4))
  {
    assert AxisValue(s, axis, 1) == Digit(s, axis, 0);
    assert AxisValue(s, axis, 2) == AxisValue(s, axis, 1) * 10 + Digit(s, axis, 1);
    if m >= 3 {
      assert AxisValue(s, axis, 3) == AxisValue(s, axis, 2) * 24 + Digit(s, axis, 2);
    }
    if m >= 4 {
      assert AxisValue(s, axis, 4) == AxisValue(s, axis, 3) * 10 + Digit(s, axis, 3);
    }
    if m >= 5 {
      assert AxisValue(s, axis, 5) == AxisValue(s, axis, 4) * 24 + Digit(s, axis, 4);
    }
  }

  /** The centre of every cell lies strictly inside the grid. */
  lemma CentreInside(s: string)
    requires IsLocator(s)
    ensures -90.0 < Centre(s).lat < 90.0
    ensures -180.0 < Centre(s).lon < 180.0
  {
    var m := Fields(s);
    LocatorAxisSymbols(s, Latitude);
    LocatorAxisSymbols(s, Longitude);
    AxisValueBounds(s, Latitude, m);
    AxisValueBounds(s, Longitude, m);
    TotalCoversExtent(Latitude, m);
    TotalCoversExtent(Longitude, m);
    CellCentreInside(Latitude, m, AxisValue(s, Latitude, m));
    CellCentreInside(Longitude, m, AxisValue(s, Longitude, m));
  }

  lemma CellCentreInside(axis: Axis, m: nat, index: int)
    requires 1 <= m <= 5 && 0 <= index < Total(m)
    ensures -Extent(axis) / 2.0 < CellCentre(axis, m, index) < Extent(axis) / 2.0
  {
    var sp := Span(axis, m - 1);
    TotalCoversExtent(axis, m);
    assert index as real + 0.5 < Total(m) as real;
    assert (index as real + 0.5) * sp < Total(m) as real * sp;
  }

  /** Every successful decode is strictly inside (-90, 90) x (-180, 180). */
  lemma DecodeInside(locator: string)
    requires LocatorToLatLng(locator).Ok?
    ensures var c := LocatorToLatLng(locator).value;
      -90.0 < c.lat < 90.0 && -180.0 < c.lon < 180.0
  {
    DecodeIsCellCentre(locator);
    CentreInside(Text.Normalize(locator));
  }

  /** The decoding cases of the unit tests in `UnitTest1`, exactly (the tests compare binary doubles). */
  lemma DecodeExampleSubsquare()
    ensures LocatorToLatLng("IO91lk") == Ok(Coord(51.4375, -25.0 / 24.0))
  {
    var s := "IO91LK";
    UpperCaseExample("IO91lk", s);
    SubsquareIndices(s);
    DecodeIsCellCentre("IO91lk");
  }

  lemma DecodeExampleExtendedSquare()
    ensures LocatorToLatLng("IO91lk45") == Ok(Coord(51.0 + 211.0 / 480.0, -251.0 / 240.0))
  {
    var s := "IO91LK45";
    UpperCaseExample("IO91lk45", s);
    ExtendedSquareIndices(s);
    DecodeIsCellCentre("IO91lk45");
  }

  lemma DecodeExampleExtendedSubsquare()
    ensures LocatorToLatLng("IO91lk45xa") == Ok(Coord(51.0 + 5041.0 / 11520.0, -6001.0 / 5760.0))
  {
    var s := "IO91LK45XA";
    UpperCaseExample("IO91lk45xa", s);
    ExtendedSubsquareIndices(s);
    DecodeIsCellCentre("IO91lk45xa");
  }

  /** The unit-test locators of `UnitTest1` are these upper-case locators in lower case. */
  lemma UpperCaseExample(s: string, t: string)
    requires (s == "IO91lk" && t == "IO91LK") || (s == "IO91lk45" && t == "IO91LK45")
      || (s == "IO91lk45xa" && t == "IO91LK45XA")
    ensures Text.Normalize(s) == t
  {
    NormalizeExample(s, t);
  }

  /** The cell indices of IO91LK: 141 * 24 + 10 northward, 89 * 24 + 11 eastward. */
  lemma SubsquareIndices(s: string)
    requires s == "IO91LK"
    ensures IsLocator(s) && Fields(s) == 3
    ensures AxisValue(s, Latitude, 3) == 3394 && AxisValue(s, Longitude, 3) == 2147
  {
    assert Digit(s, Longitude, 0) == 8 && Digit(s, Latitude, 0) == 14;
    assert Digit(s, Longitude, 1) == 9 && Digit(s, Latitude, 1) == 1;
    assert Digit(s, Longitude, 2) == 11 && Digit(s, Latitude, 2) == 10;
    AxisValueUnfolded(s, Latitude, 3);
    AxisValueUnfolded(s, Longitude, 3);
  }

  /** The cell indices of IO91LK45. */
  lemma ExtendedSquareIndices(s: string)
    requires s == "IO91LK45"
    ensures IsLocator(s) && Fields(s) == 4
    ensures AxisValue(s, Latitude, 4) == 33945 && AxisValue(s, Longitude, 4) == 21474
  {
    assert Digit(s, Longitude, 0) == 8 && Digit(s, Latitude, 0) == 14;
    assert Digit(s, Longitude, 1) == 9 && Digit(s, Latitude, 1) == 1;
    assert Digit(s, Longitude, 2) == 11 && Digit(s, Latitude, 2) == 10;
    assert Digit(s, Longitude, 3) == 4 && Digit(s, Latitude, 3) == 5;
    AxisValueUnfolded(s, Latitude, 4);
    AxisValueUnfolded(s, Longitude, 4);
  }

  /** The cell indices of IO91LK45XA. */
  lemma ExtendedSubsquareIndices(s: string)
    requires s == "IO91LK45XA"
    ensures IsLocator(s) && Fields(s) == 5
    ensures AxisValue(s, Latitude, 5) == 814680 && AxisValue(s, Longitude, 5) == 515399
  {
    assert Digit(s, Longitude, 0) == 8 && Digit(s, Latitude, 0) == 14;
    assert Digit(s, Longitude, 1) == 9 && Digit(s, Latitude, 1) == 1;
    assert Digit(s, Longitude, 2) == 11 && Digit(s, Latitude, 2) == 10;
    assert Digit(s, Longitude, 3) == 4 && Digit(s, Latitude, 3) == 5;
    assert Digit(s, Longitude, 4) == 23 && Digit(s, Latitude, 4) == 0;
    AxisValueUnfolded(s, Latitude, 5);
    AxisValueUnfolded(s, Longitude, 5);
  }

  /** Shapes the patterns refuse: a locator of odd length. */
  lemma DecodeRejectsLength()
    ensures LocatorToLatLng("IO91L").FormatError?
  {
    NormalizeExample("IO91L", "IO91L");
  }

  /** Shapes the patterns refuse: 'S' in field 1. */
  lemma DecodeRejectsField()
    ensures LocatorToLatLng("IS91").FormatError?
  {
    NormalizeExample("IS91", "IS91");
    assert !ValidSymbol(1 / 2, "IS91"[1]);
  }

  /** Shapes the patterns refuse: a letter in field 2. */
  lemma DecodeRejectsSquare()
    ensures LocatorToLatLng("IO9A").FormatError?
  {
    NormalizeExample("IO9A", "IO9A");
    assert !ValidSymbol(3 / 2, "IO9A"[3]);
  }

  /** Surrounding white space and lower case are accepted. */
  lemma DecodeNormalizes()
    ensures LocatorToLatLng(" io91 ") == LocatorToLatLng("IO91")
  {
    assert Text.TrimStart(" io91 ") == "io91 ";
    assert Text.TrimEnd("io91 ") == "io91";
    NormalizeExample("io91", "IO91");
    NormalizeExample("IO91", "IO91");
  }

  lemma NormalizeExample(s: string, t: string)
    requires |s| == |t| > 0 && !Text.IsWhiteSpace(s[0]) && !Text.IsWhiteSpace(s[|s| - 1])
    requires forall i | 0 <= i < |s| :: t[i] == Text.UpperChar(s[i])
    ensures Text.Normalize(s) == t
  {
    assert Text.TrimStart(s) == s;
    assert Text.TrimEnd(s) == s;
  }
}
