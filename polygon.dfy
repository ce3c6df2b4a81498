/**
 * `LocatorToPolygonPoints`: four decoded points around a locator's cell.
 *
 * The points are, in order, the decoded centres of the locator, of its
 * shift Up, of the shift Left of that, and of its shift Left. They are
 * centres of neighbouring cells, not corners of the locator's own cell, and
 * the two the source labels "right" lie one cell to the west.
 */
module Polygon {
  import opened Grid
  import opened Decoding
  import opened Navigator
  import opened ShiftGeometry
  import Text

  /** The three shifts the polygon decodes succeed on every well-formed locator, and decode. */
  lemma PolygonShifts(locator: string)
    requires IsLocator(Text.Normalize(locator))
    ensures LocatorToLatLng(locator).Ok?
    ensures Shifted(locator, Latitude, Increment).Ok? && Shifted(locator, Longitude, Decrement).Ok?
    ensures Shifted(Shifted(locator, Latitude, Increment).value, Longitude, Decrement).Ok?
    ensures LocatorToLatLng(Shifted(locator, Latitude, Increment).value).Ok?
    ensures LocatorToLatLng(Shifted(locator, Longitude, Decrement).value).Ok?
    ensures LocatorToLatLng(Shifted(Shifted(locator, Latitude, Increment).value, Longitude, Decrement).value).Ok?
  {
    var m := Fields(Text.Normalize(locator));
    ShiftedMeaning(locator, Latitude, Increment);
    ShiftedMeaning(locator, Longitude, Decrement);
    var up := Shifted(locator, Latitude, Increment).value;
    ShiftIsCarry(locator, up, Latitude, Increment, m);
    ShiftIsCarry(locator, Shifted(locator, Longitude, Decrement).value, Longitude, Decrement, m);
    ShiftedMeaning(up, Longitude, Decrement);
    ShiftIsCarry(up, Shifted(up, Longitude, Decrement).value, Longitude, Decrement, m);
  }

  /**
   * The points the source collects: decode(L), decode(Up(L)),
   * decode(Left(Up(L))), decode(Left(L)); the format error when L is not a
   * locator after trimming and upper-casing.
   */
  function PolygonOf(locator: string): Result<seq<Coord>>
  {
    if !IsLocator(Text.Normalize(locator)) then FormatError
    else
      PolygonShifts(locator);
      var up := Shifted(locator, Latitude, Increment).value;
      var upLeft := Shifted(up, Longitude, Decrement).value;
      var left := Shifted(locator, Longitude, Decrement).value;
      Ok([LocatorToLatLng(locator).value, LocatorToLatLng(up).value,
          LocatorToLatLng(upLeft).value, LocatorToLatLng(left).value])
  }

  /**
   * `LocatorToPolygonPoints`: appends the four decoded points to a list in
   * the source's order, shifting Up once more for the third point.
   */
  method LocatorToPolygonPoints(locator: string) returns (r: Result<seq<Coord>>)
    ensures r == PolygonOf(locator)
  {
    var points: seq<Coord> := [];

    var current := LocatorToLatLng(locator);
    if current.FormatError? {
      return FormatError;
    }
    PolygonShifts(locator);
    var p0 := current.value;
    points := points + [p0];

    var up := LocatorShiftUp(locator);
    current := LocatorToLatLng(up.value);
    var p1 := current.value;
    points := points + [p1];

    var upAgain := LocatorShiftUp(locator);
    var upLeft := LocatorShiftLeft(upAgain.value);
    current := LocatorToLatLng(upLeft.value);
    var p2 := current.value;
    points := points + [p2];

    var left := LocatorShiftLeft(locator);
    current := LocatorToLatLng(left.value);
    var p3 := current.value;
    points := points + [p3];
    FourPoints(points, p0, p1, p2, p3);

    PolygonOfPoints(locator, up.value, upLeft.value, left.value, points);
    r := Ok(points);
  }

  /** Four points added one by one to an empty list are the list of the four. */
  lemma FourPoints(points: seq<Coord>, p0: Coord, p1: Coord, p2: Coord, p3: Coord)
    requires points == [] + [p0] + [p1] + [p2] + [p3]
    ensures points == [p0, p1, p2, p3]
  {
  }

  /** PolygonOf, given the three shifted locators and the four points decoded from them. */
  lemma PolygonOfPoints(locator: string, up: string, upLeft: string, left: string, points: seq<Coord>)
    requires Shifted(locator, Latitude, Increment) == Ok(up)
    requires Shifted(up, Longitude, Decrement) == Ok(upLeft)
    requires Shifted(locator, Longitude, Decrement) == Ok(left)
    requires LocatorToLatLng(locator).Ok? && LocatorToLatLng(up).Ok?
    requires LocatorToLatLng(upLeft).Ok? && LocatorToLatLng(left).Ok?
    requires points == [LocatorToLatLng(locator).value, LocatorToLatLng(up).value,
                        LocatorToLatLng(upLeft).value, LocatorToLatLng(left).value]
    ensures PolygonOf(locator) == Ok(points)
  {
  }

  /** The polygon exists exactly for well-formed locators, and has four points. */
  lemma PolygonDefined(locator: string)
    ensures PolygonOf(locator).Ok? <==> IsLocator(Text.Normalize(locator))
    ensures PolygonOf(locator).Ok? ==> |PolygonOf(locator).value| == 4
  {
  }

  /**
   * The shape of the polygon: point 1 has point 0's longitude, point 3 has
   * point 0's latitude, and point 2 has point 1's latitude and point 3's
   * longitude.
   */
  lemma PolygonShape(locator: string)
    requires PolygonOf(locator).Ok?
    ensures var p := PolygonOf(locator).value;
      && p[1].lon == p[0].lon && p[3].lat == p[0].lat
      && p[2].lat == p[1].lat && p[2].lon == p[3].lon
  {
    var up := Shifted(locator, Latitude, Increment).value;
    var left := Shifted(locator, Longitude, Decrement).value;
    PolygonShifts(locator);
    var upLeft := Shifted(up, Longitude, Decrement).value;
    ShiftKeepsAcross(locator, up, Latitude, Increment);
    ShiftKeepsAcross(locator, left, Longitude, Decrement);
    ShiftKeepsAcross(up, upLeft, Longitude, Decrement);
    UpLeftUnderLeft(locator, up, upLeft, left);
  }

  /** The Left shift of Up(L) has the longitude of the Left shift of L. */
  lemma UpLeftUnderLeft(locator: string, up: string, upLeft: string, left: string)
    requires Shifted(locator, Latitude, Increment) == Ok(up)
    requires Shifted(up, Longitude, Decrement) == Ok(upLeft)
    requires Shifted(locator, Longitude, Decrement) == Ok(left)
    ensures LocatorToLatLng(upLeft).Ok? && LocatorToLatLng(left).Ok?
    ensures LocatorToLatLng(upLeft).value.lon == LocatorToLatLng(left).value.lon
  {
    var m := Fields(Text.Normalize(locator));
    ShiftIndexAcross(locator, up, Latitude, Increment, m);
    ShiftSameAlong(up, upLeft, locator, left, Longitude, Decrement, m);
  }

  /**
   * Point 1 lies one finest cell north of point 0 and point 3 one finest
   * cell west of it. On the grid's top row point 1 wraps round to the bottom
   * row, 180 degrees less one span south; on its westmost column point 3
   * wraps round to the eastmost, 360 degrees less one span east.
   */
  lemma PolygonSpacing(locator: string, m: nat, lat: int, lon: int)
    requires PolygonOf(locator).Ok? && m == Fields(Text.Normalize(locator))
    requires lat == AxisValue(Text.Normalize(locator), Latitude, m)
    requires lon == AxisValue(Text.Normalize(locator), Longitude, m)
    ensures 1 <= m <= 5
    ensures var p := PolygonOf(locator).value;
      && (lat + 1 < Total(m) ==> p[1].lat == p[0].lat + Span(Latitude, m - 1))
      && (lon > 0 ==> p[3].lon == p[0].lon - Span(Longitude, m - 1))
      && (lat + 1 >= Total(m) ==> p[1].lat == p[0].lat + Span(Latitude, m - 1) - 180.0)
      && (lon <= 0 ==> p[3].lon == p[0].lon - Span(Longitude, m - 1) + 360.0)
  {
    PolygonShifts(locator);
    var up := Shifted(locator, Latitude, Increment).value;
    var left := Shifted(locator, Longitude, Decrement).value;
    ShiftDisplacement(locator, up, Latitude, Increment, m, lat);
    ShiftDisplacement(locator, left, Longitude, Decrement, m, lon);
  }
}
