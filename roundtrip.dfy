/**
 * How encoding and decoding fit together over exact reals.
 *
 * Encoding the decoded centre of a locator gives the locator back, in the
 * encoder's letter case (fields 3 and 5 lower case). In the other direction,
 * encoding a point and decoding the result gives the centre of a cell that
 * holds the point, so the decoded point is within half a finest span of it.
 */
module RoundTrip {
  import opened Grid
  import opened Decoding
  import opened Encoding
  import Text

  /** A locator in the case the encoder writes: the letters of fields 3 and 5 lower-cased. */
  function EncoderCase(s: string): (r: string)
  {
    seq(|s|, i requires 0 <= i < |s| => if i / 2 == 2 || i / 2 == 4 then Text.LowerChar(s[i]) else s[i])
  }

  /** South (or west) edge of the cell the first j fields of s name, measured from the grid's edge. */
  function Lo(s: string, axis: Axis, j: nat): real
    requires 1 <= j <= 5 && 2 * j <= |s|
  {
    AxisValue(s, axis, j) as real * Span(axis, j - 1)
  }

  /** The arithmetic of one refinement step: digit d of radix r subdivides a span r * sp. */
  lemma RefineArith(v: int, r: int, d: int, sp: real)
    requires 0 <= d < r && sp > 0.0
    ensures (v * r + d) as real * sp == v as real * (r as real * sp) + d as real * sp
    ensures 0.0 <= d as real * sp && d as real * sp + sp <= r as real * sp
  {
    assert (v * r) as real == v as real * r as real;
    MulAtMost(0.0, d as real, sp);
    MulAtMost((d + 1) as real, r as real, sp);
  }

  /** The cell of j + 1 fields lies inside the cell of j fields. */
  lemma CellStep(s: string, axis: Axis, j: nat)
    requires 1 <= j < 5 && 2 * j + 2 <= |s| && 0 <= Digit(s, axis, j) < Radix(j)
    ensures Lo(s, axis, j) <= Lo(s, axis, j + 1)
    ensures Lo(s, axis, j + 1) + Span(axis, j) <= Lo(s, axis, j) + Span(axis, j - 1)
  {
    var v := AxisValue(s, axis, j);
    var r := Radix(j);
    var d := Digit(s, axis, j);
    var sp := Span(axis, j);
    SpanRefines(axis, j - 1);
    assert Span(axis, j - 1) == r as real * sp;
    assert AxisValue(s, axis, j + 1) == v * r + d;
    RefineArith(v, r, d, sp);
  }

  /** The cell of m fields lies inside the cell of any coarser prefix j. */
  lemma {:induction false} CellNested(s: string, axis: Axis, j: nat, m: nat)
    requires IsLocator(s) && 1 <= j <= m <= Fields(s)
    ensures Lo(s, axis, j) <= Lo(s, axis, m)
    ensures Lo(s, axis, m) + Span(axis, m - 1) <= Lo(s, axis, j) + Span(axis, j - 1)
    decreases m - j
  {
    if j < m {
      CellNested(s, axis, j + 1, m);
      LocatorAxisSymbols(s, axis);
      assert ValidSymbol(j, s[Pos(axis, j)]);
      ValidSymbolIndex(j, s[Pos(axis, j)]);
      CellStep(s, axis, j);
    }
  }

  /** Distance of the decoded centre from the grid's south (or west) edge, as the encoder sees it. */
  lemma CentreOffset(s: string, axis: Axis)
    requires IsLocator(s)
    ensures var c := Centre(s); var m := Fields(s);
      Offset(c.lat, c.lon, axis) == Lo(s, axis, m) + Span(axis, m - 1) / 2.0
  {
  }

  /** The midpoint of an interval lying inside [n * sp, (n + 1) * sp) has floor n in units of sp. */
  lemma FloorInCell(n: int, sp: real, cell: real, lo: real, fine: real)
    requires sp > 0.0 && fine > 0.0 && cell == n as real * sp
    requires cell <= lo && lo + fine <= cell + sp
    ensures ((lo + fine / 2.0) / sp).Floor == n
  {
    assert (n + 1) as real * sp == n as real * sp + sp;
    FloorFromBounds(lo + fine / 2.0, sp, n);
  }

  /**
   * In units of the span of field j - 1, the centre of a finer cell nested in
   * the cell the first j fields name lies in that cell's number.
   */
  lemma CellFloor(s: string, axis: Axis, j: nat, m: nat)
    requires 1 <= j <= m <= 5 && 2 * m <= |s|
    requires Lo(s, axis, j) <= Lo(s, axis, m)
    requires Lo(s, axis, m) + Span(axis, m - 1) <= Lo(s, axis, j) + Span(axis, j - 1)
    ensures ((Lo(s, axis, m) + Span(axis, m - 1) / 2.0) / Span(axis, j - 1)).Floor == AxisValue(s, axis, j)
  {
    SpanPositive(axis, j - 1);
    SpanPositive(axis, m - 1);
    FloorInCell(AxisValue(s, axis, j), Span(axis, j - 1), Lo(s, axis, j), Lo(s, axis, m), Span(axis, m - 1));
  }

  /** The encoder's field-k index of the decoded centre is the locator's own field-k symbol index. */
  lemma CentreFieldIndex(s: string, axis: Axis, k: nat)
    requires IsLocator(s) && k < Fields(s)
    ensures var c := Centre(s); FieldIndex(c.lat, c.lon, axis, k) == Digit(s, axis, k)
  {
    CentreFloor(s, axis, k);
    LastDigit(s, axis, k);
  }

  /** In units of the span of field k, the decoded centre lies in the cell the first k + 1 fields name. */
  lemma CentreFloor(s: string, axis: Axis, k: nat)
    requires IsLocator(s) && k < Fields(s)
    ensures var c := Centre(s); (Offset(c.lat, c.lon, axis) / Span(axis, k)).Floor == AxisValue(s, axis, k + 1)
  {
    var m := Fields(s);
    SpanPositive(axis, k);
    CellNested(s, axis, k + 1, m);
    CellFloor(s, axis, k + 1, m);
    CentreOffset(s, axis);
  }

  /** The cell index of the first k + 1 fields, modulo the radix of field k, is the field-k symbol index. */
  lemma LastDigit(s: string, axis: Axis, k: nat)
    requires IsLocator(s) && k < Fields(s)
    ensures AxisValue(s, axis, k + 1) % Radix(k) == Digit(s, axis, k)
  {
    LocatorAxisSymbols(s, axis);
    assert ValidSymbol(k, s[Pos(axis, k)]);
    ModOfDigit(AxisValue(s, axis, k), Radix(k), Digit(s, axis, k));
  }

  /**
   * Encoding the decoded centre of a locator at the locator's own precision
   * gives the locator back, with fields 3 and 5 in lower case.
   */
  lemma EncodeDecodeRoundTrip(s: string)
    requires IsLocator(s)
    ensures var c := Centre(s); Encoded(c.lat, c.lon, Fields(s)) == EncoderCase(s)
  {
    var c := Centre(s);
    var m := Fields(s);
    var e := Encoded(c.lat, c.lon, m);
    forall i | 0 <= i < |s| ensures e[i] == EncoderCase(s)[i] {
      var k := i / 2;
      var axis := AxisOf(i);
      assert Pos(axis, k) == i;
      assert ValidSymbol(k, s[i]);
      CentreFieldIndex(s, axis, k);
    }
  }

  /** The same for the encoder method's precisions: a 6-, 8- or 10-character locator at Ext 0, 1, 2. */
  lemma LocatorRoundTrip(s: string, ext: int)
    requires IsLocator(s) && Fields(s) >= 3 && ext == Fields(s) - 3
    ensures var c := Centre(s);
      -90.0 < c.lat < 90.0 && -180.0 < c.lon < 180.0
      && Encoded(c.lat, c.lon, EncodedFields(ext)) == EncoderCase(s)
      && Text.ToUpper(EncoderCase(s)) == s
  {
    CentreInside(s);
    EncodeDecodeRoundTrip(s);
    forall i | 0 <= i < |s| ensures Text.ToUpper(EncoderCase(s))[i] == s[i] {
      assert ValidSymbol(i / 2, s[i]);
    }
  }

  /** Upper-casing an encoder character gives the locator symbol of the same index. */
  lemma UpperOutputChar(k: nat, i: int)
    requires k < 5 && 0 <= i < Radix(k)
    ensures Text.UpperChar(OutputChar(k, i)) == SymbolChar(k, i)
  {
  }

  /** Field k of the upper-cased encoding holds the encoder's index for field k. */
  lemma EncodedDigit(lat: real, lon: real, f: nat, axis: Axis, k: nat)
    requires f <= 5 && k < f
    ensures var u := Text.ToUpper(Encoded(lat, lon, f));
      ValidSymbol(k, u[Pos(axis, k)]) && Digit(u, axis, k) == FieldIndex(lat, lon, axis, k)
  {
    var u := Text.ToUpper(Encoded(lat, lon, f));
    var i := Pos(axis, k);
    assert i / 2 == k && AxisOf(i) == axis;
    UpperOutputChar(k, FieldIndex(lat, lon, axis, k));
  }

  /** Upper-cased, the encoding of a point inside the grid is a well-formed locator. */
  lemma EncodedIsLocator(lat: real, lon: real, f: nat)
    requires 2 <= f <= 5
    ensures IsLocator(Text.ToUpper(Encoded(lat, lon, f)))
  {
    var u := Text.ToUpper(Encoded(lat, lon, f));
    forall i | 0 <= i < |u| ensures ValidSymbol(i / 2, u[i]) {
      assert Pos(AxisOf(i), i / 2) == i;
      EncodedDigit(lat, lon, f, AxisOf(i), i / 2);
    }
  }

  /**
   * The floor in units of a field's span, reduced modulo the radix, determines
   * the floor in units of the parent field's span.
   */
  lemma FloorRefines(x: real, axis: Axis, j: nat)
    requires 1 <= j < 5
    ensures var f := (x / Span(axis, j)).Floor; var r := Radix(j);
      (x / Span(axis, j - 1)).Floor * r + f % r == f
  {
    var sp := Span(axis, j);
    var r := Radix(j);
    SpanPositive(axis, j);
    SpanRefines(axis, j - 1);
    assert Span(axis, j - 1) == r as real * sp;
    DivScaled(x, sp, r as real);
    FloorDiv(x / sp, r);
  }

  /**
   * The axis value of the first j fields of an encoding is the point's offset
   * in whole spans of field j: the encoder's digits are those of that floor.
   */
  lemma {:induction false} EncodedAxisValue(lat: real, lon: real, f: nat, axis: Axis, j: nat)
    requires -90.0 <= lat < 90.0 && -180.0 <= lon < 180.0 && 1 <= j <= f <= 5
    ensures AxisValue(Text.ToUpper(Encoded(lat, lon, f)), axis, j)
      == (Offset(lat, lon, axis) / Span(axis, j - 1)).Floor
  {
    var u := Text.ToUpper(Encoded(lat, lon, f));
    EncodedDigit(lat, lon, f, axis, j - 1);
    if j == 1 {
      FirstField(lat, lon, axis);
    } else {
      EncodedAxisValue(lat, lon, f, axis, j - 1);
      AxisValueOfFloors(u, axis, j, Offset(lat, lon, axis));
    }
  }

  /**
   * When the first j - 1 fields of u hold the floor of x in units of their
   * span, and field j - 1 holds the floor in units of its own span reduced
   * modulo the radix, the first j fields hold the floor in units of that span.
   */
  lemma AxisValueOfFloors(u: string, axis: Axis, j: nat, x: real)
    requires 2 <= j <= 5 && 2 * j <= |u|
    requires AxisValue(u, axis, j - 1) == (x / Span(axis, j - 2)).Floor
    requires Digit(u, axis, j - 1) == (x / Span(axis, j - 1)).Floor % Radix(j - 1)
    ensures AxisValue(u, axis, j) == (x / Span(axis, j - 1)).Floor
  {
    FloorRefines(x, axis, j - 1);
  }

  /**
   * A point lies within half a span of the centre of the span-sized cell its
   * floor names, also after both are shifted by half the extent.
   */
  lemma NearCentre(x: real, sp: real, v: int, ext: real)
    requires sp > 0.0 && v == (x / sp).Floor
    ensures var c := (v as real + 0.5) * sp - ext / 2.0;
      c - sp / 2.0 <= x - ext / 2.0 < c + sp / 2.0
  {
    var n := v as real;
    Encoding.FloorBounds(x, sp);
    assert (v + 1) as real * sp == n * sp + sp;
    assert (n + 0.5) * sp == n * sp + sp / 2.0;
  }

  /** The encoding of a point inside the grid decodes, to the centre of its upper-cased form. */
  lemma EncodedDecodes(lat: real, lon: real, f: nat)
    requires 2 <= f <= 5
    ensures var u := Text.ToUpper(Encoded(lat, lon, f));
      IsLocator(u) && LocatorToLatLng(Encoded(lat, lon, f)) == Ok(Centre(u))
  {
    var e := Encoded(lat, lon, f);
    forall i | 0 <= i < |e| ensures !Text.IsWhiteSpace(e[i]) {
      assert Pos(AxisOf(i), i / 2) == i;
      EncodedDigit(lat, lon, f, AxisOf(i), i / 2);
    }
    Text.NormalizeWithoutWhiteSpace(e);
    EncodedIsLocator(lat, lon, f);
    DecodeIsCellCentre(e);
  }

  /** The centre of the cell an offset's floor names is within half a span of the offset. */
  lemma CellCentreNear(axis: Axis, m: nat, v: int, x: real)
    requires 1 <= m <= 5 && v == (x / Span(axis, m - 1)).Floor
    ensures var c := CellCentre(axis, m, v);
      c - Span(axis, m - 1) / 2.0 <= x - Extent(axis) / 2.0 < c + Span(axis, m - 1) / 2.0
  {
    assert CellCentre(axis, m, v) == (v as real + 0.5) * Span(axis, m - 1) - Extent(axis) / 2.0;
    SpanPositive(axis, m - 1);
    NearCentre(x, Span(axis, m - 1), v, Extent(axis));
  }

  /** On one axis, the centre of the encoded cell is within half a finest span of the point. */
  lemma EncodedCentreNear(lat: real, lon: real, f: nat, axis: Axis)
    requires -90.0 <= lat < 90.0 && -180.0 <= lon < 180.0 && 2 <= f <= 5
    ensures var u := Text.ToUpper(Encoded(lat, lon, f));
      var c := CellCentre(axis, f, AxisValue(u, axis, f));
      var p := Offset(lat, lon, axis) - Extent(axis) / 2.0;
      c - Span(axis, f - 1) / 2.0 <= p < c + Span(axis, f - 1) / 2.0
  {
    var u := Text.ToUpper(Encoded(lat, lon, f));
    EncodedAxisValue(lat, lon, f, axis, f);
    CellCentreNear(axis, f, AxisValue(u, axis, f), Offset(lat, lon, axis));
  }

  /**
   * Decoding the encoding of a point gives the centre of a cell holding the
   * point: the point lies within half a finest span of the decoded coordinate
   * on each axis.
   */
  lemma DecodeEncode(lat: real, lon: real, f: nat)
    requires -90.0 <= lat < 90.0 && -180.0 <= lon < 180.0 && 2 <= f <= 5
    ensures var r := LocatorToLatLng(Encoded(lat, lon, f));
      r.Ok?
      && r.value.lat - Span(Latitude, f - 1) / 2.0 <= lat < r.value.lat + Span(Latitude, f - 1) / 2.0
      && r.value.lon - Span(Longitude, f - 1) / 2.0 <= lon < r.value.lon + Span(Longitude, f - 1) / 2.0
  {
    var u := Text.ToUpper(Encoded(lat, lon, f));
    EncodedDecodes(lat, lon, f);
    assert Fields(u) == f;
    EncodedCentreNear(lat, lon, f, Latitude);
    EncodedCentreNear(lat, lon, f, Longitude);
  }
}
