/**
 * Where a shift moves the decoded point: one finest cell along the shifted
 * axis, or, stepping off an edge of the grid, to the cell at the other end.
 */
module ShiftGeometry {
  import opened Grid
  import opened Decoding
  import opened Navigator
  import Text

  /** The coordinate of a point along `axis`. */
  function Along(c: Coord, axis: Axis): real
  {
    if axis == Longitude then c.lon else c.lat
  }

  /**
   * The decoded point of a locator whose normal form is well formed, with m
   * fields, lies at the centre of its cell along `axis`.
   */
  lemma DecodeAlong(locator: string, axis: Axis, m: nat)
    requires IsLocator(Text.Normalize(locator)) && m == Fields(Text.Normalize(locator))
    ensures 1 <= m <= 5 && LocatorToLatLng(locator).Ok?
    ensures Along(LocatorToLatLng(locator).value, axis) == CellCentre(axis, m, AxisValue(Text.Normalize(locator), axis, m))
  {
    DecodeIsCellCentre(locator);
  }

  /** Cell centres are evenly spaced: the centre of cell w is w - v spans past that of cell v. */
  lemma CentreSpacing(v: int, w: int, sp: real)
    ensures (w as real + 0.5) * sp == (v as real + 0.5) * sp + (w - v) as real * sp
  {
  }

  /**
   * Arithmetic of a move by one cell of span sp on an axis of `total` cells,
   * `extent` long: one span forwards or backwards, and one extent back on a
   * wrap.
   */
  lemma CentreMoveArith(v: int, w: int, total: int, sp: real, extent: real, dir: Direction, cv: real, cw: real)
    requires total as real * sp == extent && IndexMoved(v, w, Delta(dir), total)
    requires cv == (v as real + 0.5) * sp - extent / 2.0 && cw == (w as real + 0.5) * sp - extent / 2.0
    ensures dir == Increment && v + 1 < total ==> cw == cv + sp
    ensures dir == Increment && v + 1 >= total ==> cw == cv + sp - extent
    ensures dir == Decrement && v > 0 ==> cw == cv - sp
    ensures dir == Decrement && v <= 0 ==> cw == cv - sp + extent
  {
    CentreSpacing(v, w, sp);
    if dir == Increment && v + 1 >= total {
      assert w - v == 1 - total;
      assert (1 - total) as real * sp == sp - total as real * sp;
    } else if dir == Decrement && v <= 0 {
      assert w - v == total - 1;
      assert (total - 1) as real * sp == total as real * sp - sp;
    }
  }

  /**
   * The centre of a finest cell moves by one span per cell, and by one
   * extent back when the index wraps: forwards past the last cell, or
   * backwards past the first.
   */
  lemma CellCentreMove(axis: Axis, m: nat, v: int, w: int, dir: Direction)
    requires 1 <= m <= 5 && IndexMoved(v, w, Delta(dir), Total(m))
    ensures dir == Increment && v + 1 < Total(m) ==>
      CellCentre(axis, m, w) == CellCentre(axis, m, v) + Span(axis, m - 1)
    ensures dir == Increment && v + 1 >= Total(m) ==>
      CellCentre(axis, m, w) == CellCentre(axis, m, v) + Span(axis, m - 1) - Extent(axis)
    ensures dir == Decrement && v > 0 ==>
      CellCentre(axis, m, w) == CellCentre(axis, m, v) - Span(axis, m - 1)
    ensures dir == Decrement && v <= 0 ==>
      CellCentre(axis, m, w) == CellCentre(axis, m, v) - Span(axis, m - 1) + Extent(axis)
  {
    TotalCoversExtent(axis, m);
    CentreMoveArith(v, w, Total(m), Span(axis, m - 1), Extent(axis), dir, CellCentre(axis, m, v), CellCentre(axis, m, w));
  }

  /** A shift leaves the coordinate across the shifted axis alone. */
  lemma ShiftKeepsAcross(locator: string, shifted: string, axis: Axis, dir: Direction)
    requires Shifted(locator, axis, dir) == Ok(shifted)
    ensures LocatorToLatLng(locator).Ok? && LocatorToLatLng(shifted).Ok?
    ensures Along(LocatorToLatLng(shifted).value, Across(axis)) == Along(LocatorToLatLng(locator).value, Across(axis))
  {
    var m := Fields(Text.Normalize(locator));
    ShiftIsCarry(locator, shifted, axis, dir, m);
    DecodeAlong(locator, Across(axis), m);
    DecodeAlong(shifted, Across(axis), m);
    CarryKeepsAcross(Text.Normalize(locator), axis, dir, m);
  }

  /**
   * The decoded points of a locator and of its shift are the centres of
   * their cells along `axis`, and the shift moves the cell index by one,
   * wrapping at the edge. m is the locator's number of fields and v its cell
   * index along `axis`.
   */
  lemma ShiftCentres(locator: string, shifted: string, axis: Axis, dir: Direction, m: nat, v: int)
    requires Shifted(locator, axis, dir) == Ok(shifted)
    requires m == Fields(Text.Normalize(locator)) && v == AxisValue(Text.Normalize(locator), axis, m)
    ensures 1 <= m <= 5 && IsLocator(shifted) && |shifted| == 2 * m
    ensures LocatorToLatLng(locator).Ok? && LocatorToLatLng(shifted).Ok?
    ensures Along(LocatorToLatLng(locator).value, axis) == CellCentre(axis, m, v)
    ensures Along(LocatorToLatLng(shifted).value, axis) == CellCentre(axis, m, AxisValue(shifted, axis, m))
    ensures IndexMoved(v, AxisValue(shifted, axis, m), Delta(dir), Total(m))
  {
    ShiftIsCarry(locator, shifted, axis, dir, m);
    DecodeAlong(locator, axis, m);
    DecodeAlong(shifted, axis, m);
    CarryIndexMove(Text.Normalize(locator), axis, dir, m);
  }

  /**
   * A shift moves the decoded point by one finest cell along the shifted
   * axis: Up and Right by plus one span, Down and Left by minus one. Stepping
   * off the grid's last row or column (Up, Right) or its first (Down, Left)
   * wraps around, a full 360 degrees of longitude or 180 of latitude. m is
   * the locator's number of fields and v its cell index along `axis`.
   */
  lemma ShiftDisplacement(locator: string, shifted: string, axis: Axis, dir: Direction, m: nat, v: int)
    requires Shifted(locator, axis, dir) == Ok(shifted)
    requires m == Fields(Text.Normalize(locator)) && v == AxisValue(Text.Normalize(locator), axis, m)
    ensures 1 <= m <= 5
    ensures LocatorToLatLng(locator).Ok? && LocatorToLatLng(shifted).Ok?
    ensures dir == Increment && v + 1 < Total(m) ==>
      Along(LocatorToLatLng(shifted).value, axis) == Along(LocatorToLatLng(locator).value, axis) + Span(axis, m - 1)
    ensures dir == Increment && v + 1 >= Total(m) ==>
      Along(LocatorToLatLng(shifted).value, axis)
      == Along(LocatorToLatLng(locator).value, axis) + Span(axis, m - 1) - Extent(axis)
    ensures dir == Decrement && v > 0 ==>
      Along(LocatorToLatLng(shifted).value, axis) == Along(LocatorToLatLng(locator).value, axis) - Span(axis, m - 1)
    ensures dir == Decrement && v <= 0 ==>
      Along(LocatorToLatLng(shifted).value, axis)
      == Along(LocatorToLatLng(locator).value, axis) - Span(axis, m - 1) + Extent(axis)
  {
    ShiftCentres(locator, shifted, axis, dir, m, v);
    CellCentreMove(axis, m, v, AxisValue(shifted, axis, m), dir);
  }

  /**
   * Two locators of m fields with the same cell index along `axis` decode
   * to the same coordinate along it after the same shift.
   */
  lemma ShiftSameAlong(a: string, sa: string, b: string, sb: string, axis: Axis, dir: Direction, m: nat)
    requires Shifted(a, axis, dir) == Ok(sa) && Shifted(b, axis, dir) == Ok(sb)
    requires m == Fields(Text.Normalize(a)) == Fields(Text.Normalize(b))
    requires AxisValue(Text.Normalize(a), axis, m) == AxisValue(Text.Normalize(b), axis, m)
    ensures LocatorToLatLng(sa).Ok? && LocatorToLatLng(sb).Ok?
    ensures Along(LocatorToLatLng(sa).value, axis) == Along(LocatorToLatLng(sb).value, axis)
  {
    ShiftIsCarry(a, sa, axis, dir, m);
    ShiftIsCarry(b, sb, axis, dir, m);
    CarrySameIndex(Text.Normalize(a), Text.Normalize(b), axis, dir, m);
    DecodeAlong(sa, axis, m);
    DecodeAlong(sb, axis, m);
  }

  /** Two m-field locators with the same cell index along `axis` keep equal indices through the same carry chain. */
  lemma CarrySameIndex(s: string, t: string, axis: Axis, dir: Direction, m: nat)
    requires IsLocator(s) && IsLocator(t) && m == Fields(s) == Fields(t)
    requires AxisValue(s, axis, m) == AxisValue(t, axis, m)
    ensures AxisValue(Carry(s, axis, dir, m - 1), axis, m) == AxisValue(Carry(t, axis, dir, m - 1), axis, m)
  {
    CarryFromFinest(s, axis, dir, m);
    CarryFromFinest(t, axis, dir, m);
  }

  /** A shift keeps the number of fields and, across the shifted axis, the cell index. */
  lemma ShiftIndexAcross(locator: string, shifted: string, axis: Axis, dir: Direction, m: nat)
    requires Shifted(locator, axis, dir) == Ok(shifted) && m == Fields(Text.Normalize(locator))
    ensures 1 <= m <= 5 && IsLocator(Text.Normalize(shifted)) && Fields(Text.Normalize(shifted)) == m
    ensures AxisValue(Text.Normalize(shifted), Across(axis), m) == AxisValue(Text.Normalize(locator), Across(axis), m)
  {
    ShiftIsCarry(locator, shifted, axis, dir, m);
    CarryKeepsAcross(Text.Normalize(locator), axis, dir, m);
  }
}
