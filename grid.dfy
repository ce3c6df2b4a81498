/**
 * The Maidenhead grid: five fields, each a (longitude, latitude) symbol pair.
 *
 *   field   alphabet   longitude span   latitude span
 *   1       A-R (18)   20               10
 *   2       0-9 (10)   2                1
 *   3       A-X (24)   2/24             1/24
 *   4       0-9 (10)   2/240            1/240
 *   5       A-X (24)   2/5760           1/5760
 *
 * Fields are numbered from 0 here (k = 0 is field 1). The longitude symbol of
 * field k sits at string position 2k, the latitude symbol at 2k + 1.
 */
module Grid {
  import Text

  datatype Axis = Longitude | Latitude

  datatype Option<T> = None | Some(value: T)

  /** The source's only failure: `FormatException("Invalid locator format")`. */
  datatype Result<T> = Ok(value: T) | FormatError

  /** (a * r + d) mod r is d for a digit d. */
  lemma ModOfDigit(a: int, r: int, d: int)
    requires r > 0 && 0 <= d < r
    ensures (a * r + d) % r == d && (a * r + d) / r == a
  {
    var n := a * r + d;
    var q, m := n / r, n % r;
    assert n == q * r + m && 0 <= m < r;
    assert (a - q) * r == m - d;
    if a - q >= 1 {
      MulIntAtLeast(a - q, r);
    } else if a - q <= -1 {
      MulIntAtLeast(q - a, r);
    }
  }

  lemma MulIntAtLeast(a: int, r: int)
    requires a >= 1 && r > 0
    ensures a * r >= r
  {
  }

  /** Symbols per axis in field k: A-R, 0-9, A-X, 0-9, A-X. */
  function Radix(k: nat): int
    requires k < 5
  {
    if k == 0 then 18 else if k % 2 == 1 then 10 else 24
  }

  /** First symbol of field k's alphabet, as the source's regular expressions write it. */
  function BaseChar(k: nat): char
  {
    if k % 2 == 0 then 'A' else '0'
  }

  /** The character class of field k: `[A-R]`, `[0-9]` or `[A-X]`. */
  predicate ValidSymbol(k: nat, c: char)
  {
    if k == 0 then 'A' <= c <= 'R'
    else if k % 2 == 1 then '0' <= c <= '9'
    else 'A' <= c <= 'X'
  }

  /** Position of a symbol in its alphabet (`c - 'A'` or `c - '0'` in the source). */
  function SymbolIndex(k: nat, c: char): int
  {
    c as int - BaseChar(k) as int
  }

  /** The upper-case symbol of field k with the given index. */
  function SymbolChar(k: nat, index: int): (c: char)
    requires k < 5 && 0 <= index < Radix(k)
    ensures ValidSymbol(k, c) && SymbolIndex(k, c) == index
  {
    (BaseChar(k) as int + index) as char
  }

  lemma ValidSymbolIndex(k: nat, c: char)
    requires k < 5
    ensures ValidSymbol(k, c) <==> 0 <= SymbolIndex(k, c) < Radix(k)
    ensures ValidSymbol(k, c) ==> SymbolChar(k, SymbolIndex(k, c)) == c
  {
  }

  /** String position of the `axis` symbol of field k. */
  function Pos(axis: Axis, k: nat): nat
  {
    if axis == Longitude then 2 * k else 2 * k + 1
  }

  function AxisOf(i: nat): Axis
  {
    if i % 2 == 0 then Longitude else Latitude
  }

  /** The symbol at Pos(axis, k) belongs to field k and to `axis`. */
  lemma PosAxis(axis: Axis, k: nat)
    ensures AxisOf(Pos(axis, k)) == axis && Pos(axis, k) / 2 == k
  {
  }

  /**
   * The regular expression with `fields` symbol pairs, anchored at both ends:
   * `^[A-R]{2}[0-9]{2}$` for 2 fields up to
   * `^[A-R]{2}[0-9]{2}[A-X]{2}[0-9]{2}[A-X]{2}$` for 5.
   */
  predicate MatchesPattern(s: string, fields: nat)
  {
    |s| == 2 * fields && forall i | 0 <= i < |s| :: ValidSymbol(i / 2, s[i])
  }

  /** A well-formed, upper-case locator of 2 to 5 fields. */
  predicate IsLocator(s: string)
  {
    (|s| == 4 || |s| == 6 || |s| == 8 || |s| == 10) && forall i | 0 <= i < |s| :: ValidSymbol(i / 2, s[i])
  }

  /** Number of fields of a locator. */
  function Fields(s: string): nat
  {
    |s| / 2
  }

  lemma LocatorIsNormal(s: string)
    requires IsLocator(s)
    ensures Text.Normalize(s) == s
  {
    forall i | 0 <= i < |s|
      ensures !Text.IsLowerLetter(s[i]) && !Text.IsWhiteSpace(s[i])
    {
      assert ValidSymbol(i / 2, s[i]);
    }
    Text.NormalizeIdentity(s);
  }

  /** Index of the `axis` symbol of field k. */
  function Digit(s: string, axis: Axis, k: nat): int
    requires 2 * k + 1 < |s|
  {
    SymbolIndex(k, s[Pos(axis, k)])
  }

  /** Number of cells along one axis at a precision of m fields: 1, 18, 180, 4320, 43200, 1036800. */
  function Total(m: nat): int
    requires m <= 5
  {
    if m == 0 then 1 else if m == 1 then 18 else if m == 2 then 180
    else if m == 3 then 4320 else if m == 4 then 43200 else 1036800
  }

  /** Each field multiplies the number of cells by its radix. */
  lemma TotalStep(m: nat)
    requires m < 5
    ensures Total(m + 1) == Total(m) * Radix(m)
  {
  }

  /**
   * Index, counted from the south (or west) edge of the grid, of the cell the
   * first m fields of s name along `axis`: the mixed-radix number whose digits
   * are the axis symbols of fields 1..m.
   */
  function AxisValue(s: string, axis: Axis, m: nat): int
    requires m <= 5 && 2 * m <= |s|
  {
    if m == 0 then 0
    else AxisValue(s, axis, m - 1) * Radix(m - 1) + Digit(s, axis, m - 1)
  }

  /** Extent of one cell of field k along `axis`, in degrees. */
  function Span(axis: Axis, k: nat): real
    requires k < 5
  {
    var lon :=
      if k == 0 then 20.0 else if k == 1 then 2.0 else if k == 2 then 1.0 / 12.0
      else if k == 3 then 1.0 / 120.0 else 1.0 / 2880.0;
    if axis == Longitude then lon else lon / 2.0
  }

  lemma SpanPositive(axis: Axis, k: nat)
    requires k < 5
    ensures Span(axis, k) > 0.0
  {
  }

  lemma SpanValues()
    ensures Span(Longitude, 0) == 20.0 && Span(Latitude, 0) == 10.0
    ensures Span(Longitude, 1) == 2.0 && Span(Latitude, 1) == 1.0
    ensures Span(Longitude, 2) == 1.0 / 12.0 && Span(Latitude, 2) == 1.0 / 24.0
    ensures Span(Longitude, 3) == 1.0 / 120.0 && Span(Latitude, 3) == 1.0 / 240.0
    ensures Span(Longitude, 4) == 1.0 / 2880.0 && Span(Latitude, 4) == 1.0 / 5760.0
  {
  }

  /** Extent of the whole grid along `axis`: 360 degrees of longitude, 180 of latitude. */
  function Extent(axis: Axis): real
  {
    if axis == Longitude then 360.0 else 180.0
  }

  /** The spans refine each other: a field-k cell holds Radix(k + 1) cells of field k + 1. */
  lemma SpanRefines(axis: Axis, k: nat)
    requires k < 4
    ensures Span(axis, k) == Span(axis, k + 1) * Radix(k + 1) as real
  {
  }

  /** Total(m) cells of the finest present field cover the whole axis. */
  lemma TotalCoversExtent(axis: Axis, m: nat)
    requires 1 <= m <= 5
    ensures Total(m) as real * Span(axis, m - 1) == Extent(axis)
  {
  }

  /** The axis value of a well-formed prefix is a cell index: 0 <= value < Total(m). */
  lemma {:induction false} AxisValueBounds(s: string, axis: Axis, m: nat)
    requires m <= 5 && 2 * m <= |s|
    requires forall k | 0 <= k < m :: ValidSymbol(k, s[Pos(axis, k)])
    ensures 0 <= AxisValue(s, axis, m) < Total(m)
  {
    if m > 0 {
      AxisValueBounds(s, axis, m - 1);
      TotalStep(m - 1);
      var p := AxisValue(s, axis, m - 1);
      var r := Radix(m - 1);
      var d := SymbolIndex(m - 1, s[Pos(axis, m - 1)]);
      assert ValidSymbol(m - 1, s[Pos(axis, m - 1)]);
      assert 0 <= d < r;
      assert p <= Total(m - 1) - 1;
      assert p * r <= (Total(m - 1) - 1) * r;
    }
  }

  /** The axis value of a locator at its own precision is one of its Total(m) cells. */
  lemma LocatorAxisBounds(s: string, axis: Axis, m: nat)
    requires IsLocator(s) && m == Fields(s)
    ensures 2 <= m <= 5 && 0 <= AxisValue(s, axis, m) < Total(m)
  {
    LocatorAxisSymbols(s, axis);
    AxisValueBounds(s, axis, m);
  }

  /** The axis value depends only on the axis symbols of the first m fields. */
  lemma {:induction false} AxisValueFrame(s: string, t: string, axis: Axis, m: nat)
    requires m <= 5 && 2 * m <= |s| && 2 * m <= |t|
    requires forall k | 0 <= k < m :: s[Pos(axis, k)] == t[Pos(axis, k)]
    ensures AxisValue(s, axis, m) == AxisValue(t, axis, m)
  {
    if m > 0 {
      AxisValueFrame(s, t, axis, m - 1);
    }
  }

  /** Distinct symbol strings give distinct axis values: the value determines every axis symbol. */
  lemma {:induction false} AxisValueInjective(s: string, t: string, axis: Axis, m: nat)
    requires m <= 5 && 2 * m <= |s| && 2 * m <= |t|
    requires forall k | 0 <= k < m :: ValidSymbol(k, s[Pos(axis, k)]) && ValidSymbol(k, t[Pos(axis, k)])
    requires AxisValue(s, axis, m) == AxisValue(t, axis, m)
    ensures forall k | 0 <= k < m :: s[Pos(axis, k)] == t[Pos(axis, k)]
  {
    if m > 0 {
      var r := Radix(m - 1);
      var ds := SymbolIndex(m - 1, s[Pos(axis, m - 1)]);
      var dt := SymbolIndex(m - 1, t[Pos(axis, m - 1)]);
      assert ValidSymbol(m - 1, s[Pos(axis, m - 1)]) && ValidSymbol(m - 1, t[Pos(axis, m - 1)]);
      var ps := AxisValue(s, axis, m - 1);
      var pt := AxisValue(t, axis, m - 1);
      assert ps * r + ds == pt * r + dt;
      assert ps == pt && ds == dt;
      ValidSymbolIndex(m - 1, s[Pos(axis, m - 1)]);
      ValidSymbolIndex(m - 1, t[Pos(axis, m - 1)]);
      AxisValueInjective(s, t, axis, m - 1);
    }
  }

  /** Two locators of one length with the same cell index on both axes are the same locator. */
  lemma LocatorExtensionality(s: string, t: string)
    requires IsLocator(s) && IsLocator(t) && |s| == |t|
    requires AxisValue(s, Longitude, Fields(s)) == AxisValue(t, Longitude, Fields(t))
    requires AxisValue(s, Latitude, Fields(s)) == AxisValue(t, Latitude, Fields(t))
    ensures s == t
  {
    var m := Fields(s);
    LocatorAxisSymbols(s, Longitude);
    LocatorAxisSymbols(t, Longitude);
    LocatorAxisSymbols(s, Latitude);
    LocatorAxisSymbols(t, Latitude);
    AxisValueInjective(s, t, Longitude, m);
    AxisValueInjective(s, t, Latitude, m);
    forall i | 0 <= i < |s| ensures s[i] == t[i] {
      assert i == Pos(AxisOf(i), i / 2);
    }
  }

  /** Every axis symbol of a locator is in its field's alphabet. */
  lemma LocatorAxisSymbols(s: string, axis: Axis)
    requires IsLocator(s)
    ensures forall k | 0 <= k < Fields(s) :: ValidSymbol(k, s[Pos(axis, k)])
  {
    forall k | 0 <= k < Fields(s) ensures ValidSymbol(k, s[Pos(axis, k)]) {
      assert Pos(axis, k) / 2 == k;
    }
  }
}
