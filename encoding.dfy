/**
 * Coordinate-to-locator encoding (`LatLngToLocator`), over exact reals.
 *
 * The source digitises lat + 90 and lon + 180 field by field: it emits the
 * floor of the remainder in units of the field's span, then keeps the
 * remainder modulo that span (`Math.IEEERemainder`, plus one span when
 * negative). `Encoded` states the result in closed form: the symbol of
 * field k is floor(x / span_k) reduced modulo the field's radix.
 */
module Encoding {
  import opened Grid
  import opened Decoding
  import Text

  /** Round to the nearest integer, ties to the even one: the quotient rounding of `Math.IEEERemainder`. */
  function RoundHalfEven(q: real): (n: int)
    ensures n == q.Floor || n == q.Floor + 1
    ensures q - 0.5 <= n as real <= q + 0.5
  {
    var f := q.Floor;
    var frac := q - f as real;
    if frac < 0.5 then f
    else if frac > 0.5 then f + 1
    else if f % 2 == 0 then f
    else f + 1
  }

  /** `Math.IEEERemainder(x, y)` for y > 0: x - y * round(x / y), a value in [-y/2, y/2]. */
  function IEEERemainder(x: real, y: real): real
    requires y > 0.0
  {
    x - y * RoundHalfEven(x / y) as real
  }

  /** The exact remainder of x by y on reals: x - y * floor(x / y). */
  function Mod(x: real, y: real): real
    requires y > 0.0
  {
    x - y * (x / y).Floor as real
  }

  lemma MulLess(a: real, b: real, c: real)
    requires a < b && c > 0.0
    ensures a * c < b * c
  {
  }

  lemma MulAtMost(a: real, b: real, c: real)
    requires a <= b && c > 0.0
    ensures a * c <= b * c
  {
  }

  lemma DivBounds(x: real, s: real, lo: real, hi: real)
    requires s > 0.0
    requires lo * s <= x < hi * s
    ensures lo <= x / s < hi
  {
    var q := x / s;
    assert q * s == x;
    if q < lo {
      MulLess(q, lo, s);
    }
    if q >= hi {
      MulAtMost(hi, q, s);
    }
  }

  /**
   * The source's two-step reduction `x = IEEERemainder(x, y); if (x < 0) x += y;`
   * is the exact remainder.
   */
  lemma RemainderThenAdjust(x: real, y: real)
    requires y > 0.0
    ensures var r := IEEERemainder(x, y); (if r < 0.0 then r + y else r) == Mod(x, y)
  {
    var f := (x / y).Floor;
    ModRange(x, y);
    ScaleSum(f, 1, y);
  }

  /** floor(x / s) is the n with n * s <= x < (n + 1) * s. */
  lemma FloorFromBounds(x: real, s: real, n: int)
    requires s > 0.0
    requires n as real * s <= x < (n + 1) as real * s
    ensures (x / s).Floor == n
  {
    DivBounds(x, s, n as real, (n + 1) as real);
  }

  /** Dividing by a positive integer commutes with the floor: floor(y / r) == floor(y) / r. */
  lemma FloorDiv(y: real, r: int)
    requires r > 0
    ensures (y / r as real).Floor == y.Floor / r
  {
    var n := y.Floor;
    var q := n / r;
    assert q * r <= n < q * r + r;
    assert (q * r) as real == q as real * r as real;
    assert ((q + 1) * r) as real == (q + 1) as real * r as real;
    FloorFromBounds(y, r as real, q);
  }

  lemma DivScaled(x: real, s: real, r: real)
    requires s > 0.0 && r > 0.0
    ensures x / (r * s) == (x / s) / r
  {
    var y := x / s;
    assert y * s == x;
    assert (y / r) * r == y;
    assert (y / r) * (r * s) == x;
  }

  lemma DivShift(a: real, b: real, s: real)
    requires s > 0.0
    ensures (a - b * s) / s == a / s - b
  {
    assert (a / s) * s == a;
    assert (a / s - b) * s == a - b * s;
  }

  /** The floor of x / s counts the whole spans s in x. */
  lemma FloorBounds(x: real, s: real)
    requires s > 0.0
    ensures (x / s).Floor as real * s <= x < ((x / s).Floor + 1) as real * s
  {
    var q := x / s;
    var f := q.Floor;
    assert q * s == x;
    assert f as real <= q < (f + 1) as real;
    MulAtMost(f as real, q, s);
    MulLess(q, (f + 1) as real, s);
    assert x < (f + 1) as real * s;
  }

  /** The remainder is at least 0 and below the divisor. */
  lemma ModRange(x: real, y: real)
    requires y > 0.0
    ensures 0.0 <= Mod(x, y) < y
  {
    var f := (x / y).Floor;
    FloorBounds(x, y);
    ScaleSum(f, 1, y);
  }

  /** When n whole spans y fit in x and n + 1 do not, n is the floor and x - n y the remainder. */
  lemma ModFromBounds(x: real, y: real, n: int)
    requires y > 0.0
    requires n as real * y <= x < (n + 1) as real * y
    ensures (x / y).Floor == n && Mod(x, y) == x - y * n as real
  {
    FloorFromBounds(x, y, n);
  }

  /** Integer bounds scale by a positive real. */
  lemma ScaleIntBounds(a: int, b: int, s: real)
    requires a <= b && s > 0.0
    ensures a as real * s <= b as real * s
  {
    MulAtMost(a as real, b as real, s);
  }

  /** The product of an integer count of r-spans of s is a count of s-spans. */
  lemma ScaleProduct(q: int, r: int, s: real)
    ensures q as real * (r as real * s) == (q * r) as real * s
    ensures (q + 1) as real * (r as real * s) == (q * r + r) as real * s
  {
    assert (q + 1) * r == q * r + r;
  }

  /** n = floor(x / s) whole spans s lie in x and n = q r + m with 0 <= m < r, so q whole spans r s do. */
  lemma QuotientBounds(x: real, s: real, r: int, n: int, q: int, m: int)
    requires s > 0.0 && r > 0 && n == (x / s).Floor && n == q * r + m && 0 <= m < r
    ensures q as real * (r as real * s) <= x < (q + 1) as real * (r as real * s)
  {
    FloorBounds(x, s);
    ScaleProduct(q, r, s);
    ScaleIntBounds(q * r, n, s);
    ScaleIntBounds(n + 1, q * r + r, s);
  }

  /** What is left of x after q whole spans r s is m whole spans s and less than one more. */
  lemma RemainderBounds(x: real, s: real, r: int, n: int, q: int, m: int)
    requires s > 0.0 && r > 0 && n == (x / s).Floor && n == q * r + m && 0 <= m < r
    ensures var z := x - (r as real * s) * q as real;
      m as real * s <= z < (m + 1) as real * s && z - s * m as real == x - s * n as real
  {
    FloorBounds(x, s);
    ScaleSum(n, 1, s);
    ScaleProduct(q, r, s);
    ScaleSum(q * r, m, s);
    ScaleSum(m, 1, s);
  }

  /**
   * Floor and remainder of the remainder: reducing modulo r * s first does not
   * change the value modulo s, and the floor in units of s is reduced modulo r.
   */
  lemma FloorOfMod(x: real, s: real, r: int)
    requires s > 0.0 && r > 0
    ensures (Mod(x, r as real * s) / s).Floor == (x / s).Floor % r
    ensures Mod(Mod(x, r as real * s), s) == Mod(x, s)
  {
    var rs := r as real * s;
    var n := (x / s).Floor;
    var q, m := n / r, n % r;
    assert n == q * r + m && 0 <= m < r;
    QuotientBounds(x, s, r, n, q, m);
    ModFromBounds(x, rs, q);
    var z := x - rs * q as real;
    RemainderBounds(x, s, r, n, q, m);
    ModFromBounds(z, s, m);
    FloorBounds(x, s);
    ModFromBounds(x, s, n);
  }

  lemma ScaleSum(a: int, b: int, s: real)
    ensures a as real * s + b as real * s == (a + b) as real * s
  {
  }

  /** `base + n` as a character, for the small offsets the encoder adds. */
  function Chr(base: char, n: int): char
    requires (base == 'A' || base == 'a' || base == '0') && 0 <= n < 26
  {
    (base as int + n) as char
  }

  /** Number of fields `LatLngToLocator` emits: 3, one more for Ext >= 1, one more for Ext >= 2. */
  function EncodedFields(ext: int): nat
  {
    if ext >= 2 then 5 else if ext >= 1 then 4 else 3
  }

  /** The character written for index i of field k: field 1 upper case, fields 3 and 5 lower case. */
  function OutputChar(k: nat, i: int): char
    requires k < 5 && 0 <= i < Radix(k)
  {
    Chr(OutputBase(k), i)
  }

  /** Distance of a point from the south (latitude) or west (longitude) edge of the grid. */
  function Offset(lat: real, lon: real, axis: Axis): real
  {
    if axis == Longitude then lon + 180.0 else lat + 90.0
  }

  /** Index of field k along `axis`: the offset in whole field-k spans, modulo the field's radix. */
  function FieldIndex(lat: real, lon: real, axis: Axis, k: nat): int
    requires k < 5
  {
    (Offset(lat, lon, axis) / Span(axis, k)).Floor % Radix(k)
  }

  /** The locator of the given number of fields whose cell holds (lat, lon), in the encoder's letter case. */
  function Encoded(lat: real, lon: real, fields: nat): string
    requires fields <= 5
  {
    seq(2 * fields, i requires 0 <= i < 2 * fields =>
      OutputChar(i / 2, FieldIndex(lat, lon, AxisOf(i), i / 2)))
  }

  lemma EncodedGrows(lat: real, lon: real, k: nat)
    requires k < 5
    ensures Encoded(lat, lon, k + 1) ==
      Encoded(lat, lon, k)
      + [OutputChar(k, FieldIndex(lat, lon, Longitude, k)), OutputChar(k, FieldIndex(lat, lon, Latitude, k))]
  {
    assert (2 * k) / 2 == k && (2 * k + 1) / 2 == k;
  }

  /** Lower-case or upper-case first symbol the encoder uses for field k. */
  function OutputBase(k: nat): char
  {
    if k == 0 then 'A' else if k % 2 == 1 then '0' else 'a'
  }

  /**
   * One field of the encoder: when the running remainder is the offset modulo
   * the previous field's span, the floor of the remainder in this field's
   * spans is this field's index, and the new remainder is the offset modulo
   * this field's span.
   */
  lemma FieldStep(lat: real, lon: real, axis: Axis, k: nat, rem: real)
    requires 1 <= k < 5 && rem == Mod(Offset(lat, lon, axis), Span(axis, k - 1))
    ensures 0 <= (rem / Span(axis, k)).Floor < Radix(k)
    ensures Chr(OutputBase(k), (rem / Span(axis, k)).Floor) == OutputChar(k, FieldIndex(lat, lon, axis, k))
    ensures Mod(rem, Span(axis, k)) == Mod(Offset(lat, lon, axis), Span(axis, k))
  {
    var x := Offset(lat, lon, axis);
    var sp, r := Span(axis, k), Radix(k);
    assert Span(axis, k - 1) == r as real * sp by {
      SpanRefines(axis, k - 1);
    }
    FloorOfMod(x, sp, r);
    assert (rem / sp).Floor == FieldIndex(lat, lon, axis, k);
  }

  /** Multiplying by the reciprocal of a span, as the source writes it, is dividing by the span. */
  lemma SpanScales(x: real, y: real)
    ensures x * 12.0 == x / Span(Longitude, 2) && y * 24.0 == y / Span(Latitude, 2)
    ensures x * 120.0 == x / Span(Longitude, 3) && y * 240.0 == y / Span(Latitude, 3)
    ensures x * 120.0 * 24.0 == x / Span(Longitude, 4) && y * 240.0 * 24.0 == y / Span(Latitude, 4)
  {
  }

  /** The first field: the offset in whole field-1 spans, already below 18. */
  lemma FirstField(lat: real, lon: real, axis: Axis)
    requires -90.0 <= lat < 90.0 && -180.0 <= lon < 180.0
    ensures 0 <= (Offset(lat, lon, axis) / Span(axis, 0)).Floor < 18
    ensures Chr('A', (Offset(lat, lon, axis) / Span(axis, 0)).Floor) == OutputChar(0, FieldIndex(lat, lon, axis, 0))
  {
  }

  /** The encoder's first two characters, from the offsets of a point inside the grid. */
  lemma AppendFirstField(lat: real, lon: real)
    requires -90.0 <= lat < 90.0 && -180.0 <= lon < 180.0
    ensures 0 <= ((lon + 180.0) / 20.0).Floor < 18 && 0 <= ((lat + 90.0) / 10.0).Floor < 18
    ensures [Chr('A', ((lon + 180.0) / 20.0).Floor), Chr('A', ((lat + 90.0) / 10.0).Floor)] == Encoded(lat, lon, 1)
  {
    FirstField(lat, lon, Longitude);
    FirstField(lat, lon, Latitude);
    EncodedGrows(lat, lon, 0);
  }

  /**
   * The encoder's characters for field k: with the running remainders equal
   * to the offsets modulo the previous field's spans, appending the floors of
   * the remainders in this field's spans extends the k-field encoding to
   * k + 1 fields, and the remainders modulo this field's spans are the
   * offsets modulo them.
   */
  lemma AppendField(lat: real, lon: real, k: nat, loc: string, lonRem: real, latRem: real)
    requires 1 <= k < 5 && loc == Encoded(lat, lon, k)
    requires lonRem == Mod(Offset(lat, lon, Longitude), Span(Longitude, k - 1))
    requires latRem == Mod(Offset(lat, lon, Latitude), Span(Latitude, k - 1))
    ensures 0 <= (lonRem / Span(Longitude, k)).Floor < Radix(k)
    ensures 0 <= (latRem / Span(Latitude, k)).Floor < Radix(k)
    ensures loc + [Chr(OutputBase(k), (lonRem / Span(Longitude, k)).Floor)]
      + [Chr(OutputBase(k), (latRem / Span(Latitude, k)).Floor)] == Encoded(lat, lon, k + 1)
    ensures Mod(lonRem, Span(Longitude, k)) == Mod(Offset(lat, lon, Longitude), Span(Longitude, k))
    ensures Mod(latRem, Span(Latitude, k)) == Mod(Offset(lat, lon, Latitude), Span(Latitude, k))
  {
    FieldStep(lat, lon, Longitude, k, lonRem);
    FieldStep(lat, lon, Latitude, k, latRem);
    EncodedGrows(lat, lon, k);
  }

  /** `x = Math.IEEERemainder(x, y); if (x < 0) x += y;`: the exact remainder of x by y. */
  method Reduce(x: real, y: real) returns (r: real)
    requires y > 0.0
    ensures r == Mod(x, y)
  {
    RemainderThenAdjust(x, y);
    r := IEEERemainder(x, y);
    if r < 0.0 {
      r := r + y;
    }
  }

  /**
   * The encoder's state after k fields: the locator so far is the k-field
   * encoding, and the running remainders are the offsets modulo the field-k
   * spans.
   */
  predicate Progress(lat: real, lon: real, k: nat, locator: string, lonRem: real, latRem: real)
    requires 1 <= k <= 5
  {
    locator == Encoded(lat, lon, k)
    && lonRem == Mod(Offset(lat, lon, Longitude), Span(Longitude, k - 1))
    && latRem == Mod(Offset(lat, lon, Latitude), Span(Latitude, k - 1))
  }

  /** The encoder's first field, as the source computes it: whole 20 and 10 degree spans. */
  lemma EncodeField1(lat: real, lon: real)
    requires -90.0 <= lat < 90.0 && -180.0 <= lon < 180.0
    ensures 0 <= ((lon + 180.0) / 20.0).Floor < 18 && 0 <= ((lat + 90.0) / 10.0).Floor < 18
    ensures Progress(lat, lon, 1, "" + [Chr('A', ((lon + 180.0) / 20.0).Floor)] + [Chr('A', ((lat + 90.0) / 10.0).Floor)],
      Mod(lon + 180.0, 20.0), Mod(lat + 90.0, 10.0))
  {
    AppendFirstField(lat, lon);
    assert Span(Longitude, 0) == 20.0 && Span(Latitude, 0) == 10.0;
  }

  /** The second field: whole 2 and 1 degree spans of the remainders. */
  lemma EncodeField2(lat: real, lon: real, locator: string, lonRem: real, latRem: real)
    requires Progress(lat, lon, 1, locator, lonRem, latRem)
    ensures 0 <= (lonRem / 2.0).Floor < 10 && 0 <= (latRem / 1.0).Floor < 10
    ensures Progress(lat, lon, 2, locator + [Chr('0', (lonRem / 2.0).Floor)] + [Chr('0', (latRem / 1.0).Floor)],
      Mod(lonRem, 2.0), Mod(latRem, 1.0))
  {
    AppendField(lat, lon, 1, locator, lonRem, latRem);
    assert Span(Longitude, 1) == 2.0 && Span(Latitude, 1) == 1.0;
  }

  /** The third field: the remainders times 12 and 24, the subsquares per degree. */
  lemma EncodeField3(lat: real, lon: real, locator: string, lonRem: real, latRem: real)
    requires Progress(lat, lon, 2, locator, lonRem, latRem)
    ensures 0 <= (lonRem * 12.0).Floor < 24 && 0 <= (latRem * 24.0).Floor < 24
    ensures Progress(lat, lon, 3, locator + [Chr('a', (lonRem * 12.0).Floor)] + [Chr('a', (latRem * 24.0).Floor)],
      Mod(lonRem, 1.0 / 12.0), Mod(latRem, 1.0 / 24.0))
  {
    AppendField(lat, lon, 2, locator, lonRem, latRem);
    SpanScales(lonRem, latRem);
    assert Span(Longitude, 2) == 1.0 / 12.0 && Span(Latitude, 2) == 1.0 / 24.0;
  }

  /** The fourth field: the remainders times 120 and 240. */
  lemma EncodeField4(lat: real, lon: real, locator: string, lonRem: real, latRem: real)
    requires Progress(lat, lon, 3, locator, lonRem, latRem)
    ensures 0 <= (lonRem * 120.0).Floor < 10 && 0 <= (latRem * 240.0).Floor < 10
    ensures Progress(lat, lon, 4, locator + [Chr('0', (lonRem * 120.0).Floor)] + [Chr('0', (latRem * 240.0).Floor)],
      Mod(lonRem, 1.0 / 120.0), Mod(latRem, 1.0 / 240.0))
  {
    AppendField(lat, lon, 3, locator, lonRem, latRem);
    SpanScales(lonRem, latRem);
    assert Span(Longitude, 3) == 1.0 / 120.0 && Span(Latitude, 3) == 1.0 / 240.0;
  }

  /** The fifth field: the remainders times 120 * 24 and 240 * 24. */
  lemma EncodeField5(lat: real, lon: real, locator: string, lonRem: real, latRem: real)
    requires Progress(lat, lon, 4, locator, lonRem, latRem)
    ensures 0 <= (lonRem * 120.0 * 24.0).Floor < 24 && 0 <= (latRem * 240.0 * 24.0).Floor < 24
    ensures Progress(lat, lon, 5,
      locator + [Chr('a', (lonRem * 120.0 * 24.0).Floor)] + [Chr('a', (latRem * 240.0 * 24.0).Floor)],
      Mod(lonRem, 1.0 / 120.0 / 24.0), Mod(latRem, 1.0 / 240.0 / 24.0))
  {
    AppendField(lat, lon, 4, locator, lonRem, latRem);
    SpanScales(lonRem, latRem);
    assert Span(Longitude, 4) == 1.0 / 120.0 / 24.0 && Span(Latitude, 4) == 1.0 / 240.0 / 24.0;
  }

  /**
   * `LatLngToLocator(Lat, Long, Ext)`: the locator of 3, 4 or 5 fields (for
   * Ext <= 0, Ext == 1, Ext >= 2) whose cell holds the point.
   */
  method LatLngToLocator(lat: real, lon: real, ext: int) returns (locator: string)
    requires -90.0 <= lat < 90.0 && -180.0 <= lon < 180.0
    ensures locator == Encoded(lat, lon, EncodedFields(ext))
  {
    var latitude, longitude := lat, lon;
    locator := "";

    latitude := latitude + 90.0;
    longitude := longitude + 180.0;

    EncodeField1(lat, lon);
    locator := locator + [Chr('A', (longitude / 20.0).Floor)];
    locator := locator + [Chr('A', (latitude / 10.0).Floor)];
    longitude := Reduce(longitude, 20.0);
    latitude := Reduce(latitude, 10.0);

    EncodeField2(lat, lon, locator, longitude, latitude);
    locator := locator + [Chr('0', (longitude / 2.0).Floor)];
    locator := locator + [Chr('0', (latitude / 1.0).Floor)];
    longitude := Reduce(longitude, 2.0);
    latitude := Reduce(latitude, 1.0);

    EncodeField3(lat, lon, locator, longitude, latitude);
    locator := locator + [Chr('a', (longitude * 12.0).Floor)];
    locator := locator + [Chr('a', (latitude * 24.0).Floor)];
    longitude := Reduce(longitude, 1.0 / 12.0);
    latitude := Reduce(latitude, 1.0 / 24.0);

    if ext >= 1 {
      EncodeField4(lat, lon, locator, longitude, latitude);
      locator := locator + [Chr('0', (longitude * 120.0).Floor)];
      locator := locator + [Chr('0', (latitude * 240.0).Floor)];
      longitude := Reduce(longitude, 1.0 / 120.0);
      latitude := Reduce(latitude, 1.0 / 240.0);
    }

    if ext >= 2 {
      EncodeField5(lat, lon, locator, longitude, latitude);
      locator := locator + [Chr('a', (longitude * 120.0 * 24.0).Floor)];
      locator := locator + [Chr('a', (latitude * 240.0 * 24.0).Floor)];
      longitude := Reduce(longitude, 1.0 / 120.0 / 24.0);
      latitude := Reduce(latitude, 1.0 / 240.0 / 24.0);
    }
  }

  /** `LatLngToLocator(Lat, Long)`: the default precision, Ext = 0, three fields. */
  method LatLngToLocatorDefault(lat: real, lon: real) returns (locator: string)
    requires -90.0 <= lat < 90.0 && -180.0 <= lon < 180.0
    ensures locator == Encoded(lat, lon, 3)
  {
    locator := LatLngToLocator(lat, lon, 0);
  }

  /** The encoder's field indices of (51.4375, -1.0417): I O 9 1 l k 4 5 x a. */
  lemma ExampleIndicesCoarse()
    ensures FieldIndex(51.4375, -1.0417, Longitude, 0) == 8 && FieldIndex(51.4375, -1.0417, Latitude, 0) == 14
    ensures FieldIndex(51.4375, -1.0417, Longitude, 1) == 9 && FieldIndex(51.4375, -1.0417, Latitude, 1) == 1
    ensures FieldIndex(51.4375, -1.0417, Longitude, 2) == 11 && FieldIndex(51.4375, -1.0417, Latitude, 2) == 10
  {
    SpanValues();
  }

  lemma ExampleIndicesFine()
    ensures FieldIndex(51.4375, -1.0417, Longitude, 3) == 4 && FieldIndex(51.4375, -1.0417, Latitude, 3) == 5
    ensures FieldIndex(51.4375, -1.0417, Longitude, 4) == 23 && FieldIndex(51.4375, -1.0417, Latitude, 4) == 0
  {
    SpanValues();
  }

  /** (51.4375, -1.0417) encodes to "IO91lk", "IO91lk45" and "IO91lk45xa" at Ext 0, 1 and 2. */
  lemma EncodeExamples()
    ensures Encoded(51.4375, -1.0417, EncodedFields(0)) == "IO91lk"
    ensures Encoded(51.4375, -1.0417, EncodedFields(1)) == "IO91lk45"
    ensures Encoded(51.4375, -1.0417, EncodedFields(2)) == "IO91lk45xa"
  {
    var lat, lon := 51.4375, -1.0417;
    ExampleIndicesCoarse();
    ExampleIndicesFine();
    EncodedGrows(lat, lon, 0);
    EncodedGrows(lat, lon, 1);
    EncodedGrows(lat, lon, 2);
    EncodedGrows(lat, lon, 3);
    EncodedGrows(lat, lon, 4);
  }
}
