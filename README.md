# Maidenhead locator library, modelled in Dafny

MaidenheadLib converts between latitude/longitude and Maidenhead grid
locators such as `IO91lk45xa`, moves a locator one finest cell north, south,
west or east, and builds a four-point polygon from a locator and its
neighbours. A locator is read in pairs, longitude first: the field (`A`–`R`,
20° × 10°), the square (`0`–`9`, 2° × 1°), the subsquare (`A`–`X`, 5' × 2.5'),
the extended square (`0`–`9`) and the extended subsquare (`A`–`X`). Valid
locators have 2, 3, 4 or 5 such pairs.

The project models the library's core, with coordinates as exact reals:

- `text.dfy` (module `Text`): the `Trim().ToUpper()` every entry point
  applies first, as ASCII trimming and upper-casing.
- `grid.dfy` (module `Grid`): the symbol tables (`Base18Ar`, `Base24Ax`,
  the digits), the four accepted patterns (`IsLocator`, `Fields`) and the
  cell index of a locator along one axis (`AxisValue`, the mixed-radix value
  of its symbols on that axis), with the span of every field.
- `decoding.dfy` (module `Decoding`): `GetLastLocatorPart` and
  `LocatorToLatLng`, whose four pattern branches are kept as written. They
  are proved to return the centre of the locator's cell (`Centre`,
  `CellCentre`).
- `encoding.dfy` (module `Encoding`): `LatLngToLocator`, a straight-line
  method that reduces the offsets with `Math.IEEERemainder` and adds the
  divisor back when the result is negative, exactly as the source does. It
  is proved equal to the closed form `Encoded`, where the symbol of field k
  is the floor of the offset over that field's span, modulo the radix.
- `roundtrip.dfy` (module `RoundTrip`): encoding a cell's centre gives the
  locator back, and decoding an encoded point gives a centre within half a
  cell of it.
- `navigator.dfy` (module `Navigator`): the four `LocatorShift*` methods.
  Each runs the source's "Check P5" .. "Check P2" blocks and the field-1
  carry (`CheckFields`). They are proved equal to the carry chain `Carry`,
  which steps the cell index on one axis by ±1 modulo the number of cells
  and leaves the other axis alone. A shift and the opposite shift undo each
  other.
- `geometry.dfy` (module `ShiftGeometry`): what a shift does to the decoded
  point. It moves one finest span along the shifted axis, or wraps by a full
  360° / 180° at the edge of the grid. The other coordinate is unchanged.
- `polygon.dfy` (module `Polygon`): `LocatorToPolygonPoints` and the shape
  of the four points it returns.

Exceptions (`FormatException`) become the `FormatError` case of a `Result`.
The polygon's "right" points are built with `LocatorShiftLeft`, as the
source does. So the four points are the centres of the locator's cell and
of the cells north, north-west and west of it, wrapping around at the edge
of the grid: on the top row the "north" cell is on the bottom row, and on
the westmost column the "west" cells are on the eastmost column. The model
keeps that behaviour and proves it (`Polygon.PolygonShape`,
`Polygon.PolygonSpacing`).

## Model

| member | source | states |
|---|---|---|
| Text.NormalizeShape | MaidenheadLib/MaidenheadLocator.cs:28 | the trimmed, upper-cased locator is no longer than the input, has no lower-case letter, and neither starts nor ends with white space |
| Text.NormalizeIdentity | MaidenheadLib/MaidenheadLocator.cs:28 | a string with no lower-case letter and no white space is left unchanged by trimming and upper-casing |
| Text.NormalizeWithoutWhiteSpace | MaidenheadLib/MaidenheadLocator.cs:28 | without white space to trim, normalising is just upper-casing |
| Text.TrimStartShape | MaidenheadLib/MaidenheadLocator.cs:28 | leading trim removes exactly a white-space prefix and leaves a suffix that does not start with white space |
| Text.TrimEndShape | MaidenheadLib/MaidenheadLocator.cs:28 | trailing trim removes exactly a white-space suffix and leaves a prefix that does not end with white space |
| Grid.SymbolChar | MaidenheadLib/MaidenheadLocator.cs:238-239 | the symbol at an index of a field's alphabet is valid for that field and has that index |
| Grid.ValidSymbolIndex | MaidenheadLib/MaidenheadLocator.cs:238-239 | a character is in a field's alphabet exactly when its index is within the field's radix, and the alphabet maps the index back to it |
| Grid.LocatorIsNormal | MaidenheadLib/MaidenheadLocator.cs:28-29 | a string matching one of the locator patterns is unchanged by `Trim().ToUpper()` |
| Grid.LocatorAxisBounds | MaidenheadLib/MaidenheadLocator.cs:29-51 | a valid locator has 2 to 5 fields and its cell index on either axis lies below the number of cells of that precision |
| Grid.AxisValueBounds | MaidenheadLib/MaidenheadLocator.cs:29-51 | symbols that are valid for their fields give a cell index between 0 and the number of cells |
| Grid.AxisValueInjective | MaidenheadLib/MaidenheadLocator.cs:29-51 | two strings of valid symbols with the same cell index on an axis have the same symbols on that axis |
| Grid.LocatorExtensionality | MaidenheadLib/MaidenheadLocator.cs:29-51 | two valid locators of one length with the same cell index on both axes are the same locator |
| Grid.SpanValues | MaidenheadLib/MaidenheadLocator.cs:84-121 | the field spans are 20°/10°, 2°/1°, 1/12°/1/24°, 1/120°/1/240° and 1/2880°/1/5760° of longitude/latitude |
| Grid.TotalCoversExtent | MaidenheadLib/MaidenheadLocator.cs:31-50 | at every precision the cells tile exactly 360° of longitude and 180° of latitude |
| Decoding.GetLastLocatorPart | MaidenheadLib/MaidenheadLocator.cs:241-256 | succeeds exactly on strings matching one of the four patterns, and then returns their number of fields, 2 to 5 |
| Decoding.LocatorToLatLng | MaidenheadLib/MaidenheadLocator.cs:26-57 | succeeds exactly when the trimmed, upper-cased input matches one of the four patterns |
| Decoding.DecodeIsCellCentre | MaidenheadLib/MaidenheadLocator.cs:26-57 | every locator decodes to the centre of its cell on both axes; anything else is a format error |
| Decoding.DecodeTwoFields | MaidenheadLib/MaidenheadLocator.cs:29-34 | the four-character branch returns the centre of the square |
| Decoding.DecodeThreeFields | MaidenheadLib/MaidenheadLocator.cs:35-40 | the six-character branch returns the centre of the subsquare |
| Decoding.DecodeFourFields | MaidenheadLib/MaidenheadLocator.cs:41-46 | the eight-character branch returns the centre of the extended square |
| Decoding.DecodeFiveFields | MaidenheadLib/MaidenheadLocator.cs:47-52 | the ten-character branch returns the centre of the extended subsquare |
| Decoding.TwoFieldCentre | MaidenheadLib/MaidenheadLocator.cs:31-32 | the branch's longitude and latitude sums equal the centre of the cell indexed by the locator's symbols |
| Decoding.ThreeFieldCentre | MaidenheadLib/MaidenheadLocator.cs:37-38 | as TwoFieldCentre, for the subsquare sums with their /12 and /24 terms |
| Decoding.FourFieldLongitude | MaidenheadLib/MaidenheadLocator.cs:43 | the eight-character longitude sum equals the centre of the cell with the locator's longitude index |
| Decoding.FourFieldLatitude | MaidenheadLib/MaidenheadLocator.cs:44 | the eight-character latitude sum equals the centre of the cell with the locator's latitude index |
| Decoding.FiveFieldLongitude | MaidenheadLib/MaidenheadLocator.cs:49 | the ten-character longitude sum equals the centre of the cell with the locator's longitude index |
| Decoding.FiveFieldLatitude | MaidenheadLib/MaidenheadLocator.cs:50 | the ten-character latitude sum equals the centre of the cell with the locator's latitude index |
| Decoding.AxisValueUnfolded | MaidenheadLib/MaidenheadLocator.cs:31-50 | the cell index is the mixed-radix number (radices 18, 10, 24, 10, 24) the decoder's sums are built on |
| Decoding.CellCentreInside | MaidenheadLib/MaidenheadLocator.cs:26-57 | the centre of any cell lies strictly inside the axis range |
| Decoding.CentreInside | MaidenheadLib/MaidenheadLocator.cs:26-57 | a locator's centre lies strictly between -90° and 90° of latitude and between -180° and 180° of longitude |
| Decoding.DecodeInside | MaidenheadLib/MaidenheadLocator.cs:26-57 | every decoded point lies strictly inside the latitude and longitude ranges |
| Decoding.DecodeExampleSubsquare | MaidenheadLibTests/UnitTest1.cs:10-15 | `IO91lk` decodes to latitude 51.4375 and longitude -25/24 (the double -1.0416666666666572 in exact terms) |
| Decoding.DecodeExampleExtendedSquare | MaidenheadLibTests/UnitTest1.cs:18-23 | `IO91lk45` decodes to 51 + 211/480 and -251/240 |
| Decoding.DecodeExampleExtendedSubsquare | MaidenheadLibTests/UnitTest1.cs:26-31 | `IO91lk45xa` decodes to 51 + 5041/11520 and -6001/5760 |
| Decoding.SubsquareIndices | MaidenheadLibTests/UnitTest1.cs:12 | `IO91LK` is a three-field locator with latitude index 3394 and longitude index 2147 |
| Decoding.ExtendedSquareIndices | MaidenheadLibTests/UnitTest1.cs:20 | `IO91LK45` is a four-field locator with indices 33945 and 21474 |
| Decoding.ExtendedSubsquareIndices | MaidenheadLibTests/UnitTest1.cs:28 | `IO91LK45XA` is a five-field locator with indices 814680 and 515399 |
| Decoding.DecodeRejectsLength | MaidenheadLib/MaidenheadLocator.cs:53-56 | a five-character string is a format error |
| Decoding.DecodeRejectsField | MaidenheadLib/MaidenheadLocator.cs:53-56 | a field letter past `R` is a format error |
| Decoding.DecodeRejectsSquare | MaidenheadLib/MaidenheadLocator.cs:53-56 | a letter where a square digit belongs is a format error |
| Decoding.DecodeNormalizes | MaidenheadLib/MaidenheadLocator.cs:28 | surrounding white space and lower case do not change the decoded point |
| Encoding.RoundHalfEven | MaidenheadLib/MaidenheadLocator.cs:86 | the quotient rounding inside `Math.IEEERemainder` is within one half of the exact quotient |
| Encoding.RemainderThenAdjust | MaidenheadLib/MaidenheadLocator.cs:86-89 | `IEEERemainder` followed by "add the divisor if negative" is the non-negative remainder |
| Encoding.Reduce | MaidenheadLib/MaidenheadLocator.cs:86-87 | one reduction step of the encoder yields the non-negative remainder of the offset by the span |
| Encoding.FloorOfMod | MaidenheadLib/MaidenheadLocator.cs:91-121 | the next symbol, taken from the remainder by the coarser span, is the finer floor modulo the radix, and reducing twice equals reducing once by the finer span |
| Encoding.EncodedGrows | MaidenheadLib/MaidenheadLocator.cs:77-123 | each field appends its longitude symbol, then its latitude symbol, to the coarser locator |
| Encoding.FieldStep | MaidenheadLib/MaidenheadLocator.cs:91-121 | from the reduced offset, the next symbol is in range and is the closed-form symbol, and the next remainder is the offset reduced by the finer span |
| Encoding.AppendFirstField | MaidenheadLib/MaidenheadLocator.cs:84-85 | the first two characters are the field letters of the shifted longitude and latitude, both within `A`–`R` |
| Encoding.AppendField | MaidenheadLib/MaidenheadLocator.cs:91-121 | appending one pair of symbols to the k-field locator gives the (k+1)-field locator and keeps both remainders in step |
| Encoding.EncodeField1 | MaidenheadLib/MaidenheadLocator.cs:81-89 | the field block leaves the encoder in step with the one-field closed form |
| Encoding.EncodeField2 | MaidenheadLib/MaidenheadLocator.cs:91-96 | the square block leaves it in step with the two-field closed form |
| Encoding.EncodeField3 | MaidenheadLib/MaidenheadLocator.cs:98-103 | the subsquare block (lower-case letters) leaves it in step with the three-field closed form |
| Encoding.EncodeField4 | MaidenheadLib/MaidenheadLocator.cs:105-113 | the `Ext >= 1` block leaves it in step with the four-field closed form |
| Encoding.EncodeField5 | MaidenheadLib/MaidenheadLocator.cs:115-123 | the `Ext >= 2` block leaves it in step with the five-field closed form |
| Encoding.LatLngToLocator | MaidenheadLib/MaidenheadLocator.cs:77-123 | returns 6, 8 or 10 characters for `Ext` up to 0, 1 and 2 or more, whose symbols are the floors of the offsets over each field's span, modulo the radix |
| Encoding.LatLngToLocatorDefault | MaidenheadLib/MaidenheadLocator.cs:65-68 | the two-argument overload returns the six-character locator |
| Encoding.ExampleIndicesCoarse | MaidenheadLibTests/UnitTest1.cs:34 | 51.4375, -1.0417 has field, square and subsquare indices I/O, 9/1, l/k |
| Encoding.ExampleIndicesFine | MaidenheadLibTests/UnitTest1.cs:37-40 | the same point has extended indices 4/5 and x/a |
| Encoding.EncodeExamples | MaidenheadLibTests/UnitTest1.cs:33-40 | 51.4375, -1.0417 encodes to `IO91lk`, `IO91lk45` and `IO91lk45xa` for `Ext` 0, 1 and 2 |
| RoundTrip.CellNested | MaidenheadLib/MaidenheadLocator.cs:26-57 | each finer field's cell lies inside the coarser field's cell |
| RoundTrip.CentreFieldIndex | MaidenheadLib/MaidenheadLocator.cs:77-123 | the encoder's index for field k of a locator's centre is that locator's symbol for field k |
| RoundTrip.CentreFloor | MaidenheadLib/MaidenheadLocator.cs:77-123 | the centre's offset over the span of field k floors to the locator's cell index at precision k+1 |
| RoundTrip.EncodeDecodeRoundTrip | MaidenheadLib/MaidenheadLocator.cs:77-123 | encoding a locator's decoded centre at its own precision returns the locator, in the encoder's case |
| RoundTrip.LocatorRoundTrip | MaidenheadLib/MaidenheadLocator.cs:77-123 | for 3 to 5 fields, `LatLngToLocator(LocatorToLatLng(s), fields - 3)` is s up to letter case, and the centre is in the encoder's input range |
| RoundTrip.EncodedDigit | MaidenheadLib/MaidenheadLocator.cs:77-123 | every symbol the encoder writes is valid for its field and has the closed-form index |
| RoundTrip.EncodedIsLocator | MaidenheadLib/MaidenheadLocator.cs:77-123 | the upper-cased output of the encoder matches the locator pattern of its length |
| RoundTrip.EncodedAxisValue | MaidenheadLib/MaidenheadLocator.cs:77-123 | the cell index of the encoder's output is the floor of the offset over the finest span written |
| RoundTrip.EncodedDecodes | MaidenheadLib/MaidenheadLocator.cs:26-57 | the encoder's output is always accepted by the decoder, which returns its cell centre |
| RoundTrip.EncodedCentreNear | MaidenheadLib/MaidenheadLocator.cs:26-57 | the input point lies within half a finest span of the centre of the cell it was encoded to |
| RoundTrip.DecodeEncode | MaidenheadLib/MaidenheadLocator.cs:26-57 | decoding `LatLngToLocator(lat, lon)` gives a point within half a cell of (lat, lon) on both axes |
| Navigator.StepSymbol | MaidenheadLib/MaidenheadLocator.cs:278-292 | one symbol step moves the index by ±1, wraps from the last symbol to the first (or back), and reports a carry exactly at the wrap |
| Navigator.StepAt | MaidenheadLib/MaidenheadLocator.cs:278-292 | stepping field k changes only that axis symbol, to the stepped symbol, and keeps the locator valid |
| Navigator.Carry | MaidenheadLib/MaidenheadLocator.cs:275-364 | the carry chain keeps the string a valid locator of the same length |
| Navigator.CarryFrame | MaidenheadLib/MaidenheadLocator.cs:275-364 | the carry chain from field k leaves the other axis and every finer field alone |
| Navigator.CheckField | MaidenheadLib/MaidenheadLocator.cs:275-292 | a block that runs steps its field's symbol and returns the carry; one that does not run changes nothing and does not carry |
| Navigator.CheckFieldStep | MaidenheadLib/MaidenheadLocator.cs:294-349 | each block, guarded by "last field, or a carry from the finer block", keeps the shift's pending carry chain one field coarser |
| Navigator.CheckFields | MaidenheadLib/MaidenheadLocator.cs:275-364 | the five blocks together compute the carry chain from the last field |
| Navigator.ShiftAxis | MaidenheadLib/MaidenheadLocator.cs:258-368 | normalise, find the last field or fail, run the blocks: the result is the shift function |
| Navigator.LocatorShiftUp | MaidenheadLib/MaidenheadLocator.cs:258-368 | the latitude symbols step forwards |
| Navigator.LocatorShiftDown | MaidenheadLib/MaidenheadLocator.cs:370-480 | the latitude symbols step backwards |
| Navigator.LocatorShiftLeft | MaidenheadLib/MaidenheadLocator.cs:482-592 | the longitude symbols step backwards |
| Navigator.LocatorShiftRight | MaidenheadLib/MaidenheadLocator.cs:594-704 | the longitude symbols step forwards |
| Navigator.CountStepIsModular | MaidenheadLib/MaidenheadLocator.cs:258-368 | the index step with wrap-around is addition of ±1 modulo the number of cells |
| Navigator.CountStepInverse | MaidenheadLib/MaidenheadLocator.cs:258-480 | stepping forwards then backwards (or the reverse) returns the original index |
| Navigator.CountStepDigits | MaidenheadLib/MaidenheadLocator.cs:278-349 | stepping a mixed-radix number: a non-edge last digit just moves, an edge digit wraps and carries into the coarser part |
| Navigator.StepDigit | MaidenheadLib/MaidenheadLocator.cs:278-292 | a field step keeps the coarser index, carries exactly at the edge symbol, and moves or wraps the digit |
| Navigator.CarryValue | MaidenheadLib/MaidenheadLocator.cs:275-364 | the carry chain from field k steps the cell index at precision k+1 by one with wrap-around |
| Navigator.CarryValueLocal | MaidenheadLib/MaidenheadLocator.cs:275-364 | CarryValue when field k does not carry on |
| Navigator.CarryValueCarried | MaidenheadLib/MaidenheadLocator.cs:275-364 | CarryValue when field k wraps and the chain continues one field coarser |
| Navigator.WrapParts | MaidenheadLib/MaidenheadLocator.cs:275-364 | a wrapping field is at its edge symbol, is reset to the opposite edge, and the coarser index is untouched by the step |
| Navigator.WrapArith | MaidenheadLib/MaidenheadLocator.cs:275-364 | a wrap from the edge digit, plus the coarser step, is the whole index step |
| Navigator.EdgeRunStep | MaidenheadLib/MaidenheadLocator.cs:275-364 | the run of edge symbols finer than field j is the same before and after a wrapping field |
| Navigator.CarryFromFinest | MaidenheadLib/MaidenheadLocator.cs:258-368 | the chain from the last field steps the full cell index with wrap-around |
| Navigator.CarryChanges | MaidenheadLib/MaidenheadLocator.cs:275-364 | field j's symbol changes exactly when every finer field was at its edge symbol |
| Navigator.CarryChangesLocal | MaidenheadLib/MaidenheadLocator.cs:275-364 | CarryChanges when the finest field stepped does not carry |
| Navigator.CarryChangesCarried | MaidenheadLib/MaidenheadLocator.cs:275-364 | CarryChanges when the finest field stepped wraps |
| Navigator.ShiftedMeaning | MaidenheadLib/MaidenheadLocator.cs:258-368 | a shift succeeds exactly on valid locators, and then moves the cell index on its axis by ±1 modulo the number of cells and keeps every symbol of the other axis |
| Navigator.ShiftedCases | MaidenheadLib/MaidenheadLocator.cs:258-368 | a shift is the carry chain on the normalised locator, or a format error |
| Navigator.ShiftedNormal | MaidenheadLib/MaidenheadLocator.cs:258-368 | on an already normal locator a shift is its carry chain |
| Navigator.CarryMeaning | MaidenheadLib/MaidenheadLocator.cs:258-368 | the whole chain steps the index modulo the number of cells and changes nothing on the other axis |
| Navigator.CarryModular | MaidenheadLib/MaidenheadLocator.cs:258-368 | the whole chain adds ±1 to the cell index modulo the number of cells |
| Navigator.CarryKeepsOtherAxis | MaidenheadLib/MaidenheadLocator.cs:258-368 | the whole chain keeps every symbol of the other axis |
| Navigator.CarryIndexInverse | MaidenheadLib/MaidenheadLocator.cs:258-480 | the opposite chain restores the cell index |
| Navigator.CarryInverse | MaidenheadLib/MaidenheadLocator.cs:258-480 | the opposite chain restores the locator |
| Navigator.SameIndicesSameLocator | MaidenheadLib/MaidenheadLocator.cs:258-368 | valid locators agreeing on both cell indices are equal |
| Navigator.ShiftInverse | MaidenheadLib/MaidenheadLocator.cs:258-480 | shifting down after up (left after right, and so on) returns the normalised locator |
| Navigator.ShiftIsCarry | MaidenheadLib/MaidenheadLocator.cs:258-368 | a successful shift is a normal locator with the same number of fields |
| Navigator.CountStepMove | MaidenheadLib/MaidenheadLocator.cs:258-368 | the index step moves by exactly ±1, or wraps from one end to the other |
| Navigator.CarryIndexMove | MaidenheadLib/MaidenheadLocator.cs:258-368 | the chain moves the cell index by ±1 or wraps it at the edge of the grid |
| Navigator.CarryKeepsAcross | MaidenheadLib/MaidenheadLocator.cs:258-368 | the chain keeps the cell index of the other axis |
| Navigator.StepAtExample | MaidenheadLib/MaidenheadLocator.cs:278-292 | a field step on a given locator is the string with that one symbol replaced |
| Navigator.ShiftUpExample | MaidenheadLib/MaidenheadLocator.cs:258-368 | up from `IO91` is `IO92` |
| Navigator.ShiftUpCarryExample | MaidenheadLib/MaidenheadLocator.cs:258-368 | up from `IO91LK54AX` is `IO91LK55AA` (X wraps to A and carries) |
| Navigator.ShiftDownCarryExample | MaidenheadLib/MaidenheadLocator.cs:370-480 | down from `IO91LK55AA` is `IO91LK54AX` |
| Navigator.ShiftRightCarryExample | MaidenheadLib/MaidenheadLocator.cs:594-704 | right from `IO91LK54XL` is `IO91LK64AL` |
| Navigator.ShiftUpWrapExample | MaidenheadLib/MaidenheadLocator.cs:350-364 | up from `JR09` is `JA00`: field R wraps to A with no error |
| ShiftGeometry.DecodeAlong | MaidenheadLib/MaidenheadLocator.cs:26-57 | a decoded coordinate is its cell's centre on that axis |
| ShiftGeometry.CentreMoveArith | MaidenheadLib/MaidenheadLocator.cs:26-57 | moving one cell moves a centre by one span, or by one span less a full extent on a wrap |
| ShiftGeometry.CellCentreMove | MaidenheadLib/MaidenheadLocator.cs:26-57 | cell centres move by ±one finest span per index step, and by a full 360° or 180° back at a wrap |
| ShiftGeometry.ShiftKeepsAcross | MaidenheadLib/MaidenheadLocator.cs:258-368 | a shift leaves the decoded coordinate of the other axis unchanged |
| ShiftGeometry.ShiftCentres | MaidenheadLib/MaidenheadLocator.cs:258-368 | a locator and its shift decode to the centres of cells whose indices differ by one step |
| ShiftGeometry.ShiftDisplacement | MaidenheadLib/MaidenheadLocator.cs:258-704 | Up/Right add one finest span to the decoded coordinate and Down/Left subtract one, except at the grid's edge where it wraps by 360° or 180° |
| ShiftGeometry.ShiftSameAlong | MaidenheadLib/MaidenheadLocator.cs:717-723 | locators with the same index on an axis still decode to the same coordinate on it after the same shift |
| ShiftGeometry.CarrySameIndex | MaidenheadLib/MaidenheadLocator.cs:258-368 | equal cell indices stay equal through the same carry chain |
| ShiftGeometry.ShiftIndexAcross | MaidenheadLib/MaidenheadLocator.cs:258-368 | a shift keeps the number of fields and the other axis's cell index |
| Polygon.PolygonShifts | MaidenheadLib/MaidenheadLocator.cs:706-727 | for a valid locator, every shift and decode the polygon performs succeeds |
| Polygon.LocatorToPolygonPoints | MaidenheadLib/MaidenheadLocator.cs:706-727 | the points are the decoded locator, its up shift, its up-then-left shift and its left shift, in that order, or the format error |
| Polygon.PolygonOfPoints | MaidenheadLib/MaidenheadLocator.cs:706-727 | the four decodes of the shifted locators, in order, are the polygon |
| Polygon.PolygonDefined | MaidenheadLib/MaidenheadLocator.cs:706-727 | the polygon exists exactly for valid locators and always has four points |
| Polygon.PolygonShape | MaidenheadLib/MaidenheadLocator.cs:706-727 | point 1 has point 0's longitude, point 3 has point 0's latitude, and point 2 has point 1's latitude and point 3's longitude |
| Polygon.UpLeftUnderLeft | MaidenheadLib/MaidenheadLocator.cs:717-723 | the up-then-left point has the longitude of the left point |
| Polygon.PolygonSpacing | MaidenheadLib/MaidenheadLocator.cs:706-727 | point 1 is one finest latitude span north of point 0 and point 3 one finest longitude span west, except on the top row, where point 1 wraps 180° less one span south, and on the westmost column, where point 3 wraps 360° less one span east |

## Left out

- `Distance`, `Azimuth`, `RadToDeg` and `DegToRad` are not modelled: they are trigonometry on binary floating point.
- Coordinates are exact reals. The binary rounding of `double` arithmetic is not modelled, so the test expectations are stated as the exact values they round from.
- `Math.IEEERemainder` is modelled on exact reals, with the quotient rounded half to even.
- Encoding.LatLngToLocator: requires -90 ≤ lat < 90 and -180 ≤ lon < 180. At latitude 90 or longitude 180 the source casts an index past `R` to a character, and further outside the range an unspecified one; that output is not modelled.
- `Trim` and `ToUpper` are modelled for ASCII only: white space is space and tab through carriage return, and only `a`–`z` change case. Unicode white space and culture-specific casing are not modelled.
- The regular expressions are replaced by per-position checks of each pattern (`Grid.MatchesPattern`). These accept the same trimmed strings: .NET's `$` also matches before a final newline, which `Trim` has already removed before every match.
- `FormatException` is modelled as the `FormatError` result. `LocatorToPolygonPoints` returns that result instead of throwing.
- The four shift methods repeat the same blocks with different constants. The model writes the blocks once (`Navigator.CheckField`, `Navigator.CheckFields`), parameterised by axis and direction.
- The comments in `LocatorShiftLeft` say "increment" where the code decrements; the model follows the code.
- Polygon points are `Coord` values rather than two-element `double` arrays.
