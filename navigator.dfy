/**
 * Grid navigation: `LocatorShiftUp`, `LocatorShiftDown`, `LocatorShiftLeft`
 * and `LocatorShiftRight`.
 *
 * Each shift steps one axis symbol of the finest present field by one place
 * in its alphabet (latitude for Up and Down, longitude for Left and Right).
 * A symbol stepped past either end of its alphabet wraps to the other end
 * and carries into the same axis of the next coarser field; field 1 wraps
 * (R to A, A to R) without carrying anywhere. Up and Right step forwards,
 * Down and Left backwards.
 */
module Navigator {
  import opened Grid
  import opened Decoding
  import Text

  datatype Direction = Increment | Decrement

  function Delta(dir: Direction): int
  {
    if dir == Increment then 1 else -1
  }

  function Opposite(dir: Direction): (o: Direction)
    ensures Delta(o) == -Delta(dir) && o != dir
  {
    if dir == Increment then Decrement else Increment
  }

  /** The symbol index a field wraps from: its last symbol going forwards, its first going backwards. */
  function Edge(dir: Direction, k: nat): int
    requires k < 5
  {
    if dir == Increment then Radix(k) - 1 else 0
  }

  /**
   * One symbol step of a "Check Pk" block: the next (or previous) symbol of
   * field k's alphabet; past the end, the symbol at the other end and a carry.
   */
  function StepSymbol(k: nat, c: char, dir: Direction): (r: (char, bool))
    requires k < 5 && ValidSymbol(k, c)
    ensures ValidSymbol(k, r.0)
    ensures r.1 <==> SymbolIndex(k, c) == Edge(dir, k)
    ensures SymbolIndex(k, r.0) ==
      if SymbolIndex(k, c) == Edge(dir, k) then Edge(Opposite(dir), k) else SymbolIndex(k, c) + Delta(dir)
  {
    ValidSymbolIndex(k, c);
    var i := SymbolIndex(k, c) + Delta(dir);
    if 0 <= i < Radix(k) then (SymbolChar(k, i), false)
    else if dir == Increment then (SymbolChar(k, 0), true)
    else (SymbolChar(k, Radix(k) - 1), true)
  }

  /** The locator with the `axis` symbol of field k stepped, and whether it wrapped. */
  function StepAt(s: string, axis: Axis, k: nat, dir: Direction): (r: (string, bool))
    requires IsLocator(s) && k < Fields(s)
    ensures IsLocator(r.0) && |r.0| == |s|
    ensures forall i | 0 <= i < |s| && i != Pos(axis, k) :: r.0[i] == s[i]
    ensures r.0[Pos(axis, k)] == StepSymbol(k, s[Pos(axis, k)], dir).0
    ensures r.1 == StepSymbol(k, s[Pos(axis, k)], dir).1
  {
    LocatorAxisSymbols(s, axis);
    var p := Pos(axis, k);
    var step := StepSymbol(k, s[p], dir);
    var t := s[p := step.0];
    assert forall i | 0 <= i < |t| :: ValidSymbol(i / 2, t[i]) by {
      forall i | 0 <= i < |t| ensures ValidSymbol(i / 2, t[i]) {
        if i == p {
          assert p / 2 == k;
        }
      }
    }
    (t, step.1)
  }

  /**
   * The carry chain started at field k: step field k and, while a field
   * wraps and a coarser field exists other than field 1's own wrap, step the
   * next coarser field. Only `axis` symbols of fields 0..k can change.
   */
  function Carry(s: string, axis: Axis, dir: Direction, k: nat): (r: string)
    requires IsLocator(s) && k < Fields(s)
    ensures IsLocator(r) && |r| == |s|
    decreases k
  {
    var step := StepAt(s, axis, k, dir);
    if step.1 && k > 0 then Carry(step.0, axis, dir, k - 1) else step.0
  }

  /** Only `axis` symbols of fields 0..k can change in a carry chain from field k. */
  lemma {:induction false} CarryFrame(s: string, axis: Axis, dir: Direction, k: nat)
    requires IsLocator(s) && k < Fields(s)
    ensures forall i | 0 <= i < |s| && !(AxisOf(i) == axis && i / 2 <= k) :: Carry(s, axis, dir, k)[i] == s[i]
    decreases k
  {
    var step := StepAt(s, axis, k, dir);
    PosAxis(axis, k);
    if step.1 && k > 0 {
      CarryFrame(step.0, axis, dir, k - 1);
    }
  }

  /**
   * What a shift in `dir` along `axis` returns: the normalised locator with
   * its carry chain run from the finest present field, or the format error.
   */
  function Shifted(locator: string, axis: Axis, dir: Direction): (r: Result<string>)
  {
    var s := Text.Normalize(locator);
    match GetLastLocatorPart(s)
    case FormatError => FormatError
    case Ok(lastPart) => Ok(Carry(s, axis, dir, lastPart - 1))
  }

  /**
   * One "Check Pk" block: when it runs, step the `axis` symbol of field k and
   * report whether it wrapped; otherwise leave the locator alone, no carry.
   */
  method CheckField(loc: string, axis: Axis, k: nat, dir: Direction, run: bool) returns (next: string, carry: bool)
    requires IsLocator(loc) && (run ==> k < Fields(loc))
    ensures run ==> k < Fields(loc) && (next, carry) == StepAt(loc, axis, k, dir)
    ensures !run ==> next == loc && !carry
  {
    next, carry := loc, false;
    if run {
      var step := StepAt(loc, axis, k, dir);
      next, carry := step.0, step.1;
    }
  }

  /**
   * The state of a shift body once the blocks for fields k .. 4 have run on
   * a locator with lastPart fields: if the finest field is among them, what
   * is left of the carry chain is the chain from field k - 1 on `loc` when
   * the last block carried, and nothing otherwise; if not, no block has run.
   */
  predicate Pending(s: string, axis: Axis, dir: Direction, lastPart: nat, k: nat, loc: string, carry: bool)
    requires IsLocator(s) && lastPart == Fields(s) && 1 <= k <= 5
    requires IsLocator(loc) && |loc| == |s|
  {
    && (lastPart > k ==> Carry(s, axis, dir, lastPart - 1) == if carry then Carry(loc, axis, dir, k - 1) else loc)
    && (lastPart <= k ==> loc == s && !carry)
  }

  /**
   * One block of the shift body, for field k, run when k is the last field
   * or the finer block carried: it keeps the shift's state Pending, one
   * field coarser.
   */
  lemma CheckFieldStep(s: string, axis: Axis, dir: Direction, lastPart: nat, k: nat,
                       loc: string, carry: bool, next: string, nextCarry: bool)
    requires IsLocator(s) && lastPart == Fields(s) && 1 <= k < 5
    requires IsLocator(loc) && |loc| == |s|
    requires Pending(s, axis, dir, lastPart, k + 1, loc, carry)
    requires var run := lastPart == k + 1 || (lastPart > k + 1 && carry);
      (run ==> (next, nextCarry) == StepAt(loc, axis, k, dir)) && (!run ==> next == loc && !nextCarry)
    ensures IsLocator(next) && |next| == |s|
    ensures Pending(s, axis, dir, lastPart, k, next, nextCarry)
  {
  }

  /**
   * The "Check P5" .. "Check P2" blocks of a shift on a well-formed locator,
   * each run when its field is the last one or the finer block carried,
   * then the field-1 block, run on a carry from field 2: the carry chain
   * from the last field.
   */
  method CheckFields(s: string, axis: Axis, dir: Direction, lastPart: nat) returns (loc: string)
    requires IsLocator(s) && lastPart == Fields(s)
    ensures loc == Carry(s, axis, dir, lastPart - 1)
  {
    loc := s;
    ghost var prev := loc;
    var p5Carry, p4Carry, p3Carry, p2Carry;
    assert Pending(s, axis, dir, lastPart, 5, loc, false);

    loc, p5Carry := CheckField(loc, axis, 4, dir, lastPart == 5);
    CheckFieldStep(s, axis, dir, lastPart, 4, prev, false, loc, p5Carry);
    prev := loc;
    loc, p4Carry := CheckField(loc, axis, 3, dir, lastPart == 4 || (lastPart > 4 && p5Carry));
    CheckFieldStep(s, axis, dir, lastPart, 3, prev, p5Carry, loc, p4Carry);
    prev := loc;
    loc, p3Carry := CheckField(loc, axis, 2, dir, lastPart == 3 || (lastPart > 3 && p4Carry));
    CheckFieldStep(s, axis, dir, lastPart, 2, prev, p4Carry, loc, p3Carry);
    prev := loc;
    loc, p2Carry := CheckField(loc, axis, 1, dir, lastPart == 2 || (lastPart > 2 && p3Carry));
    CheckFieldStep(s, axis, dir, lastPart, 1, prev, p3Carry, loc, p2Carry);

    if p2Carry {
      loc := StepAt(loc, axis, 0, dir).0;
    }
  }

  /**
   * The body every `LocatorShift*` method shares: trim and upper-case, find
   * the last field (or fail with the format error), run the field blocks.
   */
  method ShiftAxis(locator: string, axis: Axis, dir: Direction) returns (r: Result<string>)
    ensures r == Shifted(locator, axis, dir)
  {
    var s := Text.Normalize(locator);
    var part := GetLastLocatorPart(s);
    if part.FormatError? {
      return FormatError;
    }
    var lastPart := part.value;
    var loc := CheckFields(s, axis, dir, lastPart);
    return Ok(loc);
  }

  /** `LocatorShiftUp`: one finest cell north. */
  method LocatorShiftUp(locator: string) returns (r: Result<string>)
    ensures r == Shifted(locator, Latitude, Increment)
  {
    r := ShiftAxis(locator, Latitude, Increment);
  }

  /** `LocatorShiftDown`: one finest cell south. */
  method LocatorShiftDown(locator: string) returns (r: Result<string>)
    ensures r == Shifted(locator, Latitude, Decrement)
  {
    r := ShiftAxis(locator, Latitude, Decrement);
  }

  /** `LocatorShiftLeft`: one finest cell west (its symbols step backwards). */
  method LocatorShiftLeft(locator: string) returns (r: Result<string>)
    ensures r == Shifted(locator, Longitude, Decrement)
  {
    r := ShiftAxis(locator, Longitude, Decrement);
  }

  /** `LocatorShiftRight`: one finest cell east. */
  method LocatorShiftRight(locator: string) returns (r: Result<string>)
    ensures r == Shifted(locator, Longitude, Increment)
  {
    r := ShiftAxis(locator, Longitude, Increment);
  }

  /**
   * A cyclic counter step over 0 .. total - 1: forwards, total - 1 goes to 0;
   * backwards, 0 goes to total - 1.
   */
  function CountStep(v: int, total: int, dir: Direction): int
  {
    if dir == Increment then (if v + 1 == total then 0 else v + 1)
    else (if v == 0 then total - 1 else v - 1)
  }

  /** The counter step is adding Delta(dir) modulo the total. */
  lemma CountStepIsModular(v: int, total: int, dir: Direction)
    requires 0 <= v < total
    ensures CountStep(v, total, dir) == (v + Delta(dir)) % total
  {
    if v + Delta(dir) == total {
      ModOfDigit(1, total, 0);
    } else if v + Delta(dir) == -1 {
      ModOfDigit(-1, total, total - 1);
    } else {
      ModOfDigit(0, total, v + Delta(dir));
    }
  }

  /** Stepping back undoes stepping forth. */
  lemma CountStepInverse(v: int, total: int, dir: Direction)
    requires 0 <= v < total
    ensures 0 <= CountStep(v, total, dir) < total
    ensures CountStep(CountStep(v, total, dir), total, Opposite(dir)) == v
  {
  }


  /**
   * The counter arithmetic of one field: a cell index vk * r + d of a field
   * of radix r steps by stepping the digit d, and on a wrap by stepping the
   * coarser index vk as well.
   */
  lemma CountStepDigits(vk: int, tk: int, r: int, d: int, dir: Direction)
    requires 0 <= vk < tk && r > 1 && 0 <= d < r
    ensures var e := if dir == Increment then r - 1 else 0;
      d != e ==> CountStep(vk * r + d, tk * r, dir) == vk * r + (d + Delta(dir))
    ensures dir == Increment && d == r - 1 ==>
      CountStep(vk * r + d, tk * r, dir) == CountStep(vk, tk, dir) * r
    ensures dir == Decrement && d == 0 ==>
      CountStep(vk * r + d, tk * r, dir) == CountStep(vk, tk, dir) * r + (r - 1)
  {
    assert (vk + 1) * r == vk * r + r;
    assert (tk - 1) * r == tk * r - r;
    if vk + 1 < tk {
      MulIntAtLeast(tk - (vk + 1), r);
      assert (tk - (vk + 1)) * r == tk * r - (vk + 1) * r;
    }
    if vk >= 1 {
      MulIntAtLeast(vk, r);
      assert (vk - 1) * r == vk * r - r;
    }
  }

  /** Stepping field k keeps the coarser cell index and steps the digit of field k, wrapping at the edge. */
  lemma StepDigit(s: string, axis: Axis, k: nat, dir: Direction)
    requires IsLocator(s) && k < Fields(s)
    ensures 0 <= Digit(s, axis, k) < Radix(k)
    ensures 0 <= AxisValue(s, axis, k) < Total(k)
    ensures var t := StepAt(s, axis, k, dir);
      AxisValue(t.0, axis, k) == AxisValue(s, axis, k)
      && (t.1 <==> Digit(s, axis, k) == Edge(dir, k))
      && Digit(t.0, axis, k) ==
        if Digit(s, axis, k) == Edge(dir, k) then Edge(Opposite(dir), k) else Digit(s, axis, k) + Delta(dir)
  {
    var t := StepAt(s, axis, k, dir).0;
    LocatorAxisSymbols(s, axis);
    ValidSymbolIndex(k, s[Pos(axis, k)]);
    AxisValueBounds(s, axis, k);
    forall i | 0 <= i < k ensures t[Pos(axis, i)] == s[Pos(axis, i)] {
      assert Pos(axis, i) != Pos(axis, k);
    }
    AxisValueFrame(s, t, axis, k);
  }

  /**
   * Counter semantics of the carry chain: on the first k + 1 fields, the
   * axis index of the result is the input's index stepped by one, cyclically
   * over all Total(k + 1) cells of that precision.
   */
  lemma {:induction false} CarryValue(s: string, axis: Axis, dir: Direction, k: nat)
    requires IsLocator(s) && k < Fields(s)
    ensures AxisValue(Carry(s, axis, dir, k), axis, k + 1) == CountStep(AxisValue(s, axis, k + 1), Total(k + 1), dir)
    decreases k
  {
    var step := StepAt(s, axis, k, dir);
    if step.1 && k > 0 {
      CarryValue(step.0, axis, dir, k - 1);
      CarryValueCarried(s, axis, dir, k);
    } else {
      CarryValueLocal(s, axis, dir, k);
    }
  }

  /** The value of field k's cell index, one field finer than field k - 1's. */
  lemma AxisValueStep(s: string, axis: Axis, k: nat)
    requires k < 5 && 2 * k + 1 < |s|
    ensures AxisValue(s, axis, k + 1) == AxisValue(s, axis, k) * Radix(k) + Digit(s, axis, k)
  {
  }

  /** CarryValue when field k does not carry on: only its digit moves. */
  lemma CarryValueLocal(s: string, axis: Axis, dir: Direction, k: nat)
    requires IsLocator(s) && k < Fields(s)
    requires !(StepAt(s, axis, k, dir).1 && k > 0)
    ensures AxisValue(Carry(s, axis, dir, k), axis, k + 1) == CountStep(AxisValue(s, axis, k + 1), Total(k + 1), dir)
  {
    var t := StepAt(s, axis, k, dir).0;
    assert Carry(s, axis, dir, k) == t;
    StepDigit(s, axis, k, dir);
    AxisValueStep(s, axis, k);
    AxisValueStep(t, axis, k);
    TotalStep(k);
    CountStepDigits(AxisValue(s, axis, k), Total(k), Radix(k), Digit(s, axis, k), dir);
  }

  /** CarryValue when field k wraps into field k - 1, given CarryValue for the chain from k - 1. */
  lemma CarryValueCarried(s: string, axis: Axis, dir: Direction, k: nat)
    requires IsLocator(s) && 0 < k < Fields(s)
    requires StepAt(s, axis, k, dir).1
    requires var t := StepAt(s, axis, k, dir).0;
      AxisValue(Carry(t, axis, dir, k - 1), axis, k) == CountStep(AxisValue(t, axis, k), Total(k), dir)
    ensures AxisValue(Carry(s, axis, dir, k), axis, k + 1) == CountStep(AxisValue(s, axis, k + 1), Total(k + 1), dir)
  {
    var t := StepAt(s, axis, k, dir).0;
    var c := Carry(t, axis, dir, k - 1);
    assert Carry(s, axis, dir, k) == c;
    WrapParts(s, axis, dir, k);
    TotalStep(k);
    WrapArith(AxisValue(s, axis, k), Total(k), Radix(k), Digit(s, axis, k), dir);
  }

  /**
   * The cell indices around a wrap at field k: field k of the input is at the
   * edge, the coarser index is what the chain from k - 1 sees, and field k of
   * the result holds the symbol at the other edge.
   */
  lemma WrapParts(s: string, axis: Axis, dir: Direction, k: nat)
    requires IsLocator(s) && 0 < k < Fields(s)
    requires StepAt(s, axis, k, dir).1
    ensures var t := StepAt(s, axis, k, dir).0; var c := Carry(t, axis, dir, k - 1);
      && 0 <= AxisValue(s, axis, k) < Total(k)
      && Digit(s, axis, k) == Edge(dir, k)
      && AxisValue(t, axis, k) == AxisValue(s, axis, k)
      && AxisValue(s, axis, k + 1) == AxisValue(s, axis, k) * Radix(k) + Digit(s, axis, k)
      && AxisValue(c, axis, k + 1) == AxisValue(c, axis, k) * Radix(k) + Edge(Opposite(dir), k)
  {
    var t := StepAt(s, axis, k, dir).0;
    var c := Carry(t, axis, dir, k - 1);
    StepDigit(s, axis, k, dir);
    assert Digit(c, axis, k) == Digit(t, axis, k) by {
      CarryFrame(t, axis, dir, k - 1);
      PosAxis(axis, k);
    }
    AxisValueStep(s, axis, k);
    AxisValueStep(c, axis, k);
  }

  /** The counter arithmetic of a wrapping field: the coarser index steps and the digit jumps to the other edge. */
  lemma WrapArith(vk: int, tk: int, r: int, d: int, dir: Direction)
    requires 0 <= vk < tk && r > 1 && d == (if dir == Increment then r - 1 else 0)
    ensures CountStep(vk, tk, dir) * r + (if dir == Increment then 0 else r - 1) == CountStep(vk * r + d, tk * r, dir)
  {
    CountStepDigits(vk, tk, r, d, dir);
  }

  /** Every field j + 1 .. k has its `axis` digit at the edge it wraps from. */
  predicate AtEdge(s: string, axis: Axis, dir: Direction, j: nat, k: nat)
    requires k < 5 && 2 * k + 1 < |s|
  {
    forall i | j < i <= k :: Digit(s, axis, i) == Edge(dir, i)
  }

  /** A run of edge digits above field j ending at field k, whose field k is at the edge, is a run ending at k - 1. */
  lemma EdgeRunStep(s: string, t: string, axis: Axis, dir: Direction, j: nat, k: nat)
    requires j < k < 5 && 2 * k + 1 < |s| && |t| == |s|
    requires forall i | j < i < k :: Digit(t, axis, i) == Digit(s, axis, i)
    requires Digit(s, axis, k) == Edge(dir, k)
    ensures AtEdge(s, axis, dir, j, k) <==> AtEdge(t, axis, dir, j, k - 1)
  {
  }

  /** CarryValue for the full chain from the finest present field, the m-th. */
  lemma CarryFromFinest(s: string, axis: Axis, dir: Direction, m: nat)
    requires IsLocator(s) && m == Fields(s)
    ensures 1 <= m <= 5 && 0 <= AxisValue(s, axis, m) < Total(m)
    ensures AxisValue(Carry(s, axis, dir, m - 1), axis, m) == CountStep(AxisValue(s, axis, m), Total(m), dir)
  {
    LocatorAxisBounds(s, axis, m);
    CarryValue(s, axis, dir, m - 1);
  }

  /**
   * A carry chain from field k changes the `axis` symbol of a coarser field
   * j exactly when every field between them, j + 1 .. k, sat at its wrapping
   * edge. Field k itself always changes.
   */
  lemma {:induction false} CarryChanges(s: string, axis: Axis, dir: Direction, k: nat, j: nat)
    requires IsLocator(s) && j <= k < Fields(s)
    ensures Carry(s, axis, dir, k)[Pos(axis, j)] != s[Pos(axis, j)]
      <==> AtEdge(s, axis, dir, j, k)
    decreases k
  {
    var step := StepAt(s, axis, k, dir);
    if j < k && step.1 {
      CarryChanges(step.0, axis, dir, k - 1, j);
      CarryChangesCarried(s, axis, dir, k, j);
    } else {
      CarryChangesLocal(s, axis, dir, k, j);
    }
  }

  /** CarryChanges when the chain stops at field k or j is field k itself. */
  lemma CarryChangesLocal(s: string, axis: Axis, dir: Direction, k: nat, j: nat)
    requires IsLocator(s) && j <= k < Fields(s)
    requires !(j < k && StepAt(s, axis, k, dir).1)
    ensures Carry(s, axis, dir, k)[Pos(axis, j)] != s[Pos(axis, j)]
      <==> AtEdge(s, axis, dir, j, k)
  {
    var step := StepAt(s, axis, k, dir);
    var t := step.0;
    var c := Carry(s, axis, dir, k);
    var p := Pos(axis, k);
    PosAxis(axis, k);
    if j == k {
      if step.1 && k > 0 {
        CarryFrame(t, axis, dir, k - 1);
      }
      assert c[p] == t[p];
    } else {
      assert c == t;
      assert Digit(s, axis, k) != Edge(dir, k);
      assert c[Pos(axis, j)] == s[Pos(axis, j)];
    }
  }

  /** CarryChanges when field k wraps into field k - 1, given CarryChanges for the chain from k - 1. */
  lemma CarryChangesCarried(s: string, axis: Axis, dir: Direction, k: nat, j: nat)
    requires IsLocator(s) && j < k < Fields(s)
    requires StepAt(s, axis, k, dir).1
    requires var t := StepAt(s, axis, k, dir).0;
      Carry(t, axis, dir, k - 1)[Pos(axis, j)] != t[Pos(axis, j)]
      <==> AtEdge(t, axis, dir, j, k - 1)
    ensures Carry(s, axis, dir, k)[Pos(axis, j)] != s[Pos(axis, j)]
      <==> AtEdge(s, axis, dir, j, k)
  {
    var t := StepAt(s, axis, k, dir).0;
    var p := Pos(axis, k);
    assert Carry(s, axis, dir, k) == Carry(t, axis, dir, k - 1);
    assert t[Pos(axis, j)] == s[Pos(axis, j)];
    forall i | j < i < k ensures Digit(t, axis, i) == Digit(s, axis, i) {
      assert Pos(axis, i) != p;
    }
    EdgeRunStep(s, t, axis, dir, j, k);
  }

  /**
   * A shift succeeds exactly on locators that are well formed after trimming
   * and upper-casing. Its result is a well-formed locator of the same length
   * whose symbols on the other axis are unchanged, and whose index on the
   * shifted axis is the input's plus or minus one, modulo the number of cells.
   */
  lemma ShiftedMeaning(locator: string, axis: Axis, dir: Direction)
    ensures Shifted(locator, axis, dir).Ok? <==> IsLocator(Text.Normalize(locator))
    ensures var s := Text.Normalize(locator); var r := Shifted(locator, axis, dir);
      r.Ok? ==> IsLocator(r.value) && CarriedFrom(s, r.value, axis, dir, Fields(s))
  {
    var s := Text.Normalize(locator);
    ShiftedCases(locator, axis, dir);
    if IsLocator(s) {
      CarryMeaning(s, axis, dir, Fields(s));
    }
  }

  /** A shift is the carry chain from the finest field of a well-formed normalised locator, else the error. */
  lemma ShiftedCases(locator: string, axis: Axis, dir: Direction)
    ensures var s := Text.Normalize(locator);
      Shifted(locator, axis, dir) == if IsLocator(s) then Ok(Carry(s, axis, dir, Fields(s) - 1)) else FormatError
  {
  }

  /**
   * r is s with the `axis` index stepped by one modulo the number of cells
   * of an m-field locator, and every symbol of the other axis kept.
   */
  predicate CarriedFrom(s: string, r: string, axis: Axis, dir: Direction, m: nat)
    requires 1 <= m <= 5 && 2 * m <= |s| && 2 * m <= |r|
  {
    && |r| == |s|
    && (forall i | 0 <= i < |s| && AxisOf(i) != axis :: r[i] == s[i])
    && AxisValue(r, axis, m) == (AxisValue(s, axis, m) + Delta(dir)) % Total(m)
  }

  /** The full carry chain steps the cell index on its axis modulo the number of cells, and nothing else. */
  lemma CarryMeaning(s: string, axis: Axis, dir: Direction, m: nat)
    requires IsLocator(s) && m == Fields(s)
    ensures 1 <= m <= 5 && CarriedFrom(s, Carry(s, axis, dir, m - 1), axis, dir, m)
  {
    CarryModular(s, axis, dir, m);
    CarryKeepsOtherAxis(s, axis, dir, m);
  }

  /** The full carry chain adds Delta(dir) to the cell index on its axis, modulo the number of cells. */
  lemma CarryModular(s: string, axis: Axis, dir: Direction, m: nat)
    requires IsLocator(s) && m == Fields(s)
    ensures 1 <= m <= 5
    ensures AxisValue(Carry(s, axis, dir, m - 1), axis, m) == (AxisValue(s, axis, m) + Delta(dir)) % Total(m)
  {
    CarryFromFinest(s, axis, dir, m);
    CountStepIsModular(AxisValue(s, axis, m), Total(m), dir);
  }

  /** The full carry chain keeps every symbol of the other axis. */
  lemma CarryKeepsOtherAxis(s: string, axis: Axis, dir: Direction, m: nat)
    requires IsLocator(s) && m == Fields(s)
    ensures forall i | 0 <= i < |s| && AxisOf(i) != axis :: Carry(s, axis, dir, m - 1)[i] == s[i]
  {
    CarryFrame(s, axis, dir, m - 1);
  }

  /** The other axis. */
  function Across(axis: Axis): Axis
  {
    if axis == Longitude then Latitude else Longitude
  }

  /** The opposite carry chain restores the cell index on the carried axis. */
  lemma CarryIndexInverse(s: string, axis: Axis, dir: Direction, m: nat)
    requires IsLocator(s) && m == Fields(s)
    ensures AxisValue(Carry(Carry(s, axis, dir, m - 1), axis, Opposite(dir), m - 1), axis, m) == AxisValue(s, axis, m)
  {
    var t := Carry(s, axis, dir, m - 1);
    CarryFromFinest(s, axis, dir, m);
    CarryFromFinest(t, axis, Opposite(dir), m);
    CountStepInverse(AxisValue(s, axis, m), Total(m), dir);
  }

  /** The carry chain in the opposite direction undoes a full carry chain. */
  lemma CarryInverse(s: string, axis: Axis, dir: Direction, m: nat)
    requires IsLocator(s) && m == Fields(s)
    ensures Carry(Carry(s, axis, dir, m - 1), axis, Opposite(dir), m - 1) == s
  {
    var t := Carry(s, axis, dir, m - 1);
    var u := Carry(t, axis, Opposite(dir), m - 1);
    CarryIndexInverse(s, axis, dir, m);
    CarryKeepsAcross(s, axis, dir, m);
    CarryKeepsAcross(t, axis, Opposite(dir), m);
    SameIndicesSameLocator(u, s, axis, m);
  }

  /** LocatorExtensionality, with the two axes named `axis` and Across(axis). */
  lemma SameIndicesSameLocator(s: string, t: string, axis: Axis, m: nat)
    requires IsLocator(s) && IsLocator(t) && m == Fields(s) && |s| == |t|
    requires AxisValue(s, axis, m) == AxisValue(t, axis, m)
    requires AxisValue(s, Across(axis), m) == AxisValue(t, Across(axis), m)
    ensures s == t
  {
    LocatorExtensionality(s, t);
  }

  /** Shifting back undoes a shift: Down after Up, Up after Down, Left after Right, Right after Left. */
  lemma ShiftInverse(locator: string, axis: Axis, dir: Direction)
    requires Shifted(locator, axis, dir).Ok?
    ensures Shifted(Shifted(locator, axis, dir).value, axis, Opposite(dir)) == Ok(Text.Normalize(locator))
  {
    var s := Text.Normalize(locator);
    var shifted := Shifted(locator, axis, dir).value;
    var m := Fields(s);
    ShiftIsCarry(locator, shifted, axis, dir, m);
    CarryInverse(s, axis, dir, m);
    assert GetLastLocatorPart(shifted) == Ok(m);
  }

  /** A successful shift is the carry chain from the finest field of the normalised locator. */
  lemma ShiftIsCarry(locator: string, shifted: string, axis: Axis, dir: Direction, m: nat)
    requires Shifted(locator, axis, dir) == Ok(shifted) && m == Fields(Text.Normalize(locator))
    ensures IsLocator(Text.Normalize(locator)) && 1 <= m <= 5
    ensures shifted == Carry(Text.Normalize(locator), axis, dir, m - 1)
    ensures IsLocator(shifted) && Text.Normalize(shifted) == shifted && Fields(shifted) == m
  {
    LocatorIsNormal(shifted);
  }

  /**
   * Cell index w is v moved by d: v + d when that is still a cell of the
   * `total`, otherwise the cell at the other end of the axis.
   */
  predicate IndexMoved(v: int, w: int, d: int, total: int)
  {
    if 0 <= v + d < total then w == v + d
    else if d == 1 then v == total - 1 && w == 0
    else v == 0 && w == total - 1
  }

  /** A counter step moves by Delta(dir), or by Delta(dir) less a full turn when it wraps. */
  lemma CountStepMove(v: int, total: int, dir: Direction)
    requires 0 <= v < total
    ensures IndexMoved(v, CountStep(v, total, dir), Delta(dir), total)
  {
  }

  /** The carry chain moves the cell index by one, or wraps it across the whole axis. */
  lemma CarryIndexMove(s: string, axis: Axis, dir: Direction, m: nat)
    requires IsLocator(s) && m == Fields(s)
    ensures 1 <= m <= 5
    ensures IndexMoved(AxisValue(s, axis, m), AxisValue(Carry(s, axis, dir, m - 1), axis, m), Delta(dir), Total(m))
  {
    CarryFromFinest(s, axis, dir, m);
    CountStepMove(AxisValue(s, axis, m), Total(m), dir);
  }

  /** The carry chain leaves the cell index on the other axis alone. */
  lemma CarryKeepsAcross(s: string, axis: Axis, dir: Direction, m: nat)
    requires IsLocator(s) && m == Fields(s)
    ensures AxisValue(Carry(s, axis, dir, m - 1), Across(axis), m) == AxisValue(s, Across(axis), m)
  {
    var t := Carry(s, axis, dir, m - 1);
    var other := Across(axis);
    CarryFrame(s, axis, dir, m - 1);
    forall k | 0 <= k < m ensures t[Pos(other, k)] == s[Pos(other, k)] {
      PosAxis(other, k);
    }
    AxisValueFrame(t, s, other, m);
  }

  /** A normal, well-formed locator shifts by its carry chain from its last field. */
  lemma ShiftedNormal(s: string, axis: Axis, dir: Direction)
    requires IsLocator(s)
    ensures Shifted(s, axis, dir) == Ok(Carry(s, axis, dir, Fields(s) - 1))
  {
    LocatorIsNormal(s);
  }

  /** StepAt on a given locator, from the symbol step of its field k. */
  lemma StepAtExample(s: string, axis: Axis, k: nat, dir: Direction, c: char, carry: bool, t: string)
    requires IsLocator(s) && k < Fields(s)
    requires StepSymbol(k, s[Pos(axis, k)], dir) == (c, carry) && t == s[Pos(axis, k) := c]
    ensures StepAt(s, axis, k, dir) == (t, carry)
  {
    var r := StepAt(s, axis, k, dir).0;
    assert forall i | 0 <= i < |s| :: r[i] == t[i];
  }

  /** Up from IO91: the square digit 1 steps to 2, nothing carries. */
  lemma ShiftUpExample()
    ensures Shifted("IO91", Latitude, Increment) == Ok("IO92")
  {
    var s := "IO91";
    assert IsLocator(s);
    ShiftedNormal(s, Latitude, Increment);
    assert StepSymbol(1, '1', Increment) == ('2', false);
    StepAtExample(s, Latitude, 1, Increment, '2', false, "IO92");
  }

  /** Up from IO91LK54AX: X wraps to A and carries, 4 steps to 5. */
  lemma ShiftUpCarryExample()
    ensures Shifted("IO91LK54AX", Latitude, Increment) == Ok("IO91LK55AA")
  {
    var s := "IO91LK54AX";
    assert IsLocator(s);
    ShiftedNormal(s, Latitude, Increment);
    assert StepSymbol(4, 'X', Increment) == ('A', true);
    StepAtExample(s, Latitude, 4, Increment, 'A', true, "IO91LK54AA");
    assert StepSymbol(3, '4', Increment) == ('5', false);
    StepAtExample("IO91LK54AA", Latitude, 3, Increment, '5', false, "IO91LK55AA");
  }

  /** Down from IO91LK55AA: A wraps to X and carries, 5 steps to 4. */
  lemma ShiftDownCarryExample()
    ensures Shifted("IO91LK55AA", Latitude, Decrement) == Ok("IO91LK54AX")
  {
    var s := "IO91LK55AA";
    assert IsLocator(s);
    ShiftedNormal(s, Latitude, Decrement);
    assert StepSymbol(4, 'A', Decrement) == ('X', true);
    StepAtExample(s, Latitude, 4, Decrement, 'X', true, "IO91LK55AX");
    assert StepSymbol(3, '5', Decrement) == ('4', false);
    StepAtExample("IO91LK55AX", Latitude, 3, Decrement, '4', false, "IO91LK54AX");
  }

  /** Right from IO91LK54XL: X wraps to A and carries, 5 steps to 6. */
  lemma ShiftRightCarryExample()
    ensures Shifted("IO91LK54XL", Longitude, Increment) == Ok("IO91LK64AL")
  {
    var s := "IO91LK54XL";
    assert IsLocator(s);
    ShiftedNormal(s, Longitude, Increment);
    assert StepSymbol(4, 'X', Increment) == ('A', true);
    StepAtExample(s, Longitude, 4, Increment, 'A', true, "IO91LK54AL");
    assert StepSymbol(3, '5', Increment) == ('6', false);
    StepAtExample("IO91LK54AL", Longitude, 3, Increment, '6', false, "IO91LK64AL");
  }

  /** Up from JR09: 9 wraps to 0 and carries, and field 1 wraps from R to A with no error. */
  lemma ShiftUpWrapExample()
    ensures Shifted("JR09", Latitude, Increment) == Ok("JA00")
  {
    var s := "JR09";
    assert IsLocator(s);
    ShiftedNormal(s, Latitude, Increment);
    assert StepSymbol(1, '9', Increment) == ('0', true);
    StepAtExample(s, Latitude, 1, Increment, '0', true, "JR00");
    assert StepSymbol(0, 'R', Increment) == ('A', true);
    StepAtExample("JR00", Latitude, 0, Increment, 'A', true, "JA00");
  }
}
