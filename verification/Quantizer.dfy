/**
 Dynamic per-token int8 quantization of one row, over exact reals: range, scale with
 its floor, zero point through 32-bit integers, rounding half to even, clamping.
 */
module Quantizer {

  const SCALE_FLOOR := 0.00001
  const INT32_MAX := 0x7fff_ffff
  const INT32_MIN := -0x8000_0000

  function Abs(x: real): real { if x < 0.0 then -x else x }

  function Max(x: real, y: real): real { if x < y then y else x }

  function Pow2(n: nat): (r: int)
    ensures r >= 1
  { if n == 0 then 1 else 2 * Pow2(n - 1) }

  /** Round to the nearest integer, ties to the even one. */
  function Round(x: real): int {
    var f := x.Floor;
    var d := x - f as real;
    if d < 0.5 || (d == 0.5 && f % 2 == 0) then f else f + 1
  }

  function Clamp(n: int, lo: int, hi: int): int { if n < lo then lo else if n > hi then hi else n }

  predicate FitsInt32(n: int) { INT32_MIN <= n <= INT32_MAX }

  /** Conversion to 32 bits keeps what fits; what it makes of the rest is up to the platform. */
  ghost predicate Converts(conv: int -> int) { forall n {:trigger conv(n)} :: FitsInt32(conv(n)) && (FitsInt32(n) ==> conv(n) == n) }

  /** Negation of a 32-bit integer wraps around. */
  function Negate(n: int): int { if n == INT32_MIN then INT32_MIN else -n }

  function RowMin(row: seq<real>): (r: real)
    requires |row| > 0
    ensures r in row && forall i :: 0 <= i < |row| ==> r <= row[i]
  {
    if |row| == 1 then row[0]
    else
      var m := RowMin(row[..|row| - 1]);
      if row[|row| - 1] < m then row[|row| - 1] else m
  }

  function RowMax(row: seq<real>): (r: real)
    requires |row| > 0
    ensures r in row && forall i :: 0 <= i < |row| ==> row[i] <= r
  {
    if |row| == 1 then row[0]
    else
      var m := RowMax(row[..|row| - 1]);
      if m < row[|row| - 1] then row[|row| - 1] else m
  }

  datatype Quantized = Quantized(values: seq<int>, scale: real, zeroPoint: int)

  function QMin(sym: bool, bits: nat): int
    requires bits >= 1
  { if sym then -Pow2(bits - 1) else 0 }

  function QMax(sym: bool, bits: nat): int
    requires bits >= 1
  { if sym then Pow2(bits - 1) - 1 else Pow2(bits) - 1 }

  /** One bit leaves a symmetric range with no positive value to scale by. */
  predicate BitsOk(sym: bool, bits: nat) { (if sym then 2 else 1) <= bits <= 8 }

  lemma QMaxPositive(sym: bool, bits: nat)
    requires BitsOk(sym, bits)
    ensures 1 <= QMax(sym, bits) <= 255 && QMin(sym, bits) <= 0
    ensures sym ==> QMax(sym, bits) <= 127 && QMin(sym, bits) == -QMax(sym, bits) - 1 && QMin(sym, bits) >= -128
  {
    assert Pow2(0) == 1 && Pow2(1) == 2 && Pow2(2) == 4 && Pow2(3) == 8 && Pow2(4) == 16;
    assert Pow2(5) == 32 && Pow2(6) == 64 && Pow2(7) == 128 && Pow2(8) == 256;
  }

  /** Every code of the given width is used: two's complement if symmetric, unsigned otherwise. */
  lemma CodesOfWidth(sym: bool, bits: nat)
    requires BitsOk(sym, bits)
    ensures QMax(sym, bits) - QMin(sym, bits) + 1 == Pow2(bits) && (if sym then QMin(sym, bits) + QMax(sym, bits) == -1 else QMin(sym, bits) == 0)
    ensures bits == 8 ==> QMin(sym, bits) == (if sym then -128 else 0) && QMax(sym, bits) == if sym then 127 else 255
  {
    QMaxPositive(sym, bits);
    assert Pow2(bits) == 2 * Pow2(bits - 1);
    assert Pow2(4) == 16 && Pow2(8) == 256;
  }

  function Span(row: seq<real>, sym: bool): real
    requires |row| > 0
  { if sym then Max(Abs(RowMin(row)), Abs(RowMax(row))) else RowMax(row) - RowMin(row) }

  function Scale(row: seq<real>, sym: bool, bits: nat): (s: real)
    requires |row| > 0 && BitsOk(sym, bits)
    ensures s >= SCALE_FLOOR
  {
    QMaxPositive(sym, bits);
    Max(Span(row, sym) / QMax(sym, bits) as real, SCALE_FLOOR)
  }

  function ZeroPoint(row: seq<real>, sym: bool, bits: nat, conv: int -> int): int
    requires |row| > 0 && BitsOk(sym, bits)
  {
    if sym then 0 else Negate(conv(Round(RowMin(row) / Scale(row, sym, bits))))
  }

  function Quantize(x: real, scale: real, zeroPoint: int, lo: int, hi: int): int
    requires scale > 0.0
  {
    Clamp(Round(x / scale + zeroPoint as real), lo, hi)
  }

  /** `dynamic_per_token_int8_quant_ref` on one row; `conv` is the conversion to 32 bits. */
  function QuantizeRow(row: seq<real>, sym: bool, bits: nat, conv: int -> int): (q: Quantized)
    requires |row| > 0 && BitsOk(sym, bits)
    ensures |q.values| == |row| && q.scale > 0.0
    ensures forall i :: 0 <= i < |row| ==> if sym then -128 <= q.values[i] <= 127 else 0 <= q.values[i] <= 255
  {
    QMaxPositive(sym, bits);
    var s := Scale(row, sym, bits);
    var zp := ZeroPoint(row, sym, bits, conv);
    Quantized(seq(|row|, i requires 0 <= i < |row| => Quantize(row[i], s, zp, QMin(sym, bits), QMax(sym, bits))), s, zp)
  }

  /** What a quantized value stands for. */
  function Restore(q: int, scale: real, zeroPoint: int): real { (q - zeroPoint) as real * scale }

  // ------------------------------------------------------------- rounding facts

  lemma RoundIsNear(x: real)
    ensures Abs(x - Round(x) as real) <= 0.5
  {
  }

  /** Rounding is to the nearest integer, and to the even one of two; no other integer is that. */
  lemma RoundsHalfToEven(x: real, n: int)
    ensures n == Round(x) <==> Abs(x - n as real) < 0.5 || (Abs(x - n as real) == 0.5 && n % 2 == 0)
  {
    var f := x.Floor;
    assert f as real <= x < f as real + 1.0;
    if Abs(x - n as real) <= 0.5 { assert n == f || n == f + 1; }
  }

  lemma RoundIsMonotone(x: real, y: real)
    requires x <= y
    ensures Round(x) <= Round(y)
  {
    assert x.Floor <= y.Floor;
  }

  /** Rounding and clamping stay within half a step exactly on the range widened by half a step. */
  lemma ClampIsNearIff(y: real, lo: int, hi: int)
    requires lo <= hi
    ensures Abs(y - Clamp(Round(y), lo, hi) as real) <= 0.5 <==> lo as real - 0.5 <= y <= hi as real + 0.5
  {
    RoundIsNear(y);
  }

  lemma DivMul(x: real, s: real)
    requires s > 0.0
    ensures x / s * s == x
  {
  }

  lemma ScaleOrder(a: real, b: real, s: real)
    requires s > 0.0
    ensures a <= b <==> a * s <= b * s
  {
    if a > b { assert (a - b) * s > 0.0; }
    if a <= b { assert (b - a) * s >= 0.0; }
  }

  lemma HalfStep(u: real, s: real, e: real)
    requires s > 0.0 && e == u * s
    ensures Abs(e) <= s / 2.0 <==> Abs(u) <= 0.5
  {
    ScaleOrder(u, 0.5, s);
    ScaleOrder(-0.5, u, s);
    assert 0.5 * s == s / 2.0;
    assert (-0.5) * s == -(s / 2.0);
  }

  /** Half a scale step of error is half a unit after dividing by the scale. */
  lemma ErrorInSteps(x: real, s: real, k: real)
    requires s > 0.0
    ensures Abs(x - k * s) <= s / 2.0 <==> Abs(x / s - k) <= 0.5
  {
    DivMul(x, s);
    Distribute(x / s, k, s);
    HalfStep(x / s - k, s, x - k * s);
  }

  lemma Distribute(a: real, b: real, s: real)
    ensures (a - b) * s == a * s - b * s
  {
  }

  lemma DivOrder(a: real, b: real, s: real)
    requires s > 0.0 && a <= b
    ensures a / s <= b / s
  {
    DivMul(a, s);
    DivMul(b, s);
    ScaleOrder(a / s, b / s, s);
  }

  /** The scale makes the span fit the quantized range. */
  lemma SpanFits(span: real, n: int, s: real)
    requires n >= 1 && s >= SCALE_FLOOR && s >= span / n as real
    ensures span / s <= n as real
  {
    DivMul(span, n as real);
    ScaleOrder(span / n as real, s, n as real);
    assert span <= s * n as real;
    DivMul(span, s);
    ScaleOrder(span / s, n as real, s);
    assert n as real * s == s * n as real;
  }

  // -------------------------------------------------------------- main results

  /** In steps of the scale, where an element lies before rounding. */
  function Exact(x: real, q: Quantized): real
    requires q.scale > 0.0
  { x / q.scale + q.zeroPoint as real }

  /** The value restored from element `i` is within half a scale step of it. */
  ghost predicate Accurate(row: seq<real>, q: Quantized, i: nat)
    requires |q.values| == |row| && i < |row|
  {
    Abs(row[i] - Restore(q.values[i], q.scale, q.zeroPoint)) <= q.scale / 2.0
  }

  /** The error of a quantized value in steps of the scale. */
  lemma ElementError(x: real, scale: real, zeroPoint: int, v: int)
    requires scale > 0.0
    ensures Abs(x - Restore(v, scale, zeroPoint)) <= scale / 2.0 <==> Abs(x / scale + zeroPoint as real - v as real) <= 0.5
  {
    var k := (v - zeroPoint) as real;
    ErrorInSteps(x, scale, k);
    assert k == v as real - zeroPoint as real;
  }

  /** One element, with everything else given: accurate exactly when it lies in the widened range. */
  lemma ElementAccurateIff(x: real, scale: real, zeroPoint: int, lo: int, hi: int)
    requires scale > 0.0 && lo <= hi
    ensures Abs(x - Restore(Quantize(x, scale, zeroPoint, lo, hi), scale, zeroPoint)) <= scale / 2.0
       <==> lo as real - 0.5 <= x / scale + zeroPoint as real <= hi as real + 0.5
  {
    var y := x / scale + zeroPoint as real;
    ElementError(x, scale, zeroPoint, Clamp(Round(y), lo, hi));
    ClampIsNearIff(y, lo, hi);
  }

  lemma AccurateIff(row: seq<real>, sym: bool, bits: nat, conv: int -> int, i: nat)
    requires i < |row| && BitsOk(sym, bits)
    ensures var q := QuantizeRow(row, sym, bits, conv);
      Accurate(row, q, i) <==> QMin(sym, bits) as real - 0.5 <= Exact(row[i], q) <= QMax(sym, bits) as real + 0.5
  {
    var q := QuantizeRow(row, sym, bits, conv);
    QMaxPositive(sym, bits);
    ElementAccurateIff(row[i], q.scale, q.zeroPoint, QMin(sym, bits), QMax(sym, bits));
  }

  /** Symmetric quantization is accurate on every row and every element, for 2 to 8 bits. */
  lemma SymmetricIsAccurate(row: seq<real>, bits: nat, conv: int -> int, i: nat)
    requires i < |row| && BitsOk(true, bits)
    ensures Accurate(row, QuantizeRow(row, true, bits, conv), i)
  {
    var q := QuantizeRow(row, true, bits, conv);
    var n := QMax(true, bits);
    QMaxPositive(true, bits);
    var span := Max(Abs(RowMin(row)), Abs(RowMax(row)));
    SpanFits(span, n, q.scale);
    DivOrder(row[i], span, q.scale);
    DivOrder(-span, row[i], q.scale);
    NegDiv(span, q.scale);
    AccurateIff(row, true, bits, conv, i);
  }

  lemma NegDiv(x: real, s: real)
    requires s > 0.0
    ensures -x / s == -(x / s)
  {
  }

  /** The zero point that exact integers would give. */
  function IdealZeroPoint(row: seq<real>, bits: nat): int
    requires |row| > 0 && BitsOk(false, bits)
  { -Round(RowMin(row) / Scale(row, false, bits)) }

  /** The zero point is the ideal one, whatever the conversion makes of other numbers, if that and its negation fit. */
  lemma ZeroPointIsIdeal(row: seq<real>, bits: nat, conv: int -> int)
    requires |row| > 0 && BitsOk(false, bits) && Converts(conv)
    ensures -INT32_MAX <= IdealZeroPoint(row, bits) <= INT32_MAX ==> ZeroPoint(row, false, bits, conv) == IdealZeroPoint(row, bits)
    ensures FitsInt32(ZeroPoint(row, false, bits, conv))
  {
    var n := Round(RowMin(row) / Scale(row, false, bits));
    assert FitsInt32(conv(n)) && (FitsInt32(n) ==> conv(n) == n);
  }

  /** With the ideal zero point every element lands in the quantized range, widened by half a step. */
  lemma IdealIsInRange(row: seq<real>, bits: nat, i: nat)
    requires i < |row| && BitsOk(false, bits)
    ensures -0.5 <= row[i] / Scale(row, false, bits) + IdealZeroPoint(row, bits) as real <= QMax(false, bits) as real + 0.5
  {
    var s := Scale(row, false, bits);
    QMaxPositive(false, bits);
    SpanFits(RowMax(row) - RowMin(row), QMax(false, bits), s);
    var lo := RowMin(row) / s;
    RoundIsNear(lo);
    DivOrder(RowMin(row), row[i], s);
    DivOrder(row[i], RowMax(row), s);
    SubDiv(RowMax(row), RowMin(row), s);
  }

  lemma SubDiv(a: real, b: real, s: real)
    requires s > 0.0
    ensures (a - b) / s == a / s - b / s
  {
  }

  /** The error is within half a step exactly when the zero point is not too far from the ideal one. */
  lemma ShiftedIsAccurateIff(row: seq<real>, bits: nat, conv: int -> int, i: nat)
    requires i < |row| && BitsOk(false, bits) && Converts(conv)
    ensures
      var q := QuantizeRow(row, false, bits, conv);
      var ideal := row[i] / q.scale + IdealZeroPoint(row, bits) as real;
      var shift := (q.zeroPoint - IdealZeroPoint(row, bits)) as real;
      && -0.5 <= ideal <= QMax(false, bits) as real + 0.5
      && (Accurate(row, q, i) <==> -0.5 <= ideal + shift <= QMax(false, bits) as real + 0.5)
  {
    IdealIsInRange(row, bits, i);
    AccurateIff(row, false, bits, conv, i);
  }

  /** Asymmetric quantization is accurate on every element, whatever the platform, if the ideal zero point and its negation fit. */
  lemma AsymmetricIsAccurate(row: seq<real>, bits: nat, conv: int -> int, i: nat)
    requires i < |row| && BitsOk(false, bits) && Converts(conv) && -INT32_MAX <= IdealZeroPoint(row, bits) <= INT32_MAX
    ensures Accurate(row, QuantizeRow(row, false, bits, conv), i)
  {
    ZeroPointIsIdeal(row, bits, conv);
    ShiftedIsAccurateIff(row, bits, conv, i);
  }

  /** It is accurate on no element, whatever the platform, if the ideal zero point is farther out than the quantized range is wide. */
  lemma AsymmetricFails(row: seq<real>, bits: nat, conv: int -> int, i: nat)
    requires i < |row| && BitsOk(false, bits) && Converts(conv)
    requires IdealZeroPoint(row, bits) > INT32_MAX + QMax(false, bits) + 1 || IdealZeroPoint(row, bits) < INT32_MIN - QMax(false, bits) - 1
    ensures !Accurate(row, QuantizeRow(row, false, bits, conv), i)
  {
    QMaxPositive(false, bits);
    ZeroPointIsIdeal(row, bits, conv);
    ShiftedIsAccurateIff(row, bits, conv, i);
  }

  /** A conversion that sends everything that does not fit to `v`. */
  function Sending(v: int): int -> int { n => if FitsInt32(n) then n else v }

  /** Outside the range some platform gets every element wrong. */
  lemma SomePlatformFails(row: seq<real>, bits: nat, i: nat) returns (conv: int -> int)
    requires i < |row| && BitsOk(false, bits) && !(-INT32_MAX <= IdealZeroPoint(row, bits) <= INT32_MAX)
    ensures Converts(conv) && !Accurate(row, QuantizeRow(row, false, bits, conv), i)
  {
    QMaxPositive(false, bits);
    conv := Sending(if IdealZeroPoint(row, bits) > 0 then INT32_MIN else 0);
    ShiftedIsAccurateIff(row, bits, conv, i);
  }

  /** Asymmetric quantization is accurate on every platform exactly when the ideal zero point and its negation fit 32 bits. */
  lemma AsymmetricIsAccurateIff(row: seq<real>, bits: nat, i: nat)
    requires i < |row| && BitsOk(false, bits)
    ensures (forall conv {:trigger Converts(conv)} :: Converts(conv) ==> Accurate(row, QuantizeRow(row, false, bits, conv), i))
       <==> -INT32_MAX <= IdealZeroPoint(row, bits) <= INT32_MAX
  {
    if -INT32_MAX <= IdealZeroPoint(row, bits) <= INT32_MAX {
      forall conv | Converts(conv) ensures Accurate(row, QuantizeRow(row, false, bits, conv), i) {
        AsymmetricIsAccurate(row, bits, conv, i);
      }
    } else {
      var conv := SomePlatformFails(row, bits, i);
    }
  }

  /** The exception is real: a constant row of 1000000 at 8 bits needs a zero point of -10^11, on no platform representable. */
  lemma LargeOffsetFails(conv: int -> int)
    requires Converts(conv)
    ensures !Accurate([1000000.0], QuantizeRow([1000000.0], false, 8, conv), 0)
  {
    var row := [1000000.0];
    assert RowMin(row) == 1000000.0 && RowMax(row) == 1000000.0;
    QMaxPositive(false, 8);
    assert Scale(row, false, 8) == SCALE_FLOOR;
    assert 1000000.0 / SCALE_FLOOR == 100000000000.0;
    AsymmetricFails(row, 8, conv, 0);
  }

  /** Larger elements never get smaller codes. */
  lemma QuantizationIsMonotone(row: seq<real>, sym: bool, bits: nat, conv: int -> int, i: nat, j: nat)
    requires i < |row| && j < |row| && BitsOk(sym, bits) && row[i] <= row[j]
    ensures QuantizeRow(row, sym, bits, conv).values[i] <= QuantizeRow(row, sym, bits, conv).values[j]
  {
    QMaxPositive(sym, bits);
    QuantizeIsMonotone(row[i], row[j], Scale(row, sym, bits), ZeroPoint(row, sym, bits, conv), QMin(sym, bits), QMax(sym, bits));
  }

  lemma QuantizeIsMonotone(x: real, y: real, scale: real, zeroPoint: int, lo: int, hi: int)
    requires scale > 0.0 && x <= y && lo <= hi
    ensures Quantize(x, scale, zeroPoint, lo, hi) <= Quantize(y, scale, zeroPoint, lo, hi)
  {
    DivOrder(x, y, scale);
    RoundIsMonotone(x / scale + zeroPoint as real, y / scale + zeroPoint as real);
  }

  // ------------------------------------------------------ how large the error is

  /** The largest magnitude of the row, or the largest difference of two of its elements. */
  ghost predicate IsSpan(row: seq<real>, sym: bool, span: real) {
    if sym then
      (exists i :: 0 <= i < |row| && Abs(row[i]) == span) && forall i :: 0 <= i < |row| ==> Abs(row[i]) <= span
    else
      && (exists i, j :: 0 <= i < |row| && 0 <= j < |row| && row[i] - row[j] == span)
      && (forall i, j :: 0 <= i < |row| && 0 <= j < |row| ==> row[i] - row[j] <= span)
  }

  lemma Between(row: seq<real>, k: nat)
    requires k < |row|
    ensures RowMin(row) <= row[k] <= RowMax(row)
  {
  }

  lemma SpanOfRow(row: seq<real>, sym: bool, span: real)
    requires |row| > 0 && IsSpan(row, sym, span)
    ensures span == Span(row, sym)
  {
    var lo: nat :| lo < |row| && row[lo] == RowMin(row);
    var hi: nat :| hi < |row| && row[hi] == RowMax(row);
    if sym {
      var i :| 0 <= i < |row| && Abs(row[i]) == span;
      Between(row, i);
      assert Abs(row[lo]) <= span && Abs(row[hi]) <= span;
    } else {
      var i, j :| 0 <= i < |row| && 0 <= j < |row| && row[i] - row[j] == span;
      Between(row, i);
      Between(row, j);
      assert row[hi] - row[lo] <= span;
    }
  }

  /** Half a step of the finest scale that covers the span, but no less than half of 0.00001. */
  function Resolution(span: real, qmax: int): real
    requires qmax >= 1
  { Max(span / (2 * qmax) as real, 0.000005) }

  lemma HalfScale(row: seq<real>, sym: bool, bits: nat, span: real)
    requires |row| > 0 && BitsOk(sym, bits) && IsSpan(row, sym, span)
    ensures QMax(sym, bits) >= 1 && Scale(row, sym, bits) / 2.0 == Resolution(span, QMax(sym, bits))
  {
    QMaxPositive(sym, bits);
    SpanOfRow(row, sym, span);
    assert Scale(row, sym, bits) == Max(span / QMax(sym, bits) as real, SCALE_FLOOR);
    HalfOfLarger(span, QMax(sym, bits));
  }

  lemma HalfOfLarger(x: real, n: int)
    requires n >= 1
    ensures Max(x / n as real, SCALE_FLOOR) / 2.0 == Resolution(x, n)
  {
    HalfQuotient(x, n);
  }

  lemma HalfQuotient(x: real, n: int)
    requires n >= 1
    ensures x / (2 * n) as real == x / n as real / 2.0
  {
    var half := x / n as real / 2.0;
    DivMul(x, n as real);
    assert half * (2 * n) as real == x by {
      assert (2 * n) as real == 2.0 * n as real;
      assert half * (2.0 * n as real) == half * 2.0 * n as real;
    }
  }

  /** Symmetric quantization is as fine as the largest magnitude of the row allows. */
  lemma SymmetricError(row: seq<real>, bits: nat, conv: int -> int, i: nat, span: real)
    requires i < |row| && BitsOk(true, bits) && IsSpan(row, true, span)
    ensures QMax(true, bits) >= 1
    ensures var q := QuantizeRow(row, true, bits, conv);
      Abs(row[i] - (q.values[i] - q.zeroPoint) as real * q.scale) <= Resolution(span, QMax(true, bits))
  {
    HalfScale(row, true, bits, span);
    SymmetricIsAccurate(row, bits, conv, i);
  }

  /** Asymmetric quantization is as fine as the largest difference in the row allows, if the zero point fits. */
  lemma AsymmetricError(row: seq<real>, bits: nat, conv: int -> int, i: nat, span: real)
    requires i < |row| && BitsOk(false, bits) && Converts(conv) && IsSpan(row, false, span)
    requires -INT32_MAX <= IdealZeroPoint(row, bits) <= INT32_MAX
    ensures QMax(false, bits) >= 1
    ensures var q := QuantizeRow(row, false, bits, conv);
      Abs(row[i] - (q.values[i] - q.zeroPoint) as real * q.scale) <= Resolution(span, QMax(false, bits))
  {
    HalfScale(row, false, bits, span);
    AsymmetricIsAccurate(row, bits, conv, i);
  }

  lemma SpanInSteps(span: real, n: int)
    requires n >= 1 && span / n as real >= SCALE_FLOOR
    ensures span / (span / n as real) == n as real && span > 0.0
  {
    var s := span / n as real;
    DivMul(span, n as real);
    assert span == n as real * s;
    ScaleOrder(0.0, s, n as real);
  }

  /** The whole symmetric range is used: an element of largest magnitude gets the largest code of its sign. */
  lemma SymmetricRangeIsUsed(row: seq<real>, bits: nat, conv: int -> int, i: nat, span: real)
    requires i < |row| && BitsOk(true, bits) && IsSpan(row, true, span) && Abs(row[i]) == span
    requires QMax(true, bits) >= 1 && span / QMax(true, bits) as real >= 0.00001
    ensures QuantizeRow(row, true, bits, conv).values[i] == if row[i] > 0.0 then QMax(true, bits) else -QMax(true, bits)
  {
    var n := QMax(true, bits);
    QMaxPositive(true, bits);
    SpanOfRow(row, true, span);
    SpanInSteps(span, n);
    var s := Scale(row, true, bits);
    assert s == span / n as real;
    if row[i] <= 0.0 {
      NegDiv(span, s);
      assert row[i] / s == (-n) as real;
    }
  }

  lemma LastCode(y: real, n: int)
    requires -0.5 <= y <= 0.5 && n >= 1
    ensures Round(y) == 0 && n - 1 <= Clamp(Round(y + n as real), 0, n) <= n
  {
    RoundIsNear(y + n as real);
  }

  /** So is the asymmetric one: the smallest element gets code 0, and the largest the last code or the one before it. */
  lemma AsymmetricRangeIsUsed(row: seq<real>, bits: nat, conv: int -> int, lo: nat, hi: nat)
    requires lo < |row| && hi < |row| && BitsOk(false, bits) && Converts(conv)
    requires forall k :: 0 <= k < |row| ==> row[lo] <= row[k] <= row[hi]
    requires QMax(false, bits) >= 1 && (row[hi] - row[lo]) / QMax(false, bits) as real >= 0.00001
    requires -INT32_MAX <= IdealZeroPoint(row, bits) <= INT32_MAX
    ensures var v := QuantizeRow(row, false, bits, conv).values;
      v[lo] == 0 && QMax(false, bits) - 1 <= v[hi] <= QMax(false, bits)
  {
    var n, s := QMax(false, bits), Scale(row, false, bits);
    QMaxPositive(false, bits);
    assert RowMin(row) == row[lo] && RowMax(row) == row[hi];
    SpanInSteps(row[hi] - row[lo], n);
    SubDiv(row[hi], row[lo], s);
    ZeroPointIsIdeal(row, bits, conv);
    RoundIsNear(row[lo] / s);
    var y := row[lo] / s + IdealZeroPoint(row, bits) as real;
    assert row[hi] / s + IdealZeroPoint(row, bits) as real == y + n as real;
    LastCode(y, n);
  }
}
