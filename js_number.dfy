/**
 * The two pieces of JavaScript number semantics the colour hash depends on:
 * the ToInt32 conversion that every bitwise operator applies to its operands,
 * and Math.abs.  Numbers are modelled as unbounded integers; every value the
 * hash produces is an integer below 2^53 in magnitude, so double arithmetic
 * on them is exact and the model loses nothing.
 */
module JsNumber {

  const TwoTo31: int := 0x8000_0000
  const TwoTo32: int := 0x1_0000_0000

  predicate IsInt32(x: int)
  {
    -TwoTo31 <= x < TwoTo31
  }

  /** ECMAScript ToInt32: reduce modulo 2^32 into the signed range. */
  function ToInt32(x: int): (r: int)
    ensures IsInt32(r)
    ensures (x - r) % TwoTo32 == 0
    ensures IsInt32(x) ==> r == x
  {
    var m := x % TwoTo32;
    if m >= TwoTo31 then m - TwoTo32 else m
  }

  /** ToInt32 only depends on its argument modulo 2^32. */
  lemma ToInt32Periodic(x: int, k: int)
    ensures ToInt32(x + k * TwoTo32) == ToInt32(x)
  {
    var y := x + k * TwoTo32;
    assert y == TwoTo32 * (x / TwoTo32 + k) + x % TwoTo32;
    assert y % TwoTo32 == x % TwoTo32;
  }

  /** `x << 5`: both the operand and the shifted value go through ToInt32. */
  function ShiftLeft5(x: int): int
  {
    ToInt32(ToInt32(x) * 32)
  }

  /** Math.abs */
  function Abs(x: int): (r: nat)
    ensures r == x || r == -x
  {
    if x < 0 then -x else x
  }

  /**
   * One step of the source's rolling hash, `((h << 5) - h) + c` followed by
   * `h & h` (which is ToInt32 of the sum), computes ToInt32(31 * h + c).
   */
  lemma ShiftStepIsTimes31(h: int, c: int)
    requires IsInt32(h)
    ensures ToInt32(ShiftLeft5(h) - h + c) == ToInt32(31 * h + c)
  {
    var s := ToInt32(h * 32);
    var k := (h * 32 - s) / TwoTo32;
    assert h * 32 - s == k * TwoTo32;
    assert s - h + c == (31 * h + c) + (-k) * TwoTo32;
    ToInt32Periodic(31 * h + c, -k);
  }
}
