/** The part of Python's `decimal` module the plugins rely on.  Values are
    exact rationals; `quantize(Decimal('0.0001'))` with the default context
    rounds half to even onto the grid of four decimal places. */
module Decimal {

  /** x has at most four decimal places. */
  predicate OnGrid(x: real) {
    (x * 10000.0).Floor as real == x * 10000.0
  }

  /** The nearest integer, ties going to the even neighbour (ROUND_HALF_EVEN). */
  function RoundHalfEven(x: real): (n: int)
    ensures -0.5 <= n as real - x <= 0.5
    ensures (n as real - x == 0.5 || x - n as real == 0.5) ==> n % 2 == 0
  {
    var f := x.Floor;
    var d := x - f as real;
    if d < 0.5 then f
    else if d > 0.5 then f + 1
    else if f % 2 == 0 then f
    else f + 1
  }

  /** The two properties of RoundHalfEven determine it: any integer within one
      half of x that is even whenever it is exactly one half away is the result. */
  lemma RoundHalfEvenUnique(x: real, m: int)
    requires -0.5 <= m as real - x <= 0.5
    requires (m as real - x == 0.5 || x - m as real == 0.5) ==> m % 2 == 0
    ensures m == RoundHalfEven(x)
  {
    var n := RoundHalfEven(x);
    assert -1.0 <= (m - n) as real <= 1.0;
  }

  /** `x.quantize(Decimal('0.0001'))`. */
  function Quantize(x: real): (q: real)
    ensures OnGrid(q)
    ensures -0.00005 <= q - x <= 0.00005
  {
    var n := RoundHalfEven(x * 10000.0);
    assert (n as real).Floor == n;
    n as real / 10000.0
  }

  /** Equal values quantize alike (a congruence step stated for the solver). */
  lemma QuantizeEq(a: real, b: real)
    requires a == b
    ensures Quantize(a) == Quantize(b)
  {
  }

  /** Quantizing a value that is already on the grid changes nothing. */
  lemma QuantizeOnGrid(x: real)
    requires OnGrid(x)
    ensures Quantize(x) == x
  {
    var n := (x * 10000.0).Floor;
    assert n as real == x * 10000.0;
    RoundHalfEvenUnique(x * 10000.0, n);
  }

  /** Repeated quantization does not drift. */
  lemma QuantizeIdempotent(x: real)
    ensures Quantize(Quantize(x)) == Quantize(x)
  {
    QuantizeOnGrid(Quantize(x));
  }

  /** The grid is closed under subtraction, so the difference of two quantized
      values needs no further rounding. */
  lemma OnGridSub(a: real, b: real)
    requires OnGrid(a) && OnGrid(b)
    ensures OnGrid(a - b)
    ensures Quantize(a - b) == a - b
  {
    var i, j := (a * 10000.0).Floor, (b * 10000.0).Floor;
    assert (a - b) * 10000.0 == (i - j) as real;
    assert ((i - j) as real).Floor == i - j;
    QuantizeOnGrid(a - b);
  }

  /** Half-even rounding is symmetric: a loss rounds like the gain of the same size. */
  lemma QuantizeNeg(x: real)
    ensures Quantize(-x) == -Quantize(x)
  {
    var n := RoundHalfEven(x * 10000.0);
    assert (-n) % 2 == 0 <==> n % 2 == 0;
    RoundHalfEvenUnique(-x * 10000.0, -n);
  }
}
