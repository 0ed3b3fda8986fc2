/** Division and multiplication facts used by the slot, epoch and reward arithmetic. */
module Arithmetic {

  function Quotient(x: nat, d: nat): nat
    requires d > 0
  {
    x / d
  }

  lemma {:induction false} MulMonotone(a: int, b: int, d: int)
    requires a <= b && d >= 0
    ensures a * d <= b * d
  {
    assert (b - a) * d >= 0;
  }

  lemma {:induction false} DivMod(x: int, d: int)
    requires d > 0
    ensures x == (x / d) * d + x % d && 0 <= x % d < d
  {
  }

  /** The quotient is the only q with q*d <= x < (q+1)*d. */
  lemma {:induction false} DivUnique(x: int, d: int, q: int)
    requires d > 0 && q * d <= x < q * d + d
    ensures x / d == q && x % d == x - q * d
  {
    DivMod(x, d);
    var r := x / d;
    if r < q { MulMonotone(r + 1, q, d); }
    if r > q { MulMonotone(q + 1, r, d); }
  }

  lemma {:induction false} MulDiv(q: int, d: int)
    requires d > 0
    ensures (q * d) / d == q && (q * d) % d == 0
  {
    DivUnique(q * d, d, q);
  }

  lemma {:induction false} DivMonotone(a: int, b: int, d: int)
    requires a <= b && d > 0
    ensures a / d <= b / d
  {
    DivMod(a, d);
    DivMod(b, d);
    if b / d < a / d { MulMonotone(b / d + 1, a / d, d); }
  }

  lemma {:induction false} DivNonNegative(a: int, d: int)
    requires a >= 0 && d > 0
    ensures 0 <= a / d && (a / d) * d <= a
  {
    DivMod(a, d);
    if a / d < 0 { MulMonotone(a / d, -1, d); }
  }

  lemma {:induction false} MulStep(n: int, x: int)
    ensures (n - 1) * x + x == n * x
  {
  }

  /** Whole multiples of the divisor come out of a quotient. */
  lemma {:induction false} DivShift(q: int, x: int, d: int)
    requires d > 0
    ensures (q * d + x) / d == q + x / d
  {
    DivMod(x, d);
    assert (q + x / d) * d == q * d + (x / d) * d;
    DivUnique(q * d + x, d, q + x / d);
  }
}
