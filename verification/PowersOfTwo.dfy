/** Powers of two and the size rounding used by the Merkle builders (blockchain/hash.go). */
module PowersOfTwo {

  function Pow2(k: nat): (r: nat)
    ensures r >= 1
  {
    if k == 0 then 1 else 2 * Pow2(k - 1)
  }

  predicate PowerOfTwo(w: nat)
  {
    w == 1 || (w > 1 && w % 2 == 0 && PowerOfTwo(w / 2))
  }

  /** Bitwise "and" of two non-negative integers. */
  function BitAnd(a: nat, b: nat): nat
  {
    if a == 0 || b == 0 then 0
    else 2 * BitAnd(a / 2, b / 2) + (if a % 2 == 1 && b % 2 == 1 then 1 else 0)
  }

  /** Integer part of the base-two logarithm. */
  function FloorLog2(n: nat): nat
    requires n >= 1
  {
    if n == 1 then 0 else 1 + FloorLog2(n / 2)
  }

  /** How many times a list of n items must be paired up before one item is left. */
  function CeilLog2(n: nat): nat
  {
    if n <= 1 then 0 else 1 + CeilLog2((n + 1) / 2)
  }

  function NextPowerOfTwo(n: nat): nat
  {
    if n == 0 || BitAnd(n, n - 1) == 0 then n else Pow2(FloorLog2(n) + 1)
  }

  lemma {:induction false} BitAndSelf(n: nat)
    ensures BitAnd(n, n) == n
  {
    if n != 0 { BitAndSelf(n / 2); }
  }

  /** The bit trick tests for exact powers of two. */
  lemma {:induction false} BitTest(n: nat)
    requires n >= 1
    ensures BitAnd(n, n - 1) == 0 <==> n == Pow2(FloorLog2(n))
  {
    if n == 1 {
    } else if n % 2 == 0 {
      assert (n - 1) / 2 == n / 2 - 1;
      BitTest(n / 2);
    } else {
      assert (n - 1) / 2 == n / 2;
      BitAndSelf(n / 2);
    }
  }

  lemma {:induction false} FloorLog2Bounds(n: nat)
    requires n >= 1
    ensures Pow2(FloorLog2(n)) <= n < 2 * Pow2(FloorLog2(n))
  {
    if n > 1 { FloorLog2Bounds(n / 2); }
  }

  lemma {:induction false} CeilLog2Bounds(n: nat)
    requires n >= 1
    ensures n <= Pow2(CeilLog2(n))
    ensures n > 1 ==> CeilLog2(n) >= 1 && Pow2(CeilLog2(n) - 1) < n
  {
    if n > 1 {
      var half := (n + 1) / 2;
      CeilLog2Bounds(half);
      assert CeilLog2(n) == 1 + CeilLog2(half);
      if n == 2 {
        assert CeilLog2(half) == 0;
      } else {
        assert Pow2(CeilLog2(n) - 1) == 2 * Pow2(CeilLog2(half) - 1);
      }
    }
  }

  lemma {:induction false} Pow2Monotone(a: nat, b: nat)
    requires a <= b
    ensures Pow2(a) <= Pow2(b)
  {
    if a < b { Pow2Monotone(a, b - 1); }
  }

  lemma {:induction false} Pow2IsPowerOfTwo(k: nat)
    ensures PowerOfTwo(Pow2(k)) && FloorLog2(Pow2(k)) == k
  {
    if k > 0 {
      Pow2IsPowerOfTwo(k - 1);
      DoubledPower(Pow2(k - 1));
    }
  }

  lemma {:induction false} DoubledPower(w: nat)
    requires w >= 1 && PowerOfTwo(w)
    ensures PowerOfTwo(2 * w) && FloorLog2(2 * w) == FloorLog2(w) + 1
  {
    var double := 2 * w;
    assert double > 1 && double % 2 == 0 && double / 2 == w;
  }

  lemma {:induction false} CeilFromFloor(n: nat)
    requires n >= 1
    ensures CeilLog2(n) == if n == Pow2(FloorLog2(n)) then FloorLog2(n) else FloorLog2(n) + 1
  {
    FloorLog2Bounds(n);
    CeilLog2Bounds(n);
    var f, c := FloorLog2(n), CeilLog2(n);
    if f + 1 < c { Pow2Monotone(f + 1, c - 1); }
    if c < f { Pow2Monotone(c, f - 1); }
  }

  /** NextPowerOfTwo(n) is the least power of two that is not below n. */
  lemma {:induction false} NextPowerOfTwoIsLeast(n: nat)
    requires n >= 1
    ensures NextPowerOfTwo(n) == Pow2(CeilLog2(n))
    ensures PowerOfTwo(NextPowerOfTwo(n)) && FloorLog2(NextPowerOfTwo(n)) == CeilLog2(n)
    ensures n <= NextPowerOfTwo(n)
    ensures forall k: nat | n <= Pow2(k) :: NextPowerOfTwo(n) <= Pow2(k)
  {
    BitTest(n);
    CeilFromFloor(n);
    Pow2IsPowerOfTwo(CeilLog2(n));
    CeilLog2Bounds(n);
    forall k: nat | n <= Pow2(k)
      ensures CeilLog2(n) <= k && Pow2(CeilLog2(n)) <= Pow2(k)
    {
      LeastExponent(n, k);
    }
  }

  lemma {:induction false} LeastExponent(n: nat, k: nat)
    requires 1 <= n <= Pow2(k)
    ensures CeilLog2(n) <= k && Pow2(CeilLog2(n)) <= Pow2(k)
  {
    CeilLog2Bounds(n);
    if k < CeilLog2(n) { Pow2Monotone(k, CeilLog2(n) - 1); }
    if CeilLog2(n) <= k { Pow2Monotone(CeilLog2(n), k); }
  }

  /** The padded size holds all entries. */
  lemma {:induction false} PaddedSizeSuffices(n: nat)
    requires n >= 1
    ensures 1 <= n <= NextPowerOfTwo(n)
  {
    NextPowerOfTwoIsLeast(n);
  }
}
