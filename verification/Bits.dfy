/**
  Machine words as natural numbers: bitwise or, and-not, shifts by powers of two, and what
  each does to every single bit.
 */
module Bits {

  /** The bitwise or of two numbers. */
  function Or(x: nat, y: nat): nat
    decreases x + y
  {
    if x == 0 && y == 0 then 0
    else 2 * Or(x / 2, y / 2) + if x % 2 == 1 || y % 2 == 1 then 1 else 0
  }

  lemma {:induction false} OrZero(x: nat)
    ensures Or(x, 0) == x && Or(0, x) == x
  {
    if x > 0 { OrZero(x / 2); }
  }

  lemma {:induction false} OrAtLeast(x: nat, y: nat)
    ensures Or(x, y) >= x && Or(x, y) >= y
    decreases x + y
  {
    if x > 0 || y > 0 { OrAtLeast(x / 2, y / 2); }
  }

  function Pow2(k: nat): (p: nat)
    ensures p > k
  {
    if k == 0 then 1 else 2 * Pow2(k - 1)
  }

  lemma OrStep(x: nat, y: nat)
    ensures Or(x, y) == 2 * Or(x / 2, y / 2) + if x % 2 == 1 || y % 2 == 1 then 1 else 0
  {
    assert Or(0, 0) == 0;
  }

  lemma Halve(a: nat, b: nat, p: nat)
    ensures (a + b * (2 * p)) / 2 == a / 2 + b * p && (a + b * (2 * p)) % 2 == a % 2
  {
    assert b * (2 * p) == 2 * (b * p);
  }

  /** Or works separately on the low k bits and the rest. */
  lemma {:induction false} OrSplits(a: nat, b: nat, c: nat, d: nat, k: nat)
    requires a < Pow2(k) && c < Pow2(k)
    ensures Or(a + b * Pow2(k), c + d * Pow2(k)) == Or(a, c) + Or(b, d) * Pow2(k)
    decreases k
  {
    hide Or;
    if k == 0 {
      OrZero(0);
    } else {
      var p := Pow2(k - 1);
      assert a / 2 < p && c / 2 < p;
      OrSplits(a / 2, b, c / 2, d, k - 1);
      OrDoubles(a, b, c, d, p);
    }
  }

  lemma OrDoubles(a: nat, b: nat, c: nat, d: nat, p: nat)
    requires Or(a / 2 + b * p, c / 2 + d * p) == Or(a / 2, c / 2) + Or(b, d) * p
    ensures Or(a + b * (2 * p), c + d * (2 * p)) == Or(a, c) + Or(b, d) * (2 * p)
  {
    hide Or;
    Halve(a, b, p);
    Halve(c, d, p);
    OrStep(a + b * (2 * p), c + d * (2 * p));
    OrStep(a, c);
    assert Or(b, d) * (2 * p) == 2 * (Or(b, d) * p);
  }

  lemma PowersOfTwo()
    ensures Pow2(2) == 4 && Pow2(4) == 16 && Pow2(6) == 64 && Pow2(8) == 256
  {
    assert Pow2(1) == 2 && Pow2(3) == 8 && Pow2(5) == 32 && Pow2(7) == 128;
  }

  /** Bits that do not meet add up. */
  lemma OrAdds(hi: nat, lo: nat, m: nat, k: nat)
    requires m == Pow2(k) && lo < m
    ensures Or(hi * m, lo) == hi * m + lo && Or(lo, hi * m) == hi * m + lo
  {
    hide Or, Pow2;
    OrSplits(0, hi, lo, 0, k);
    OrSplits(lo, 0, 0, hi, k);
    OrZero(hi);
    OrZero(lo);
  }

  // ---------------------------------------------------------------------------
  // Single bits

  predicate Bit(n: nat, k: nat) {
    if k == 0 then n % 2 == 1 else Bit(n / 2, k - 1)
  }

  /** `n & ~m`. */
  function AndNot(n: nat, m: nat): nat {
    if n == 0 then 0 else 2 * AndNot(n / 2, m / 2) + if n % 2 == 1 && m % 2 == 0 then 1 else 0
  }

  /** The number of zero bits below the lowest bit that is set. */
  function TrailingZeros(n: nat): nat
    requires n > 0
  {
    if n % 2 == 1 then 0 else 1 + TrailingZeros(n / 2)
  }

  lemma {:induction false} BitOfZero(k: nat)
    ensures !Bit(0, k)
  {
    if k > 0 { BitOfZero(k - 1); }
  }

  lemma {:induction false} BitOfPow2(r: nat, k: nat)
    ensures Bit(Pow2(r), k) <==> k == r
  {
    if r == 0 {
      if k > 0 { BitOfZero(k - 1); }
    } else if k > 0 {
      BitOfPow2(r - 1, k - 1);
    }
  }

  lemma {:induction false} BitOfOr(n: nat, m: nat, k: nat)
    ensures Bit(Or(n, m), k) <==> Bit(n, k) || Bit(m, k)
    decreases k
  {
    hide Or;
    OrStep(n, m);
    var h, r := Or(n / 2, m / 2), Or(n, m);
    assert r / 2 == h && (r % 2 == 1 <==> n % 2 == 1 || m % 2 == 1);
    if k > 0 { BitOfOr(n / 2, m / 2, k - 1); }
  }

  lemma {:induction false} BitOfAndNot(n: nat, m: nat, k: nat)
    ensures Bit(AndNot(n, m), k) <==> Bit(n, k) && !Bit(m, k)
    decreases k
  {
    if n == 0 {
      BitOfZero(k);
    } else if k > 0 {
      BitOfAndNot(n / 2, m / 2, k - 1);
    }
  }

  lemma {:induction false} LowestBit(n: nat)
    requires n > 0
    ensures Bit(n, TrailingZeros(n)) && forall i :: 0 <= i < TrailingZeros(n) ==> !Bit(n, i)
  {
    if n % 2 == 0 {
      LowestBit(n / 2);
      forall i | 0 <= i < TrailingZeros(n) ensures !Bit(n, i) { if i > 0 { assert !Bit(n / 2, i - 1); } }
    }
  }

  /** `n >> w`. */
  function ShiftRight(n: nat, w: nat): nat {
    if w == 0 then n else ShiftRight(n / 2, w - 1)
  }

  /** `n << w`. */
  function ShiftLeft(n: nat, w: nat): nat {
    if w == 0 then n else 2 * ShiftLeft(n, w - 1)
  }

  /** The low `w` bits of `n`, as a conversion to a `w`-bit unsigned type keeps them. */
  function Truncate(n: nat, w: nat): nat {
    if w == 0 then 0 else 2 * Truncate(n / 2, w - 1) + n % 2
  }

  lemma {:induction false} BitOfTruncate(n: nat, w: nat, k: nat)
    ensures Bit(Truncate(n, w), k) <==> k < w && Bit(n, k)
    decreases w
  {
    if w == 0 {
      BitOfZero(k);
    } else if k > 0 {
      BitOfTruncate(n / 2, w - 1, k - 1);
    }
  }

  /** Shifting right and back left clears the low bits and no others. */
  lemma {:induction false} BitOfShifts(n: nat, w: nat, k: nat)
    ensures Bit(ShiftLeft(ShiftRight(n, w), w), k) <==> k >= w && Bit(n, k)
    decreases w
  {
    if w > 0 && k > 0 {
      BitOfShifts(n / 2, w - 1, k - 1);
    }
  }

  lemma {:induction false} ShiftOfOne(w: nat)
    ensures ShiftLeft(1, w) == Pow2(w)
  {
    if w > 0 { ShiftOfOne(w - 1); }
  }

  /** Numbers with the same bits are the same. */
  lemma {:induction false} SameBits(n: nat, m: nat)
    requires forall k: nat :: Bit(n, k) <==> Bit(m, k)
    ensures n == m
    decreases n + m
  {
    assert Bit(n, 0) <==> Bit(m, 0);
    if n > 0 || m > 0 {
      forall k: nat ensures Bit(n / 2, k) <==> Bit(m / 2, k) {
        assert Bit(n, k + 1) <==> Bit(m, k + 1);
      }
      SameBits(n / 2, m / 2);
    }
  }

  lemma {:induction false} BitOfAllOnes(w: nat, k: nat)
    ensures Bit(Pow2(w) - 1, k) <==> k < w
  {
    if w == 0 {
      BitOfZero(k);
    } else if k > 0 {
      assert (Pow2(w) - 1) / 2 == Pow2(w - 1) - 1;
      BitOfAllOnes(w - 1, k - 1);
    }
  }
}
