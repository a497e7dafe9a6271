/** Bitwise operators of the source on unbounded naturals, and what they mean
    arithmetically on disjoint or contiguous bit ranges. */
module Bits {

  const TWO_64: int := 0x1_0000_0000_0000_0000

  function Pow2(k: nat): (p: nat)
    ensures p >= 1
  {
    if k == 0 then 1 else 2 * Pow2(k - 1)
  }

  lemma {:induction false} Pow2Adds(a: nat, b: nat)
    ensures Pow2(a + b) == Pow2(a) * Pow2(b)
  {
    if a > 0 {
      Pow2Adds(a - 1, b);
    }
  }

  lemma Pow2Small()
    ensures Pow2(1) == 2 && Pow2(2) == 4 && Pow2(7) == 128
  {
  }

  lemma Pow2Values()
    ensures Pow2(16) == 0x1_0000 && Pow2(28) == 0x1000_0000 && Pow2(56) == 0x100_0000_0000_0000
    ensures Pow2(63) == 0x8000_0000_0000_0000 && Pow2(64) == TWO_64
  {
    hide Pow2;
    Pow2Small();
    Pow2Adds(7, 7);
    Pow2Adds(2, 14);
    Pow2Adds(14, 14);
    Pow2Adds(28, 28);
    Pow2Adds(7, 56);
    Pow2Adds(1, 63);
  }

  function BitOr(a: nat, b: nat): nat
    decreases a + b
  {
    if a == 0 && b == 0 then 0
    else (if a % 2 == 1 || b % 2 == 1 then 1 else 0) + 2 * BitOr(a / 2, b / 2)
  }

  function BitAnd(a: nat, b: nat): nat
    decreases a + b
  {
    if a == 0 || b == 0 then 0
    else (if a % 2 == 1 && b % 2 == 1 then 1 else 0) + 2 * BitAnd(a / 2, b / 2)
  }

  lemma {:induction false} BitOrZero(a: nat)
    ensures BitOr(a, 0) == a
  {
    if a != 0 {
      BitOrZero(a / 2);
    }
  }

  /** Or-ing a shifted value with one below the shift is addition. */
  lemma {:induction false} BitOrDisjoint(a: nat, b: nat, k: nat)
    requires b < Pow2(k)
    ensures BitOr(a * Pow2(k), b) == a * Pow2(k) + b
  {
    if k == 0 {
      BitOrZero(a);
    } else {
      var high := a * Pow2(k - 1);
      assert a * Pow2(k) == 2 * high;
      BitOrDisjoint(a, b / 2, k - 1);
    }
  }

  /** The remainder of a division by an even number keeps the low bit. */
  lemma ModDouble(x: nat, p: nat)
    requires p >= 1
    ensures x % (2 * p) == x % 2 + 2 * ((x / 2) % p)
  {
    var q, r := (x / 2) / p, (x / 2) % p;
    assert x / 2 == q * p + r;
    assert x == 2 * (q * p + r) + x % 2;
    ModUnique(x, 2 * p, q, 2 * r + x % 2);
  }

  lemma ModUnique(x: int, d: int, q: int, r: int)
    requires d > 0 && 0 <= r < d
    requires x == q * d + r
    ensures x % d == r && x / d == q
  {
    var q', r' := x / d, x % d;
    assert x == q' * d + r';
    assert (q - q') * d == r' - r;
    assert (q' - q) * d == r - r';
    if q > q' {
      MulAtLeast(q - q', d);
    } else if q < q' {
      MulAtLeast(q' - q, d);
    }
  }

  lemma MulAtLeast(m: int, d: int)
    requires m >= 1 && d >= 0
    ensures m * d >= d
  {
  }

  lemma MaskHalves(p: nat)
    requires p >= 1
    ensures (2 * p - 1) / 2 == p - 1 && (2 * p - 1) % 2 == 1
  {
  }

  lemma DivTwice(x: nat, p: nat)
    requires p >= 1
    ensures (x / 2) / p == x / (2 * p)
  {
    var q, r := (x / 2) / p, (x / 2) % p;
    assert x / 2 == q * p + r;
    assert x == 2 * (q * p + r) + x % 2;
    ModUnique(x, 2 * p, q, 2 * r + x % 2);
  }

  // ---- bit by bit ---------------------------------------------------------

  lemma AndStep(a: nat, b: nat)
    ensures BitAnd(a, b) == (if a % 2 == 1 && b % 2 == 1 then 1 else 0) + 2 * BitAnd(a / 2, b / 2)
  {
  }

  lemma AndZero(a: nat)
    ensures BitAnd(a, 0) == 0
  {
  }

  lemma OrStep(a: nat, b: nat)
    ensures BitOr(a, b) / 2 == BitOr(a / 2, b / 2)
    ensures BitOr(a, b) % 2 == if a % 2 == 1 || b % 2 == 1 then 1 else 0
  {
  }

  /** The k low bits, and what is above them. */
  function LowBits(x: nat, k: nat): nat {
    if k == 0 then 0 else x % 2 + 2 * LowBits(x / 2, k - 1)
  }

  function ShiftRight(x: nat, k: nat): nat {
    if k == 0 then x else ShiftRight(x / 2, k - 1)
  }

  lemma {:induction false} LowIsRemainder(x: nat, k: nat)
    ensures LowBits(x, k) == x % Pow2(k)
  {
    if k > 0 {
      LowIsRemainder(x / 2, k - 1);
      ModDouble(x, Pow2(k - 1));
    }
  }

  lemma {:induction false} ShiftIsDivision(x: nat, k: nat)
    ensures ShiftRight(x, k) == x / Pow2(k)
  {
    if k > 0 {
      ShiftIsDivision(x / 2, k - 1);
      DivTwice(x, Pow2(k - 1));
    }
  }

  /** Masking with k low ones takes the k low bits. */
  lemma {:induction false} BitAndLowMask(x: nat, k: nat)
    ensures BitAnd(x, Pow2(k) - 1) == LowBits(x, k)
  {
    hide BitAnd;
    if k == 0 {
      AndZero(x);
    } else {
      AndStep(x, Pow2(k) - 1);
      MaskHalves(Pow2(k - 1));
      BitAndLowMask(x / 2, k - 1);
    }
  }

  /** Masking with the single bit 2^k extracts that bit. */
  lemma {:induction false} BitAndSingle(x: nat, k: nat)
    ensures BitAnd(x, Pow2(k)) == if ShiftRight(x, k) % 2 == 1 then Pow2(k) else 0
  {
    hide BitAnd;
    AndStep(x, Pow2(k));
    if k == 0 {
      AndZero(x / 2);
    } else {
      BitAndSingle(x / 2, k - 1);
    }
  }

  /** A mask or-ed in is found again by and-ing with it. */
  lemma {:induction false} BitAndAbsorbs(x: nat, m: nat)
    ensures BitAnd(BitOr(x, m), m) == m
    decreases x + m
  {
    if m != 0 {
      BitAndAbsorbs(x / 2, m / 2);
    }
  }

  /** Shifting right distributes over or. */
  lemma {:induction false} BitOrHigh(a: nat, b: nat, k: nat)
    ensures ShiftRight(BitOr(a, b), k) == BitOr(ShiftRight(a, k), ShiftRight(b, k))
  {
    hide BitOr;
    if k > 0 {
      OrStep(a, b);
      BitOrHigh(a / 2, b / 2, k - 1);
    }
  }

  /** Or-ing in a value shifted left by k leaves the low j bits, j <= k. */
  lemma {:induction false} BitOrLow(a: nat, k: nat, b: nat, j: nat)
    requires j <= k
    ensures LowBits(BitOr(a * Pow2(k), b), j) == LowBits(b, j)
  {
    hide BitOr;
    if j > 0 {
      var high := a * Pow2(k - 1);
      assert a * Pow2(k) == 2 * high;
      OrStep(2 * high, b);
      BitOrLow(a, k - 1, b / 2, j - 1);
    }
  }

  lemma {:induction false} BitOrBound(a: nat, b: nat, k: nat)
    requires a < Pow2(k) && b < Pow2(k)
    ensures BitOr(a, b) < Pow2(k)
  {
    hide BitOr;
    if k > 0 {
      OrStep(a, b);
      BitOrBound(a / 2, b / 2, k - 1);
    } else {
      BitOrZero(0);
    }
  }
}
