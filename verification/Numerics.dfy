/** Tick and nanosecond conversion with a 128-bit intermediate (dpdkx/detail/numerics.hpp). */
module Numerics {
  import opened Bits
  import opened Bytes

  const NS_PER_S: U64 := 1_000_000_000

  /** The form used where the compiler divides 128-bit integers itself. */
  function MulDiv(x: U64, n: U64, d: U64): U64
    requires d != 0
  {
    ((x as int * n as int) / d) % TWO_64
  }

  /** The form that cuts the product into two 64-bit halves and glues them again. */
  function MulDivSplit(x: U64, n: U64, d: U64): U64
    requires d != 0
  {
    var product := x as int * n as int;
    var low := product % TWO_64;
    var high := (product / TWO_64) % TWO_64;
    (BitOr(high * TWO_64, low) / d) % TWO_64
  }

  /** The real number of nanoseconds, rounded down; no width limit. */
  function Scaled(x: nat, n: nat, d: nat): nat
    requires d != 0
  {
    DivNonNegative(x * n, d);
    x * n / d
  }

  lemma DivNonNegative(a: nat, d: nat)
    requires d != 0
    ensures a / d >= 0
  {
  }

  lemma MulMonotone(a: nat, b: nat, c: nat)
    requires a <= b
    ensures a * c <= b * c
  {
  }

  lemma ProductFits128(x: U64, n: U64)
    ensures 0 <= x as int * n as int < TWO_64 * TWO_64
  {
    MulMonotone(x, TWO_64, n);
    MulMonotone(n, TWO_64, TWO_64);
  }

  lemma HalvesRecombine(product: nat)
    requires product < TWO_64 * TWO_64
    ensures (product / TWO_64) % TWO_64 == product / TWO_64
    ensures BitOr((product / TWO_64) * TWO_64, product % TWO_64) == product
  {
    var high, low := product / TWO_64, product % TWO_64;
    assert product == high * TWO_64 + low;
    Pow2Values();
    BitOrDisjoint(high, low, 64);
  }

  /** Both forms agree on all operands, and both are the true quotient exactly
      when that quotient fits 64 bits. */
  lemma MulDivForms(x: U64, n: U64, d: U64)
    requires d != 0
    ensures MulDivSplit(x, n, d) == MulDiv(x, n, d)
    ensures MulDiv(x, n, d) == Scaled(x, n, d) <==> Scaled(x, n, d) < TWO_64
  {
    var product := x as int * n as int;
    ProductFits128(x, n);
    HalvesRecombine(product);
    DivNonNegative(product, d);
  }

  // ---- integer division facts -------------------------------------------

  lemma DivBounds(a: int, d: int)
    requires d > 0
    ensures (a / d) * d <= a < (a / d) * d + d
  {
  }

  lemma DivAtLeast(a: int, d: int, q: int)
    requires d > 0 && q * d <= a
    ensures q <= a / d
  {
    DivBounds(a, d);
    var gap := q - a / d;
    assert gap * d == q * d - (a / d) * d;
    if gap >= 1 {
      MulAtLeast(gap, d);
    }
  }

  lemma DivAtMost(a: int, d: int, q: int)
    requires d > 0 && a < q * d + d
    ensures a / d <= q
  {
    DivBounds(a, d);
    var gap := a / d - q;
    assert gap * d == (a / d) * d - q * d;
    if gap >= 1 {
      MulAtLeast(gap, d);
    }
  }

  // ---- device clock -----------------------------------------------------

  /** `device::timestamp_fix`: device ticks to nanoseconds. */
  function TimestampFix(ticks: U64, hz: U64): U64
    requires hz != 0
  {
    MulDiv(ticks, NS_PER_S, hz)
  }

  /** Nanoseconds to device ticks, as written into a send-on-timestamp packet. */
  function ToTicks(ns: U64, hz: U64): U64 {
    MulDiv(ns, hz, NS_PER_S)
  }

  lemma TimestampFixMonotone(a: U64, b: U64, hz: U64)
    requires hz != 0 && a <= b && Scaled(b, NS_PER_S, hz) < TWO_64
    ensures TimestampFix(a, hz) <= TimestampFix(b, hz)
  {
    MulMonotone(a, b, NS_PER_S);
    var p, q := a as int * NS_PER_S as int, b as int * NS_PER_S as int;
    DivBounds(p, hz);
    DivAtLeast(q, hz, p / hz);
    MulDivForms(a, NS_PER_S, hz);
    MulDivForms(b, NS_PER_S, hz);
  }

  /** The most a trip through device ticks can lose. */
  function RoundTripLoss(hz: U64): int
    requires hz != 0
  {
    (NS_PER_S as int - 1 + (hz as int - 1)) / hz
  }

  /** ns -> ticks -> ns never gains and loses at most ceil((NS_PER_S - 1) / hz). */
  lemma ClockRoundTrip(ns: U64, hz: U64)
    requires hz != 0 && Scaled(ns, hz, NS_PER_S) < TWO_64
    ensures ns - RoundTripLoss(hz) <= TimestampFix(ToTicks(ns, hz), hz) <= ns
  {
    var loss := RoundTripLoss(hz);
    var a := ns as int * hz as int;
    var ticks := a / NS_PER_S;
    MulDivForms(ns, hz, NS_PER_S);
    assert ToTicks(ns, hz) == ticks;

    var b := ticks * NS_PER_S as int;
    DivBounds(a, NS_PER_S);
    assert a - (NS_PER_S as int - 1) <= b <= a;

    // never gains
    DivAtMost(b, hz, ns);
    DivNonNegative(b, hz);
    MulDivForms(ticks, NS_PER_S, hz);
    assert TimestampFix(ticks, hz) == b / hz;

    // loses at most `loss`
    DivBounds(NS_PER_S as int - 1 + (hz as int - 1), hz);
    assert loss * hz >= NS_PER_S as int - 1;
    assert (ns - loss) * hz == a - loss * hz;
    DivAtLeast(b, hz, ns - loss);
  }

  /** The loss bound is met: a one-hertz clock drops all but whole seconds. */
  lemma RoundTripLossIsReached()
    ensures TimestampFix(ToTicks(NS_PER_S - 1, 1), 1) == NS_PER_S - 1 - RoundTripLoss(1)
  {
  }
}
