/** Go's `int64` and its two's-complement wrap-around on overflow. */
module Int64 {
  const Modulus: int := 0x1_0000_0000_0000_0000
  const Min: int := -0x8000_0000_0000_0000
  const Max: int := 0x7FFF_FFFF_FFFF_FFFF

  type int64 = x: int | Min <= x <= Max

  /** The int64 that Go's arithmetic produces for the mathematical value `x`. */
  function Wrap(x: int): (r: int64)
    ensures (x - r) % Modulus == 0
    ensures Min <= x <= Max ==> r == x
  {
    (x - Min) % Modulus + Min
  }

  /** `Wrap` is the only int64 congruent to `x`. */
  lemma WrapUnique(x: int, y: int64)
    requires (x - y) % Modulus == 0
    ensures y == Wrap(x)
  {
  }

  /** Go's `a * b` on int64 operands. */
  function Mul(a: int64, b: int64): (r: int64)
    ensures (a * b - r) % Modulus == 0
    ensures Min <= a * b <= Max ==> r == a * b
  {
    Wrap(a * b)
  }

  /**
   * Two differences that are multiples of the modulus combine into one. The
   * modulus is written as a literal here so that the solver sees the
   * products below as linear.
   */
  lemma MultiplesCombine(a: int, b: int)
    requires a % 0x1_0000_0000_0000_0000 == 0 && b % 0x1_0000_0000_0000_0000 == 0
    ensures (1024 * a + b) % 0x1_0000_0000_0000_0000 == 0
  {
    var i := a / 0x1_0000_0000_0000_0000;
    var j := b / 0x1_0000_0000_0000_0000;
    assert 1024 * a + b == (1024 * i + j) * 0x1_0000_0000_0000_0000;
  }

  /**
   * Wrapping at each of the two products by 1024 is the same as wrapping the
   * full product once.
   */
  lemma MebiProductWraps(m: int64)
    ensures Mul(Mul(m, 1024), 1024) == Wrap(m * 1048576)
  {
    var k: int := Mul(m, 1024);
    var r: int := Mul(Mul(m, 1024), 1024);
    MultiplesCombine(m * 1024 - k, k * 1024 - r);
    assert m * 1048576 - r == 1024 * (m * 1024 - k) + (k * 1024 - r);
    WrapUnique(m * 1048576, r);
  }

  /** Go's `m*1024*1024`, evaluated left to right, each product wrapping. */
  function TimesMebi(m: int64): (r: int64)
    ensures r == Wrap(m * 1048576)
  {
    MebiProductWraps(m);
    Mul(Mul(m, 1024), 1024)
  }

  /** Below 2^43 megabytes in magnitude, the product is exact. */
  lemma TimesMebiExact(m: int64)
    requires -0x800_0000_0000 <= m < 0x800_0000_0000
    ensures TimesMebi(m) == m * 1048576
  {
  }

  /** From 2^43 megabytes on the product no longer fits: the result wraps to the most negative int64. */
  lemma TimesMebiOverflows()
    ensures TimesMebi(0x800_0000_0000) == Min
  {
  }

  /**
   * Below -2^43 megabytes the threshold can be positive, zero or negative,
   * depending on how far the product wraps.
   */
  lemma TimesMebiBelowRange()
    ensures TimesMebi(-0x800_0000_0001) == 0x8000_0000_0000_0000 - 0x10_0000
    ensures TimesMebi(-0x1000_0000_0000) == 0
    ensures TimesMebi(-0x1800_0000_0000) == Min
  {
  }
}
