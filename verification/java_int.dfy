/** Java's 32-bit `int`: the range of `Integer` fields and the wrap-around of
    `+`, `-` and `IntStream.sum()` on it. */
module JavaInt {

  const MIN_VALUE: int := -0x8000_0000
  const MAX_VALUE: int := 0x7FFF_FFFF
  const MODULUS: int := 0x1_0000_0000

  type Int32 = x: int | MIN_VALUE <= x <= MAX_VALUE

  /** Two's-complement truncation of a mathematical integer to 32 bits. */
  function Wrap(x: int): (r: Int32)
    ensures MIN_VALUE <= x <= MAX_VALUE ==> r == x
  {
    (x - MIN_VALUE) % MODULUS + MIN_VALUE
  }

  /** `Wrap(x)` differs from `x` by a multiple of 2^32: the multiple is returned. */
  lemma WrapQuotient(x: int) returns (m: int)
    ensures x == Wrap(x) + MODULUS * m
  {
    m := (x - MIN_VALUE) / MODULUS;
  }

  /** Java `a + b` on ints. */
  function Add(a: Int32, b: Int32): Int32 {
    Wrap(a + b)
  }

  /** Java `a - b` on ints. */
  function Sub(a: Int32, b: Int32): Int32 {
    Wrap(a - b)
  }

  /** An int is determined by its residue: the only int that differs from
      `x` by a multiple of 2^32 is `Wrap(x)`. */
  lemma WrapUnique(x: int, r: Int32, m: int)
    requires x == r + MODULUS * m
    ensures Wrap(x) == r
  {
    var n := WrapQuotient(x);
    assert Wrap(x) - r == MODULUS * (m - n);
  }

  /** Wrapping an intermediate result changes nothing: `Wrap(Wrap(x) + y) == Wrap(x + y)`. */
  lemma WrapAbsorbs(x: int, y: int)
    ensures Wrap(Wrap(x) + y) == Wrap(x + y)
  {
    var m := WrapQuotient(x);
    var n := WrapQuotient(x + y);
    WrapUnique(Wrap(x) + y, Wrap(x + y), n - m);
  }
}
