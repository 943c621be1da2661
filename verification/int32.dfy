/**
  Rust's `i32`: the type of the snake's coordinates.

  Dafny integers are unbounded, so the 32-bit width is written out as a
  newtype. Rust's `+=` / `-=` on `i32` panic on overflow in a debug build and
  wrap around in a release build; `Wrap` is the release-build reduction of an
  exact integer result back into the type.
 */
module Int32 {

  const MIN: int := -0x8000_0000
  const MAX: int := 0x7fff_ffff

  /** Number of distinct `i32` values: results that differ by a multiple of it wrap to the same value. */
  const MODULUS: int := 0x1_0000_0000

  newtype i32 = v: int | -0x8000_0000 <= v < 0x8000_0000

  /** True iff `v` is representable as an `i32`, i.e. an arithmetic result that does not overflow. */
  predicate InRange(v: int) {
    MIN <= v <= MAX
  }

  /** Two's-complement wrap-around: the unique `i32` congruent to `v` modulo 2^32. */
  function Wrap(v: int): (r: i32)
    ensures (r as int - v) % MODULUS == 0
    ensures InRange(v) ==> r as int == v
  {
    var q := (v - MIN) / MODULUS;
    var m := (v - MIN) % MODULUS;
    assert v - MIN == q * MODULUS + m;
    assert m + MIN - v == -q * MODULUS;
    (m + MIN) as i32
  }

  /** Overflowing the top of the range lands on the bottom, and vice versa. */
  lemma WrapAtEdges()
    ensures Wrap(MAX + 1) as int == MIN
    ensures Wrap(MIN - 1) as int == MAX
  {
  }
}
