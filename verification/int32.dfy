/**
 Kotlin's `Int`: a 32-bit two's-complement integer whose `++` and `--`
 wrap around at the ends of the range instead of failing.

 `Wrap` is the reference definition (reduce modulo 2^32 into the signed
 range); `Succ` and `Pred` are the step operations as the hardware performs
 them, and their contracts tie them back to `Wrap`.
 */
module Int32 {

  const MIN: int := -0x8000_0000
  const MAX: int := 0x7fff_ffff
  const MODULUS: int := 0x1_0000_0000

  /** A value of Kotlin type `Int`. */
  type int32 = x: int | MIN <= x <= MAX

  /** The 32-bit two's-complement value of an unbounded integer: the unique
      member of the signed range congruent to `x` modulo 2^32. */
  function Wrap(x: int): (r: int32)
    ensures MIN <= x <= MAX ==> r == x
    ensures (x - r) % MODULUS == 0
  {
    (x - MIN) % MODULUS + MIN
  }

  /** Wrapping an intermediate sum does not change the wrapped total, so a
      chain of wrapping steps agrees with one wrap of the exact sum. */
  lemma WrapAddLeft(a: int, b: int)
    ensures Wrap(Wrap(a) + b) == Wrap(a + b)
  {
  }

  /** `x++` on a Kotlin `Int`: one more, except that `MAX` becomes `MIN`. */
  function Succ(x: int32): (r: int32)
    ensures r == Wrap(x + 1)
    ensures x != MAX ==> r == x + 1
  {
    if x == MAX then MIN else x + 1
  }

  /** `x--` on a Kotlin `Int`: one less, except that `MIN` becomes `MAX`. */
  function Pred(x: int32): (r: int32)
    ensures r == Wrap(x - 1)
    ensures x != MIN ==> r == x - 1
  {
    if x == MIN then MAX else x - 1
  }

  /** `Succ` and `Pred` undo each other on every value, extremes included. */
  lemma SuccPredInverse(x: int32)
    ensures Pred(Succ(x)) == x
    ensures Succ(Pred(x)) == x
  {
  }
}
