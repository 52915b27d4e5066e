/** What every other module uses: options, bytes, and the few facts of arithmetic that are not linear. */
module Basics {

  datatype Option<T> = None | Some(value: T)

  type Byte = b: int | 0 <= b < 256

  function Min(a: int, b: int): int { if a < b then a else b }

  lemma MulMono(x: nat, y: nat, a: nat)
    requires x <= y
    ensures x * a <= y * a
  {
  }

  lemma DivBounds(x: nat, a: nat)
    requires a > 0
    ensures x == x / a * a + x % a && x % a < a
  {
  }

  /** The quotient from below and from above. */
  lemma DivBracket(x: nat, a: nat)
    requires a > 0
    ensures x / a * a <= x < (x / a + 1) * a
  {
  }
}
