/** Facts shared by every fixed-step loop of the model. */
module Common {

  /** How many times `for _ in range(n)` runs its body: n when n is positive, otherwise never. */
  function RangeLength(n: int): (len: nat)
    ensures n >= 0 ==> len == n
    ensures n < 0 ==> len == 0
  {
    if n > 0 then n else 0
  }

  /** The product of two non-negative reals is non-negative. */
  lemma NonNegProduct(a: real, b: real)
    requires a >= 0.0 && b >= 0.0
    ensures a * b >= 0.0
  {
  }
}
