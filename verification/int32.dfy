/** Two's-complement 32-bit integers, as C#'s `int` in an unchecked context. */
module Int32 {

  const Min: int := -0x8000_0000
  const Max: int := 0x7fff_ffff
  const Modulus: int := 0x1_0000_0000

  type Int = x: int | Min <= x <= Max

  predicate InRange(x: int) {
    Min <= x <= Max
  }

  /** The 32-bit value C# keeps of the mathematical integer `x`. */
  function Wrap(x: int): (r: Int)
    ensures InRange(x) ==> r == x
    ensures (x - r) % Modulus == 0
  {
    Min + (x - Min) % Modulus
  }

  /** Unchecked `a * b`. */
  function Mul(a: Int, b: Int): (r: Int)
    ensures InRange(a * b) ==> r == a * b
    ensures (a * b - r) % Modulus == 0
  {
    Wrap(a * b)
  }

  /** Unchecked `a + b`. */
  function Add(a: Int, b: Int): (r: Int)
    ensures InRange(a + b) ==> r == a + b
    ensures (a + b - r) % Modulus == 0
  {
    Wrap(a + b)
  }

  /** Two integers less than one modulus apart wrap to the same value only when equal. */
  lemma WrapInjective(x: int, y: int)
    requires -Modulus < x - y < Modulus
    requires Wrap(x) == Wrap(y)
    ensures x == y
  {
    var qx, qy := (x - Min) / Modulus, (y - Min) / Modulus;
    assert x - y == Modulus * (qx - qy);
  }
}
