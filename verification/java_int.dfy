/**
 * Java and Kotlin `Int` arithmetic: 32-bit two's complement with silent wrap-around,
 * and division that truncates toward zero (unlike Dafny's Euclidean `/` and `%`).
 */
module JavaInt {

  const INT_MIN: int := -0x8000_0000
  const INT_MAX: int := 0x7FFF_FFFF
  const MODULUS: int := 0x1_0000_0000

  predicate InRange(x: int)
  {
    INT_MIN <= x <= INT_MAX
  }

  type Int32 = x: int | InRange(x)

  function Abs(x: int): nat
  {
    if x < 0 then -x else x
  }

  /** The 32-bit value a Java `int` holds after an operation whose exact result is `x`. */
  function Wrap(x: int): (r: Int32)
    ensures InRange(x) ==> r == x
    ensures (x - r) % MODULUS == 0
  {
    (x - INT_MIN) % MODULUS + INT_MIN
  }

  function Add(a: Int32, b: Int32): Int32
  {
    Wrap(a + b)
  }

  function Sub(a: Int32, b: Int32): Int32
  {
    Wrap(a - b)
  }

  function Mul(a: Int32, b: Int32): Int32
  {
    Wrap(a * b)
  }

  /** Quotient of two naturals, rounded down. */
  function NatQuot(x: nat, y: nat): nat
    requires y > 0
  {
    x / y
  }

  /** Mathematical quotient rounded toward zero, as the JVM's `idiv`/`ldiv` compute it. */
  function Quot(a: int, b: int): (q: int)
    requires b != 0
    ensures Abs(q) == NatQuot(Abs(a), Abs(b))
    ensures (a < 0) == (b < 0) ==> q >= 0
    ensures (a < 0) != (b < 0) ==> q <= 0
  {
    var m: int := NatQuot(Abs(a), Abs(b));
    if (a < 0) == (b < 0) then m else -m
  }

  /** Java `a / b` on `int` (division by zero throws and is the caller's concern). */
  function Div(a: Int32, b: Int32): Int32
    requires b != 0
  {
    Wrap(Quot(a, b))
  }

  /** Java `a % b` on `int`: the remainder takes the sign of the dividend and is smaller than the divisor. */
  function Rem(a: Int32, b: Int32): (r: Int32)
    requires b != 0
    ensures a == Quot(a, b) * b + r
    ensures Abs(r) < Abs(b)
    ensures a >= 0 ==> r >= 0
    ensures a < 0 ==> r <= 0
  {
    assert InRange(b);
    RemOfMagnitudes(a, b);
    a - Quot(a, b) * b
  }

  /** The truncated remainder is the remainder of the magnitudes, with the dividend's sign. */
  lemma RemOfMagnitudes(a: int, b: int)
    requires b != 0
    ensures a - Quot(a, b) * b == (if a < 0 then -(Abs(a) % Abs(b)) else Abs(a) % Abs(b))
  {
    var m := NatQuot(Abs(a), Abs(b));
    assert Abs(a) == m * Abs(b) + Abs(a) % Abs(b);
    if a < 0 && b < 0 {
      assert Quot(a, b) * b == m * Abs(b) * -1;
    } else if a < 0 {
      assert Quot(a, b) * b == -(m * Abs(b));
    } else if b < 0 {
      assert Quot(a, b) * b == m * Abs(b);
    } else {
      assert Quot(a, b) * b == m * Abs(b);
    }
  }

  lemma QuotOfNonNegatives(a: int, b: int)
    requires a >= 0 && b > 0
    ensures Quot(a, b) == a / b
  {
  }
}
