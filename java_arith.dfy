/**
 * The pieces of Java integer arithmetic the wheel relies on: `long` division,
 * which truncates toward zero (Dafny's `/` is Euclidean), and the `(int)`
 * narrowing cast and `int` addition, which keep the low 32 bits.
 */
module JavaArith {

  const Int32Min: int := -0x8000_0000
  const Int32Max: int := 0x7fff_ffff

  predicate InInt32(x: int) {
    Int32Min <= x <= Int32Max
  }

  /** Java's `a / b` for a positive divisor: the quotient rounded toward zero. */
  function JavaDiv(a: int, b: int): (q: int)
    requires b > 0
    ensures a >= 0 ==> q >= 0 && q * b <= a < q * b + b
    ensures a < 0 ==> q <= 0 && q * b - b < a <= q * b
    ensures q == 0 <==> -b < a < b
  {
    JavaDivBounds(a, b);
    if a >= 0 then a / b else -((-a) / b)
  }

  /** The truncated quotient times the divisor is within one divisor of `a`, on the side of 0. */
  lemma JavaDivBounds(a: int, b: int)
    requires b > 0
    ensures var q := if a >= 0 then a / b else -((-a) / b);
      && (a >= 0 ==> 0 <= q && q * b <= a < q * b + b)
      && (a < 0 ==> q <= 0 && q * b - b < a <= q * b)
  {
    if a >= 0 {
      NonNegativeQuotient(a, b);
    } else {
      NonNegativeQuotient(-a, b);
      var p := (-a) / b;
      assert (-p) * b == -(p * b);
    }
  }

  /** Euclidean division of a non-negative number, which Java's division agrees with. */
  lemma NonNegativeQuotient(n: int, b: int)
    requires n >= 0 && b > 0
    ensures 0 <= n / b && (n / b) * b <= n < (n / b) * b + b
    ensures n / b == 0 <==> n < b
  {
    var q, m := n / b, n % b;
    assert n == q * b + m && 0 <= m < b;
    if q >= 1 {
      assert q * b - b == (q - 1) * b;
      assert (q - 1) * b >= 0;
    }
  }

  /** Two's-complement wrap-around to 32 bits: Java's `(int)` cast of a `long`, and the result of `int` addition. */
  function ToInt32(x: int): (r: int)
    ensures InInt32(r)
    ensures (x - r) % 0x1_0000_0000 == 0
    ensures InInt32(x) ==> r == x
  {
    (x - Int32Min) % 0x1_0000_0000 + Int32Min
  }
}
