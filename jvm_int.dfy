/** The fixed-width integers of the JVM, over Dafny's unbounded `int`: the ranges of `Int` and
    `Long`, two's-complement wrap-around (`Long` subtraction, `Long.toInt()`), Kotlin's
    truncating `/` and `%`, and `coerceAtLeast`. */
module JvmInt {

  const IntMin := -0x8000_0000
  /** `Integer.MAX_VALUE`; `java.net.URI` also refuses a port number above it. */
  const IntMax := 0x7fff_ffff
  const LongMin := -0x8000_0000_0000_0000
  const LongMax := 0x7fff_ffff_ffff_ffff

  predicate IsInt(x: int) { IntMin <= x <= IntMax }

  predicate IsLong(x: int) { LongMin <= x <= LongMax }

  /** `x` reduced to `Long` by two's-complement wrap-around: the only `Long` that differs from
      `x` by a multiple of 2^64. */
  function ToLong(x: int): (r: int)
    ensures IsLong(r)
    ensures (x - r) % 0x1_0000_0000_0000_0000 == 0
    ensures IsLong(x) ==> r == x
  {
    (x - LongMin) % 0x1_0000_0000_0000_0000 + LongMin
  }

  /** `Long.toInt()`: keeps the low 32 bits, read as a signed `Int`. */
  function ToInt(x: int): (r: int)
    ensures IsInt(r)
    ensures (x - r) % 0x1_0000_0000 == 0
    ensures IsInt(x) ==> r == x
  {
    (x - IntMin) % 0x1_0000_0000 + IntMin
  }

  /** Kotlin's `/` on integers: the quotient rounded toward zero. */
  function Quot(a: int, b: int): (q: int)
    requires b > 0
    ensures a >= 0 ==> q == a / b
    ensures a < 0 ==> q == -((-a) / b)
  {
    if a >= 0 then a / b else -((-a) / b)
  }

  /** Kotlin's `%` on integers: the remainder takes the sign of the dividend. */
  function Rem(a: int, b: int): (r: int)
    requires b > 0
    ensures a == b * Quot(a, b) + r
    ensures a >= 0 ==> 0 <= r < b
    ensures a < 0 ==> -b < r <= 0
  {
    a - b * Quot(a, b)
  }

  /** `coerceAtLeast(low)`. */
  function AtLeast(x: int, low: int): (r: int)
    ensures r >= low && r >= x
    ensures r == x || r == low
  {
    if x < low then low else x
  }

  /** Truncating division and remainder of a negative number are those of its opposite, negated. */
  lemma QuotRemNegate(a: int, b: int)
    requires b > 0
    ensures Quot(-a, b) == -Quot(a, b) && Rem(-a, b) == -Rem(a, b)
  {
    if a > 0 {
      assert Quot(-a, b) == -(a / b);
    } else if a < 0 {
      assert Quot(a, b) == -((-a) / b);
    }
    assert Rem(-a, b) == -a - b * Quot(-a, b);
    assert b * Quot(-a, b) == -(b * Quot(a, b));
  }
}
