/** Java's fixed-width integer semantics, written out over Dafny's unbounded integers. */
module JavaNum {

  const LONG_MIN: int := -0x8000_0000_0000_0000
  const LONG_MAX: int := 0x7FFF_FFFF_FFFF_FFFF
  const INT_MIN: int := -0x8000_0000
  const INT_MAX: int := 0x7FFF_FFFF

  /** A Java `long`. */
  type Long = x: int | LONG_MIN <= x <= LONG_MAX

  /** A Java `int`. */
  type Int = x: int | INT_MIN <= x <= INT_MAX

  /** The Euclidean remainder of a by a positive b, by repeated subtraction or addition of b. */
  function EMod(a: int, b: int): (r: int)
    requires b > 0
    ensures 0 <= r < b
    decreases if a < 0 then b - a else a
  {
    if a < 0 then EMod(a + b, b) else if a >= b then EMod(a - b, b) else a
  }

  /** A nonzero multiple of b is at least as large as b in magnitude. */
  lemma MulMagnitude(b: int, d: int)
    ensures d != 0 ==> Magnitude(b * d) >= Magnitude(b)
  {
    if d > 0 {
      assert b * d == b * (d - 1) + b;
      if b >= 0 {
        assert b * (d - 1) >= 0;
      } else {
        assert b * (d - 1) <= 0;
      }
    } else if d < 0 {
      assert b * d == b * (d + 1) - b;
      if b >= 0 {
        var nd := -(d + 1);
        assert b * nd >= 0;
        assert b * (d + 1) == 0 - b * nd;
      } else {
        var nb, nd := -b, -(d + 1);
        assert nb * nd >= 0;
        assert b * (d + 1) == nb * nd;
      }
    }
  }

  /** Quotient and remainder are unique: any q, r with a == b * q + r and 0 <= r < |b| are
      Dafny's `/` and `%`. */
  lemma DivModUnique(a: int, b: int, q: int, r: int)
    requires b != 0 && 0 <= r < Magnitude(b) && a == b * q + r
    ensures a / b == q && a % b == r
  {
    var q0, r0 := a / b, a % b;
    var dq := q - q0;
    assert b * q - b * q0 == b * dq;
    assert b * dq == r0 - r;
    MulMagnitude(b, dq);
  }

  /** EMod is Dafny's own `%` on a positive divisor. */
  lemma {:induction false} EModIsMod(a: int, b: int)
    requires b > 0
    ensures EMod(a, b) == a % b
    decreases if a < 0 then b - a else a
  {
    if a < 0 {
      EModIsMod(a + b, b);
      assert b * ((a + b) / b - 1) == b * ((a + b) / b) - b;
      DivModUnique(a, b, (a + b) / b - 1, (a + b) % b);
    } else if a >= b {
      EModIsMod(a - b, b);
      assert b * ((a - b) / b + 1) == b * ((a - b) / b) + b;
      DivModUnique(a, b, (a - b) / b + 1, (a - b) % b);
    } else {
      DivModUnique(a, b, 0, a);
    }
  }

  /** Java `long` arithmetic: the low 64 bits of x, read as two's complement. */
  function WrapLong(x: int): (r: Long)
    ensures LONG_MIN <= x <= LONG_MAX ==> r == x
  {
    EMod(x - LONG_MIN, 0x1_0000_0000_0000_0000) + LONG_MIN
  }

  /** The narrowing cast `(int) x`: the low 32 bits of x, read as two's complement. */
  function WrapInt(x: int): (r: Int)
    ensures INT_MIN <= x <= INT_MAX ==> r == x
  {
    EMod(x - INT_MIN, 0x1_0000_0000) + INT_MIN
  }

  /** Wrapping changes a value by a multiple of 2^64 (of 2^32 for `int`), which with the range of
      the result makes it the unique two's-complement reading of the low bits. */
  lemma WrapKeepsLowBits(x: int)
    ensures (x - WrapLong(x)) % 0x1_0000_0000_0000_0000 == 0
    ensures (x - WrapInt(x)) % 0x1_0000_0000 == 0
  {
    EModLeavesMultiple(x - LONG_MIN, 0x1_0000_0000_0000_0000);
    EModLeavesMultiple(x - INT_MIN, 0x1_0000_0000);
  }

  /** Taking the remainder removes a multiple of the divisor. */
  lemma EModLeavesMultiple(a: int, b: int)
    requires b > 0
    ensures (a - EMod(a, b)) % b == 0
  {
    EModIsMod(a, b);
    var q := a / b;
    assert a - EMod(a, b) == b * q;
    DivModUnique(b * q, b, q, 0);
  }

  /** `Math.abs(long)`: `-x` wraps, so the most negative long is its own absolute value. */
  function Abs(x: Long): (r: Long)
    ensures x == LONG_MIN ==> r == LONG_MIN
    ensures x != LONG_MIN ==> 0 <= r && (r == x || r == -x)
  {
    if x < 0 then WrapLong(-(x as int)) else x
  }

  /** The magnitude of a mathematical integer. */
  function Magnitude(x: int): nat
  {
    if x < 0 then -x else x
  }

  /** Java's `%`: the remainder of truncating division, whose sign follows the dividend
      and whose magnitude stays below the divisor's. */
  function Rem(a: int, b: int): (r: int)
    requires b != 0
    ensures a >= 0 ==> 0 <= r < Magnitude(b)
    ensures a < 0 ==> 0 - Magnitude(b) < r <= 0
  {
    if a >= 0 then EMod(a, Magnitude(b)) else -EMod(-a, Magnitude(b))
  }

  /** Java's `/`: division truncating toward zero. */
  function Quot(a: int, b: int): (q: int)
    requires b != 0
    ensures a >= 0 && b > 0 ==> q == a / b
    ensures (a >= 0) == (b > 0) ==> q >= 0
  {
    var m := Magnitude(a) / Magnitude(b);
    QuotientOfNaturals(Magnitude(a), Magnitude(b));
    if (a < 0) == (b < 0) then m else -m
  }

  /** Dividing a natural number by a positive one gives a natural number, zero for zero. */
  lemma QuotientOfNaturals(x: int, y: int)
    requires x >= 0 && y > 0
    ensures x / y >= 0 && (x == 0 ==> x / y == 0)
  {
    if x == 0 {
      DivModUnique(0, y, 0, 0);
    }
  }

  /** Rem is the truncating remainder, written with Dafny's Euclidean `%`: for a non-negative
      dividend they coincide, and a negative dividend gives the negated remainder of -a. */
  lemma RemIsTruncating(a: int, b: int)
    requires b != 0
    ensures Rem(a, b) == (if a >= 0 then a % b else -((-a) % b))
  {
    var m := Magnitude(b);
    var c := if a >= 0 then a else -a;
    EModIsMod(c, m);
    if b < 0 {
      ModNegatedDivisor(c, m);
    }
  }

  /** The Euclidean remainder does not depend on the divisor's sign. */
  lemma ModNegatedDivisor(c: int, m: int)
    requires m > 0
    ensures c % (0 - m) == c % m
  {
    var q, r := c / m, c % m;
    assert (0 - m) * (0 - q) == m * q;
    DivModUnique(c, 0 - m, 0 - q, r);
  }
}
