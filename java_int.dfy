/** Java's 32-bit `int`: its range, its truncating division and its
    wrap-around addition. */
module JavaInt {

  const INT_MIN: int := -0x8000_0000
  const INT_MAX: int := 0x7fff_ffff

  newtype int32 = x: int | INT_MIN <= x <= INT_MAX

  /** A Java array: its length is an `int`. */
  type JavaArray<T> = s: seq<T> | |s| <= INT_MAX witness []

  /** Reduces a mathematical integer to the `int` with the same low 32 bits. */
  function Wrap(x: int): (r: int32)
    ensures INT_MIN <= x <= INT_MAX ==> r as int == x
    ensures (x - r as int) % 0x1_0000_0000 == 0
  {
    ((x - INT_MIN) % 0x1_0000_0000 + INT_MIN) as int32
  }

  /** Division rounding toward zero on unbounded integers. */
  function TruncDiv(a: int, b: int): int
    requires b != 0
  {
    if a >= 0 && b > 0 then a / b
    else if a < 0 && b > 0 then -(-a / b)
    else if a >= 0 then -(a / -b)
    else -a / -b
  }

  /** The truncated quotient of a non-negative dividend lies between its
      negation and itself. */
  lemma TruncDivOfNonNegative(a: int, b: int)
    requires b != 0
    ensures a >= 0 ==> -a <= TruncDiv(a, b) <= a
  {
    if a >= 0 && b > 0 {
      QuotientBound(a, b);
    } else if a >= 0 {
      QuotientBound(a, -b);
    }
  }

  /** The truncated quotient of a negative dividend lies between it and its
      negation. */
  lemma TruncDivOfNegative(a: int, b: int)
    requires b != 0
    ensures a < 0 ==> a <= TruncDiv(a, b) <= -a
  {
    if a < 0 && b > 0 {
      QuotientBound(-a, b);
    } else if a < 0 {
      QuotientBound(-a, -b);
    }
  }

  /** Dividing by -1 negates. */
  lemma TruncDivByMinusOne(a: int, b: int)
    requires b != 0
    ensures b == -1 ==> TruncDiv(a, b) == -a
  {
    if b == -1 {
      if a >= 0 {
        QuotientBound(a, 1);
      } else {
        QuotientBound(-a, 1);
      }
    }
  }

  /** Java's `a / b` on `int`: the quotient is rounded toward zero, and
      `INT_MIN / -1` overflows back to `INT_MIN`. */
  function Quot(a: int32, b: int32): (r: int32)
    requires b != 0
    ensures a >= 0 && b > 0 ==> r as int == a as int / b as int
    ensures a < 0 && b > 0 ==> r as int == -(-(a as int) / b as int)
    ensures a == INT_MIN as int32 && b == -1 ==> r == INT_MIN as int32
  {
    TruncDivOfNonNegative(a as int, b as int);
    TruncDivOfNegative(a as int, b as int);
    TruncDivByMinusOne(a as int, b as int);
    Wrap(TruncDiv(a as int, b as int))
  }

  lemma QuotientBound(n: nat, d: nat)
    requires d > 0
    ensures 0 <= n / d <= n
    ensures d == 1 ==> n / d == n
  {
    var q := n / d;
    assert q * d + n % d == n;
    MulAtLeast(q, d);
  }

  lemma {:induction false} MulAtLeast(q: nat, d: nat)
    requires d > 0
    ensures q <= q * d
  {
    if d > 1 {
      MulAtLeast(q, d - 1);
      assert q * d == q * (d - 1) + q;
    }
  }

  /** Java's `a + b` on `int`. */
  function Add(a: int32, b: int32): (r: int32)
    ensures INT_MIN <= a as int + b as int <= INT_MAX ==> r as int == a as int + b as int
    ensures a as int + b as int > INT_MAX ==> r as int == a as int + b as int - 0x1_0000_0000
    ensures a as int + b as int < INT_MIN ==> r as int == a as int + b as int + 0x1_0000_0000
  {
    Wrap(a as int + b as int)
  }
}
