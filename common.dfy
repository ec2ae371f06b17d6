/** Shared vocabulary: an optional value, and the 32-bit integer types of the
    C# sources with their unchecked (wrap-around) arithmetic. */
module Common {

  /** "No value": stands for C#'s null and for a caught exception. */
  datatype Option<+T> = None | Some(value: T)

  const TWO_32: int := 0x1_0000_0000
  const UINT_MAX: int := 0xFFFF_FFFF
  const INT_MAX: int := 0x7FFF_FFFF
  const INT_MIN: int := -0x8000_0000

  /** C# `uint` */
  type u32 = x: int | 0 <= x < 0x1_0000_0000
  /** C# `int` */
  type i32 = x: int | -0x8000_0000 <= x < 0x8000_0000
  /** C# `byte` */
  type u8 = x: int | 0 <= x < 256

  /** Unchecked `uint` arithmetic: the value modulo 2^32. */
  function WrapU32(x: int): u32 {
    x % TWO_32
  }

  /** Unchecked `int` arithmetic: two's complement wrap into [-2^31, 2^31). */
  function WrapI32(x: int): i32 {
    (x - INT_MIN) % TWO_32 + INT_MIN
  }

  /** `a + b` on C# `int` (unchecked). */
  function AddI32(a: int, b: int): i32 {
    WrapI32(a + b)
  }

  lemma WrapI32Id(x: int)
    requires INT_MIN <= x <= INT_MAX
    ensures WrapI32(x) == x
  {
  }

  lemma WrapI32Shift(x: int, k: int)
    ensures WrapI32(x + k * TWO_32) == WrapI32(x)
  {
    var y := x - INT_MIN;
    assert (y + k * TWO_32) % TWO_32 == y % TWO_32 by {
      var q := y / TWO_32;
      var r := y % TWO_32;
      assert y == q * TWO_32 + r && 0 <= r < TWO_32;
      assert y + k * TWO_32 == (q + k) * TWO_32 + r;
    }
  }

  /** Wrapping after every addition is the same as wrapping once at the end. */
  lemma AddI32Assoc(x: int, b: int)
    ensures AddI32(WrapI32(x), b) == WrapI32(x + b)
  {
    var y := x - INT_MIN;
    var q := y / TWO_32;
    assert WrapI32(x) == x - q * TWO_32;
    WrapI32Shift(x + b, -q);
  }

  /** (int)u : C#'s unchecked conversion of a `uint` to `int`. */
  function U32ToI32(u: u32): i32 {
    if u <= INT_MAX then u else u - TWO_32
  }

  /** Division truncated toward zero, as C#'s `/` on integers. */
  function DivTrunc(a: int, b: int): int
    requires b != 0
  {
    if a >= 0 then (if b > 0 then a / b else -(a / -b))
    else (if b > 0 then -((-a) / b) else (-a) / (-b))
  }

  lemma DivPos(a: nat, b: int)
    requires b > 0
    ensures 0 <= a - (a / b) * b < b && 0 <= a / b <= a
  {
    var q, r := a / b, a % b;
    assert a == q * b + r && 0 <= r < b;
    MulSign(q, b);
  }

  lemma MulSign(q: int, b: int)
    requires b >= 1
    ensures q < 0 ==> q * b <= -b
    ensures q >= 0 ==> q * b >= q
  {
    if q < 0 {
      MulNonneg(-q, b);
      assert q * b == -((-q) * b);
    } else {
      MulNonneg(q, b);
    }
  }

  lemma MulNonneg(x: nat, y: nat)
    ensures x * y >= 0 && (y >= 1 ==> x * y >= x)
  {
  }

  lemma MulLeMono(x: int, y: int, k: nat)
    requires x <= y
    ensures x * k <= y * k
  {
    MulNonneg(y - x, k);
    assert y * k - x * k == (y - x) * k;
  }

  lemma NegTimesNeg(x: int, y: int)
    ensures (-x) * (-y) == x * y && (-x) * y == -(x * y) && x * (-y) == -(x * y)
  {
  }

  /** What truncating division promises: the remainder has the dividend's sign
      and is smaller in magnitude than the divisor; the quotient is no larger
      in magnitude than the dividend. */
  lemma DivTruncBounds(a: int, b: int)
    requires b != 0
    ensures a >= 0 ==> 0 <= a - DivTrunc(a, b) * b < Abs(b)
    ensures a < 0 ==> -(Abs(b) as int) < a - DivTrunc(a, b) * b <= 0
    ensures Abs(DivTrunc(a, b)) <= Abs(a)
  {
    var q := DivTrunc(a, b);
    if a >= 0 && b > 0 {
      DivPos(a, b);
    } else if a >= 0 {
      var p := a / -b;
      DivPos(a, -b);
      assert q == -p;
      NegTimesNeg(p, b);
    } else if b > 0 {
      var p := (-a) / b;
      DivPos(-a, b);
      assert q == -p;
      NegTimesNeg(p, b);
    } else {
      var p := (-a) / (-b);
      DivPos(-a, -b);
      assert q == p;
      NegTimesNeg(p, b);
    }
  }

  function Abs(x: int): nat {
    if x < 0 then -x else x
  }

  function Min(a: int, b: int): int {
    if a <= b then a else b
  }

  function Max(a: int, b: int): int {
    if a >= b then a else b
  }
}
