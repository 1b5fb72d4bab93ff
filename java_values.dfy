// Java value semantics the game code relies on: the signed byte type with
// its saturating and narrowing conversions, 32-bit int wrap-around, and the
// truncating division and remainder operators.

module JavaValues {

  datatype Option<T> = None | Some(value: T)

  const BYTE_MIN: int := -128
  const BYTE_MAX: int := 127
  const INT_MIN: int := -0x8000_0000
  const INT_MAX: int := 0x7fff_ffff

  /** A Java `byte`. */
  type Byte = x: int | -128 <= x <= 127

  /** A Java `int`. */
  type Int32 = x: int | -0x8000_0000 <= x <= 0x7fff_ffff

  function Min(a: int, b: int): int { if a <= b then a else b }
  function Max(a: int, b: int): int { if a >= b then a else b }
  function Abs(a: int): nat { if a < 0 then -a else a }

  /** `(byte)Math.min(Math.max(v, Byte.MIN_VALUE), Byte.MAX_VALUE)`. */
  function ClampByte(v: int): (b: Byte)
    ensures BYTE_MIN <= v <= BYTE_MAX ==> b == v
    ensures v < BYTE_MIN ==> b == BYTE_MIN
    ensures v > BYTE_MAX ==> b == BYTE_MAX
  {
    Min(Max(v, BYTE_MIN), BYTE_MAX)
  }

  /** The narrowing cast `(byte)v`: keep the low eight bits, two's complement. */
  function ToByte(v: int): (b: Byte)
    ensures (b - v) % 256 == 0
    ensures BYTE_MIN <= v <= BYTE_MAX ==> b == v
  {
    var low := v % 256;
    if low >= 128 then low - 256 else low
  }

  /** The 32-bit wrap-around of Java `int` arithmetic. */
  function Wrap32(v: int): (w: Int32)
    ensures (w - v) % 0x1_0000_0000 == 0
    ensures INT_MIN <= v <= INT_MAX ==> w == v
  {
    var low := v % 0x1_0000_0000;
    if low >= 0x8000_0000 then low - 0x1_0000_0000 else low
  }

  /** Euclid's bounds on a natural quotient. */
  lemma QuotientBounds(a: nat, b: nat)
    requires b > 0
    ensures (a / b) * b <= a < (a / b) * b + b
  {
  }

  lemma AbsProduct(x: int, y: int)
    ensures Abs(x * y) == Abs(x) * Abs(y)
  {
    if x < 0 && y < 0 { assert x * y == (-x) * (-y); }
    else if x < 0 { assert -(x * y) == (-x) * y; }
    else if y < 0 { assert -(x * y) == x * (-y); }
  }

  /** Java `a / b`: the quotient truncated toward zero. */
  function JavaDiv(a: int, b: int): (q: int)
    requires b != 0
    ensures Abs(q * b) <= Abs(a) < Abs(q * b) + Abs(b)
    ensures a >= 0 && b > 0 ==> q == a / b
    ensures (a >= 0) == (b > 0) ==> q >= 0
    ensures (a >= 0) != (b > 0) ==> q <= 0
    ensures Abs(q) == Abs(a) / Abs(b)
  {
    var d := Abs(a) / Abs(b);
    QuotientBounds(Abs(a), Abs(b));
    var q := if (a >= 0) == (b > 0) then d else -d;
    AbsProduct(q, b);
    assert Abs(q) == d;
    q
  }

  /** Java `a % b`: the remainder has the sign of the dividend. */
  function JavaRem(a: int, b: int): (r: int)
    requires b != 0
    ensures a == JavaDiv(a, b) * b + r
    ensures Abs(r) < Abs(b)
    ensures r != 0 ==> (r < 0 <==> a < 0)
  {
    a - JavaDiv(a, b) * b
  }
}
