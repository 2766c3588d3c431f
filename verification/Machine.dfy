/** Signed 64-bit machine arithmetic as the runtime performs it. */
module Machine {

  const I64_MIN: int := -0x8000_0000_0000_0000
  const I64_MAX: int := 0x7fff_ffff_ffff_ffff
  const TWO_64: int := 0x1_0000_0000_0000_0000

  type I64 = n: int | -0x8000_0000_0000_0000 <= n <= 0x7fff_ffff_ffff_ffff witness 0

  predicate FitsI64(n: int) {
    I64_MIN <= n <= I64_MAX
  }

  datatype Option<+T> = None | Some(value: T)

  /** Two's complement truncation of an exact result. */
  function Wrap(n: int): (r: I64)
    ensures FitsI64(n) ==> r == n
  {
    (n - I64_MIN) % TWO_64 + I64_MIN
  }

  /** Truncation only depends on the residue. */
  lemma WrapResidue(a: int, b: int)
    ensures Wrap(a) == Wrap(b) <==> (a - b) % TWO_64 == 0
  {
    var p, q := a - I64_MIN, b - I64_MIN;
    assert p == TWO_64 * (p / TWO_64) + p % TWO_64 && q == TWO_64 * (q / TWO_64) + q % TWO_64;
    if (a - b) % TWO_64 == 0 {
      assert p == q + TWO_64 * ((a - b) / TWO_64);
    }
  }

  lemma WrapDiffers(n: int)
    ensures (Wrap(n) - n) % TWO_64 == 0
  {
    var p := n - I64_MIN;
    assert Wrap(n) - n == -(TWO_64 * (p / TWO_64));
  }

  /** Truncating a summand first makes no difference. */
  lemma WrapSum(a: int, b: int)
    ensures Wrap(Wrap(a) + b) == Wrap(a + b)
  {
    WrapDiffers(a);
    WrapResidue(Wrap(a) + b, a + b);
  }

  function CheckedNeg(n: I64): (r: Option<I64>)
    ensures r.Some? <==> FitsI64(0 - n)
    ensures r.Some? ==> r.value == 0 - n
  {
    if n == I64_MIN then None else Some(0 - n)
  }

  function CheckedSub(a: I64, b: I64): (r: Option<I64>)
    ensures r.Some? <==> FitsI64(a - b)
    ensures r.Some? ==> r.value == a - b
  {
    if FitsI64(a - b) then Some(a - b) else None
  }

  function TryFromI128(n: int): (r: Option<I64>)
    ensures r.Some? <==> FitsI64(n)
    ensures r.Some? ==> r.value == n
  {
    if FitsI64(n) then Some(n) else None
  }

  /** `i64::saturating_add`. */
  function SaturatingAdd(a: I64, b: I64): (r: I64)
    ensures FitsI64(a + b) ==> r == a + b
  {
    if a + b > I64_MAX then I64_MAX
    else if a + b < I64_MIN then I64_MIN
    else a + b
  }

  function Min(a: int, b: int): int {
    if a <= b then a else b
  }

  function Max(a: int, b: int): int {
    if a >= b then a else b
  }

  /** `wrapping_div`: quotients truncate toward zero and `MIN / -1` wraps. */
  function TruncDiv(a: I64, b: I64): (r: I64)
    requires b != 0
    ensures b > 0 && 0 <= a ==> 0 <= r <= a
    ensures b > 0 && a <= 0 ==> a <= r <= 0
    ensures 0 < a && (b > 1 || b < -a) ==> 0 <= r < a
  {
    hide Quotient;
    var magnitude: int := Quotient(Abs(a), Abs(b));
    Wrap(if (a < 0) == (b < 0) then magnitude else -magnitude)
  }

  function Quotient(a: nat, b: nat): (q: nat)
    requires b > 0
    ensures q <= a && (a > 0 && b > 1 ==> q < a) && (a < b ==> q == 0)
  {
    QuotientBound(a, b);
    a / b
  }

  lemma QuotientBound(a: nat, b: nat)
    requires b > 0
    ensures a / b <= a && (a > 0 && b > 1 ==> a / b < a) && (a < b ==> a / b == 0)
  {
    var q := a / b;
    ProductBound(b, q);
    assert a == b * q + a % b;
  }

  lemma ProductBound(b: nat, q: nat)
    requires b > 0
    ensures b * q >= q && (q > 0 ==> b * q >= b) && (b > 1 ==> b * q >= 2 * q)
  {
    assert (b - 1) * q >= 0 && b * q == (b - 1) * q + q;
    if q > 0 { assert b * (q - 1) >= 0 && b * q == b * (q - 1) + b; }
    if b > 1 { assert (b - 2) * q >= 0 && b * q == (b - 2) * q + 2 * q; }
  }

  /** `wrapping_rem`: the remainder takes the sign of the dividend. */
  function TruncRem(a: I64, b: I64): (r: I64)
    requires b != 0
    ensures 0 <= a ==> 0 <= r < Abs(b)
    ensures a <= 0 ==> -Abs(b) < r <= 0
  {
    hide Remainder;
    var magnitude: I64 := Remainder(Abs(a), Abs(b));
    if a < 0 then -magnitude else magnitude
  }

  function Remainder(a: nat, b: nat): (r: nat)
    requires b > 0
    ensures r < b && (a < b ==> r == a)
  {
    a % b
  }

  function Abs(n: int): (r: int)
    ensures r >= 0 && (r == n || r == -n)
  {
    if n < 0 then -n else n
  }

  /** Bitwise `and` of two's complement numbers: the low bits are combined and the
      rest is the `and` of the arithmetically shifted operands. Values other than 0
      and -1 shrink in magnitude, so the recursion follows the significant bits. */
  function BitAnd(x: int, y: int): (r: int)
    decreases Abs(x)
  {
    if x == 0 then 0
    else if x == -1 then y
    else 2 * BitAnd(x / 2, y / 2) + (x % 2) * (y % 2)
  }

  /** A non-negative mask bounds the conjunction from both sides. */
  lemma {:induction false} MaskBounds(x: int, m: int)
    requires m >= 0
    ensures 0 <= BitAnd(x, m) <= m
    decreases Abs(x)
  {
    if x != 0 && x != -1 {
      MaskBounds(x / 2, m / 2);
      BitProduct(x % 2, m % 2);
    }
  }

  lemma {:induction false} MaskBoundsLeft(m: int, y: int)
    requires m >= 0
    ensures 0 <= BitAnd(m, y) <= m
    decreases m
  {
    if m != 0 {
      MaskBoundsLeft(m / 2, y / 2);
      BitProduct(m % 2, y % 2);
    }
  }

  lemma BitProduct(a: int, b: int)
    requires 0 <= a <= 1 && 0 <= b <= 1
    ensures 0 <= a * b <= a && a * b <= b
  {
    if a == 0 { assert a * b == 0; } else { assert a * b == b; }
  }

  /** The conjunction of two machine words is a machine word. */
  lemma {:induction false} BitAndFits(x: int, y: int, k: nat)
    requires 0 - Pow2(k) <= x < Pow2(k) && 0 - Pow2(k) <= y < Pow2(k)
    ensures 0 - Pow2(k) <= BitAnd(x, y) < Pow2(k)
    decreases Abs(x)
  {
    if x != 0 && x != -1 {
      BitProduct(x % 2, y % 2);
      assert k > 0;
      BitAndFits(x / 2, y / 2, k - 1);
    }
  }

  function Pow2(k: nat): (r: nat)
    ensures r > 0
  {
    if k == 0 then 1 else 2 * Pow2(k - 1)
  }

  lemma BitAndI64(x: I64, y: I64)
    ensures FitsI64(BitAnd(x, y))
  {
    assert Pow2(63) == 0x8000_0000_0000_0000 by {
      assert Pow2(16) == 0x1_0000;
      Pow2Add(16, 16);
      Pow2Add(32, 16);
      Pow2Add(48, 15);
      assert Pow2(15) == 0x8000;
    }
    BitAndFits(x, y, 63);
  }

  lemma Pow2Add(a: nat, b: nat)
    ensures Pow2(a + b) == Pow2(a) * Pow2(b)
  {
    if b > 0 {
      Pow2Add(a, b - 1);
      assert Pow2(a + b) == 2 * Pow2(a + b - 1);
    }
  }
}
