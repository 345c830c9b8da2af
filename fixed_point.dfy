/** Fixed-width integer ranges and the checked operations the margin engine and the
    deposit instruction build on. Values are mathematical integers; each Rust integer
    type is a range, and each checked operation whose failure the source `unwrap`s
    returns `Err(ArithmeticError)` instead of a wrapped value. */
module FixedPoint {
  import opened Errors

  const U32_LIMIT: nat := 0x1_0000_0000
  const U64_LIMIT: nat := 0x1_0000_0000_0000_0000
  const U128_LIMIT: nat := 0x1_0000_0000_0000_0000_0000_0000_0000_0000
  /** 2^127: i128 values lie in [-I128_LIMIT, I128_LIMIT). */
  const I128_LIMIT: int := 0x8000_0000_0000_0000_0000_0000_0000_0000
  /** 2^31: i32 values lie in [-I32_LIMIT, I32_LIMIT). */
  const I32_LIMIT: int := 0x8000_0000
  /** 2^63: i64 values lie in [-I64_LIMIT, I64_LIMIT). */
  const I64_LIMIT: int := 0x8000_0000_0000_0000

  type U32 = x: int | 0 <= x < U32_LIMIT
  type U64 = x: int | 0 <= x < U64_LIMIT
  type U128 = x: int | 0 <= x < U128_LIMIT
  type I32 = x: int | -I32_LIMIT <= x < I32_LIMIT
  type I64 = x: int | -I64_LIMIT <= x < I64_LIMIT
  type I128 = x: int | -I128_LIMIT <= x < I128_LIMIT

  function Min(a: int, b: int): int { if a <= b then a else b }

  function Max(a: int, b: int): int { if a >= b then a else b }

  /** `a.checked_sub(b).unwrap_or(0)` on unsigned integers: subtraction clamped at zero. */
  function SaturatingSub(a: U128, b: U128): U128 { if a >= b then a - b else 0 }

  /** `a.checked_mul(b).unwrap()` on u128. */
  function CheckedMul(a: U128, b: U128): Result<U128> {
    if a * b < U128_LIMIT then Ok(a * b) else Err(ArithmeticError)
  }

  /** `a.checked_div(b).unwrap()` on u128: truncating division, failing on a zero divisor. */
  function CheckedDiv(a: U128, b: U128): Result<U128> {
    if b == 0 then Err(ArithmeticError) else Ok(a / b)
  }

  /** `(a as i128).checked_sub(b as i128).unwrap()`. */
  function CheckedSubI128(a: I128, b: I128): Result<I128> {
    if -I128_LIMIT <= a - b < I128_LIMIT then Ok(a - b) else Err(ArithmeticError)
  }

  /** `a.checked_mul(b).unwrap()` on u64 (also usize, 64 bits wide on the target). */
  function CheckedMulU64(a: U64, b: U64): Result<U64> {
    if a * b < U64_LIMIT then Ok(a * b) else Err(ArithmeticError)
  }

  /** `a.checked_add(b).unwrap()` on u64 (also usize). */
  function CheckedAddU64(a: U64, b: U64): Result<U64> {
    if a + b < U64_LIMIT then Ok(a + b) else Err(ArithmeticError)
  }

  /** `-x` on i32, which panics for the one value whose negation does not fit. */
  function CheckedNegI32(x: I32): Result<I32> {
    var negated := -(x as int);
    if negated < I32_LIMIT then Ok(negated) else Err(ArithmeticError)
  }

  /** The fixed-point primitive: widen to u128, multiply, divide, each step checked. */
  function MulDiv(a: U128, b: U128, d: U128): (r: Result<U128>)
    ensures r.Ok? <==> a * b < U128_LIMIT && d != 0
    ensures r.Ok? ==> r.value == a * b / d
    ensures r.Ok? ==> r.value * d <= a * b < (r.value + 1) * d
  {
    var p :- CheckedMul(a, b);
    CheckedDiv(p, d)
  }

  /** `u64::try_from(x).unwrap()` (also `x.try_into().unwrap()` into u64). */
  function NarrowU64(x: int): Result<U64> {
    if 0 <= x < U64_LIMIT then Ok(x) else Err(ArithmeticError)
  }

  /** `x.try_into().unwrap()` into i128. */
  function NarrowI128(x: int): Result<I128> {
    if -I128_LIMIT <= x < I128_LIMIT then Ok(x) else Err(ArithmeticError)
  }

  /** `x.try_into().unwrap()` into u32. */
  function NarrowU32(x: int): Result<U32> {
    if 0 <= x < U32_LIMIT then Ok(x) else Err(ArithmeticError)
  }

  function Pow10(k: nat): (r: nat)
    ensures r >= 1
  {
    if k == 0 then 1 else 10 * Pow10(k - 1)
  }

  /** `10u128.pow(k)`, which panics on overflow: 10^38 is the largest power of ten
      below 2^128. */
  function CheckedPow10(k: U32): (r: Result<U128>)
    ensures r.Ok? <==> k <= 38
    ensures r.Ok? ==> r.value == Pow10(k)
  {
    Pow10Bound(k);
    if Pow10(k) < U128_LIMIT then Ok(Pow10(k)) else Err(ArithmeticError)
  }

  // ---------------------------------------------------------------------------
  // Nonlinear arithmetic facts the solver does not find by itself.

  lemma MulAtLeast(k: int, d: nat)
    requires k >= 1
    ensures k * d >= d
  {
    assert k * d == (k - 1) * d + d;
    assert (k - 1) * d >= 0;
  }

  lemma MulMono(a: nat, b: nat, c: nat)
    requires a <= b
    ensures a * c <= b * c
  {
    assert b * c == a * c + (b - a) * c;
  }

  lemma DivMono(x: nat, y: nat, d: nat)
    requires x <= y && d > 0
    ensures x / d <= y / d
  {
    var qx, qy := x / d, y / d;
    if qx > qy {
      assert (qx - qy) * d == qx * d - qy * d;
      MulAtLeast(qx - qy, d);
    }
  }

  /** Quotient and remainder are determined by the division identity. */
  lemma DivUnique(x: int, d: nat, q: int, r: int)
    requires d > 0 && 0 <= r < d && x == q * d + r
    ensures x / d == q && x % d == r
  {
    var q', r' := x / d, x % d;
    assert x == q' * d + r';
    if q > q' {
      assert (q - q') * d == q * d - q' * d;
      MulAtLeast(q - q', d);
    } else if q < q' {
      assert (q' - q) * d == q' * d - q * d;
      MulAtLeast(q' - q, d);
    }
  }

  /** Two u64 operands never overflow a u128 product. */
  lemma U64Product(a: U64, b: U64)
    ensures a * b < U128_LIMIT
  {
    MulMono(a, U64_LIMIT, b);
    MulMono(b, U64_LIMIT, U64_LIMIT);
    assert b * U64_LIMIT == U64_LIMIT * b;
  }

  /** A multiply-then-divide of two u64 values by a positive divisor never fails. */
  lemma MulDivU64(a: U64, b: U64, d: U128)
    requires d > 0
    ensures MulDiv(a, b, d) == Ok(a * b / d)
  {
    U64Product(a, b);
  }

  lemma {:induction false} Pow10Add(a: nat, b: nat)
    ensures Pow10(a + b) == Pow10(a) * Pow10(b)
  {
    if a > 0 {
      Pow10Add(a - 1, b);
      assert Pow10(a + b) == 10 * Pow10(a - 1 + b);
    }
  }

  lemma Pow10Mono(a: nat, b: nat)
    requires a <= b
    ensures Pow10(a) <= Pow10(b)
  {
    Pow10Add(a, b - a);
    MulAtLeast(Pow10(b - a), Pow10(a));
  }

  /** 10^38 < 2^128 <= 10^39. */
  lemma Pow10At38()
    ensures Pow10(38) == 100_000000_000000_000000_000000_000000_000000
  {
    assert Pow10(2) == 100;
    Pow10Add(2, 2);
    Pow10Add(4, 4);
    Pow10Add(8, 8);
    Pow10Add(16, 16);
    Pow10Add(32, 4);
    Pow10Add(36, 2);
  }

  /** A power of ten fits in u128 exactly up to 10^38. */
  lemma Pow10Bound(k: nat)
    ensures Pow10(k) < U128_LIMIT <==> k <= 38
  {
    Pow10At38();
    if k <= 38 {
      Pow10Mono(k, 38);
    } else {
      Pow10Mono(39, k);
      assert Pow10(39) == 10 * Pow10(38);
    }
  }
}
