/** Machine integer widths, and the few facts about products and quotients the proofs share. */
module Ints {

  const U16_MAX := 0xFFFF
  const U32_MAX := 0xFFFF_FFFF
  const U64_MAX := 0xFFFF_FFFF_FFFF_FFFF
  const U128_MAX := 0xFFFF_FFFF_FFFF_FFFF_FFFF_FFFF_FFFF_FFFF
  const I64_MIN := -0x8000_0000_0000_0000
  const I64_MAX := 0x7FFF_FFFF_FFFF_FFFF

  type u8 = x: int | 0 <= x < 0x100
  type u16 = x: int | 0 <= x <= U16_MAX
  type u32 = x: int | 0 <= x <= U32_MAX
  type u64 = x: int | 0 <= x <= U64_MAX
  type u128 = x: int | 0 <= x <= U128_MAX
  type i16 = x: int | -0x8000 <= x < 0x8000
  type i64 = x: int | I64_MIN <= x <= I64_MAX

  function Min(a: int, b: int): int { if a <= b then a else b }

  function Max(a: int, b: int): int { if a >= b then a else b }

  /** `saturating_sub` and `saturating_add` on i64. */
  function SatI64(x: int): i64 { Max(I64_MIN, Min(x, I64_MAX)) }

  /** `saturating_add`, `saturating_mul` and `saturating_sub` on u64. */
  function SatU64(x: int): u64 { Max(0, Min(x, U64_MAX)) }

  function Pow(b: nat, n: nat): nat {
    if n == 0 then 1 else b * Pow(b, n - 1)
  }

  lemma MulMono(a: nat, b: nat, c: nat, d: nat)
    requires a <= c && b <= d
    ensures a * b <= c * d
  {
    assert a * b <= c * b <= c * d;
  }

  /** The quotient is the only q with q*d <= n < (q+1)*d. */
  lemma DivBounds(n: nat, d: nat)
    requires d > 0
    ensures (n / d) * d <= n < (n / d) * d + d
  {
    assert n == d * (n / d) + n % d;
  }

  lemma DivAtLeast(n: nat, d: nat, q: nat)
    requires d > 0 && q * d <= n
    ensures q <= n / d
  {
    var r := n / d;
    DivBounds(n, d);
    assert (r + 1) * d == r * d + d;
    if r < q {
      MulMono(r + 1, d, q, d);
    }
  }

  lemma DivAtMost(n: nat, d: nat, q: nat)
    requires d > 0 && n < (q + 1) * d
    ensures n / d <= q
  {
    DivBounds(n, d);
    if n / d > q {
      MulMono(q + 1, d, n / d, d);
    }
  }

  lemma DivMono(a: nat, b: nat, d: nat)
    requires d > 0 && a <= b
    ensures a / d <= b / d
  {
    DivBounds(a, d);
    DivAtLeast(b, d, a / d);
  }

  lemma SumOfMultiples(p: nat, q: nat, d: nat, a: nat, b: nat)
    requires p * d <= a && q * d <= b
    ensures (p + q) * d <= a + b
  {
  }

  /** Flooring each part never beats flooring the whole. */
  lemma DivSuperadditive(a: nat, b: nat, d: nat)
    requires d > 0
    ensures a / d + b / d <= (a + b) / d
  {
    var p, q := a / d, b / d;
    DivBounds(a, d);
    DivBounds(b, d);
    SumOfMultiples(p, q, d, a, b);
    DivAtLeast(a + b, d, p + q);
  }
}
