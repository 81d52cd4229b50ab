/** math.rs: the fee off the top and the two spot conversions, at the widths the program uses. */
module PricingMath {
  import opened Wrappers
  import opened Ints
  import opened Errors

  const PRICE_SCALE_FACTOR: nat := 1_000_000_000
  const BPS_DENOM: nat := 10_000

  // ---- The checked functions, as the program computes them ----

  function FeeFromAmount(amount: u64, bps: u16): Result<u64, Error> {
    if bps == 0 then Ok(0) else
      var numerator := amount * bps;
      if numerator > U128_MAX then Err(ArithmeticOverflow) else
      if numerator + (BPS_DENOM - 1) > U128_MAX then Err(ArithmeticOverflow) else
      ToU64((numerator + (BPS_DENOM - 1)) / BPS_DENOM)
  }

  function MintSilvOut(amountUsdc: u64, price: u128): Result<u64, Error> {
    if price == 0 then Err(PriceOutOfBounds) else
      var num := amountUsdc * PRICE_SCALE_FACTOR;
      if num > U128_MAX then Err(ArithmeticOverflow) else ToU64(num / price)
  }

  function SilvToUsdcAtOracle(amountSilv: u64, price: u128): Result<u64, Error> {
    var num := amountSilv * price;
    if 0 <= num <= U128_MAX then ToU64(num / PRICE_SCALE_FACTOR) else Err(ArithmeticOverflow)
  }

  function ToU64(x: nat): Result<u64, Error> {
    if x <= U64_MAX then Ok(x) else Err(ArithmeticOverflow)
  }

  // ---- What they mean over unbounded numbers ----

  /** ceil(amount * bps / 10_000). */
  function Fee(amount: nat, bps: nat): nat { (amount * bps + 9_999) / 10_000 }

  /** What is left of `amount` after the fee. */
  function Net(amount: nat, bps: nat): int { amount - Fee(amount, bps) }

  function SilvFor(net: nat, price: nat): nat
    requires price > 0
  {
    net * PRICE_SCALE_FACTOR / price
  }

  function GrossOf(silv: nat, price: nat): nat { silv * price / PRICE_SCALE_FACTOR }

  /** No u128 intermediate of the fee can overflow; the only failure is a fee that is not a u64. */
  lemma FeeFromAmountExact(amount: u64, bps: u16)
    ensures FeeFromAmount(amount, bps) == if Fee(amount, bps) <= U64_MAX then Ok(Fee(amount, bps)) else Err(ArithmeticOverflow)
    ensures bps <= 10_000 ==> Fee(amount, bps) <= amount
  {
    MulMono(amount, bps, U64_MAX, U16_MAX);
    if bps <= 10_000 {
      MulMono(amount, bps, amount, 10_000);
    }
  }

  /** The only failures are a zero price and an amount of SILV that is not a u64; from 1 USD an ounce up,
      no amount of USDC can overflow the SILV it buys. */
  lemma MintSilvOutExact(amountUsdc: u64, price: u128)
    ensures MintSilvOut(amountUsdc, price) ==
            if price == 0 then Err(PriceOutOfBounds)
            else if SilvFor(amountUsdc, price) <= U64_MAX then Ok(SilvFor(amountUsdc, price))
            else Err(ArithmeticOverflow)
    ensures price >= PRICE_SCALE_FACTOR ==> SilvFor(amountUsdc, price) <= amountUsdc
  {
    if price >= PRICE_SCALE_FACTOR {
      MulMono(amountUsdc, PRICE_SCALE_FACTOR, amountUsdc, price);
      assert (amountUsdc + 1) * price == amountUsdc * price + price;
      DivAtMost(amountUsdc * PRICE_SCALE_FACTOR, price, amountUsdc);
    }
  }

  /** The gross conversion fails exactly when the gross value is not a u64. */
  lemma SilvToUsdcExact(amountSilv: u64, price: u128)
    ensures SilvToUsdcAtOracle(amountSilv, price) ==
            if GrossOf(amountSilv, price) <= U64_MAX then Ok(GrossOf(amountSilv, price)) else Err(ArithmeticOverflow)
  {
    if amountSilv * price > U128_MAX {
      assert GrossOf(amountSilv, price) > U64_MAX;
    }
  }

  /** Both spot conversions are floors: the most SILV the money pays for, the most USDC the SILV is worth. */
  lemma SpotIsFloor(amount: nat, price: nat, x: nat)
    requires price > 0
    ensures x * price <= amount * 1_000_000_000 <==> x <= SilvFor(amount, price)
    ensures x * 1_000_000_000 <= amount * price <==> x <= GrossOf(amount, price)
  {
    FloorIsMost(amount * 1_000_000_000, price, x);
    FloorIsMost(amount * price, 1_000_000_000, x);
  }

  lemma FloorIsMost(n: nat, d: nat, x: nat)
    requires d > 0
    ensures x * d <= n <==> x <= n / d
  {
    if x * d <= n {
      DivAtLeast(n, d, x);
    }
    DivBounds(n, d);
    if x <= n / d {
      MulMono(x, d, n / d, d);
    }
  }

  // ---- Laws of the fee ----

  /** The fee is the least whole amount worth at least `bps` parts of `amount`. */
  lemma FeeIsCeiling(amount: nat, bps: nat, f: nat)
    ensures f * BPS_DENOM >= amount * bps <==> f >= Fee(amount, bps)
  {
  }

  lemma NetMono(a: nat, b: nat, bps: nat)
    requires a <= b && bps <= 10_000
    ensures 0 <= Net(a, bps) <= Net(b, bps)
    ensures Fee(a, bps) <= Fee(b, bps)
  {
    MulMono(a, bps, a, 10_000);
    MulMono(a, bps, b, bps);
    MulMono(b - a, bps, b - a, 10_000);
    assert b * bps == a * bps + (b - a) * bps;
  }

  lemma FeeOfSum(a: nat, b: nat, bps: nat)
    ensures Fee(a + b, bps) <= Fee(a, bps) + Fee(b, bps) <= Fee(a + b, bps) + 1
  {
    assert (a + b) * bps == a * bps + b * bps;
  }

  // ---- Splitting one operation into many ----

  function Sum(xs: seq<nat>): nat {
    if xs == [] then 0 else xs[0] + Sum(xs[1..])
  }

  function TotalFee(amounts: seq<nat>, bps: nat): nat {
    if amounts == [] then 0 else Fee(amounts[0], bps) + TotalFee(amounts[1..], bps)
  }

  /** SILV received for minting each amount in its own operation. */
  function TotalMinted(amounts: seq<nat>, bps: nat, price: nat): nat
    requires price > 0 && bps <= 10_000
  {
    if amounts == [] then 0 else
      NetMono(amounts[0], amounts[0], bps);
      SilvFor(Net(amounts[0], bps), price) + TotalMinted(amounts[1..], bps, price)
  }

  /** USDC received for redeeming each amount in its own operation. */
  function TotalRedeemed(silvs: seq<nat>, bps: nat, price: nat): int {
    if silvs == [] then 0 else
      Net(GrossOf(silvs[0], price), bps) + TotalRedeemed(silvs[1..], bps, price)
  }

  /** Splitting costs at least the single fee, and at most one unit more per extra operation. */
  lemma {:induction false} SplittingNeverSavesFees(amounts: seq<nat>, bps: nat)
    requires amounts != []
    ensures Fee(Sum(amounts), bps) <= TotalFee(amounts, bps) <= Fee(Sum(amounts), bps) + |amounts| - 1
  {
    if |amounts| == 1 {
      assert Sum(amounts[1..]) == 0 && TotalFee(amounts[1..], bps) == 0;
    } else {
      SplittingNeverSavesFees(amounts[1..], bps);
      FeeOfSum(amounts[0], Sum(amounts[1..]), bps);
    }
  }

  lemma {:induction false} SplittingNeverMintsMore(amounts: seq<nat>, bps: nat, price: nat)
    requires price > 0 && bps <= 10_000
    ensures Net(Sum(amounts), bps) >= 0
    ensures TotalMinted(amounts, bps, price) <= SilvFor(Net(Sum(amounts), bps), price)
  {
    NetMono(Sum(amounts), Sum(amounts), bps);
    if amounts != [] {
      var a, rest := amounts[0], Sum(amounts[1..]);
      SplittingNeverMintsMore(amounts[1..], bps, price);
      NetMono(a, a, bps);
      FeeOfSum(a, rest, bps);
      var na, nr, n := Net(a, bps), Net(rest, bps), Net(a + rest, bps);
      DivSuperadditive(na * PRICE_SCALE_FACTOR, nr * PRICE_SCALE_FACTOR, price);
      DivMono((na + nr) * PRICE_SCALE_FACTOR, n * PRICE_SCALE_FACTOR, price);
    }
  }

  lemma {:induction false} SplittingNeverRedeemsMore(silvs: seq<nat>, bps: nat, price: nat)
    requires bps <= 10_000
    ensures TotalRedeemed(silvs, bps, price) <= Net(GrossOf(Sum(silvs), price), bps)
  {
    if silvs != [] {
      var s, rest := silvs[0], Sum(silvs[1..]);
      SplittingNeverRedeemsMore(silvs[1..], bps, price);
      assert (s + rest) * price == s * price + rest * price;
      FeeOfSum(GrossOf(s, price), GrossOf(rest, price), bps);
      NetMono(GrossOf(s, price) + GrossOf(rest, price), GrossOf(s + rest, price), bps);
    } else {
      NetMono(0, GrossOf(0, price), bps);
    }
  }

  // ---- One mint followed by redeeming all of it at the same price ----

  /** The SILV bought is worth at most what was paid for it, and the shortfall is rounding dust. */
  lemma MintRedeemDust(net: nat, price: nat)
    requires price > 0
    ensures SilvFor(net, price) * price <= net * PRICE_SCALE_FACTOR
    ensures 0 <= net - GrossOf(SilvFor(net, price), price) <= (price + PRICE_SCALE_FACTOR - 1) / PRICE_SCALE_FACTOR
  {
    DivBounds(net * PRICE_SCALE_FACTOR, price);
  }
}
