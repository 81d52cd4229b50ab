/** lazer_price.rs: every guard a parsed print passes before it may price an operation, and its
    normalisation to nine decimals. */
module LazerPolicy {
  import opened Wrappers
  import opened Ints
  import LazerWire

  const PRICE_SCALE := 9
  const MIN_PUBLISHERS_FLOOR_HARD: u16 := 2

  datatype PolicyError =
    | NonPositivePrice
    | ConfidenceMissing
    | ConfidenceNonPositive
    | ConfidenceTooWide
    | TooFewPublishers
    | CarriedForward
    | FutureTimestamp
    | Stale
    | NonMonotonic
    | ExponentOutOfRange
    | Overflow
    | PriceOutOfBounds

  datatype PolicyParams = PolicyParams(
    maxStalenessUs: u64, futureSkewUs: u64, maxConfidenceBps: u16, minPublishers: u16,
    minPrice: u128, maxPrice: u128, nowUs: u64)

  datatype PriceResult = PriceResult(price: u128, feedUpdateUs: u64)

  function CheckedMul(a: nat, b: nat): Result<u128, PolicyError> {
    if 0 <= a * b <= U128_MAX then Ok(a * b) else Err(Overflow)
  }

  function PriceFromLazer(p: LazerWire.LazerPrice, params: PolicyParams, lastUsedUs: u64): Result<PriceResult, PolicyError> {
    if p.price <= 0 then Err(NonPositivePrice)
    else if p.confidence.None? then Err(ConfidenceMissing)
    else if p.confidence.value <= 0 then Err(ConfidenceNonPositive)
    else
      var lhs :- CheckedMul(p.confidence.value, 10_000);
      var rhs :- CheckedMul(p.price, params.maxConfidenceBps);
      if lhs > rhs then Err(ConfidenceTooWide)
      else if p.publisherCount < Max(params.minPublishers, MIN_PUBLISHERS_FLOOR_HARD) then Err(TooFewPublishers)
      else if p.feedUpdateUs != p.timestampUs then Err(CarriedForward)
      else if p.feedUpdateUs > SatU64(params.nowUs + params.futureSkewUs) then Err(FutureTimestamp)
      else if SatU64(params.nowUs - p.feedUpdateUs) > params.maxStalenessUs then Err(Stale)
      else if p.feedUpdateUs <= lastUsedUs then Err(NonMonotonic)
      else
        var combined := PRICE_SCALE + p.exponent;
        if Max(combined, -combined) > 18 then Err(ExponentOutOfRange)
        else
          var normalized :- if combined >= 0 then CheckedMul(p.price, Pow(10, combined)) else CheckedDiv(p.price, Pow(10, -combined));
          if normalized < params.minPrice || normalized > params.maxPrice then Err(PriceOutOfBounds)
          else Ok(PriceResult(normalized, p.feedUpdateUs))
  }

  function CheckedDiv(a: u64, b: nat): Result<u128, PolicyError> {
    if b == 0 then Err(Overflow) else
      DivAtMost(a, b, a);
      Ok(a / b)
  }

  // ---- The guards, one fact each ----

  predicate ConfidenceOk(p: LazerWire.LazerPrice, params: PolicyParams) {
    p.price > 0 && p.confidence.Some? && p.confidence.value > 0
    && p.confidence.value * 10_000 <= p.price * params.maxConfidenceBps
  }

  /** The print is a fresh one, not too far ahead of the clock, not too old, and never used before. */
  predicate Fresh(p: LazerWire.LazerPrice, params: PolicyParams, lastUsedUs: u64) {
    && p.feedUpdateUs == p.timestampUs
    && lastUsedUs < p.feedUpdateUs
    && params.nowUs - params.maxStalenessUs <= p.feedUpdateUs <= params.nowUs + params.futureSkewUs
  }

  /** floor(price * 10^(9 + exponent)), when the exponent is in range. */
  function Normalized(p: LazerWire.LazerPrice): nat
    requires p.price > 0
  {
    var combined := PRICE_SCALE + p.exponent;
    if combined >= 0 then p.price * Pow(10, combined) else
      PowPositive(-combined);
      p.price / Pow(10, -combined)
  }

  lemma {:induction false} PowPositive(n: nat)
    ensures Pow(10, n) >= 1
  {
    if n > 0 {
      PowPositive(n - 1);
    }
  }

  lemma {:induction false} PowMono(m: nat, n: nat)
    requires m <= n
    ensures Pow(10, m) <= Pow(10, n)
    decreases n - m
  {
    PowPositive(m);
    if m < n {
      PowMono(m + 1, n);
    }
  }

  lemma TenToThe18()
    ensures Pow(10, 18) == 1_000_000_000_000_000_000
  {
    assert Pow(10, 3) == 1000;
    assert Pow(10, 6) == 1000 * Pow(10, 3);
    assert Pow(10, 9) == 1000 * Pow(10, 6);
    assert Pow(10, 12) == 1000 * Pow(10, 9);
    assert Pow(10, 15) == 1000 * Pow(10, 12);
    assert Pow(10, 18) == 1000 * Pow(10, 15);
  }

  lemma ScaleFits(n: nat)
    requires n <= 18
    ensures 1 <= Pow(10, n) <= 1_000_000_000_000_000_000
  {
    PowPositive(n);
    PowMono(n, 18);
    TenToThe18();
  }

  lemma ProductFits(a: nat, b: nat)
    requires a <= U64_MAX && b <= 1_000_000_000_000_000_000
    ensures CheckedMul(a, b) == Ok(a * b)
  {
    MulMono(a, b, U64_MAX, 1_000_000_000_000_000_000);
  }

  /** The policy accepts exactly the confident, sufficiently backed, fresh prints in the band, with the
      normalised price; and no print with any exponent or width can make it overflow. */
  lemma PolicyExactly(p: LazerWire.LazerPrice, params: PolicyParams, lastUsedUs: u64)
    ensures PriceFromLazer(p, params, lastUsedUs) != Err(Overflow)
    ensures PriceFromLazer(p, params, lastUsedUs).Ok? <==>
            && ConfidenceOk(p, params)
            && p.publisherCount >= params.minPublishers && p.publisherCount >= MIN_PUBLISHERS_FLOOR_HARD
            && Fresh(p, params, lastUsedUs)
            && -27 <= p.exponent <= 9
            && params.minPrice <= Normalized(p) <= params.maxPrice
    ensures PriceFromLazer(p, params, lastUsedUs).Ok? ==>
            PriceFromLazer(p, params, lastUsedUs).value.feedUpdateUs == p.feedUpdateUs
            && PriceFromLazer(p, params, lastUsedUs).value.price as int == Normalized(p)
  {
    NoOverflow(p, params, lastUsedUs);
    if p.price > 0 {
      ProductFits(p.price, params.maxConfidenceBps);
      if p.confidence.Some? && p.confidence.value > 0 {
        ProductFits(p.confidence.value, 10_000);
      }
      if -27 <= p.exponent <= 9 {
        ScaleFits(Max(9 + p.exponent, -9 - p.exponent));
        if 9 + p.exponent >= 0 {
          ProductFits(p.price, Pow(10, 9 + p.exponent));
        }
      }
    }
    hide Pow, CheckedMul;
  }

  lemma NoOverflow(p: LazerWire.LazerPrice, params: PolicyParams, lastUsedUs: u64)
    ensures PriceFromLazer(p, params, lastUsedUs) != Err(Overflow)
  {
    if p.price > 0 && p.confidence.Some? && p.confidence.value > 0 {
      ProductFits(p.confidence.value, 10_000);
      ProductFits(p.price, params.maxConfidenceBps);
      var combined := PRICE_SCALE + p.exponent;
      if Max(combined, -combined) <= 18 {
        ScaleFits(Max(combined, -combined));
        if combined >= 0 {
          ProductFits(p.price, Pow(10, combined));
        }
      }
    }
  }
}
