/** Concrete inputs for the statements about the machine that hold one way only, from the bytes of the
    payload on. */
module Scenarios {
  import opened Wrappers
  import opened Ints
  import opened Errors
  import opened PricingMath
  import opened RedeemWindow
  import opened PriceBreaker
  import opened Machine
  import opened Safety
  import opened FeeRouting
  import LazerWire
  import LazerGrammar
  import LazerPolicy

  /** A payload with one feed: the price, its exponent, two publishers and the least confidence interval. */
  function OneFeed(feedId: u32, price: i64, exponent: i16, timeUs: u64): LazerWire.Payload {
    LazerWire.Payload(timeUs, LAZER_CHANNEL_ID, [LazerWire.Feed(feedId, LazerGrammar.SubscribedProps(price, exponent, 2, 1, timeUs))])
  }

  lemma OneFeedIsGood(feedId: u32, price: i64, exponent: i16, timeUs: u64)
    ensures LazerGrammar.Good(OneFeed(feedId, price, exponent, timeUs), feedId, LAZER_CHANNEL_ID)
  {
    var ps := LazerGrammar.SubscribedProps(price, exponent, 2, 1, timeUs);
    var payload := OneFeed(feedId, price, exponent, timeUs);
    LazerWire.Widths();
    hide LazerWire.ToLe, LazerWire.FromLe, LazerWire.Pow256;
    assert LazerGrammar.GoodFeed(payload.feeds[0]);
    assert payload.feeds[1..] == [];
    LazerGrammar.FeedAt([], 0, payload.feeds[0]);
    LazerGrammar.PayloadAt([], payload);
    FiveProps(ps);
  }

  lemma FiveProps(ps: seq<LazerWire.Property>)
    requires |ps| == 5
    ensures |LazerWire.PropsBytes(ps)| <= 50
  {
    assert ps[1..][1..] == ps[2..] && ps[2..][1..] == ps[3..] && ps[3..][1..] == ps[4..] && ps[4..][1..] == [];
    hide LazerWire.ToLe;
    assert |LazerWire.PropsBytes(ps[4..])| <= 10;
    assert |LazerWire.PropsBytes(ps[3..])| <= 20;
    assert |LazerWire.PropsBytes(ps[2..])| <= 30;
    assert |LazerWire.PropsBytes(ps[1..])| <= 40;
  }

  /** Its price at nine decimals. */
  function Scaled(price: i64, exponent: i16): nat
    requires price > 0 && (exponent == -9 || exponent == -12)
  {
    if exponent == -9 then price else price / 1000
  }

  /** Such a payload, stamped with the clock, passes every guard of a fresh config. */
  lemma OneFeedReads(p: Params, lastUsedUs: u64, now: i64, price: i64, exponent: i16)
    requires price > 0 && (exponent == -9 || exponent == -12) && price * p.maxConfidenceBps >= 10_000
    requires p.minPublishers <= 2 && lastUsedUs < NowUs(now) && p.minPrice <= Scaled(price, exponent) <= p.maxPrice
    ensures ReadPrice(p, lastUsedUs, now, LazerWire.PayloadBytes(OneFeed(p.feedId, price, exponent, NowUs(now)))) ==
            Ok(LazerPolicy.PriceResult(Scaled(price, exponent), NowUs(now)))
  {
    var payload := OneFeed(p.feedId, price, exponent, NowUs(now));
    OneFeedIsGood(p.feedId, price, exponent, NowUs(now));
    hide LazerGrammar.Good, LazerWire.PayloadBytes, LazerWire.Extract, LazerPolicy.PriceFromLazer;
    assert payload.feeds[0] in payload.feeds;
    LazerGrammar.SubscribedRoundTrip(payload, p.feedId, price, exponent, 2, 1, NowUs(now));
    var lp := LazerWire.LazerPrice(price, exponent, Some(1), 2, NowUs(now), LAZER_CHANNEL_ID, NowUs(now));
    assert Pow(10, 3) == 1000 && Pow(10, 0) == 1;
    assert LazerPolicy.Normalized(lp) == Scaled(price, exponent);
    LazerPolicy.PolicyExactly(lp, PolicyOf(p, now), lastUsedUs);
  }

  /** The launch config, with everything open and the lower price bound set by the caller. */
  function OpenConfig(minPrice: u64, budgetUsdc: u64): Params {
    Params(false, true, true, 0, false, 0, 100, 100, 0, 3154, 2, 15, 100, minPrice, PRICE_FATFINGER_MAX_SCALED,
           BreakerParams(500, 3600, 1_000_000_000), 150_000_000_000, budgetUsdc, 86_400, false, 1)
  }

  const FRESH := State(0, Breaker(0, 0), GENESIS_WINDOW, 0, 0, 0, map[], map[], [])

  lemma OpenGates(p: Params, budgetUsdc: u64, amount: u64)
    requires p == OpenConfig(p.minPrice, budgetUsdc) && amount > 0
    ensures MintGate(p, 1_000, 7, amount, None) == Ok(()) && RedeemGate(p, 7, amount, None) == Ok(())
    ensures MintGate(Off(p), 1_000, 7, amount, None) == Ok(()) && RedeemGate(Off(p), 7, amount, None) == Ok(())
  {
  }

  lemma BillionthOfADollar()
    ensures TooMuchSilv(100, 0, 100_000_000_000, 0, 1)
  {
    assert Net(100_000_000_000, 100) == 99_000_000_000;
  }

  const CHEAP := OpenConfig(0, 0)

  function CheapMint(): Op {
    Mint(1_000, 7, 100_000_000_000, 0, LazerWire.PayloadBytes(OneFeed(3154, 1_000, -12, NowUs(1_000))), None, None)
  }

  lemma CheapMintPassesTheGates(s: State)
    requires s.lastUsedUs == 0 && s.breaker == Breaker(0, 0) && s.supply == 0
    ensures SupplyOverflows(CHEAP, s, CheapMint())
  {
    OneFeedReads(CHEAP, 0, 1_000, 1_000, -12);
    OpenGates(CHEAP, 0, 100_000_000_000);
    BillionthOfADollar();
    hide ReadPrice, LazerWire.PayloadBytes, MintGate, TooMuchSilv, OneFeed;
  }

  /** With the lower price bound switched off, a mint at a billionth of a dollar an ounce overflows: the
      condition of MintOverflowsIff is met in a state that initialize leaves. */
  lemma CheapMintOverflows() returns (p: Params, s: State, op: Op)
    ensures Configured(p) && p.minPrice == 0 && IsGenesis(s) && op.Mint?
    ensures Step(p, s, op) == Err(ArithmeticOverflow)
  {
    p, s, op := CHEAP, FRESH.(usdc := map[7 := 100_000_000_000]), CheapMint();
    CheapMintPassesTheGates(s);
    assert op.Mint?;
    hide Step, SupplyOverflows, CheapMint;
    MintOverflowsIff(p, s, op);
  }

  /** 2 SILV at $50 is 100 USDC gross and 99 net. */
  lemma TwoOunces(p: Params)
    requires p.minOperationUsdc == 0
    ensures RedeemQuote(p, 100, 2_000_000, 0, 50_000_000_000) ==
            Ok(RedeemTerms(100_000_000, 99_000_000, if p.feeRoutingDisabled then 0 else 1_000_000))
  {
    assert SilvToUsdcAtOracle(2_000_000, 50_000_000_000) == Ok(100_000_000);
    assert FeeFromAmount(100_000_000, 100) == Ok(1_000_000);
    hide SilvToUsdcAtOracle, FeeFromAmount;
  }

  /** With the treasury ample and nothing spent yet, the budget decides. */
  lemma BudgetDecides(p: Params, s: State, op: Op, price: u128, feedUs: u64, terms: RedeemTerms)
    requires op.Redeem? && op.exemption == None && RedeemQuote(p, p.premiumBpsRedeem, op.amountSilv, op.minUsdcOut, price) == Ok(terms)
    requires s.window == GENESIS_WINDOW && p.windowSeconds > 0 && TotalOut(terms) <= Min(s.treasury, U64_MAX)
    requires op.amountSilv <= Balance(s.silv, op.user) && op.amountSilv <= s.supply
    ensures TotalOut(terms) <= p.budgetUsdc ==> RedeemAt(p, s, op, price, feedUs).Ok?
    ensures TotalOut(terms) > p.budgetUsdc ==> RedeemAt(p, s, op, price, feedUs) == Err(RedeemLimitExceeded)
  {
    hide RedeemQuote;
    assert forall left: nat :: Weighted(0, left, p.windowSeconds) == 0;
  }

  /** With a budget between the net and the gross value, the redemption is accepted with routing off and
      refused with it on: routing is neutral one way only. */
  lemma RoutingOffAcceptsMore() returns (p: Params, s: State, op: Op)
    ensures Configured(p) && op.Redeem?
    ensures Step(Off(p), s, op).Ok? && Step(On(p), s, op) == Err(RedeemLimitExceeded)
  {
    p := OpenConfig(PRICE_FATFINGER_MIN_SCALED, 99_500_000);
    s := FRESH.(treasury := 1_000_000_000, supply := 2_000_000, silv := map[7 := 2_000_000]);
    op := Redeem(1_000, 7, 2_000_000, 0, LazerWire.PayloadBytes(OneFeed(3154, 50_000_000_000, -9, NowUs(1_000))), None, None);
    OneFeedReads(On(p), 0, 1_000, 50_000_000_000, -9);
    OneFeedReads(Off(p), 0, 1_000, 50_000_000_000, -9);
    OpenGates(p, 99_500_000, 2_000_000);
    assert On(p) == p;
    TwoOunces(On(p));
    TwoOunces(Off(p));
    BudgetDecides(On(p), s, op, 50_000_000_000, NowUs(1_000), RedeemTerms(100_000_000, 99_000_000, 1_000_000));
    BudgetDecides(Off(p), s, op, 50_000_000_000, NowUs(1_000), RedeemTerms(100_000_000, 99_000_000, 0));
    hide ReadPrice, LazerWire.PayloadBytes, RedeemGate, RedeemQuote, RedeemAt;
  }
}
