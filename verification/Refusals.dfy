/** When each operation is accepted, and with which error it is refused: every check in the program's order,
    said of the fields of the config, of the print and of the wallet, over unbounded numbers. */
module Refusals {
  import opened Wrappers
  import opened Ints
  import opened Errors
  import opened Access
  import opened PricingMath
  import opened RedeemWindow
  import opened PriceBreaker
  import opened Machine
  import opened Ledger
  import LazerWire
  import LazerPolicy
  import Safety

  /** The first of two lists of checks, then the second. */
  function Then(first: Option<Error>, second: Option<Error>): Option<Error> { if first.Some? then first else second }

  predicate Refuses<T>(r: Result<T, Error>, refusal: Option<Error>) {
    match r
    case Ok(_) => refusal == None
    case Err(e) => refusal == Some(e)
  }

  // ---- The print ----

  /** The clock in microseconds, held inside u64. */
  function ClockUs(now: i64): nat { Min(Max(now, 0) * 1_000_000, U64_MAX) }

  /** A print that may price an operation: confident, backed, fresh, new, and in the band. */
  predicate GoodPrint(p: Params, mark: u64, now: i64, lp: LazerWire.LazerPrice) {
    && lp.price > 0
    && lp.confidence.Some? && 0 < lp.confidence.value && lp.confidence.value * 10_000 <= lp.price * p.maxConfidenceBps
    && p.minPublishers <= lp.publisherCount && 2 <= lp.publisherCount
    && lp.feedUpdateUs == lp.timestampUs && mark < lp.feedUpdateUs
    && ClockUs(now) - p.maxStalenessSeconds * 1_000_000 <= lp.feedUpdateUs <= ClockUs(now) + 2_000_000
    && -27 <= lp.exponent <= 9
    && p.minPrice <= LazerPolicy.Normalized(lp) <= p.maxPrice
  }

  function PrintRefusal(p: Params, mark: u64, now: i64, lp: LazerWire.LazerPrice): Option<Error> {
    var confidence := if lp.confidence.Some? then lp.confidence.value else 0;
    Need(lp.price > 0, NegativeOraclePrice,
    Need(confidence > 0, OracleLowConfidence,
    Need(confidence * 10_000 <= lp.price * p.maxConfidenceBps, OracleLowConfidence,
    Need(lp.publisherCount >= p.minPublishers && lp.publisherCount >= 2, LazerTooFewPublishers,
    Need(lp.feedUpdateUs == lp.timestampUs, LazerCarriedForward,
    Need(lp.feedUpdateUs <= ClockUs(now) + 2_000_000, StaleOracle,
    Need(ClockUs(now) - lp.feedUpdateUs <= p.maxStalenessSeconds * 1_000_000, StaleOracle,
    Need(lp.feedUpdateUs > mark, LazerReplayed,
    Need(-27 <= lp.exponent <= 9, OracleScalingOutOfBounds,
    Need(lp.price > 0 && p.minPrice <= LazerPolicy.Normalized(lp) <= p.maxPrice, PriceOutOfBounds,
    None))))))))))
  }

  lemma PolicyRefuses(p: Params, mark: u64, now: i64, lp: LazerWire.LazerPrice)
    ensures var r := LazerPolicy.PriceFromLazer(lp, PolicyOf(p, now), mark);
            PrintRefusal(p, mark, now, lp) == match r case Ok(_) => None case Err(e) => Some(MapPolicyError(e))
  {
    LazerPolicy.PolicyExactly(lp, PolicyOf(p, now), mark);
    if lp.price > 0 {
      LazerPolicy.ProductFits(lp.price, p.maxConfidenceBps);
      if lp.confidence.Some? && lp.confidence.value > 0 {
        LazerPolicy.ProductFits(lp.confidence.value, 10_000);
      }
    }
    hide LazerPolicy.Normalized, Pow;
  }

  /** The payload: too large, for another channel, without the feed, or not a good payload at all. */
  function PayloadRefusal(p: Params, mark: u64, now: i64, payload: seq<u8>): Option<Error> {
    match LazerWire.Extract(payload, p.feedId, 4)
    case Ok(lp) => PrintRefusal(p, mark, now, lp)
    case Err(e) =>
      Some(if e.PayloadTooLarge? then LazerMessageTooLarge
           else if e.WrongChannel? then LazerWrongChannel
           else if e.FeedNotFound? then WrongOracleFeed
           else LazerPayloadInvalid)
  }

  /** A price is read exactly when the payload holds a good print of the configured feed; the price is that
      print, normalised, and the mark its feed time. Otherwise the error is that of the first failing check. */
  lemma ReadPriceExactly(p: Params, mark: u64, now: i64, payload: seq<u8>)
    ensures ReadPrice(p, mark, now, payload).Ok? <==>
            var lp := LazerWire.Extract(payload, p.feedId, 4); lp.Ok? && GoodPrint(p, mark, now, lp.value)
    ensures ReadPrice(p, mark, now, payload).Ok? ==>
              var lp := LazerWire.Extract(payload, p.feedId, 4).value;
              && ReadPrice(p, mark, now, payload).value.price as int == LazerPolicy.Normalized(lp)
              && ReadPrice(p, mark, now, payload).value.feedUpdateUs == lp.feedUpdateUs
    ensures Refuses(ReadPrice(p, mark, now, payload), PayloadRefusal(p, mark, now, payload))
  {
    var lp := LazerWire.Extract(payload, p.feedId, 4);
    hide LazerWire.Extract;
    if lp.Ok? {
      PolicyRefuses(p, mark, now, lp.value);
      LazerPolicy.PolicyExactly(lp.value, PolicyOf(p, now), mark);
      hide LazerPolicy.PriceFromLazer, LazerPolicy.Normalized, PolicyOf;
    }
  }

  // ---- The gates ----

  /** Attestation is asked of the sides whose bit is in scope, and must be the signer's own. */
  predicate MayAct(p: Params, bit: bv8, user: Pubkey, kyc: Option<Kyc>) {
    p.kycScopeFlags & bit == 0 || (kyc.Some? && kyc.value.wallet == user)
  }

  function MintGateRefusal(p: Params, op: Op): Option<Error>
    requires op.Mint?
  {
    Need(!p.paused, Paused,
    Need(p.publicMintEnabled, PublicMintDisabled,
    Need(op.now >= p.mintPausedUntil && !p.premiumMintPending, MintPaused,
    Need(MayAct(p, 1, op.user, op.kyc), KycRequired,
    Need(op.amountUsdc > 0, ZeroAmount,
    Need(op.amountUsdc >= p.minOperationUsdc, OperationBelowMinimum,
    None))))))
  }

  function RedeemGateRefusal(p: Params, op: Op): Option<Error>
    requires op.Redeem?
  {
    Need(!p.paused, Paused,
    Need(p.redemptionsEnabled, RedemptionsDisabled,
    Need(MayAct(p, 2, op.user, op.kyc), KycRequired,
    Need(op.amountSilv > 0, ZeroAmount,
    None))))
  }

  lemma GatesRefuse(p: Params, op: Op)
    ensures op.Mint? ==> Refuses(MintGate(p, op.now, op.user, op.amountUsdc, op.kyc), MintGateRefusal(p, op))
    ensures op.Redeem? ==> Refuses(RedeemGate(p, op.user, op.amountSilv, op.kyc), RedeemGateRefusal(p, op))
  {
  }

  // ---- The terms ----

  /** What a mint must buy: the amount less a fee, at a price. */
  function MintQuoteRefusal(p: Params, fee: nat, supply: nat, amountUsdc: u64, minSilvOut: u64, price: nat): Option<Error> {
    var silv := if price == 0 || fee > amountUsdc then 0 else SilvFor(amountUsdc - fee, price);
    Need(fee <= amountUsdc, ArithmeticOverflow,
    Need(fee < amountUsdc, ZeroAmount,
    Need(price > 0, PriceOutOfBounds,
    Need(silv <= U64_MAX, ArithmeticOverflow,
    Need(silv > 0, ZeroAmount,
    Need(silv >= minSilvOut, SlippageExceeded,
    Need(supply + silv <= U64_MAX, ArithmeticOverflow,
    Need(supply + silv <= p.maxSilvSupply, SupplyCapExceeded,
    None))))))))
  }

  lemma MintQuoteExactly(p: Params, bps: u16, supply: nat, amountUsdc: u64, minSilvOut: u64, price: u128)
    ensures Refuses(MintQuote(p, bps, supply, amountUsdc, minSilvOut, price),
                    MintQuoteRefusal(p, Fee(amountUsdc, bps), supply, amountUsdc, minSilvOut, price))
  {
    FeeFromAmountExact(amountUsdc, bps);
    if Fee(amountUsdc, bps) <= amountUsdc {
      MintSilvOutExact(amountUsdc - Fee(amountUsdc, bps), price);
    }
    hide Fee, SilvFor, FeeFromAmount, MintSilvOut;
  }

  /** What a redemption must be worth: a gross value, less a fee. */
  function RedeemQuoteRefusal(p: Params, gross: nat, fee: nat, minUsdcOut: u64): Option<Error> {
    Need(gross <= U64_MAX, ArithmeticOverflow,
    Need(gross > 0, ZeroAmount,
    Need(gross >= p.minOperationUsdc, OperationBelowMinimum,
    Need(fee <= gross, ArithmeticOverflow,
    Need(fee < gross, ZeroAmount,
    Need(gross - fee >= minUsdcOut, SlippageExceeded,
    None))))))
  }

  /** The quote stands exactly when the gross value is a u64 of at least the minimum size, the fee is below
      it, and what is left meets the caller's floor; otherwise the first failing condition names the error. */
  lemma RedeemQuoteExactly(p: Params, bps: u16, amountSilv: u64, minUsdcOut: u64, price: u128)
    ensures var gross := GrossOf(amountSilv, price);
            var fee := Fee(gross, bps);
            && (RedeemQuote(p, bps, amountSilv, minUsdcOut, price).Ok? <==>
                  0 < gross <= U64_MAX && p.minOperationUsdc <= gross && fee < gross && minUsdcOut <= gross - fee)
            && Refuses(RedeemQuote(p, bps, amountSilv, minUsdcOut, price), RedeemQuoteRefusal(p, gross, fee, minUsdcOut))
  {
    SilvToUsdcExact(amountSilv, price);
    var gross := GrossOf(amountSilv, price);
    if gross <= U64_MAX {
      FeeFromAmountExact(gross, bps);
    }
    hide Fee, GrossOf, FeeFromAmount, SilvToUsdcAtOracle;
  }

  // ---- Settlement ----

  /** A mint at a price: its terms, and the USDC to pay for it. */
  function MintTermsRefusal(p: Params, s: State, op: Op, price: nat): Option<Error>
    requires op.Mint?
  {
    Then(MintQuoteRefusal(p, Premium(p, op, price), s.supply, op.amountUsdc, op.minSilvOut, price),
    Need(op.amountUsdc <= Balance(s.usdc, op.user), InsufficientFunds,
    None))
  }

  /** A redemption at a price: its terms, the budget beside what is used, the treasury, and the SILV to burn.
      What leaves is the gross value with routing on, the net with it off. */
  function RedeemTermsRefusal(p: Params, s: State, op: Op, price: nat): Option<Error>
    requires op.Redeem?
  {
    var gross := GrossOf(op.amountSilv, price);
    var leaves := if p.feeRoutingDisabled then gross - Premium(p, op, price) else gross;
    var used := EffectiveUsed(p.windowSeconds, op.now, s.window);
    Then(RedeemQuoteRefusal(p, gross, Premium(p, op, price), op.minUsdcOut),
    Need(used + leaves <= U64_MAX, ArithmeticOverflow,
    Need(used + leaves <= p.budgetUsdc, RedeemLimitExceeded,
    Need(leaves <= s.treasury, InsufficientTreasury,
    Need(op.amountSilv <= Balance(s.silv, op.user) && op.amountSilv <= s.supply, InsufficientFunds,
    None)))))
  }

  lemma MintAtExactly(p: Params, s: State, op: Op, price: u128, feedUs: u64)
    requires op.Mint?
    ensures Refuses(MintAt(p, s, op, price, feedUs), MintTermsRefusal(p, s, op, price))
  {
    RateIsEffective(p, op);
    MintQuoteExactly(p, Rate(p, op), s.supply, op.amountUsdc, op.minSilvOut, price);
    hide MintQuote, MintQuoteRefusal, EffectivePremiumBps, Rate, Fee, MaybeUpdateLastPrice;
  }

  lemma RedeemAtExactly(p: Params, s: State, op: Op, price: u128, feedUs: u64)
    requires op.Redeem?
    ensures Refuses(RedeemAt(p, s, op, price, feedUs), RedeemTermsRefusal(p, s, op, price))
  {
    RateIsEffective(p, op);
    RedeemQuoteExactly(p, Rate(p, op), op.amountSilv, op.minUsdcOut, price);
    hide RedeemQuoteRefusal, EffectivePremiumBps, Rate, Fee, GrossOf, MaybeUpdateLastPrice, Weighted, RedeemQuote;
    if RedeemQuote(p, Rate(p, op), op.amountSilv, op.minUsdcOut, price).Ok? {
      RedeemQuoteExact(p, Rate(p, op), op.amountSilv, op.minUsdcOut, price);
    }
  }

  // ---- Every operation ----

  /** The error an operation meets first, if any. */
  function Refusal(p: Params, s: State, op: Op): Option<Error> {
    match op
    case Mint(now, _, amountUsdc, _, payload, _, _) =>
      Then(MintGateRefusal(p, op),
      Then(PayloadRefusal(p, s.lastUsedUs, now, payload),
      AtPrice(p, s, op)))
    case Redeem(now, _, _, _, payload, _, _) =>
      Then(RedeemGateRefusal(p, op),
      Then(PayloadRefusal(p, s.lastUsedUs, now, payload),
      AtPrice(p, s, op)))
    case Deposit(_, user, amount) =>
      Need(amount >= 1_000_000, BelowMinimum,
      Need(amount <= Balance(s.usdc, user), InsufficientFunds,
      None))
    case Premint(_, user, amount) =>
      Need(amount > 0, ZeroAmount,
      Need(!p.paused, Paused,
      Need(p.inventoryWallet != DEFAULT_PUBKEY, InventoryWalletNotSet,
      Need(user == p.inventoryWallet, InvalidInventoryDestination,
      Need(s.supply + amount <= U64_MAX, ArithmeticOverflow,
      Need(s.supply + amount <= p.maxSilvSupply, SupplyCapExceeded,
      None))))))
    case Transfer(_, user, _, token, amount) =>
      Need(amount <= Balance(if token.Usdc? then s.usdc else s.silv, user), InsufficientFunds,
      None)
  }

  /** At the price of the operation's own print: the breaker, then the terms. */
  function AtPrice(p: Params, s: State, op: Op): Option<Error>
    requires Priced(op)
  {
    match PrintIn(p, op.payload)
    case None => None
    case Some((price, _)) =>
      Then(DeltaRefusal(p.breaker, s.breaker, price, op.now),
           if op.Mint? then MintTermsRefusal(p, s, op, price) else RedeemTermsRefusal(p, s, op, price))
  }

  lemma PricedStepExactly(p: Params, s: State, op: Op)
    requires Priced(op)
    ensures Refuses(Step(p, s, op), Refusal(p, s, op))
  {
    GatesRefuse(p, op);
    ReadPriceExactly(p, s.lastUsedUs, op.now, op.payload);
    hide MintGate, RedeemGate, MintGateRefusal, RedeemGateRefusal, ReadPrice, PayloadRefusal, CheckPriceDelta, DeltaRefusal,
         MintAt, RedeemAt, MintTermsRefusal, RedeemTermsRefusal, PrintIn, GoodPrint;
    var read := ReadPrice(p, s.lastUsedUs, op.now, op.payload);
    if read.Ok? {
      ReadPriceFacts(p, s.lastUsedUs, op.now, op.payload);
      CheckPriceDeltaExactly(p.breaker, s.breaker, read.value.price, op.now);
      if op.Mint? {
        MintAtExactly(p, s, op, read.value.price, read.value.feedUpdateUs);
      } else {
        RedeemAtExactly(p, s, op, read.value.price, read.value.feedUpdateUs);
      }
    }
  }

  /** Every operation is accepted exactly when no check refuses it, and otherwise fails with the error of the
      first check that does. */
  lemma StepExactly(p: Params, s: State, op: Op)
    ensures Refuses(Step(p, s, op), Refusal(p, s, op))
  {
    if Priced(op) {
      hide Step, Refusal;
      PricedStepExactly(p, s, op);
    }
  }

  /** What every accepted mint has passed, before its price. */
  lemma AcceptedMintPassedItsGates(p: Params, s: State, op: Op)
    requires op.Mint? && Step(p, s, op).Ok?
    ensures !p.paused && p.publicMintEnabled && op.now >= p.mintPausedUntil && !p.premiumMintPending
    ensures p.kycScopeFlags & 1 == 0 || (op.kyc.Some? && op.kyc.value.wallet == op.user)
    ensures 0 < op.amountUsdc && p.minOperationUsdc <= op.amountUsdc
    ensures var lp := LazerWire.Extract(op.payload, p.feedId, 4); lp.Ok? && GoodPrint(p, s.lastUsedUs, op.now, lp.value)
  {
    GatesRefuse(p, op);
    ReadPriceExactly(p, s.lastUsedUs, op.now, op.payload);
    hide ReadPrice, GoodPrint, MintAt, CheckPriceDelta, LazerWire.Extract, PayloadRefusal;
  }

  /** What every accepted redemption has passed. */
  lemma AcceptedRedemptionPassedItsGates(p: Params, s: State, op: Op)
    requires op.Redeem? && Step(p, s, op).Ok?
    ensures !p.paused && p.redemptionsEnabled
    ensures p.kycScopeFlags & 2 == 0 || (op.kyc.Some? && op.kyc.value.wallet == op.user)
    ensures 0 < op.amountSilv
    ensures var lp := LazerWire.Extract(op.payload, p.feedId, 4);
            && lp.Ok? && GoodPrint(p, s.lastUsedUs, op.now, lp.value)
            && p.minOperationUsdc <= GrossOf(op.amountSilv, LazerPolicy.Normalized(lp.value))
  {
    GatesRefuse(p, op);
    ReadPriceExactly(p, s.lastUsedUs, op.now, op.payload);
    StepIsItsEvent(p, s, op);
    hide ReadPrice, GoodPrint, RedeemAt, CheckPriceDelta, LazerWire.Extract, PayloadRefusal, GrossOf, LazerPolicy.Normalized,
         Fair, Applies, ChargedExactly;
  }

  /** A redemption refused for the limit really had no room: its gross value did not fit the budget beside
      what left the treasury in the last two windows and what was stored before the run. */
  lemma LimitRefusalIsReal(p: Params, start: State, ops: seq<Op>, op: Op)
    requires p.windowSeconds > 0 && start.events == [] && OnTime(start, ops) && Run(p, start, ops).Ok?
    requires op.Redeem? && op.now > 0 && op.now >= if ops == [] then start.window.start else ops[|ops| - 1].now
    requires Step(p, Run(p, start, ops).value, op) == Err(RedeemLimitExceeded)
    ensures var end := Run(p, start, ops).value;
            && PrintIn(p, op.payload).Some?
            && SpentIn(Safety.Spends(end.events), op.now - 2 * p.windowSeconds + 1, op.now) + start.window.current + start.window.prev
               + GrossOf(op.amountSilv, PrintIn(p, op.payload).value.0) > p.budgetUsdc
  {
    hide Run, Step, PrintIn, SpentIn, Safety.Spends, GrossOf, EffectiveUsed, Refusal, OnTime;
    var end := Run(p, start, ops).value;
    Safety.UsageWasPaidOut(p, start, ops, op.now);
    StepExactly(p, end, op);
    OnlyTheBudget(p, end, op);
  }

  lemma OnlyTheBudget(p: Params, s: State, op: Op)
    requires op.Redeem? && Refusal(p, s, op) == Some(RedeemLimitExceeded)
    ensures PrintIn(p, op.payload).Some?
    ensures EffectiveUsed(p.windowSeconds, op.now, s.window) + GrossOf(op.amountSilv, PrintIn(p, op.payload).value.0) > p.budgetUsdc
  {
    hide PrintIn, GrossOf, Premium, EffectiveUsed, LazerWire.Extract, LazerPolicy.Normalized, Compares;
  }
}
