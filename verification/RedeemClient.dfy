/** The public app's redeem predictor (anchor-client.ts, lazer-tx.ts) and the admin console's copy of
    the window counter, each an implementation of its own, proved to predict the program. */
module RedeemClient {
  import opened Wrappers
  import opened Ints
  import opened Errors
  import opened Access
  import opened PricingMath
  import opened RedeemWindow
  import opened Machine
  import opened Ledger
  import opened Safety
  import PriceBreaker

  /** The decoded config account; a field an old account lacks is absent. */
  datatype ClientConfig = ClientConfig(
    paused: bool, redemptionsEnabled: bool, premiumBpsRedeem: nat, instantRedeemBudgetUsdc: nat,
    instantRedeemWindowSeconds: nat, instantWindowStart: int, instantUsedUsdc: nat, instantUsedPrevUsdc: Option<nat>,
    kycScopeFlags: Option<bv8>, feeRoutingDisabled: Option<bool>)

  /** bn.js multiplies and divides by a plain number only below this: with a longer window both counters
      throw. The setters stop at seven days. */
  const BN_WORD := 0x400_0000

  datatype RedeemRoute = Instant | Limit | Otc | NeedsKyc | Disabled

  function GetOr<T>(o: Option<T>, default: T): T { if o.Some? then o.value else default }

  // ---- The public app ----

  function EffectiveRedeemUsed(cfg: ClientConfig, nowSecs: int): int {
    var w := cfg.instantRedeemWindowSeconds;
    if w <= 0 then 0 else
      var windowStart := cfg.instantWindowStart;
      var usedPrev := GetOr(cfg.instantUsedPrevUsdc, 0);
      var elapsed := Max(0, nowSecs - windowStart);
      var (start, current, prev) :=
        if windowStart == 0 then (nowSecs, cfg.instantUsedUsdc, usedPrev)
        else if elapsed >= 2 * w then (nowSecs, 0, 0)
        else if elapsed >= w then (windowStart + w, 0, cfg.instantUsedUsdc)
        else (windowStart, cfg.instantUsedUsdc, usedPrev);
      var into := Min(Max(0, nowSecs - start), w);
      current + prev * (w - into) / w
  }

  function RedeemGrossUsdc(amountSilv: nat, priceScaled: nat): nat { amountSilv * priceScaled / 1_000_000_000 }

  function ClientFee(amount: nat, bps: nat): nat { if bps == 0 then 0 else (amount * bps + (10_000 - 1)) / 10_000 }

  function RedeemUsdcOut(amountSilv: nat, priceScaled: nat, bps: nat): int {
    var gross := RedeemGrossUsdc(amountSilv, priceScaled);
    gross - ClientFee(gross, bps)
  }

  function ComputeMaxInstantRedeemableUsdc(cfg: ClientConfig, treasuryUsdc: nat, nowSecs: int, effectiveBps: Option<nat>): int {
    if cfg.paused || !cfg.redemptionsEnabled then 0 else
      var remaining := Max(cfg.instantRedeemBudgetUsdc - EffectiveRedeemUsed(cfg, nowSecs), 0);
      var outflowMax := if treasuryUsdc < remaining then treasuryUsdc else remaining;
      var bps := GetOr(effectiveBps, cfg.premiumBpsRedeem);
      if GetOr(cfg.feeRoutingDisabled, false) then outflowMax else outflowMax - ClientFee(outflowMax, bps)
  }

  function RedeemOutflowForGross(cfg: ClientConfig, grossUsdc: nat, effectiveBps: Option<nat>): int {
    if !GetOr(cfg.feeRoutingDisabled, false) then grossUsdc else
      grossUsdc - ClientFee(grossUsdc, GetOr(effectiveBps, cfg.premiumBpsRedeem))
  }

  function ClassifyRedeem(cfg: ClientConfig, treasuryUsdc: nat, grossUsdc: nat, nowSecs: int,
                          kycAttested: Option<bool>, effectiveBps: Option<nat>): RedeemRoute {
    if cfg.paused || !cfg.redemptionsEnabled then Disabled
    else if GetOr(cfg.kycScopeFlags, 0) & 2 != 0 && kycAttested != Some(true) then NeedsKyc
    else
      var outflow := RedeemOutflowForGross(cfg, grossUsdc, effectiveBps);
      if EffectiveRedeemUsed(cfg, nowSecs) + outflow > cfg.instantRedeemBudgetUsdc then Limit
      else if treasuryUsdc < outflow then Otc
      else Instant
  }

  /** The premium a given wallet pays, from what its exemption account says, if it has one. */
  function ClientPremiumBps(configured: nat, flags: Option<bv8>, expiresAt: Option<int>, side: Side, nowSecs: int): nat {
    if flags.None? || expiresAt.None? then configured
    else if expiresAt.value == 0 || nowSecs >= expiresAt.value then configured
    else
      var bit: bv8 := if side.MintSide? then 1 else 2;
      if flags.value & bit != 0 then 0 else configured
  }

  // ---- The admin console ----

  function AdminEffectiveUsed(cfg: ClientConfig, nowSecs: int): int {
    var w := cfg.instantRedeemWindowSeconds;
    var neverStarted := cfg.instantWindowStart == 0;
    var elapsed := Max(0, nowSecs - cfg.instantWindowStart);
    var (bucketStart, current, prev) :=
      if neverStarted then (nowSecs, cfg.instantUsedUsdc, GetOr(cfg.instantUsedPrevUsdc, 0))
      else if w > 0 && elapsed >= 2 * w then (nowSecs, 0, 0)
      else if w > 0 && elapsed >= w then (cfg.instantWindowStart + w, 0, cfg.instantUsedUsdc)
      else (cfg.instantWindowStart, cfg.instantUsedUsdc, GetOr(cfg.instantUsedPrevUsdc, 0));
    var into := if w > 0 then Min(Max(0, nowSecs - bucketStart), w) else 0;
    if w > 0 then current + prev * (w - into) / w else 0
  }

  // ---- The counters agree ----

  function WindowOf(cfg: ClientConfig): Window {
    Window(cfg.instantWindowStart, cfg.instantUsedUsdc, GetOr(cfg.instantUsedPrevUsdc, 0))
  }

  /** Both TypeScript counters are the rule itself, for every window they can compute with, and every clock
      and bucket, including the degenerate window, the zero start and a clock behind the start. */
  lemma CountersAgree(cfg: ClientConfig, nowSecs: int)
    requires cfg.instantRedeemWindowSeconds < BN_WORD
    ensures EffectiveRedeemUsed(cfg, nowSecs) == EffectiveUsed(cfg.instantRedeemWindowSeconds, nowSecs, WindowOf(cfg))
    ensures AdminEffectiveUsed(cfg, nowSecs) == EffectiveUsed(cfg.instantRedeemWindowSeconds, nowSecs, WindowOf(cfg))
  {
  }

  // ---- The largest instant redemption ----

  lemma ClientFeeIsFee(amount: nat, bps: nat)
    ensures ClientFee(amount, bps) == Fee(amount, bps)
  {
  }

  /** Some gross amount nets to exactly `net`, whatever the premium below 100%. */
  lemma NetIsOnto(net: nat, bps: nat) returns (gross: nat)
    requires bps < 10_000
    ensures Net(gross, bps) == net
  {
    var c := 10_000 - bps;
    gross := (net * 10_000 + c - 1) / c;
    DivBounds(net * 10_000 + c - 1, c);
    assert gross * c + gross * bps == gross * 10_000;
  }

  /** The advertised maximum is exact: no redemption the app calls instant pays more, and when it is
      positive some instant redemption pays it to the unit, with routing on or off. */
  lemma MaxInstantIsExact(cfg: ClientConfig, treasuryUsdc: nat, nowSecs: int, effectiveBps: Option<nat>)
    requires GetOr(effectiveBps, cfg.premiumBpsRedeem) < 10_000 && cfg.instantRedeemWindowSeconds < BN_WORD
    ensures var max := ComputeMaxInstantRedeemableUsdc(cfg, treasuryUsdc, nowSecs, effectiveBps);
            var bps := GetOr(effectiveBps, cfg.premiumBpsRedeem);
            && (forall gross: nat | ClassifyRedeem(cfg, treasuryUsdc, gross, nowSecs, Some(true), effectiveBps) == Instant ::
                  gross - ClientFee(gross, bps) <= max)
            && (max > 0 ==> exists gross: nat :: ClassifyRedeem(cfg, treasuryUsdc, gross, nowSecs, Some(true), effectiveBps) == Instant
                                                 && gross - ClientFee(gross, bps) == max)
  {
    var max := ComputeMaxInstantRedeemableUsdc(cfg, treasuryUsdc, nowSecs, effectiveBps);
    var bps := GetOr(effectiveBps, cfg.premiumBpsRedeem);
    var used := EffectiveRedeemUsed(cfg, nowSecs);
    var outflowMax := Min(treasuryUsdc, Max(cfg.instantRedeemBudgetUsdc - used, 0));
    CountersAgree(cfg, nowSecs);
    hide EffectiveRedeemUsed, EffectiveUsed, ClientFee, Fee;
    ClientFeeIsFee(outflowMax, bps);
    forall gross: nat | ClassifyRedeem(cfg, treasuryUsdc, gross, nowSecs, Some(true), effectiveBps) == Instant
      ensures gross - ClientFee(gross, bps) <= max
    {
      ClientFeeIsFee(gross, bps);
      if !GetOr(cfg.feeRoutingDisabled, false) {
        NetMono(gross, outflowMax, bps);
      }
    }
    if max > 0 {
      var gross: nat := outflowMax;
      if GetOr(cfg.feeRoutingDisabled, false) {
        gross := NetIsOnto(outflowMax, bps);
        ClientFeeIsFee(gross, bps);
      }
      assert ClassifyRedeem(cfg, treasuryUsdc, gross, nowSecs, Some(true), effectiveBps) == Instant;
    }
  }

  /** The config with its absent fields filled in as the program decodes them: zero. */
  function Filled(cfg: ClientConfig): ClientConfig {
    cfg.(instantUsedPrevUsdc := Some(match cfg.instantUsedPrevUsdc case None => 0 case Some(x) => x),
         kycScopeFlags := Some(match cfg.kycScopeFlags case None => 0 case Some(x) => x),
         feeRoutingDisabled := Some(cfg.feeRoutingDisabled == Some(true)))
  }

  /** What the app does not know: a field an old account lacks counts as zero, so routing is on and no side
      is in scope; an unknown premium is the configured one; and an unknown attestation is none. */
  lemma UnknownsAreCautious(cfg: ClientConfig, treasuryUsdc: nat, gross: nat, nowSecs: int, kyc: Option<bool>, bps: Option<nat>)
    ensures var rate := Some(if bps.None? then cfg.premiumBpsRedeem else bps.value);
            && ClassifyRedeem(cfg, treasuryUsdc, gross, nowSecs, kyc, bps)
               == ClassifyRedeem(Filled(cfg), treasuryUsdc, gross, nowSecs, Some(kyc == Some(true)), rate)
            && ComputeMaxInstantRedeemableUsdc(cfg, treasuryUsdc, nowSecs, bps)
               == ComputeMaxInstantRedeemableUsdc(Filled(cfg), treasuryUsdc, nowSecs, rate)
  {
    assert EffectiveRedeemUsed(cfg, nowSecs) == EffectiveRedeemUsed(Filled(cfg), nowSecs);
    hide EffectiveRedeemUsed, ClientFee;
  }

  // ---- The app predicts the program ----

  /** What the app reads from the chain. */
  function ConfigOf(p: Params, s: State): ClientConfig {
    ClientConfig(p.paused, p.redemptionsEnabled, p.premiumBpsRedeem, p.budgetUsdc, p.windowSeconds, s.window.start,
                 s.window.current, Some(s.window.prev), Some(p.kycScopeFlags), Some(p.feeRoutingDisabled))
  }

  function FlagsOf(e: Option<FeeExempt>): Option<bv8> { if e.Some? then Some(e.value.flags) else None }

  function ExpiryOf(e: Option<FeeExempt>): Option<int> { if e.Some? then Some(e.value.expiresAt) else None }

  function Attested(kyc: Option<Kyc>, user: Pubkey): bool { kyc.Some? && kyc.value.wallet == user }

  /** The app charges a wallet what the program charges it; the exemption account is found at the
      wallet's own derived address, so it is the wallet's. */
  lemma PremiumsAgree(configured: u16, e: Option<FeeExempt>, user: Pubkey, side: Side, now: i64)
    requires e.Some? ==> e.value.wallet == user
    ensures ClientPremiumBps(configured, FlagsOf(e), ExpiryOf(e), side, now) == EffectivePremiumBps(configured, e, user, side, now)
  {
  }

  /** The redemption passes everything the app does not predict: the price, the size, the slippage floor
      and the wallet's own SILV balance. */
  ghost predicate OtherwiseFine(p: Params, s: State, op: Op)
    requires op.Redeem?
  {
    && op.amountSilv > 0 && op.amountSilv <= Balance(s.silv, op.user) && op.amountSilv <= s.supply
    && (op.exemption.Some? ==> op.exemption.value.wallet == op.user)
    && var read := ReadPrice(p, s.lastUsedUs, op.now, op.payload);
    && read.Ok? && PriceBreaker.CheckPriceDelta(p.breaker, s.breaker, read.value.price, op.now).Ok?
    && RedeemQuote(p, EffectivePremiumBps(p.premiumBpsRedeem, op.exemption, op.user, RedeemSide, op.now),
                   op.amountSilv, op.minUsdcOut, read.value.price).Ok?
  }

  /** The app's route for the operation, given the wallet's true attestation and premium. */
  ghost function RouteOf(p: Params, s: State, op: Op): RedeemRoute
    requires op.Redeem? && OtherwiseFine(p, s, op)
  {
    var price := ReadPrice(p, s.lastUsedUs, op.now, op.payload).value.price;
    var bps := ClientPremiumBps(p.premiumBpsRedeem, FlagsOf(op.exemption), ExpiryOf(op.exemption), RedeemSide, op.now);
    ClassifyRedeem(ConfigOf(p, s), s.treasury, RedeemGrossUsdc(op.amountSilv, price), op.now, Some(Attested(op.kyc, op.user)), Some(bps))
  }

  /** Where the program lands, in the app's terms. */
  function Verdict(r: Result<State, Error>): Option<RedeemRoute> {
    match r
    case Ok(_) => Some(Instant)
    case Err(Paused) => Some(Disabled)
    case Err(RedemptionsDisabled) => Some(Disabled)
    case Err(KycRequired) => Some(NeedsKyc)
    case Err(RedeemLimitExceeded) => Some(Limit)
    case Err(ArithmeticOverflow) => Some(Limit)  // the usage sum left u64: over any budget
    case Err(InsufficientTreasury) => Some(Otc)
    case Err(_) => None
  }

  lemma LimitsAgree(p: Params, s: State, now: i64, terms: RedeemTerms, cfg: ClientConfig, bps: nat)
    requires cfg == ConfigOf(p, s) && 0 < p.windowSeconds < BN_WORD
    requires terms.toUser > 0 && terms.toUser == terms.gross - ClientFee(terms.gross, bps)
    requires terms.feeRouted == if p.feeRoutingDisabled then 0 else ClientFee(terms.gross, bps)
    ensures var limits := RedeemLimits(p, Decide(p, s.window, now).effectiveUsed, s.treasury, TotalOut(terms));
            var used := EffectiveRedeemUsed(cfg, now);
            var outflow := RedeemOutflowForGross(cfg, terms.gross, Some(bps));
            && (limits in {Err(RedeemLimitExceeded), Err(ArithmeticOverflow)} <==> used + outflow > p.budgetUsdc)
            && (limits == Err(InsufficientTreasury) <==> used + outflow <= p.budgetUsdc && s.treasury < outflow)
            && (limits.Ok? <==> used + outflow <= p.budgetUsdc && s.treasury >= outflow)
            && (limits.Ok? ==> Decide(p, s.window, now).rolled.current + TotalOut(terms) <= U64_MAX)
  {
    CountersAgree(cfg, now);
    hide ClientFee, EffectiveRedeemUsed, Weighted;
  }

  /** Past the price and the quote, only the limits decide. */
  lemma LimitsDecide(p: Params, s: State, op: Op, price: u128, feedUs: u64, terms: RedeemTerms)
    requires op.Redeem? && op.amountSilv <= Balance(s.silv, op.user) && op.amountSilv <= s.supply
    requires RedeemQuote(p, EffectivePremiumBps(p.premiumBpsRedeem, op.exemption, op.user, RedeemSide, op.now),
                         op.amountSilv, op.minUsdcOut, price) == Ok(terms)
    ensures var limits := RedeemLimits(p, Decide(p, s.window, op.now).effectiveUsed, s.treasury, TotalOut(terms));
            var r := RedeemAt(p, s, op, price, feedUs);
            && (limits.Err? ==> r == Err(limits.error))
            && (limits.Ok? && Decide(p, s.window, op.now).rolled.current + TotalOut(terms) <= U64_MAX ==> r.Ok?)
  {
    hide RedeemQuote, EffectivePremiumBps, PriceBreaker.MaybeUpdateLastPrice, Roll;
  }

  /** The program's own order of checks, when the price and the size are fine. */
  lemma GatesThenTerms(p: Params, s: State, op: Op)
    requires op.Redeem? && OtherwiseFine(p, s, op)
    ensures var res := ReadPrice(p, s.lastUsedUs, op.now, op.payload).value;
            Step(p, s, op) ==
            if p.paused then Err(Paused)
            else if !p.redemptionsEnabled then Err(RedemptionsDisabled)
            else if p.kycScopeFlags & 2 != 0 && !Attested(op.kyc, op.user) then Err(KycRequired)
            else RedeemAt(p, s, op, res.price, res.feedUpdateUs)
  {
    hide ReadPrice, PriceBreaker.CheckPriceDelta, RedeemAt, RedeemQuote, EffectivePremiumBps;
  }

  /** And past the gates, the app's two comparisons. */
  lemma TermsThenRoute(p: Params, s: State, op: Op, price: u128, feedUs: u64, bps: nat)
    requires 0 < p.windowSeconds < BN_WORD && op.Redeem?
    requires op.amountSilv <= Balance(s.silv, op.user) && op.amountSilv <= s.supply
    requires bps == EffectivePremiumBps(p.premiumBpsRedeem, op.exemption, op.user, RedeemSide, op.now)
    requires RedeemQuote(p, bps, op.amountSilv, op.minUsdcOut, price).Ok?
    ensures var cfg := ConfigOf(p, s);
            var outflow := RedeemOutflowForGross(cfg, RedeemGrossUsdc(op.amountSilv, price), Some(bps));
            Verdict(RedeemAt(p, s, op, price, feedUs)) ==
            Some(if EffectiveRedeemUsed(cfg, op.now) + outflow > p.budgetUsdc then Limit
                 else if s.treasury < outflow then Otc
                 else Instant)
  {
    hide RedeemAt, RedeemLimits, Decide, RedeemQuote, EffectiveRedeemUsed, RedeemOutflowForGross, EffectivePremiumBps, Fee, ClientFee;
    var terms := RedeemQuote(p, bps, op.amountSilv, op.minUsdcOut, price).value;
    RedeemQuoteExact(p, bps, op.amountSilv, op.minUsdcOut, price);
    ClientFeeIsFee(terms.gross, bps);
    LimitsAgree(p, s, op.now, terms, ConfigOf(p, s), bps);
    LimitsDecide(p, s, op, price, feedUs, terms);
  }

  /** For a redemption that is otherwise fine, the app's route is the program's verdict, exactly: it says
      "instant" if and only if the program commits, and names the very check that fails otherwise. */
  lemma AppPredictsProgram(p: Params, s: State, op: Op)
    requires 0 < p.windowSeconds < BN_WORD && op.Redeem? && OtherwiseFine(p, s, op)
    ensures Verdict(Step(p, s, op)) == Some(RouteOf(p, s, op))
  {
    hide ReadPrice, PriceBreaker.CheckPriceDelta, Step, RedeemAt, RedeemQuote, EffectiveRedeemUsed,
         RedeemOutflowForGross, EffectivePremiumBps, ClientPremiumBps;
    var res := ReadPrice(p, s.lastUsedUs, op.now, op.payload).value;
    GatesThenTerms(p, s, op);
    PremiumsAgree(p.premiumBpsRedeem, op.exemption, op.user, RedeemSide, op.now);
    TermsThenRoute(p, s, op, res.price, res.feedUpdateUs, EffectivePremiumBps(p.premiumBpsRedeem, op.exemption, op.user, RedeemSide, op.now));
  }

  lemma LimitVerdict(r: Result<State, Error>)
    ensures Verdict(r) == Some(Limit) <==> r == Err(RedeemLimitExceeded) || r == Err(ArithmeticOverflow)
  {
  }

  /** In a reachable state "limit" always means the budget check itself. */
  lemma LimitIsTheBudgetCheck(p: Params, s: State, op: Op)
    requires Configured(p) && Bounded(p, s) && op.Redeem? && OtherwiseFine(p, s, op)
    ensures RouteOf(p, s, op) == Limit <==> Step(p, s, op) == Err(RedeemLimitExceeded)
  {
    assert op.amountSilv <= Balance(s.silv, op.user);
    assert p.windowSeconds < BN_WORD;
    hide Step, RouteOf, Bounded, OtherwiseFine, Configured, Verdict;
    AppPredictsProgram(p, s, op);
    RedeemNeverOverflows(p, s, op);
    LimitVerdict(Step(p, s, op));
  }

  /** The net amount the app quotes is the amount the user receives, so a slippage floor taken from the
      quote never fails at the quoted price. */
  lemma QuoteIsPaid(p: Params, s: State, op: Op)
    requires op.Redeem? && OtherwiseFine(p, s, op) && Step(p, s, op).Ok?
    ensures var price := ReadPrice(p, s.lastUsedUs, op.now, op.payload).value.price;
            var bps := ClientPremiumBps(p.premiumBpsRedeem, FlagsOf(op.exemption), ExpiryOf(op.exemption), RedeemSide, op.now);
            var after := Step(p, s, op).value;
            Balance(after.usdc, op.user) - Balance(s.usdc, op.user) == RedeemUsdcOut(op.amountSilv, price, bps)
  {
    var price := ReadPrice(p, s.lastUsedUs, op.now, op.payload).value.price;
    var bps := EffectivePremiumBps(p.premiumBpsRedeem, op.exemption, op.user, RedeemSide, op.now);
    PremiumsAgree(p.premiumBpsRedeem, op.exemption, op.user, RedeemSide, op.now);
    hide ReadPrice;
    RedeemQuoteExact(p, bps, op.amountSilv, op.minUsdcOut, price);
    ClientFeeIsFee(GrossOf(op.amountSilv, price), bps);
    hide RedeemQuote, EffectivePremiumBps, ClientPremiumBps, Fee, ClientFee, Decide, RedeemLimits;
  }
}
