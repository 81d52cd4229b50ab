/** What holds in every reachable state and over every accepted run of the machine: the outflow bound,
    one print per operation, the compounding of the breaker, and the absence of overflow. */
module Safety {
  import opened Wrappers
  import opened Ints
  import opened Errors
  import opened Access
  import opened PricingMath
  import opened RedeemWindow
  import opened PriceBreaker
  import opened Machine
  import opened Ledger
  import LazerWire
  import LazerPolicy

  // ---- The outflow bound ----

  /** The redemptions among the events, as spends of the treasury. */
  function Spends(events: seq<Event>): seq<Spend> {
    if events == [] then [] else
      var last := events[|events| - 1];
      Spends(events[..|events| - 1]) + if last.RedeemEvent? then [Spend(last.timestamp, last.amountUsdc + last.feeUsdc)] else []
  }

  /** A redemption passes the budget check exactly as a spend of its outflow, saturation included. */
  lemma RedeemIsASpend(p: Params, s: State, op: Op, price: u128, feedUs: u64)
    requires p.windowSeconds > 0 && op.Redeem? && RedeemAt(p, s, op, price, feedUs).Ok?
    ensures var after := RedeemAt(p, s, op, price, feedUs).value;
            && |after.events| == |s.events| + 1 && var e := after.events[|s.events|];
            && e.RedeemEvent? && e.timestamp == op.now
            && TrySpend(p.windowSeconds, p.budgetUsdc, s.window, Spend(op.now, e.amountUsdc + e.feeUsdc)) == Some(after.window)
  {
    var bps := EffectivePremiumBps(p.premiumBpsRedeem, op.exemption, op.user, RedeemSide, op.now);
    hide RedeemQuote;
    RedeemQuoteExact(p, bps, op.amountSilv, op.minUsdcOut, price);
    hide Fee, GrossOf, EffectivePremiumBps;
  }

  /** The window invariant of the machine. */
  ghost predicate WindowSafe(p: Params, s: State, last: int)
    requires p.windowSeconds > 0
  {
    WindowInv(p.windowSeconds, p.budgetUsdc, s.window, Spends(s.events), last)
  }

  lemma RedeemStepIsASpend(p: Params, s: State, op: Op)
    requires p.windowSeconds > 0 && op.Redeem? && Step(p, s, op).Ok?
    ensures var after := Step(p, s, op).value;
            && |after.events| == |s.events| + 1 && var e := after.events[|s.events|];
            && e.RedeemEvent? && e.timestamp == op.now
            && TrySpend(p.windowSeconds, p.budgetUsdc, s.window, Spend(op.now, e.amountUsdc + e.feeUsdc)) == Some(after.window)
  {
    hide ReadPrice, RedeemAt, RedeemGate, CheckPriceDelta, TrySpend, PrintIn;
    ReadPriceFacts(p, s.lastUsedUs, op.now, op.payload);
    var res := ReadPrice(p, s.lastUsedUs, op.now, op.payload).value;
    RedeemIsASpend(p, s, op, res.price, res.feedUpdateUs);
  }

  /** A redemption spends from the window; any other step leaves the window and the spends alone. */
  lemma StepSpends(p: Params, s: State, op: Op) returns (spend: Spend)
    requires p.windowSeconds > 0 && Step(p, s, op).Ok?
    ensures var after := Step(p, s, op).value;
            && spend.time == op.now
            && (op.Redeem? ==> TrySpend(p.windowSeconds, p.budgetUsdc, s.window, spend) == Some(after.window)
                               && Spends(after.events) == Spends(s.events) + [spend])
            && (!op.Redeem? ==> after.window == s.window && Spends(after.events) == Spends(s.events))
  {
    hide Step, Fair, Spends, TrySpend, ChargedExactly, PricedAt;
    StepIsItsEvent(p, s, op);
    spend := Spend(op.now, 0);
    var e := Step(p, s, op).value.events[|s.events|];
    if op.Redeem? {
      RedeemStepIsASpend(p, s, op);
      spend := Spend(op.now, e.amountUsdc + e.feeUsdc);
    }
    SpendsOfOneMore(s.events, e);
  }

  lemma StepKeepsWindow(p: Params, s: State, op: Op, last: int)
    requires p.windowSeconds > 0 && Step(p, s, op).Ok? && WindowSafe(p, s, last) && last <= op.now && op.now > 0
    ensures WindowSafe(p, Step(p, s, op).value, op.now)
  {
    hide Step, WindowInv, Commit, EffectiveUsed, Spends;
    var spend := StepSpends(p, s, op);
    if op.Redeem? {
      SpendKeepsInv(p.windowSeconds, p.budgetUsdc, s.window, Spends(s.events), last, spend);
    } else {
      WaitingKeepsInv(p.windowSeconds, p.budgetUsdc, s.window, Spends(s.events), last, op.now);
    }
  }

  lemma SpendsOfOneMore(events: seq<Event>, e: Event)
    ensures Spends(events + [e]) ==
            if e.RedeemEvent? then Spends(events) + [Spend(e.timestamp, e.amountUsdc + e.feeUsdc)] else Spends(events)
  {
    assert (events + [e])[..|events|] == events;
  }

  /** Over any accepted run, from any stored window and under any budget, whatever else is minted, deposited
      or moved in between: what leaves the treasury in any closed interval of one window length is at most
      2B - floor(B/W). */
  lemma {:induction false} TreasuryOutflowBound(p: Params, start: State, ops: seq<Op>)
    requires p.windowSeconds > 0 && start.events == [] && OnTime(start, ops) && Run(p, start, ops).Ok?
    ensures NeverTooFast(p.windowSeconds, p.budgetUsdc, Spends(Run(p, start, ops).value.events))
    ensures WindowSafe(p, Run(p, start, ops).value, if ops == [] then start.window.start else ops[|ops| - 1].now)
  {
    if ops == [] {
      NothingSpentYet(p.windowSeconds, p.budgetUsdc, start.window);
    } else {
      var init := ops[..|ops| - 1];
      TreasuryOutflowBound(p, start, init);
      StepKeepsWindow(p, Run(p, start, init).value, ops[|ops| - 1], if init == [] then start.window.start else init[|init| - 1].now);
    }
  }

  lemma StepInventsNothing(p: Params, s: State, op: Op, last: int, stored: nat)
    requires p.windowSeconds > 0 && Step(p, s, op).Ok? && WindowSafe(p, s, last) && last <= op.now && op.now > 0
    requires NothingInvented(p.windowSeconds, stored, s.window, Spends(s.events))
    ensures NothingInvented(p.windowSeconds, stored, Step(p, s, op).value.window, Spends(Step(p, s, op).value.events))
  {
    hide Step, WindowInv, NothingInvented, Commit, EffectiveUsed, Spends;
    var spend := StepSpends(p, s, op);
    if op.Redeem? {
      SpendInventsNothing(p.windowSeconds, p.budgetUsdc, stored, s.window, Spends(s.events), last, spend);
    }
  }

  lemma {:induction false} RunInventsNothing(p: Params, start: State, ops: seq<Op>)
    requires p.windowSeconds > 0 && start.events == [] && OnTime(start, ops) && Run(p, start, ops).Ok?
    ensures var end := Run(p, start, ops).value;
            NothingInvented(p.windowSeconds, start.window.current + start.window.prev, end.window, Spends(end.events))
  {
    hide Step, WindowSafe, NeverTooFast;
    if ops == [] {
    } else {
      var init := ops[..|ops| - 1];
      hide NothingInvented, Spends;
      RunInventsNothing(p, start, init);
      TreasuryOutflowBound(p, start, init);
      StepInventsNothing(p, Run(p, start, init).value, ops[|ops| - 1], if init == [] then start.window.start else init[|init| - 1].now,
                         start.window.current + start.window.prev);
    }
  }

  /** The other side of the bound: after any accepted run, what counts against the budget is no more than what
      redemptions took out of the treasury in the last two windows, plus what was stored before the run. */
  lemma UsageWasPaidOut(p: Params, start: State, ops: seq<Op>, now: int)
    requires p.windowSeconds > 0 && start.events == [] && OnTime(start, ops) && Run(p, start, ops).Ok?
    requires now > 0 && now >= if ops == [] then start.window.start else ops[|ops| - 1].now
    ensures var end := Run(p, start, ops).value;
            EffectiveUsed(p.windowSeconds, now, end.window)
            <= SpentIn(Spends(end.events), now - 2 * p.windowSeconds + 1, now) + start.window.current + start.window.prev
  {
    hide Run, Spends, SpentIn, NothingInvented, NeverTooFast, WindowInv, EffectiveUsed, OnTime;
    RunInventsNothing(p, start, ops);
    TreasuryOutflowBound(p, start, ops);
    var end := Run(p, start, ops).value;
    UsageIsSpent(p.windowSeconds, p.budgetUsdc, start.window.current + start.window.prev, end.window, Spends(end.events),
                 if ops == [] then start.window.start else ops[|ops| - 1].now, now);
  }

  // ---- One print, one operation ----

  /** The feed time an operation's payload carries. */
  function FeedTime(p: Params, op: Op): nat {
    if !Priced(op) || PrintIn(p, op.payload).None? then 0 else PrintIn(p, op.payload).value.1
  }

  predicate Timely(p: Params, op: Op) {
    !Priced(op) || NowUs(op.now) - p.maxStalenessSeconds * 1_000_000 <= FeedTime(p, op) <= NowUs(op.now) + LAZER_FUTURE_SKEW_US
  }

  lemma StepUsesANewPrint(p: Params, s: State, op: Op)
    requires Step(p, s, op).Ok?
    ensures Timely(p, op)
    ensures !Priced(op) ==> FeedTime(p, op) == 0 && Step(p, s, op).value.lastUsedUs == s.lastUsedUs
    ensures Priced(op) ==> s.lastUsedUs < FeedTime(p, op) && Step(p, s, op).value.lastUsedUs as int == FeedTime(p, op)
  {
    if Priced(op) {
      ReadPriceFacts(p, s.lastUsedUs, op.now, op.payload);
      hide ReadPrice, PrintIn;
      hide MintQuote, RedeemQuote, EffectivePremiumBps;
    }
  }

  /** A payload has one feed time. */
  lemma FeedTimesDiffer(p: Params, ops: seq<Op>)
    ensures forall i, j | 0 <= i < j < |ops| && Priced(ops[i]) && Priced(ops[j]) && FeedTime(p, ops[i]) != FeedTime(p, ops[j]) ::
              ops[i].payload != ops[j].payload
  {
    hide PrintIn;
  }

  /** The feed times of accepted mints and redeems together are strictly increasing, so no print, and no
      payload, ever prices two operations; and each was fresh when it was used. */
  lemma {:induction false} OnePrintOneOperation(p: Params, start: State, ops: seq<Op>)
    requires Run(p, start, ops).Ok?
    ensures start.lastUsedUs <= Run(p, start, ops).value.lastUsedUs
    ensures forall i | 0 <= i < |ops| :: Timely(p, ops[i]) && FeedTime(p, ops[i]) <= Run(p, start, ops).value.lastUsedUs
    ensures forall i, j | 0 <= i < j < |ops| && Priced(ops[i]) && Priced(ops[j]) ::
              FeedTime(p, ops[i]) < FeedTime(p, ops[j]) && ops[i].payload != ops[j].payload
  {
    hide Step, Timely, PrintIn, FeedTime;
    if ops != [] {
      var init, op := ops[..|ops| - 1], ops[|ops| - 1];
      OnePrintOneOperation(p, start, init);
      StepUsesANewPrint(p, Run(p, start, init).value, op);
      assert forall i | 0 <= i < |init| :: ops[i] == init[i];
      FeedTimesDiffer(p, ops);
    }
  }

  // ---- No overflow ----

  /** What the checked arithmetic relies on. Genesis has it, every step keeps it, and so do the setters. */
  ghost predicate Bounded(p: Params, s: State) {
    && s.breaker.lastPrice <= PRICE_FATFINGER_MAX_SCALED
    && TotalOf(s.silv) == s.supply <= p.maxSilvSupply
    && s.window.current <= INSTANT_BUDGET_CEILING_USDC && s.window.prev <= INSTANT_BUDGET_CEILING_USDC
  }

  lemma StepKeepsBreakerCapped(p: Params, s: State, op: Op)
    requires Configured(p) && Step(p, s, op).Ok? && s.breaker.lastPrice <= PRICE_FATFINGER_MAX_SCALED
    ensures Step(p, s, op).value.breaker.lastPrice <= PRICE_FATFINGER_MAX_SCALED
  {
    if Priced(op) {
      ReadPriceFacts(p, s.lastUsedUs, op.now, op.payload);
      hide ReadPrice, PrintIn, MintQuote, RedeemQuote, EffectivePremiumBps;
    }
  }

  lemma SpendStaysUnder(w: nat, b: nat, most: nat, win: Window, spend: Spend)
    requires w > 0 && b <= most && win.current <= most && win.prev <= most && TrySpend(w, b, win, spend).Some?
    ensures var after := TrySpend(w, b, win, spend).value; after.current <= most && after.prev <= most
  {
    hide Weighted;
  }

  lemma StepKeepsBounded(p: Params, s: State, op: Op)
    requires Configured(p) && Bounded(p, s) && Step(p, s, op).Ok?
    ensures Bounded(p, Step(p, s, op).value)
  {
    StepKeepsBreakerCapped(p, s, op);
    StepIsItsEvent(p, s, op);
    var after := Step(p, s, op).value;
    var spend := StepSpends(p, s, op);
    hide Step, Fair, CausedBy, TotalOf, TrySpend, Applies, Spends;
    NothingIsCreated(s, after.events[|s.events|], after);
    if op.Redeem? {
      SpendStaysUnder(p.windowSeconds, p.budgetUsdc, INSTANT_BUDGET_CEILING_USDC, s.window, spend);
    }
  }

  lemma {:induction false} ReachableIsBounded(p: Params, start: State, ops: seq<Op>)
    requires Configured(p) && Bounded(p, start) && Run(p, start, ops).Ok?
    ensures Bounded(p, Run(p, start, ops).value)
  {
    hide Step, Bounded, Configured;
    if ops != [] {
      ReachableIsBounded(p, start, ops[..|ops| - 1]);
      StepKeepsBounded(p, Run(p, start, ops[..|ops| - 1]).value, ops[|ops| - 1]);
    }
  }

  lemma ReadPriceNeverOverflows(p: Params, lastUsedUs: u64, now: i64, payload: seq<u8>)
    ensures ReadPrice(p, lastUsedUs, now, payload) != Err(ArithmeticOverflow)
  {
    var lp := LazerWire.Extract(payload, p.feedId, LAZER_CHANNEL_ID);
    hide LazerWire.Extract;
    if lp.Ok? {
      LazerPolicy.NoOverflow(lp.value, PolicyOf(p, now), lastUsedUs);
      hide LazerPolicy.PriceFromLazer;
    }
  }

  lemma DeltaNeverOverflows(params: BreakerParams, b: Breaker, price: u128, now: i64)
    requires price <= PRICE_FATFINGER_MAX_SCALED && b.lastPrice <= PRICE_FATFINGER_MAX_SCALED
    requires params.maxDeltaBps <= MAX_PRICE_DELTA_BPS_CEILING
    ensures CheckPriceDelta(params, b, price, now) != Err(ArithmeticOverflow)
  {
    MulMono(b.lastPrice, params.maxDeltaBps, PRICE_FATFINGER_MAX_SCALED, MAX_PRICE_DELTA_BPS_CEILING);
  }

  lemma FiveDollarsAnOunce(net: nat, price: nat)
    requires price >= PRICE_FATFINGER_MIN_SCALED
    ensures 5 * SilvFor(net, price) <= net
  {
    var silv := SilvFor(net, price);
    DivBounds(net * PRICE_SCALE_FACTOR, price);
    MulMono(silv, PRICE_FATFINGER_MIN_SCALED, silv, price);
  }

  /** What is left after the fee buys an acceptable amount of SILV that takes the supply out of u64. */
  predicate TooMuchSilv(bps: u16, supply: nat, amountUsdc: u64, minSilvOut: u64, price: u128) {
    var net := Net(amountUsdc, bps);
    net > 0 && price > 0 && SilvFor(net, price) >= minSilvOut && supply + SilvFor(net, price) > U64_MAX
  }

  /** Exactly when the terms of a mint overflow; never at a price of at least $5. */
  lemma MintQuoteOverflowsIff(p: Params, bps: u16, supply: nat, amountUsdc: u64, minSilvOut: u64, price: u128)
    requires bps <= PREMIUM_BPS_CEILING && supply <= MAX_SILV_SUPPLY_CEILING
    ensures MintQuote(p, bps, supply, amountUsdc, minSilvOut, price) == Err(ArithmeticOverflow)
            <==> TooMuchSilv(bps, supply, amountUsdc, minSilvOut, price)
    ensures price >= PRICE_FATFINGER_MIN_SCALED ==> !TooMuchSilv(bps, supply, amountUsdc, minSilvOut, price)
  {
    FeeFromAmountExact(amountUsdc, bps);
    var net := amountUsdc - Fee(amountUsdc, bps);
    MintSilvOutExact(net, price);
    if price >= PRICE_FATFINGER_MIN_SCALED {
      FiveDollarsAnOunce(net, price);
    }
    hide Fee, SilvFor, FeeFromAmount, MintSilvOut;
  }

  /** A redemption of no more SILV than can exist never overflows, at any price under the upper rail and
      with any usage the budget allows. */
  lemma RedeemQuoteNeverOverflows(p: Params, bps: u16, amountSilv: u64, minUsdcOut: u64, price: u128)
    requires bps <= PREMIUM_BPS_CEILING && price <= PRICE_FATFINGER_MAX_SCALED && amountSilv <= MAX_SILV_SUPPLY_CEILING
    ensures RedeemQuote(p, bps, amountSilv, minUsdcOut, price) != Err(ArithmeticOverflow)
    ensures RedeemQuote(p, bps, amountSilv, minUsdcOut, price).Ok? ==>
            TotalOut(RedeemQuote(p, bps, amountSilv, minUsdcOut, price).value) <= 200 * MAX_SILV_SUPPLY_CEILING
  {
    SilvToUsdcExact(amountSilv, price);
    MulMono(amountSilv, price, MAX_SILV_SUPPLY_CEILING, PRICE_FATFINGER_MAX_SCALED);
    var gross := GrossOf(amountSilv, price);
    assert gross <= 200 * MAX_SILV_SUPPLY_CEILING;
    FeeFromAmountExact(gross, bps);
    hide Fee, GrossOf, FeeFromAmount, SilvToUsdcAtOracle;
  }

  /** The operation passes its gates and would take the supply out of u64. */
  ghost predicate SupplyOverflows(p: Params, s: State, op: Op) {
    match op
    case Mint(now, user, amountUsdc, minSilvOut, payload, exemption, kyc) =>
      && MintGate(p, now, user, amountUsdc, kyc).Ok?
      && var read := ReadPrice(p, s.lastUsedUs, now, payload);
      && read.Ok? && CheckPriceDelta(p.breaker, s.breaker, read.value.price, now).Ok?
      && TooMuchSilv(EffectivePremiumBps(p.premiumBpsMint, exemption, user, MintSide, now), s.supply, amountUsdc, minSilvOut,
                     read.value.price)
    case Premint(_, user, amount) => PremintGate(p, user, amount).Ok? && s.supply + amount > U64_MAX
    case _ => false
  }

  lemma MintOverflowsIff(p: Params, s: State, op: Op)
    requires Configured(p) && Bounded(p, s) && op.Mint?
    ensures Step(p, s, op) == Err(ArithmeticOverflow) <==> SupplyOverflows(p, s, op)
    ensures SupplyOverflows(p, s, op) ==> p.minPrice == 0
  {
    ReadPriceNeverOverflows(p, s.lastUsedUs, op.now, op.payload);
    var read := ReadPrice(p, s.lastUsedUs, op.now, op.payload);
    hide ReadPrice, CheckPriceDelta, MintQuote, TooMuchSilv, EffectivePremiumBps, MaybeUpdateLastPrice, Credit, Debit, TotalOf;
    if read.Ok? {
      ReadPriceFacts(p, s.lastUsedUs, op.now, op.payload);
      DeltaNeverOverflows(p.breaker, s.breaker, read.value.price, op.now);
      var bps := EffectivePremiumBps(p.premiumBpsMint, op.exemption, op.user, MintSide, op.now);
      BpsUnderCeiling(p.premiumBpsMint, op);
      MintQuoteOverflowsIff(p, bps, s.supply, op.amountUsdc, op.minSilvOut, read.value.price);
    }
  }

  lemma BpsUnderCeiling(configured: u16, op: Op)
    requires Priced(op) && configured <= PREMIUM_BPS_CEILING
    ensures EffectivePremiumBps(configured, op.exemption, op.user, if op.Mint? then MintSide else RedeemSide, op.now) <= PREMIUM_BPS_CEILING
  {
  }

  lemma LimitsNeverOverflow(p: Params, s: State, now: i64, totalOut: nat)
    requires Configured(p) && Bounded(p, s) && totalOut <= 200 * MAX_SILV_SUPPLY_CEILING
    ensures RedeemLimits(p, Decide(p, s.window, now).effectiveUsed, s.treasury, totalOut) != Err(ArithmeticOverflow)
    ensures Decide(p, s.window, now).rolled.current + totalOut <= U64_MAX
  {
    UsageIsBounded(p, s, now);
    hide Decide, Bounded;
  }

  lemma RedeemAtNeverOverflows(p: Params, s: State, op: Op, price: u128, feedUs: u64)
    requires Configured(p) && Bounded(p, s) && price <= PRICE_FATFINGER_MAX_SCALED && op.Redeem? && op.amountSilv <= Balance(s.silv, op.user)
    ensures RedeemAt(p, s, op, price, feedUs) != Err(ArithmeticOverflow)
  {
    BalanceWithinSum(s.silv, op.user);
    var bps := EffectivePremiumBps(p.premiumBpsRedeem, op.exemption, op.user, RedeemSide, op.now);
    BpsUnderCeiling(p.premiumBpsRedeem, op);
    RedeemQuoteNeverOverflows(p, bps, op.amountSilv, op.minUsdcOut, price);
    var quote := RedeemQuote(p, bps, op.amountSilv, op.minUsdcOut, price);
    if quote.Ok? {
      LimitsNeverOverflow(p, s, op.now, TotalOut(quote.value));
    }
    hide RedeemQuote, RedeemLimits, Decide, TotalOf, Bounded, EffectivePremiumBps;
  }

  lemma RedeemNeverOverflows(p: Params, s: State, op: Op)
    requires Configured(p) && Bounded(p, s) && op.Redeem? && op.amountSilv <= Balance(s.silv, op.user)
    ensures Step(p, s, op) != Err(ArithmeticOverflow)
  {
    ReadPriceNeverOverflows(p, s.lastUsedUs, op.now, op.payload);
    var read := ReadPrice(p, s.lastUsedUs, op.now, op.payload);
    hide ReadPrice, CheckPriceDelta, RedeemAt;
    if read.Ok? {
      ReadPriceFacts(p, s.lastUsedUs, op.now, op.payload);
      DeltaNeverOverflows(p.breaker, s.breaker, read.value.price, op.now);
      RedeemAtNeverOverflows(p, s, op, read.value.price, read.value.feedUpdateUs);
    }
  }

  lemma UsageIsBounded(p: Params, s: State, now: i64)
    requires Configured(p) && Bounded(p, s)
    ensures Decide(p, s.window, now).effectiveUsed <= 2 * INSTANT_BUDGET_CEILING_USDC
    ensures Decide(p, s.window, now).rolled.current <= INSTANT_BUDGET_CEILING_USDC
  {
    var w, r := p.windowSeconds, Rolled(p.windowSeconds, now, s.window);
    WeightedBounds(r.prev, w - Clamp(now - r.start, 0, w), w);
    hide Weighted;
  }

  /** In every reachable state an operation ends in an overflow exactly when it would issue SILV past u64.
      No redemption of what a wallet holds, no deposit and no transfer can; a mint can only while the lower
      price bound is switched off; and a premint only for an amount beyond any cap. */
  lemma NoReachableOverflow(p: Params, start: State, ops: seq<Op>, op: Op)
    requires Configured(p) && Bounded(p, start) && Run(p, start, ops).Ok?
    requires op.Redeem? ==> op.amountSilv <= Balance(Run(p, start, ops).value.silv, op.user)
    ensures Step(p, Run(p, start, ops).value, op) == Err(ArithmeticOverflow) <==> SupplyOverflows(p, Run(p, start, ops).value, op)
    ensures SupplyOverflows(p, Run(p, start, ops).value, op) ==>
            (op.Mint? && p.minPrice == 0) || (op.Premint? && op.amount > MAX_SILV_SUPPLY_CEILING)
  {
    ReachableIsBounded(p, start, ops);
    var s := Run(p, start, ops).value;
    hide Run;
    if op.Mint? {
      hide Step, SupplyOverflows, Bounded;
      MintOverflowsIff(p, s, op);
    } else if op.Redeem? {
      hide Step, Bounded;
      RedeemNeverOverflows(p, s, op);
    }
  }

  // ---- The breaker over a run ----

  /** The priced operations of a run, as the breaker sees them: an operation's size is the USDC paid on
      a mint, and the gross value of the SILV on a redemption. */
  function PrintsOf(p: Params, ops: seq<Op>): seq<Print> {
    if ops == [] then [] else
      var op := ops[|ops| - 1];
      PrintsOf(p, ops[..|ops| - 1]) + if Priced(op) then [PrintOf(p, op)] else []
  }

  function PrintOf(p: Params, op: Op): Print
    requires Priced(op)
  {
    var price := match PrintIn(p, op.payload) case None => 0 case Some((price, _)) => price;
    var amount := if op.Mint? then op.amountUsdc else GrossOf(op.amountSilv, price);
    Print(if price <= U128_MAX then price else 0, if amount <= U64_MAX then amount else 0, op.now)
  }

  lemma StepIsAPrint(p: Params, s: State, op: Op)
    requires Priced(op) && Step(p, s, op).Ok?
    ensures TryPrint(p.breaker, s.breaker, PrintOf(p, op)) == Some(Step(p, s, op).value.breaker)
    ensures PrintOf(p, op).price > 0
  {
    ReadPriceFacts(p, s.lastUsedUs, op.now, op.payload);
    var price := ReadPrice(p, s.lastUsedUs, op.now, op.payload).value.price;
    hide ReadPrice, PrintIn, CheckPriceDelta, MintQuote, RedeemQuote, EffectivePremiumBps, Decide;
    if op.Redeem? {
      var bps := EffectivePremiumBps(p.premiumBpsRedeem, op.exemption, op.user, RedeemSide, op.now);
      RedeemQuoteExact(p, bps, op.amountSilv, op.minUsdcOut, price);
    } else {
      var bps := EffectivePremiumBps(p.premiumBpsMint, op.exemption, op.user, MintSide, op.now);
      MintQuoteExact(p, bps, s.supply, op.amountUsdc, op.minSilvOut, price);
    }
    hide GrossOf, Fee, SilvFor;
  }

  lemma PrintsOfOneMore(params: BreakerParams, b: Breaker, prints: seq<Print>, x: Print)
    requires Prints(params, b, prints).Some?
    ensures Prints(params, b, prints + [x]) == TryPrint(params, Prints(params, b, prints).value, x)
  {
    assert (prints + [x])[..|prints|] == prints;
    hide TryPrint;
  }

  /** The machine drives the breaker by exactly its priced operations. */
  lemma {:induction false} RunIsABreakerRun(p: Params, start: State, ops: seq<Op>)
    requires Run(p, start, ops).Ok?
    ensures Prints(p.breaker, start.breaker, PrintsOf(p, ops)) == Some(Run(p, start, ops).value.breaker)
    ensures forall x | x in PrintsOf(p, ops) :: x.price > 0
  {
    hide Step, PrintOf, TryPrint;
    if ops != [] {
      var init, op := ops[..|ops| - 1], ops[|ops| - 1];
      RunIsABreakerRun(p, start, init);
      var s := Run(p, start, init).value;
      if Priced(op) {
        StepIsAPrint(p, s, op);
        PrintsOfOneMore(p.breaker, start.breaker, PrintsOf(p, init), PrintOf(p, op));
      } else {
        assert PrintsOf(p, ops) == PrintsOf(p, init);
        OthersLeaveBreaker(p, s, op);
      }
    }
  }

  lemma OthersLeaveBreaker(p: Params, s: State, op: Op)
    requires !Priced(op) && Step(p, s, op).Ok?
    ensures Step(p, s, op).value.breaker == s.breaker
  {
  }

  /** From an armed state, a run whose recorded prices each come within the decay period of the one before
      moves the reference by at most the compounded share, whatever dust there is in between; and a run of
      dust does not move it at all. */
  lemma BreakerHoldsOverRuns(p: Params, start: State, ops: seq<Op>)
    requires p.breaker.maxDeltaBps <= 10_000 && Run(p, start, ops).Ok? && start.breaker.lastPrice > 0
    ensures var end, prints := Run(p, start, ops).value.breaker, PrintsOf(p, ops);
            && (WithinDecay(p.breaker, start.breaker, prints) ==>
                  Compounded(start.breaker.lastPrice, end.lastPrice, p.breaker.maxDeltaBps, Recorded(p.breaker, prints)))
            && ((forall x | x in prints :: x.amountUsdc < p.breaker.minAmountUsdc) ==> end == start.breaker)
  {
    var prints := PrintsOf(p, ops);
    RunIsABreakerRun(p, start, ops);
    hide Run, PrintsOf, Prints, Compounded, Recorded;
    if WithinDecay(p.breaker, start.breaker, prints) {
      BreakerCompounds(p.breaker, start.breaker, prints);
    }
    if forall x | x in prints :: x.amountUsdc < p.breaker.minAmountUsdc {
      DustNeverMoves(p.breaker, start.breaker, prints);
    }
  }

  // ---- Any timeline of attempts ----

  /** What holds after anything that is attempted, whatever is refused: the outflow bound, the books
      reconciled with the state they began from, and room for the checked arithmetic. */
  ghost predicate Sound(p: Params, start: State, s: State) {
    && 0 < p.windowSeconds && NeverTooFast(p.windowSeconds, p.budgetUsdc, Spends(s.events))
    && Reconciled(p, start, s) && Bounded(p, s)
  }

  /** A state a record can begin from, before attempts that the clock does not contradict. */
  ghost predicate Ready(p: Params, start: State, attempts: seq<Op>) {
    Configured(p) && Opening(p, start) && Bounded(p, start) && OnTime(start, attempts)
  }

  lemma EveryTimelineIsSound(p: Params, start: State, attempts: seq<Op>)
    requires Ready(p, start, attempts)
    ensures Sound(p, start, Attempt(p, start, attempts).0)
  {
    AttemptIsARun(p, start, attempts);
    Machine.AcceptedKeepsTime(p, start, attempts);
    var done := Attempt(p, start, attempts).1;
    assert OnTime(start, done);
    hide Attempt, Run, Opening, Reconciled, Bounded, NeverTooFast, Spends, OnTime, Machine.Chronological;
    LedgerReconciles(p, start, done);
    TreasuryOutflowBound(p, start, done);
    ReachableIsBounded(p, start, done);
  }

  /** What initialize leaves is such a state. */
  lemma GenesisIsReady(p: Params, start: State, attempts: seq<Op>)
    requires Configured(p) && IsGenesis(start) && Machine.Chronological(attempts)
    ensures Ready(p, start, attempts)
  {
  }
}
