/** The fee-routing switch: it moves the premium's destination and nothing a user can see. Every run
    accepted with routing on is accepted with it off, step for step, with the same user amounts. */
module FeeRouting {
  import opened Wrappers
  import opened Ints
  import opened Access
  import opened PricingMath
  import opened RedeemWindow
  import opened Machine
  import LazerWire
  import LazerPolicy
  import PriceBreaker

  function On(p: Params): Params { p.(feeRoutingDisabled := false) }

  function Off(p: Params): Params { p.(feeRoutingDisabled := true) }

  /** The same operation for the user; only what the vault received may differ. */
  ghost predicate SameForUser(on: Event, off: Event) {
    match on
    case MintEvent(user, amountUsdc, amountSilv, price, _, timestamp) =>
      off.MintEvent? && off.feeUsdc <= on.feeUsdc && off == MintEvent(user, amountUsdc, amountSilv, price, off.feeUsdc, timestamp)
    case RedeemEvent(user, amountSilv, amountUsdc, price, _, timestamp) =>
      off.RedeemEvent? && off.feeUsdc <= on.feeUsdc && off == RedeemEvent(user, amountSilv, amountUsdc, price, off.feeUsdc, timestamp)
    case _ => off == on
  }

  /** Less used, in both buckets of one window. */
  predicate LessUsed(off: Window, on: Window) {
    off.start == on.start && off.current <= on.current && off.prev <= on.prev
  }

  /** How the state with routing off tracks the state with routing on. */
  ghost predicate Tracks(on: State, off: State) {
    && off.lastUsedUs == on.lastUsedUs && off.breaker == on.breaker
    && off.supply == on.supply && off.usdc == on.usdc && off.silv == on.silv
    && LessUsed(off.window, on.window)
    && off.treasury + off.feeVault == on.treasury + on.feeVault
    && on.treasury <= off.treasury
    && |off.events| == |on.events|
    && forall i | 0 <= i < |on.events| :: SameForUser(on.events[i], off.events[i])
  }

  lemma RollMono(w: int, now: int, off: Window, on: Window)
    requires w > 0 && LessUsed(off, on)
    ensures LessUsed(Rolled(w, now, off), Rolled(w, now, on))
    ensures EffectiveUsed(w, now, off) <= EffectiveUsed(w, now, on)
  {
    var a, b := Rolled(w, now, off), Rolled(w, now, on);
    var left := w - Clamp(now - a.start, 0, w);
    MulMono(a.prev, left, b.prev, left);
    DivMono(a.prev * left, b.prev * left, w);
  }

  /** The switch has no part in the gates or in the price. */
  lemma SameGatesAndPrice(p: Params, s: State, op: Op)
    requires Priced(op)
    ensures ReadPrice(On(p), s.lastUsedUs, op.now, op.payload) == ReadPrice(Off(p), s.lastUsedUs, op.now, op.payload)
    ensures op.Mint? ==> MintGate(On(p), op.now, op.user, op.amountUsdc, op.kyc) == MintGate(Off(p), op.now, op.user, op.amountUsdc, op.kyc)
    ensures op.Redeem? ==> RedeemGate(On(p), op.user, op.amountSilv, op.kyc) == RedeemGate(Off(p), op.user, op.amountSilv, op.kyc)
  {
    hide LazerWire.Extract, LazerPolicy.PriceFromLazer;
  }

  lemma SameMint(p: Params, on: State, off: State, op: Op, price: u128, feedUs: u64)
    requires op.Mint? && Tracks(on, off)
    ensures MintAt(On(p), on, op, price, feedUs).Ok? == MintAt(Off(p), off, op, price, feedUs).Ok?
    ensures MintAt(On(p), on, op, price, feedUs).Ok? ==>
            Tracks(MintAt(On(p), on, op, price, feedUs).value, MintAt(Off(p), off, op, price, feedUs).value)
  {
    hide FeeFromAmount, MintSilvOut, EffectivePremiumBps, PriceBreaker.MaybeUpdateLastPrice;
  }

  /** The gross value of a redemption, where it has one. */
  function GrossAt(op: Op, price: u128): nat
    requires op.Redeem?
  {
    var gross := SilvToUsdcAtOracle(op.amountSilv, price);
    if gross.Ok? then gross.value else 0
  }

  lemma QuotesAgree(p: Params, bps: u16, amountSilv: u64, minUsdcOut: u64, price: u128)
    ensures var on, off := RedeemQuote(On(p), bps, amountSilv, minUsdcOut, price), RedeemQuote(Off(p), bps, amountSilv, minUsdcOut, price);
            && (on.Ok? <==> off.Ok?)
            && (on.Ok? ==> && off.value == on.value.(feeRouted := 0)
                           && TotalOut(on.value) == on.value.gross && TotalOut(off.value) == on.value.toUser <= on.value.gross
                           && SilvToUsdcAtOracle(amountSilv, price) == Ok(on.value.gross) && on.value.toUser > 0)
  {
    hide FeeFromAmount, SilvToUsdcAtOracle;
  }

  lemma SameRedeem(p: Params, on: State, off: State, op: Op, price: u128, feedUs: u64)
    requires p.windowSeconds > 0 && op.Redeem? && Tracks(on, off)
    ensures var a, b := RedeemAt(On(p), on, op, price, feedUs), RedeemAt(Off(p), off, op, price, feedUs);
            && (a.Ok? <==> b.Ok? && EffectiveUsed(p.windowSeconds, op.now, on.window) + GrossAt(op, price) <= p.budgetUsdc
                           && GrossAt(op, price) <= on.treasury)
            && (a.Ok? && b.Ok? ==> Tracks(a.value, b.value))
  {
    var bps := EffectivePremiumBps(p.premiumBpsRedeem, op.exemption, op.user, RedeemSide, op.now);
    QuotesAgree(p, bps, op.amountSilv, op.minUsdcOut, price);
    RollMono(p.windowSeconds, op.now, off.window, on.window);
    hide RedeemQuote, EffectivePremiumBps, SilvToUsdcAtOracle, Weighted, PriceBreaker.MaybeUpdateLastPrice;
  }

  /** What a redemption needs with routing on, beyond what it needs with routing off. */
  ghost predicate GrossIsCovered(p: Params, on: State, op: Op) {
    op.Redeem? ==>
      match ReadPrice(p, on.lastUsedUs, op.now, op.payload)
      case Err(_) => true
      case Ok(res) =>
        && EffectiveUsed(p.windowSeconds, op.now, on.window) + GrossAt(op, res.price) <= p.budgetUsdc
        && GrossAt(op, res.price) <= on.treasury
  }

  /** One step: with routing on it is accepted exactly when it is with routing off and the budget and the
      treasury also cover the premium; and the two states keep tracking each other. */
  lemma StepsTrack(p: Params, on: State, off: State, op: Op)
    requires p.windowSeconds > 0 && Tracks(on, off)
    ensures Step(On(p), on, op).Ok? <==> Step(Off(p), off, op).Ok? && GrossIsCovered(On(p), on, op)
    ensures Step(On(p), on, op).Ok? ==> Tracks(Step(On(p), on, op).value, Step(Off(p), off, op).value)
  {
    hide ReadPrice, MintGate, RedeemGate, MintAt, RedeemAt, PriceBreaker.CheckPriceDelta, EffectiveUsed;
    if Priced(op) {
      SameGatesAndPrice(p, on, op);
      var read := ReadPrice(On(p), on.lastUsedUs, op.now, op.payload);
      if read.Ok? {
        if op.Mint? {
          SameMint(p, on, off, op, read.value.price, read.value.feedUpdateUs);
        } else {
          SameRedeem(p, on, off, op, read.value.price, read.value.feedUpdateUs);
        }
      }
      hide Tracks;
    }
  }

  lemma TracksItself(s: State)
    ensures Tracks(s, s)
  {
  }

  /** Every redemption of the run finds its gross value covered, with routing on, when its turn comes. */
  ghost predicate GrossIsCoveredThroughout(p: Params, start: State, ops: seq<Op>) {
    ops == [] ||
    (&& GrossIsCoveredThroughout(p, start, ops[..|ops| - 1])
     && match Run(On(p), start, ops[..|ops| - 1])
        case Err(_) => true
        case Ok(on) => GrossIsCovered(On(p), on, ops[|ops| - 1]))
  }

  /** Any run accepted with routing on is accepted with routing off, from the same start: every wallet,
      every payment and every amount of SILV is the same, and the treasury and the vault together hold the
      same. And a run accepted with routing off is accepted with it on exactly when every redemption's gross
      value is covered along the way. */
  lemma {:induction false} RoutingIsNeutral(p: Params, start: State, ops: seq<Op>)
    requires p.windowSeconds > 0
    ensures Run(On(p), start, ops).Ok? <==> Run(Off(p), start, ops).Ok? && GrossIsCoveredThroughout(p, start, ops)
    ensures Run(On(p), start, ops).Ok? ==> Tracks(Run(On(p), start, ops).value, Run(Off(p), start, ops).value)
  {
    if ops == [] {
      TracksItself(start);
    } else {
      var init, op := ops[..|ops| - 1], ops[|ops| - 1];
      RoutingIsNeutral(p, start, init);
      if Run(On(p), start, init).Ok? {
        StepsTrack(p, Run(On(p), start, init).value, Run(Off(p), start, init).value, op);
      }
      hide Step, Tracks, GrossIsCovered, On, Off;
    }
  }
}
