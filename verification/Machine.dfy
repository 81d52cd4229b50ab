/** The priced-operation core: one shared config and the token balances, changed by mint_silv,
    redeem_silv, deposit_usdc, admin_premint and plain token transfers between wallets. This module says
    what each accepted step does to the whole state; module Program does it field by field. */
module Machine {
  import opened Wrappers
  import opened Ints
  import opened Errors
  import opened Access
  import opened PricingMath
  import opened RedeemWindow
  import opened PriceBreaker
  import LazerWire
  import LazerPolicy

  const LAZER_CHANNEL_ID: u8 := 4
  const LAZER_FUTURE_SKEW_US: u64 := 2_000_000
  const MIN_DEPOSIT_USDC: u64 := 1_000_000

  const PREMIUM_BPS_CEILING: u16 := 500
  const PRICE_FATFINGER_MIN_SCALED: u64 := 5_000_000_000
  const PRICE_FATFINGER_MAX_SCALED: u64 := 200_000_000_000
  const MAX_SILV_SUPPLY_CEILING: u64 := 1_000_000_000_000_000
  const INSTANT_BUDGET_CEILING_USDC: u64 := 100_000_000_000_000
  const INSTANT_WINDOW_MIN_SECONDS: u32 := 60
  const INSTANT_WINDOW_MAX_SECONDS: u32 := 604_800
  const MAX_PRICE_DELTA_BPS_CEILING: u16 := 1000

  /** The config fields that only the admin changes. */
  datatype Params = Params(
    paused: bool, publicMintEnabled: bool, redemptionsEnabled: bool, mintPausedUntil: i64, premiumMintPending: bool,
    kycScopeFlags: bv8, premiumBpsMint: u16, premiumBpsRedeem: u16, minOperationUsdc: u64,
    feedId: u32, minPublishers: u16, maxStalenessSeconds: u32, maxConfidenceBps: u16, minPrice: u64, maxPrice: u64,
    breaker: BreakerParams, maxSilvSupply: u64, budgetUsdc: u64, windowSeconds: u32, feeRoutingDisabled: bool,
    inventoryWallet: Pubkey)

  /** The rails every setter enforces. They let the lower price bound be switched off, by zero. */
  predicate Configured(p: Params) {
    && p.premiumBpsMint <= PREMIUM_BPS_CEILING && p.premiumBpsRedeem <= PREMIUM_BPS_CEILING
    && (p.minPrice == 0 || PRICE_FATFINGER_MIN_SCALED <= p.minPrice < p.maxPrice)
    && 0 < p.maxPrice <= PRICE_FATFINGER_MAX_SCALED
    && p.maxSilvSupply <= MAX_SILV_SUPPLY_CEILING && p.budgetUsdc <= INSTANT_BUDGET_CEILING_USDC
    && INSTANT_WINDOW_MIN_SECONDS <= p.windowSeconds <= INSTANT_WINDOW_MAX_SECONDS
    && p.breaker.maxDeltaBps <= MAX_PRICE_DELTA_BPS_CEILING
  }

  datatype Token = Usdc | Silv

  /** What the chain records of an accepted operation: the event the program emits, or the token program's
      move between two wallets. */
  datatype Event =
    | MintEvent(user: Pubkey, amountUsdc: nat, amountSilv: nat, price: nat, feeUsdc: nat, timestamp: i64)
    | RedeemEvent(user: Pubkey, amountSilv: nat, amountUsdc: nat, price: nat, feeUsdc: nat, timestamp: i64)
    | TreasuryDeposit(amount: nat, from: Pubkey, timestamp: i64)
    | PremintEvent(inventory: Pubkey, amount: nat, supplyPost: nat, timestamp: i64)
    | Moved(token: Token, from: Pubkey, to: Pubkey, amount: nat, timestamp: i64)

  datatype State = State(
    lastUsedUs: u64, breaker: Breaker, window: Window,
    treasury: nat, feeVault: nat, supply: nat,
    usdc: map<Pubkey, nat>, silv: map<Pubkey, nat>, events: seq<Event>)

  /** One attempted operation: who, when, the amounts, the verified payload, and the optional accounts. */
  datatype Op =
    | Mint(now: i64, user: Pubkey, amountUsdc: u64, minSilvOut: u64, payload: seq<u8>,
           exemption: Option<FeeExempt>, kyc: Option<Kyc>)
    | Redeem(now: i64, user: Pubkey, amountSilv: u64, minUsdcOut: u64, payload: seq<u8>,
             exemption: Option<FeeExempt>, kyc: Option<Kyc>)
    | Deposit(now: i64, user: Pubkey, amount: u64)
    | Premint(now: i64, user: Pubkey, amount: u64)
    | Transfer(now: i64, user: Pubkey, to: Pubkey, token: Token, amount: u64)

  /** The operations that consume a print. */
  predicate Priced(op: Op) { op.Mint? || op.Redeem? }

  /** A wallet without a token account holds nothing. */
  function Balance(m: map<Pubkey, nat>, who: Pubkey): nat { if who in m then m[who] else 0 }

  function Credit(m: map<Pubkey, nat>, who: Pubkey, amount: nat): map<Pubkey, nat> { m[who := Balance(m, who) + amount] }

  function Debit(m: map<Pubkey, nat>, who: Pubkey, amount: nat): map<Pubkey, nat>
    requires Balance(m, who) >= amount
  {
    m[who := Balance(m, who) - amount]
  }

  function Move(m: map<Pubkey, nat>, from: Pubkey, to: Pubkey, amount: nat): map<Pubkey, nat>
    requires Balance(m, from) >= amount
  {
    Credit(Debit(m, from, amount), to, amount)
  }

  // ---- Reading a price ----

  function MapParseError(e: LazerWire.LazerError): Error {
    match e
    case WrongChannel => LazerWrongChannel
    case FeedNotFound => WrongOracleFeed
    case PayloadTooLarge => LazerMessageTooLarge
    case _ => LazerPayloadInvalid
  }

  function MapPolicyError(e: LazerPolicy.PolicyError): Error {
    match e
    case NonPositivePrice => NegativeOraclePrice
    case ConfidenceMissing => OracleLowConfidence
    case ConfidenceNonPositive => OracleLowConfidence
    case ConfidenceTooWide => OracleLowConfidence
    case TooFewPublishers => LazerTooFewPublishers
    case CarriedForward => LazerCarriedForward
    case NonMonotonic => LazerReplayed
    case Stale => StaleOracle
    case FutureTimestamp => StaleOracle
    case ExponentOutOfRange => OracleScalingOutOfBounds
    case Overflow => ArithmeticOverflow
    case PriceOutOfBounds => PriceOutOfBounds
  }

  function NowUs(now: i64): u64 { SatU64(Max(now, 0) * 1_000_000) }

  function PolicyOf(p: Params, now: i64): LazerPolicy.PolicyParams {
    LazerPolicy.PolicyParams(SatU64(p.maxStalenessSeconds * 1_000_000), LAZER_FUTURE_SKEW_US, p.maxConfidenceBps,
                             p.minPublishers, p.minPrice, p.maxPrice, NowUs(now))
  }

  /** The verified payload, parsed and passed through every price guard. */
  function ReadPrice(p: Params, lastUsedUs: u64, now: i64, payload: seq<u8>): Result<LazerPolicy.PriceResult, Error> {
    match LazerWire.Extract(payload, p.feedId, LAZER_CHANNEL_ID)
    case Err(e) => Err(MapParseError(e))
    case Ok(lp) =>
      match LazerPolicy.PriceFromLazer(lp, PolicyOf(p, now), lastUsedUs)
      case Err(e) => Err(MapPolicyError(e))
      case Ok(res) => Ok(res)
  }

  // ---- mint_silv ----

  function MintGate(p: Params, now: i64, user: Pubkey, amountUsdc: u64, kyc: Option<Kyc>): Result<(), Error> {
    if p.paused then Err(Paused)
    else if !p.publicMintEnabled then Err(PublicMintDisabled)
    else if now < p.mintPausedUntil || p.premiumMintPending then Err(MintPaused)
    else
      var _ :- EnforceKyc(p.kycScopeFlags, MintSide, kyc, user);
      if amountUsdc == 0 then Err(ZeroAmount)
      else if amountUsdc < p.minOperationUsdc then Err(OperationBelowMinimum)
      else Ok(())
  }

  datatype MintTerms = MintTerms(fee: u64, silvOut: u64, feeRouted: u64)

  /** The terms of a mint at a price, before any balance moves. */
  function MintQuote(p: Params, bps: u16, supply: nat, amountUsdc: u64, minSilvOut: u64, price: u128): Result<MintTerms, Error> {
    var fee :- FeeFromAmount(amountUsdc, bps);
    if fee > amountUsdc then Err(ArithmeticOverflow)
    else if amountUsdc - fee == 0 then Err(ZeroAmount)
    else
      var silvOut :- MintSilvOut(amountUsdc - fee, price);
      if silvOut == 0 then Err(ZeroAmount)
      else if silvOut < minSilvOut then Err(SlippageExceeded)
      else if supply + silvOut > U64_MAX then Err(ArithmeticOverflow)
      else if supply + silvOut > p.maxSilvSupply then Err(SupplyCapExceeded)
      else Ok(MintTerms(fee, silvOut, if p.feeRoutingDisabled then 0 else fee))
  }

  function MintStep(p: Params, s: State, op: Op): Result<State, Error>
    requires op.Mint?
  {
    var _ :- MintGate(p, op.now, op.user, op.amountUsdc, op.kyc);
    var read :- ReadPrice(p, s.lastUsedUs, op.now, op.payload);
    var _ :- CheckPriceDelta(p.breaker, s.breaker, read.price, op.now);
    MintAt(p, s, op, read.price, read.feedUpdateUs)
  }

  /** A mint once the gates are passed and the price is known. */
  function MintAt(p: Params, s: State, op: Op, price: u128, feedUpdateUs: u64): Result<State, Error>
    requires op.Mint?
  {
    var bps := EffectivePremiumBps(p.premiumBpsMint, op.exemption, op.user, MintSide, op.now);
    var terms :- MintQuote(p, bps, s.supply, op.amountUsdc, op.minSilvOut, price);
    if Balance(s.usdc, op.user) < op.amountUsdc then Err(InsufficientFunds)
    else Ok(s.(
      lastUsedUs := feedUpdateUs,
      breaker := MaybeUpdateLastPrice(p.breaker, s.breaker, price, op.amountUsdc, op.now),
      treasury := s.treasury + (op.amountUsdc - terms.feeRouted),
      feeVault := s.feeVault + terms.feeRouted,
      supply := s.supply + terms.silvOut,
      usdc := Debit(s.usdc, op.user, op.amountUsdc),
      silv := Credit(s.silv, op.user, terms.silvOut),
      events := s.events + [MintEvent(op.user, op.amountUsdc, terms.silvOut, price, terms.feeRouted, op.now)]))
  }

  // ---- redeem_silv ----

  function RedeemGate(p: Params, user: Pubkey, amountSilv: u64, kyc: Option<Kyc>): Result<(), Error> {
    if p.paused then Err(Paused)
    else if !p.redemptionsEnabled then Err(RedemptionsDisabled)
    else
      var _ :- EnforceKyc(p.kycScopeFlags, RedeemSide, kyc, user);
      if amountSilv == 0 then Err(ZeroAmount) else Ok(())
  }

  datatype RedeemTerms = RedeemTerms(gross: u64, toUser: u64, feeRouted: u64)

  function TotalOut(t: RedeemTerms): nat { t.toUser + t.feeRouted }

  /** The terms of a redemption at a price, up to and including the slippage check. */
  function RedeemQuote(p: Params, bps: u16, amountSilv: u64, minUsdcOut: u64, price: u128): Result<RedeemTerms, Error> {
    var gross :- SilvToUsdcAtOracle(amountSilv, price);
    if gross == 0 then Err(ZeroAmount)
    else if gross < p.minOperationUsdc then Err(OperationBelowMinimum)
    else
      var fee :- FeeFromAmount(gross, bps);
      if fee > gross then Err(ArithmeticOverflow)
      else if gross - fee == 0 then Err(ZeroAmount)
      else if gross - fee < minUsdcOut then Err(SlippageExceeded)
      else Ok(RedeemTerms(gross, gross - fee, if p.feeRoutingDisabled then 0 else fee))
  }

  /** The budget and solvency checks on what would leave the treasury. */
  function RedeemLimits(p: Params, effectiveUsed: nat, treasury: nat, totalOut: nat): Result<(), Error> {
    if totalOut > U64_MAX || effectiveUsed + totalOut > U64_MAX then Err(ArithmeticOverflow)
    else if effectiveUsed + totalOut > p.budgetUsdc then Err(RedeemLimitExceeded)
    else if treasury < totalOut then Err(InsufficientTreasury)
    else Ok(())
  }

  /** `roll_window` on the stored fields, whose widths a well-formed state respects. */
  function Decide(p: Params, window: Window, now: i64): WindowDecision {
    var d := Roll(p.windowSeconds, now, window);
    d.(effectiveUsed := Min(d.effectiveUsed, U64_MAX))
  }

  function RedeemStep(p: Params, s: State, op: Op): Result<State, Error>
    requires op.Redeem?
  {
    var _ :- RedeemGate(p, op.user, op.amountSilv, op.kyc);
    var read :- ReadPrice(p, s.lastUsedUs, op.now, op.payload);
    var _ :- CheckPriceDelta(p.breaker, s.breaker, read.price, op.now);
    RedeemAt(p, s, op, read.price, read.feedUpdateUs)
  }

  function RedeemAt(p: Params, s: State, op: Op, price: u128, feedUpdateUs: u64): Result<State, Error>
    requires op.Redeem?
  {
    var bps := EffectivePremiumBps(p.premiumBpsRedeem, op.exemption, op.user, RedeemSide, op.now);
    var terms :- RedeemQuote(p, bps, op.amountSilv, op.minUsdcOut, price);
    var win := Decide(p, s.window, op.now);
    var _ :- RedeemLimits(p, win.effectiveUsed, s.treasury, TotalOut(terms));
    if win.rolled.current + TotalOut(terms) > U64_MAX then Err(ArithmeticOverflow)
    else if Balance(s.silv, op.user) < op.amountSilv || s.supply < op.amountSilv then Err(InsufficientFunds)
    else Ok(s.(
      lastUsedUs := feedUpdateUs,
      breaker := MaybeUpdateLastPrice(p.breaker, s.breaker, price, terms.gross, op.now),
      window := win.rolled.(current := win.rolled.current + TotalOut(terms)),
      treasury := s.treasury - TotalOut(terms),
      feeVault := s.feeVault + terms.feeRouted,
      supply := s.supply - op.amountSilv,
      usdc := Credit(s.usdc, op.user, terms.toUser),
      silv := Debit(s.silv, op.user, op.amountSilv),
      events := s.events + [RedeemEvent(op.user, op.amountSilv, terms.toUser, price, terms.feeRouted, op.now)]))
  }

  // ---- deposit_usdc ----

  function DepositStep(s: State, op: Op): Result<State, Error>
    requires op.Deposit?
  {
    if op.amount < MIN_DEPOSIT_USDC then Err(BelowMinimum)
    else if Balance(s.usdc, op.user) < op.amount then Err(InsufficientFunds)
    else Ok(s.(
      treasury := s.treasury + op.amount,
      usdc := Debit(s.usdc, op.user, op.amount),
      events := s.events + [TreasuryDeposit(op.amount, op.user, op.now)]))
  }

  // ---- admin_premint ----

  /** The checks before the supply: `user` is the owner of the destination account. */
  function PremintGate(p: Params, user: Pubkey, amount: u64): Result<(), Error> {
    if amount == 0 then Err(ZeroAmount)
    else if p.paused then Err(Paused)
    else if p.inventoryWallet == DEFAULT_PUBKEY then Err(InventoryWalletNotSet)
    else if user != p.inventoryWallet then Err(InvalidInventoryDestination)
    else Ok(())
  }

  function PremintStep(p: Params, s: State, op: Op): Result<State, Error>
    requires op.Premint?
  {
    var _ :- PremintGate(p, op.user, op.amount);
    if s.supply + op.amount > U64_MAX then Err(ArithmeticOverflow)
    else if s.supply + op.amount > p.maxSilvSupply then Err(SupplyCapExceeded)
    else Ok(s.(
      supply := s.supply + op.amount,
      silv := Credit(s.silv, op.user, op.amount),
      events := s.events + [PremintEvent(op.user, op.amount, s.supply + op.amount, op.now)]))
  }

  // ---- Token transfers between wallets ----

  function Holdings(s: State, token: Token): map<Pubkey, nat> { if token.Usdc? then s.usdc else s.silv }

  function TransferStep(s: State, op: Op): Result<State, Error>
    requires op.Transfer?
  {
    if Balance(Holdings(s, op.token), op.user) < op.amount then Err(InsufficientFunds)
    else
      var moved := Move(Holdings(s, op.token), op.user, op.to, op.amount);
      Ok(s.(
        usdc := if op.token.Usdc? then moved else s.usdc,
        silv := if op.token.Silv? then moved else s.silv,
        events := s.events + [Moved(op.token, op.user, op.to, op.amount, op.now)]))
  }

  // ---- Steps and runs ----

  function Step(p: Params, s: State, op: Op): Result<State, Error> {
    match op
    case Mint(_, _, _, _, _, _, _) => MintStep(p, s, op)
    case Redeem(_, _, _, _, _, _, _) => RedeemStep(p, s, op)
    case Deposit(_, _, _) => DepositStep(s, op)
    case Premint(_, _, _) => PremintStep(p, s, op)
    case Transfer(_, _, _, _, _) => TransferStep(s, op)
  }

  /** The state after a run in which every operation was accepted, or the first failing check. */
  function Run(p: Params, s: State, ops: seq<Op>): Result<State, Error> {
    if ops == [] then Ok(s) else
      var mid :- Run(p, s, ops[..|ops| - 1]);
      Step(p, mid, ops[|ops| - 1])
  }

  /** Refused attempts change nothing, so what any attempts lead to is an accepted run of some of them. */
  function Attempt(p: Params, s: State, ops: seq<Op>): (State, seq<Op>) {
    if ops == [] then (s, []) else
      var (mid, done) := Attempt(p, s, ops[..|ops| - 1]);
      match Step(p, mid, ops[|ops| - 1])
      case Err(_) => (mid, done)
      case Ok(after) => (after, done + [ops[|ops| - 1]])
  }

  ghost predicate Chronological(ops: seq<Op>) {
    && (forall i | 0 <= i < |ops| :: ops[i].now > 0)
    && (forall i, j | 0 <= i < j < |ops| :: ops[i].now <= ops[j].now)
  }

  /** The clock is not behind the window stored before the run. */
  ghost predicate OnTime(s: State, ops: seq<Op>) {
    Chronological(ops) && 0 <= s.window.start && (ops != [] ==> s.window.start <= ops[0].now)
  }

  lemma {:induction false} AttemptIsARun(p: Params, s: State, ops: seq<Op>)
    ensures var (after, done) := Attempt(p, s, ops); Run(p, s, done) == Ok(after)
  {
    hide Step;
    if ops != [] {
      AttemptIsARun(p, s, ops[..|ops| - 1]);
      var (mid, done) := Attempt(p, s, ops[..|ops| - 1]);
      assert (done + [ops[|ops| - 1]])[..|done|] == done;
    }
  }

  /** The accepted operations are among the attempts, in their order. */
  lemma {:induction false} AcceptedKeepsTime(p: Params, s: State, ops: seq<Op>)
    requires Chronological(ops)
    ensures var done := Attempt(p, s, ops).1;
            Chronological(done) && forall i | 0 <= i < |done| :: ops != [] && ops[0].now <= done[i].now <= ops[|ops| - 1].now
  {
    hide Step;
    if ops != [] {
      var init := ops[..|ops| - 1];
      AcceptedKeepsTime(p, s, init);
      assert init != [] ==> init[|init| - 1].now <= ops[|ops| - 1].now;
    }
  }

  /** What initialize leaves behind, with any USDC already in the wallets. Runs may start from it, or from
      any later state: after a premint, a change of the config, or other runs. */
  predicate IsGenesis(s: State) {
    s.lastUsedUs == 0 && s.breaker == Breaker(0, 0) && s.window == GENESIS_WINDOW
    && s.supply == 0 && s.feeVault == 0 && s.silv == map[] && s.events == []
  }
}
