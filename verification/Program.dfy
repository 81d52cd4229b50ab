/** The program as it runs: handlers that write the config fields and move the tokens in order, and the
    runtime that undoes every write of a transaction that fails. */
module Program {
  import opened Wrappers
  import opened Ints
  import opened Errors
  import opened Access
  import opened PricingMath
  import opened RedeemWindow
  import opened PriceBreaker
  import opened Machine
  import LazerWire
  import LazerPolicy
  import LazerReader
  import Safety

  class DominionSilver {
    const params: Params

    // The config fields an operation writes.
    var lastUsedFeedUpdateUs: u64
    var lastRecordedPrice: u128
    var lastPriceUpdateAt: i64
    var instantWindowStart: i64
    var instantUsedUsdc: u64
    var instantUsedPrevUsdc: u64

    // The token accounts and the mint.
    var usdcTreasury: nat
    var feeVault: nat
    var silvSupply: nat
    var usdc: map<Pubkey, nat>
    var silv: map<Pubkey, nat>

    var events: seq<Event>

    /** The machine state these fields stand for. */
    function Abstract(): State
      reads this
    {
      State(lastUsedFeedUpdateUs, Breaker(lastRecordedPrice, lastPriceUpdateAt),
            Window(instantWindowStart, instantUsedUsdc, instantUsedPrevUsdc),
            usdcTreasury, feeVault, silvSupply, usdc, silv, events)
    }

    /** initialize: nothing priced, nothing spent, nothing minted. */
    constructor (params: Params, treasury: nat, wallets: map<Pubkey, nat>)
      ensures this.params == params && IsGenesis(Abstract()) && usdcTreasury == treasury && usdc == wallets
    {
      this.params := params;
      lastUsedFeedUpdateUs := 0;
      lastRecordedPrice, lastPriceUpdateAt := 0, 0;
      instantWindowStart, instantUsedUsdc, instantUsedPrevUsdc := 0, 0, 0;
      usdcTreasury, feeVault, silvSupply := treasury, 0, 0;
      usdc, silv := wallets, map[];
      events := [];
    }

    // ---- Token moves ----

    method TransferUserToTreasury(user: Pubkey, amount: nat) returns (r: Result<(), Error>)
      modifies this`usdc, this`usdcTreasury
      ensures r == if Balance(old(usdc), user) < amount then Err(InsufficientFunds) else Ok(())
      ensures r.Ok? ==> usdc == Debit(old(usdc), user, amount) && usdcTreasury == old(usdcTreasury) + amount
      ensures r.Err? ==> usdc == old(usdc) && usdcTreasury == old(usdcTreasury)
    {
      if Balance(usdc, user) < amount {
        return Err(InsufficientFunds);
      }
      usdc := Debit(usdc, user, amount);
      usdcTreasury := usdcTreasury + amount;
      r := Ok(());
    }

    method TransferUserToFeeVault(user: Pubkey, amount: nat) returns (r: Result<(), Error>)
      modifies this`usdc, this`feeVault
      ensures r == if Balance(old(usdc), user) < amount then Err(InsufficientFunds) else Ok(())
      ensures r.Ok? ==> usdc == Debit(old(usdc), user, amount) && feeVault == old(feeVault) + amount
      ensures r.Err? ==> usdc == old(usdc) && feeVault == old(feeVault)
    {
      if Balance(usdc, user) < amount {
        return Err(InsufficientFunds);
      }
      usdc := Debit(usdc, user, amount);
      feeVault := feeVault + amount;
      r := Ok(());
    }

    /** The two payout legs: the solvency check over their sum is what makes them unable to fail. */
    method TransferTreasuryToUser(user: Pubkey, amount: nat)
      requires amount <= usdcTreasury
      modifies this`usdc, this`usdcTreasury
      ensures usdc == Credit(old(usdc), user, amount) && usdcTreasury == old(usdcTreasury) - amount
    {
      usdcTreasury := usdcTreasury - amount;
      usdc := Credit(usdc, user, amount);
    }

    method TransferTreasuryToFeeVault(amount: nat)
      requires amount <= usdcTreasury
      modifies this`usdcTreasury, this`feeVault
      ensures feeVault == old(feeVault) + amount && usdcTreasury == old(usdcTreasury) - amount
    {
      usdcTreasury := usdcTreasury - amount;
      feeVault := feeVault + amount;
    }

    method SilvMintTo(user: Pubkey, amount: nat)
      modifies this`silv, this`silvSupply
      ensures silv == Credit(old(silv), user, amount) && silvSupply == old(silvSupply) + amount
    {
      silv := Credit(silv, user, amount);
      silvSupply := silvSupply + amount;
    }

    method SilvBurnFromUser(user: Pubkey, amount: nat) returns (r: Result<(), Error>)
      modifies this`silv, this`silvSupply
      ensures r == if Balance(old(silv), user) < amount || old(silvSupply) < amount then Err(InsufficientFunds) else Ok(())
      ensures r.Ok? ==> silv == Debit(old(silv), user, amount) && silvSupply == old(silvSupply) - amount
      ensures r.Err? ==> silv == old(silv) && silvSupply == old(silvSupply)
    {
      if Balance(silv, user) < amount || silvSupply < amount {
        return Err(InsufficientFunds);
      }
      silv := Debit(silv, user, amount);
      silvSupply := silvSupply - amount;
      r := Ok(());
    }

    // ---- oracle.rs ----

    method ReadSilverPriceLazer(now: i64, payload: array<u8>) returns (r: Result<LazerPolicy.PriceResult, Error>)
      ensures r == ReadPrice(params, lastUsedFeedUpdateUs, now, payload[..])
    {
      var parsed := LazerReader.ExtractFeedPrice(payload, params.feedId, LAZER_CHANNEL_ID);
      match parsed
      case Err(e) => return Err(MapParseError(e));
      case Ok(lp) =>
        match LazerPolicy.PriceFromLazer(lp, PolicyOf(params, now), lastUsedFeedUpdateUs)
        case Err(e) => return Err(MapPolicyError(e));
        case Ok(res) => return Ok(res);
    }

    function BreakerState(): Breaker
      reads this
    {
      Breaker(lastRecordedPrice, lastPriceUpdateAt)
    }

    method UpdateLastPrice(newPrice: u128, amountUsdc: u64, now: i64)
      modifies this`lastRecordedPrice, this`lastPriceUpdateAt
      ensures BreakerState() == MaybeUpdateLastPrice(params.breaker, old(BreakerState()), newPrice, amountUsdc, now)
    {
      var arming := lastRecordedPrice == 0;
      if arming || amountUsdc >= params.breaker.minAmountUsdc {
        lastRecordedPrice := newPrice;
        lastPriceUpdateAt := now;
      }
    }

    // ---- mint_silv ----

    /** The mint handler. An error may leave writes behind; Submit undoes them. */
    method MintSilv(now: i64, user: Pubkey, amountUsdc: u64, minSilvOut: u64, payload: array<u8>,
                    exemption: Option<FeeExempt>, kyc: Option<Kyc>) returns (r: Result<(), Error>)
      modifies this
      ensures match MintStep(params, old(Abstract()), Mint(now, user, amountUsdc, minSilvOut, payload[..], exemption, kyc))
              case Err(e) => r == Err(e)
              case Ok(after) => r == Ok(()) && Abstract() == after
    {
      hide ReadPrice, MintGate, CheckPriceDelta, MintAt;
      var _ :- MintGate(params, now, user, amountUsdc, kyc);
      var read :- ReadSilverPriceLazer(now, payload);
      ghost var before := Abstract();
      lastUsedFeedUpdateUs := read.feedUpdateUs;
      var _ :- CheckPriceDelta(params.breaker, BreakerState(), read.price, now);
      r := SettleMint(Mint(now, user, amountUsdc, minSilvOut, payload[..], exemption, kyc), read.price, before);
    }

    /** The mint once its price is accepted: the terms, then the money. */
    method SettleMint(op: Op, price: u128, ghost before: State) returns (r: Result<(), Error>)
      requires op.Mint? && before == Abstract().(lastUsedUs := before.lastUsedUs)
      modifies this
      ensures match MintAt(params, before, op, price, old(lastUsedFeedUpdateUs))
              case Err(e) => r == Err(e)
              case Ok(after) => r == Ok(()) && Abstract() == after
    {
      hide MintQuote, MaybeUpdateLastPrice, EffectivePremiumBps, Credit, Debit, Balance;
      var premiumBps := EffectivePremiumBps(params.premiumBpsMint, op.exemption, op.user, MintSide, op.now);
      var terms :- QuoteMint(premiumBps, op.amountUsdc, op.minSilvOut, price);
      UpdateLastPrice(price, op.amountUsdc, op.now);
      var _ :- TakePayment(op.user, op.amountUsdc, terms.feeRouted);
      SilvMintTo(op.user, terms.silvOut);
      events := events + [MintEvent(op.user, op.amountUsdc, terms.silvOut, price, terms.feeRouted, op.now)];
      r := Ok(());
    }

    /** The backing leg, then the revenue leg, which is skipped at zero. Together they take exactly what the
        user authorised; a user short of either leg is short of the sum. */
    method TakePayment(user: Pubkey, amountUsdc: nat, feeRouted: nat) returns (r: Result<(), Error>)
      requires feeRouted <= amountUsdc
      modifies this`usdc, this`usdcTreasury, this`feeVault
      ensures r == if Balance(old(usdc), user) < amountUsdc then Err(InsufficientFunds) else Ok(())
      ensures r.Ok? ==> usdc == Debit(old(usdc), user, amountUsdc)
                        && usdcTreasury == old(usdcTreasury) + (amountUsdc - feeRouted) && feeVault == old(feeVault) + feeRouted
    {
      var _ :- TransferUserToTreasury(user, amountUsdc - feeRouted);
      if feeRouted > 0 {
        var _ :- TransferUserToFeeVault(user, feeRouted);
      }
      r := Ok(());
    }

    /** The fee off the top, the spot conversion, and the checks on what would be minted. */
    method QuoteMint(premiumBps: u16, amountUsdc: u64, minSilvOut: u64, price: u128) returns (r: Result<MintTerms, Error>)
      ensures r == MintQuote(params, premiumBps, silvSupply, amountUsdc, minSilvOut, price)
      ensures r.Ok? ==> r.value.feeRouted <= amountUsdc
    {
      var feeUsdc :- FeeFromAmount(amountUsdc, premiumBps);
      hide FeeFromAmount, MintSilvOut;
      if feeUsdc > amountUsdc {
        return Err(ArithmeticOverflow);
      }
      var netUsdc := amountUsdc - feeUsdc;
      if netUsdc == 0 {
        return Err(ZeroAmount);
      }
      var silvOut :- MintSilvOut(netUsdc, price);
      if silvOut == 0 {
        return Err(ZeroAmount);
      }
      if silvOut < minSilvOut {
        return Err(SlippageExceeded);
      }
      if silvSupply + silvOut > U64_MAX {
        return Err(ArithmeticOverflow);
      }
      if silvSupply + silvOut > params.maxSilvSupply {
        return Err(SupplyCapExceeded);
      }
      r := Ok(MintTerms(feeUsdc, silvOut, if params.feeRoutingDisabled then 0 else feeUsdc));
    }

    // ---- redeem_silv ----

    /** The redeem handler, down to the slippage check. */
    method RedeemSilv(now: i64, user: Pubkey, amountSilv: u64, minUsdcOut: u64, payload: array<u8>,
                      exemption: Option<FeeExempt>, kyc: Option<Kyc>) returns (r: Result<(), Error>)
      modifies this
      ensures match RedeemStep(params, old(Abstract()), Redeem(now, user, amountSilv, minUsdcOut, payload[..], exemption, kyc))
              case Err(e) => r == Err(e)
              case Ok(after) => r == Ok(()) && Abstract() == after
    {
      hide ReadPrice, RedeemGate, CheckPriceDelta, RedeemAt;
      var _ :- RedeemGate(params, user, amountSilv, kyc);
      var read :- ReadSilverPriceLazer(now, payload);
      ghost var before := Abstract();
      lastUsedFeedUpdateUs := read.feedUpdateUs;
      var _ :- CheckPriceDelta(params.breaker, BreakerState(), read.price, now);
      r := SettleRedeem(Redeem(now, user, amountSilv, minUsdcOut, payload[..], exemption, kyc), read.price, before);
    }

    /** The redemption once its price is accepted: terms, limits and window, then the burn and the payout. */
    method SettleRedeem(op: Op, price: u128, ghost before: State) returns (r: Result<(), Error>)
      requires op.Redeem? && before == Abstract().(lastUsedUs := before.lastUsedUs)
      modifies this
      ensures match RedeemAt(params, before, op, price, old(lastUsedFeedUpdateUs))
              case Err(e) => r == Err(e)
              case Ok(after) => r == Ok(()) && Abstract() == after
    {
      hide RedeemQuote, MaybeUpdateLastPrice, EffectivePremiumBps, RedeemLimits, Decide, Credit, Debit, Balance;
      var premiumBps := EffectivePremiumBps(params.premiumBpsRedeem, op.exemption, op.user, RedeemSide, op.now);
      var terms :- QuoteRedeem(premiumBps, op.amountSilv, op.minUsdcOut, price);
      var _ :- SpendFromWindow(op.now, TotalOut(terms));
      UpdateLastPrice(price, terms.gross, op.now);
      r := BurnAndPay(op, price, terms);
    }

    /** SILV is burned before any USDC leaves. */
    method BurnAndPay(op: Op, price: u128, terms: RedeemTerms) returns (r: Result<(), Error>)
      requires op.Redeem? && TotalOut(terms) <= usdcTreasury
      modifies this`usdc, this`silv, this`silvSupply, this`usdcTreasury, this`feeVault, this`events
      ensures r == if Balance(old(silv), op.user) < op.amountSilv || old(silvSupply) < op.amountSilv then Err(InsufficientFunds) else Ok(())
      ensures r.Ok? ==>
                && usdc == Credit(old(usdc), op.user, terms.toUser) && silv == Debit(old(silv), op.user, op.amountSilv)
                && usdcTreasury == old(usdcTreasury) - TotalOut(terms) && feeVault == old(feeVault) + terms.feeRouted
                && silvSupply == old(silvSupply) - op.amountSilv
                && events == old(events) + [RedeemEvent(op.user, op.amountSilv, terms.toUser, price, terms.feeRouted, op.now)]
    {
      var _ :- SilvBurnFromUser(op.user, op.amountSilv);
      PayOut(op.user, terms.toUser, terms.feeRouted);
      events := events + [RedeemEvent(op.user, op.amountSilv, terms.toUser, price, terms.feeRouted, op.now)];
      r := Ok(());
    }

    /** The user's leg first, then the premium, skipped at zero. */
    method PayOut(user: Pubkey, toUser: nat, feeRouted: nat)
      requires toUser + feeRouted <= usdcTreasury
      modifies this`usdc, this`usdcTreasury, this`feeVault
      ensures usdc == Credit(old(usdc), user, toUser)
      ensures usdcTreasury == old(usdcTreasury) - (toUser + feeRouted) && feeVault == old(feeVault) + feeRouted
    {
      TransferTreasuryToUser(user, toUser);
      if feeRouted > 0 {
        TransferTreasuryToFeeVault(feeRouted);
      }
    }

    method QuoteRedeem(premiumBps: u16, amountSilv: u64, minUsdcOut: u64, price: u128) returns (r: Result<RedeemTerms, Error>)
      ensures r == RedeemQuote(params, premiumBps, amountSilv, minUsdcOut, price)
    {
      hide FeeFromAmount, SilvToUsdcAtOracle;
      var grossUsdc :- SilvToUsdcAtOracle(amountSilv, price);
      if grossUsdc == 0 {
        return Err(ZeroAmount);
      }
      if grossUsdc < params.minOperationUsdc {
        return Err(OperationBelowMinimum);
      }
      var feeUsdc :- FeeFromAmount(grossUsdc, premiumBps);
      if feeUsdc > grossUsdc {
        return Err(ArithmeticOverflow);
      }
      var toUserUsdc := grossUsdc - feeUsdc;
      if toUserUsdc == 0 {
        return Err(ZeroAmount);
      }
      if toUserUsdc < minUsdcOut {
        return Err(SlippageExceeded);
      }
      r := Ok(RedeemTerms(grossUsdc, toUserUsdc, if params.feeRoutingDisabled then 0 else feeUsdc));
    }

    /** The rolling budget and the solvency check; the window is committed only after both. The current
        bucket takes the outflow, never the decayed usage. */
    method SpendFromWindow(now: i64, totalOut: nat) returns (r: Result<(), Error>)
      modifies this`instantWindowStart, this`instantUsedUsdc, this`instantUsedPrevUsdc
      ensures var win := Decide(params, old(Abstract()).window, now);
              var limits := RedeemLimits(params, win.effectiveUsed, usdcTreasury, totalOut);
              && (limits.Err? ==> r == limits)
              && (limits.Ok? && win.rolled.current + totalOut > U64_MAX ==> r == Err(ArithmeticOverflow))
              && (limits.Ok? && win.rolled.current + totalOut <= U64_MAX ==>
                    r == Ok(()) && Abstract().window == win.rolled.(current := win.rolled.current + totalOut)
                    && totalOut <= usdcTreasury)
    {
      var win := RollWindow(now, instantWindowStart, params.windowSeconds, instantUsedUsdc, instantUsedPrevUsdc);
      ProgramMatchesPort(now, instantWindowStart, params.windowSeconds, instantUsedUsdc, instantUsedPrevUsdc);
      hide Roll, RollWindow;
      if totalOut > U64_MAX || win.effectiveUsed + totalOut > U64_MAX {
        return Err(ArithmeticOverflow);
      }
      if win.effectiveUsed + totalOut > params.budgetUsdc {
        return Err(RedeemLimitExceeded);
      }
      if usdcTreasury < totalOut {
        return Err(InsufficientTreasury);
      }
      if win.rolled.current + totalOut > U64_MAX {
        return Err(ArithmeticOverflow);
      }
      instantWindowStart := win.rolled.start;
      instantUsedPrevUsdc := win.rolled.prev;
      instantUsedUsdc := win.rolled.current + totalOut;
      r := Ok(());
    }

    // ---- deposit_usdc ----

    /** The deposit handler: it reports what the treasury actually received. */
    method DepositUsdc(now: i64, user: Pubkey, amount: u64) returns (r: Result<(), Error>)
      modifies this
      ensures match DepositStep(old(Abstract()), Deposit(now, user, amount))
              case Err(e) => r == Err(e)
              case Ok(after) => r == Ok(()) && Abstract() == after
    {
      if amount < MIN_DEPOSIT_USDC {
        return Err(BelowMinimum);
      }
      var pre := usdcTreasury;
      var _ :- TransferUserToTreasury(user, amount);
      var delta := Max(usdcTreasury - pre, 0);
      if delta == 0 {
        return Err(ZeroAmount);
      }
      events := events + [TreasuryDeposit(delta, user, now)];
      r := Ok(());
    }

    // ---- admin_premint ----

    /** The premint handler: SILV against the cap, into the inventory wallet, with no USDC and no price. */
    method AdminPremint(now: i64, owner: Pubkey, amount: u64) returns (r: Result<(), Error>)
      modifies this
      ensures match PremintStep(params, old(Abstract()), Premint(now, owner, amount))
              case Err(e) => r == Err(e)
              case Ok(after) => r == Ok(()) && Abstract() == after
    {
      if amount == 0 {
        return Err(ZeroAmount);
      }
      if params.paused {
        return Err(Paused);
      }
      if params.inventoryWallet == DEFAULT_PUBKEY {
        return Err(InventoryWalletNotSet);
      }
      if owner != params.inventoryWallet {
        return Err(InvalidInventoryDestination);
      }
      var supplyPost := silvSupply + amount;
      if supplyPost > U64_MAX {
        return Err(ArithmeticOverflow);
      }
      if supplyPost > params.maxSilvSupply {
        return Err(SupplyCapExceeded);
      }
      SilvMintTo(owner, amount);
      events := events + [PremintEvent(owner, amount, supplyPost, now)];
      r := Ok(());
    }

    /** The token program's transfer between two wallets. */
    method TransferTokens(now: i64, from: Pubkey, to: Pubkey, token: Token, amount: u64) returns (r: Result<(), Error>)
      modifies this`usdc, this`silv, this`events
      ensures match TransferStep(old(Abstract()), Transfer(now, from, to, token, amount))
              case Err(e) => r == Err(e) && Abstract() == old(Abstract())
              case Ok(after) => r == Ok(()) && Abstract() == after
    {
      match token {
        case Usdc =>
          if Balance(usdc, from) < amount {
            return Err(InsufficientFunds);
          }
          usdc := Debit(usdc, from, amount);
          usdc := Credit(usdc, to, amount);
        case Silv =>
          if Balance(silv, from) < amount {
            return Err(InsufficientFunds);
          }
          silv := Debit(silv, from, amount);
          silv := Credit(silv, to, amount);
      }
      events := events + [Moved(token, from, to, amount, now)];
      r := Ok(());
    }

    // ---- The runtime ----

    /** One transaction: it commits the step the machine takes, or it fails and changes nothing. */
    method Submit(op: Op) returns (r: Result<(), Error>)
      modifies this
      ensures match Step(params, old(Abstract()), op)
              case Err(e) => r == Err(e) && Abstract() == old(Abstract())
              case Ok(after) => r == Ok(()) && Abstract() == after
    {
      hide MintStep, RedeemStep, DepositStep, PremintStep, TransferStep;
      var before := Abstract();
      match op {
        case Mint(now, user, amountUsdc, minSilvOut, payload, exemption, kyc) =>
          var bytes := Bytes(payload);
          r := MintSilv(now, user, amountUsdc, minSilvOut, bytes, exemption, kyc);
        case Redeem(now, user, amountSilv, minUsdcOut, payload, exemption, kyc) =>
          var bytes := Bytes(payload);
          r := RedeemSilv(now, user, amountSilv, minUsdcOut, bytes, exemption, kyc);
        case Deposit(now, user, amount) =>
          r := DepositUsdc(now, user, amount);
        case Premint(now, user, amount) =>
          r := AdminPremint(now, user, amount);
        case Transfer(now, user, to, token, amount) =>
          r := TransferTokens(now, user, to, token, amount);
      }
      if r.Err? {
        Restore(before);
      }
    }

    method Restore(s: State)
      requires I64_MIN <= s.window.start <= I64_MAX && s.window.current <= U64_MAX && s.window.prev <= U64_MAX
      modifies this
      ensures Abstract() == s
    {
      lastUsedFeedUpdateUs := s.lastUsedUs;
      lastRecordedPrice, lastPriceUpdateAt := s.breaker.lastPrice, s.breaker.updatedAt;
      instantWindowStart, instantUsedUsdc, instantUsedPrevUsdc := s.window.start, s.window.current, s.window.prev;
      usdcTreasury, feeVault, silvSupply := s.treasury, s.feeVault, s.supply;
      usdc, silv, events := s.usdc, s.silv, s.events;
    }

    /** Any timeline of attempts leaves the state of the run of those that were accepted; and from any state
        a record can begin from, genesis or later, that state is sound. */
    method SubmitAll(ops: seq<Op>)
      modifies this
      ensures Abstract() == Attempt(params, old(Abstract()), ops).0
      ensures Safety.Ready(params, old(Abstract()), ops) ==> Safety.Sound(params, old(Abstract()), Abstract())
    {
      ghost var start := Abstract();
      if Safety.Ready(params, start, ops) {
        Safety.EveryTimelineIsSound(params, start, ops);
      }
      hide Safety.Ready, Safety.Sound;
      for i := 0 to |ops|
        invariant Abstract() == Attempt(params, old(Abstract()), ops[..i]).0
      {
        hide Step;
        assert ops[..i + 1][..i] == ops[..i];
        var _ := Submit(ops[i]);
      }
      assert ops[..|ops|] == ops;
    }
  }

  method Bytes(payload: seq<u8>) returns (bytes: array<u8>)
    ensures fresh(bytes) && bytes[..] == payload
  {
    bytes := new u8[|payload|](i requires 0 <= i < |payload| => payload[i]);
  }
}
