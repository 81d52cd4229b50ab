/** What accepted runs do to the money: every step does exactly what its event says, so the books
    reconcile, nothing is created, and at a fixed price no group of wallets can take value out. */
module Ledger {
  import opened Wrappers
  import opened Ints
  import opened Access
  import opened PricingMath
  import opened Machine
  import LazerWire
  import LazerPolicy

  // ---- The print behind an operation, as far as it does not depend on the state ----

  /** The normalised price and the feed time a payload carries for the configured feed. */
  function PrintIn(p: Params, payload: seq<u8>): Option<(nat, u64)> {
    match LazerWire.Extract(payload, p.feedId, LAZER_CHANNEL_ID)
    case Err(_) => None
    case Ok(lp) => if lp.price > 0 then Some((LazerPolicy.Normalized(lp), lp.feedUpdateUs)) else None
  }

  /** A price that was read is the one in the payload, inside the band, newer than the last one used,
      and neither stale nor too far ahead of the clock. */
  lemma ReadPriceFacts(p: Params, lastUsedUs: u64, now: i64, payload: seq<u8>)
    requires ReadPrice(p, lastUsedUs, now, payload).Ok?
    ensures var res := ReadPrice(p, lastUsedUs, now, payload).value;
            && PrintIn(p, payload) == Some((res.price, res.feedUpdateUs))
            && p.minPrice <= res.price <= p.maxPrice
            && lastUsedUs < res.feedUpdateUs
            && NowUs(now) - p.maxStalenessSeconds * 1_000_000 <= res.feedUpdateUs <= NowUs(now) + LAZER_FUTURE_SKEW_US
  {
    var lp := LazerWire.Extract(payload, p.feedId, LAZER_CHANNEL_ID).value;
    hide LazerWire.Extract;
    LazerPolicy.PolicyExactly(lp, PolicyOf(p, now), lastUsedUs);
    hide LazerPolicy.PriceFromLazer, LazerPolicy.Normalized;
  }

  /** The spot value of an amount of SILV, in price units: a unit of USDC is PRICE_SCALE_FACTOR of them. */
  function Worth(amountSilv: nat, price: nat): nat { amountSilv * price }

  lemma WorthOfSum(a: nat, b: nat, price: nat)
    ensures Worth(a + b, price) == Worth(a, price) + Worth(b, price)
    ensures Worth(0, price) == 0
  {
  }

  // ---- Steps as events ----

  /** The money and the record move exactly as the event says, and in no other way. */
  ghost predicate Applies(s: State, e: Event, after: State) {
    && after.events == s.events + [e]
    && match e
       case MintEvent(user, amountUsdc, amountSilv, _, feeUsdc, _) =>
         && feeUsdc <= amountUsdc <= Balance(s.usdc, user)
         && after.usdc == Debit(s.usdc, user, amountUsdc) && after.silv == Credit(s.silv, user, amountSilv)
         && after.treasury == s.treasury + (amountUsdc - feeUsdc) && after.feeVault == s.feeVault + feeUsdc
         && after.supply == s.supply + amountSilv
         && after.window == s.window
       case RedeemEvent(user, amountSilv, amountUsdc, _, feeUsdc, _) =>
         && amountSilv <= Balance(s.silv, user) && amountSilv <= s.supply && amountUsdc + feeUsdc <= s.treasury
         && after.usdc == Credit(s.usdc, user, amountUsdc) && after.silv == Debit(s.silv, user, amountSilv)
         && after.treasury == s.treasury - (amountUsdc + feeUsdc) && after.feeVault == s.feeVault + feeUsdc
         && after.supply == s.supply - amountSilv
       case TreasuryDeposit(amount, from, _) =>
         && amount <= Balance(s.usdc, from)
         && after.usdc == Debit(s.usdc, from, amount) && after.silv == s.silv
         && after.treasury == s.treasury + amount && after.feeVault == s.feeVault && after.supply == s.supply
         && after.window == s.window
       case PremintEvent(inventory, amount, supplyPost, _) =>
         && after.usdc == s.usdc && after.silv == Credit(s.silv, inventory, amount)
         && after.treasury == s.treasury && after.feeVault == s.feeVault
         && after.supply == supplyPost == s.supply + amount
         && after.window == s.window
       case Moved(token, from, to, amount, _) =>
         && amount <= Balance(Holdings(s, token), from)
         && after.usdc == (if token.Usdc? then Move(s.usdc, from, to, amount) else s.usdc)
         && after.silv == (if token.Silv? then Move(s.silv, from, to, amount) else s.silv)
         && after.treasury == s.treasury && after.feeVault == s.feeVault && after.supply == s.supply
         && after.window == s.window
  }

  /** What goes in is worth at least what comes out, at the price of the event. */
  ghost predicate Fair(e: Event) {
    match e
    case MintEvent(_, amountUsdc, amountSilv, price, feeUsdc, _) =>
      0 < price && 0 < amountSilv && feeUsdc < amountUsdc && Worth(amountSilv, price) <= (amountUsdc - feeUsdc) * PRICE_SCALE_FACTOR
    case RedeemEvent(_, amountSilv, amountUsdc, price, feeUsdc, _) =>
      0 < price && 0 < amountUsdc && (amountUsdc + feeUsdc) * PRICE_SCALE_FACTOR <= Worth(amountSilv, price)
    case TreasuryDeposit(amount, _, _) => amount >= MIN_DEPOSIT_USDC
    case PremintEvent(_, amount, _, _) => 0 < amount
    case Moved(_, _, _, _, _) => true
  }

  /** The exemption presented is the signer's own, covers the side (bit 0 for mint, bit 1 for redeem), and
      has a term that is not over. */
  predicate Waived(op: Op)
    requires Priced(op)
  {
    && op.exemption.Some?
    && var e := op.exemption.value;
    && e.wallet == op.user && e.flags & (if op.Mint? then 1 else 2) != 0 && e.expiresAt != 0 && op.now < e.expiresAt
  }

  /** The premium rate of the wallet: the configured one of the side, or nothing. */
  function Rate(p: Params, op: Op): (bps: u16)
    requires Priced(op)
  {
    if Waived(op) then 0 else if op.Mint? then p.premiumBpsMint else p.premiumBpsRedeem
  }

  lemma RateIsEffective(p: Params, op: Op)
    requires Priced(op)
    ensures op.Mint? ==> EffectivePremiumBps(p.premiumBpsMint, op.exemption, op.user, MintSide, op.now) == Rate(p, op)
    ensures op.Redeem? ==> EffectivePremiumBps(p.premiumBpsRedeem, op.exemption, op.user, RedeemSide, op.now) == Rate(p, op)
  {
  }

  /** The premium an operation pays: a share of the USDC paid on a mint, of the gross value on a redemption. */
  function Premium(p: Params, op: Op, price: nat): nat
    requires Priced(op)
  {
    Fee(if op.Mint? then op.amountUsdc else GrossOf(op.amountSilv, price), Rate(p, op))
  }

  function Routed(p: Params, fee: nat): nat { if p.feeRoutingDisabled then 0 else fee }

  /** What a priced operation is worth at its price: the spot conversion, floored, with exactly the premium
      taken off the top of a mint and out of the payout of a redemption. */
  ghost predicate ChargedExactly(p: Params, op: Op, e: Event)
    requires Priced(op)
  {
    if op.Mint? then
      && e.MintEvent? && e.price > 0 && Premium(p, op, e.price) < op.amountUsdc && e.amountUsdc == op.amountUsdc
      && e.amountSilv == SilvFor(op.amountUsdc - Premium(p, op, e.price), e.price)
      && e.feeUsdc == Routed(p, Premium(p, op, e.price))
    else
      && e.RedeemEvent? && e.price > 0 && e.amountSilv == op.amountSilv
      && e.amountUsdc + Premium(p, op, e.price) == GrossOf(op.amountSilv, e.price)
      && e.feeUsdc == Routed(p, Premium(p, op, e.price))
  }

  /** The operation's print, if it has one, carries this price. */
  predicate PricedAt(p: Params, op: Op, price: nat) {
    Priced(op) ==> PrintIn(p, op.payload).Some? && PrintIn(p, op.payload).value.0 == price
  }

  /** The event is the one this operation causes: every amount in it is determined, and the operation is of
      at least the minimum size, in USDC paid or in gross value. */
  ghost predicate CausedBy(p: Params, e: Event, op: Op) {
    match op
    case Mint(now, user, _, minSilvOut, _, _, _) =>
      && e.MintEvent? && e.user == user && e.timestamp == now && e.amountSilv >= minSilvOut
      && op.amountUsdc >= p.minOperationUsdc
      && PricedAt(p, op, e.price) && ChargedExactly(p, op, e)
    case Redeem(now, user, _, minUsdcOut, _, _, _) =>
      && e.RedeemEvent? && e.user == user && e.timestamp == now && e.amountUsdc >= minUsdcOut
      && GrossOf(op.amountSilv, e.price) >= p.minOperationUsdc
      && PricedAt(p, op, e.price) && ChargedExactly(p, op, e)
    case Deposit(now, user, amount) => e == TreasuryDeposit(amount, user, now)
    case Premint(now, user, amount) => e.PremintEvent? && e.inventory == user == p.inventoryWallet && e.amount == amount && e.timestamp == now
    case Transfer(now, user, to, token, amount) => e == Moved(token, user, to, amount, now)
  }

  lemma MintQuoteExact(p: Params, bps: u16, supply: nat, amountUsdc: u64, minSilvOut: u64, price: u128)
    requires MintQuote(p, bps, supply, amountUsdc, minSilvOut, price).Ok?
    ensures price > 0
    ensures var t := MintQuote(p, bps, supply, amountUsdc, minSilvOut, price).value;
            && t.fee == Fee(amountUsdc, bps) < amountUsdc
            && t.silvOut == SilvFor(amountUsdc - t.fee, price) && t.silvOut > 0 && t.silvOut >= minSilvOut
            && t.feeRouted == Routed(p, t.fee)
            && supply + t.silvOut <= p.maxSilvSupply
  {
    FeeFromAmountExact(amountUsdc, bps);
    if Fee(amountUsdc, bps) <= amountUsdc {
      MintSilvOutExact(amountUsdc - Fee(amountUsdc, bps), price);
    }
    hide Fee, SilvFor, FeeFromAmount, MintSilvOut;
  }

  lemma RedeemQuoteExact(p: Params, bps: u16, amountSilv: u64, minUsdcOut: u64, price: u128)
    requires RedeemQuote(p, bps, amountSilv, minUsdcOut, price).Ok?
    ensures price > 0 && GrossOf(amountSilv, price) >= p.minOperationUsdc
    ensures var t := RedeemQuote(p, bps, amountSilv, minUsdcOut, price).value;
            && t.gross == GrossOf(amountSilv, price)
            && t.toUser == t.gross - Fee(t.gross, bps) && t.toUser > 0 && t.toUser >= minUsdcOut
            && t.feeRouted == Routed(p, Fee(t.gross, bps))
            && TotalOut(t) <= t.gross
  {
    SilvToUsdcExact(amountSilv, price);
    var gross := GrossOf(amountSilv, price);
    assert price == 0 ==> gross == 0;
    if gross <= U64_MAX {
      FeeFromAmountExact(gross, bps);
    }
    hide Fee, GrossOf, FeeFromAmount, SilvToUsdcAtOracle;
  }

  lemma MintIsItsEvent(p: Params, s: State, op: Op, price: u128, feedUs: u64)
    requires op.Mint? && MintAt(p, s, op, price, feedUs).Ok?
    ensures var after := MintAt(p, s, op, price, feedUs).value;
            && after.events != [] && var e := after.events[|s.events|];
            && Applies(s, e, after) && Fair(e) && ChargedExactly(p, op, e) && e.user == op.user
            && e.amountSilv >= op.minSilvOut && e.timestamp == op.now && e.price == price
            && after.supply <= p.maxSilvSupply
  {
    RateIsEffective(p, op);
    hide Waived, Rate;
    var bps := EffectivePremiumBps(p.premiumBpsMint, op.exemption, op.user, MintSide, op.now);
    hide MintQuote;
    MintQuoteExact(p, bps, s.supply, op.amountUsdc, op.minSilvOut, price);
    var t := MintQuote(p, bps, s.supply, op.amountUsdc, op.minSilvOut, price).value;
    MintRedeemDust(op.amountUsdc - t.fee, price);
    hide Fee, SilvFor, GrossOf, EffectivePremiumBps;
  }

  lemma RedeemIsItsEvent(p: Params, s: State, op: Op, price: u128, feedUs: u64)
    requires op.Redeem? && RedeemAt(p, s, op, price, feedUs).Ok?
    ensures var after := RedeemAt(p, s, op, price, feedUs).value;
            && after.events != [] && var e := after.events[|s.events|];
            && Applies(s, e, after) && Fair(e) && ChargedExactly(p, op, e) && e.user == op.user
            && e.amountUsdc >= op.minUsdcOut && e.timestamp == op.now && e.price == price
            && GrossOf(op.amountSilv, price) >= p.minOperationUsdc
  {
    RateIsEffective(p, op);
    hide Waived, Rate;
    var bps := EffectivePremiumBps(p.premiumBpsRedeem, op.exemption, op.user, RedeemSide, op.now);
    hide RedeemQuote;
    RedeemQuoteExact(p, bps, op.amountSilv, op.minUsdcOut, price);
    hide Fee, EffectivePremiumBps, Decide;
  }

  /** Every accepted step is one event: it applies that event, the event is fair and exactly the one the
      operation causes, and the supply stays under the cap. This holds under every config. */
  lemma StepIsItsEvent(p: Params, s: State, op: Op)
    requires Step(p, s, op).Ok?
    ensures var after := Step(p, s, op).value;
            && |after.events| == |s.events| + 1
            && Applies(s, after.events[|s.events|], after) && Fair(after.events[|s.events|])
            && CausedBy(p, after.events[|s.events|], op)
            && (after.supply <= s.supply || after.supply <= p.maxSilvSupply)
  {
    if Priced(op) {
      ReadPriceFacts(p, s.lastUsedUs, op.now, op.payload);
      var res := ReadPrice(p, s.lastUsedUs, op.now, op.payload).value;
      hide ReadPrice, MintAt, RedeemAt, PrintIn, Premium, Routed;
      if op.Mint? {
        MintIsItsEvent(p, s, op, res.price, res.feedUpdateUs);
      } else {
        RedeemIsItsEvent(p, s, op, res.price, res.feedUpdateUs);
      }
    }
  }

  // ---- Totals over wallets ----

  /** What a set of wallets holds between them. */
  ghost function Held(m: map<Pubkey, nat>, g: set<Pubkey>): nat {
    if g == {} then 0 else
      var who :| who in g;
      Balance(m, who) + Held(m, g - {who})
  }

  ghost function TotalOf(m: map<Pubkey, nat>): nat { Held(m, m.Keys) }

  lemma {:induction false} HeldWithout(m: map<Pubkey, nat>, g: set<Pubkey>, who: Pubkey)
    requires who in g
    ensures Held(m, g) == Balance(m, who) + Held(m, g - {who})
    decreases |g|
  {
    var first :| first in g && Held(m, g) == Balance(m, first) + Held(m, g - {first});
    if first != who {
      HeldWithout(m, g - {first}, who);
      HeldWithout(m, g - {who}, first);
      assert g - {first} - {who} == g - {who} - {first};
    }
  }

  lemma {:induction false} HeldElsewhere(m: map<Pubkey, nat>, g: set<Pubkey>, who: Pubkey, amount: nat)
    requires who !in g
    ensures Held(m[who := amount], g) == Held(m, g)
    decreases |g|
  {
    if g != {} {
      var one :| one in g;
      HeldWithout(m, g, one);
      HeldWithout(m[who := amount], g, one);
      HeldElsewhere(m, g - {one}, who, amount);
    }
  }

  lemma HeldUpdate(m: map<Pubkey, nat>, g: set<Pubkey>, who: Pubkey, amount: nat)
    ensures Held(m[who := amount], g) == Held(m, g) + if who in g then amount - Balance(m, who) else 0
  {
    if who in g {
      HeldWithout(m, g, who);
      HeldWithout(m[who := amount], g, who);
      HeldElsewhere(m, g - {who}, who, amount);
    } else {
      HeldElsewhere(m, g, who, amount);
    }
  }

  lemma SumUpdate(m: map<Pubkey, nat>, who: Pubkey, amount: nat)
    ensures TotalOf(m[who := amount]) == TotalOf(m) - Balance(m, who) + amount
  {
    var after := m[who := amount];
    assert after.Keys == m.Keys + {who};
    HeldUpdate(m, m.Keys + {who}, who, amount);
    if who !in m {
      HeldWithout(m, m.Keys + {who}, who);
      assert m.Keys + {who} - {who} == m.Keys;
    } else {
      assert m.Keys + {who} == m.Keys;
    }
  }

  lemma BalanceWithinSum(m: map<Pubkey, nat>, who: Pubkey)
    ensures Balance(m, who) <= TotalOf(m)
  {
    if who in m {
      HeldWithout(m, m.Keys, who);
    }
  }

  lemma MoveKeepsSum(m: map<Pubkey, nat>, from: Pubkey, to: Pubkey, amount: nat)
    requires amount <= Balance(m, from)
    ensures TotalOf(Move(m, from, to, amount)) == TotalOf(m)
  {
    var paid := Debit(m, from, amount);
    SumUpdate(m, from, Balance(m, from) - amount);
    SumUpdate(paid, to, Balance(paid, to) + amount);
  }

  /** All the USDC there is: in wallets, in the treasury and in the fee vault. */
  ghost function TotalUsdc(s: State): nat { TotalOf(s.usdc) + s.treasury + s.feeVault }

  /** No step creates or destroys USDC, and the SILV in wallets changes exactly as the supply does. */
  lemma NothingIsCreated(s: State, e: Event, after: State)
    requires Applies(s, e, after)
    ensures TotalUsdc(after) == TotalUsdc(s)
    ensures TotalOf(after.silv) - after.supply == TotalOf(s.silv) - s.supply
  {
    hide TotalOf, Move;
    match e
    case MintEvent(user, amountUsdc, amountSilv, _, _, _) =>
      SumUpdate(s.usdc, user, Balance(s.usdc, user) - amountUsdc);
      SumUpdate(s.silv, user, Balance(s.silv, user) + amountSilv);
    case RedeemEvent(user, amountSilv, amountUsdc, _, _, _) =>
      SumUpdate(s.usdc, user, Balance(s.usdc, user) + amountUsdc);
      SumUpdate(s.silv, user, Balance(s.silv, user) - amountSilv);
    case TreasuryDeposit(amount, from, _) =>
      SumUpdate(s.usdc, from, Balance(s.usdc, from) - amount);
    case PremintEvent(inventory, amount, _, _) =>
      SumUpdate(s.silv, inventory, Balance(s.silv, inventory) + amount);
    case Moved(token, from, to, amount, _) =>
      MoveKeepsSum(Holdings(s, token), from, to, amount);
  }

  // ---- The books, recomputed from the events ----

  datatype Books = Books(minted: nat, preminted: nat, burned: nat, fees: nat, inflow: nat, outflow: nat)

  function Post(b: Books, e: Event): Books {
    match e
    case MintEvent(_, amountUsdc, amountSilv, _, feeUsdc, _) =>
      b.(minted := b.minted + amountSilv, fees := b.fees + feeUsdc, inflow := b.inflow + Max(0, amountUsdc - feeUsdc))
    case RedeemEvent(_, amountSilv, amountUsdc, _, feeUsdc, _) =>
      b.(burned := b.burned + amountSilv, fees := b.fees + feeUsdc, outflow := b.outflow + amountUsdc + feeUsdc)
    case TreasuryDeposit(amount, _, _) => b.(inflow := b.inflow + amount)
    case PremintEvent(_, amount, _, _) => b.(preminted := b.preminted + amount)
    case Moved(_, _, _, _, _) => b
  }

  function BooksOf(events: seq<Event>): Books {
    if events == [] then Books(0, 0, 0, 0, 0, 0) else Post(BooksOf(events[..|events| - 1]), events[|events| - 1])
  }

  /** Where a record can begin: nothing in it yet, every unit of SILV in some wallet, and the supply under
      the cap, which the cap's setter enforces. Supply, vault and treasury may hold anything. */
  ghost predicate Opening(p: Params, s: State) {
    s.events == [] && TotalOf(s.silv) == s.supply <= p.maxSilvSupply
  }

  /** The reconciliation the audit script performs against the chain, and the conservation behind it. */
  ghost predicate Reconciled(p: Params, start: State, s: State) {
    var books := BooksOf(s.events);
    && s.supply + books.burned == start.supply + books.minted + books.preminted
    && s.supply <= p.maxSilvSupply && TotalOf(s.silv) == s.supply
    && s.feeVault == start.feeVault + books.fees
    && s.treasury + books.outflow == start.treasury + books.inflow
    && TotalUsdc(s) == TotalUsdc(start)
  }

  lemma StepReconciles(p: Params, start: State, s: State, e: Event, after: State)
    requires Reconciled(p, start, s) && Applies(s, e, after)
    requires after.supply <= s.supply || after.supply <= p.maxSilvSupply
    ensures Reconciled(p, start, after)
  {
    NothingIsCreated(s, e, after);
    assert after.events[..|s.events|] == s.events;
    hide TotalOf, Move, Credit, Debit, Balance;
  }

  /** From any opening state, any accepted run leaves books that reconcile with every balance. */
  lemma {:induction false} LedgerReconciles(p: Params, start: State, ops: seq<Op>)
    requires Opening(p, start) && Run(p, start, ops).Ok?
    ensures Reconciled(p, start, Run(p, start, ops).value)
    ensures |Run(p, start, ops).value.events| == |ops|
  {
    if ops != [] {
      var init, op := ops[..|ops| - 1], ops[|ops| - 1];
      LedgerReconciles(p, start, init);
      var s := Run(p, start, init).value;
      StepIsItsEvent(p, s, op);
      var after := Step(p, s, op).value;
      StepReconciles(p, start, s, after.events[|s.events|], after);
      hide Step, Fair, CausedBy, Applies, Reconciled;
    }
  }

  // ---- Value at a fixed price ----

  /** What the treasury holds beyond the spot value of all SILV, in price units. */
  function Backing(s: State, price: nat): int { s.treasury * PRICE_SCALE_FACTOR - Worth(s.supply, price) }

  /** What a group of wallets holds, in price units. */
  ghost function Wealth(s: State, g: set<Pubkey>, price: nat): nat {
    Held(s.usdc, g) * PRICE_SCALE_FACTOR + Worth(Held(s.silv, g), price)
  }

  function ValueOf(token: Token, amount: nat, price: nat): nat {
    if token.Usdc? then amount * PRICE_SCALE_FACTOR else Worth(amount, price)
  }

  /** What an operation brings into a group other than by trade, less what it takes out: a premint to one of
      its wallets, or a transfer across its border. */
  function Inflow(op: Op, g: set<Pubkey>, price: nat): int {
    match op
    case Premint(_, user, amount) => if user in g then Worth(amount, price) else 0
    case Transfer(_, user, to, token, amount) =>
      (if to in g then ValueOf(token, amount, price) else 0) - (if user in g then ValueOf(token, amount, price) else 0)
    case _ => 0
  }

  function TotalInflow(ops: seq<Op>, g: set<Pubkey>, price: nat): int {
    if ops == [] then 0 else TotalInflow(ops[..|ops| - 1], g, price) + Inflow(ops[|ops| - 1], g, price)
  }

  /** The SILV issued without backing. */
  function Preminted(ops: seq<Op>): nat {
    if ops == [] then 0 else
      Preminted(ops[..|ops| - 1]) + if ops[|ops| - 1].Premint? then ops[|ops| - 1].amount else 0
  }

  lemma StepKeepsBacking(p: Params, s: State, op: Op, e: Event, after: State, price: nat)
    requires Applies(s, e, after) && Fair(e) && CausedBy(p, e, op) && PricedAt(p, op, price)
    ensures Backing(after, price) + (if op.Premint? then Worth(op.amount, price) else 0) >= Backing(s, price)
  {
    hide PrintIn, Premium, Held, Move, Credit, Debit;
    if e.MintEvent? {
      WorthOfSum(s.supply, e.amountSilv, price);
    } else if e.RedeemEvent? {
      WorthOfSum(after.supply, e.amountSilv, price);
    } else if e.PremintEvent? {
      WorthOfSum(s.supply, e.amount, price);
    }
    hide Worth;
  }

  /** One trade, deposit or premint: only its own wallet's holdings change. */
  lemma TradeEnrichesNoGroup(p: Params, s: State, op: Op, e: Event, after: State, price: nat, g: set<Pubkey>)
    requires Applies(s, e, after) && Fair(e) && CausedBy(p, e, op) && PricedAt(p, op, price) && !op.Transfer?
    ensures Wealth(after, g, price) <= Wealth(s, g, price) + Inflow(op, g, price)
  {
    hide PrintIn, Premium, Held;
    HeldUpdate(s.usdc, g, op.user, Balance(after.usdc, op.user));
    HeldUpdate(s.silv, g, op.user, Balance(after.silv, op.user));
    if e.MintEvent? {
      WorthOfSum(Held(s.silv, g), e.amountSilv, price);
    } else if e.RedeemEvent? && op.user in g {
      WorthOfSum(Held(after.silv, g), e.amountSilv, price);
    } else if e.PremintEvent? {
      WorthOfSum(Held(s.silv, g), e.amount, price);
    }
    hide Worth;
  }

  lemma MoveIsInflow(m: map<Pubkey, nat>, from: Pubkey, to: Pubkey, amount: nat, g: set<Pubkey>)
    requires amount <= Balance(m, from)
    ensures Held(Move(m, from, to, amount), g) ==
            Held(m, g) + (if to in g then amount else 0) - (if from in g then amount else 0)
  {
    var paid := Debit(m, from, amount);
    HeldUpdate(m, g, from, Balance(m, from) - amount);
    HeldUpdate(paid, g, to, Balance(paid, to) + amount);
  }

  lemma TransferIsInflow(p: Params, s: State, op: Op, e: Event, after: State, price: nat, g: set<Pubkey>)
    requires Applies(s, e, after) && CausedBy(p, e, op) && op.Transfer?
    ensures Wealth(after, g, price) == Wealth(s, g, price) + Inflow(op, g, price)
  {
    hide Held, Move;
    MoveIsInflow(Holdings(s, op.token), op.user, op.to, op.amount, g);
    if op.token.Silv? {
      var before, now: nat := Held(s.silv, g), Held(after.silv, g);
      if before < now {
        WorthOfSum(before, op.amount, price);
      } else if now < before {
        WorthOfSum(now, op.amount, price);
      }
    }
    hide Worth;
  }

  /** At one price, over any interleaving of mints, redemptions, deposits, premints and transfers by any
      wallets, exempt or not: the treasury's backing falls by no more than the premints, and no group of
      wallets gains more than what was sent or issued to it from outside, less what it sent out. */
  lemma {:induction false} NobodyExtractsValue(p: Params, start: State, ops: seq<Op>, price: nat, g: set<Pubkey>)
    requires Run(p, start, ops).Ok? && forall i | 0 <= i < |ops| :: PricedAt(p, ops[i], price)
    ensures var end := Run(p, start, ops).value;
            && Backing(end, price) + Worth(Preminted(ops), price) >= Backing(start, price)
            && Wealth(end, g, price) <= Wealth(start, g, price) + TotalInflow(ops, g, price)
  {
    hide Step, CausedBy, Applies, Fair, PricedAt, Backing, Wealth, Inflow;
    if ops == [] {
      WorthOfSum(0, 0, price);
    } else {
      var init, op := ops[..|ops| - 1], ops[|ops| - 1];
      assert forall i | 0 <= i < |init| :: init[i] == ops[i];
      NobodyExtractsValue(p, start, init, price, g);
      var s := Run(p, start, init).value;
      StepIsItsEvent(p, s, op);
      var after := Step(p, s, op).value;
      var e := after.events[|s.events|];
      StepKeepsBacking(p, s, op, e, after, price);
      if op.Transfer? {
        TransferIsInflow(p, s, op, e, after, price, g);
      } else {
        TradeEnrichesNoGroup(p, s, op, e, after, price, g);
        if op.Premint? {
          WorthOfSum(Preminted(init), op.amount, price);
        }
      }
      hide Worth;
    }
  }

  /** Something reaches the group from outside other than by trade. */
  predicate BringsIn(op: Op, g: set<Pubkey>) {
    match op
    case Premint(_, user, _) => user in g
    case Transfer(_, user, to, _, _) => to in g && user !in g
    case _ => false
  }

  lemma {:induction false} NothingBroughtIn(ops: seq<Op>, g: set<Pubkey>, price: nat)
    requires forall i | 0 <= i < |ops| :: !BringsIn(ops[i], g)
    ensures TotalInflow(ops, g, price) <= 0
  {
    if ops != [] {
      NothingBroughtIn(ops[..|ops| - 1], g, price);
      hide Worth;
      assert Inflow(ops[|ops| - 1], g, price) <= 0;
    }
  }

  /** So a group that nothing is sent to from outside, however its wallets pass tokens among themselves,
      never gains; and one that started without SILV never holds more USDC than it brought. */
  lemma NoGroupProfits(p: Params, start: State, ops: seq<Op>, price: nat, g: set<Pubkey>)
    requires Run(p, start, ops).Ok? && forall i | 0 <= i < |ops| :: PricedAt(p, ops[i], price) && !BringsIn(ops[i], g)
    ensures var end := Run(p, start, ops).value;
            && Wealth(end, g, price) <= Wealth(start, g, price)
            && (Held(start.silv, g) == 0 ==> Held(end.usdc, g) <= Held(start.usdc, g))
  {
    hide Run, PricedAt, BringsIn;
    NobodyExtractsValue(p, start, ops, price, g);
    NothingBroughtIn(ops, g, price);
    WorthOfSum(0, 0, price);
    hide Worth;
  }

  /** Minting and then redeeming exactly what was minted, at one price, with routing on or off: treasury and
      vault together keep the two premiums and 0 to ceil(price / 1e9) units of rounding dust, never a loss,
      and that is what the caller pays. With routing on the vault has exactly the premiums, so the treasury
      keeps only the dust. */
  lemma RoundTripLeavesDust(p: Params, s: State, mint: Op, mid: State, redeem: Op, end: State, price: nat)
    requires mint.Mint? && redeem.Redeem? && mint.user == redeem.user
    requires Step(p, s, mint) == Ok(mid) && Step(p, mid, redeem) == Ok(end)
    requires PricedAt(p, mint, price) && PricedAt(p, redeem, price)
    requires redeem.amountSilv == mid.supply - s.supply
    ensures var premiums := Premium(p, mint, price) + Premium(p, redeem, price);
            var kept := (end.treasury + end.feeVault) - (s.treasury + s.feeVault);
            && 0 <= kept - premiums <= (price + PRICE_SCALE_FACTOR - 1) / PRICE_SCALE_FACTOR
            && end.supply == s.supply
            && Balance(s.usdc, mint.user) - Balance(end.usdc, mint.user) == kept
            && end.feeVault - s.feeVault == Routed(p, premiums)
  {
    StepIsItsEvent(p, s, mint);
    StepIsItsEvent(p, mid, redeem);
    var m, r := mid.events[|s.events|], end.events[|mid.events|];
    hide Step, PrintIn, ChargedExactly;
    RoundTripOfEvents(p, s, mint, m, mid, redeem, r, end);
  }

  lemma RoundTripOfEvents(p: Params, s: State, mint: Op, m: Event, mid: State, redeem: Op, r: Event, end: State)
    requires mint.Mint? && redeem.Redeem? && ChargedExactly(p, mint, m) && ChargedExactly(p, redeem, r)
    requires m.user == r.user && m.price == r.price && m.amountSilv == r.amountSilv
    requires Applies(s, m, mid) && Applies(mid, r, end)
    ensures var premiums := Premium(p, mint, m.price) + Premium(p, redeem, m.price);
            var kept := (end.treasury + end.feeVault) - (s.treasury + s.feeVault);
            && 0 <= kept - premiums <= (m.price + PRICE_SCALE_FACTOR - 1) / PRICE_SCALE_FACTOR
            && end.supply == s.supply
            && Balance(s.usdc, m.user) - Balance(end.usdc, m.user) == kept
            && end.feeVault - s.feeVault == Routed(p, premiums)
  {
    hide Premium;
    MintRedeemDust(mint.amountUsdc - Premium(p, mint, m.price), m.price);
    hide SilvFor, GrossOf;
  }
}
