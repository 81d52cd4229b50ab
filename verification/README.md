# Dominion Silver: a verified model of the priced operations

Dominion Silver sells and redeems SILV, a token worth one ounce of silver, against USDC. One config
account and the token balances are changed by `mint_silv` (USDC in, SILV out), `redeem_silv` (SILV in,
USDC out), `deposit_usdc`, `admin_premint` (SILV against the cap) and plain transfers between wallets.
The first two read a signed Pyth Lazer print, pass it through a list of guards, split off a fee, and move
money under a supply cap or a rolling redemption budget. This project models that machine, the code it
depends on, and the client code that claims to predict it, and proves what they promise.

| module | what it holds |
|---|---|
| `PricingMath` | the ceiled fee, the two spot conversions at their integer widths, and splitting |
| `RedeemWindow` | the two-bucket sliding counter, its decay, and the bound on outflow over any run |
| `LazerWire`, `LazerGrammar`, `LazerReader` | the payload format and printer, what the extractor accepts, and the cursor and loops themselves |
| `LazerPolicy`, `PriceBreaker`, `Access` | the print guards, the price-delta breaker, the per-wallet gates |
| `Machine` | the state, each accepted step on it, and runs |
| `Refusals` | when each operation is accepted and with which error it is refused, in the fields of config, print and wallet |
| `Ledger`, `Safety`, `FeeRouting` | theorems over runs: money, limits, freshness, overflow, the routing switch |
| `Program` | the handlers writing fields in order, and the transaction that undoes a failed one |
| `RedeemClient` | the public predictor and the admin counter, proved against the program |
| `Scenarios` | concrete inputs, from the payload bytes on, for what holds one way only |
| `GuardianRegistry` | guardian appointment and deferred removal, with its counters |
| `LazerAssembly` | the ed25519 instruction and what its offsets select |

How it fits together: `Program.DominionSilver` is a class whose handlers change one field after another, as
the Rust handlers do; each is proved to end in the state `Machine.Step` gives, and `Submit` restores every
field when a handler fails, as the runtime does. The theorems of `Ledger`, `Safety` and `FeeRouting` are about
runs of `Machine.Step`, so they hold of every sequence of transactions; `SubmitAll` states the combined one on
the class itself. Runs start anywhere: after a premint, after a change of the config, with any treasury, vault,
supply and stored window, so a history in which the admin changes parameters is a chain of such runs. The events
of the state are those the program emits and the transfers between wallets, and the books are recomputed from
them alone. Acceptance is pinned from outside the machine as well: `Refusals.StepExactly` lists
every check of every operation in order, with its error, over unbounded numbers and without the machine's own
gates, policy parameters or quotes, and `ExtractExactly` says what a payload must contain by membership in the
target's properties. In the same way `LazerReader.ExtractFeedPrice`, `RedeemWindow.Simulate`,
`GuardianRegistry.GuardianProgram` and the buffer writes of `LazerAssembly` are imperative and tied to functions
whose properties are proved.

Assumptions, stated once:

- The clock is positive and does not go backwards over a run, nor behind the window stored before it, except
  where a statement says otherwise (`UsageOnlyDecays`, `CountersAgree` and `ProgramMatchesPort` hold for every
  clock). In the guardian registry it also stays 2^32 seconds short of the end of i64.
- The admin's parameters are constant over a run. Most results hold under every config; the ones about
  overflow need the rails that the setters enforce (`Machine.Configured`): premiums at most 500 bps, an upper
  price bound of at most $200, a lower one that is off or at least $5, a window of 60 seconds to 7 days, a budget
  of at most $100M, at most 1e9 ounces, a breaker of at most 1000 bps.
- Wallets may send each other USDC and SILV at any time. Who authorises a transfer is left open, so a seizure
  by the SILV mint's permanent delegate is one of them.
- Token transfers, mints and burns are exact balance moves that fail on insufficient funds. The total amount of
  USDC fits a u64, as the mint itself guarantees, so no destination balance overflows.
- The payload is the one the Lazer program verified and returned.
- The optional exemption account is found at an address derived from the wallet, so it is the wallet's own.

Where the code and its documentation differ, the code is followed:

- The header of `state/redeem_window.rs` and `adversarialBound` give 2x the budget as the worst case. The exact
  maximum over any closed interval of one window is `2B - floor(B/W)` (`OutflowBound`, met by
  `OutflowBoundIsTight`), which is below 2B whenever the budget is at least the window's number of seconds.
- Rolling the window twice is the same as rolling it once only in the states a positive clock reaches: usage
  stored under the zero start would be counted afresh at every roll. `RollingComposesIffAnchored` gives the exact
  condition, and `initialize` satisfies it.
- The routing switch is neutral in one direction only. A run accepted with routing on is accepted with it off;
  the converse needs the budget and the treasury to cover the premium as well. `StepsTrack` and
  `RoutingIsNeutral` state that as an equivalence, for a step and for a run, and `RoutingOffAcceptsMore` is a
  redemption on which the two differ.
- A mint can end in `ArithmeticOverflow`, but only while the lower price bound is switched off, which the setter
  allows: `MintOverflowsIff` gives the exact condition and `CheapMintOverflows` an input.
- A wallet that is sent SILV can redeem it, so no statement about one wallet's gain survives transfers.
  `NoGroupProfits` is about groups that receive nothing from outside, and `NobodyExtractsValue` accounts for what
  they do receive.
- `oracle.rs` calls the feed-time mark non-decreasing; the comparison in `lazer_price.rs` makes it strictly
  increasing, and that is what is proved.
- When the usage and the outflow leave the range of u64, the program answers `ArithmeticOverflow` where the
  public app predicts "limit". `AppPredictsProgram` covers both answers; `LimitIsTheBudgetCheck` shows that only
  the budget check remains in every state with usage inside the budget.
- The header of the public `anchor-client.ts` prices a mint at spot times (1 + premium); the program takes the fee off
  the top, as `mint_silv.rs` says.

## Model

| member | source | states |
|---|---|---|
| PricingMath.FeeFromAmountExact | programs/dominion_silver_mint_v2/src/math.rs:47-60 | no u128 intermediate can overflow; the fee is the ceiled share, an error exactly when it is not a u64, and never above the amount up to 10000 bps |
| PricingMath.FeeIsCeiling | programs/dominion_silver_mint_v2/src/math.rs:41-46 | the fee is the least whole amount worth at least the share: rounding goes to the protocol and exact multiples are not pushed up |
| PricingMath.MintSilvOutExact | programs/dominion_silver_mint_v2/src/math.rs:64-73 | at every u128 price, the failures are a zero price and SILV that is not a u64; from $1 an ounce up no u64 amount overflows |
| PricingMath.SilvToUsdcExact | programs/dominion_silver_mint_v2/src/math.rs:102-110 | at every u128 price the gross value is an error exactly when it is not a u64 |
| PricingMath.SpotIsFloor | programs/dominion_silver_mint_v2/src/math.rs:64-110 | the spot conversions give the most SILV the money pays for and the most USDC the SILV is worth |
| PricingMath.SplittingNeverSavesFees | programs/dominion_silver_mint_v2/src/math.rs:41-60 | over any division into n operations the fees total at least the single fee and at most n-1 units more |
| PricingMath.SplittingNeverMintsMore | programs/dominion_silver_mint_v2/src/math.rs:47-73 | the SILV minted in parts never exceeds that of one mint |
| PricingMath.SplittingNeverRedeemsMore | programs/dominion_silver_mint_v2/src/math.rs:47-110 | the net USDC redeemed in parts never exceeds that of one redemption |
| PricingMath.MintRedeemDust | programs/dominion_silver_mint_v2/src/math.rs:204-240 | SILV bought is worth at most what was paid, and short of it by at most ceil(price / 1e9) units |
| RedeemWindow.ProgramMatchesPort | programs/dominion_silver_mint_v2/src/state/redeem_window.rs:29-79 | the Rust rule and the TypeScript port agree on every input of every width, except that the Rust sum saturates at u64 |
| RedeemWindow.UsageOnlyDecays | scripts/_redeem-window.ts:42-79 | without redemptions usage never rises: inside a bucket, across both boundaries, and for a clock behind the start |
| RedeemWindow.RollingComposesIffAnchored | scripts/_redeem-window.ts:46-69 | rolling twice equals rolling once at every later time, if and only if no usage is stored under the zero start |
| RedeemWindow.CommitAddsExactlyAndExpires | programs/dominion_silver_mint_v2/src/instructions/redeem_silv.rs:276-284 | a commit raises the usage by exactly the outflow, and two idle windows restore the whole budget: the limiter cannot ratchet shut |
| RedeemWindow.TwoBuckets | scripts/_redeem-window.ts:71-79 | while any share of the earlier bucket counts, two adjacent buckets together stay under the bound |
| RedeemWindow.SpendKeepsInv | programs/dominion_silver_mint_v2/src/instructions/redeem_silv.rs:237-284 | each accepted redemption keeps the bucket accounting and the outflow bound over every interval, even after the budget was lowered under what is stored |
| RedeemWindow.OutflowBound | scripts/_redeem-window.ts:82-90 | in every accepted run, from any window stored before it, at most 2B - floor(B/W) leaves in any closed interval of W seconds |
| RedeemWindow.OutflowBoundIsTight | programs/dominion_silver_mint_v2/src/state/redeem_window.rs:217-258 | for every budget and window some accepted run of positive redemptions meets that bound exactly |
| RedeemWindow.UsageIsSpent | scripts/_redeem-window.ts:71-79 | usage is never more than what left in the last two windows plus what was stored before the run |
| RedeemWindow.NeverRefusesWhatFits | programs/dominion_silver_mint_v2/src/instructions/redeem_silv.rs:237-262 | an amount that fits the budget beside what left in the last two windows, and what was stored, is let out |
| RedeemWindow.Simulate | scripts/test-redeem-window.ts:76-91 | the replay loop lets out exactly the total of the accepted attempts |
| RedeemWindow.FittingAttemptsAreAccepted | scripts/test-redeem-window.ts:76-91 | the loop lets through every attempt that fits beside what it let out in the last two windows |
| RedeemWindow.EveryTimelineIsBounded | scripts/test-redeem-window.ts:76-91 | what the loop accepts from any timeline of attempts stays under the bound in every window length |
| LazerWire.FromLeToLe | programs/dominion_silver_mint_v2/src/lazer.rs:129-152 | printing a value in n little-endian bytes and reading it returns the value |
| LazerWire.ToLeFromLe | programs/dominion_silver_mint_v2/src/lazer.rs:129-152 | reading bytes and printing the value returns the bytes |
| LazerWire.ThirteenTags | programs/dominion_silver_mint_v2/src/lazer.rs:171-232 | which of the thirteen tags have eight bytes, two bytes or a flag, by number, and the length of each property |
| LazerGrammar.PropsSound | programs/dominion_silver_mint_v2/src/lazer.rs:266-276 | whatever properties are read are well formed, have distinct tags, and print back to the bytes read |
| LazerGrammar.PropsComplete | programs/dominion_silver_mint_v2/src/lazer.rs:266-276 | printed well-formed properties with distinct tags are read back as they were |
| LazerGrammar.FeedsSound | programs/dominion_silver_mint_v2/src/lazer.rs:259-284 | the feeds read are good, hold the target at most once, and print back to the bytes read |
| LazerGrammar.FeedsComplete | programs/dominion_silver_mint_v2/src/lazer.rs:259-284 | printed good feeds are read back as they were |
| LazerGrammar.ExtractPrinted | programs/dominion_silver_mint_v2/src/lazer.rs:363-421 | extracting from a printed good payload returns what is under the target's tags, or the first required field that is missing |
| LazerGrammar.ExtractSound | programs/dominion_silver_mint_v2/src/lazer.rs:238-318 | bytes decoded to the end, whatever the answer, are the printing of a good payload |
| LazerGrammar.ExtractExactly | programs/dominion_silver_mint_v2/src/lazer.rs:234-318 | the extractor answers Ok(lp) if and only if the bytes print a good payload whose one target feed holds lp's five fields among its properties, with a set flag on the update time |
| LazerGrammar.ExtractByMembership | programs/dominion_silver_mint_v2/src/lazer.rs:292-318 | on a good payload: FeedNotFound exactly without a target, otherwise the first of the five fields, in order, that is not among the target's properties, otherwise those fields |
| LazerGrammar.FeedPriceExactly | programs/dominion_silver_mint_v2/src/lazer.rs:294-318 | one feed's answer, by membership in its properties, error for error |
| LazerGrammar.RefusalsExactly | programs/dominion_silver_mint_v2/src/lazer.rs:238-292 | too large, bad magic and wrong channel by their bytes; every other refusal before the fields means that no good payload was printed |
| LazerGrammar.PrefixFree | programs/dominion_silver_mint_v2/src/lazer.rs:286-290 | no good payload's bytes begin another's, and equal bytes mean equal payloads |
| LazerGrammar.AcceptedIsPrefixFree | programs/dominion_silver_mint_v2/src/lazer.rs:751-764 | every proper truncation and every proper extension of accepted bytes is refused |
| LazerGrammar.ExtractIgnoresOrder | programs/dominion_silver_mint_v2/src/lazer.rs:257-292 | the result does not depend on the order of properties, the order of feeds, or which other feeds came along |
| LazerGrammar.SubscribedRoundTrip | programs/dominion_silver_mint_v2/src/lazer.rs:423-447 | the five subscribed properties come back field for field for every signed value, zero meaning none |
| LazerReader.Reader.Take | programs/dominion_silver_mint_v2/src/lazer.rs:115-123 | the next n bytes and an advanced cursor, or end of input and an unmoved one |
| LazerReader.Reader.ReadUint | programs/dominion_silver_mint_v2/src/lazer.rs:125-152 | the little-endian value of the next n bytes |
| LazerReader.ConsumeProperty | programs/dominion_silver_mint_v2/src/lazer.rs:171-232 | one property's value is consumed as its tag requires and captured for the target only |
| LazerReader.MaskAdd | programs/dominion_silver_mint_v2/src/lazer.rs:268-274 | the 16-bit mask is the set of tags seen |
| LazerReader.CaptureAllHolds | programs/dominion_silver_mint_v2/src/lazer.rs:159-168 | the accumulator holds the value under each captured tag |
| LazerReader.ScanProps | programs/dominion_silver_mint_v2/src/lazer.rs:266-276 | the property loop computes the decoder's answer, with its errors |
| LazerReader.ScanFeed | programs/dominion_silver_mint_v2/src/lazer.rs:260-276 | one feed's id, count and properties, as the decoder reads them |
| LazerReader.ScanFeeds | programs/dominion_silver_mint_v2/src/lazer.rs:259-284 | the feed loop computes the decoder's answer and keeps only the target |
| LazerReader.ExtractFeedPrice | programs/dominion_silver_mint_v2/src/lazer.rs:238-318 | the extractor computes the decoder's answer on every byte array, error for error |
| LazerPolicy.PolicyExactly | programs/dominion_silver_mint_v2/src/lazer_price.rs:83-171 | a print is accepted if and only if it is confident, backed, fresh, newer than the last, scalable and in band; the price is its normalisation |
| LazerPolicy.NoOverflow | programs/dominion_silver_mint_v2/src/lazer_price.rs:92-160 | no price, confidence, exponent or bps of its type can make the policy overflow |
| PriceBreaker.OneStep | programs/dominion_silver_mint_v2/src/oracle.rs:96-119 | an accepted price is within the allowed share of the reference, on both sides |
| PriceBreaker.CheckPriceDeltaExactly | programs/dominion_silver_mint_v2/src/oracle.rs:96-119 | the check refuses exactly a price outside the allowed share of an armed reference that has not decayed, on either side, or a product out of u128 |
| PriceBreaker.ReferenceIsLastRecorded | programs/dominion_silver_mint_v2/src/oracle.rs:121-138 | over any run the reference is the price and the time of the last print large enough to record, or of the one that armed it |
| PriceBreaker.BreakerCompounds | programs/dominion_silver_mint_v2/src/oracle.rs:96-138 | after n recorded prices, each inside the decay period of the one before, the reference moved by at most the n-fold compounding, on both sides, whatever dust came in between |
| PriceBreaker.DustNeverMoves | programs/dominion_silver_mint_v2/src/oracle.rs:121-138 | no number of dust operations moves an armed reference or its time |
| Machine.AttemptIsARun | programs/dominion_silver_mint_v2/src/instructions/redeem_silv.rs:276-277 | refused operations change nothing: any timeline leads where its accepted operations lead |
| Ledger.ReadPriceFacts | programs/dominion_silver_mint_v2/src/oracle.rs:22-55 | a price that was read is the payload's, in the band, newer than the last one, neither stale nor early |
| Refusals.ReadPriceExactly | programs/dominion_silver_mint_v2/src/oracle.rs:22-93 | a price is read if and only if the payload holds a print that is confident by the config's limit, backed by its publisher minimum and two, fresh, new, in range and in the band; otherwise the first failing check names the error |
| Ledger.MintIsItsEvent | programs/dominion_silver_mint_v2/src/instructions/mint_silv.rs:215-313 | a mint moves exactly what its event says, mints the floored spot value of the amount less exactly the premium, and respects the floor and the cap |
| Ledger.RedeemIsItsEvent | programs/dominion_silver_mint_v2/src/instructions/redeem_silv.rs:178-340 | a redemption moves exactly what its event says, pays the floored spot value less exactly the premium, and respects the floor |
| Refusals.MintQuoteExactly | programs/dominion_silver_mint_v2/src/instructions/mint_silv.rs:228-248 | the terms of a mint stand exactly when fee, SILV, floor, supply and cap do, with the error of each |
| Refusals.RedeemQuoteExactly | programs/dominion_silver_mint_v2/src/instructions/redeem_silv.rs:178-235 | the terms of a redemption stand if and only if the gross is a positive u64 of at least the minimum size, the fee is below it and the net meets the floor, with the error of each |
| Refusals.AcceptedMintPassedItsGates | programs/dominion_silver_mint_v2/src/instructions/mint_silv.rs:127-177 | every accepted mint was unpaused, open, outside both mint pauses, attested if its bit is in scope, of at least the minimum size, and on a good print |
| Refusals.AcceptedRedemptionPassedItsGates | programs/dominion_silver_mint_v2/src/instructions/redeem_silv.rs:126-211 | every accepted redemption was unpaused, enabled, attested if its bit is in scope, on a good print, and of at least the minimum gross value |
| Refusals.StepExactly | programs/dominion_silver_mint_v2/src/instructions/redeem_silv.rs:115-343 | every operation is accepted exactly when no check refuses it, and otherwise fails with the error of the first that does, in the program's order |
| Ledger.StepIsItsEvent | scripts/audit-since-launch.ts:8-12 | every accepted operation is one fair event whose every amount the operation determines, premium included, of at least the minimum size, and no other money moves |
| Ledger.NothingIsCreated | programs/dominion_silver_mint_v2/src/instructions/mint_silv.rs:251-300 | each step conserves USDC over wallets, treasury and vault, and moves supply and holdings of SILV together |
| Ledger.LedgerReconciles | scripts/audit-since-launch.ts:8-12 | from any opening state, supply, fee vault and treasury equal their opening values plus what the events add up to, premints included; supply is under the cap and total USDC is constant |
| Ledger.NobodyExtractsValue | programs/dominion_silver_mint_v2/src/math.rs:204-240 | at one price, over any interleaving with transfers and premints, the backing falls by at most the premints and no group of wallets gains more than its net receipts |
| Ledger.TransferIsInflow | programs/dominion_silver_mint_v2/src/math.rs:204-240 | a transfer changes a group's wealth by exactly what crosses its border |
| Ledger.NoGroupProfits | programs/dominion_silver_mint_v2/src/math.rs:204-240 | a group that nothing is sent to from outside never gains, and without SILV at the start never ends with more USDC than it brought |
| Ledger.RoundTripLeavesDust | programs/dominion_silver_mint_v2/src/math.rs:204-240 | with routing on or off, mint then redeem costs the caller exactly what treasury and vault keep: the two premiums and 0 to ceil(price / 1e9) units of dust; with routing on the vault has exactly the premiums |
| Safety.RedeemIsASpend | programs/dominion_silver_mint_v2/src/instructions/redeem_silv.rs:237-284 | a committed redemption is an accepted spend of its real outflow, saturation included |
| Safety.StepKeepsWindow | programs/dominion_silver_mint_v2/src/instructions/redeem_silv.rs:276-284 | every operation keeps the window invariant |
| Safety.TreasuryOutflowBound | programs/dominion_silver_mint_v2/src/instructions/redeem_silv.rs:237-284 | over any accepted run, from any stored window, under any budget, the treasury pays at most 2B - floor(B/W) in any window length |
| Safety.UsageWasPaidOut | programs/dominion_silver_mint_v2/src/instructions/redeem_silv.rs:237-262 | after any run, what counts against the budget was paid out in the last two windows or stored before |
| Refusals.LimitRefusalIsReal | programs/dominion_silver_mint_v2/src/instructions/redeem_silv.rs:252-262 | a redemption refused for the limit did not fit beside what left in the last two windows |
| Safety.StepUsesANewPrint | programs/dominion_silver_mint_v2/src/instructions/mint_silv.rs:207-209 | a priced operation uses a fresh print newer than the mark and advances the mark to it |
| Safety.OnePrintOneOperation | programs/dominion_silver_mint_v2/src/lazer_price.rs:118-145 | feed times of accepted mints and redeems together strictly increase, so no payload prices two of them |
| Safety.MintQuoteOverflowsIff | programs/dominion_silver_mint_v2/src/instructions/mint_silv.rs:228-248 | the terms of a mint overflow exactly when the net amount buys SILV that takes the supply out of u64; never from $5 an ounce up |
| Safety.MintOverflowsIff | programs/dominion_silver_mint_v2/src/instructions/mint_silv.rs:116-248 | a mint ends in an overflow exactly when it passes its gates and price guards and its terms overflow, which needs the lower price bound off |
| Scenarios.CheapMintOverflows | programs/dominion_silver_mint_v2/src/instructions/admin/propose.rs:575-580 | with the lower bound off, a mint from genesis that does overflow |
| Safety.RedeemQuoteNeverOverflows | programs/dominion_silver_mint_v2/src/instructions/redeem_silv.rs:178-235 | no redemption of SILV that can exist overflows |
| Safety.NoReachableOverflow | programs/dominion_silver_mint_v2/src/instructions/redeem_silv.rs:225-284 | in every reachable state an operation overflows exactly when it would issue SILV past u64: never a redemption of what a wallet holds, a deposit or a transfer, and never a mint while the lower price bound is on |
| Safety.RunIsABreakerRun | programs/dominion_silver_mint_v2/src/instructions/redeem_silv.rs:286-287 | the priced operations of a run drive the breaker, sized by USDC paid or by gross value |
| Safety.BreakerHoldsOverRuns | programs/dominion_silver_mint_v2/src/oracle.rs:121-138 | over runs of the machine the recorded price compounds at most as allowed, whatever dust comes between, and dust never moves it |
| Safety.EveryTimelineIsSound | scripts/audit-since-launch.ts:3-12 | after any timeline of attempts from any state a record can begin from, the outflow bound, the reconciliation and the arithmetic headroom hold together |
| Safety.StepKeepsBounded | programs/dominion_silver_mint_v2/src/state/config.rs:17-22 | every accepted operation keeps the supply, the stored window and the recorded price inside what the checked arithmetic needs |
| Safety.GenesisIsReady | programs/dominion_silver_mint_v2/src/instructions/initialize.rs:356-472 | what initialize leaves is such a state |
| FeeRouting.StepsTrack | programs/dominion_silver_mint_v2/src/instructions/redeem_silv.rs:221-284 | a step is accepted with routing on if and only if it is with routing off and the gross is covered; the two states keep tracking each other |
| FeeRouting.RoutingIsNeutral | programs/dominion_silver_mint_v2/src/math.rs:243-288 | a run is accepted with routing on if and only if it is with it off and every redemption's gross is covered along the way; user amounts, supply and balances are the same, and so is treasury plus vault |
| Scenarios.RoutingOffAcceptsMore | programs/dominion_silver_mint_v2/src/instructions/redeem_silv.rs:225-262 | a redemption accepted with routing off and refused with it on |
| Program.DominionSilver.constructor | programs/dominion_silver_mint_v2/src/instructions/initialize.rs:356-472 | the initial state: nothing priced, spent, minted or routed |
| Program.DominionSilver.MintSilv | programs/dominion_silver_mint_v2/src/instructions/mint_silv.rs:116-316 | the handler ends in the machine's mint, or with its failing check |
| Program.DominionSilver.RedeemSilv | programs/dominion_silver_mint_v2/src/instructions/redeem_silv.rs:115-343 | the handler ends in the machine's redemption, or with its failing check |
| Program.DominionSilver.SpendFromWindow | programs/dominion_silver_mint_v2/src/instructions/redeem_silv.rs:237-284 | budget, then solvency, then the window committed as rolled current plus the outflow |
| Program.DominionSilver.UpdateLastPrice | programs/dominion_silver_mint_v2/src/oracle.rs:127-138 | the reference is written when arming or when the operation is large enough, and only then |
| Program.DominionSilver.DepositUsdc | programs/dominion_silver_mint_v2/src/instructions/deposit_usdc.rs:43-78 | the handler ends in the machine's deposit, or with its failing check |
| Program.DominionSilver.AdminPremint | programs/dominion_silver_mint_v2/src/instructions/admin/premint.rs:53-105 | the handler ends in the machine's premint, or with its failing check |
| Program.DominionSilver.Submit | programs/dominion_silver_mint_v2/src/instructions/redeem_silv.rs:276-277 | a transaction commits the machine's step or changes nothing |
| Program.DominionSilver.SubmitAll | scripts/audit-since-launch.ts:3-12 | any timeline of transactions leaves the machine's state, and a sound one from any state a record can begin from |
| RedeemClient.CountersAgree | apps/public/src/lib/anchor-client.ts:207-245 | the public counter, and the admin console port beside it (apps/admin/src/lib/anchor-client.ts:291-319), are the window rule for every window below the 2^26 that bn.js computes with, and every clock and bucket |
| RedeemClient.MaxInstantIsExact | apps/public/src/lib/anchor-client.ts:273-296 | the advertised maximum bounds the net of every instant redemption and, when positive, one attains it |
| RedeemClient.UnknownsAreCautious | apps/public/src/lib/anchor-client.ts:273-346 | a field an old account lacks counts as zero, an unknown premium as the configured one, an unknown attestation as none |
| RedeemClient.PremiumsAgree | apps/public/src/lib/lazer-tx.ts:272-283 | the app charges a wallet the premium the program charges it |
| RedeemClient.LimitsAgree | apps/public/src/lib/anchor-client.ts:304-345 | the app's two comparisons decide exactly as the program's budget and solvency checks |
| RedeemClient.AppPredictsProgram | apps/public/src/lib/anchor-client.ts:318-346 | the app says instant if and only if the program commits, and otherwise names the check that fails |
| RedeemClient.LimitIsTheBudgetCheck | apps/public/src/lib/anchor-client.ts:337-343 | with usage inside the budget, "limit" is exactly the program's budget check |
| RedeemClient.QuoteIsPaid | apps/public/src/lib/anchor-client.ts:261-269 | the net amount quoted is the amount the user receives |
| GuardianRegistry.StepKeepsValid | programs/dominion_silver_mint_v2/src/state/guardian.rs:54-71 | every operation keeps the counters exact and one guardian free of notice; underflow and the finalize floor are never reached |
| GuardianRegistry.CountersStayExact | programs/dominion_silver_mint_v2/src/instructions/admin/guardian.rs:80-95 | over any run from any exact registry, with any number of guardians, both counters equal the sizes of the real sets |
| GuardianRegistry.StepExactly | programs/dominion_silver_mint_v2/src/instructions/admin/guardian.rs:47-294 | every operation is accepted exactly when none of its checks, said of the real sets, refuses it, with the error of the first that does; accepted, it changes that one account as stated |
| GuardianRegistry.RemovalNeedsFullNotice | programs/dominion_silver_mint_v2/src/instructions/admin/guardian.rs:182-224 | a removal applies only between a full notice by the admin and the end of its execution window |
| GuardianRegistry.SelfVetoOnlyOnce | programs/dominion_silver_mint_v2/src/instructions/admin/guardian.rs:243-279 | a guardian cancels its own live notice at most once per appointment |
| GuardianRegistry.LiveNoticeEndsOnlyByRight | programs/dominion_silver_mint_v2/src/instructions/admin/guardian.rs:252-294 | over any run, a live notice ends only by the removal after it, by the admin, or by the guardian's one veto |
| GuardianRegistry.RemovedStaysOut | programs/dominion_silver_mint_v2/src/instructions/admin/guardian.rs:57-71 | a removed guardian's account stays as it is until a new appointment, and none is accepted within the hour |
| GuardianRegistry.GuardianProgram.AddGuardian | programs/dominion_silver_mint_v2/src/instructions/admin/guardian.rs:47-101 | the appointment handler makes the transition, or ends with its failing check |
| GuardianRegistry.GuardianProgram.RemoveGuardian | programs/dominion_silver_mint_v2/src/instructions/admin/guardian.rs:121-161 | the notice handler makes the transition, re-arming an expired notice without counting it twice, or ends with its failing check |
| GuardianRegistry.GuardianProgram.FinalizeGuardianRemoval | programs/dominion_silver_mint_v2/src/instructions/admin/guardian.rs:182-224 | the removal handler, which writes the account before it checks the counter, makes the transition or ends with its failing check |
| GuardianRegistry.GuardianProgram.CancelGuardianRemoval | programs/dominion_silver_mint_v2/src/instructions/admin/guardian.rs:252-294 | the cancel handler, which spends the veto and clears the notice before it checks the counter, makes the transition or ends with its failing check |
| GuardianRegistry.GuardianProgram.Submit | programs/dominion_silver_mint_v2/src/instructions/admin/guardian.rs:206-224 | a transaction commits the transition or changes nothing |
| GuardianRegistry.GuardianProgram.SubmitAll | programs/dominion_silver_mint_v2/src/state/guardian.rs:163-221 | any timeline of transactions keeps the counters equal to the real sets and one guardian free of notice, and none is refused for an underflow or at the finalize floor |
| LazerAssembly.ParseExactly | apps/public/src/lib/lazer-assembly.ts:44-69 | an envelope parses to a message if and only if it begins with that message printed; each refusal has its own cause |
| LazerAssembly.IndexOfSubarray | apps/public/src/lib/lazer-assembly.ts:72-81 | the first occurrence, or -1 exactly when there is none or the needle is empty |
| LazerAssembly.WriteOffsets | apps/public/src/lib/lazer-assembly.ts:120-131 | the buffer reads back as the seven offsets, and fails exactly when one is not a u16 |
| LazerAssembly.BuildLazerEd25519Instruction | apps/public/src/lib/lazer-assembly.ts:100-138 | the offsets point at the envelope's first occurrence; each failure has its exact cause |
| LazerAssembly.OffsetsSelectEnvelope | apps/public/src/lib/lazer-assembly.ts:44-69 | the offsets, dereferenced, give exactly the signature, key and payload of the envelope |
| LazerAssembly.AssembleLazerOracleIxs | apps/public/src/lib/lazer-tx.ts:76-88 | the assembled list succeeds exactly when it can, keeps its order, and its offsets select the envelope's fields from the consumer, for any number of account creations |

## Left out

- Cross-program calls, account constraints, derived addresses, the token programs and their extension checks: foreign code, modelled as exact balance moves and a verified payload.
- Signature verification and the readiness digest: opaque primitives.
- `assert_silv_mint_invariants` and the message-size check before verification: they read account data that is not part of this model.
- Burns by holders outside `redeem_silv`, and token transfers into the treasury or the vault outside `deposit_usdc`: a new run may start from whatever they leave.
- Admin proposals, caps, withdrawals and admin transfer: their parameters and balances are held constant over a run, and a new run may start from whatever they leave.
- KYC roster administration, and validation of exemption flags and expiry: short branch checks that would only add easy members.
- The quoting-only price functions of math.rs and the browser preview: no operation uses them, or they are floating point.
- `parseRedeemError` and the other matchers of error text: string matching on logs.
- Account layouts, error numbering, and event fields that restate other state (the premium charged).
- React components, RPC reads, proxies, deployment scripts: input, output and user interface.
- `unwrap_solana_payload`: a test-only reader of the envelope whose layout `ParseSolanaMessage` covers.
- BuildLazerEd25519Instruction: the offsets all have one failure (out of range); which write throws first is not distinguished.
