/** state/side.rs, state/fee_exempt.rs and state/kyc.rs: the two per-wallet gates, sharing one bit layout. */
module Access {
  import opened Wrappers
  import opened Ints
  import opened Errors

  type Pubkey = nat

  const DEFAULT_PUBKEY: Pubkey := 0

  datatype Side = MintSide | RedeemSide

  function Bit(side: Side): bv8 {
    match side
    case MintSide => 1
    case RedeemSide => 2
  }

  predicate IsSetIn(side: Side, flags: bv8) { flags & Bit(side) != 0 }

  datatype FeeExempt = FeeExempt(wallet: Pubkey, flags: bv8, expiresAt: i64)

  predicate IsExpired(e: FeeExempt, now: i64) { e.expiresAt == 0 || now >= e.expiresAt }

  predicate Exempts(e: FeeExempt, signer: Pubkey, side: Side, now: i64) {
    e.wallet == signer && IsSetIn(side, e.flags) && !IsExpired(e, now)
  }

  function EffectivePremiumBps(configured: u16, exemption: Option<FeeExempt>, signer: Pubkey, side: Side, now: i64): u16 {
    if exemption.Some? && Exempts(exemption.value, signer, side, now) then 0 else configured
  }

  datatype Kyc = Kyc(wallet: Pubkey)

  function EnforceKyc(scope: bv8, side: Side, attestation: Option<Kyc>, signer: Pubkey): Result<(), Error> {
    if !IsSetIn(side, scope) then Ok(())
    else if attestation.Some? && attestation.value.wallet == signer then Ok(())
    else Err(KycRequired)
  }
}
