/** The failing checks of the priced operations, one constructor a check. */
module Errors {

  datatype Error =
    | Paused
    | RedemptionsDisabled
    | PublicMintDisabled
    | MintPaused
    | KycRequired
    | ZeroAmount
    | OperationBelowMinimum
    | LazerWrongChannel
    | WrongOracleFeed
    | LazerMessageTooLarge
    | LazerPayloadInvalid
    | NegativeOraclePrice
    | OracleLowConfidence
    | LazerTooFewPublishers
    | LazerCarriedForward
    | LazerReplayed
    | StaleOracle
    | OracleScalingOutOfBounds
    | ArithmeticOverflow
    | PriceOutOfBounds
    | PriceDeltaExceeded
    | SlippageExceeded
    | SupplyCapExceeded
    | RedeemLimitExceeded
    | InsufficientTreasury
    | BelowMinimum
    | InventoryWalletNotSet
    | InvalidInventoryDestination
    | InsufficientFunds  // raised by the token programs, not by this one
}
