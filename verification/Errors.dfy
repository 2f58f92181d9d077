/** The error codes of the three programs, one constructor per name, and the failures the runtime
    reports itself. */
module Errors {

  datatype Error =
    // entros-anchor
    | InvalidCommitment | Unauthorized | ArithmeticOverflow | InvalidProtocolConfig | InvalidIdentityState
    | VerificationResultWrongOwner | VerifierMismatch | ProofExpired | CommitmentMismatch
    | PrevCommitmentMismatch | ResetCooldownActive | RebaselineCooldownActive | UnauthorizedNewWallet
    | ProofFromFuture | MissingValidatorReceipt | ReceiptValidatorMismatch | ReceiptCommitmentMismatch
    | ReceiptWalletMismatch | ReceiptExpired | ReceiptFromFuture | MalformedReceiptMessage
    | ValidatorNotConfigured | ProjectionVersionTooOld | ProjectionVersionTooNew
    | ProjectionVersionNotAdvanced | ReceiptVersionMismatch | ReceiptPurposeMismatch
    | ReceiptProjectionVersionMismatch | ProjectionVersionMismatch | UnsupportedProofGeneration
    | InvalidRequestContext | InvalidAssuranceTier | CommitmentUnchanged | InvalidVerificationResultPda
    | ReceiptAlreadyUsed | InvalidResetReceiptAccounts
    // entros-verifier
    | InvalidNonce | ChallengeExpired | InvalidPublicInputs | InvalidProofFormat | ProofVerificationFailed
    // entros-registry
    | ProgramDataBytes | WrongUpgradeAuthority | InvalidValidatorPubkey | InvalidProjectionVersionRange
    | ProjectionVersionRollback | MinimumProjectionVersionRollback | InvalidPendingAuthority
    | NoPendingAuthority | InvalidValidatorGracePeriod | InsufficientStake
    // the runtime: an account that must be absent exists, one that must exist is absent or too
    // short, or a
    // token, rent or fee transfer fails
    | AccountInUse | AccountMissing | AccountDidNotDeserialize | TransferFailed
}
