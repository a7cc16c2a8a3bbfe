/** How a live QA run fails (the error names of `production-live-qa.ts` and the checks it calls). */
module QaErrors {
  import Approval

  datatype AccessError =
    | ConsoleLoginFailed
    | RuntimeStatusRefused
    | RuntimeSecretShown
    | RuntimeCredentialsRequired
    | CredentialsCacheControl

  datatype QaError =
    | SourceContractInvalid
    | SnapshotLimitExceeded
    | SnapshotInvalid
    | SnapshotChanged
    | UsageStatsInvalid
    | WalletRequired
    | WorkspaceKeyRequired
    | CardinalityMismatch
    | RequestUsageInvalid
    | RequestNotFound
    | UsageStatsMismatch
    | BalanceDeltaMismatch
    | WalletInvalid
    | ModelCheckFailed
    | ApprovalRejected(why: Approval.ApprovalError)
    | ProviderAcceptanceRequired
    | ReusableSlotRequired
    | ResourceIdsRequired
    | AccessRefused(access: AccessError)
    | ResourceIdsChanged
    | LedgerReceiptChanged
    | RuntimeOperationsChanged
}
