/** The program's accounts, and the transactions that act on them. */
module Accounts {
  import opened Prelude
  import opened Interest

  const PRICE_STALENESS_SECONDS := 3600
  const BTC_ATTESTATION_MAX_AGE_SECONDS := 600
  const BTC_LIQUIDATION_MIN_CONFIRMATIONS := 1

  type Key = Bytes32

  /** The seeds a vault's address is derived from, beside the path's prefix. */
  datatype VaultKey = VaultKey(owner: Key, dwallet: Bytes32)

  datatype AssetType = Btc | Eth | Sol

  datatype ProofStatus = Pending | Verified | Expired

  datatype Protocol = Protocol(admin: Key, frozen: bool, totalVaults: u64, totalCollateral: u128)

  datatype Vault = Vault(
    owner: Key, dwalletId: Bytes32, assetType: AssetType, deposited: u64,
    proofStatus: ProofStatus, proofTimestamp: i64, frozen: bool)

  datatype BtcVault = BtcVault(
    owner: Key, ikaDwallet: Bytes32, bitcoinAddress: seq<u8>, depositedSatoshis: u64,
    lastAttestationSlot: u64, proofStatus: ProofStatus, proofTimestamp: i64, frozen: bool,
    liquidationInitiatedAt: i64, liquidationSighash: Bytes32)

  datatype Attestation = Attestation(
    bitcoinAddress: seq<u8>, satoshis: u64, blockHeight: u64, attestedAtSlot: u64, attestedAt: i64, keeper: Key)

  /** A loan; its principal is in scaled units. */
  datatype Position = Position(
    owner: Key, principal: u64, borrowedAt: i64, lastUpdatedAt: i64, indexSnapshot: u128)

  /** All accounts of one deployment with one pool; positions sit under the key of their vault. */
  datatype State = State(
    pool: Pool,
    protocol: Protocol,
    poolTokens: u64,
    vaults: map<VaultKey, Vault>,
    positions: map<VaultKey, Position>,
    btcVaults: map<VaultKey, BtcVault>,
    attestations: map<VaultKey, Attestation>,
    btcPositions: map<VaultKey, Position>)

  /** The sysvar clock. */
  datatype Clock = Clock(now: i64, slot: u64)

  datatype Feed = Feed(priceUsd: u64, updatedAt: i64)

  /** What a liquidator's side of a liquidation finds on chain. */
  datatype Lamports = Lamports(vault: u64, liquidator: u64, rentExemptMinimum: u64)

  // Instructions with their signer, arguments and the foreign accounts they read.

  datatype CustodyInstruction =
    | RegisterVault(signer: Key, dwalletId: Bytes32, assetType: AssetType)
    | CloseVault(key: VaultKey, signer: Key)
    | VerifyCustodyProof(key: VaultKey, signer: Key, expected: Bytes32, approvalKey: Key, approval: seq<u8>)
    | RefreshCustodyProof(key: VaultKey, signer: Key, expected: Bytes32, approvalKey: Key, approval: seq<u8>)
    | DepositCollateral(key: VaultKey, signer: Key, amount: u64)
    | WithdrawCollateral(key: VaultKey, signer: Key, amount: u64)

  datatype BreakerInstruction =
    | CircuitBreakerFreeze(key: VaultKey, signer: Key)
    | AdminUnfreeze(key: VaultKey, signer: Key)
    | UnfreezeProtocolState(signer: Key)
    | TriggerRiskCheck(key: VaultKey, signer: Key, isSafe: bool)

  datatype LendingInstruction =
    | Borrow(key: VaultKey, signer: Key, amount: u64, feed: Feed)
    | Repay(key: VaultKey, signer: Key, amount: u64, wallet: u64)
    | Liquidate(key: VaultKey, signer: Key, feed: Feed, wallet: u64, lamports: Lamports)

  datatype BtcCustodyInstruction =
    | RegisterBtcVault(signer: Key, ikaDwallet: Bytes32, dwalletPubkey: seq<u8>, bitcoinAddress: seq<u8>)
    | AttestBtcBalance(key: VaultKey, signer: Key, satoshis: u64, blockHeight: u64)
    | VerifyBtcCustodyProof(key: VaultKey, signer: Key, approval: seq<u8>)
    | RefreshBtcCustodyProof(key: VaultKey, signer: Key, approval: seq<u8>)

  datatype BtcLendingInstruction =
    | BorrowBtc(key: VaultKey, signer: Key, amount: u64, feed: Feed)
    | RepayBtc(key: VaultKey, signer: Key, amount: u64, wallet: u64)
    | LiquidateBtc(key: VaultKey, signer: Key, feed: Feed, wallet: u64, dwallet: Key, sighash: Bytes32,
                   cpiAccepted: bool)
    | FinalizeBtcLiquidation(key: VaultKey, signer: Key, blockHeight: u64, confirmations: u32, remaining: u64)

  datatype Instruction =
    | Custody(custody: CustodyInstruction)
    | Breaker(breaker: BreakerInstruction)
    | Lending(lending: LendingInstruction)
    | BtcCustody(btcCustody: BtcCustodyInstruction)
    | BtcLending(btcLending: BtcLendingInstruction)

  datatype Transaction = Transaction(clock: Clock, instruction: Instruction)

  /** The emitted events, as far as amounts depend on them. */
  datatype Event =
    | Done
    | BorrowOpened(amount: u64, principal: u64)
    | BorrowRepaid(amount: u64, remaining: u64)
    | PositionLiquidated(repaid: u64, seized: u64, lamports: Lamports)
    | BtcLiquidationInitiated(repaid: u64, seizedSatoshis: u64)

  /** A committed transaction. */
  datatype Commit = Commit(state: State, event: Event)
}
