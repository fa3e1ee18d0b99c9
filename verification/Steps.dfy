/**
 What every instruction does to the accounts: its guards in the program's order and, if all hold, the
 accounts it commits. A failed transaction commits nothing.
 */
module Steps {
  import opened Prelude
  import opened Approvals
  import opened Pricing
  import opened Interest
  import opened Loans
  import opened Accounts

  // ---- initialisation ----

  /** `validate_bps`. */
  predicate ValidBps(ltvBps: nat, thresholdBps: nat, bonusBps: nat) {
    0 < ltvBps < thresholdBps <= BPS && ltvBps < BPS && bonusBps <= BPS / 2
  }

  /** `initialize_protocol` followed by `initialize_lending_pool`. */
  function Initialize(admin: Key, slot: u64, liquidity: u64, poolTokens: u64, price: u64,
                      ltvBps: u16, thresholdBps: u16, bonusBps: u16, baseRateBps: u16, rateSlopeBps: u16):
    Result<State>
  {
    if liquidity <= 0 then Err(InvalidLendingPoolParameter) else
    :- Require(price > 0, InvalidLendingPoolParameter);
    :- Require(ValidBps(ltvBps, thresholdBps, bonusBps), InvalidLendingPoolParameter);
    :- Require(poolTokens >= liquidity, InsufficientPoolLiquidity);
    Ok(State(
      Pool(liquidity, 0, ltvBps, thresholdBps, bonusBps, RAY, slot, baseRateBps, rateSlopeBps),
      Protocol(admin, false, 0, 0), poolTokens, map[], map[], map[], map[], map[]))
  }

  function CountVault(protocol: Protocol): Result<Protocol> {
    var totalVaults :- AddU64(protocol.totalVaults, 1);
    Ok(protocol.(totalVaults := totalVaults))
  }

  /** The vault at a key, for instructions only its owner may sign. */
  function OwnVault(s: State, key: VaultKey, signer: Key): Result<Vault> {
    if key !in s.vaults then Err(AccountNotInitialized) else
    :- Require(s.vaults[key].owner == signer, UnauthorizedCaller);
    Ok(s.vaults[key])
  }

  function OwnBtcVault(s: State, key: VaultKey, signer: Key): Result<BtcVault> {
    if key !in s.btcVaults then Err(AccountNotInitialized) else
    :- Require(s.btcVaults[key].owner == signer, UnauthorizedCaller);
    Ok(s.btcVaults[key])
  }

  // ---- SOL-path vaults ----

  function RegisterVaultStep(s: State, signer: Key, dwalletId: Bytes32, assetType: AssetType): Result<Commit> {
    var key := VaultKey(signer, dwalletId);
    :- Require(key !in s.vaults, AccountInUse);
    var protocol :- CountVault(s.protocol);
    Ok(Commit(s.(vaults := s.vaults[key := Vault(signer, dwalletId, assetType, 0, Pending, 0, false)],
                 protocol := protocol), Done))
  }

  function CloseVaultStep(s: State, key: VaultKey, signer: Key): Result<Commit> {
    var vault :- OwnVault(s, key, signer);
    :- Require(vault.deposited == 0, InvalidWithdrawalAmount);
    Ok(Commit(s.(vaults := s.vaults - {key}), Done))
  }

  function VerifyCustodyProofStep(s: State, now: i64, key: VaultKey, signer: Key, expected: Bytes32,
                              approvalKey: Key, approval: seq<u8>): Result<Commit>
  {
    if key !in s.vaults then Err(AccountNotInitialized) else
    var vault := s.vaults[key];
    :- Require(vault.proofStatus == Pending || vault.proofStatus == Expired, VaultAlreadyVerified);
    :- Require(vault.dwalletId == expected, DWalletMismatch);
    :- Require(vault.owner == signer, UnauthorizedCaller);
    :- Require(approvalKey != DefaultKey(), InvalidMessageApproval);
    var _ :- ParseMessageApproval(approval, expected, now);
    Ok(Commit(s.(vaults := s.vaults[key := vault.(proofStatus := Verified, proofTimestamp := now)]), Done))
  }

  function RefreshCustodyProofStep(s: State, now: i64, key: VaultKey, signer: Key, expected: Bytes32,
                               approvalKey: Key, approval: seq<u8>): Result<Commit>
  {
    if key !in s.vaults then Err(AccountNotInitialized) else
    var vault := s.vaults[key];
    :- Require(vault.proofStatus == Verified, VaultNotVerified);
    :- Require(vault.dwalletId == expected, DWalletMismatch);
    :- Require(vault.owner == signer, UnauthorizedCaller);
    :- Require(approvalKey != DefaultKey(), InvalidMessageApproval);
    var sinceVerification :- MinusI64(now, vault.proofTimestamp);
    :- Require(sinceVerification <= PROOF_EXPIRY_SECONDS, ProofExpired);
    var _ :- ParseMessageApproval(approval, expected, now);
    Ok(Commit(s.(vaults := s.vaults[key := vault.(proofTimestamp := now)]), Done))
  }

  function DepositCollateralStep(s: State, now: i64, key: VaultKey, signer: Key, amount: u64): Result<Commit> {
    var vault :- OwnVault(s, key, signer);
    :- Require(vault.proofStatus == Verified, VaultNotVerified);
    :- Require(!s.protocol.frozen, ProtocolFrozen);
    :- Require(!vault.frozen, VaultFrozen);
    :- Require(amount > 0, InvalidDepositAmount);
    var sinceProof :- MinusI64(now, vault.proofTimestamp);
    :- Require(sinceProof <= PROOF_EXPIRY_SECONDS, ProofExpired);
    var deposited :- AddU64(vault.deposited, amount);
    var total :- Plus(Ok(s.protocol.totalCollateral), amount);
    Ok(Commit(s.(vaults := s.vaults[key := vault.(deposited := deposited)],
                 protocol := s.protocol.(totalCollateral := total)), Done))
  }

  function WithdrawCollateralStep(s: State, key: VaultKey, signer: Key, amount: u64): Result<Commit> {
    var vault :- OwnVault(s, key, signer);
    :- Require(!s.protocol.frozen, ProtocolFrozen);
    :- Require(0 < amount <= vault.deposited, InvalidWithdrawalAmount);
    :- Require(amount <= s.protocol.totalCollateral, ArithmeticOverflow);
    Ok(Commit(s.(vaults := s.vaults[key := vault.(deposited := vault.deposited - amount)],
                 protocol := s.protocol.(totalCollateral := s.protocol.totalCollateral - amount)), Done))
  }

  // ---- circuit breaker ----

  function CircuitBreakerFreezeStep(s: State, key: VaultKey, signer: Key): Result<Commit> {
    if key !in s.vaults then Err(AccountNotInitialized) else
    :- Require(s.protocol.admin == signer, UnauthorizedCaller);
    Ok(Commit(s.(vaults := s.vaults[key := s.vaults[key].(frozen := true)],
                 protocol := s.protocol.(frozen := true)), Done))
  }

  function AdminUnfreezeStep(s: State, key: VaultKey, signer: Key): Result<Commit> {
    if key !in s.vaults then Err(AccountNotInitialized) else
    :- Require(s.protocol.admin == signer, UnauthorizedCaller);
    Ok(Commit(s.(vaults := s.vaults[key := s.vaults[key].(frozen := false)]), Done))
  }

  /** Anyone may sign this one. */
  function UnfreezeProtocolStateStep(s: State): Result<Commit> {
    Ok(Commit(s.(protocol := s.protocol.(frozen := false)), Done))
  }

  function TriggerRiskCheckStep(s: State, key: VaultKey, signer: Key, isSafe: bool): Result<Commit> {
    if key !in s.vaults then Err(AccountNotInitialized) else
    :- Require(s.protocol.admin == signer || s.vaults[key].owner == signer, UnauthorizedCaller);
    if isSafe then Ok(Commit(s, Done))
    else Ok(Commit(s.(vaults := s.vaults[key := s.vaults[key].(frozen := true)],
                      protocol := s.protocol.(frozen := true)), Done))
  }

  // ---- SOL-path loans ----

  /** A timestamp must be at most `maxAge` seconds old, by `checked_sub`. */
  function FreshGuard(now: i64, since: i64, maxAge: nat, stale: Error): Check {
    if !(-I64_LIMIT <= now - since < I64_LIMIT) then Fail(InvalidTimestamp)
    else if now - since > maxAge then Fail(stale)
    else Pass
  }

  function LimitGuard(s: State, collateral: u64, amount: u64, feed: Feed, coin: Coin): Check {
    match CalculateMaxBorrow(collateral, feed.priceUsd, s.pool.ltvBps, coin)
    case Err(e) => Fail(e)
    case Ok(maxBorrow) => Require(amount <= maxBorrow, BorrowExceedsCollateralLtv)
  }

  function BorrowGuard(s: State, now: i64, vault: Vault, amount: u64, feed: Feed): Check {
    if amount == 0 then Fail(InvalidBorrowAmount)
    else if s.protocol.frozen then Fail(ProtocolFrozen)
    else if vault.frozen then Fail(VaultFrozen)
    else if vault.proofStatus != Verified then Fail(VaultNotVerified)
    else if vault.deposited == 0 then Fail(InsufficientCollateral)
    else
      var proof := FreshGuard(now, vault.proofTimestamp, PROOF_EXPIRY_SECONDS, ProofExpired);
      if proof.Fail? then proof else
      var price := FreshGuard(now, feed.updatedAt, PRICE_STALENESS_SECONDS, PriceFeedStale);
      if price.Fail? then price else
      LimitGuard(s, vault.deposited, amount, feed, COLLATERAL_ONE)
  }

  /** The position account a borrow initialises. */
  function NewPosition(owner: Key, now: i64, draw: Draw): Position {
    Position(owner, draw.principal, now, now, draw.pool.borrowIndex)
  }

  function BorrowStep(s: State, clock: Clock, key: VaultKey, signer: Key, amount: u64, feed: Feed): Result<Commit> {
    var vault :- OwnVault(s, key, signer);
    :- Require(key !in s.positions, AccountInUse);
    :- BorrowGuard(s, clock.now, vault, amount, feed);
    var draw :- DrawFunds(s.pool, s.poolTokens, clock.slot, amount);
    Ok(Commit(s.(pool := draw.pool, poolTokens := draw.tokens,
                 positions := s.positions[key := NewPosition(signer, clock.now, draw)]),
              BorrowOpened(amount, draw.principal)))
  }

  /** The loans left on a path after one of them was paid down; a loan without principal is closed. */
  function PaidPositions(positions: map<VaultKey, Position>, key: VaultKey, now: i64, r: Repayment):
    map<VaultKey, Position>
    requires key in positions
  {
    if r.remaining == 0 then positions - {key}
    else positions[key := positions[key].(
                     principal := r.remaining, lastUpdatedAt := now, indexSnapshot := r.pool.borrowIndex)]
  }

  function RepayStep(s: State, clock: Clock, key: VaultKey, signer: Key, amount: u64, wallet: u64): Result<Commit> {
    var _ :- OwnVault(s, key, signer);
    :- Require(key in s.positions, AccountNotInitialized);
    :- Require(s.positions[key].owner == signer, UnauthorizedCaller);
    :- Require(amount > 0, InvalidRepayAmount);
    var r :- PayDown(s.pool, s.poolTokens, clock.slot, s.positions[key].principal, amount, false, wallet);
    Ok(Commit(s.(pool := r.pool, poolTokens := r.tokens,
                 positions := PaidPositions(s.positions, key, clock.now, r)),
              BorrowRepaid(r.paid, r.remaining)))
  }

  /** What both liquidations ask of the position, the liquidator and the price. */
  function LiquidatorGuard(s: State, position: Position, signer: Key): Check {
    if s.protocol.frozen then Fail(ProtocolFrozen)
    else if position.principal == 0 then Fail(NoOutstandingDebt)
    else if position.owner == signer then Fail(SelfLiquidation)
    else Pass
  }

  /** The debt paid off and the tokens then in the pool. */
  datatype Payoff = Payoff(repaid: u64, tokens: u64)

  function PayOff(tokens: u64, pool: Pool, principal: u64, collateral: u64, feed: Feed, coin: Coin, wallet: u64):
    Result<Payoff>
  {
    var outstanding :- CurrentDebt(principal, pool.borrowIndex);
    var unhealthy := IsLiquidatable(collateral, feed.priceUsd, outstanding, pool.thresholdBps, coin);
    :- Require(unhealthy == Ok(true), PositionHealthy);
    var received :- ReceiveTokens(tokens, wallet, outstanding);
    Ok(Payoff(outstanding, received))
  }

  datatype Seizure = Seizure(seized: u64, depositedLeft: u64, lamports: Lamports)

  /** The collateral lamports a liquidation moves from the vault to the liquidator. */
  function Seize(deposited: u64, bonusBps: u16, lamports: Lamports): Result<Seizure> {
    var seizable :- CollateralWithBonus(deposited, bonusBps);
    var movable: u64 := if lamports.rentExemptMinimum <= lamports.vault
                        then lamports.vault - lamports.rentExemptMinimum else 0;
    var seized: u64 := Min(seizable, movable);
    :- Require(seized > 0, InsufficientCollateralLamports);
    var liquidator :- AddU64(lamports.liquidator, seized);
    var depositedLeft :- SubU64(deposited, seized);
    Ok(Seizure(seized, depositedLeft, lamports.(vault := lamports.vault - seized, liquidator := liquidator)))
  }

  /** The loan is closed and the vault, left with the rest of its deposit, must be verified again. */
  function WithLiquidation(s: State, key: VaultKey, pool: Pool, tokens: u64, depositedLeft: u64): State
    requires key in s.vaults
  {
    s.(pool := pool, poolTokens := tokens,
       vaults := s.vaults[key := s.vaults[key].(deposited := depositedLeft, proofStatus := Pending)],
       positions := s.positions - {key})
  }

  function LiquidateStep(s: State, clock: Clock, key: VaultKey, signer: Key, feed: Feed, wallet: u64,
                         lamports: Lamports): Result<Commit>
  {
    if !(key in s.vaults && key in s.positions) then Err(AccountNotInitialized) else
    var vault, position := s.vaults[key], s.positions[key];
    var pool :- Accrued(s.pool, clock.slot);
    :- LiquidatorGuard(s, position, signer);
    :- FreshGuard(clock.now, feed.updatedAt, PRICE_STALENESS_SECONDS, PriceFeedStale);
    var payoff :- PayOff(s.poolTokens, pool, position.principal, vault.deposited, feed, COLLATERAL_ONE, wallet);
    var seizure :- Seize(vault.deposited, pool.bonusBps, lamports);
    var totalBorrowed :- SubU64(pool.totalBorrowed, position.principal);
    Ok(Commit(WithLiquidation(s, key, pool.(totalBorrowed := totalBorrowed), payoff.tokens, seizure.depositedLeft),
              PositionLiquidated(payoff.repaid, seizure.seized, seizure.lamports)))
  }

  // ---- Bitcoin path ----

  /** A testnet bech32 address of plausible length. */
  predicate ValidBitcoinAddress(address: seq<u8>) {
    4 <= |address| <= 64 && address[0] == 't' as int && address[1] == 'b' as int && address[2] == '1' as int
    && (address[3] == 'q' as int || address[3] == 'p' as int)
  }

  function RegisterBtcVaultStep(s: State, signer: Key, ikaDwallet: Bytes32, dwalletPubkey: seq<u8>,
                            bitcoinAddress: seq<u8>): Result<Commit>
  {
    var key := VaultKey(signer, ikaDwallet);
    :- Require(key !in s.btcVaults && key !in s.attestations, AccountInUse);
    :- Require(ValidBitcoinAddress(bitcoinAddress), InvalidBitcoinAddress);
    :- Require(|dwalletPubkey| == 33 && dwalletPubkey[0] in {2, 3}, InvalidDwalletPubkey);
    var protocol :- CountVault(s.protocol);
    var vault := BtcVault(signer, ikaDwallet, bitcoinAddress, 0, 0, Pending, 0, false, 0, DefaultKey());
    var attestation := Attestation(bitcoinAddress, 0, 0, 0, 0, DefaultKey());
    Ok(Commit(s.(btcVaults := s.btcVaults[key := vault],
                 attestations := s.attestations[key := attestation], protocol := protocol), Done))
  }

  function AttestBtcBalanceStep(s: State, clock: Clock, key: VaultKey, signer: Key, satoshis: u64,
                            blockHeight: u64): Result<Commit>
  {
    if !(key in s.btcVaults && key in s.attestations) then Err(AccountNotInitialized) else
    var vault, attestation := s.btcVaults[key], s.attestations[key];
    :- Require(signer == s.protocol.admin, KeeperNotAuthorised);
    :- Require(attestation.bitcoinAddress == vault.bitcoinAddress, BitcoinAttestationMismatch);
    Ok(Commit(s.(attestations := s.attestations[key := Attestation(attestation.bitcoinAddress, satoshis,
                                   blockHeight, clock.slot, clock.now, signer)],
                 btcVaults := s.btcVaults[key := vault.(depositedSatoshis := satoshis,
                                                        lastAttestationSlot := clock.slot)]), Done))
  }

  function VerifyBtcCustodyProofStep(s: State, now: i64, key: VaultKey, signer: Key, approval: seq<u8>):
    Result<Commit>
  {
    var vault :- OwnBtcVault(s, key, signer);
    :- Require(vault.proofStatus == Pending || vault.proofStatus == Expired, VaultAlreadyVerified);
    var _ :- ParseForBtcDwallet(approval, vault.ikaDwallet, now);
    Ok(Commit(s.(btcVaults := s.btcVaults[key := vault.(proofStatus := Verified, proofTimestamp := now)]), Done))
  }

  /** Unlike on the SOL path, an expired window can be refreshed. */
  function RefreshBtcCustodyProofStep(s: State, now: i64, key: VaultKey, signer: Key, approval: seq<u8>):
    Result<Commit>
  {
    var vault :- OwnBtcVault(s, key, signer);
    :- Require(vault.proofStatus == Verified, BtcVaultNotVerified);
    var _ :- ParseForBtcDwallet(approval, vault.ikaDwallet, now);
    Ok(Commit(s.(btcVaults := s.btcVaults[key := vault.(proofTimestamp := now)]), Done))
  }

  function BtcBorrowGuard(s: State, now: i64, vault: BtcVault, attestation: Attestation, amount: u64,
                          feed: Feed): Check
  {
    if amount == 0 then Fail(InvalidBorrowAmount)
    else if s.protocol.frozen then Fail(ProtocolFrozen)
    else if vault.frozen then Fail(BtcVaultFrozen)
    else if vault.liquidationInitiatedAt != 0 then Fail(BtcLiquidationAlreadyInitiated)
    else if vault.proofStatus != Verified then Fail(BtcVaultNotVerified)
    else if attestation.satoshis == 0 then Fail(InsufficientBtcCollateral)
    else
      var proof := FreshGuard(now, vault.proofTimestamp, PROOF_EXPIRY_SECONDS, ProofExpired);
      if proof.Fail? then proof else
      var balance := FreshGuard(now, attestation.attestedAt, BTC_ATTESTATION_MAX_AGE_SECONDS, BitcoinAttestationStale);
      if balance.Fail? then balance else
      var price := FreshGuard(now, feed.updatedAt, PRICE_STALENESS_SECONDS, PriceFeedStale);
      if price.Fail? then price else
      LimitGuard(s, attestation.satoshis, amount, feed, SATOSHIS_PER_BTC)
  }

  function BorrowBtcStep(s: State, clock: Clock, key: VaultKey, signer: Key, amount: u64, feed: Feed): Result<Commit> {
    var vault :- OwnBtcVault(s, key, signer);
    :- Require(key in s.attestations, AccountNotInitialized);
    :- Require(key !in s.btcPositions, AccountInUse);
    :- BtcBorrowGuard(s, clock.now, vault, s.attestations[key], amount, feed);
    var draw :- DrawFunds(s.pool, s.poolTokens, clock.slot, amount);
    Ok(Commit(s.(pool := draw.pool, poolTokens := draw.tokens,
                 btcPositions := s.btcPositions[key := NewPosition(signer, clock.now, draw)]),
              BorrowOpened(amount, draw.principal)))
  }

  /** The largest amount asks to repay all the wallet can and forgives the rest. */
  function RepayBtcStep(s: State, clock: Clock, key: VaultKey, signer: Key, amount: u64, wallet: u64): Result<Commit> {
    var _ :- OwnBtcVault(s, key, signer);
    :- Require(key in s.btcPositions, AccountNotInitialized);
    :- Require(s.btcPositions[key].owner == signer, UnauthorizedCaller);
    :- Require(amount > 0, InvalidRepayAmount);
    var r :- PayDown(s.pool, s.poolTokens, clock.slot, s.btcPositions[key].principal, amount,
                     amount == U64_MAX, wallet);
    Ok(Commit(s.(pool := r.pool, poolTokens := r.tokens,
                 btcPositions := PaidPositions(s.btcPositions, key, clock.now, r)),
              BorrowRepaid(r.paid, r.remaining)))
  }

  /** The loan is paid off, and the vault frozen until the seized satoshis have moved. */
  function WithBtcLiquidation(s: State, now: i64, key: VaultKey, pool: Pool, tokens: u64, sighash: Bytes32): State
    requires key in s.btcVaults && key in s.btcPositions
  {
    s.(pool := pool, poolTokens := tokens,
       btcPositions := s.btcPositions[key := s.btcPositions[key].(
                         principal := 0, lastUpdatedAt := now, indexSnapshot := pool.borrowIndex)],
       btcVaults := s.btcVaults[key := s.btcVaults[key].(
                      frozen := true, liquidationInitiatedAt := now, liquidationSighash := sighash)])
  }

  function LiquidateBtcStep(s: State, clock: Clock, key: VaultKey, signer: Key, feed: Feed, wallet: u64,
                            dwallet: Key, sighash: Bytes32, cpiAccepted: bool): Result<Commit>
  {
    if !(key in s.btcVaults && key in s.attestations && key in s.btcPositions) then Err(AccountNotInitialized) else
    var vault, attestation, position := s.btcVaults[key], s.attestations[key], s.btcPositions[key];
    :- Require(dwallet == vault.ikaDwallet, DWalletMismatch);
    var pool :- Accrued(s.pool, clock.slot);
    :- LiquidatorGuard(s, position, signer);
    :- Require(vault.liquidationInitiatedAt == 0, BtcLiquidationAlreadyInitiated);
    :- FreshGuard(clock.now, attestation.attestedAt, BTC_ATTESTATION_MAX_AGE_SECONDS, BitcoinAttestationStale);
    :- FreshGuard(clock.now, feed.updatedAt, PRICE_STALENESS_SECONDS, PriceFeedStale);
    var payoff :- PayOff(s.poolTokens, pool, position.principal, attestation.satoshis, feed, SATOSHIS_PER_BTC, wallet);
    var worth :- DebtToSatoshisWithBonus(payoff.repaid, feed.priceUsd, pool.bonusBps);
    :- Require(cpiAccepted, CpiFailed);
    var totalBorrowed :- SubU64(pool.totalBorrowed, position.principal);
    Ok(Commit(WithBtcLiquidation(s, clock.now, key, pool.(totalBorrowed := totalBorrowed), payoff.tokens, sighash),
              BtcLiquidationInitiated(payoff.repaid, Min(worth, attestation.satoshis))))
  }

  function FinalizeBtcLiquidationStep(s: State, clock: Clock, key: VaultKey, signer: Key, blockHeight: u64,
                                  confirmations: u32, remaining: u64): Result<Commit>
  {
    if !(key in s.btcVaults && key in s.attestations && key in s.btcPositions) then Err(AccountNotInitialized) else
    var vault, attestation := s.btcVaults[key], s.attestations[key];
    :- Require(signer == s.protocol.admin, KeeperNotAuthorised);
    :- Require(vault.liquidationInitiatedAt > 0, BtcLiquidationNotInitiated);
    :- Require(confirmations >= BTC_LIQUIDATION_MIN_CONFIRMATIONS, BitcoinConfirmationsInsufficient);
    :- Require(s.btcPositions[key].principal == 0, OutstandingDebt);
    Ok(Commit(s.(btcVaults := s.btcVaults[key := vault.(
                                depositedSatoshis := remaining, lastAttestationSlot := clock.slot,
                                proofStatus := Pending, proofTimestamp := 0, frozen := false,
                                liquidationInitiatedAt := 0, liquidationSighash := DefaultKey())],
                 attestations := s.attestations[key := Attestation(attestation.bitcoinAddress, remaining,
                                   blockHeight, clock.slot, clock.now, signer)],
                 btcPositions := s.btcPositions - {key}), Done))
  }

  // ---- transactions ----

  function ApplyCustody(s: State, now: i64, instruction: CustodyInstruction): Result<Commit> {
    match instruction
    case RegisterVault(signer, dwalletId, assetType) => RegisterVaultStep(s, signer, dwalletId, assetType)
    case CloseVault(key, signer) => CloseVaultStep(s, key, signer)
    case VerifyCustodyProof(key, signer, expected, approvalKey, approval) =>
      VerifyCustodyProofStep(s, now, key, signer, expected, approvalKey, approval)
    case RefreshCustodyProof(key, signer, expected, approvalKey, approval) =>
      RefreshCustodyProofStep(s, now, key, signer, expected, approvalKey, approval)
    case DepositCollateral(key, signer, amount) => DepositCollateralStep(s, now, key, signer, amount)
    case WithdrawCollateral(key, signer, amount) => WithdrawCollateralStep(s, key, signer, amount)
  }

  function ApplyBreaker(s: State, instruction: BreakerInstruction): Result<Commit> {
    match instruction
    case CircuitBreakerFreeze(key, signer) => CircuitBreakerFreezeStep(s, key, signer)
    case AdminUnfreeze(key, signer) => AdminUnfreezeStep(s, key, signer)
    case UnfreezeProtocolState(_) => UnfreezeProtocolStateStep(s)
    case TriggerRiskCheck(key, signer, isSafe) => TriggerRiskCheckStep(s, key, signer, isSafe)
  }

  function ApplyLending(s: State, clock: Clock, instruction: LendingInstruction): Result<Commit> {
    match instruction
    case Borrow(key, signer, amount, feed) => BorrowStep(s, clock, key, signer, amount, feed)
    case Repay(key, signer, amount, wallet) => RepayStep(s, clock, key, signer, amount, wallet)
    case Liquidate(key, signer, feed, wallet, lamports) => LiquidateStep(s, clock, key, signer, feed, wallet, lamports)
  }

  function ApplyBtcCustody(s: State, clock: Clock, instruction: BtcCustodyInstruction): Result<Commit> {
    match instruction
    case RegisterBtcVault(signer, ikaDwallet, pubkey, address) =>
      RegisterBtcVaultStep(s, signer, ikaDwallet, pubkey, address)
    case AttestBtcBalance(key, signer, satoshis, height) =>
      AttestBtcBalanceStep(s, clock, key, signer, satoshis, height)
    case VerifyBtcCustodyProof(key, signer, approval) => VerifyBtcCustodyProofStep(s, clock.now, key, signer, approval)
    case RefreshBtcCustodyProof(key, signer, approval) =>
      RefreshBtcCustodyProofStep(s, clock.now, key, signer, approval)
  }

  function ApplyBtcLending(s: State, clock: Clock, instruction: BtcLendingInstruction): Result<Commit> {
    match instruction
    case BorrowBtc(key, signer, amount, feed) => BorrowBtcStep(s, clock, key, signer, amount, feed)
    case RepayBtc(key, signer, amount, wallet) => RepayBtcStep(s, clock, key, signer, amount, wallet)
    case LiquidateBtc(key, signer, feed, wallet, dwallet, sighash, cpiAccepted) =>
      LiquidateBtcStep(s, clock, key, signer, feed, wallet, dwallet, sighash, cpiAccepted)
    case FinalizeBtcLiquidation(key, signer, height, confirmations, remaining) =>
      FinalizeBtcLiquidationStep(s, clock, key, signer, height, confirmations, remaining)
  }

  function Apply(s: State, tx: Transaction): Result<Commit> {
    match tx.instruction
    case Custody(instruction) => ApplyCustody(s, tx.clock.now, instruction)
    case Breaker(instruction) => ApplyBreaker(s, instruction)
    case Lending(instruction) => ApplyLending(s, tx.clock, instruction)
    case BtcCustody(instruction) => ApplyBtcCustody(s, tx.clock, instruction)
    case BtcLending(instruction) => ApplyBtcLending(s, tx.clock, instruction)
  }

  /** The accounts after an instruction: those it commits, or all as they were. */
  function Outcome(s: State, r: Result<Commit>): State {
    match r
    case Ok(commit) => commit.state
    case Err(_) => s
  }

  function Next(s: State, tx: Transaction): State {
    Outcome(s, Apply(s, tx))
  }
}
