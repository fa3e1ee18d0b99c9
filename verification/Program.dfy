/**
 The instruction handlers as they run: accounts are loaded into working copies, changed field by field and
 stored at the end, so that a handler that fails on the way stores nothing.
 */
module Program {
  import opened Prelude
  import opened Approvals
  import opened Pricing
  import opened Interest
  import opened Loans
  import opened Accounts
  import opened Steps

  /** A SOL-path vault account in memory. */
  class VaultAccount {
    const owner: Key
    const dwalletId: Bytes32
    const assetType: AssetType
    var deposited: u64
    var proofStatus: ProofStatus
    var proofTimestamp: i64
    var frozen: bool

    constructor (account: Vault)
      ensures View() == account
    {
      owner, dwalletId, assetType := account.owner, account.dwalletId, account.assetType;
      deposited, proofStatus := account.deposited, account.proofStatus;
      proofTimestamp, frozen := account.proofTimestamp, account.frozen;
    }

    function View(): Vault
      reads this
    {
      Vault(owner, dwalletId, assetType, deposited, proofStatus, proofTimestamp, frozen)
    }
  }

  /** A Bitcoin vault account in memory. */
  class BtcVaultAccount {
    const owner: Key
    const ikaDwallet: Bytes32
    const bitcoinAddress: seq<u8>
    var depositedSatoshis: u64
    var lastAttestationSlot: u64
    var proofStatus: ProofStatus
    var proofTimestamp: i64
    var frozen: bool
    var liquidationInitiatedAt: i64
    var liquidationSighash: Bytes32

    constructor (account: BtcVault)
      ensures View() == account
    {
      owner, ikaDwallet, bitcoinAddress := account.owner, account.ikaDwallet, account.bitcoinAddress;
      depositedSatoshis, lastAttestationSlot := account.depositedSatoshis, account.lastAttestationSlot;
      proofStatus, proofTimestamp, frozen := account.proofStatus, account.proofTimestamp, account.frozen;
      liquidationInitiatedAt := account.liquidationInitiatedAt;
      liquidationSighash := account.liquidationSighash;
    }

    function View(): BtcVault
      reads this
    {
      BtcVault(owner, ikaDwallet, bitcoinAddress, depositedSatoshis, lastAttestationSlot, proofStatus,
               proofTimestamp, frozen, liquidationInitiatedAt, liquidationSighash)
    }

    method StartLiquidation(now: i64, sighash: Bytes32)
      modifies this
      ensures View() == old(View()).(frozen := true, liquidationInitiatedAt := now, liquidationSighash := sighash)
    {
      frozen := true;
      liquidationInitiatedAt := now;
      liquidationSighash := sighash;
    }

    /** Back to a vault without loan whose custody must be proved again. */
    method EndLiquidation(remaining: u64, slot: u64)
      modifies this
      ensures View() == old(View()).(depositedSatoshis := remaining, lastAttestationSlot := slot,
                                     proofStatus := Pending, proofTimestamp := 0, frozen := false,
                                     liquidationInitiatedAt := 0, liquidationSighash := DefaultKey())
    {
      depositedSatoshis := remaining;
      lastAttestationSlot := slot;
      proofStatus := Pending;
      proofTimestamp := 0;
      frozen := false;
      liquidationInitiatedAt := 0;
      liquidationSighash := DefaultKey();
    }
  }

  /** A loan account in memory. */
  class PositionAccount {
    const owner: Key
    const borrowedAt: i64
    var principal: u64
    var lastUpdatedAt: i64
    var indexSnapshot: u128

    constructor (account: Position)
      ensures View() == account
    {
      owner, borrowedAt, principal := account.owner, account.borrowedAt, account.principal;
      lastUpdatedAt, indexSnapshot := account.lastUpdatedAt, account.indexSnapshot;
    }

    function View(): Position
      reads this
    {
      Position(owner, principal, borrowedAt, lastUpdatedAt, indexSnapshot)
    }

    method Update(left: u64, now: i64, index: u128)
      modifies this
      ensures View() == old(View()).(principal := left, lastUpdatedAt := now, indexSnapshot := index)
    {
      principal := left;
      lastUpdatedAt := now;
      indexSnapshot := index;
    }
  }

  // ---- parts of handlers both paths share ----

  /** Lend an amount out of the pool. */
  method Lend(account: LendingPool, tokens: u64, slot: u64, amount: u64) returns (r: Result<Draw>)
    modifies account
    ensures r == DrawFunds(old(account.View()), tokens, slot, amount)
    ensures r.Ok? ==> account.View() == r.value.pool
  {
    hide Accrued, Debt, Scaled;
    var _ :- account.AccrueInterest(slot);
    var totalDebt :- CurrentDebt(account.totalBorrowed, account.borrowIndex);
    var available :- SubU64(account.totalLiquidity, totalDebt);
    :- Require(amount <= available, InsufficientPoolLiquidity);
    var scaled :- ToScaled(amount, account.borrowIndex);
    account.totalBorrowed :- AddU64(account.totalBorrowed, scaled);
    :- Require(amount <= tokens, InsufficientFunds);
    return Ok(Draw(account.View(), tokens - amount, scaled));
  }

  /** Take a payment on a loan; `all` forgives what the wallet lacks. */
  method Pay(account: LendingPool, position: PositionAccount, tokens: u64, clock: Clock, amount: u64, all: bool,
             wallet: u64) returns (r: Result<Repayment>)
    modifies account, position
    ensures r == PayDown(old(account.View()), tokens, clock.slot, old(position.principal), amount, all, wallet)
    ensures r.Ok? ==> account.View() == r.value.pool
                      && position.View() == old(position.View()).(
                                              principal := r.value.remaining, lastUpdatedAt := clock.now,
                                              indexSnapshot := r.value.pool.borrowIndex)
  {
    hide Accrued, Debt, Scaled;
    var _ :- account.AccrueInterest(clock.slot);
    var outstanding :- CurrentDebt(position.principal, account.borrowIndex);
    :- Require(outstanding > 0, NoOutstandingDebt);
    var paid: u64 := Min(amount, outstanding);
    if all {
      paid := Min(wallet, outstanding);
    }
    :- Require(paid > 0, InvalidRepayAmount);
    var closed := position.principal;
    if !all && paid != outstanding {
      var scaled :- ToScaled(paid, account.borrowIndex);
      closed := Min(scaled, position.principal);
    }
    var received :- ReceiveTokens(tokens, wallet, paid);
    position.Update(position.principal - closed, clock.now, account.borrowIndex);
    account.totalBorrowed :- SubU64(account.totalBorrowed, closed);
    return Ok(Repayment(account.View(), received, paid, position.principal));
  }

  /** Let a liquidator pay an unhealthy loan off. */
  method Settle(account: LendingPool, tokens: u64, principal: u64, collateral: u64, feed: Feed, coin: Coin,
                wallet: u64) returns (r: Result<Payoff>)
    ensures r == PayOff(tokens, account.View(), principal, collateral, feed, coin, wallet)
  {
    hide Debt, ClientIsLiquidatable;
    var outstanding :- CurrentDebt(principal, account.borrowIndex);
    var unhealthy := IsLiquidatable(collateral, feed.priceUsd, outstanding, account.thresholdBps, coin);
    :- Require(unhealthy.value, PositionHealthy);
    :- Require(outstanding <= wallet, InsufficientFunds);
    :- Require(tokens + outstanding <= U64_MAX, TokenOverflow);
    return Ok(Payoff(outstanding, tokens + outstanding));
  }

  /** Move collateral lamports from a vault to its liquidator. */
  method MoveCollateral(vault: VaultAccount, bonusBps: u16, lamports: Lamports) returns (r: Result<Seizure>)
    modifies vault
    ensures r == Seize(old(vault.deposited), bonusBps, lamports)
    ensures r.Ok? ==> vault.View() == old(vault.View()).(deposited := r.value.depositedLeft)
  {
    hide WithBonus;
    var seizable :- CollateralWithBonus(vault.deposited, bonusBps);
    var movable: u64 := 0;
    if lamports.rentExemptMinimum <= lamports.vault {
      movable := lamports.vault - lamports.rentExemptMinimum;
    }
    var seized: u64 := Min(seizable, movable);
    :- Require(seized > 0, InsufficientCollateralLamports);
    var vaultLamports: u64 := lamports.vault - seized;
    var liquidatorLamports :- AddU64(lamports.liquidator, seized);
    vault.deposited :- SubU64(vault.deposited, seized);
    return Ok(Seizure(seized, vault.deposited, Lamports(vaultLamports, liquidatorLamports,
              lamports.rentExemptMinimum)));
  }

  /** A handler returned what the step says: its event and its accounts, or its error and no change. */
  predicate Does(before: State, step: Result<Commit>, r: Result<Event>, after: State) {
    match step
    case Ok(commit) => r == Ok(commit.event) && after == commit.state
    case Err(e) => r == Err(e) && after == before
  }

  /** The deployed program and its stored accounts. */
  class Store {
    var pool: Pool
    var protocol: Protocol
    var poolTokens: u64
    var vaults: map<VaultKey, Vault>
    var positions: map<VaultKey, Position>
    var btcVaults: map<VaultKey, BtcVault>
    var attestations: map<VaultKey, Attestation>
    var btcPositions: map<VaultKey, Position>

    constructor (s: State)
      ensures Snapshot() == s
    {
      pool, protocol, poolTokens := s.pool, s.protocol, s.poolTokens;
      vaults, positions := s.vaults, s.positions;
      btcVaults, attestations, btcPositions := s.btcVaults, s.attestations, s.btcPositions;
    }

    function Snapshot(): State
      reads this
    {
      State(pool, protocol, poolTokens, vaults, positions, btcVaults, attestations, btcPositions)
    }

    // ---- SOL-path vaults ----

    method RegisterVault(signer: Key, dwalletId: Bytes32, assetType: AssetType) returns (r: Result<Event>)
      modifies this`vaults, this`protocol
      ensures Does(old(Snapshot()), RegisterVaultStep(old(Snapshot()), signer, dwalletId, assetType), r, Snapshot())
    {
      var key := VaultKey(signer, dwalletId);
      :- Require(key !in vaults, AccountInUse);
      var total :- AddU64(protocol.totalVaults, 1);
      vaults := vaults[key := Vault(signer, dwalletId, assetType, 0, Pending, 0, false)];
      protocol := protocol.(totalVaults := total);
      return Ok(Done);
    }

    method CloseVault(key: VaultKey, signer: Key) returns (r: Result<Event>)
      modifies this`vaults
      ensures Does(old(Snapshot()), CloseVaultStep(old(Snapshot()), key, signer), r, Snapshot())
    {
      if key !in vaults {
        return Err(AccountNotInitialized);
      }
      :- Require(vaults[key].owner == signer, UnauthorizedCaller);
      :- Require(vaults[key].deposited == 0, InvalidWithdrawalAmount);
      vaults := vaults - {key};
      return Ok(Done);
    }

    method VerifyCustodyProof(now: i64, key: VaultKey, signer: Key, expected: Bytes32, approvalKey: Key,
                              approval: seq<u8>) returns (r: Result<Event>)
      modifies this`vaults
      ensures Does(old(Snapshot()),
                   VerifyCustodyProofStep(old(Snapshot()), now, key, signer, expected, approvalKey, approval),
                   r, Snapshot())
    {
      hide ParseMessageApproval;
      :- Require(key in vaults, AccountNotInitialized);
      var vault := new VaultAccount(vaults[key]);
      :- Require(vault.proofStatus == Pending || vault.proofStatus == Expired, VaultAlreadyVerified);
      :- Require(vault.dwalletId == expected, DWalletMismatch);
      :- Require(vault.owner == signer, UnauthorizedCaller);
      :- Require(approvalKey != DefaultKey(), InvalidMessageApproval);
      var _ :- ParseMessageApproval(approval, expected, now);
      vault.proofStatus := Verified;
      vault.proofTimestamp := now;
      vaults := vaults[key := vault.View()];
      return Ok(Done);
    }

    method RefreshCustodyProof(now: i64, key: VaultKey, signer: Key, expected: Bytes32, approvalKey: Key,
                               approval: seq<u8>) returns (r: Result<Event>)
      modifies this`vaults
      ensures Does(old(Snapshot()),
                   RefreshCustodyProofStep(old(Snapshot()), now, key, signer, expected, approvalKey, approval),
                   r, Snapshot())
    {
      hide ParseMessageApproval;
      :- Require(key in vaults, AccountNotInitialized);
      var vault := new VaultAccount(vaults[key]);
      :- Require(vault.proofStatus == Verified, VaultNotVerified);
      :- Require(vault.dwalletId == expected, DWalletMismatch);
      :- Require(vault.owner == signer, UnauthorizedCaller);
      :- Require(approvalKey != DefaultKey(), InvalidMessageApproval);
      var age :- MinusI64(now, vault.proofTimestamp);
      :- Require(age <= PROOF_EXPIRY_SECONDS, ProofExpired);
      var _ :- ParseMessageApproval(approval, expected, now);
      vault.proofTimestamp := now;
      vaults := vaults[key := vault.View()];
      return Ok(Done);
    }

    method DepositCollateral(now: i64, key: VaultKey, signer: Key, amount: u64) returns (r: Result<Event>)
      modifies this`vaults, this`protocol
      ensures Does(old(Snapshot()), DepositCollateralStep(old(Snapshot()), now, key, signer, amount), r, Snapshot())
    {
      if key !in vaults {
        return Err(AccountNotInitialized);
      }
      var vault := new VaultAccount(vaults[key]);
      :- Require(vault.owner == signer, UnauthorizedCaller);
      :- Require(vault.proofStatus == Verified, VaultNotVerified);
      :- Require(!protocol.frozen, ProtocolFrozen);
      :- Require(!vault.frozen, VaultFrozen);
      :- Require(amount > 0, InvalidDepositAmount);
      var age :- MinusI64(now, vault.proofTimestamp);
      :- Require(age <= PROOF_EXPIRY_SECONDS, ProofExpired);
      vault.deposited :- AddU64(vault.deposited, amount);
      var total :- Plus(Ok(protocol.totalCollateral), amount);
      protocol := protocol.(totalCollateral := total);
      vaults := vaults[key := vault.View()];
      return Ok(Done);
    }

    method WithdrawCollateral(key: VaultKey, signer: Key, amount: u64) returns (r: Result<Event>)
      modifies this`vaults, this`protocol
      ensures Does(old(Snapshot()), WithdrawCollateralStep(old(Snapshot()), key, signer, amount), r, Snapshot())
    {
      if key !in vaults {
        return Err(AccountNotInitialized);
      }
      var vault := new VaultAccount(vaults[key]);
      :- Require(vault.owner == signer, UnauthorizedCaller);
      :- Require(!protocol.frozen, ProtocolFrozen);
      :- Require(amount > 0, InvalidWithdrawalAmount);
      :- Require(amount <= vault.deposited, InvalidWithdrawalAmount);
      vault.deposited := vault.deposited - amount;
      :- Require(amount <= protocol.totalCollateral, ArithmeticOverflow);
      protocol := protocol.(totalCollateral := protocol.totalCollateral - amount);
      vaults := vaults[key := vault.View()];
      return Ok(Done);
    }

    // ---- circuit breaker ----

    method CircuitBreakerFreeze(key: VaultKey, signer: Key) returns (r: Result<Event>)
      modifies this`vaults, this`protocol
      ensures Does(old(Snapshot()), CircuitBreakerFreezeStep(old(Snapshot()), key, signer), r, Snapshot())
    {
      if key !in vaults {
        return Err(AccountNotInitialized);
      }
      :- Require(protocol.admin == signer, UnauthorizedCaller);
      var vault := new VaultAccount(vaults[key]);
      vault.frozen := true;
      vaults := vaults[key := vault.View()];
      protocol := protocol.(frozen := true);
      return Ok(Done);
    }

    method AdminUnfreeze(key: VaultKey, signer: Key) returns (r: Result<Event>)
      modifies this`vaults
      ensures Does(old(Snapshot()), AdminUnfreezeStep(old(Snapshot()), key, signer), r, Snapshot())
    {
      if key !in vaults {
        return Err(AccountNotInitialized);
      }
      :- Require(protocol.admin == signer, UnauthorizedCaller);
      var vault := new VaultAccount(vaults[key]);
      vault.frozen := false;
      vaults := vaults[key := vault.View()];
      return Ok(Done);
    }

    method UnfreezeProtocolState() returns (r: Result<Event>)
      modifies this`protocol
      ensures Does(old(Snapshot()), UnfreezeProtocolStateStep(old(Snapshot())), r, Snapshot())
    {
      protocol := protocol.(frozen := false);
      return Ok(Done);
    }

    method TriggerRiskCheck(key: VaultKey, signer: Key, isSafe: bool) returns (r: Result<Event>)
      modifies this`vaults, this`protocol
      ensures Does(old(Snapshot()), TriggerRiskCheckStep(old(Snapshot()), key, signer, isSafe), r, Snapshot())
    {
      if key !in vaults {
        return Err(AccountNotInitialized);
      }
      var vault := new VaultAccount(vaults[key]);
      :- Require(protocol.admin == signer || vault.owner == signer, UnauthorizedCaller);
      if !isSafe {
        vault.frozen := true;
        protocol := protocol.(frozen := true);
      }
      vaults := vaults[key := vault.View()];
      return Ok(Done);
    }

    // ---- SOL-path loans ----

    method Borrow(clock: Clock, key: VaultKey, signer: Key, amount: u64, feed: Feed) returns (r: Result<Event>)
      modifies this`pool, this`poolTokens, this`positions
      ensures Does(old(Snapshot()), BorrowStep(old(Snapshot()), clock, key, signer, amount, feed), r, Snapshot())
    {
      hide BorrowLimit, DrawFunds;
      :- Require(key in vaults, AccountNotInitialized);
      var vault := vaults[key];
      :- Require(vault.owner == signer, UnauthorizedCaller);
      :- Require(key !in positions, AccountInUse);
      :- Require(amount > 0, InvalidBorrowAmount);
      :- Require(!protocol.frozen, ProtocolFrozen);
      :- Require(!vault.frozen, VaultFrozen);
      :- Require(vault.proofStatus == Verified, VaultNotVerified);
      :- Require(vault.deposited > 0, InsufficientCollateral);
      :- FreshGuard(clock.now, vault.proofTimestamp, PROOF_EXPIRY_SECONDS, ProofExpired);
      :- FreshGuard(clock.now, feed.updatedAt, PRICE_STALENESS_SECONDS, PriceFeedStale);
      var maxBorrow :- CalculateMaxBorrow(vault.deposited, feed.priceUsd, pool.ltvBps, COLLATERAL_ONE);
      :- Require(amount <= maxBorrow, BorrowExceedsCollateralLtv);

      var account := new LendingPool(pool);
      var draw :- Lend(account, poolTokens, clock.slot, amount);
      positions := positions[key := Position(signer, draw.principal, clock.now, clock.now, account.borrowIndex)];
      poolTokens := draw.tokens;
      pool := account.View();
      return Ok(BorrowOpened(amount, draw.principal));
    }

    method Repay(clock: Clock, key: VaultKey, signer: Key, amount: u64, wallet: u64) returns (r: Result<Event>)
      modifies this`pool, this`poolTokens, this`positions
      ensures Does(old(Snapshot()), RepayStep(old(Snapshot()), clock, key, signer, amount, wallet), r, Snapshot())
    {
      hide PayDown;
      :- Require(key in vaults, AccountNotInitialized);
      :- Require(vaults[key].owner == signer, UnauthorizedCaller);
      :- Require(key in positions, AccountNotInitialized);
      var position := new PositionAccount(positions[key]);
      :- Require(position.owner == signer, UnauthorizedCaller);
      :- Require(amount > 0, InvalidRepayAmount);

      var account := new LendingPool(pool);
      var payment :- Pay(account, position, poolTokens, clock, amount, false, wallet);
      pool := account.View();
      poolTokens := payment.tokens;
      if position.principal == 0 {
        positions := positions - {key};
      } else {
        positions := positions[key := position.View()];
      }
      return Ok(BorrowRepaid(payment.paid, position.principal));
    }

    method StoreLiquidation(key: VaultKey, account: LendingPool, vault: VaultAccount, tokens: u64)
      requires key in vaults && vault.View() == vaults[key].(deposited := vault.deposited)
      modifies this`pool, this`poolTokens, this`vaults, this`positions, vault
      ensures Snapshot() == WithLiquidation(old(Snapshot()), key, account.View(), tokens, old(vault.deposited))
    {
      vault.proofStatus := Pending;
      pool, poolTokens := account.View(), tokens;
      vaults, positions := vaults[key := vault.View()], positions - {key};
    }

    method Liquidate(clock: Clock, key: VaultKey, signer: Key, feed: Feed, wallet: u64, lamports: Lamports)
      returns (r: Result<Event>)
      modifies this`pool, this`poolTokens, this`vaults, this`positions
      ensures Does(old(Snapshot()),
                   LiquidateStep(old(Snapshot()), clock, key, signer, feed, wallet, lamports), r, Snapshot())
    {
      hide Accrued, FreshGuard, PayOff, Seize, WithLiquidation;
      :- Require(key in vaults && key in positions, AccountNotInitialized);
      var vault := new VaultAccount(vaults[key]);
      var position := positions[key];
      var account := new LendingPool(pool);
      var _ :- account.AccrueInterest(clock.slot);
      :- Require(!protocol.frozen, ProtocolFrozen);
      :- Require(position.principal > 0, NoOutstandingDebt);
      :- Require(position.owner != signer, SelfLiquidation);
      :- FreshGuard(clock.now, feed.updatedAt, PRICE_STALENESS_SECONDS, PriceFeedStale);
      var payoff :- Settle(account, poolTokens, position.principal, vault.deposited, feed, COLLATERAL_ONE, wallet);
      var seizure :- MoveCollateral(vault, account.bonusBps, lamports);
      account.totalBorrowed :- SubU64(account.totalBorrowed, position.principal);
      StoreLiquidation(key, account, vault, payoff.tokens);
      return Ok(PositionLiquidated(payoff.repaid, seizure.seized, seizure.lamports));
    }

    // ---- Bitcoin path ----

    method RegisterBtcVault(signer: Key, ikaDwallet: Bytes32, dwalletPubkey: seq<u8>, bitcoinAddress: seq<u8>)
      returns (r: Result<Event>)
      modifies this`btcVaults, this`attestations, this`protocol
      ensures Does(old(Snapshot()),
                   RegisterBtcVaultStep(old(Snapshot()), signer, ikaDwallet, dwalletPubkey, bitcoinAddress),
                   r, Snapshot())
    {
      hide ValidBitcoinAddress;
      var key := VaultKey(signer, ikaDwallet);
      :- Require(key !in btcVaults && key !in attestations, AccountInUse);
      :- Require(ValidBitcoinAddress(bitcoinAddress), InvalidBitcoinAddress);
      :- Require(|dwalletPubkey| == 33 && (dwalletPubkey[0] == 2 || dwalletPubkey[0] == 3), InvalidDwalletPubkey);
      var total :- AddU64(protocol.totalVaults, 1);
      btcVaults := btcVaults[key := BtcVault(signer, ikaDwallet, bitcoinAddress, 0, 0, Pending, 0, false, 0,
                                             DefaultKey())];
      attestations := attestations[key := Attestation(bitcoinAddress, 0, 0, 0, 0, DefaultKey())];
      protocol := protocol.(totalVaults := total);
      return Ok(Done);
    }

    method AttestBtcBalance(clock: Clock, key: VaultKey, signer: Key, satoshis: u64, blockHeight: u64)
      returns (r: Result<Event>)
      modifies this`btcVaults, this`attestations
      ensures Does(old(Snapshot()),
                   AttestBtcBalanceStep(old(Snapshot()), clock, key, signer, satoshis, blockHeight), r, Snapshot())
    {
      if !(key in btcVaults && key in attestations) {
        return Err(AccountNotInitialized);
      }
      :- Require(signer == protocol.admin, KeeperNotAuthorised);
      var vault := new BtcVaultAccount(btcVaults[key]);
      var attestation := attestations[key];
      :- Require(attestation.bitcoinAddress == vault.bitcoinAddress, BitcoinAttestationMismatch);
      attestations := attestations[key := attestation.(satoshis := satoshis, blockHeight := blockHeight,
                                     attestedAtSlot := clock.slot, attestedAt := clock.now, keeper := signer)];
      vault.depositedSatoshis := satoshis;
      vault.lastAttestationSlot := clock.slot;
      btcVaults := btcVaults[key := vault.View()];
      return Ok(Done);
    }

    method VerifyBtcCustodyProof(now: i64, key: VaultKey, signer: Key, approval: seq<u8>) returns (r: Result<Event>)
      modifies this`btcVaults
      ensures Does(old(Snapshot()),
                   VerifyBtcCustodyProofStep(old(Snapshot()), now, key, signer, approval), r, Snapshot())
    {
      hide ParseForBtcDwallet;
      :- Require(key in btcVaults, AccountNotInitialized);
      var vault := new BtcVaultAccount(btcVaults[key]);
      :- Require(vault.owner == signer, UnauthorizedCaller);
      :- Require(vault.proofStatus == Pending || vault.proofStatus == Expired, VaultAlreadyVerified);
      var _ :- ParseForBtcDwallet(approval, vault.ikaDwallet, now);
      vault.proofStatus := Verified;
      vault.proofTimestamp := now;
      btcVaults := btcVaults[key := vault.View()];
      return Ok(Done);
    }

    method RefreshBtcCustodyProof(now: i64, key: VaultKey, signer: Key, approval: seq<u8>) returns (r: Result<Event>)
      modifies this`btcVaults
      ensures Does(old(Snapshot()),
                   RefreshBtcCustodyProofStep(old(Snapshot()), now, key, signer, approval), r, Snapshot())
    {
      hide ParseForBtcDwallet;
      :- Require(key in btcVaults, AccountNotInitialized);
      var vault := new BtcVaultAccount(btcVaults[key]);
      :- Require(vault.owner == signer, UnauthorizedCaller);
      :- Require(vault.proofStatus == Verified, BtcVaultNotVerified);
      var _ :- ParseForBtcDwallet(approval, vault.ikaDwallet, now);
      vault.proofTimestamp := now;
      btcVaults := btcVaults[key := vault.View()];
      return Ok(Done);
    }

    method BorrowBtc(clock: Clock, key: VaultKey, signer: Key, amount: u64, feed: Feed) returns (r: Result<Event>)
      modifies this`pool, this`poolTokens, this`btcPositions
      ensures Does(old(Snapshot()), BorrowBtcStep(old(Snapshot()), clock, key, signer, amount, feed), r, Snapshot())
    {
      hide BorrowLimit, DrawFunds;
      :- Require(key in btcVaults, AccountNotInitialized);
      var vault := btcVaults[key];
      :- Require(vault.owner == signer, UnauthorizedCaller);
      :- Require(key in attestations, AccountNotInitialized);
      :- Require(key !in btcPositions, AccountInUse);
      var attestation := attestations[key];
      :- Require(amount > 0, InvalidBorrowAmount);
      :- Require(!protocol.frozen, ProtocolFrozen);
      :- Require(!vault.frozen, BtcVaultFrozen);
      :- Require(vault.liquidationInitiatedAt == 0, BtcLiquidationAlreadyInitiated);
      :- Require(vault.proofStatus == Verified, BtcVaultNotVerified);
      :- Require(attestation.satoshis > 0, InsufficientBtcCollateral);
      :- FreshGuard(clock.now, vault.proofTimestamp, PROOF_EXPIRY_SECONDS, ProofExpired);
      :- FreshGuard(clock.now, attestation.attestedAt, BTC_ATTESTATION_MAX_AGE_SECONDS, BitcoinAttestationStale);
      :- FreshGuard(clock.now, feed.updatedAt, PRICE_STALENESS_SECONDS, PriceFeedStale);
      var maxBorrow :- CalculateMaxBorrow(attestation.satoshis, feed.priceUsd, pool.ltvBps, SATOSHIS_PER_BTC);
      :- Require(amount <= maxBorrow, BorrowExceedsCollateralLtv);

      var account := new LendingPool(pool);
      var draw :- Lend(account, poolTokens, clock.slot, amount);
      btcPositions := btcPositions[key := Position(signer, draw.principal, clock.now, clock.now, account.borrowIndex)];
      poolTokens := draw.tokens;
      pool := account.View();
      return Ok(BorrowOpened(amount, draw.principal));
    }

    method RepayBtc(clock: Clock, key: VaultKey, signer: Key, amount: u64, wallet: u64) returns (r: Result<Event>)
      modifies this`pool, this`poolTokens, this`btcPositions
      ensures Does(old(Snapshot()), RepayBtcStep(old(Snapshot()), clock, key, signer, amount, wallet), r, Snapshot())
    {
      hide PayDown;
      :- Require(key in btcVaults, AccountNotInitialized);
      :- Require(btcVaults[key].owner == signer, UnauthorizedCaller);
      :- Require(key in btcPositions, AccountNotInitialized);
      var position := new PositionAccount(btcPositions[key]);
      :- Require(position.owner == signer, UnauthorizedCaller);
      :- Require(amount > 0, InvalidRepayAmount);

      var account := new LendingPool(pool);
      var payment :- Pay(account, position, poolTokens, clock, amount, amount == U64_MAX, wallet);
      pool := account.View();
      poolTokens := payment.tokens;
      if position.principal == 0 {
        btcPositions := btcPositions - {key};
      } else {
        btcPositions := btcPositions[key := position.View()];
      }
      return Ok(BorrowRepaid(payment.paid, position.principal));
    }

    method StoreBtcLiquidation(now: i64, key: VaultKey, account: LendingPool, tokens: u64, sighash: Bytes32)
      requires key in btcVaults && key in btcPositions
      modifies this`pool, this`poolTokens, this`btcVaults, this`btcPositions
      ensures Snapshot() == WithBtcLiquidation(old(Snapshot()), now, key, account.View(), tokens, sighash)
    {
      var position := new PositionAccount(btcPositions[key]);
      position.Update(0, now, account.borrowIndex);
      var vault := new BtcVaultAccount(btcVaults[key]);
      vault.StartLiquidation(now, sighash);
      pool, poolTokens := account.View(), tokens;
      btcVaults, btcPositions := btcVaults[key := vault.View()], btcPositions[key := position.View()];
    }

    method LiquidateBtc(clock: Clock, key: VaultKey, signer: Key, feed: Feed, wallet: u64, dwallet: Key,
                        sighash: Bytes32, cpiAccepted: bool) returns (r: Result<Event>)
      modifies this`pool, this`poolTokens, this`btcVaults, this`btcPositions
      ensures Does(old(Snapshot()),
                   LiquidateBtcStep(old(Snapshot()), clock, key, signer, feed, wallet, dwallet, sighash, cpiAccepted),
                   r, Snapshot())
    {
      hide Accrued, FreshGuard, PayOff, DebtToSatoshisWithBonus, SatoshisWithBonus, Fit64,
        WithBtcLiquidation;
      :- Require(key in btcVaults && key in attestations && key in btcPositions, AccountNotInitialized);
      var vault, attestation, position := btcVaults[key], attestations[key], btcPositions[key];
      :- Require(dwallet == vault.ikaDwallet, DWalletMismatch);
      var account := new LendingPool(pool);
      var _ :- account.AccrueInterest(clock.slot);
      :- Require(!protocol.frozen, ProtocolFrozen);
      :- Require(position.principal > 0, NoOutstandingDebt);
      :- Require(position.owner != signer, SelfLiquidation);
      :- Require(vault.liquidationInitiatedAt == 0, BtcLiquidationAlreadyInitiated);
      :- FreshGuard(clock.now, attestation.attestedAt, BTC_ATTESTATION_MAX_AGE_SECONDS, BitcoinAttestationStale);
      :- FreshGuard(clock.now, feed.updatedAt, PRICE_STALENESS_SECONDS, PriceFeedStale);
      var payoff :- Settle(account, poolTokens, position.principal, attestation.satoshis, feed, SATOSHIS_PER_BTC,
                           wallet);
      var worth :- DebtToSatoshisWithBonus(payoff.repaid, feed.priceUsd, account.bonusBps);
      :- Require(cpiAccepted, CpiFailed);
      account.totalBorrowed :- SubU64(account.totalBorrowed, position.principal);
      StoreBtcLiquidation(clock.now, key, account, payoff.tokens, sighash);
      return Ok(BtcLiquidationInitiated(payoff.repaid, Min(worth, attestation.satoshis)));
    }

    method FinalizeBtcLiquidation(clock: Clock, key: VaultKey, signer: Key, blockHeight: u64, confirmations: u32,
                                  remaining: u64) returns (r: Result<Event>)
      modifies this`btcVaults, this`attestations, this`btcPositions
      ensures Does(old(Snapshot()),
                   FinalizeBtcLiquidationStep(old(Snapshot()), clock, key, signer, blockHeight, confirmations,
                                              remaining),
                   r, Snapshot())
    {
      hide DefaultKey;
      :- Require(key in btcVaults && key in attestations && key in btcPositions, AccountNotInitialized);
      var vault := new BtcVaultAccount(btcVaults[key]);
      :- Require(signer == protocol.admin, KeeperNotAuthorised);
      :- Require(vault.liquidationInitiatedAt > 0, BtcLiquidationNotInitiated);
      :- Require(confirmations >= BTC_LIQUIDATION_MIN_CONFIRMATIONS, BitcoinConfirmationsInsufficient);
      :- Require(btcPositions[key].principal == 0, OutstandingDebt);
      vault.EndLiquidation(remaining, clock.slot);
      btcVaults := btcVaults[key := vault.View()];
      attestations := attestations[key := attestations[key].(satoshis := remaining, blockHeight := blockHeight,
                                     attestedAtSlot := clock.slot, attestedAt := clock.now, keeper := signer)];
      btcPositions := btcPositions - {key};
      return Ok(Done);
    }

    // ---- transactions ----

    method ExecuteCustody(now: i64, instruction: CustodyInstruction) returns (r: Result<Event>)
      modifies this
      ensures Does(old(Snapshot()), ApplyCustody(old(Snapshot()), now, instruction), r, Snapshot())
    {
      hide RegisterVaultStep, CloseVaultStep, VerifyCustodyProofStep, RefreshCustodyProofStep, DepositCollateralStep,
        WithdrawCollateralStep;
      match instruction
      case RegisterVault(signer, dwalletId, assetType) => r := RegisterVault(signer, dwalletId, assetType);
      case CloseVault(key, signer) => r := CloseVault(key, signer);
      case VerifyCustodyProof(key, signer, expected, approvalKey, approval) =>
        r := VerifyCustodyProof(now, key, signer, expected, approvalKey, approval);
      case RefreshCustodyProof(key, signer, expected, approvalKey, approval) =>
        r := RefreshCustodyProof(now, key, signer, expected, approvalKey, approval);
      case DepositCollateral(key, signer, amount) => r := DepositCollateral(now, key, signer, amount);
      case WithdrawCollateral(key, signer, amount) => r := WithdrawCollateral(key, signer, amount);
    }

    method ExecuteBreaker(instruction: BreakerInstruction) returns (r: Result<Event>)
      modifies this
      ensures Does(old(Snapshot()), ApplyBreaker(old(Snapshot()), instruction), r, Snapshot())
    {
      hide CircuitBreakerFreezeStep, AdminUnfreezeStep, UnfreezeProtocolStateStep, TriggerRiskCheckStep;
      match instruction
      case CircuitBreakerFreeze(key, signer) => r := CircuitBreakerFreeze(key, signer);
      case AdminUnfreeze(key, signer) => r := AdminUnfreeze(key, signer);
      case UnfreezeProtocolState(_) => r := UnfreezeProtocolState();
      case TriggerRiskCheck(key, signer, isSafe) => r := TriggerRiskCheck(key, signer, isSafe);
    }

    method ExecuteLending(clock: Clock, instruction: LendingInstruction) returns (r: Result<Event>)
      modifies this
      ensures Does(old(Snapshot()), ApplyLending(old(Snapshot()), clock, instruction), r, Snapshot())
    {
      hide BorrowStep, RepayStep, LiquidateStep;
      match instruction
      case Borrow(key, signer, amount, feed) => r := Borrow(clock, key, signer, amount, feed);
      case Repay(key, signer, amount, wallet) => r := Repay(clock, key, signer, amount, wallet);
      case Liquidate(key, signer, feed, wallet, lamports) => r := Liquidate(clock, key, signer, feed, wallet, lamports);
    }

    method ExecuteBtcCustody(clock: Clock, instruction: BtcCustodyInstruction) returns (r: Result<Event>)
      modifies this
      ensures Does(old(Snapshot()), ApplyBtcCustody(old(Snapshot()), clock, instruction), r, Snapshot())
    {
      hide RegisterBtcVaultStep, AttestBtcBalanceStep, VerifyBtcCustodyProofStep, RefreshBtcCustodyProofStep;
      match instruction
      case RegisterBtcVault(signer, ikaDwallet, pubkey, address) =>
        r := RegisterBtcVault(signer, ikaDwallet, pubkey, address);
      case AttestBtcBalance(key, signer, satoshis, height) =>
        r := AttestBtcBalance(clock, key, signer, satoshis, height);
      case VerifyBtcCustodyProof(key, signer, approval) => r := VerifyBtcCustodyProof(clock.now, key, signer, approval);
      case RefreshBtcCustodyProof(key, signer, approval) =>
        r := RefreshBtcCustodyProof(clock.now, key, signer, approval);
    }

    method ExecuteBtcLending(clock: Clock, instruction: BtcLendingInstruction) returns (r: Result<Event>)
      modifies this
      ensures Does(old(Snapshot()), ApplyBtcLending(old(Snapshot()), clock, instruction), r, Snapshot())
    {
      hide BorrowBtcStep, RepayBtcStep, LiquidateBtcStep, FinalizeBtcLiquidationStep;
      match instruction
      case BorrowBtc(key, signer, amount, feed) => r := BorrowBtc(clock, key, signer, amount, feed);
      case RepayBtc(key, signer, amount, wallet) => r := RepayBtc(clock, key, signer, amount, wallet);
      case LiquidateBtc(key, signer, feed, wallet, dwallet, sighash, cpiAccepted) =>
        r := LiquidateBtc(clock, key, signer, feed, wallet, dwallet, sighash, cpiAccepted);
      case FinalizeBtcLiquidation(key, signer, height, confirmations, remaining) =>
        r := FinalizeBtcLiquidation(clock, key, signer, height, confirmations, remaining);
    }

    /** Run a transaction: whatever the steps are proved to do, the handlers do to the stored accounts. */
    method Execute(tx: Transaction) returns (r: Result<Event>)
      modifies this
      ensures Does(old(Snapshot()), Apply(old(Snapshot()), tx), r, Snapshot())
      ensures Snapshot() == Next(old(Snapshot()), tx)
    {
      hide ApplyCustody, ApplyBreaker, ApplyLending, ApplyBtcCustody, ApplyBtcLending;
      match tx.instruction
      case Custody(instruction) => r := ExecuteCustody(tx.clock.now, instruction);
      case Breaker(instruction) => r := ExecuteBreaker(instruction);
      case Lending(instruction) => r := ExecuteLending(tx.clock, instruction);
      case BtcCustody(instruction) => r := ExecuteBtcCustody(tx.clock, instruction);
      case BtcLending(instruction) => r := ExecuteBtcLending(tx.clock, instruction);
    }
  }
}
