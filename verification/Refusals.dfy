/**
 Which error every instruction fails with: its checks as a table, in the order in which they decide. A transaction
 that passes them all commits.
 */
module Refusals {
  import opened Prelude
  import opened Approvals
  import opened Pricing
  import opened Interest
  import opened Loans
  import opened Accounts
  import opened Steps
  import opened Invariants
  import opened LoanLaws
  import opened Liquidations

  /** How an instruction ended. */
  function Verdict<T>(r: Result<T>): Check {
    match r
    case Ok(_) => Pass
    case Err(e) => Fail(e)
  }

  // Accounts by their key; where there is none an empty one stands in, which no later check is asked about.

  function VaultAt(s: State, key: VaultKey): Vault {
    if key in s.vaults then s.vaults[key] else Vault(DefaultKey(), DefaultKey(), Sol, 0, Pending, 0, false)
  }

  function BtcVaultAt(s: State, key: VaultKey): BtcVault {
    if key in s.btcVaults then s.btcVaults[key]
    else BtcVault(DefaultKey(), DefaultKey(), [], 0, 0, Pending, 0, false, 0, DefaultKey())
  }

  function AttestationAt(s: State, key: VaultKey): Attestation {
    if key in s.attestations then s.attestations[key] else Attestation([], 0, 0, 0, 0, DefaultKey())
  }

  function PositionAt(positions: map<VaultKey, Position>, key: VaultKey): Position {
    if key in positions then positions[key] else Position(DefaultKey(), 0, 0, 0, 0)
  }

  /** The index at a slot. */
  function IndexAt(pool: Pool, slot: u64): nat {
    match Accrued(pool, slot)
    case Ok(p) => p.borrowIndex
    case Err(_) => 0
  }

  /** A timestamp that must not be too old, subtracted with `checked_sub` or, failing differently, plainly. */
  function Aged(since: i64, now: i64, maxAge: nat, noAge: Error, stale: Error): Check {
    Require(-9_223_372_036_854_775_808 <= now - since < 9_223_372_036_854_775_808, noAge)
    .Then(Require(now - since <= maxAge, stale))
  }

  // ---- custody, SOL path ----

  lemma RegisterRefused(s: State, signer: Key, dwalletId: Bytes32, assetType: AssetType)
    ensures Verdict(RegisterVaultStep(s, signer, dwalletId, assetType))
         == Require(VaultKey(signer, dwalletId) !in s.vaults, AccountInUse)
            .Then(Require(s.protocol.totalVaults < U64_MAX, ArithmeticOverflow))
  {
  }

  lemma CloseRefused(s: State, key: VaultKey, signer: Key)
    ensures Verdict(CloseVaultStep(s, key, signer))
         == Require(key in s.vaults, AccountNotInitialized)
            .Then(Require(VaultAt(s, key).owner == signer, UnauthorizedCaller))
            .Then(Require(VaultAt(s, key).deposited == 0, InvalidWithdrawalAmount))
  {
  }

  lemma VerifyRefused(s: State, now: i64, key: VaultKey, signer: Key, expected: Bytes32, approvalKey: Key,
                      approval: seq<u8>)
    ensures Verdict(VerifyCustodyProofStep(s, now, key, signer, expected, approvalKey, approval))
         == Require(key in s.vaults, AccountNotInitialized)
            .Then(Require(VaultAt(s, key).proofStatus != Verified, VaultAlreadyVerified))
            .Then(Require(VaultAt(s, key).dwalletId == expected, DWalletMismatch))
            .Then(Require(VaultAt(s, key).owner == signer, UnauthorizedCaller))
            .Then(Require(approvalKey != DefaultKey(), InvalidMessageApproval))
            .Then(Verdict(ParseMessageApproval(approval, expected, now)))
  {
    hide ParseMessageApproval, DefaultKey;
  }

  lemma RefreshRefused(s: State, now: i64, key: VaultKey, signer: Key, expected: Bytes32, approvalKey: Key,
                       approval: seq<u8>)
    ensures Verdict(RefreshCustodyProofStep(s, now, key, signer, expected, approvalKey, approval))
         == Require(key in s.vaults, AccountNotInitialized)
            .Then(Require(VaultAt(s, key).proofStatus == Verified, VaultNotVerified))
            .Then(Require(VaultAt(s, key).dwalletId == expected, DWalletMismatch))
            .Then(Require(VaultAt(s, key).owner == signer, UnauthorizedCaller))
            .Then(Require(approvalKey != DefaultKey(), InvalidMessageApproval))
            .Then(Aged(VaultAt(s, key).proofTimestamp, now, 600, ArithmeticPanic, ProofExpired))
            .Then(Verdict(ParseMessageApproval(approval, expected, now)))
  {
    hide ParseMessageApproval, DefaultKey;
  }

  lemma DepositRefused(s: State, now: i64, key: VaultKey, signer: Key, amount: u64)
    ensures var vault := VaultAt(s, key);
            Verdict(DepositCollateralStep(s, now, key, signer, amount))
            == Require(key in s.vaults, AccountNotInitialized)
               .Then(Require(vault.owner == signer, UnauthorizedCaller))
               .Then(Require(vault.proofStatus == Verified, VaultNotVerified))
               .Then(Require(!s.protocol.frozen, ProtocolFrozen))
               .Then(Require(!vault.frozen, VaultFrozen))
               .Then(Require(0 < amount, InvalidDepositAmount))
               .Then(Aged(vault.proofTimestamp, now, 600, ArithmeticPanic, ProofExpired))
               .Then(Require(vault.deposited + amount <= U64_MAX, ArithmeticOverflow))
               .Then(Require(s.protocol.totalCollateral + amount < U128_LIMIT, ArithmeticOverflow))
  {
  }

  lemma WithdrawRefused(s: State, key: VaultKey, signer: Key, amount: u64)
    ensures var vault := VaultAt(s, key);
            Verdict(WithdrawCollateralStep(s, key, signer, amount))
            == Require(key in s.vaults, AccountNotInitialized)
               .Then(Require(vault.owner == signer, UnauthorizedCaller))
               .Then(Require(!s.protocol.frozen, ProtocolFrozen))
               .Then(Require(0 < amount <= vault.deposited, InvalidWithdrawalAmount))
               .Then(Require(amount <= s.protocol.totalCollateral, ArithmeticOverflow))
  {
  }

  // ---- circuit breaker ----

  lemma BreakerRefused(s: State, instruction: BreakerInstruction)
    ensures var r := Verdict(ApplyBreaker(s, instruction));
            match instruction
            case UnfreezeProtocolState(_) => r == Pass
            case TriggerRiskCheck(key, signer, _) =>
              r == Require(key in s.vaults, AccountNotInitialized)
                   .Then(Require(signer == s.protocol.admin || signer == VaultAt(s, key).owner, UnauthorizedCaller))
            case _ =>
              r == Require(instruction.key in s.vaults, AccountNotInitialized)
                   .Then(Require(instruction.signer == s.protocol.admin, UnauthorizedCaller))
  {
  }

  // ---- loans ----

  lemma AccruedErrors(pool: Pool, slot: u64)
    ensures Accrued(pool, slot).Err? ==> Accrued(pool, slot) == Err(ArithmeticOverflow)
  {
  }

  /** What the pool asks before it lends. */
  function Lends(account: Pool, tokens: u64, slot: u64, amount: u64): Check {
    var debt := Debt(account.totalBorrowed, IndexAt(account, slot));
    Require(Accrued(account, slot).Ok?, ArithmeticOverflow)
    .Then(Require(debt <= account.totalLiquidity, ArithmeticOverflow))
    .Then(Require(debt + amount <= account.totalLiquidity, InsufficientPoolLiquidity))
    .Then(Require(amount <= tokens, InsufficientFunds))
  }

  lemma DrawRefused(account: Pool, tokens: u64, slot: u64, amount: u64)
    requires RAY <= account.borrowIndex
    ensures Verdict(DrawFunds(account, tokens, slot, amount)) == Lends(account, tokens, slot, amount)
  {
    hide Accrued, Scaled, Debt;
    AccruedErrors(account, slot);
    if Accrued(account, slot).Ok? {
      DebtAtLeastPrincipal(account.totalBorrowed, IndexAt(account, slot));
      ScaledAtMost(amount, IndexAt(account, slot));
    }
  }

  /** What the collateral asks: a limit that fits 64 bits and covers the amount. */
  function Limits(units: u64, price: u64, coin: Coin, ltvBps: u16, amount: u64): Check {
    var limit := BorrowLimit(UsdValue(units, price, coin), ltvBps);
    Require(limit <= U64_MAX, ArithmeticOverflow).Then(Require(amount <= limit, BorrowExceedsCollateralLtv))
  }

  lemma BorrowRefused(s: State, clock: Clock, key: VaultKey, signer: Key, amount: u64, feed: Feed)
    requires Inv(s)
    ensures var vault := VaultAt(s, key);
            Verdict(BorrowStep(s, clock, key, signer, amount, feed))
            == Require(key in s.vaults, AccountNotInitialized)
               .Then(Require(vault.owner == signer, UnauthorizedCaller))
               .Then(Require(key !in s.positions, AccountInUse))
               .Then(Require(0 < amount, InvalidBorrowAmount))
               .Then(Require(!s.protocol.frozen, ProtocolFrozen))
               .Then(Require(!vault.frozen, VaultFrozen))
               .Then(Require(vault.proofStatus == Verified, VaultNotVerified))
               .Then(Require(0 < vault.deposited, InsufficientCollateral))
               .Then(Aged(vault.proofTimestamp, clock.now, 600, InvalidTimestamp, ProofExpired))
               .Then(Aged(feed.updatedAt, clock.now, 3600, InvalidTimestamp, PriceFeedStale))
               .Then(Limits(vault.deposited, feed.priceUsd, COLLATERAL_ONE, s.pool.ltvBps, amount))
               .Then(Lends(s.pool, s.poolTokens, clock.slot, amount))
  {
    hide DrawFunds, Lends, Inv, BorrowLimit, UsdValue;
    InvBoundsPool(s);
    DrawRefused(s.pool, s.poolTokens, clock.slot, amount);
  }

  lemma BorrowBtcRefused(s: State, clock: Clock, key: VaultKey, signer: Key, amount: u64, feed: Feed)
    requires Inv(s)
    ensures var vault, attestation := BtcVaultAt(s, key), AttestationAt(s, key);
            Verdict(BorrowBtcStep(s, clock, key, signer, amount, feed))
            == Require(key in s.btcVaults, AccountNotInitialized)
               .Then(Require(vault.owner == signer, UnauthorizedCaller))
               .Then(Require(key !in s.btcPositions, AccountInUse))
               .Then(Require(0 < amount, InvalidBorrowAmount))
               .Then(Require(!s.protocol.frozen, ProtocolFrozen))
               .Then(Require(vault.proofStatus == Verified, BtcVaultNotVerified))
               .Then(Require(0 < attestation.satoshis, InsufficientBtcCollateral))
               .Then(Aged(vault.proofTimestamp, clock.now, 600, InvalidTimestamp, ProofExpired))
               .Then(Aged(attestation.attestedAt, clock.now, 600, InvalidTimestamp, BitcoinAttestationStale))
               .Then(Aged(feed.updatedAt, clock.now, 3600, InvalidTimestamp, PriceFeedStale))
               .Then(Limits(attestation.satoshis, feed.priceUsd, SATOSHIS_PER_BTC, s.pool.ltvBps, amount))
               .Then(Lends(s.pool, s.poolTokens, clock.slot, amount))
  {
    hide DrawFunds, Lends, Inv, BorrowLimit, UsdValue;
    InvBoundsPool(s);
    KeyIsConsistent(s, key);
    DrawRefused(s.pool, s.poolTokens, clock.slot, amount);
  }

  /** What a payment asks. */
  function Takes(account: Pool, tokens: u64, slot: u64, principal: u64, amount: u64, all: bool, wallet: u64): Check {
    var debt := Debt(principal, IndexAt(account, slot));
    var paid := Min(if all then wallet else amount, debt);
    Require(Accrued(account, slot).Ok? && debt <= U64_MAX, ArithmeticOverflow)
    .Then(Require(0 < debt, NoOutstandingDebt))
    .Then(Require(0 < paid, InvalidRepayAmount))
    .Then(Require(paid <= wallet, InsufficientFunds))
    .Then(Require(tokens + paid <= U64_MAX, TokenOverflow))
  }

  lemma PaymentRefused(account: Pool, tokens: u64, slot: u64, principal: u64, amount: u64, all: bool, wallet: u64)
    requires RAY <= account.borrowIndex && principal <= account.totalBorrowed
    ensures Verdict(PayDown(account, tokens, slot, principal, amount, all, wallet))
         == Takes(account, tokens, slot, principal, amount, all, wallet)
  {
    hide Accrued, Debt, Scaled;
    AccruedErrors(account, slot);
    if Accrued(account, slot).Ok? {
      var debt := Debt(principal, IndexAt(account, slot));
      PartIsLess(principal, IndexAt(account, slot), Min(if all then wallet else amount, debt));
    }
  }

  lemma RepayRefused(s: State, clock: Clock, key: VaultKey, signer: Key, amount: u64, wallet: u64)
    requires Inv(s)
    ensures var position := PositionAt(s.positions, key);
            Verdict(RepayStep(s, clock, key, signer, amount, wallet))
            == Require(key in s.vaults, AccountNotInitialized)
               .Then(Require(key.owner == signer, UnauthorizedCaller))
               .Then(Require(key in s.positions, AccountNotInitialized))
               .Then(Require(0 < amount, InvalidRepayAmount))
               .Then(Takes(s.pool, s.poolTokens, clock.slot, position.principal, amount, false, wallet))
  {
    hide PayDown, PaidPositions, Takes, Inv;
    InvBoundsPool(s);
    KeyIsConsistent(s, key);
    TotalCovers(s, key);
    PaymentRefused(s.pool, s.poolTokens, clock.slot, PositionAt(s.positions, key).principal, amount, false, wallet);
  }

  lemma RepayBtcRefused(s: State, clock: Clock, key: VaultKey, signer: Key, amount: u64, wallet: u64)
    requires Inv(s)
    ensures var position := PositionAt(s.btcPositions, key);
            Verdict(RepayBtcStep(s, clock, key, signer, amount, wallet))
            == Require(key in s.btcVaults, AccountNotInitialized)
               .Then(Require(key.owner == signer, UnauthorizedCaller))
               .Then(Require(key in s.btcPositions, AccountNotInitialized))
               .Then(Require(0 < amount, InvalidRepayAmount))
               .Then(Takes(s.pool, s.poolTokens, clock.slot, position.principal, amount,
                           amount == 18_446_744_073_709_551_615, wallet))
  {
    hide PayDown, PaidPositions, Takes, Inv;
    InvBoundsPool(s);
    KeyIsConsistent(s, key);
    TotalCovers(s, key);
    PaymentRefused(s.pool, s.poolTokens, clock.slot, PositionAt(s.btcPositions, key).principal, amount,
                   amount == U64_MAX, wallet);
  }

  // ---- liquidations ----

  /** What both liquidations ask of protocol, loan and liquidator. */
  function Opens(s: State, slot: u64, position: Position, signer: Key): Check {
    Require(Accrued(s.pool, slot).Ok?, ArithmeticOverflow)
    .Then(Require(!s.protocol.frozen, ProtocolFrozen))
    .Then(Require(0 < position.principal, NoOutstandingDebt))
    .Then(Require(position.owner != signer, SelfLiquidation))
  }

  /** What paying an unhealthy loan off asks. */
  function Settles(s: State, debt: nat, collateral: u64, price: u64, coin: Coin, wallet: u64): Check {
    Require(debt <= U64_MAX, ArithmeticOverflow)
    .Then(Require(ClientIsLiquidatable(collateral, price, debt, s.pool.thresholdBps, coin), PositionHealthy))
    .Then(Require(debt <= wallet, InsufficientFunds))
    .Then(Require(s.poolTokens + debt <= U64_MAX, TokenOverflow))
  }

  /** What a seizure asks; a bonus it would have to pay overflows the deposit. */
  function Seizes(deposited: u64, bonusBps: u16, lamports: Lamports): Check {
    var seized := Min(WithBonus(deposited, bonusBps), Movable(lamports));
    Require(WithBonus(deposited, bonusBps) <= U64_MAX, ArithmeticOverflow)
    .Then(Require(0 < seized, InsufficientCollateralLamports))
    .Then(Require(lamports.liquidator + seized <= U64_MAX && seized <= deposited, ArithmeticOverflow))
  }

  lemma LiquidateRefused(s: State, clock: Clock, key: VaultKey, signer: Key, feed: Feed, wallet: u64,
                         lamports: Lamports)
    requires Inv(s)
    ensures var vault, position := VaultAt(s, key), PositionAt(s.positions, key);
            var debt := Debt(position.principal, IndexAt(s.pool, clock.slot));
            Verdict(LiquidateStep(s, clock, key, signer, feed, wallet, lamports))
            == Require(key in s.vaults && key in s.positions, AccountNotInitialized)
               .Then(Opens(s, clock.slot, position, signer))
               .Then(Aged(feed.updatedAt, clock.now, 3600, InvalidTimestamp, PriceFeedStale))
               .Then(Settles(s, debt, vault.deposited, feed.priceUsd, COLLATERAL_ONE, wallet))
               .Then(Seizes(vault.deposited, s.pool.bonusBps, lamports))
  {
    hide Accrued, ClientIsLiquidatable, WithBonus, Debt, Inv;
    TotalCovers(s, key);
    AccruedErrors(s.pool, clock.slot);
  }

  lemma LiquidateBtcRefused(s: State, clock: Clock, key: VaultKey, signer: Key, feed: Feed, wallet: u64, dwallet: Key,
                            sighash: Bytes32, cpiAccepted: bool)
    requires Inv(s)
    ensures var attestation, position := AttestationAt(s, key), PositionAt(s.btcPositions, key);
            var debt := Debt(position.principal, IndexAt(s.pool, clock.slot));
            Verdict(LiquidateBtcStep(s, clock, key, signer, feed, wallet, dwallet, sighash, cpiAccepted))
            == Require(key in s.btcPositions, AccountNotInitialized)
               .Then(Require(dwallet == key.dwallet, DWalletMismatch))
               .Then(Opens(s, clock.slot, position, signer))
               .Then(Aged(attestation.attestedAt, clock.now, 600, InvalidTimestamp, BitcoinAttestationStale))
               .Then(Aged(feed.updatedAt, clock.now, 3600, InvalidTimestamp, PriceFeedStale))
               .Then(Settles(s, debt, attestation.satoshis, feed.priceUsd, SATOSHIS_PER_BTC, wallet))
               .Then(Require(0 < feed.priceUsd
                             && SatoshisWithBonus(debt, feed.priceUsd, s.pool.bonusBps) <= U64_MAX, ArithmeticOverflow))
               .Then(Require(cpiAccepted, CpiFailed))
  {
    hide Accrued, ClientIsLiquidatable, SatoshisWithBonus, Debt, Inv;
    TotalCovers(s, key);
    KeyIsConsistent(s, key);
    AccruedErrors(s.pool, clock.slot);
  }

  lemma FinalizeRefused(s: State, clock: Clock, key: VaultKey, signer: Key, height: u64, confirmations: u32,
                        remaining: u64)
    requires Inv(s)
    ensures Verdict(FinalizeBtcLiquidationStep(s, clock, key, signer, height, confirmations, remaining))
         == Require(key in s.btcPositions, AccountNotInitialized)
            .Then(Require(signer == s.protocol.admin, KeeperNotAuthorised))
            .Then(Require(InFlight(s, key), BtcLiquidationNotInitiated))
            .Then(Require(1 <= confirmations, BitcoinConfirmationsInsufficient))
  {
    hide Inv;
    KeyIsConsistent(s, key);
  }

  // ---- custody, Bitcoin path ----

  lemma RegisterBtcRefused(s: State, signer: Key, ikaDwallet: Bytes32, pubkey: seq<u8>, address: seq<u8>)
    ensures var key := VaultKey(signer, ikaDwallet);
            Verdict(RegisterBtcVaultStep(s, signer, ikaDwallet, pubkey, address))
            == Require(key !in s.btcVaults && key !in s.attestations, AccountInUse)
               .Then(Require(ValidBitcoinAddress(address), InvalidBitcoinAddress))
               .Then(Require(|pubkey| == 33 && (pubkey[0] == 2 || pubkey[0] == 3), InvalidDwalletPubkey))
               .Then(Require(s.protocol.totalVaults < U64_MAX, ArithmeticOverflow))
  {
    hide ValidBitcoinAddress;
  }

  lemma AttestRefused(s: State, clock: Clock, key: VaultKey, signer: Key, satoshis: u64, height: u64)
    requires Inv(s)
    ensures Verdict(AttestBtcBalanceStep(s, clock, key, signer, satoshis, height))
         == Require(key in s.btcVaults, AccountNotInitialized)
            .Then(Require(signer == s.protocol.admin, KeeperNotAuthorised))
  {
    hide Inv;
    KeyIsConsistent(s, key);
  }

  lemma ProveBtcRefused(s: State, now: i64, key: VaultKey, signer: Key, approval: seq<u8>)
    ensures var vault := BtcVaultAt(s, key);
            var owned := Require(key in s.btcVaults, AccountNotInitialized)
                         .Then(Require(vault.owner == signer, UnauthorizedCaller));
            var accepted := Verdict(ParseForBtcDwallet(approval, vault.ikaDwallet, now));
            Verdict(VerifyBtcCustodyProofStep(s, now, key, signer, approval))
            == owned.Then(Require(vault.proofStatus != Verified, VaultAlreadyVerified)).Then(accepted)
            && Verdict(RefreshBtcCustodyProofStep(s, now, key, signer, approval))
            == owned.Then(Require(vault.proofStatus == Verified, BtcVaultNotVerified)).Then(accepted)
  {
    hide ParseForBtcDwallet;
  }
}
