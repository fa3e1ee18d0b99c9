/** What every transaction keeps. */
module Invariants {
  import opened Prelude
  import opened MapSums
  import opened Approvals
  import opened Pricing
  import opened Interest
  import opened Loans
  import opened Accounts
  import opened Steps

  function Principal(p: Position): nat { p.principal }

  function Deposit(v: Vault): nat { v.deposited }

  function DepositOf(s: State, key: VaultKey): nat {
    if key in s.vaults then s.vaults[key].deposited else 0
  }

  ghost function TotalPrincipal(s: State): nat {
    Sum(s.positions, Principal) + Sum(s.btcPositions, Principal)
  }

  ghost function TotalDeposits(s: State): nat {
    Sum(s.vaults, Deposit)
  }

  /** A Bitcoin liquidation of the vault has been initiated and not yet finalised. */
  predicate InFlight(s: State, key: VaultKey) {
    key in s.btcVaults && s.btcVaults[key].liquidationInitiatedAt > 0
  }

  /** A Bitcoin vault: its copy of the attested balance is the attestation's, and it is frozen exactly while in
      flight, its loan then paid off. */
  predicate BtcVaultConsistent(s: State, key: VaultKey)
    requires key in s.btcVaults
  {
    var vault := s.btcVaults[key];
    vault.owner == key.owner && vault.ikaDwallet == key.dwallet && vault.proofStatus != Expired
    && key in s.attestations && s.attestations[key].bitcoinAddress == vault.bitcoinAddress
    && s.attestations[key].satoshis == vault.depositedSatoshis
    && s.attestations[key].attestedAtSlot == vault.lastAttestationSlot
    && vault.liquidationInitiatedAt >= 0
    && (vault.frozen <==> vault.liquidationInitiatedAt > 0)
    && (vault.liquidationInitiatedAt > 0 ==> key in s.btcPositions && s.btcPositions[key].principal == 0)
  }

  /** What holds of the accounts under one key. */
  predicate KeyConsistent(s: State, key: VaultKey) {
    (key in s.vaults ==> s.vaults[key].owner == key.owner && s.vaults[key].dwalletId == key.dwallet
                         && s.vaults[key].proofStatus != Expired)
    && (key in s.positions ==> s.positions[key].owner == key.owner)
    && (key in s.btcVaults ==> BtcVaultConsistent(s, key))
    && (key in s.btcPositions ==> key in s.btcVaults && s.btcPositions[key].owner == key.owner)
  }

  ghost predicate PoolConsistent(s: State) {
    RAY <= s.pool.borrowIndex
    && s.pool.totalLiquidity > 0
    && ValidBps(s.pool.ltvBps, s.pool.thresholdBps, s.pool.bonusBps)
    && s.pool.totalBorrowed == TotalPrincipal(s)
  }

  ghost predicate VaultsConsistent(s: State) {
    forall key :: KeyConsistent(s, key)
  }

  ghost predicate Inv(s: State) {
    PoolConsistent(s) && VaultsConsistent(s)
  }

  lemma InvBoundsPool(s: State)
    requires Inv(s)
    ensures RAY <= s.pool.borrowIndex && s.pool.ltvBps < s.pool.thresholdBps <= BPS
  {
    hide VaultsConsistent;
  }

  lemma KeyIsConsistent(s: State, key: VaultKey)
    requires Inv(s)
    ensures KeyConsistent(s, key)
  {
    hide PoolConsistent, KeyConsistent;
  }

  /** The accounts right after initialisation. */
  ghost predicate Initial(s: State) {
    s.pool.borrowIndex == RAY && s.pool.totalBorrowed == 0
    && 0 < s.pool.totalLiquidity <= s.poolTokens
    && ValidBps(s.pool.ltvBps, s.pool.thresholdBps, s.pool.bonusBps)
    && !s.protocol.frozen && s.protocol.totalVaults == 0 && s.protocol.totalCollateral == 0
    && s.vaults == map[] && s.positions == map[]
    && s.btcVaults == map[] && s.attestations == map[] && s.btcPositions == map[]
  }

  /** Initialisation succeeds exactly on valid parameters with the liquidity in the pool, and stores them. */
  lemma InitializedIsInitial(admin: Key, slot: u64, liquidity: u64, poolTokens: u64, price: u64, ltvBps: u16,
                             thresholdBps: u16, bonusBps: u16, baseRateBps: u16, rateSlopeBps: u16)
    ensures var r := Initialize(admin, slot, liquidity, poolTokens, price, ltvBps, thresholdBps, bonusBps,
                                baseRateBps, rateSlopeBps);
            (r.Ok? <==> 0 < liquidity <= poolTokens && price > 0
                        && 0 < ltvBps < thresholdBps <= 10_000 && bonusBps <= 5_000)
            && (r.Ok? ==>
                  Initial(r.value) && Inv(r.value)
                  && r.value.pool.totalLiquidity == liquidity && r.value.poolTokens == poolTokens
                  && r.value.pool.ltvBps == ltvBps && r.value.pool.thresholdBps == thresholdBps
                  && r.value.pool.bonusBps == bonusBps && r.value.pool.baseRateBps == baseRateBps
                  && r.value.pool.rateSlopeBps == rateSlopeBps && r.value.pool.lastUpdateSlot == slot
                  && r.value.pool.borrowIndex == 1_000_000_000_000_000_000 && r.value.protocol.admin == admin)
            && (r.Err? ==>
                  r.error == if 0 < liquidity && price > 0 && 0 < ltvBps < thresholdBps <= 10_000 && bonusBps <= 5_000
                             then InsufficientPoolLiquidity else InvalidLendingPoolParameter)
  {
  }

  // ---- the loan core ----

  /** A draw adds the scaled amount to the accrued total, within liquidity and tokens. */
  lemma DrawEffect(account: Pool, tokens: u64, slot: u64, amount: u64)
    requires DrawFunds(account, tokens, slot, amount).Ok? && RAY <= account.borrowIndex
    ensures var draw := DrawFunds(account, tokens, slot, amount).value;
            var index := draw.pool.borrowIndex;
            account.borrowIndex <= index
            && draw.principal == Scaled(amount, index)
            && draw.pool.totalBorrowed == account.totalBorrowed + draw.principal
            && amount + Debt(account.totalBorrowed, index) <= account.totalLiquidity
            && draw.tokens == tokens - amount
            && draw.pool == account.(totalBorrowed := draw.pool.totalBorrowed, borrowIndex := index,
                                     lastUpdateSlot := draw.pool.lastUpdateSlot)
  {
  }

  /** Part of a debt scales to less than its principal, so the program's cap on it never bites. */
  lemma PartIsLess(principal: nat, index: nat, paid: nat)
    requires index > 0
    ensures paid < Debt(principal, index) ==> Scaled(paid, index) < principal
  {
    if paid < Debt(principal, index) {
      PartialPayment(principal, index, paid);
    }
  }

  /** What a payment does: everything is paid off, or a scaled part that leaves a positive principal. */
  lemma PayDownEffect(account: Pool, tokens: u64, slot: u64, principal: u64, amount: u64, all: bool, wallet: u64)
    requires PayDown(account, tokens, slot, principal, amount, all, wallet).Ok? && RAY <= account.borrowIndex
    ensures var r := PayDown(account, tokens, slot, principal, amount, all, wallet).value;
            var index := r.pool.borrowIndex;
            var debt := Debt(principal, index);
            account.borrowIndex <= index
            && principal > 0
            && 0 < r.paid == (if all then Min(wallet, debt) else Min(amount, debt)) <= wallet
            && r.remaining == (if all || r.paid == debt then 0 else principal - Scaled(r.paid, index))
            && (r.remaining == 0 <==> all || r.paid == debt)
            && r.pool.totalBorrowed == account.totalBorrowed - (principal - r.remaining)
            && r.tokens == tokens + r.paid
            && r.pool == account.(totalBorrowed := r.pool.totalBorrowed, borrowIndex := index,
                                  lastUpdateSlot := r.pool.lastUpdateSlot)
  {
    var r := PayDown(account, tokens, slot, principal, amount, all, wallet).value;
    PartIsLess(principal, r.pool.borrowIndex, r.paid);
  }

  // ---- every transaction keeps the invariant ----

  lemma PaidPrincipals(positions: map<VaultKey, Position>, key: VaultKey, now: i64, r: Repayment)
    requires key in positions && r.remaining <= positions[key].principal
    ensures Sum(PaidPositions(positions, key, now, r), Principal)
         == Sum(positions, Principal) - (positions[key].principal - r.remaining)
  {
    if r.remaining == 0 {
      SumRemove(positions, Principal, key);
    } else {
      SumUpdate(positions, Principal, key, PaidPositions(positions, key, now, r)[key]);
    }
  }

  /** Custody and circuit-breaker instructions leave all loan accounts alone. */
  predicate SameLoans(s: State, after: State) {
    after.pool == s.pool && after.poolTokens == s.poolTokens
    && after.positions == s.positions && after.btcPositions == s.btcPositions
  }

  predicate SameBtcVaults(s: State, after: State) {
    after.btcVaults == s.btcVaults && after.attestations == s.attestations
  }

  lemma CustodyFrame(s: State, now: i64, instruction: CustodyInstruction)
    ensures var after := Outcome(s, ApplyCustody(s, now, instruction));
            SameLoans(s, after) && SameBtcVaults(s, after) && after.protocol.frozen == s.protocol.frozen
            && after.protocol.admin == s.protocol.admin
  {
    hide ParseMessageApproval;
  }

  lemma BreakerFrame(s: State, instruction: BreakerInstruction)
    ensures var after := Outcome(s, ApplyBreaker(s, instruction));
            SameLoans(s, after) && SameBtcVaults(s, after)
            && after.protocol == s.protocol.(frozen := after.protocol.frozen)
  {
  }

  lemma BtcCustodyFrame(s: State, clock: Clock, instruction: BtcCustodyInstruction)
    ensures var after := Outcome(s, ApplyBtcCustody(s, clock, instruction));
            SameLoans(s, after) && after.vaults == s.vaults
            && after.protocol == s.protocol.(totalVaults := after.protocol.totalVaults)
  {
    hide ParseForBtcDwallet, ValidBitcoinAddress;
  }

  lemma LendingFrame(s: State, clock: Clock, instruction: LendingInstruction)
    ensures var after := Outcome(s, ApplyLending(s, clock, instruction));
            SameBtcVaults(s, after) && after.btcPositions == s.btcPositions && after.protocol == s.protocol
  {
    hide BorrowGuard, DrawFunds, PayDown, PaidPositions, Accrued, LiquidatorGuard, FreshGuard, PayOff, Seize;
  }

  lemma BtcLendingFrame(s: State, clock: Clock, instruction: BtcLendingInstruction)
    ensures var after := Outcome(s, ApplyBtcLending(s, clock, instruction));
            after.vaults == s.vaults && after.positions == s.positions && after.protocol == s.protocol
  {
    hide BtcBorrowGuard, DrawFunds, PayDown, PaidPositions, Accrued, LiquidatorGuard, FreshGuard, PayOff,
      DebtToSatoshisWithBonus;
  }

  // ---- the pool ----

  lemma BorrowKeepsPool(s: State, clock: Clock, key: VaultKey, signer: Key, amount: u64, feed: Feed)
    requires PoolConsistent(s)
    ensures PoolConsistent(Outcome(s, BorrowStep(s, clock, key, signer, amount, feed)))
  {
    hide BorrowGuard, DrawFunds;
    var r := BorrowStep(s, clock, key, signer, amount, feed);
    if r.Ok? {
      DrawEffect(s.pool, s.poolTokens, clock.slot, amount);
      SumUpdate(s.positions, Principal, key, r.value.state.positions[key]);
    }
  }

  lemma BorrowBtcKeepsPool(s: State, clock: Clock, key: VaultKey, signer: Key, amount: u64, feed: Feed)
    requires PoolConsistent(s)
    ensures PoolConsistent(Outcome(s, BorrowBtcStep(s, clock, key, signer, amount, feed)))
  {
    hide BtcBorrowGuard, DrawFunds;
    var r := BorrowBtcStep(s, clock, key, signer, amount, feed);
    if r.Ok? {
      DrawEffect(s.pool, s.poolTokens, clock.slot, amount);
      SumUpdate(s.btcPositions, Principal, key, r.value.state.btcPositions[key]);
    }
  }

  lemma RepayKeepsPool(s: State, clock: Clock, key: VaultKey, signer: Key, amount: u64, wallet: u64)
    requires PoolConsistent(s)
    ensures PoolConsistent(Outcome(s, RepayStep(s, clock, key, signer, amount, wallet)))
  {
    hide PayDown, PaidPositions;
    if RepayStep(s, clock, key, signer, amount, wallet).Ok? {
      var principal := s.positions[key].principal;
      PayDownEffect(s.pool, s.poolTokens, clock.slot, principal, amount, false, wallet);
      PaidPrincipals(s.positions, key, clock.now,
                     PayDown(s.pool, s.poolTokens, clock.slot, principal, amount, false, wallet).value);
    }
  }

  lemma RepayBtcKeepsPool(s: State, clock: Clock, key: VaultKey, signer: Key, amount: u64, wallet: u64)
    requires PoolConsistent(s)
    ensures PoolConsistent(Outcome(s, RepayBtcStep(s, clock, key, signer, amount, wallet)))
  {
    hide PayDown, PaidPositions;
    if RepayBtcStep(s, clock, key, signer, amount, wallet).Ok? {
      var principal, all := s.btcPositions[key].principal, amount == U64_MAX;
      PayDownEffect(s.pool, s.poolTokens, clock.slot, principal, amount, all, wallet);
      PaidPrincipals(s.btcPositions, key, clock.now,
                     PayDown(s.pool, s.poolTokens, clock.slot, principal, amount, all, wallet).value);
    }
  }

  lemma LiquidateKeepsPool(s: State, clock: Clock, key: VaultKey, signer: Key, feed: Feed, wallet: u64,
                           lamports: Lamports)
    requires PoolConsistent(s)
    ensures PoolConsistent(Outcome(s, LiquidateStep(s, clock, key, signer, feed, wallet, lamports)))
  {
    hide Accrued, LiquidatorGuard, FreshGuard, PayOff, Seize;
    if LiquidateStep(s, clock, key, signer, feed, wallet, lamports).Ok? {
      SumRemove(s.positions, Principal, key);
    }
  }

  lemma LiquidateBtcKeepsPool(s: State, clock: Clock, key: VaultKey, signer: Key, feed: Feed, wallet: u64,
                              dwallet: Key, sighash: Bytes32, cpiAccepted: bool)
    requires PoolConsistent(s)
    ensures PoolConsistent(
              Outcome(s, LiquidateBtcStep(s, clock, key, signer, feed, wallet, dwallet, sighash, cpiAccepted)))
  {
    hide Accrued, LiquidatorGuard, FreshGuard, PayOff, DebtToSatoshisWithBonus;
    var r := LiquidateBtcStep(s, clock, key, signer, feed, wallet, dwallet, sighash, cpiAccepted);
    if r.Ok? {
      SumUpdate(s.btcPositions, Principal, key, r.value.state.btcPositions[key]);
    }
  }

  lemma FinalizeKeepsPool(s: State, clock: Clock, key: VaultKey, signer: Key, height: u64, confirmations: u32,
                          remaining: u64)
    requires PoolConsistent(s)
    ensures PoolConsistent(
              Outcome(s, FinalizeBtcLiquidationStep(s, clock, key, signer, height, confirmations, remaining)))
  {
    if FinalizeBtcLiquidationStep(s, clock, key, signer, height, confirmations, remaining).Ok? {
      SumRemove(s.btcPositions, Principal, key);
    }
  }

  lemma LendingKeepsPool(s: State, clock: Clock, instruction: LendingInstruction)
    requires PoolConsistent(s)
    ensures PoolConsistent(Outcome(s, ApplyLending(s, clock, instruction)))
  {
    hide BorrowStep, RepayStep, LiquidateStep, PoolConsistent;
    match instruction
    case Borrow(key, signer, amount, feed) => BorrowKeepsPool(s, clock, key, signer, amount, feed);
    case Repay(key, signer, amount, wallet) => RepayKeepsPool(s, clock, key, signer, amount, wallet);
    case Liquidate(key, signer, feed, wallet, lamports) =>
      LiquidateKeepsPool(s, clock, key, signer, feed, wallet, lamports);
  }

  lemma BtcLendingKeepsPool(s: State, clock: Clock, instruction: BtcLendingInstruction)
    requires PoolConsistent(s)
    ensures PoolConsistent(Outcome(s, ApplyBtcLending(s, clock, instruction)))
  {
    hide BorrowBtcStep, RepayBtcStep, LiquidateBtcStep, FinalizeBtcLiquidationStep, PoolConsistent;
    match instruction
    case BorrowBtc(key, signer, amount, feed) => BorrowBtcKeepsPool(s, clock, key, signer, amount, feed);
    case RepayBtc(key, signer, amount, wallet) => RepayBtcKeepsPool(s, clock, key, signer, amount, wallet);
    case LiquidateBtc(key, signer, feed, wallet, dwallet, sighash, accepted) =>
      LiquidateBtcKeepsPool(s, clock, key, signer, feed, wallet, dwallet, sighash, accepted);
    case FinalizeBtcLiquidation(key, signer, height, confirmations, remaining) =>
      FinalizeKeepsPool(s, clock, key, signer, height, confirmations, remaining);
  }

  // ---- the vaults ----

  lemma CustodyKeepsKey(s: State, now: i64, instruction: CustodyInstruction, key: VaultKey)
    requires KeyConsistent(s, key)
    ensures KeyConsistent(Outcome(s, ApplyCustody(s, now, instruction)), key)
  {
    hide ParseMessageApproval;
  }

  lemma BreakerKeepsKey(s: State, instruction: BreakerInstruction, key: VaultKey)
    requires KeyConsistent(s, key)
    ensures KeyConsistent(Outcome(s, ApplyBreaker(s, instruction)), key)
  {
  }

  lemma LendingKeepsKey(s: State, clock: Clock, instruction: LendingInstruction, key: VaultKey)
    requires KeyConsistent(s, instruction.key) && KeyConsistent(s, key)
    ensures KeyConsistent(Outcome(s, ApplyLending(s, clock, instruction)), key)
  {
    hide BorrowGuard, DrawFunds, PayDown, Accrued, LiquidatorGuard, FreshGuard, PayOff, Seize;
  }

  lemma BtcCustodyKeepsKey(s: State, clock: Clock, instruction: BtcCustodyInstruction, key: VaultKey)
    requires KeyConsistent(s, key)
    ensures KeyConsistent(Outcome(s, ApplyBtcCustody(s, clock, instruction)), key)
  {
    hide ParseForBtcDwallet, ValidBitcoinAddress;
  }

  /** A vault in flight is safe because its loan has no principal left to repay. */
  lemma RepayBtcKeepsKey(s: State, clock: Clock, instruction: BtcLendingInstruction, key: VaultKey)
    requires instruction.RepayBtc? && RAY <= s.pool.borrowIndex
    requires KeyConsistent(s, instruction.key) && KeyConsistent(s, key)
    ensures KeyConsistent(Outcome(s, ApplyBtcLending(s, clock, instruction)), key)
  {
    hide PayDown;
    if ApplyBtcLending(s, clock, instruction).Ok? {
      var amount := instruction.amount;
      PayDownEffect(s.pool, s.poolTokens, clock.slot, s.btcPositions[instruction.key].principal, amount,
                    amount == U64_MAX, instruction.wallet);
    }
  }

  lemma BtcLendingKeepsKey(s: State, clock: Clock, instruction: BtcLendingInstruction, key: VaultKey)
    requires !instruction.RepayBtc? && clock.now > 0
    requires KeyConsistent(s, instruction.key) && KeyConsistent(s, key)
    ensures KeyConsistent(Outcome(s, ApplyBtcLending(s, clock, instruction)), key)
  {
    hide BtcBorrowGuard, DrawFunds, Accrued, LiquidatorGuard, FreshGuard, PayOff, DebtToSatoshisWithBonus,
      RepayBtcStep;
  }

  lemma VaultsStayConsistent(s: State, tx: Transaction)
    requires VaultsConsistent(s) && RAY <= s.pool.borrowIndex && tx.clock.now > 0
    ensures VaultsConsistent(Next(s, tx))
  {
    hide ApplyCustody, ApplyBreaker, ApplyLending, ApplyBtcCustody, ApplyBtcLending, KeyConsistent;
    forall key
      ensures KeyConsistent(Next(s, tx), key)
    {
      match tx.instruction
      case Custody(instruction) => CustodyKeepsKey(s, tx.clock.now, instruction, key);
      case Breaker(instruction) => BreakerKeepsKey(s, instruction, key);
      case Lending(instruction) => LendingKeepsKey(s, tx.clock, instruction, key);
      case BtcCustody(instruction) => BtcCustodyKeepsKey(s, tx.clock, instruction, key);
      case BtcLending(instruction) =>
        if instruction.RepayBtc? {
          RepayBtcKeepsKey(s, tx.clock, instruction, key);
        } else {
          BtcLendingKeepsKey(s, tx.clock, instruction, key);
        }
    }
  }

  /** Every transaction at a time after the epoch keeps the invariant. */
  lemma InvStays(s: State, tx: Transaction)
    requires Inv(s) && tx.clock.now > 0
    ensures Inv(Next(s, tx))
  {
    hide ApplyCustody, ApplyBreaker, ApplyLending, ApplyBtcCustody, ApplyBtcLending, VaultsConsistent;
    VaultsStayConsistent(s, tx);
    match tx.instruction
    case Custody(instruction) => CustodyFrame(s, tx.clock.now, instruction);
    case Breaker(instruction) => BreakerFrame(s, instruction);
    case Lending(instruction) => LendingKeepsPool(s, tx.clock, instruction);
    case BtcCustody(instruction) => BtcCustodyFrame(s, tx.clock, instruction);
    case BtcLending(instruction) => BtcLendingKeepsPool(s, tx.clock, instruction);
  }
}
