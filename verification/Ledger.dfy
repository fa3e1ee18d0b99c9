/** The protocol's collateral total as a ledger of deposits and seizures. */
module Ledger {
  import opened Prelude
  import opened MapSums
  import opened Approvals
  import opened Pricing
  import opened Interest
  import opened Loans
  import opened Accounts
  import opened Steps
  import opened Invariants
  import opened VaultEffects
  import opened Runs

  /** The collateral a transaction's liquidation seized. */
  function SeizedBy(s: State, tx: Transaction): nat {
    match Apply(s, tx)
    case Ok(Commit(_, PositionLiquidated(_, seized, _))) => seized
    case _ => 0
  }

  /** The collateral seized by the first n transactions of a run. */
  function SeizedSoFar(r: Run, n: nat): nat
    requires n <= |r.txs| < |r.states|
  {
    if n == 0 then 0 else SeizedSoFar(r, n - 1) + SeizedBy(r.states[n - 1], r.txs[n - 1])
  }

  /** What the protocol counts beyond the deposits of open vaults. */
  ghost function Uncovered(s: State): int {
    s.protocol.totalCollateral - TotalDeposits(s)
  }

  // ---- one transaction ----

  lemma CustodyKeepsLedger(s: State, now: i64, instruction: CustodyInstruction)
    ensures Uncovered(Outcome(s, ApplyCustody(s, now, instruction))) == Uncovered(s)
  {
    hide ApplyCustody, ParseMessageApproval;
    if ApplyCustody(s, now, instruction).Ok? {
      CustodyCommits(s, now, instruction);
      var after := ApplyCustody(s, now, instruction).value.state;
      match instruction
      case RegisterVault(signer, dwalletId, _) =>
        var key := VaultKey(signer, dwalletId);
        SumUpdate(s.vaults, Deposit, key, after.vaults[key]);
      case CloseVault(key, _) => SumRemove(s.vaults, Deposit, key);
      case _ => SumUpdate(s.vaults, Deposit, instruction.key, after.vaults[instruction.key]);
    }
  }

  lemma BreakerKeepsLedger(s: State, instruction: BreakerInstruction)
    ensures Uncovered(Outcome(s, ApplyBreaker(s, instruction))) == Uncovered(s)
  {
    hide ApplyBreaker;
    if ApplyBreaker(s, instruction).Ok? {
      BreakerCommits(s, instruction);
      var after := ApplyBreaker(s, instruction).value.state;
      if !instruction.UnfreezeProtocolState? {
        SumUpdate(s.vaults, Deposit, instruction.key, after.vaults[instruction.key]);
      }
    }
  }

  lemma LendingMovesLedger(s: State, tx: Transaction)
    requires tx.instruction.Lending?
    ensures Uncovered(Next(s, tx)) == Uncovered(s) + SeizedBy(s, tx)
  {
    hide ApplyLending;
    if Commits(s, tx) {
      LendingCommits(s, tx.clock, tx.instruction.lending);
      var key := tx.instruction.lending.key;
      SumUpdate(s.vaults, Deposit, key, Next(s, tx).vaults[key]);
    }
  }

  lemma OthersSeizeNothing(s: State, tx: Transaction)
    requires !tx.instruction.Lending?
    ensures SeizedBy(s, tx) == 0
  {
    hide ParseMessageApproval, ParseForBtcDwallet, BtcBorrowGuard, DrawFunds, PayDown, PaidPositions, Accrued,
      LiquidatorGuard, FreshGuard, PayOff, DebtToSatoshisWithBonus, ValidBitcoinAddress;
  }

  /** Only a liquidation moves the total against the deposits, by what it seized. */
  lemma LedgerStep(s: State, tx: Transaction)
    ensures Uncovered(Next(s, tx)) == Uncovered(s) + SeizedBy(s, tx)
  {
    hide ApplyCustody, ApplyBreaker, ApplyLending, ApplyBtcCustody, ApplyBtcLending, SeizedBy;
    match tx.instruction
    case Custody(instruction) =>
      CustodyKeepsLedger(s, tx.clock.now, instruction);
      OthersSeizeNothing(s, tx);
    case Breaker(instruction) =>
      BreakerKeepsLedger(s, instruction);
      OthersSeizeNothing(s, tx);
    case Lending(_) => LendingMovesLedger(s, tx);
    case BtcCustody(instruction) =>
      BtcCustodyFrame(s, tx.clock, instruction);
      OthersSeizeNothing(s, tx);
    case BtcLending(instruction) =>
      BtcLendingFrame(s, tx.clock, instruction);
      OthersSeizeNothing(s, tx);
  }

  // ---- runs ----

  /** In every reachable state the total is the open vaults' deposits and everything seized so far. */
  lemma {:induction false} TotalIsDepositsAndSeizures(r: Run, i: nat)
    requires IsRun(r) && i <= |r.txs|
    ensures r.states[i].protocol.totalCollateral == TotalDeposits(r.states[i]) + SeizedSoFar(r, i)
  {
    hide Next, SeizedBy;
    if i > 0 {
      TotalIsDepositsAndSeizures(r, i - 1);
      LedgerStep(r.states[i - 1], r.txs[i - 1]);
    }
  }

  /** So a withdrawal by the owner succeeds exactly within the deposit of an unfrozen protocol: the check on
      the total never fails it. */
  lemma WithdrawalNeedsDepositOnly(r: Run, i: nat, key: VaultKey, signer: Key, amount: u64)
    requires IsRun(r) && i <= |r.txs|
    ensures var s := r.states[i];
            WithdrawCollateralStep(s, key, signer, amount).Ok?
            <==> key in s.vaults && s.vaults[key].owner == signer && !s.protocol.frozen
                 && 0 < amount <= s.vaults[key].deposited
  {
    hide Next, Initial;
    TotalIsDepositsAndSeizures(r, i);
    var s := r.states[i];
    if key in s.vaults {
      SumRemove(s.vaults, Deposit, key);
    }
  }

  // ---- the vault count ----

  /** The registration of a vault of either path. */
  predicate Registers(tx: Transaction) {
    (tx.instruction.Custody? && tx.instruction.custody.RegisterVault?)
    || (tx.instruction.BtcCustody? && tx.instruction.btcCustody.RegisterBtcVault?)
  }

  function RegistrationsSoFar(r: Run, n: nat): nat
    requires n <= |r.txs| < |r.states|
  {
    if n == 0 then 0
    else RegistrationsSoFar(r, n - 1) + if Registers(r.txs[n - 1]) && CommitsAt(r, n - 1) then 1 else 0
  }

  lemma CountStep(s: State, tx: Transaction)
    requires Inv(s)
    ensures Next(s, tx).protocol.totalVaults
         == s.protocol.totalVaults + if Registers(tx) && Commits(s, tx) then 1 else 0
  {
    hide ApplyCustody, ApplyBreaker, ApplyLending, ApplyBtcCustody, ApplyBtcLending, ParseMessageApproval,
      ParseForBtcDwallet, Inv;
    match tx.instruction
    case Custody(instruction) =>
      if Commits(s, tx) {
        CustodyCommits(s, tx.clock.now, instruction);
      }
    case Breaker(instruction) => BreakerFrame(s, instruction);
    case Lending(instruction) => LendingFrame(s, tx.clock, instruction);
    case BtcCustody(instruction) => BtcCustodySucceedsIff(s, tx.clock, instruction);
    case BtcLending(instruction) => BtcLendingFrame(s, tx.clock, instruction);
  }

  /** The protocol's vault count is the number of registrations; closing a vault does not lower it. */
  lemma {:induction false} VaultsAreCounted(r: Run, i: nat)
    requires IsRun(r) && i <= |r.txs|
    ensures r.states[i].protocol.totalVaults == RegistrationsSoFar(r, i)
  {
    hide Next, Apply, Inv, Registers;
    if i > 0 {
      VaultsAreCounted(r, i - 1);
      InvAlways(r, i - 1);
      CountStep(r.states[i - 1], r.txs[i - 1]);
    }
  }
}
