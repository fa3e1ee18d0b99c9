/** What a frozen protocol rules out over whole runs, and what it leaves possible. */
module Freeze {
  import opened Prelude
  import opened Approvals
  import opened Pricing
  import opened Interest
  import opened Loans
  import opened Accounts
  import opened Steps
  import opened Invariants
  import opened VaultEffects
  import opened Runs

  /** No loan opens or grows; they may shrink and close. */
  ghost predicate LoansShrink(before: map<VaultKey, Position>, after: map<VaultKey, Position>) {
    forall key | key in after :: key in before && after[key].principal <= before[key].principal
  }

  ghost predicate SameDeposits(before: State, after: State) {
    (forall key :: DepositOf(after, key) == DepositOf(before, key))
    && after.protocol.totalCollateral == before.protocol.totalCollateral
  }

  /** No Bitcoin liquidation starts. */
  ghost predicate NoneStarted(before: State, after: State) {
    forall key :: InFlight(after, key) ==> InFlight(before, key)
  }

  /** How a state may follow another while the protocol is frozen. */
  ghost predicate Subdued(before: State, after: State) {
    LoansShrink(before.positions, after.positions)
    && LoansShrink(before.btcPositions, after.btcPositions)
    && before.poolTokens <= after.poolTokens
    && SameDeposits(before, after)
    && NoneStarted(before, after)
  }

  /** What a frozen protocol refuses: collateral movements, borrowing and liquidations, of both paths. */
  predicate Barred(tx: Transaction) {
    match tx.instruction
    case Custody(instruction) => instruction.DepositCollateral? || instruction.WithdrawCollateral?
    case Lending(instruction) => instruction.Borrow? || instruction.Liquidate?
    case BtcLending(instruction) => instruction.BorrowBtc? || instruction.LiquidateBtc?
    case _ => false
  }

  // ---- one transaction ----

  lemma BarredFails(s: State, tx: Transaction)
    requires s.protocol.frozen && Barred(tx)
    ensures !Commits(s, tx)
  {
    hide DrawFunds, FreshGuard, LimitGuard, Accrued, PayOff, Seize;
  }

  lemma CustodySubdued(s: State, now: i64, instruction: CustodyInstruction)
    requires s.protocol.frozen
    ensures SameDeposits(s, Outcome(s, ApplyCustody(s, now, instruction)))
  {
    hide ApplyCustody, ParseMessageApproval;
    if ApplyCustody(s, now, instruction).Ok? {
      CustodyCommits(s, now, instruction);
    }
  }

  lemma BreakerSubdued(s: State, instruction: BreakerInstruction)
    ensures SameDeposits(s, Outcome(s, ApplyBreaker(s, instruction)))
  {
    hide ApplyBreaker;
    if ApplyBreaker(s, instruction).Ok? {
      BreakerCommits(s, instruction);
    }
  }

  lemma LendingSubdued(s: State, clock: Clock, instruction: LendingInstruction)
    requires s.protocol.frozen && RAY <= s.pool.borrowIndex
    ensures var after := Outcome(s, ApplyLending(s, clock, instruction));
            LoansShrink(s.positions, after.positions) && s.poolTokens <= after.poolTokens
            && after.vaults == s.vaults
  {
    hide DrawFunds, LimitGuard, PayDown, Accrued, PayOff, Seize;
    if instruction.Repay? && ApplyLending(s, clock, instruction).Ok? {
      PayDownEffect(s.pool, s.poolTokens, clock.slot, s.positions[instruction.key].principal,
                    instruction.amount, false, instruction.wallet);
    }
  }

  lemma BtcLendingSubdued(s: State, clock: Clock, instruction: BtcLendingInstruction)
    requires s.protocol.frozen && RAY <= s.pool.borrowIndex
    ensures var after := Outcome(s, ApplyBtcLending(s, clock, instruction));
            LoansShrink(s.btcPositions, after.btcPositions) && s.poolTokens <= after.poolTokens
            && NoneStarted(s, after)
  {
    hide DrawFunds, FreshGuard, LimitGuard, PayDown, Accrued, PayOff, DebtToSatoshisWithBonus;
    if instruction.RepayBtc? && ApplyBtcLending(s, clock, instruction).Ok? {
      PayDownEffect(s.pool, s.poolTokens, clock.slot, s.btcPositions[instruction.key].principal,
                    instruction.amount, instruction.amount == U64_MAX, instruction.wallet);
    }
  }

  /** While frozen every transaction but the unfreezing one keeps the freeze and subdues the state, and no
      collateral movement, borrowing or liquidation commits. */
  lemma StepSubdued(s: State, tx: Transaction)
    requires s.protocol.frozen && RAY <= s.pool.borrowIndex && !UnfreezesProtocol(tx)
    ensures Subdued(s, Next(s, tx)) && Next(s, tx).protocol.frozen
    ensures Barred(tx) ==> !Commits(s, tx)
  {
    if Barred(tx) {
      BarredFails(s, tx);
    }
    hide ApplyCustody, ApplyBreaker, ApplyLending, ApplyBtcCustody, ApplyBtcLending;
    match tx.instruction
    case Custody(instruction) =>
      CustodyFrame(s, tx.clock.now, instruction);
      CustodySubdued(s, tx.clock.now, instruction);
    case Breaker(instruction) =>
      BreakerFrame(s, instruction);
      BreakerSubdued(s, instruction);
      if ApplyBreaker(s, instruction).Ok? {
        BreakerCommits(s, instruction);
      }
    case Lending(instruction) =>
      LendingFrame(s, tx.clock, instruction);
      LendingSubdued(s, tx.clock, instruction);
    case BtcCustody(instruction) =>
      BtcCustodyFrame(s, tx.clock, instruction);
      BtcCustodySubdued(s, tx.clock, instruction);
    case BtcLending(instruction) =>
      BtcLendingFrame(s, tx.clock, instruction);
      BtcLendingSubdued(s, tx.clock, instruction);
  }

  lemma BtcCustodySubdued(s: State, clock: Clock, instruction: BtcCustodyInstruction)
    ensures NoneStarted(s, Outcome(s, ApplyBtcCustody(s, clock, instruction)))
  {
    hide ParseForBtcDwallet, ValidBitcoinAddress;
  }

  lemma SubduedIsTransitive(a: State, b: State, c: State)
    requires Subdued(a, b) && Subdued(b, c)
    ensures Subdued(a, c)
  {
  }

  /** An admin freeze, or a risk check that failed. */
  predicate Freezes(tx: Transaction) {
    tx.instruction.Breaker?
    && (tx.instruction.breaker.CircuitBreakerFreeze?
        || (tx.instruction.breaker.TriggerRiskCheck? && !tx.instruction.breaker.isSafe))
  }

  /** An admin freeze and a failed risk check freeze the protocol and the vault they name. */
  lemma FreezeFreezes(s: State, tx: Transaction)
    requires Freezes(tx) && Commits(s, tx)
    ensures Next(s, tx).protocol.frozen
    ensures tx.instruction.breaker.key in Next(s, tx).vaults
            && Next(s, tx).vaults[tx.instruction.breaker.key].frozen
  {
    hide ApplyBreaker;
    BreakerCommits(s, tx.instruction.breaker);
  }

  // ---- runs ----

  /** From a frozen state on, until the protocol is unfrozen, every later state is frozen and subdued, and
      nothing barred commits. */
  lemma {:induction false} FrozenUntilUnfrozen(r: Run, i: nat, j: nat)
    requires IsRun(r) && i <= j <= |r.txs| && r.states[i].protocol.frozen
    requires forall m | i <= m < j :: !UnfreezesProtocol(r.txs[m])
    ensures r.states[j].protocol.frozen && Subdued(r.states[i], r.states[j])
    ensures forall m | i <= m < j :: Barred(r.txs[m]) ==> !CommitsAt(r, m)
    decreases j
  {
    hide Next, Apply, Barred, Initial, Inv, LoansShrink, SameDeposits, NoneStarted;
    if i == j {
      SubduedIsReflexive(r.states[i]);
    } else {
      FrozenUntilUnfrozen(r, i, j - 1);
      IndexAlwaysAtLeastOne(r, j - 1);
      StepSubdued(r.states[j - 1], r.txs[j - 1]);
      SubduedIsTransitive(r.states[i], r.states[j - 1], r.states[j]);
    }
  }

  /** So after a committed freeze, and until the protocol is unfrozen, nothing barred commits and every state is
      a subdued one of the state the freeze left. */
  lemma FreezeLasts(r: Run, i: nat, j: nat)
    requires IsRun(r) && i < j <= |r.txs| && Freezes(r.txs[i]) && CommitsAt(r, i)
    requires forall m | i < m < j :: !UnfreezesProtocol(r.txs[m])
    ensures r.states[j].protocol.frozen && Subdued(r.states[i + 1], r.states[j])
    ensures forall m | i < m < j :: Barred(r.txs[m]) ==> !CommitsAt(r, m)
  {
    hide Next, Apply, Barred, Freezes, Initial, Subdued;
    FreezeFreezes(r.states[i], r.txs[i]);
    FrozenUntilUnfrozen(r, i + 1, j);
  }

  lemma SubduedIsReflexive(s: State)
    ensures Subdued(s, s)
  {
  }

  // ---- what stays possible ----

  function WithFlag(s: State, frozen: bool): State {
    s.(protocol := s.protocol.(frozen := frozen))
  }

  function CommitWithFlag(r: Result<Commit>, frozen: bool): Result<Commit> {
    match r
    case Err(e) => Err(e)
    case Ok(c) => Ok(c.(state := WithFlag(c.state, frozen)))
  }

  /** Repayments and finalisations do exactly what they would do in an unfrozen protocol. */
  lemma RepaymentIgnoresFreeze(s: State, tx: Transaction, frozen: bool)
    requires (tx.instruction.Lending? && tx.instruction.lending.Repay?)
             || (tx.instruction.BtcLending?
                 && (tx.instruction.btcLending.RepayBtc? || tx.instruction.btcLending.FinalizeBtcLiquidation?))
    ensures Apply(WithFlag(s, frozen), tx) == CommitWithFlag(Apply(s, tx), frozen)
  {
    hide PayDown, PaidPositions;
  }
}
