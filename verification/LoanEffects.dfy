/** What committed loan instructions of either path did to the pool and to the loans. */
module LoanEffects {
  import opened Prelude
  import opened Pricing
  import opened Interest
  import opened Loans
  import opened Accounts
  import opened Steps
  import opened Invariants
  import opened Runs

  /** A transaction on a loan of either path. */
  predicate OnLoan(tx: Transaction) {
    tx.instruction.Lending? || tx.instruction.BtcLending?
  }

  function LoanKey(tx: Transaction): VaultKey
    requires OnLoan(tx)
  {
    if tx.instruction.Lending? then tx.instruction.lending.key else tx.instruction.btcLending.key
  }

  /** The loans of the path a transaction acts on. */
  function LoansOf(s: State, tx: Transaction): map<VaultKey, Position> {
    if tx.instruction.Lending? then s.positions else s.btcPositions
  }

  /** The principal of the loan a transaction acts on. */
  function PrincipalOf(s: State, tx: Transaction): nat {
    if OnLoan(tx) && LoanKey(tx) in LoansOf(s, tx) then LoansOf(s, tx)[LoanKey(tx)].principal else 0
  }

  /** A Bitcoin repayment of everything the wallet can give, the rest to be forgiven. */
  predicate RepaysAll(tx: Transaction) {
    tx.instruction.BtcLending? && tx.instruction.btcLending.RepayBtc? && tx.instruction.btcLending.amount == U64_MAX
  }

  /** Of the pool only the total and the index move, and the index never falls. */
  predicate PoolMoves(before: Pool, after: Pool) {
    before.borrowIndex <= after.borrowIndex && before.lastUpdateSlot <= after.lastUpdateSlot
    && after == before.(totalBorrowed := after.totalBorrowed, borrowIndex := after.borrowIndex,
                        lastUpdateSlot := after.lastUpdateSlot)
  }

  /** Pool and loan after a committed transaction, told from its event. */
  predicate LoanEffect(s: State, tx: Transaction, c: Commit)
    requires OnLoan(tx) && c.state.pool.borrowIndex > 0
  {
    var key, loans, loansAfter := LoanKey(tx), LoansOf(s, tx), LoansOf(c.state, tx);
    var total, totalAfter: int := s.pool.totalBorrowed, c.state.pool.totalBorrowed;
    var index, principal := c.state.pool.borrowIndex, PrincipalOf(s, tx);
    var debt := Debt(principal, index);
    match c.event
    case BorrowOpened(amount, scaled) =>
      (Borrows(tx, key) || BorrowsBtc(tx, key))
      && key !in loans && key in loansAfter && loansAfter == loans[key := loansAfter[key]]
      && amount > 0 && scaled == Scaled(amount, index)
      && loansAfter[key] == Position(loansAfter[key].owner, scaled, tx.clock.now, tx.clock.now, index)
      && totalAfter == total + scaled
      && c.state.poolTokens == s.poolTokens - amount
      && amount + Debt(total, index) <= s.pool.totalLiquidity
    case BorrowRepaid(paid, remaining) =>
      (Repays(tx, key) || RepaysBtc(tx, key))
      && key in loans && 0 < principal
      && (if remaining == 0 then loansAfter == loans - {key}
          else loansAfter == loans[key := loans[key].(principal := remaining, lastUpdatedAt := tx.clock.now,
                                                      indexSnapshot := index)])
      && 0 < paid <= debt
      && remaining == (if RepaysAll(tx) || paid == debt then 0 else principal - Scaled(paid, index))
      && totalAfter == total - (principal - remaining)
      && c.state.poolTokens == s.poolTokens + paid
    case PositionLiquidated(repaid, _, _) =>
      Liquidates(tx, key) && key in loans && 0 < principal && loansAfter == loans - {key}
      && repaid == debt && totalAfter == total - principal
      && c.state.poolTokens == s.poolTokens + repaid
    case BtcLiquidationInitiated(repaid, _) =>
      LiquidatesBtc(tx, key) && key in loans && 0 < principal
      && loansAfter == loans[key := loans[key].(principal := 0, lastUpdatedAt := tx.clock.now,
                                                indexSnapshot := index)]
      && repaid == debt && totalAfter == total - principal
      && c.state.poolTokens == s.poolTokens + repaid
    case Done =>
      FinalizesBtc(tx, key) && InFlight(s, key) && key in loans && principal == 0 && loansAfter == loans - {key}
      && c.state.pool == s.pool && c.state.poolTokens == s.poolTokens
  }

  lemma SlotNeverFalls(pool: Pool, slot: u64)
    ensures Accrued(pool, slot).Ok? ==> PoolMoves(pool, Accrued(pool, slot).value)
  {
  }

  lemma BorrowEffect(s: State, tx: Transaction)
    requires RAY <= s.pool.borrowIndex && Commits(s, tx)
    requires tx.instruction.Lending? && tx.instruction.lending.Borrow?
    ensures PoolMoves(s.pool, Next(s, tx).pool) && LoanEffect(s, tx, Apply(s, tx).value)
  {
    hide BorrowGuard, DrawFunds, PoolMoves;
    var amount := tx.instruction.lending.amount;
    DrawEffect(s.pool, s.poolTokens, tx.clock.slot, amount);
    DrawMoves(s.pool, s.poolTokens, tx.clock.slot, amount);
    GuardedAmount(s, tx);
  }

  lemma GuardedAmount(s: State, tx: Transaction)
    requires Commits(s, tx)
    requires OnLoan(tx) && (Borrows(tx, LoanKey(tx)) || BorrowsBtc(tx, LoanKey(tx)))
    ensures tx.instruction.Lending? ==> tx.instruction.lending.amount > 0
    ensures tx.instruction.BtcLending? ==> tx.instruction.btcLending.amount > 0
  {
    hide DrawFunds, FreshGuard, LimitGuard;
  }

  lemma DrawMoves(account: Pool, tokens: u64, slot: u64, amount: u64)
    requires DrawFunds(account, tokens, slot, amount).Ok?
    ensures PoolMoves(account, DrawFunds(account, tokens, slot, amount).value.pool)
  {
    hide Accrued, ToScaled;
    SlotNeverFalls(account, slot);
  }

  lemma PayDownMoves(account: Pool, tokens: u64, slot: u64, principal: u64, amount: u64, all: bool, wallet: u64)
    requires PayDown(account, tokens, slot, principal, amount, all, wallet).Ok?
    ensures PoolMoves(account, PayDown(account, tokens, slot, principal, amount, all, wallet).value.pool)
  {
    hide Accrued, ToScaled, CurrentDebt, ReceiveTokens;
    SlotNeverFalls(account, slot);
  }

  lemma BorrowBtcEffect(s: State, tx: Transaction)
    requires RAY <= s.pool.borrowIndex && Commits(s, tx)
    requires tx.instruction.BtcLending? && tx.instruction.btcLending.BorrowBtc?
    ensures PoolMoves(s.pool, Next(s, tx).pool) && LoanEffect(s, tx, Apply(s, tx).value)
  {
    hide BtcBorrowGuard, DrawFunds, PoolMoves;
    var amount := tx.instruction.btcLending.amount;
    DrawEffect(s.pool, s.poolTokens, tx.clock.slot, amount);
    DrawMoves(s.pool, s.poolTokens, tx.clock.slot, amount);
    GuardedAmount(s, tx);
  }

  lemma RepayEffect(s: State, tx: Transaction)
    requires RAY <= s.pool.borrowIndex && Commits(s, tx)
    requires tx.instruction.Lending? && tx.instruction.lending.Repay?
    ensures PoolMoves(s.pool, Next(s, tx).pool) && LoanEffect(s, tx, Apply(s, tx).value)
  {
    hide PayDown, PoolMoves;
    var i := tx.instruction.lending;
    PayDownEffect(s.pool, s.poolTokens, tx.clock.slot, PrincipalOf(s, tx), i.amount, false, i.wallet);
    PayDownMoves(s.pool, s.poolTokens, tx.clock.slot, PrincipalOf(s, tx), i.amount, false, i.wallet);
  }

  lemma RepayBtcEffect(s: State, tx: Transaction)
    requires RAY <= s.pool.borrowIndex && Commits(s, tx)
    requires tx.instruction.BtcLending? && tx.instruction.btcLending.RepayBtc?
    ensures PoolMoves(s.pool, Next(s, tx).pool) && LoanEffect(s, tx, Apply(s, tx).value)
  {
    hide PayDown, PoolMoves;
    var i := tx.instruction.btcLending;
    PayDownEffect(s.pool, s.poolTokens, tx.clock.slot, PrincipalOf(s, tx), i.amount, i.amount == U64_MAX, i.wallet);
    PayDownMoves(s.pool, s.poolTokens, tx.clock.slot, PrincipalOf(s, tx), i.amount, i.amount == U64_MAX, i.wallet);
  }

  lemma LiquidateEffect(s: State, tx: Transaction)
    requires Commits(s, tx) && RAY <= s.pool.borrowIndex
    requires tx.instruction.Lending? && tx.instruction.lending.Liquidate?
    ensures PoolMoves(s.pool, Next(s, tx).pool) && LoanEffect(s, tx, Apply(s, tx).value)
  {
    hide Accrued, FreshGuard, Seize, IsLiquidatable;
    SlotNeverFalls(s.pool, tx.clock.slot);
  }

  lemma LiquidateBtcEffect(s: State, tx: Transaction)
    requires Commits(s, tx) && RAY <= s.pool.borrowIndex
    requires tx.instruction.BtcLending? && tx.instruction.btcLending.LiquidateBtc?
    ensures PoolMoves(s.pool, Next(s, tx).pool) && LoanEffect(s, tx, Apply(s, tx).value)
  {
    hide Accrued, FreshGuard, IsLiquidatable, DebtToSatoshisWithBonus;
    SlotNeverFalls(s.pool, tx.clock.slot);
  }

  lemma FinalizeEffect(s: State, tx: Transaction)
    requires Commits(s, tx) && RAY <= s.pool.borrowIndex
    requires tx.instruction.BtcLending? && tx.instruction.btcLending.FinalizeBtcLiquidation?
    ensures PoolMoves(s.pool, Next(s, tx).pool) && LoanEffect(s, tx, Apply(s, tx).value)
  {
  }

  /** Every committed loan transaction has the effect its event tells. */
  lemma LoanCommits(s: State, tx: Transaction)
    requires OnLoan(tx) && Commits(s, tx) && RAY <= s.pool.borrowIndex
    ensures PoolMoves(s.pool, Next(s, tx).pool) && LoanEffect(s, tx, Apply(s, tx).value)
  {
    hide Apply, LoanEffect, PoolMoves;
    if tx.instruction.Lending? {
      match tx.instruction.lending
      case Borrow(_, _, _, _) => BorrowEffect(s, tx);
      case Repay(_, _, _, _) => RepayEffect(s, tx);
      case Liquidate(_, _, _, _, _) => LiquidateEffect(s, tx);
    } else {
      match tx.instruction.btcLending
      case BorrowBtc(_, _, _, _) => BorrowBtcEffect(s, tx);
      case RepayBtc(_, _, _, _) => RepayBtcEffect(s, tx);
      case LiquidateBtc(_, _, _, _, _, _, _) => LiquidateBtcEffect(s, tx);
      case FinalizeBtcLiquidation(_, _, _, _, _) => FinalizeEffect(s, tx);
    }
  }

  /** A committed loan transaction accrues the pool once and otherwise moves its total only; a finalisation
      leaves the pool alone. */
  lemma LoanAccrues(s: State, tx: Transaction)
    requires OnLoan(tx) && Commits(s, tx)
    ensures var pool := Next(s, tx).pool;
            if FinalizesBtc(tx, LoanKey(tx)) then pool == s.pool
            else Accrued(s.pool, tx.clock.slot).Ok?
                 && pool == Accrued(s.pool, tx.clock.slot).value.(totalBorrowed := pool.totalBorrowed)
  {
    hide Accrued, DrawFunds, PayDown, PaidPositions, BorrowGuard, BtcBorrowGuard, LiquidatorGuard, FreshGuard, PayOff,
      Seize, DebtToSatoshisWithBonus;
    var tokens, slot, principal := s.poolTokens, tx.clock.slot, PrincipalOf(s, tx);
    if tx.instruction.Lending? {
      var i := tx.instruction.lending;
      match i
      case Borrow(_, _, amount, _) => DrawAccrues(s.pool, tokens, slot, amount);
      case Repay(_, _, amount, wallet) => PayDownPool(s.pool, tokens, slot, principal, amount, false, wallet);
      case Liquidate(_, _, _, _, _) =>
    } else {
      var i := tx.instruction.btcLending;
      match i
      case BorrowBtc(_, _, amount, _) => DrawAccrues(s.pool, tokens, slot, amount);
      case RepayBtc(_, _, amount, wallet) =>
        PayDownPool(s.pool, tokens, slot, principal, amount, amount == U64_MAX, wallet);
      case _ =>
    }
  }

  /** No other transaction touches the pool or a loan. */
  lemma OthersLeaveLoans(s: State, tx: Transaction)
    requires !OnLoan(tx)
    ensures SameLoans(s, Next(s, tx))
  {
    hide ApplyCustody, ApplyBreaker, ApplyBtcCustody;
    match tx.instruction
    case Custody(instruction) => CustodyFrame(s, tx.clock.now, instruction);
    case Breaker(instruction) => BreakerFrame(s, instruction);
    case BtcCustody(instruction) => BtcCustodyFrame(s, tx.clock, instruction);
  }

  /** Over a run only the pool's total, index and slot move, and the latter two never fall. */
  lemma {:induction false} PoolOnlyMoves(r: Run, i: nat, j: nat)
    requires IsRun(r) && i <= j <= |r.txs|
    ensures PoolMoves(r.states[i].pool, r.states[j].pool)
    decreases j
  {
    hide Apply, Initial, VaultsConsistent, LoanEffect;
    if i < j {
      PoolOnlyMoves(r, i, j - 1);
      InvAlways(r, j - 1);
      var s, tx := r.states[j - 1], r.txs[j - 1];
      if OnLoan(tx) && Commits(s, tx) {
        LoanCommits(s, tx);
      } else if !OnLoan(tx) {
        OthersLeaveLoans(s, tx);
      }
    }
  }

  // ---- a failed accrual ----

  /** Slots from transaction i to j are not before that of i. */
  ghost predicate SlotsFrom(r: Run, i: nat, j: nat)
    requires i <= j < |r.txs|
  {
    forall m | i <= m <= j :: r.txs[i].clock.slot <= r.txs[m].clock.slot
  }

  /** Once the pool cannot be accrued, slots going on, it never changes again: no borrow, repayment or liquidation
      of either path commits, only finalisations do. */
  lemma {:induction false} FailedAccrualStalls(r: Run, i: nat, j: nat)
    requires IsRun(r) && i <= j < |r.txs| && Accrued(r.states[i].pool, r.txs[i].clock.slot).Err?
    requires SlotsFrom(r, i, j)
    ensures r.states[j].pool == r.states[i].pool
    ensures OnLoan(r.txs[j]) && !FinalizesBtc(r.txs[j], LoanKey(r.txs[j])) ==> !CommitsAt(r, j)
    decreases j
  {
    hide Apply, Accrued, Initial;
    if i < j {
      assert SlotsFrom(r, i, j - 1);
      FailedAccrualStalls(r, i, j - 1);
      var s, tx := r.states[j - 1], r.txs[j - 1];
      if !OnLoan(tx) {
        OthersLeaveLoans(s, tx);
      } else if Commits(s, tx) {
        LoanAccrues(s, tx);
      }
    }
    FailedAccrualKeepsFailing(r.states[i].pool, r.txs[i].clock.slot, r.txs[j].clock.slot);
    if OnLoan(r.txs[j]) && CommitsAt(r, j) {
      LoanAccrues(r.states[j], r.txs[j]);
    }
  }
}
