/** Loans without principal: how they arise, and that they stay. */
module StuckLoans {
  import opened Prelude
  import opened Interest
  import opened Loans
  import opened Accounts
  import opened Steps
  import opened Invariants
  import opened Runs
  import opened LoanEffects
  import opened LoanLaws
  import opened BtcProtocol
  import opened Example
  import opened Pricing

  /** A loan that owes nothing and, on the Bitcoin path, is not waiting for a finalisation. */
  predicate Stuck(s: State, key: VaultKey) {
    key in s.positions && s.positions[key].principal == 0
  }

  predicate StuckBtc(s: State, key: VaultKey) {
    key in s.btcPositions && s.btcPositions[key].principal == 0 && !InFlight(s, key)
  }

  /** A transaction on the vault's loan of the SOL path. */
  predicate OnSolLoan(tx: Transaction, key: VaultKey) {
    tx.instruction.Lending? && tx.instruction.lending.key == key
  }

  predicate OnBtcLoan(tx: Transaction, key: VaultKey) {
    tx.instruction.BtcLending? && tx.instruction.btcLending.key == key
  }

  /** A loan without principal cannot be repaid, liquidated or replaced. */
  lemma StuckBlocks(s: State, tx: Transaction, key: VaultKey)
    requires RAY <= s.pool.borrowIndex
    requires (Stuck(s, key) && OnSolLoan(tx, key)) || (StuckBtc(s, key) && OnBtcLoan(tx, key))
    ensures !Commits(s, tx)
  {
    hide Apply;
    if Commits(s, tx) {
      LoanCommits(s, tx);
    }
  }

  lemma StuckStays(s: State, tx: Transaction, key: VaultKey)
    requires RAY <= s.pool.borrowIndex && KeyConsistent(s, key) && tx.clock.now > 0
    ensures Stuck(s, key) ==> Stuck(Next(s, tx), key)
    ensures StuckBtc(s, key) ==> StuckBtc(Next(s, tx), key)
  {
    hide Apply, KeyConsistent;
    InFlightChange(s, tx, key);
    if (Stuck(s, key) && OnSolLoan(tx, key)) || (StuckBtc(s, key) && OnBtcLoan(tx, key)) {
      StuckBlocks(s, tx, key);
    }
    if OnLoan(tx) && Commits(s, tx) {
      LoanCommits(s, tx);
      OtherPathUntouched(s, tx);
    } else if !OnLoan(tx) {
      OthersLeaveLoans(s, tx);
    }
  }

  lemma OtherPathUntouched(s: State, tx: Transaction)
    requires OnLoan(tx)
    ensures tx.instruction.Lending? ==> Next(s, tx).btcPositions == s.btcPositions
    ensures tx.instruction.BtcLending? ==> Next(s, tx).positions == s.positions
  {
    hide ApplyLending, ApplyBtcLending;
    match tx.instruction
    case Lending(instruction) => LendingFrame(s, tx.clock, instruction);
    case BtcLending(instruction) => BtcLendingFrame(s, tx.clock, instruction);
  }

  /** So once there it stays for ever and blocks the vault's loan. */
  lemma {:induction false} StuckForEver(r: Run, i: nat, j: nat, key: VaultKey)
    requires IsRun(r) && i <= j <= |r.txs|
    ensures Stuck(r.states[i], key) ==>
              Stuck(r.states[j], key) && (j < |r.txs| && OnSolLoan(r.txs[j], key) ==> !CommitsAt(r, j))
    ensures StuckBtc(r.states[i], key) ==>
              StuckBtc(r.states[j], key) && (j < |r.txs| && OnBtcLoan(r.txs[j], key) ==> !CommitsAt(r, j))
    decreases j
  {
    hide Next, Apply, Initial, Stuck, StuckBtc, Inv;
    InvAlways(r, j);
    InvBoundsPool(r.states[j]);
    if i < j {
      StuckForEver(r, i, j - 1, key);
      InvAlways(r, j - 1);
      InvBoundsPool(r.states[j - 1]);
      KeyAlwaysConsistent(r, j - 1, key);
      StuckStays(r.states[j - 1], r.txs[j - 1], key);
    }
    if j < |r.txs| && ((Stuck(r.states[j], key) && OnSolLoan(r.txs[j], key))
                       || (StuckBtc(r.states[j], key) && OnBtcLoan(r.txs[j], key))) {
      StuckBlocks(r.states[j], r.txs[j], key);
    }
  }

  /** The only way there is borrowing less than one scaled unit. */
  lemma StuckByDustBorrowOnly(s: State, tx: Transaction, key: VaultKey)
    requires Inv(s) && tx.clock.now > 0
    ensures var after := Next(s, tx);
            var dust := Commits(s, tx) && OnLoan(tx) && Apply(s, tx).value.event.BorrowOpened?
                        && Apply(s, tx).value.event.amount * RAY < after.pool.borrowIndex;
            (Stuck(after, key) && !Stuck(s, key) <==> dust && OnSolLoan(tx, key))
            && (StuckBtc(after, key) && !StuckBtc(s, key) <==> dust && OnBtcLoan(tx, key))
  {
    hide Apply, Inv;
    InvBoundsPool(s);
    KeyIsConsistent(s, key);
    InFlightChange(s, tx, key);
    if OnLoan(tx) && Commits(s, tx) {
      LoanCommits(s, tx);
      OtherPathUntouched(s, tx);
      if Apply(s, tx).value.event.BorrowOpened? {
        DustLoan(Apply(s, tx).value.event.amount, Next(s, tx).pool.borrowIndex);
      }
    } else if !OnLoan(tx) {
      OthersLeaveLoans(s, tx);
    }
  }

  lemma DustBorrowCommits(index: u128)
    requires RAY < index
    ensures var s := OneVault(index, 6000, 7500, 1_000_000_000);
            Inv(s) && BorrowStep(s, Clock(1, 0), Address(), Owner(), 1, Feed(PRICE_ONE, 1)).Ok?
  {
    hide BorrowStep;
    OneVaultIsConsistent(index, 6000, 7500, 1_000_000_000);
    BorrowSucceedsIff(OneVault(index, 6000, 7500, 1_000_000_000), Clock(1, 0), Address(), Owner(), 1,
                      Feed(PRICE_ONE, 1));
  }

  /** And it happens: as soon as any interest has accrued, a borrow of one unit leaves a stuck loan. */
  lemma DustBorrowSticks(index: u128)
    requires RAY < index
    ensures var s, feed := OneVault(index, 6000, 7500, 1_000_000_000), Feed(PRICE_ONE, 1);
            var r := BorrowStep(s, Clock(1, 0), Address(), Owner(), 1, feed);
            Inv(s) && r.Ok? && Stuck(r.value.state, Address())
  {
    hide BorrowGuard, Inv, Scaled;
    DustBorrowCommits(index);
    DustLoan(1, index);
  }
}
