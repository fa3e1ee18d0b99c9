/** Runs of the program: any transactions, at clock readings that never go back, from initialisation on. */
module Runs {
  import opened Interest
  import opened Accounts
  import opened Steps
  import opened Invariants

  datatype Run = Run(states: seq<State>, txs: seq<Transaction>)

  ghost predicate IsRun(r: Run) {
    |r.states| == |r.txs| + 1
    && Initial(r.states[0])
    && (forall i | 0 <= i < |r.txs| :: r.states[i + 1] == Next(r.states[i], r.txs[i]))
    && (forall i | 0 <= i < |r.txs| :: r.txs[i].clock.now > 0)
    && (forall i, j | 0 <= i <= j < |r.txs| :: r.txs[i].clock.now <= r.txs[j].clock.now)
  }

  predicate Commits(s: State, tx: Transaction) {
    Apply(s, tx).Ok?
  }

  /** Transaction i of the run commits. */
  predicate CommitsAt(r: Run, i: nat)
    requires i < |r.txs| < |r.states|
  {
    Commits(r.states[i], r.txs[i])
  }

  lemma InitialIsConsistent(s: State)
    requires Initial(s)
    ensures Inv(s)
  {
  }

  /** The invariant holds in every reachable state. */
  lemma {:induction false} InvAlways(r: Run, i: nat)
    requires IsRun(r) && i <= |r.txs|
    ensures Inv(r.states[i])
  {
    hide Inv, Next;
    if i == 0 {
      InitialIsConsistent(r.states[0]);
    } else {
      InvAlways(r, i - 1);
      InvStays(r.states[i - 1], r.txs[i - 1]);
    }
  }

  lemma KeyAlwaysConsistent(r: Run, i: nat, key: VaultKey)
    requires IsRun(r) && i <= |r.txs|
    ensures KeyConsistent(r.states[i], key)
  {
    hide PoolConsistent, KeyConsistent, Initial, Next;
    InvAlways(r, i);
  }

  lemma IndexAlwaysAtLeastOne(r: Run, i: nat)
    requires IsRun(r) && i <= |r.txs|
    ensures RAY <= r.states[i].pool.borrowIndex
  {
    hide Next, Initial, VaultsConsistent;
    InvAlways(r, i);
  }

  // ---- which transaction is which ----

  predicate Verifies(tx: Transaction, key: VaultKey) {
    tx.instruction.Custody? && tx.instruction.custody.VerifyCustodyProof? && tx.instruction.custody.key == key
  }

  predicate Refreshes(tx: Transaction, key: VaultKey) {
    tx.instruction.Custody? && tx.instruction.custody.RefreshCustodyProof? && tx.instruction.custody.key == key
  }

  predicate Deposits(tx: Transaction, key: VaultKey) {
    tx.instruction.Custody? && tx.instruction.custody.DepositCollateral? && tx.instruction.custody.key == key
  }

  predicate Withdraws(tx: Transaction, key: VaultKey) {
    tx.instruction.Custody? && tx.instruction.custody.WithdrawCollateral? && tx.instruction.custody.key == key
  }

  predicate Closes(tx: Transaction, key: VaultKey) {
    tx.instruction.Custody? && tx.instruction.custody.CloseVault? && tx.instruction.custody.key == key
  }

  predicate Borrows(tx: Transaction, key: VaultKey) {
    tx.instruction.Lending? && tx.instruction.lending.Borrow? && tx.instruction.lending.key == key
  }

  predicate Repays(tx: Transaction, key: VaultKey) {
    tx.instruction.Lending? && tx.instruction.lending.Repay? && tx.instruction.lending.key == key
  }

  predicate Liquidates(tx: Transaction, key: VaultKey) {
    tx.instruction.Lending? && tx.instruction.lending.Liquidate? && tx.instruction.lending.key == key
  }

  predicate VerifiesBtc(tx: Transaction, key: VaultKey) {
    tx.instruction.BtcCustody? && tx.instruction.btcCustody.VerifyBtcCustodyProof?
    && tx.instruction.btcCustody.key == key
  }

  predicate BorrowsBtc(tx: Transaction, key: VaultKey) {
    tx.instruction.BtcLending? && tx.instruction.btcLending.BorrowBtc? && tx.instruction.btcLending.key == key
  }

  predicate RepaysBtc(tx: Transaction, key: VaultKey) {
    tx.instruction.BtcLending? && tx.instruction.btcLending.RepayBtc? && tx.instruction.btcLending.key == key
  }

  predicate LiquidatesBtc(tx: Transaction, key: VaultKey) {
    tx.instruction.BtcLending? && tx.instruction.btcLending.LiquidateBtc? && tx.instruction.btcLending.key == key
  }

  predicate FinalizesBtc(tx: Transaction, key: VaultKey) {
    tx.instruction.BtcLending? && tx.instruction.btcLending.FinalizeBtcLiquidation?
    && tx.instruction.btcLending.key == key
  }

  predicate UnfreezesProtocol(tx: Transaction) {
    tx.instruction.Breaker? && tx.instruction.breaker.UnfreezeProtocolState?
  }
}
