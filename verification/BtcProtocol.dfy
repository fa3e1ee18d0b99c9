/** The two-phase Bitcoin liquidation over all interleavings. */
module BtcProtocol {
  import opened Prelude
  import opened Approvals
  import opened Pricing
  import opened Interest
  import opened Loans
  import opened Accounts
  import opened Steps
  import opened Invariants
  import opened Runs

  /** The vault's custody proof stands. */
  predicate BtcVerified(s: State, key: VaultKey) {
    key in s.btcVaults && s.btcVaults[key].proofStatus == Verified
  }

  // ---- one transaction ----

  lemma BtcLoanInFlight(s: State, tx: Transaction, key: VaultKey)
    requires tx.instruction.BtcLending? && tx.clock.now > 0
    requires KeyConsistent(s, key)
    ensures var after := Next(s, tx);
            (InFlight(after, key) && !InFlight(s, key) <==> LiquidatesBtc(tx, key) && Commits(s, tx))
            && (InFlight(s, key) && !InFlight(after, key) <==> FinalizesBtc(tx, key) && Commits(s, tx))
  {
    hide DrawFunds, PayDown, PaidPositions, Accrued, LiquidatorGuard, FreshGuard, PayOff, BtcBorrowGuard,
      DebtToSatoshisWithBonus;
  }

  lemma BtcLoanProof(s: State, tx: Transaction, key: VaultKey)
    requires tx.instruction.BtcLending?
    ensures var after := Next(s, tx);
            (FinalizesBtc(tx, key) && Commits(s, tx) ==> !BtcVerified(after, key))
            && (BtcVerified(after, key) ==> BtcVerified(s, key))
  {
    hide DrawFunds, PayDown, PaidPositions, Accrued, LiquidatorGuard, FreshGuard, PayOff, BtcBorrowGuard,
      DebtToSatoshisWithBonus;
  }

  lemma BtcBorrowNeeds(s: State, tx: Transaction, key: VaultKey)
    requires BorrowsBtc(tx, key) && Commits(s, tx) && KeyConsistent(s, key)
    ensures !InFlight(s, key) && BtcVerified(s, key)
  {
    hide DrawFunds, FreshGuard, LimitGuard;
  }

  lemma RegistrationInFlight(s: State, tx: Transaction, key: VaultKey)
    requires tx.instruction.BtcCustody? && tx.instruction.btcCustody.RegisterBtcVault?
    ensures InFlight(Next(s, tx), key) <==> InFlight(s, key)
  {
    hide ValidBitcoinAddress, DefaultKey;
  }

  lemma AttestationInFlight(s: State, tx: Transaction, key: VaultKey)
    requires tx.instruction.BtcCustody? && tx.instruction.btcCustody.AttestBtcBalance?
    ensures InFlight(Next(s, tx), key) <==> InFlight(s, key)
  {
  }

  lemma BtcCustodyInFlight(s: State, tx: Transaction, key: VaultKey)
    requires tx.instruction.BtcCustody?
    ensures InFlight(Next(s, tx), key) <==> InFlight(s, key)
  {
    hide ParseForBtcDwallet, RegisterBtcVaultStep, AttestBtcBalanceStep;
    match tx.instruction.btcCustody
    case RegisterBtcVault(_, _, _, _) => RegistrationInFlight(s, tx, key);
    case AttestBtcBalance(_, _, _, _) => AttestationInFlight(s, tx, key);
    case _ =>
  }

  lemma BtcCustodyProof(s: State, tx: Transaction, key: VaultKey)
    requires tx.instruction.BtcCustody?
    ensures BtcVerified(Next(s, tx), key) && !BtcVerified(s, key) ==> VerifiesBtc(tx, key) && Commits(s, tx)
  {
    hide ParseForBtcDwallet, ValidBitcoinAddress, DefaultKey;
  }

  /** Initiation and finalisation are the only transactions that change whether a vault is in flight, and
      verification the only one that makes its proof stand. */
  lemma InFlightChange(s: State, tx: Transaction, key: VaultKey)
    requires KeyConsistent(s, key) && tx.clock.now > 0
    ensures var after := Next(s, tx);
            (InFlight(after, key) && !InFlight(s, key) <==> LiquidatesBtc(tx, key) && Commits(s, tx))
            && (InFlight(s, key) && !InFlight(after, key) <==> FinalizesBtc(tx, key) && Commits(s, tx))
            && (FinalizesBtc(tx, key) && Commits(s, tx) ==> !BtcVerified(after, key))
            && (BorrowsBtc(tx, key) && Commits(s, tx) ==> !InFlight(s, key) && BtcVerified(s, key))
            && (BtcVerified(after, key) && !BtcVerified(s, key) ==> VerifiesBtc(tx, key) && Commits(s, tx))
  {
    hide ApplyCustody, ApplyBreaker, ApplyLending, ApplyBtcCustody, ApplyBtcLending, KeyConsistent;
    match tx.instruction
    case Custody(instruction) => CustodyFrame(s, tx.clock.now, instruction);
    case Breaker(instruction) => BreakerFrame(s, instruction);
    case Lending(instruction) => LendingFrame(s, tx.clock, instruction);
    case BtcCustody(_) =>
      BtcCustodyInFlight(s, tx, key);
      BtcCustodyProof(s, tx, key);
    case BtcLending(_) =>
      BtcLoanInFlight(s, tx, key);
      BtcLoanProof(s, tx, key);
      if BorrowsBtc(tx, key) && Commits(s, tx) {
        BtcBorrowNeeds(s, tx, key);
      }
  }

  /** In flight, nothing on the vault's loan succeeds but the finalisation. */
  lemma InFlightBlocksLoan(s: State, tx: Transaction, key: VaultKey)
    requires Inv(s) && InFlight(s, key)
    requires BorrowsBtc(tx, key) || RepaysBtc(tx, key) || LiquidatesBtc(tx, key)
    ensures !Commits(s, tx)
  {
    hide DrawFunds, PayDown, PaidPositions, Accrued, LiquidatorGuard, FreshGuard, PayOff, LimitGuard,
      DebtToSatoshisWithBonus, PoolConsistent;
    assert KeyConsistent(s, key);
    if RepaysBtc(tx, key) && Commits(s, tx) {
      var amount := tx.instruction.btcLending.amount;
      InvBoundsPool(s);
      PayDownEffect(s.pool, s.poolTokens, tx.clock.slot, s.btcPositions[key].principal, amount,
                    amount == U64_MAX, tx.instruction.btcLending.wallet);
    }
  }

  /** A liquidation in flight can always be finalised by the keeper: the guard on the debt never bites. */
  lemma FinalisationIsEnabled(s: State, clock: Clock, key: VaultKey, height: u64, confirmations: u32, remaining: u64)
    requires Inv(s) && InFlight(s, key) && 1 <= confirmations
    ensures FinalizeBtcLiquidationStep(s, clock, key, s.protocol.admin, height, confirmations, remaining).Ok?
  {
    assert KeyConsistent(s, key);
  }

  // ---- runs ----

  /** Once in flight, a vault stays so until a finalisation of it commits. */
  lemma {:induction false} InFlightUntilFinalised(r: Run, i: nat, j: nat, key: VaultKey)
    requires IsRun(r) && i <= j <= |r.txs| && InFlight(r.states[i], key)
    requires forall m | i <= m < j :: !(FinalizesBtc(r.txs[m], key) && CommitsAt(r, m))
    ensures InFlight(r.states[j], key)
    decreases j
  {
    hide Inv, Next, Apply, Initial;
    if i < j {
      InFlightUntilFinalised(r, i, j - 1, key);
      KeyAlwaysConsistent(r, j - 1, key);
      InFlightChange(r.states[j - 1], r.txs[j - 1], key);
    }
  }

  lemma {:induction false} NotInFlightUntilInitiated(r: Run, i: nat, j: nat, key: VaultKey)
    requires IsRun(r) && i <= j <= |r.txs| && !InFlight(r.states[i], key)
    requires forall m | i <= m < j :: !(LiquidatesBtc(r.txs[m], key) && CommitsAt(r, m))
    ensures !InFlight(r.states[j], key)
    decreases j
  {
    hide Inv, Next, Apply, Initial;
    if i < j {
      NotInFlightUntilInitiated(r, i, j - 1, key);
      KeyAlwaysConsistent(r, j - 1, key);
      InFlightChange(r.states[j - 1], r.txs[j - 1], key);
    }
  }

  /** Between two initiations on a vault there is a finalisation of it. */
  lemma InitiationsAlternate(r: Run, i: nat, j: nat, key: VaultKey) returns (m: nat)
    requires IsRun(r) && i < j < |r.txs|
    requires LiquidatesBtc(r.txs[i], key) && CommitsAt(r, i)
    requires LiquidatesBtc(r.txs[j], key) && CommitsAt(r, j)
    ensures i < m < j && FinalizesBtc(r.txs[m], key) && CommitsAt(r, m)
  {
    hide Next, Apply, Initial;
    KeyAlwaysConsistent(r, i, key);
    InFlightChange(r.states[i], r.txs[i], key);
    KeyAlwaysConsistent(r, j, key);
    InFlightChange(r.states[j], r.txs[j], key);
    if forall m | i + 1 <= m < j :: !(FinalizesBtc(r.txs[m], key) && CommitsAt(r, m)) {
      InFlightUntilFinalised(r, i + 1, j, key);
      assert false;
    }
    m :| i < m < j && FinalizesBtc(r.txs[m], key) && CommitsAt(r, m);
  }

  /** Between two finalisations of a vault there is an initiation on it. */
  lemma FinalisationsAlternate(r: Run, i: nat, j: nat, key: VaultKey) returns (m: nat)
    requires IsRun(r) && i < j < |r.txs|
    requires FinalizesBtc(r.txs[i], key) && CommitsAt(r, i)
    requires FinalizesBtc(r.txs[j], key) && CommitsAt(r, j)
    ensures i < m < j && LiquidatesBtc(r.txs[m], key) && CommitsAt(r, m)
  {
    hide Next, Apply, Initial;
    KeyAlwaysConsistent(r, i, key);
    InFlightChange(r.states[i], r.txs[i], key);
    KeyAlwaysConsistent(r, j, key);
    InFlightChange(r.states[j], r.txs[j], key);
    if forall m | i + 1 <= m < j :: !(LiquidatesBtc(r.txs[m], key) && CommitsAt(r, m)) {
      NotInFlightUntilInitiated(r, i + 1, j, key);
      assert false;
    }
    m :| i < m < j && LiquidatesBtc(r.txs[m], key) && CommitsAt(r, m);
  }

  /** A vault in flight has a last initiation, and neither a finalisation nor another initiation since. */
  lemma {:induction false} InFlightWasInitiated(r: Run, j: nat, key: VaultKey) returns (i: nat)
    requires IsRun(r) && j <= |r.txs| && InFlight(r.states[j], key)
    ensures i < j && LiquidatesBtc(r.txs[i], key) && CommitsAt(r, i)
    ensures forall m | i < m < j :: !((LiquidatesBtc(r.txs[m], key) || FinalizesBtc(r.txs[m], key)) && CommitsAt(r, m))
  {
    hide Next, Apply, InFlight;
    if j == 0 {
      NoneInFlightInitially(r, key);
      assert false;
    }
    var s, tx := r.states[j - 1], r.txs[j - 1];
    KeyAlwaysConsistent(r, j - 1, key);
    InFlightChange(s, tx, key);
    if InFlight(s, key) {
      i := InFlightWasInitiated(r, j - 1, key);
      InFlightOnce(r, j - 1, key);
    } else {
      i := j - 1;
    }
  }

  lemma NoneInFlightInitially(r: Run, key: VaultKey)
    requires IsRun(r)
    ensures !InFlight(r.states[0], key)
  {
  }

  lemma InFlightOnce(r: Run, m: nat, key: VaultKey)
    requires IsRun(r) && m < |r.txs| && InFlight(r.states[m], key)
    ensures LiquidatesBtc(r.txs[m], key) ==> !CommitsAt(r, m)
  {
    hide Next, Apply, Initial, Inv;
    InvAlways(r, m);
    if LiquidatesBtc(r.txs[m], key) {
      InFlightBlocksLoan(r.states[m], r.txs[m], key);
    }
  }

  /** Every finalisation, the first included, ends the liquidation of an earlier initiation, with no other
      initiation or finalisation of the vault in between. */
  lemma FinalisationFollowsInitiation(r: Run, j: nat, key: VaultKey) returns (i: nat)
    requires IsRun(r) && j < |r.txs| && FinalizesBtc(r.txs[j], key) && CommitsAt(r, j)
    ensures i < j && LiquidatesBtc(r.txs[i], key) && CommitsAt(r, i)
    ensures forall m | i < m < j :: !((LiquidatesBtc(r.txs[m], key) || FinalizesBtc(r.txs[m], key)) && CommitsAt(r, m))
  {
    hide Next, Apply, Initial, InFlight;
    KeyAlwaysConsistent(r, j, key);
    InFlightChange(r.states[j], r.txs[j], key);
    i := InFlightWasInitiated(r, j, key);
  }

  /** From an initiation to its finalisation nothing else on the vault's loan commits. */
  lemma NothingCommitsInFlight(r: Run, i: nat, j: nat, key: VaultKey)
    requires IsRun(r) && i < j < |r.txs|
    requires LiquidatesBtc(r.txs[i], key) && CommitsAt(r, i)
    requires forall m | i < m < j :: !(FinalizesBtc(r.txs[m], key) && CommitsAt(r, m))
    requires BorrowsBtc(r.txs[j], key) || RepaysBtc(r.txs[j], key) || LiquidatesBtc(r.txs[j], key)
    ensures !CommitsAt(r, j)
  {
    hide Next, Apply, Initial, Inv;
    KeyAlwaysConsistent(r, i, key);
    InFlightChange(r.states[i], r.txs[i], key);
    InFlightUntilFinalised(r, i + 1, j, key);
    InvAlways(r, j);
    InFlightBlocksLoan(r.states[j], r.txs[j], key);
  }

  lemma {:induction false} UnverifiedUntilVerified(r: Run, i: nat, j: nat, key: VaultKey)
    requires IsRun(r) && i <= j <= |r.txs| && !BtcVerified(r.states[i], key)
    requires forall m | i <= m < j :: !(VerifiesBtc(r.txs[m], key) && CommitsAt(r, m))
    ensures !BtcVerified(r.states[j], key)
    decreases j
  {
    hide Inv, Next, Apply, Initial;
    if i < j {
      UnverifiedUntilVerified(r, i, j - 1, key);
      KeyAlwaysConsistent(r, j - 1, key);
      InFlightChange(r.states[j - 1], r.txs[j - 1], key);
    }
  }

  /** After a finalisation the next borrow needs a new verification. */
  lemma BorrowAfterFinalisationNeedsVerification(r: Run, i: nat, j: nat, key: VaultKey) returns (m: nat)
    requires IsRun(r) && i < j < |r.txs|
    requires FinalizesBtc(r.txs[i], key) && CommitsAt(r, i)
    requires BorrowsBtc(r.txs[j], key) && CommitsAt(r, j)
    ensures i < m < j && VerifiesBtc(r.txs[m], key) && CommitsAt(r, m)
  {
    hide Next, Apply, Initial;
    KeyAlwaysConsistent(r, i, key);
    InFlightChange(r.states[i], r.txs[i], key);
    KeyAlwaysConsistent(r, j, key);
    InFlightChange(r.states[j], r.txs[j], key);
    if forall m | i + 1 <= m < j :: !(VerifiesBtc(r.txs[m], key) && CommitsAt(r, m)) {
      UnverifiedUntilVerified(r, i + 1, j, key);
      assert false;
    }
    m :| i < m < j && VerifiesBtc(r.txs[m], key) && CommitsAt(r, m);
  }
}
