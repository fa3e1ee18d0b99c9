/** The custody proofs Bitcoin borrows rest on, over whole runs. */
module BtcWindow {
  import opened Prelude
  import opened Approvals
  import opened Pricing
  import opened Interest
  import opened Loans
  import opened Accounts
  import opened Steps
  import opened VaultEffects
  import opened Invariants
  import opened Runs
  import opened LoanLaws

  predicate VerifiedBtcAt(s: State, key: VaultKey, since: i64) {
    key in s.btcVaults && s.btcVaults[key].proofStatus == Verified && s.btcVaults[key].proofTimestamp == since
  }

  predicate RefreshesBtc(tx: Transaction, key: VaultKey) {
    tx.instruction.BtcCustody? && tx.instruction.btcCustody.RefreshBtcCustodyProof?
    && tx.instruction.btcCustody.key == key
  }

  /** A verification or a refresh of the vault. */
  predicate ProvesBtc(tx: Transaction, key: VaultKey) {
    VerifiesBtc(tx, key) || RefreshesBtc(tx, key)
  }

  /** What the parser of the Bitcoin path makes of the approval a proof presents. */
  function ParsedApproval(tx: Transaction, key: VaultKey): Result<Approval>
    requires ProvesBtc(tx, key)
  {
    ParseForBtcDwallet(tx.instruction.btcCustody.approval, key.dwallet, tx.clock.now)
  }

  /** A committed proof of the vault at a time, with an accepted approval. */
  predicate Proved(s: State, tx: Transaction, key: VaultKey, since: i64) {
    ProvesBtc(tx, key) && Commits(s, tx) && ParsedApproval(tx, key).Ok? && since == tx.clock.now
  }

  // ---- one transaction ----

  lemma CustodyBtcProofChange(s: State, tx: Transaction, key: VaultKey, since: i64)
    requires Inv(s) && tx.instruction.BtcCustody? && VerifiedBtcAt(Next(s, tx), key, since)
    ensures Proved(s, tx, key, since) || (VerifiedBtcAt(s, key, since) && !(ProvesBtc(tx, key) && Commits(s, tx)))
    ensures Proved(s, tx, key, since) && RefreshesBtc(tx, key)
            ==> key in s.btcVaults && VerifiedBtcAt(s, key, s.btcVaults[key].proofTimestamp)
  {
    hide ApplyBtcCustody, ParseForBtcDwallet, Inv;
    BtcCustodySucceedsIff(s, tx.clock, tx.instruction.btcCustody);
  }

  lemma LoanBtcProofChange(s: State, tx: Transaction, key: VaultKey, since: i64)
    requires tx.instruction.BtcLending? && VerifiedBtcAt(Next(s, tx), key, since)
    ensures VerifiedBtcAt(s, key, since) && !(FinalizesBtc(tx, key) && Commits(s, tx))
  {
    hide DrawFunds, PayDown, PaidPositions, Accrued, LiquidatorGuard, FreshGuard, PayOff, BtcBorrowGuard,
      DebtToSatoshisWithBonus;
  }

  /** A standing proof was made by this transaction, a refresh only of a standing one, or stood before. */
  lemma BtcProofChange(s: State, tx: Transaction, key: VaultKey, since: i64)
    requires Inv(s) && VerifiedBtcAt(Next(s, tx), key, since)
    ensures Proved(s, tx, key, since)
            || (VerifiedBtcAt(s, key, since) && !((ProvesBtc(tx, key) || FinalizesBtc(tx, key)) && Commits(s, tx)))
    ensures Proved(s, tx, key, since) && RefreshesBtc(tx, key)
            ==> key in s.btcVaults && VerifiedBtcAt(s, key, s.btcVaults[key].proofTimestamp)
  {
    hide ApplyCustody, ApplyBreaker, ApplyLending, ApplyBtcCustody, ApplyBtcLending, Inv, ParseForBtcDwallet;
    match tx.instruction
    case Custody(instruction) => CustodyFrame(s, tx.clock.now, instruction);
    case Breaker(instruction) => BreakerFrame(s, instruction);
    case Lending(instruction) => LendingFrame(s, tx.clock, instruction);
    case BtcCustody(_) => CustodyBtcProofChange(s, tx, key, since);
    case BtcLending(_) => LoanBtcProofChange(s, tx, key, since);
  }

  // ---- runs ----

  /**
   What a standing proof of a Bitcoin vault goes back to: a committed verification `first` and a committed proof
   `last`, both with an accepted approval, no proof after `last` and no finalisation after `first`.
   */
  ghost predicate RestsOn(r: Run, key: VaultKey, first: nat, last: nat, end: nat)
    requires end <= |r.txs| < |r.states|
  {
    first <= last < end
    && VerifiesBtc(r.txs[first], key) && CommitsAt(r, first) && ParsedApproval(r.txs[first], key).Ok?
    && ProvesBtc(r.txs[last], key) && CommitsAt(r, last) && ParsedApproval(r.txs[last], key).Ok?
    && (forall m | last < m < end :: !(ProvesBtc(r.txs[m], key) && CommitsAt(r, m)))
    && (forall m | first < m < end :: !(FinalizesBtc(r.txs[m], key) && CommitsAt(r, m)))
  }

  lemma {:induction false} StandingBtcProofRestsOn(r: Run, end: nat, key: VaultKey, since: i64)
    returns (first: nat, last: nat)
    requires IsRun(r) && end <= |r.txs| && VerifiedBtcAt(r.states[end], key, since)
    ensures RestsOn(r, key, first, last, end) && r.txs[last].clock.now == since
  {
    hide Next, Apply, VerifiedBtcAt, ParseForBtcDwallet, Inv;
    if end == 0 {
      NoneVerifiedInitially(r, key, since);
      assert false;
    }
    var m := end - 1;
    var s, tx := r.states[m], r.txs[m];
    InvAlways(r, m);
    BtcProofChange(s, tx, key, since);
    if !Proved(s, tx, key, since) {
      first, last := StandingBtcProofRestsOn(r, m, key, since);
    } else if VerifiesBtc(tx, key) {
      first, last := m, m;
    } else {
      first, last := StandingBtcProofRestsOn(r, m, key, s.btcVaults[key].proofTimestamp);
      last := m;
    }
  }

  lemma NoneVerifiedInitially(r: Run, key: VaultKey, since: i64)
    requires IsRun(r)
    ensures !VerifiedBtcAt(r.states[0], key, since)
  {
  }

  /**
   Every Bitcoin borrow, the first included, rests on an accepted verification with no finalisation since, and
   its last proof is at most ten minutes old; a demo approval shown for that was recorded at most twenty minutes
   before the borrow.
   */
  lemma BtcBorrowWithinTwentyMinutes(r: Run, j: nat, key: VaultKey) returns (first: nat, last: nat)
    requires IsRun(r) && j < |r.txs| && BorrowsBtc(r.txs[j], key) && CommitsAt(r, j)
    ensures RestsOn(r, key, first, last, j)
    ensures Within(r.txs[last].clock.now, r.txs[j].clock.now)
    ensures var parsed := ParsedApproval(r.txs[last], key).value;
            parsed.source.DemoHelper? ==> r.txs[j].clock.now - parsed.approvedAt <= 1200
  {
    hide Initial, Next, Inv, BorrowBtcStep, CoveredBy, Lendable;
    var s, tx := r.states[j], r.txs[j];
    var i := tx.instruction.btcLending;
    InvAlways(r, j);
    BorrowBtcSucceedsIff(s, tx.clock, key, i.signer, i.amount, i.feed);
    first, last := StandingBtcProofRestsOn(r, j, key, s.btcVaults[key].proofTimestamp);
    AcceptedDemoWasWritten(r.txs[last].instruction.btcCustody.approval, key.dwallet, r.txs[last].clock.now);
  }
}
