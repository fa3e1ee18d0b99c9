/** The custody proof window of SOL-path vaults over whole runs. */
module CustodyChain {
  import opened Prelude
  import opened Approvals
  import opened Accounts
  import opened Steps
  import opened VaultEffects
  import opened Invariants
  import opened Runs

  predicate VerifiedAt(s: State, key: VaultKey, since: i64) {
    key in s.vaults && s.vaults[key].proofStatus == Verified && s.vaults[key].proofTimestamp == since
  }

  /** A transaction that rests on the vault's custody proof. */
  predicate NeedsProof(tx: Transaction, key: VaultKey) {
    Deposits(tx, key) || Borrows(tx, key)
  }

  /** A transaction that ends the chain of proofs of a vault. */
  predicate Breaks(tx: Transaction, key: VaultKey) {
    Liquidates(tx, key) || Closes(tx, key)
  }

  /** The approval presented was accepted for the vault's dWallet. */
  predicate ApprovalAccepted(tx: Transaction, key: VaultKey) {
    (Verifies(tx, key) ==> ParseMessageApproval(tx.instruction.custody.approval, key.dwallet, tx.clock.now).Ok?)
    && (Refreshes(tx, key) ==> ParseMessageApproval(tx.instruction.custody.approval, key.dwallet, tx.clock.now).Ok?)
  }

  // ---- one transaction ----

  /** The three ways a proof can stand after a transaction. */

  predicate Unbroken(s: State, tx: Transaction, key: VaultKey, since: i64) {
    VerifiedAt(s, key, since) && !(Breaks(tx, key) && Commits(s, tx))
  }

  predicate Starts(s: State, tx: Transaction, key: VaultKey, since: i64) {
    Verifies(tx, key) && Commits(s, tx) && since == tx.clock.now && ApprovalAccepted(tx, key)
  }

  ghost predicate Extends(s: State, tx: Transaction, key: VaultKey, since: i64) {
    Refreshes(tx, key) && Commits(s, tx) && since == tx.clock.now && ApprovalAccepted(tx, key)
    && exists before: i64 :: VerifiedAt(s, key, before) && Within(before, since)
  }

  lemma CustodyProofChange(s: State, tx: Transaction, key: VaultKey, since: i64)
    requires tx.instruction.Custody? && VerifiedAt(Next(s, tx), key, since) && KeyConsistent(s, key)
    ensures Unbroken(s, tx, key, since) || Starts(s, tx, key, since) || Extends(s, tx, key, since)
  {
    hide ApplyCustody, ParseMessageApproval;
    if Commits(s, tx) {
      CustodyCommits(s, tx.clock.now, tx.instruction.custody);
    }
    if key in s.vaults && s.vaults[key].proofStatus == Verified {
      assert VerifiedAt(s, key, s.vaults[key].proofTimestamp);
    }
  }

  lemma LendingProofChange(s: State, tx: Transaction, key: VaultKey, since: i64)
    requires tx.instruction.Lending? && VerifiedAt(Next(s, tx), key, since)
    ensures VerifiedAt(s, key, since) && !(Breaks(tx, key) && Commits(s, tx))
  {
    hide ApplyLending;
    if Commits(s, tx) {
      LendingCommits(s, tx.clock, tx.instruction.lending);
    }
  }

  /** A standing proof stood before unless this transaction verified it, or refreshed it in time. */
  lemma ProofChange(s: State, tx: Transaction, key: VaultKey, since: i64)
    requires VerifiedAt(Next(s, tx), key, since) && KeyConsistent(s, key)
    ensures Unbroken(s, tx, key, since) || Starts(s, tx, key, since) || Extends(s, tx, key, since)
  {
    hide ApplyCustody, ApplyBreaker, ApplyLending, ApplyBtcCustody, ApplyBtcLending, KeyConsistent;
    match tx.instruction
    case Custody(_) => CustodyProofChange(s, tx, key, since);
    case Breaker(instruction) =>
      if Commits(s, tx) {
        BreakerCommits(s, instruction);
      }
    case Lending(_) => LendingProofChange(s, tx, key, since);
    case BtcCustody(instruction) => BtcCustodyFrame(s, tx.clock, instruction);
    case BtcLending(instruction) => BtcLendingFrame(s, tx.clock, instruction);
  }

  lemma UseNeedsProof(s: State, tx: Transaction, key: VaultKey)
    requires NeedsProof(tx, key) && Commits(s, tx)
    ensures key in s.vaults && VerifiedAt(s, key, s.vaults[key].proofTimestamp)
    ensures Within(s.vaults[key].proofTimestamp, tx.clock.now)
  {
    hide ApplyCustody, ApplyLending, ParseMessageApproval;
    if tx.instruction.Custody? {
      CustodyCommits(s, tx.clock.now, tx.instruction.custody);
    } else {
      LendingCommits(s, tx.clock, tx.instruction.lending);
    }
  }

  // ---- runs ----

  /**
   A chain of custody proofs of the vault, by transaction numbers: a verification, then refreshes each at
   most ten minutes after its predecessor, all accepted, with nothing in between or since, up to
   transaction `end`, that would have ended the chain.
   */
  ghost predicate IsChain(r: Run, key: VaultKey, chain: seq<nat>, end: nat)
    requires |r.txs| < |r.states|
  {
    chain != []
    && (forall i | 0 <= i < |chain| :: chain[i] < end <= |r.txs| && CommitsAt(r, chain[i]))
    && (forall i | 0 <= i < |chain| :: ApprovalAccepted(r.txs[chain[i]], key))
    && Verifies(r.txs[chain[0]], key)
    && (forall i | 0 < i < |chain| :: Refreshes(r.txs[chain[i]], key))
    && (forall i | 0 < i < |chain| ::
          chain[i - 1] < chain[i] && Within(r.txs[chain[i - 1]].clock.now, r.txs[chain[i]].clock.now))
    && (forall m | chain[0] < m < end :: !(Breaks(r.txs[m], key) && CommitsAt(r, m)))
  }

  /** A chain reaches one transaction further if that does not end it. */
  lemma ChainReaches(r: Run, key: VaultKey, chain: seq<nat>, m: nat)
    requires m < |r.txs| < |r.states| && IsChain(r, key, chain, m) && !(Breaks(r.txs[m], key) && CommitsAt(r, m))
    ensures IsChain(r, key, chain, m + 1)
  {
    hide Apply, ApprovalAccepted, Breaks;
  }

  lemma ChainStarts(r: Run, key: VaultKey, m: nat)
    requires m < |r.txs| < |r.states| && Starts(r.states[m], r.txs[m], key, r.txs[m].clock.now)
    ensures IsChain(r, key, [m], m + 1)
  {
    hide Apply, ApprovalAccepted, Breaks;
  }

  lemma ChainExtends(r: Run, key: VaultKey, chain: seq<nat>, m: nat)
    requires m < |r.txs| < |r.states| && IsChain(r, key, chain, m)
    requires Refreshes(r.txs[m], key) && CommitsAt(r, m) && ApprovalAccepted(r.txs[m], key)
    requires Within(r.txs[chain[|chain| - 1]].clock.now, r.txs[m].clock.now)
    ensures IsChain(r, key, chain + [m], m + 1)
  {
    hide Apply, ApprovalAccepted;
  }

  /** Whenever a proof stands, a chain ends at its timestamp. */
  lemma {:induction false} StandingProofHasChain(r: Run, end: nat, key: VaultKey, since: i64) returns (chain: seq<nat>)
    requires IsRun(r) && end <= |r.txs| && VerifiedAt(r.states[end], key, since)
    ensures IsChain(r, key, chain, end)
    ensures r.txs[chain[|chain| - 1]].clock.now == since
  {
    hide Next, Apply, KeyConsistent, Initial, ApprovalAccepted, Breaks, VerifiedAt;
    if end == 0 {
      NothingVerifiedInitially(r, key, since);
      assert false;
    }
    var m := end - 1;
    var s, tx := r.states[m], r.txs[m];
    KeyAlwaysConsistent(r, m, key);
    ProofChange(s, tx, key, since);
    if Starts(s, tx, key, since) {
      chain := [m];
      ChainStarts(r, key, m);
    } else if Unbroken(s, tx, key, since) {
      chain := StandingProofHasChain(r, m, key, since);
      ChainReaches(r, key, chain, m);
    } else {
      var before: i64 :| VerifiedAt(s, key, before) && Within(before, since);
      var earlier := StandingProofHasChain(r, m, key, before);
      ChainExtends(r, key, earlier, m);
      chain := earlier + [m];
    }
  }

  lemma NothingVerifiedInitially(r: Run, key: VaultKey, since: i64)
    requires IsRun(r)
    ensures !VerifiedAt(r.states[0], key, since)
  {
  }

  /** Every deposit and every borrow rests on an unbroken chain whose last proof is at most ten minutes old. */
  lemma UseRestsOnChain(r: Run, j: nat, key: VaultKey) returns (chain: seq<nat>)
    requires IsRun(r) && j < |r.txs| && NeedsProof(r.txs[j], key) && CommitsAt(r, j)
    ensures IsChain(r, key, chain, j)
    ensures Within(r.txs[chain[|chain| - 1]].clock.now, r.txs[j].clock.now)
  {
    hide Next, Apply, Initial, NeedsProof;
    UseNeedsProof(r.states[j], r.txs[j], key);
    chain := StandingProofHasChain(r, j, key, r.states[j].vaults[key].proofTimestamp);
  }

  predicate HasApproval(tx: Transaction) {
    tx.instruction.Custody?
    && (tx.instruction.custody.VerifyCustodyProof? || tx.instruction.custody.RefreshCustodyProof?)
  }

  /** If the last approval of that chain is a demo one, it was recorded at most twenty minutes before the use. */
  lemma UseWithinTwentyMinutes(r: Run, j: nat, key: VaultKey) returns (chain: seq<nat>)
    requires IsRun(r) && j < |r.txs| && NeedsProof(r.txs[j], key) && CommitsAt(r, j)
    ensures IsChain(r, key, chain, j)
    ensures Within(r.txs[chain[|chain| - 1]].clock.now, r.txs[j].clock.now)
    ensures HasApproval(r.txs[chain[|chain| - 1]])
    ensures var tx := r.txs[chain[|chain| - 1]];
            var parsed := ParseMessageApproval(tx.instruction.custody.approval, key.dwallet, tx.clock.now);
            parsed.Ok?
            && (parsed.value.source.DemoHelper? ==> r.txs[j].clock.now - parsed.value.approvedAt <= 1200)
  {
    hide Initial, Next, NeedsProof, Apply;
    chain := UseRestsOnChain(r, j, key);
    var tx := r.txs[chain[|chain| - 1]];
    assert Verifies(tx, key) || Refreshes(tx, key);
    AcceptedDemoWasWritten(tx.instruction.custody.approval, key.dwallet, tx.clock.now);
  }

  // ---- a lapsed window ----

  /** The proof still stands although more than ten minutes have passed. */
  predicate Lapsed(s: State, key: VaultKey, now: int) {
    key in s.vaults && s.vaults[key].proofStatus == Verified && !Within(s.vaults[key].proofTimestamp, now)
  }

  lemma CustodyKeepsLapse(s: State, tx: Transaction, key: VaultKey)
    requires tx.instruction.Custody? && Lapsed(s, key, tx.clock.now) && !(Closes(tx, key) && Commits(s, tx))
    ensures Lapsed(Next(s, tx), key, tx.clock.now)
  {
    hide ApplyCustody, ParseMessageApproval;
    if Commits(s, tx) {
      CustodyCommits(s, tx.clock.now, tx.instruction.custody);
    }
  }

  lemma LendingKeepsLapse(s: State, tx: Transaction, key: VaultKey)
    requires tx.instruction.Lending? && Lapsed(s, key, tx.clock.now) && !(Liquidates(tx, key) && Commits(s, tx))
    ensures Lapsed(Next(s, tx), key, tx.clock.now)
  {
    hide ApplyLending;
    if Commits(s, tx) {
      LendingCommits(s, tx.clock, tx.instruction.lending);
    }
  }

  lemma LapseStays(s: State, tx: Transaction, key: VaultKey)
    requires Lapsed(s, key, tx.clock.now) && !(Breaks(tx, key) && Commits(s, tx))
    ensures Lapsed(Next(s, tx), key, tx.clock.now)
  {
    hide ApplyCustody, ApplyBreaker, ApplyLending, ApplyBtcCustody, ApplyBtcLending;
    match tx.instruction
    case Custody(_) => CustodyKeepsLapse(s, tx, key);
    case Breaker(instruction) =>
      if Commits(s, tx) {
        BreakerCommits(s, instruction);
      }
    case Lending(_) => LendingKeepsLapse(s, tx, key);
    case BtcCustody(instruction) => BtcCustodyFrame(s, tx.clock, instruction);
    case BtcLending(instruction) => BtcLendingFrame(s, tx.clock, instruction);
  }

  lemma LapsedBlocks(s: State, tx: Transaction, key: VaultKey)
    requires Lapsed(s, key, tx.clock.now)
    requires NeedsProof(tx, key) || Verifies(tx, key) || Refreshes(tx, key)
    ensures !Commits(s, tx)
  {
    hide ApplyCustody, ApplyLending, ParseMessageApproval;
    if Commits(s, tx) {
      if tx.instruction.Custody? {
        CustodyCommits(s, tx.clock.now, tx.instruction.custody);
      } else {
        LendingCommits(s, tx.clock, tx.instruction.lending);
      }
    }
  }

  /** A window lapsed at transaction i stays lapsed until a liquidation or a closing of the vault. */
  lemma {:induction false} LapsedUntilBroken(r: Run, i: nat, j: nat, key: VaultKey)
    requires IsRun(r) && i <= j < |r.txs| && Lapsed(r.states[i], key, r.txs[i].clock.now)
    requires forall m | i <= m < j :: !(Breaks(r.txs[m], key) && CommitsAt(r, m))
    ensures Lapsed(r.states[j], key, r.txs[j].clock.now)
    decreases j
  {
    hide Next, Apply, Initial;
    if i < j {
      LapsedUntilBroken(r, i, j - 1, key);
      LapseStays(r.states[j - 1], r.txs[j - 1], key);
    }
  }

  /** Until then no deposit, borrow, verification or refresh of the vault commits. */
  lemma LapsedVaultIsStuck(r: Run, i: nat, j: nat, key: VaultKey)
    requires IsRun(r) && i <= j < |r.txs| && Lapsed(r.states[i], key, r.txs[i].clock.now)
    requires forall m | i <= m < j :: !(Breaks(r.txs[m], key) && CommitsAt(r, m))
    requires NeedsProof(r.txs[j], key) || Verifies(r.txs[j], key) || Refreshes(r.txs[j], key)
    ensures !CommitsAt(r, j)
  {
    hide Next, Apply, Initial, NeedsProof;
    LapsedUntilBroken(r, i, j, key);
    LapsedBlocks(r.states[j], r.txs[j], key);
  }

  /** On the Bitcoin path the refresh of a standing proof depends on the approval alone, not on the window. */
  lemma BtcRefreshIgnoresWindow(s: State, now: i64, key: VaultKey, approval: seq<u8>)
    requires key in s.btcVaults && s.btcVaults[key].proofStatus == Verified
    ensures RefreshBtcCustodyProofStep(s, now, key, s.btcVaults[key].owner, approval).Ok?
       <==> ParseForBtcDwallet(approval, s.btcVaults[key].ikaDwallet, now).Ok?
  {
  }
}
