/** The attested balance of Bitcoin vaults: who writes it last, and finalisation as one of the writers. */
module Balances {
  import opened Prelude
  import opened Accounts
  import opened Steps
  import opened Invariants
  import opened VaultEffects
  import opened Runs

  /** Exactly when a finalisation commits. */
  lemma FinalisationSucceedsIff(s: State, clock: Clock, key: VaultKey, signer: Key, height: u64, confirmations: u32,
                                remaining: u64)
    requires Inv(s)
    ensures FinalizeBtcLiquidationStep(s, clock, key, signer, height, confirmations, remaining).Ok?
       <==> InFlight(s, key) && signer == s.protocol.admin && 1 <= confirmations
  {
    hide Inv;
    KeyIsConsistent(s, key);
  }

  /** What a committed finalisation does to vault, attestation and loan; everything else stays. */
  lemma FinalisationTakes(s: State, tx: Transaction, key: VaultKey)
    requires FinalizesBtc(tx, key) && Commits(s, tx)
    ensures var i, after := tx.instruction.btcLending, Next(s, tx);
            key in s.btcVaults && key in s.attestations
            && after == s.(
                 btcVaults := s.btcVaults[key := s.btcVaults[key].(
                                            depositedSatoshis := i.remaining, lastAttestationSlot := tx.clock.slot,
                                            proofStatus := Pending, proofTimestamp := 0, frozen := false,
                                            liquidationInitiatedAt := 0, liquidationSighash := seq(32, j => 0))],
                 attestations := s.attestations[key := Attestation(
                                                  s.attestations[key].bitcoinAddress, i.remaining, i.blockHeight,
                                                  tx.clock.slot, tx.clock.now, i.signer)],
                 btcPositions := s.btcPositions - {key})
  {
    assert DefaultKey() == seq(32, j => 0);
  }

  // ---- the last writer ----

  predicate Attests(tx: Transaction, key: VaultKey) {
    tx.instruction.BtcCustody? && tx.instruction.btcCustody.AttestBtcBalance? && tx.instruction.btcCustody.key == key
  }

  /** An attestation or a finalisation of the vault. */
  predicate WritesBalance(tx: Transaction, key: VaultKey) {
    Attests(tx, key) || FinalizesBtc(tx, key)
  }

  /** The satoshis it reports. */
  function Reported(tx: Transaction, key: VaultKey): u64
    requires WritesBalance(tx, key)
  {
    if Attests(tx, key) then tx.instruction.btcCustody.satoshis else tx.instruction.btcLending.remaining
  }

  /** The vault holds that many satoshis, by its own account and by its attestation. */
  predicate Holds(s: State, key: VaultKey, satoshis: u64) {
    key in s.btcVaults && key in s.attestations
    && s.btcVaults[key].depositedSatoshis == satoshis && s.attestations[key].satoshis == satoshis
  }

  lemma WriterHolds(s: State, tx: Transaction, key: VaultKey)
    requires Inv(s) && WritesBalance(tx, key) && Commits(s, tx)
    ensures Holds(Next(s, tx), key, Reported(tx, key))
  {
    hide ApplyBtcCustody, ApplyBtcLending, Inv;
    if Attests(tx, key) {
      BtcCustodySucceedsIff(s, tx.clock, tx.instruction.btcCustody);
    } else {
      BtcLendingCommits(s, tx.clock, tx.instruction.btcLending);
    }
  }

  lemma OthersKeepBalance(s: State, tx: Transaction, key: VaultKey, satoshis: u64)
    requires Inv(s) && Holds(s, key, satoshis) && !(WritesBalance(tx, key) && Commits(s, tx))
    ensures Holds(Next(s, tx), key, satoshis)
  {
    hide ApplyCustody, ApplyBreaker, ApplyLending, ApplyBtcCustody, ApplyBtcLending, Inv;
    match tx.instruction
    case Custody(instruction) => CustodyFrame(s, tx.clock.now, instruction);
    case Breaker(instruction) => BreakerFrame(s, instruction);
    case Lending(instruction) => LendingFrame(s, tx.clock, instruction);
    case BtcCustody(instruction) => BtcCustodySucceedsIff(s, tx.clock, instruction);
    case BtcLending(instruction) =>
      if Commits(s, tx) {
        BtcLendingCommits(s, tx.clock, instruction);
      }
  }

  /** Until the next attestation or finalisation a vault holds what the last one reported: after a finalisation
      the remaining satoshis. */
  lemma {:induction false} LastReportHolds(r: Run, i: nat, j: nat, key: VaultKey)
    requires IsRun(r) && i < j <= |r.txs| && WritesBalance(r.txs[i], key) && CommitsAt(r, i)
    requires forall m | i < m < j :: !(WritesBalance(r.txs[m], key) && CommitsAt(r, m))
    ensures Holds(r.states[j], key, Reported(r.txs[i], key))
    decreases j
  {
    hide Next, Apply, Initial, Inv, Holds, Reported, WritesBalance;
    InvAlways(r, j - 1);
    if j == i + 1 {
      WriterHolds(r.states[i], r.txs[i], key);
    } else {
      LastReportHolds(r, i, j - 1, key);
      OthersKeepBalance(r.states[j - 1], r.txs[j - 1], key, Reported(r.txs[i], key));
    }
  }
}
