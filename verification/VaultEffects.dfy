/** What committed transactions did to the SOL-path vaults, and what they needed for it. */
module VaultEffects {
  import opened Prelude
  import opened Approvals
  import opened Pricing
  import opened Interest
  import opened Loans
  import opened Accounts
  import opened Steps
  import opened Invariants

  /** The proof is at most ten minutes old. */
  predicate Within(since: int, now: int) {
    now - since <= 600
  }

  /** Vault and protocol accounts after a committed custody instruction. */
  predicate CustodyEffect(s: State, now: i64, instruction: CustodyInstruction, after: State) {
    match instruction
    case RegisterVault(signer, dwalletId, assetType) =>
      var key := VaultKey(signer, dwalletId);
      key !in s.vaults
      && after.vaults == s.vaults[key := Vault(signer, dwalletId, assetType, 0, Pending, 0, false)]
      && s.protocol.totalVaults + 1 <= U64_MAX
      && after.protocol == s.protocol.(totalVaults := s.protocol.totalVaults + 1)
    case CloseVault(key, _) =>
      key in s.vaults && s.vaults[key].deposited == 0
      && after.vaults == s.vaults - {key} && after.protocol == s.protocol
    case VerifyCustodyProof(key, _, expected, _, approval) =>
      key in s.vaults && s.vaults[key].proofStatus != Verified && s.vaults[key].dwalletId == expected
      && ParseMessageApproval(approval, expected, now).Ok?
      && after.vaults == s.vaults[key := s.vaults[key].(proofStatus := Verified, proofTimestamp := now)]
      && after.protocol == s.protocol
    case RefreshCustodyProof(key, _, expected, _, approval) =>
      key in s.vaults && s.vaults[key].proofStatus == Verified && s.vaults[key].dwalletId == expected
      && Within(s.vaults[key].proofTimestamp, now)
      && ParseMessageApproval(approval, expected, now).Ok?
      && after.vaults == s.vaults[key := s.vaults[key].(proofTimestamp := now)]
      && after.protocol == s.protocol
    case DepositCollateral(key, _, amount) =>
      key in s.vaults && s.vaults[key].proofStatus == Verified && !s.protocol.frozen && !s.vaults[key].frozen
      && Within(s.vaults[key].proofTimestamp, now)
      && s.vaults[key].deposited + amount <= U64_MAX
      && s.protocol.totalCollateral + amount < U128_LIMIT
      && after.vaults == s.vaults[key := s.vaults[key].(deposited := s.vaults[key].deposited + amount)]
      && after.protocol == s.protocol.(totalCollateral := s.protocol.totalCollateral + amount)
    case WithdrawCollateral(key, _, amount) =>
      key in s.vaults && !s.protocol.frozen
      && amount <= s.vaults[key].deposited && amount <= s.protocol.totalCollateral
      && after.vaults == s.vaults[key := s.vaults[key].(deposited := s.vaults[key].deposited - amount)]
      && after.protocol == s.protocol.(totalCollateral := s.protocol.totalCollateral - amount)
  }

  lemma CustodyCommits(s: State, now: i64, instruction: CustodyInstruction)
    requires ApplyCustody(s, now, instruction).Ok?
    ensures CustodyEffect(s, now, instruction, ApplyCustody(s, now, instruction).value.state)
  {
    hide ParseMessageApproval;
  }

  /** Vaults after a committed loan instruction: only a liquidation touches one. */
  predicate LendingEffect(s: State, now: i64, instruction: LendingInstruction, c: Commit) {
    match instruction
    case Borrow(key, _, _, _) =>
      key in s.vaults && s.vaults[key].proofStatus == Verified && !s.protocol.frozen && !s.vaults[key].frozen
      && Within(s.vaults[key].proofTimestamp, now)
      && c.state.vaults == s.vaults
      && c.event.BorrowOpened?
    case Repay(key, _, _, _) => key in s.vaults && c.state.vaults == s.vaults && c.event.BorrowRepaid?
    case Liquidate(key, _, _, _, _) =>
      key in s.vaults && !s.protocol.frozen
      && c.event.PositionLiquidated? && c.event.seized <= s.vaults[key].deposited
      && c.state.vaults == s.vaults[key := s.vaults[key].(
                                      deposited := s.vaults[key].deposited - c.event.seized,
                                      proofStatus := Pending)]
  }

  lemma LendingCommits(s: State, clock: Clock, instruction: LendingInstruction)
    requires ApplyLending(s, clock, instruction).Ok?
    ensures LendingEffect(s, clock.now, instruction, ApplyLending(s, clock, instruction).value)
    ensures ApplyLending(s, clock, instruction).value.state.protocol == s.protocol
  {
    hide DrawFunds, LimitGuard, PayDown, PaidPositions, Accrued, PayOff, CollateralWithBonus;
  }

  /** Vaults and flags after a committed circuit-breaker instruction: no custody data changes. */
  predicate BreakerEffect(s: State, instruction: BreakerInstruction, after: State) {
    match instruction
    case CircuitBreakerFreeze(key, signer) =>
      key in s.vaults && signer == s.protocol.admin
      && after.vaults == s.vaults[key := s.vaults[key].(frozen := true)]
      && after.protocol == s.protocol.(frozen := true)
    case AdminUnfreeze(key, signer) =>
      key in s.vaults && signer == s.protocol.admin
      && after.vaults == s.vaults[key := s.vaults[key].(frozen := false)] && after.protocol == s.protocol
    case UnfreezeProtocolState(_) =>
      after.vaults == s.vaults && after.protocol == s.protocol.(frozen := false)
    case TriggerRiskCheck(key, signer, isSafe) =>
      key in s.vaults && (signer == s.protocol.admin || signer == s.vaults[key].owner)
      && (if isSafe then after.vaults == s.vaults && after.protocol == s.protocol
          else after.vaults == s.vaults[key := s.vaults[key].(frozen := true)]
               && after.protocol == s.protocol.(frozen := true))
  }

  lemma BreakerCommits(s: State, instruction: BreakerInstruction)
    requires ApplyBreaker(s, instruction).Ok?
    ensures BreakerEffect(s, instruction, ApplyBreaker(s, instruction).value.state)
  {
  }

  // ---- exactly when custody instructions commit ----

  /** The age of a timestamp can be computed. */
  predicate HasAge(since: i64, now: i64) {
    -I64_LIMIT <= now - since < I64_LIMIT
  }

  /** The vault a custody instruction of the SOL path names exists and is its signer's. */
  predicate Owns(s: State, key: VaultKey, signer: Key) {
    key in s.vaults && signer == key.owner
  }

  /** What a custody instruction of the SOL path needs. */
  predicate CustodyAllowed(s: State, now: i64, instruction: CustodyInstruction) {
    match instruction
    case RegisterVault(signer, dwalletId, _) =>
      VaultKey(signer, dwalletId) !in s.vaults && s.protocol.totalVaults < U64_MAX
    case CloseVault(key, signer) => Owns(s, key, signer) && s.vaults[key].deposited == 0
    case VerifyCustodyProof(key, signer, expected, approvalKey, approval) =>
      Owns(s, key, signer) && s.vaults[key].proofStatus == Pending
      && expected == key.dwallet && approvalKey != DefaultKey()
      && ParseMessageApproval(approval, key.dwallet, now).Ok?
    case RefreshCustodyProof(key, signer, expected, approvalKey, approval) =>
      Owns(s, key, signer) && s.vaults[key].proofStatus == Verified
      && HasAge(s.vaults[key].proofTimestamp, now) && Within(s.vaults[key].proofTimestamp, now)
      && expected == key.dwallet && approvalKey != DefaultKey()
      && ParseMessageApproval(approval, key.dwallet, now).Ok?
    case DepositCollateral(key, signer, amount) =>
      Owns(s, key, signer) && s.vaults[key].proofStatus == Verified
      && HasAge(s.vaults[key].proofTimestamp, now) && Within(s.vaults[key].proofTimestamp, now)
      && !s.protocol.frozen && !s.vaults[key].frozen && 0 < amount
      && s.vaults[key].deposited + amount <= U64_MAX && s.protocol.totalCollateral + amount < U128_LIMIT
    case WithdrawCollateral(key, signer, amount) =>
      Owns(s, key, signer) && !s.protocol.frozen && 0 < amount <= s.vaults[key].deposited
      && amount <= s.protocol.totalCollateral
  }

  /** In a consistent state nothing else can fail one: proofs are pending or stand, as none ever expires. */
  lemma CustodySucceedsIff(s: State, now: i64, instruction: CustodyInstruction)
    requires Inv(s)
    ensures ApplyCustody(s, now, instruction).Ok? <==> CustodyAllowed(s, now, instruction)
  {
    hide ParseMessageApproval, Inv;
    if !instruction.RegisterVault? {
      KeyIsConsistent(s, instruction.key);
    }
  }

  /** The Bitcoin vault a custody instruction names exists and is its signer's. */
  predicate OwnsBtc(s: State, key: VaultKey, signer: Key) {
    key in s.btcVaults && signer == key.owner
  }

  /** At most 64 characters that start with tb1q or tb1p. */
  predicate IsTestnetAddress(address: seq<u8>) {
    |address| <= 64 && ([116, 98, 49, 113] <= address || [116, 98, 49, 112] <= address)
  }

  lemma TestnetAddresses(address: seq<u8>)
    ensures ValidBitcoinAddress(address) <==> IsTestnetAddress(address)
  {
    if 4 <= |address| {
      assert address[..4] == [address[0], address[1], address[2], address[3]];
    }
  }

  /** What a custody instruction of the Bitcoin path needs. */
  predicate BtcCustodyAllowed(s: State, now: i64, instruction: BtcCustodyInstruction) {
    match instruction
    case RegisterBtcVault(signer, ikaDwallet, pubkey, address) =>
      var key := VaultKey(signer, ikaDwallet);
      key !in s.btcVaults && key !in s.attestations && s.protocol.totalVaults < U64_MAX
      && IsTestnetAddress(address) && |pubkey| == 33 && (pubkey[0] == 2 || pubkey[0] == 3)
    case AttestBtcBalance(key, signer, _, _) => key in s.btcVaults && signer == s.protocol.admin
    case VerifyBtcCustodyProof(key, signer, approval) =>
      OwnsBtc(s, key, signer) && s.btcVaults[key].proofStatus == Pending
      && ParseForBtcDwallet(approval, key.dwallet, now).Ok?
    case RefreshBtcCustodyProof(key, signer, approval) =>
      OwnsBtc(s, key, signer) && s.btcVaults[key].proofStatus == Verified
      && ParseForBtcDwallet(approval, key.dwallet, now).Ok?
  }

  /** Vaults and attestations after a committed custody instruction of the Bitcoin path: an attestation moves
      the balance in both places and leaves proof and liquidation alone, a proof leaves the rest alone. */
  predicate BtcCustodyEffect(s: State, clock: Clock, instruction: BtcCustodyInstruction, after: State) {
    match instruction
    case RegisterBtcVault(signer, ikaDwallet, _, address) =>
      var key := VaultKey(signer, ikaDwallet);
      after.btcVaults == s.btcVaults[key := BtcVault(signer, ikaDwallet, address, 0, 0, Pending, 0, false, 0,
                                                     DefaultKey())]
      && after.attestations == s.attestations[key := Attestation(address, 0, 0, 0, 0, DefaultKey())]
      && s.protocol.totalVaults + 1 <= U64_MAX
      && after.protocol == s.protocol.(totalVaults := s.protocol.totalVaults + 1)
    case AttestBtcBalance(key, signer, satoshis, height) =>
      key in s.btcVaults && key in s.attestations && after.protocol == s.protocol
      && after.btcVaults == s.btcVaults[key := s.btcVaults[key].(depositedSatoshis := satoshis,
                                                                 lastAttestationSlot := clock.slot)]
      && after.attestations == s.attestations[key := Attestation(s.btcVaults[key].bitcoinAddress, satoshis, height,
                                                                 clock.slot, clock.now, signer)]
    case VerifyBtcCustodyProof(key, _, _) =>
      key in s.btcVaults && after.attestations == s.attestations && after.protocol == s.protocol
      && after.btcVaults == s.btcVaults[key := s.btcVaults[key].(proofStatus := Verified, proofTimestamp := clock.now)]
    case RefreshBtcCustodyProof(key, _, _) =>
      key in s.btcVaults && after.attestations == s.attestations && after.protocol == s.protocol
      && after.btcVaults == s.btcVaults[key := s.btcVaults[key].(proofTimestamp := clock.now)]
  }

  /** In a consistent state a custody instruction of the Bitcoin path commits exactly when allowed: the guard on
      the attested address never bites. */
  lemma BtcCustodySucceedsIff(s: State, clock: Clock, instruction: BtcCustodyInstruction)
    requires Inv(s)
    ensures var r := ApplyBtcCustody(s, clock, instruction);
            (r.Ok? <==> BtcCustodyAllowed(s, clock.now, instruction))
            && (r.Ok? ==> BtcCustodyEffect(s, clock, instruction, r.value.state))
  {
    hide ParseForBtcDwallet, ValidBitcoinAddress, IsTestnetAddress, DefaultKey, Inv;
    if instruction.RegisterBtcVault? {
      TestnetAddresses(instruction.bitcoinAddress);
    }
    if !instruction.RegisterBtcVault? {
      KeyIsConsistent(s, instruction.key);
    }
  }

  // ---- Bitcoin vaults under loan instructions ----

  /** Vaults and attestations after a committed loan instruction of the Bitcoin path: an initiation freezes its
      vault and notes time and sighash, a finalisation resets it to what the keeper reports. */
  predicate BtcLendingEffect(s: State, clock: Clock, instruction: BtcLendingInstruction, after: State) {
    match instruction
    case LiquidateBtc(key, _, _, _, _, sighash, _) =>
      key in s.btcVaults && after.attestations == s.attestations
      && after.btcVaults == s.btcVaults[key := s.btcVaults[key].(
                                          frozen := true, liquidationInitiatedAt := clock.now,
                                          liquidationSighash := sighash)]
    case FinalizeBtcLiquidation(key, signer, height, _, remaining) =>
      key in s.btcVaults && key in s.attestations
      && after.btcVaults == s.btcVaults[key := s.btcVaults[key].(
                                          depositedSatoshis := remaining, lastAttestationSlot := clock.slot,
                                          proofStatus := Pending, proofTimestamp := 0, frozen := false,
                                          liquidationInitiatedAt := 0, liquidationSighash := seq(32, i => 0))]
      && after.attestations == s.attestations[key := Attestation(s.attestations[key].bitcoinAddress, remaining,
                                                height, clock.slot, clock.now, signer)]
    case _ => after.btcVaults == s.btcVaults && after.attestations == s.attestations
  }

  lemma BtcLendingCommits(s: State, clock: Clock, instruction: BtcLendingInstruction)
    requires ApplyBtcLending(s, clock, instruction).Ok?
    ensures BtcLendingEffect(s, clock, instruction, ApplyBtcLending(s, clock, instruction).value.state)
  {
    hide LiquidateBtcStep, FinalizeBtcLiquidationStep, BtcBorrowGuard, DrawFunds, PayDown, PaidPositions;
    match instruction
    case LiquidateBtc(key, signer, feed, wallet, dwallet, sighash, accepted) =>
      LiquidationMarks(s, clock, key, signer, feed, wallet, dwallet, sighash, accepted);
    case FinalizeBtcLiquidation(key, signer, height, confirmations, remaining) =>
      FinalisationResets(s, clock, key, signer, height, confirmations, remaining);
    case _ =>
  }

  lemma LiquidationMarks(s: State, clock: Clock, key: VaultKey, signer: Key, feed: Feed, wallet: u64, dwallet: Key,
                         sighash: Bytes32, accepted: bool)
    requires LiquidateBtcStep(s, clock, key, signer, feed, wallet, dwallet, sighash, accepted).Ok?
    ensures BtcLendingEffect(
              s, clock, LiquidateBtc(key, signer, feed, wallet, dwallet, sighash, accepted),
              LiquidateBtcStep(s, clock, key, signer, feed, wallet, dwallet, sighash, accepted).value.state)
  {
    hide Accrued, LiquidatorGuard, FreshGuard, PayOff, DebtToSatoshisWithBonus;
  }

  lemma FinalisationResets(s: State, clock: Clock, key: VaultKey, signer: Key, height: u64, confirmations: u32,
                           remaining: u64)
    requires FinalizeBtcLiquidationStep(s, clock, key, signer, height, confirmations, remaining).Ok?
    ensures BtcLendingEffect(
              s, clock, FinalizeBtcLiquidation(key, signer, height, confirmations, remaining),
              FinalizeBtcLiquidationStep(s, clock, key, signer, height, confirmations, remaining).value.state)
  {
    assert DefaultKey() == seq(32, i => 0);
  }
}
