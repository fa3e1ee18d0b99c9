/** Fresh loans against liquidation for the rest of their slot. */
module SlotShelter {
  import opened Prelude
  import opened FloorArithmetic
  import opened Pricing
  import opened Interest
  import opened Loans
  import opened Accounts
  import opened Steps
  import opened Invariants
  import opened VaultEffects
  import opened Runs
  import opened LoanEffects
  import opened LoanLaws
  import opened Liquidations
  import opened FreshLoans
  import opened Example

  /** The price a borrow or a liquidation reads. */
  function PriceOf(tx: Transaction): u64 {
    match tx.instruction
    case Lending(Borrow(_, _, _, feed)) => feed.priceUsd
    case Lending(Liquidate(_, _, feed, _, _)) => feed.priceUsd
    case BtcLending(BorrowBtc(_, _, _, feed)) => feed.priceUsd
    case BtcLending(LiquidateBtc(_, _, feed, _, _, _, _)) => feed.priceUsd
    case _ => 0
  }

  /** The pool as it was after the borrow, but for its total. */
  predicate SamePool(s: State, loan: State) {
    s.pool == loan.pool.(totalBorrowed := s.pool.totalBorrowed)
  }

  /** More collateral, a higher price and less debt keep a healthy loan healthy. */
  lemma HealthMonotone(units: nat, price: nat, debt: nat, moreUnits: nat, higherPrice: nat, lessDebt: nat,
                       thresholdBps: nat, coin: Coin)
    requires !ClientIsLiquidatable(units, price, debt, thresholdBps, coin)
    requires units <= moreUnits && price <= higherPrice && lessDebt <= debt
    ensures !ClientIsLiquidatable(moreUnits, higherPrice, lessDebt, thresholdBps, coin)
  {
    ProductBound(units, price, moreUnits, higherPrice);
    DivMonotone(units * price, moreUnits * higherPrice, coin);
    var usd, moreUsd := UsdValue(units, price, coin), UsdValue(moreUnits, higherPrice, coin);
    DivMonotone(usd * ASSET_ONE, moreUsd * ASSET_ONE, PRICE_ONE);
    MulMonotone(AssetValue(usd), AssetValue(moreUsd), thresholdBps);
    DivMonotone(AssetValue(usd) * thresholdBps, AssetValue(moreUsd) * thresholdBps, BPS);
  }

  lemma LessPrincipalLessDebt(less: nat, principal: nat, index: nat)
    requires less <= principal
    ensures Debt(less, index) <= Debt(principal, index)
  {
    MulMonotone(less, principal, index);
    DivMonotone(less * index, principal * index, RAY);
  }

  lemma NoAccrualInSlot(pool: Pool, slot: u64)
    ensures Accrued(pool, slot).Ok? ==> slot <= Accrued(pool, slot).value.lastUpdateSlot
    ensures slot <= pool.lastUpdateSlot ==> Accrued(pool, slot) == Ok(pool)
  {
  }

  /** In the slot of the pool's last accrual no transaction moves more of the pool than its total. */
  lemma SlotKeepsPool(s: State, tx: Transaction)
    requires tx.clock.slot <= s.pool.lastUpdateSlot
    ensures Next(s, tx).pool == s.pool.(totalBorrowed := Next(s, tx).pool.totalBorrowed)
  {
    hide Apply, Accrued;
    if !OnLoan(tx) {
      OthersLeaveLoans(s, tx);
    } else if Commits(s, tx) {
      LoanAccrues(s, tx);
      NoAccrualInSlot(s.pool, tx.clock.slot);
    }
  }

  // ---- the SOL path ----

  /** The loan, if it is still open, owes no more than after the borrow, on no less collateral. */
  predicate Sheltered(s: State, loan: State, key: VaultKey) {
    SamePool(s, loan)
    && (key in s.positions ==>
          key in loan.positions && s.positions[key].principal <= loan.positions[key].principal
          && key in s.vaults && DepositOf(loan, key) <= s.vaults[key].deposited)
  }

  lemma ShelterStays(s: State, tx: Transaction, loan: State, key: VaultKey)
    requires RAY <= s.pool.borrowIndex && Sheltered(s, loan, key) && 0 < DepositOf(loan, key)
    requires tx.clock.slot <= loan.pool.lastUpdateSlot
    requires !((Withdraws(tx, key) || Borrows(tx, key)) && Commits(s, tx))
    ensures Sheltered(Next(s, tx), loan, key)
  {
    hide ApplyCustody, ApplyBreaker, ApplyLending, ApplyBtcCustody, ApplyBtcLending, DepositOf;
    SlotKeepsPool(s, tx);
    match tx.instruction
    case Custody(instruction) =>
      CustodyFrame(s, tx.clock.now, instruction);
      if Commits(s, tx) {
        CustodyCommits(s, tx.clock.now, instruction);
      }
    case Breaker(instruction) =>
      BreakerFrame(s, instruction);
      if Commits(s, tx) {
        BreakerCommits(s, instruction);
      }
    case Lending(instruction) =>
      if Commits(s, tx) {
        LoanCommits(s, tx);
        LendingCommits(s, tx.clock, instruction);
      }
    case BtcCustody(instruction) => BtcCustodyFrame(s, tx.clock, instruction);
    case BtcLending(instruction) => BtcLendingFrame(s, tx.clock, instruction);
  }

  /** Slots up to j are the borrow's, and until then the owner neither withdraws nor opens another loan. */
  ghost predicate QuietSlot(r: Run, i: nat, j: nat, key: VaultKey)
    requires i <= j < |r.txs| < |r.states|
  {
    (forall m | i <= m <= j :: r.txs[m].clock.slot == r.txs[i].clock.slot)
    && (forall m | i < m < j :: !((Withdraws(r.txs[m], key) || Borrows(r.txs[m], key)) && CommitsAt(r, m)))
  }

  lemma {:induction false} ShelteredInSlot(r: Run, i: nat, j: nat, key: VaultKey)
    requires IsRun(r) && i < j < |r.txs| && Borrows(r.txs[i], key) && CommitsAt(r, i)
    requires QuietSlot(r, i, j, key)
    ensures Sheltered(r.states[j], r.states[i + 1], key)
    decreases j
  {
    hide Next, Apply, Initial, Inv, Sheltered;
    BorrowShelters(r, i, key);
    if i + 1 < j {
      assert QuietSlot(r, i, j - 1, key);
      ShelteredInSlot(r, i, j - 1, key);
      IndexAlwaysAtLeastOne(r, j - 1);
      ShelterStays(r.states[j - 1], r.txs[j - 1], r.states[i + 1], key);
    }
  }

  lemma BorrowShelters(r: Run, i: nat, key: VaultKey)
    requires IsRun(r) && i < |r.txs| && Borrows(r.txs[i], key) && CommitsAt(r, i)
    ensures Sheltered(r.states[i + 1], r.states[i + 1], key)
    ensures 0 < DepositOf(r.states[i + 1], key) == DepositOf(r.states[i], key)
    ensures r.txs[i].clock.slot <= r.states[i + 1].pool.lastUpdateSlot
  {
    hide DrawFunds, FreshGuard, LimitGuard, Initial;
    var s, tx := r.states[i], r.txs[i];
    DrawAccrues(s.pool, s.poolTokens, tx.clock.slot, tx.instruction.lending.amount);
    NoAccrualInSlot(s.pool, tx.clock.slot);
  }

  /** Right after the borrow the loan passes the test of the client, and of the program. */
  lemma BorrowIsHealthy(s: State, tx: Transaction, key: VaultKey)
    requires Inv(s) && Borrows(tx, key) && Commits(s, tx)
    requires !RoundingCrosses(UsdValue(DepositOf(s, key), PriceOf(tx), COLLATERAL_ONE), s.pool.ltvBps,
                              s.pool.thresholdBps)
    ensures var loan := Next(s, tx);
            key in loan.positions
            && !ClientIsLiquidatable(DepositOf(s, key), PriceOf(tx),
                                     Debt(loan.positions[key].principal, loan.pool.borrowIndex),
                                     loan.pool.thresholdBps, COLLATERAL_ONE)
  {
    hide BorrowGuard, DrawFunds, RoundingCrosses, BorrowLimit, UsdValue, Inv, ClientIsLiquidatable, Debt, Scaled;
    InvBoundsPool(s);
    LoanCommits(s, tx);
    var i := tx.instruction.lending;
    BorrowedWithinLimit(s, tx.clock, key, i.signer, i.amount, i.feed);
    FreshLoanAgainstThreshold(DepositOf(s, key), PriceOf(tx), COLLATERAL_ONE, s.pool.ltvBps, s.pool.thresholdBps,
                              i.amount, Next(s, tx).pool.borrowIndex);
  }

  /** A sheltered loan that was healthy after its borrow cannot be liquidated at that price or a higher one. */
  lemma ShelterBlocks(s: State, tx: Transaction, loan: State, key: VaultKey, price: u64)
    requires Inv(s) && Sheltered(s, loan, key) && tx.clock.slot <= loan.pool.lastUpdateSlot
    requires key in loan.positions
             && !ClientIsLiquidatable(DepositOf(loan, key), price,
                                      Debt(loan.positions[key].principal, loan.pool.borrowIndex),
                                      loan.pool.thresholdBps, COLLATERAL_ONE)
    requires Liquidates(tx, key) && price <= PriceOf(tx)
    ensures !Commits(s, tx)
  {
    hide LiquidateStep, Inv, Accrued, ClientIsLiquidatable, Debt, Seize;
    var i := tx.instruction.lending;
    NoAccrualInSlot(s.pool, tx.clock.slot);
    LiquidationSucceedsIff(s, tx.clock, key, i.signer, i.feed, i.wallet, i.lamports);
    if key in s.positions {
      var index, principal := loan.pool.borrowIndex, loan.positions[key].principal;
      LessPrincipalLessDebt(s.positions[key].principal, principal, index);
      HealthMonotone(DepositOf(loan, key), price, Debt(principal, index), s.vaults[key].deposited, PriceOf(tx),
                     Debt(s.positions[key].principal, index), loan.pool.thresholdBps, COLLATERAL_ONE);
    }
  }

  /** Unless rounding crosses, no liquidation commits for the rest of a slot, from the vault's last borrow in it
      on, at the price of that borrow or a higher one, whatever else happens but a withdrawal from the vault. */
  lemma FreshLoanIsSafeInSlot(r: Run, i: nat, j: nat, key: VaultKey)
    requires IsRun(r) && i < j < |r.txs| && Borrows(r.txs[i], key) && CommitsAt(r, i)
    requires QuietSlot(r, i, j, key)
    requires Liquidates(r.txs[j], key) && PriceOf(r.txs[i]) <= PriceOf(r.txs[j])
    requires var pool := r.states[i].pool;
             !RoundingCrosses(UsdValue(DepositOf(r.states[i], key), PriceOf(r.txs[i]), COLLATERAL_ONE),
                              pool.ltvBps, pool.thresholdBps)
    ensures !CommitsAt(r, j)
  {
    hide Next, Apply, Initial, Inv, Sheltered, RoundingCrosses, ClientIsLiquidatable, UsdValue, Debt, PriceOf,
      DepositOf;
    InvAlways(r, i);
    BorrowIsHealthy(r.states[i], r.txs[i], key);
    BorrowShelters(r, i, key);
    ShelteredInSlot(r, i, j, key);
    InvAlways(r, j);
    ShelterBlocks(r.states[j], r.txs[j], r.states[i + 1], key, PriceOf(r.txs[i]));
  }

  /** A withdrawal in between exposes it: the owner borrows 1000 units on a coin worth a dollar, withdraws all but
      a thousandth of it, and is liquidated, all at one time and price. */
  lemma WithdrawalExposesFreshLoan()
    ensures var s, clock, feed := OneVault(RAY, 6000, 7500, 1_000_000_000), Clock(1, 0), Feed(PRICE_ONE, 1);
            var loan := BorrowStep(s, clock, Address(), Owner(), 1000, feed);
            Inv(s) && loan.Ok?
            && var left := WithdrawCollateralStep(loan.value.state, Address(), Owner(), 999_000_000);
               left.Ok?
               && LiquidateStep(left.value.state, clock, Address(), Stranger(), feed, 1000,
                                Lamports(1_000_000, 0, 0)).Ok?
  {
    var s, feed := OneVault(RAY, 6000, 7500, 1_000_000_000), Feed(PRICE_ONE, 1);
    OneVaultIsConsistent(RAY, 6000, 7500, 1_000_000_000);
    BorrowSucceedsIff(s, Clock(1, 0), Address(), Owner(), 1000, feed);
  }

  // ---- the Bitcoin path ----

  /** What a Bitcoin vault is attested to hold. */
  function SatoshisOf(s: State, key: VaultKey): nat {
    if key in s.attestations then s.attestations[key].satoshis else 0
  }

  /** Likewise a Bitcoin loan, on the attested satoshis. */
  predicate ShelteredBtc(s: State, loan: State, key: VaultKey) {
    SamePool(s, loan)
    && (key in s.btcPositions ==>
          key in loan.btcPositions && s.btcPositions[key].principal <= loan.btcPositions[key].principal
          && key in s.attestations && SatoshisOf(loan, key) <= s.attestations[key].satoshis)
  }

  /** An attestation of a smaller balance. */
  predicate AttestsLess(tx: Transaction, key: VaultKey, satoshis: nat) {
    tx.instruction.BtcCustody? && tx.instruction.btcCustody.AttestBtcBalance? && tx.instruction.btcCustody.key == key
    && tx.instruction.btcCustody.satoshis < satoshis
  }

  lemma ShelterBtcStays(s: State, tx: Transaction, loan: State, key: VaultKey)
    requires Inv(s) && ShelteredBtc(s, loan, key) && tx.clock.slot <= loan.pool.lastUpdateSlot
    requires !((AttestsLess(tx, key, SatoshisOf(loan, key)) || BorrowsBtc(tx, key)) && Commits(s, tx))
    ensures ShelteredBtc(Next(s, tx), loan, key)
  {
    hide ApplyCustody, ApplyBreaker, ApplyLending, ApplyBtcCustody, ApplyBtcLending, SatoshisOf, Inv;
    SlotKeepsPool(s, tx);
    InvBoundsPool(s);
    match tx.instruction
    case Custody(instruction) => CustodyFrame(s, tx.clock.now, instruction);
    case Breaker(instruction) => BreakerFrame(s, instruction);
    case Lending(instruction) => LendingFrame(s, tx.clock, instruction);
    case BtcCustody(instruction) =>
      BtcCustodyFrame(s, tx.clock, instruction);
      BtcCustodySucceedsIff(s, tx.clock, instruction);
    case BtcLending(instruction) =>
      if Commits(s, tx) {
        BtcLendingCommits(s, tx.clock, instruction);
        LoanCommits(s, tx);
      }
  }

  /** Slots up to j are the borrow's, and until then no smaller balance is attested and no other loan opened. */
  ghost predicate QuietBtcSlot(r: Run, i: nat, j: nat, key: VaultKey)
    requires i <= j < |r.txs| < |r.states|
  {
    (forall m | i <= m <= j :: r.txs[m].clock.slot == r.txs[i].clock.slot)
    && (forall m | i < m < j ::
          !((AttestsLess(r.txs[m], key, SatoshisOf(r.states[i], key)) || BorrowsBtc(r.txs[m], key))
            && CommitsAt(r, m)))
  }

  lemma {:induction false} ShelteredBtcInSlot(r: Run, i: nat, j: nat, key: VaultKey)
    requires IsRun(r) && i < j < |r.txs| && BorrowsBtc(r.txs[i], key) && CommitsAt(r, i)
    requires QuietBtcSlot(r, i, j, key)
    ensures ShelteredBtc(r.states[j], r.states[i + 1], key)
    decreases j
  {
    hide Next, Apply, Initial, Inv, ShelteredBtc, AttestsLess, SatoshisOf;
    BorrowSheltersBtc(r, i, key);
    if i + 1 < j {
      assert QuietBtcSlot(r, i, j - 1, key);
      ShelteredBtcInSlot(r, i, j - 1, key);
      InvAlways(r, j - 1);
      ShelterBtcStays(r.states[j - 1], r.txs[j - 1], r.states[i + 1], key);
    }
  }

  lemma BorrowSheltersBtc(r: Run, i: nat, key: VaultKey)
    requires IsRun(r) && i < |r.txs| && BorrowsBtc(r.txs[i], key) && CommitsAt(r, i)
    ensures ShelteredBtc(r.states[i + 1], r.states[i + 1], key)
    ensures SatoshisOf(r.states[i + 1], key) == SatoshisOf(r.states[i], key)
    ensures r.txs[i].clock.slot <= r.states[i + 1].pool.lastUpdateSlot
  {
    hide DrawFunds, FreshGuard, LimitGuard, Initial;
    var s, tx := r.states[i], r.txs[i];
    DrawAccrues(s.pool, s.poolTokens, tx.clock.slot, tx.instruction.btcLending.amount);
    NoAccrualInSlot(s.pool, tx.clock.slot);
  }

  lemma BorrowBtcIsHealthy(s: State, tx: Transaction, key: VaultKey)
    requires Inv(s) && BorrowsBtc(tx, key) && Commits(s, tx)
    requires !RoundingCrosses(UsdValue(SatoshisOf(s, key), PriceOf(tx), SATOSHIS_PER_BTC), s.pool.ltvBps,
                              s.pool.thresholdBps)
    ensures var loan := Next(s, tx);
            key in loan.btcPositions
            && !ClientIsLiquidatable(SatoshisOf(s, key), PriceOf(tx),
                                     Debt(loan.btcPositions[key].principal, loan.pool.borrowIndex),
                                     loan.pool.thresholdBps, SATOSHIS_PER_BTC)
  {
    hide BtcBorrowGuard, DrawFunds, RoundingCrosses, BorrowLimit, UsdValue, Inv, ClientIsLiquidatable, Debt, Scaled;
    InvBoundsPool(s);
    LoanCommits(s, tx);
    var i := tx.instruction.btcLending;
    BorrowedBtcWithinLimit(s, tx.clock, key, i.signer, i.amount, i.feed);
    FreshLoanAgainstThreshold(SatoshisOf(s, key), PriceOf(tx), SATOSHIS_PER_BTC, s.pool.ltvBps, s.pool.thresholdBps,
                              i.amount, Next(s, tx).pool.borrowIndex);
  }

  lemma ShelterBtcBlocks(s: State, tx: Transaction, loan: State, key: VaultKey, price: u64)
    requires Inv(s) && ShelteredBtc(s, loan, key) && tx.clock.slot <= loan.pool.lastUpdateSlot
    requires key in loan.btcPositions
             && !ClientIsLiquidatable(SatoshisOf(loan, key), price,
                                      Debt(loan.btcPositions[key].principal, loan.pool.borrowIndex),
                                      loan.pool.thresholdBps, SATOSHIS_PER_BTC)
    requires LiquidatesBtc(tx, key) && price <= PriceOf(tx)
    ensures !Commits(s, tx)
  {
    hide LiquidateBtcStep, Inv, Accrued, ClientIsLiquidatable, Debt, SatoshisWithBonus;
    var i := tx.instruction.btcLending;
    NoAccrualInSlot(s.pool, tx.clock.slot);
    BtcLiquidationSucceedsIff(s, tx.clock, key, i.signer, i.feed, i.wallet, i.dwallet, i.sighash, i.cpiAccepted);
    if key in s.btcPositions {
      var index, principal := loan.pool.borrowIndex, loan.btcPositions[key].principal;
      LessPrincipalLessDebt(s.btcPositions[key].principal, principal, index);
      HealthMonotone(SatoshisOf(loan, key), price, Debt(principal, index), s.attestations[key].satoshis, PriceOf(tx),
                     Debt(s.btcPositions[key].principal, index), loan.pool.thresholdBps, SATOSHIS_PER_BTC);
    }
  }

  /** The same for a Bitcoin vault, whatever else happens from its last borrow on but the attestation of a smaller
      balance. */
  lemma FreshBtcLoanIsSafeInSlot(r: Run, i: nat, j: nat, key: VaultKey)
    requires IsRun(r) && i < j < |r.txs| && BorrowsBtc(r.txs[i], key) && CommitsAt(r, i)
    requires QuietBtcSlot(r, i, j, key)
    requires LiquidatesBtc(r.txs[j], key) && PriceOf(r.txs[i]) <= PriceOf(r.txs[j])
    requires var pool := r.states[i].pool;
             !RoundingCrosses(UsdValue(SatoshisOf(r.states[i], key), PriceOf(r.txs[i]), SATOSHIS_PER_BTC),
                              pool.ltvBps, pool.thresholdBps)
    ensures !CommitsAt(r, j)
  {
    hide Next, Apply, Initial, Inv, ShelteredBtc, RoundingCrosses, ClientIsLiquidatable, UsdValue, Debt, PriceOf,
      SatoshisOf;
    InvAlways(r, i);
    BorrowBtcIsHealthy(r.states[i], r.txs[i], key);
    BorrowSheltersBtc(r, i, key);
    ShelteredBtcInSlot(r, i, j, key);
    InvAlways(r, j);
    ShelterBtcBlocks(r.states[j], r.txs[j], r.states[i + 1], key, PriceOf(r.txs[i]));
  }

  /** A smaller attestation in between exposes it: the owner borrows 1000 units on a bitcoin worth a dollar, the
      keeper attests a thousandth of it, and the loan is liquidated, all at one time and price. */
  lemma AttestationExposesFreshBtcLoan()
    ensures var s, clock, feed := OneBtcVault(6000, 7500), Clock(1, 0), Feed(PRICE_ONE, 1);
            var loan := BorrowBtcStep(s, clock, Address(), Owner(), 1000, feed);
            Inv(s) && loan.Ok?
            && var less := AttestBtcBalanceStep(loan.value.state, clock, Address(), s.protocol.admin, 100_000, 1);
               less.Ok?
               && LiquidateBtcStep(less.value.state, clock, Address(), Stranger(), feed, 1000, Address().dwallet,
                                   DefaultKey(), true).Ok?
  {
    var s, feed := OneBtcVault(6000, 7500), Feed(PRICE_ONE, 1);
    OneBtcVaultIsConsistent(6000, 7500);
    BorrowBtcSucceedsIff(s, Clock(1, 0), Address(), Owner(), 1000, feed);
  }
}
