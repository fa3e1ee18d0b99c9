/** When a loan can be liquidated, and what a liquidation takes. */
module Liquidations {
  import opened Prelude
  import opened Pricing
  import opened Interest
  import opened Accounts
  import opened Steps
  import opened Invariants
  import opened Runs
  import opened LoanLaws
  import opened Figures
  import opened Example

  /** The part of a liquidation both paths share succeeds exactly on an unhealthy loan the liquidator can pay. */
  lemma PayOffSucceedsIff(tokens: u64, pool: Pool, principal: u64, collateral: u64, feed: Feed, coin: Coin, wallet: u64)
    ensures var debt := Debt(principal, pool.borrowIndex);
            var r := PayOff(tokens, pool, principal, collateral, feed, coin, wallet);
            (r.Ok? <==> debt <= U64_MAX
                        && ClientIsLiquidatable(collateral, feed.priceUsd, debt, pool.thresholdBps, coin)
                        && debt <= wallet && tokens + debt <= U64_MAX)
            && (r.Ok? ==> r.value == Payoff(debt, tokens + debt))
            && (debt <= U64_MAX && !ClientIsLiquidatable(collateral, feed.priceUsd, debt, pool.thresholdBps, coin)
                ==> r == Err(PositionHealthy))
  {
    hide ClientIsLiquidatable;
  }

  // ---- seizure ----

  function Movable(lamports: Lamports): u64 {
    if lamports.rentExemptMinimum <= lamports.vault then lamports.vault - lamports.rentExemptMinimum else 0
  }

  /** A seizure takes what can move of the deposit, keeps the vault rent-exempt and loses no lamport. The bonus
      is never paid: where more than the deposit could move and a bonus is due, the seizure fails. */
  lemma SeizureSucceedsIff(deposited: u64, bonusBps: u16, lamports: Lamports)
    ensures var r := Seize(deposited, bonusBps, lamports);
            (r.Ok? <==> 0 < deposited && 0 < Movable(lamports)
                        && WithBonus(deposited, bonusBps) <= U64_MAX
                        && (Movable(lamports) <= deposited || WithBonus(deposited, bonusBps) == deposited)
                        && lamports.liquidator + Min(deposited, Movable(lamports)) <= U64_MAX)
            && (r.Ok? ==>
                  r.value.seized == Min(deposited, Movable(lamports))
                  && r.value.depositedLeft == deposited - r.value.seized
                  && r.value.lamports.rentExemptMinimum == lamports.rentExemptMinimum <= r.value.lamports.vault
                  && r.value.lamports.vault == lamports.vault - r.value.seized
                  && r.value.lamports.vault + r.value.lamports.liquidator == lamports.vault + lamports.liquidator)
  {
    hide WithBonus;
    BonusOfNothing(deposited, bonusBps);
  }

  lemma BonusOfNothing(deposited: nat, bonusBps: nat)
    ensures deposited == 0 ==> WithBonus(deposited, bonusBps) == 0
  {
  }

  /** A loan is open to liquidation at a time by someone else than its owner. */
  predicate Open(s: State, position: Position, now: i64, liquidator: Key, feed: Feed) {
    !s.protocol.frozen && position.principal > 0 && position.owner != liquidator
    && Recent(feed.updatedAt, now, 3600)
  }

  /** A SOL-path liquidation succeeds exactly on an open, unhealthy loan that the liquidator can pay and whose
      seizure succeeds; the pool's total never stands in its way. */
  lemma LiquidationSucceedsIff(s: State, clock: Clock, key: VaultKey, signer: Key, feed: Feed, wallet: u64,
                               lamports: Lamports)
    requires Inv(s)
    ensures LiquidateStep(s, clock, key, signer, feed, wallet, lamports).Ok?
       <==> key in s.vaults && key in s.positions && Accrued(s.pool, clock.slot).Ok?
            && Open(s, s.positions[key], clock.now, signer, feed)
            && var debt := Debt(s.positions[key].principal, Accrued(s.pool, clock.slot).value.borrowIndex);
               debt <= U64_MAX && debt <= wallet && s.poolTokens + debt <= U64_MAX
               && ClientIsLiquidatable(s.vaults[key].deposited, feed.priceUsd, debt, s.pool.thresholdBps,
                                       COLLATERAL_ONE)
               && Seize(s.vaults[key].deposited, s.pool.bonusBps, lamports).Ok?
  {
    hide Accrued, PayOff, Seize, ClientIsLiquidatable, Debt, Inv;
    TotalCovers(s, key);
    if key in s.vaults && key in s.positions && Accrued(s.pool, clock.slot).Ok? {
      PayOffSucceedsIff(s.poolTokens, Accrued(s.pool, clock.slot).value, s.positions[key].principal,
                        s.vaults[key].deposited, feed,
                        COLLATERAL_ONE, wallet);
    }
  }

  /** A Bitcoin liquidation needs an attestation of the last ten minutes, the vault's own dWallet and the
      signing program's consent, but no seizure; a loan in flight has no principal and so is not open. */
  lemma BtcLiquidationSucceedsIff(s: State, clock: Clock, key: VaultKey, signer: Key, feed: Feed, wallet: u64,
                                  dwallet: Key, sighash: Bytes32, cpiAccepted: bool)
    requires Inv(s)
    ensures LiquidateBtcStep(s, clock, key, signer, feed, wallet, dwallet, sighash, cpiAccepted).Ok?
       <==> key in s.btcPositions && key in s.attestations && dwallet == key.dwallet && cpiAccepted
            && Accrued(s.pool, clock.slot).Ok?
            && Open(s, s.btcPositions[key], clock.now, signer, feed)
            && Recent(s.attestations[key].attestedAt, clock.now, 600)
            && var debt := Debt(s.btcPositions[key].principal, Accrued(s.pool, clock.slot).value.borrowIndex);
               debt <= U64_MAX && debt <= wallet && s.poolTokens + debt <= U64_MAX
               && ClientIsLiquidatable(s.attestations[key].satoshis, feed.priceUsd, debt, s.pool.thresholdBps,
                                       SATOSHIS_PER_BTC)
               && 0 < feed.priceUsd && SatoshisWithBonus(debt, feed.priceUsd, s.pool.bonusBps) <= U64_MAX
  {
    hide Accrued, PayOff, ClientIsLiquidatable, Debt, Inv, SatoshisWithBonus;
    TotalCovers(s, key);
    KeyIsConsistent(s, key);
    if key in s.btcPositions && Accrued(s.pool, clock.slot).Ok? {
      PayOffSucceedsIff(s.poolTokens, Accrued(s.pool, clock.slot).value, s.btcPositions[key].principal,
                        s.attestations[key].satoshis, feed, SATOSHIS_PER_BTC, wallet);
    }
  }

  /** What a committed liquidation does: the whole debt is paid, the loan is gone with its whole principal, and
      exactly the movable part of the deposit changes hands. */
  lemma LiquidationTakes(s: State, tx: Transaction, key: VaultKey)
    requires Inv(s) && Liquidates(tx, key) && Commits(s, tx)
    ensures var c := Apply(s, tx).value;
            var before := tx.instruction.lending.lamports;
            var deposited, principal := s.vaults[key].deposited, s.positions[key].principal;
            c.event == PositionLiquidated(Debt(principal, c.state.pool.borrowIndex), Min(deposited, Movable(before)),
                                          c.event.lamports)
            && before.rentExemptMinimum <= c.event.lamports.vault
            && c.event.lamports.vault + c.event.lamports.liquidator == before.vault + before.liquidator
            && c.state.vaults == s.vaults[key := s.vaults[key].(
                                             deposited := deposited - c.event.seized, proofStatus := Pending)]
            && c.state.positions == s.positions - {key}
            && c.state.pool.totalBorrowed == s.pool.totalBorrowed - principal
            && c.state.poolTokens == s.poolTokens + c.event.repaid
  {
    hide Accrued, FreshGuard, Seize, IsLiquidatable, Inv;
    var i := tx.instruction.lending;
    SeizureSucceedsIff(s.vaults[key].deposited, s.pool.bonusBps, i.lamports);
  }

  /**
   A Bitcoin liquidation promises `w` satoshis, worth the debt at the feed's price, with their bonus, and no more
   than the vault was attested to hold: the debt is paid whole, the loan keeps no principal and waits for its
   finalisation, and the vault is frozen with time and sighash noted.
   */
  lemma BtcLiquidationTakes(s: State, tx: Transaction, key: VaultKey) returns (w: nat, x: nat)
    requires Inv(s) && LiquidatesBtc(tx, key) && Commits(s, tx)
    ensures var c := Apply(s, tx).value;
            var i := tx.instruction.btcLending;
            var principal, satoshis := s.btcPositions[key].principal, s.attestations[key].satoshis;
            var debt := Debt(principal, c.state.pool.borrowIndex);
            i.feed.priceUsd > 0 && AreWorth(w, x, debt, i.feed.priceUsd, s.pool.bonusBps)
            && c.event == BtcLiquidationInitiated(debt, if x <= satoshis then x else satoshis)
            && key in c.state.btcPositions && c.state.btcPositions[key].principal == 0
            && c.state.pool.totalBorrowed == s.pool.totalBorrowed - principal
            && c.state.poolTokens == s.poolTokens + debt
            && c.state.attestations == s.attestations
            && c.state.btcVaults == s.btcVaults[key := s.btcVaults[key].(
                                                  frozen := true, liquidationInitiatedAt := tx.clock.now,
                                                  liquidationSighash := i.sighash)]
  {
    hide Accrued, FreshGuard, Inv, PayOff, ClientIsLiquidatable, SatoshisWithBonus, Debt, AreWorth;
    var i := tx.instruction.btcLending;
    var pool := Accrued(s.pool, tx.clock.slot).value;
    PayOffSucceedsIff(s.poolTokens, pool, s.btcPositions[key].principal, s.attestations[key].satoshis,
                      i.feed, SATOSHIS_PER_BTC, i.wallet);
    var debt := Debt(s.btcPositions[key].principal, pool.borrowIndex);
    x := SatoshisWithBonus(debt, i.feed.priceUsd, s.pool.bonusBps);
    w := SatoshisInUnits(debt, i.feed.priceUsd, s.pool.bonusBps);
  }

  // ---- the bonus ----

  /** No SOL-path liquidation commits from a vault that could move more than its deposit, if a bonus is due. */
  lemma BonusIsNeverPaid(s: State, clock: Clock, key: VaultKey, signer: Key, feed: Feed, wallet: u64,
                         lamports: Lamports)
    requires Inv(s) && key in s.vaults
    requires s.vaults[key].deposited < WithBonus(s.vaults[key].deposited, s.pool.bonusBps)
    requires s.vaults[key].deposited < Movable(lamports)
    ensures LiquidateStep(s, clock, key, signer, feed, wallet, lamports).Err?
  {
    hide LiquidateStep, Seize, WithBonus, Inv, Accrued, ClientIsLiquidatable, Debt;
    LiquidationSucceedsIff(s, clock, key, signer, feed, wallet, lamports);
    SeizureSucceedsIff(s.vaults[key].deposited, s.pool.bonusBps, lamports);
  }

  /** One and the same unhealthy loan is liquidated from a vault that holds its deposit, and cannot be from one
      that holds a lamport more. */
  lemma SurplusStopsLiquidation()
    ensures var s, clock := OneVault(RAY, 6000, 7500, 1_000_000_000), Clock(1, 0);
            var loan := BorrowStep(s, clock, Address(), Owner(), 1000, Feed(PRICE_ONE, 1));
            Inv(s) && loan.Ok?
            && LiquidateStep(loan.value.state, clock, Address(), Stranger(), Feed(1, 1), 1000,
                             Lamports(1_000_000_000, 0, 0)).Ok?
            && LiquidateStep(loan.value.state, clock, Address(), Stranger(), Feed(1, 1), 1000,
                             Lamports(1_000_000_001, 0, 0)).Err?
  {
    var s, feed := OneVault(RAY, 6000, 7500, 1_000_000_000), Feed(PRICE_ONE, 1);
    OneVaultIsConsistent(RAY, 6000, 7500, 1_000_000_000);
    BorrowSucceedsIff(s, Clock(1, 0), Address(), Owner(), 1000, feed);
  }
}
