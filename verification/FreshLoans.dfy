/** Fresh loans against liquidation right after the borrow. */
module FreshLoans {
  import opened Prelude
  import opened Pricing
  import opened Interest
  import opened Loans
  import opened Accounts
  import opened Steps
  import opened Invariants
  import opened LoanLaws
  import opened Liquidations
  import opened Example

  /** A loan within its limit fails the liquidation test, at the price and index it was opened at, exactly when
      it is worth the whole limit and the limit crosses the liquidation value by rounding. */
  lemma FreshLoanAgainstThreshold(units: nat, price: nat, coin: Coin, ltvBps: nat, thresholdBps: nat,
                                  amount: nat, index: nat)
    requires ltvBps < thresholdBps <= BPS && index > 0
    requires amount <= BorrowLimit(UsdValue(units, price, coin), ltvBps)
    ensures var usd, debt := UsdValue(units, price, coin), Debt(Scaled(amount, index), index);
            ClientIsLiquidatable(units, price, debt, thresholdBps, coin)
            <==> debt == BorrowLimit(usd, ltvBps) && RoundingCrosses(usd, ltvBps, thresholdBps)
  {
    hide BorrowLimit, LiquidationValue, RoundingCrosses, Debt, Scaled;
    FreshDebt(amount, index);
    LimitAgainstLiquidation(UsdValue(units, price, coin), ltvBps, thresholdBps);
  }

  /** The collateral's LTV margin is worth the LTV of one unit. */
  predicate HasMargin(units: nat, price: nat, coin: Coin, pool: Pool) {
    var margin: int := pool.thresholdBps - pool.ltvBps;
    AssetValue(UsdValue(units, price, coin)) * margin >= pool.ltvBps
  }

  lemma MarginRulesOutCrossing(usd: nat, ltvBps: nat, thresholdBps: nat)
    requires ltvBps < thresholdBps <= BPS
    requires AssetValue(usd) * (thresholdBps - ltvBps) >= ltvBps
    ensures !RoundingCrosses(usd, ltvBps, thresholdBps)
  {
    LimitAgainstLiquidation(usd, ltvBps, thresholdBps);
    MarginKeepsFreshLoanHealthy(usd, ltvBps, thresholdBps);
  }

  lemma BorrowedWithinLimit(s: State, clock: Clock, key: VaultKey, signer: Key, amount: u64, feed: Feed)
    requires BorrowStep(s, clock, key, signer, amount, feed).Ok?
    ensures amount <= BorrowLimit(UsdValue(s.vaults[key].deposited, feed.priceUsd, COLLATERAL_ONE), s.pool.ltvBps)
    ensures DrawFunds(s.pool, s.poolTokens, clock.slot, amount).Ok?
  {
    hide DrawFunds, BorrowLimit;
  }

  lemma BorrowedBtcWithinLimit(s: State, clock: Clock, key: VaultKey, signer: Key, amount: u64, feed: Feed)
    requires BorrowBtcStep(s, clock, key, signer, amount, feed).Ok?
    ensures amount <= BorrowLimit(UsdValue(s.attestations[key].satoshis, feed.priceUsd, SATOSHIS_PER_BTC),
                                  s.pool.ltvBps)
    ensures DrawFunds(s.pool, s.poolTokens, clock.slot, amount).Ok?
  {
    hide DrawFunds, BorrowLimit;
  }

  /** Unless rounding crosses, no liquidation at the same price commits as the next transaction in the slot: a
      liquidator with a fresh feed is told that the position is healthy. */
  lemma FreshLoanIsSafe(s: State, clock: Clock, key: VaultKey, signer: Key, amount: u64, feed: Feed,
                        later: Clock, liquidator: Key, laterFeed: Feed, wallet: u64, lamports: Lamports)
    requires Inv(s) && BorrowStep(s, clock, key, signer, amount, feed).Ok?
    requires !RoundingCrosses(UsdValue(s.vaults[key].deposited, feed.priceUsd, COLLATERAL_ONE),
                              s.pool.ltvBps, s.pool.thresholdBps)
    requires later.slot == clock.slot && laterFeed.priceUsd == feed.priceUsd
    ensures var loan := BorrowStep(s, clock, key, signer, amount, feed).value.state;
            var r := LiquidateStep(loan, later, key, liquidator, laterFeed, wallet, lamports);
            r.Err?
            && (loan.positions[key].principal > 0 && liquidator != signer
                && FreshGuard(later.now, laterFeed.updatedAt, PRICE_STALENESS_SECONDS, PriceFeedStale).Pass?
                ==> r == Err(PositionHealthy))
  {
    hide DrawFunds, FreshGuard, Seize, PayOff, Accrued, RoundingCrosses, LimitGuard, BorrowLimit, UsdValue, Inv;
    InvBoundsPool(s);
    BorrowedWithinLimit(s, clock, key, signer, amount, feed);
    var d := DrawFunds(s.pool, s.poolTokens, clock.slot, amount).value;
    FreshPayOff(s, clock.slot, amount, s.vaults[key].deposited, feed.priceUsd, COLLATERAL_ONE,
                BorrowStep(s, clock, key, signer, amount, feed).value.state.poolTokens, laterFeed, wallet);
  }

  /** Likewise on the Bitcoin path. */
  lemma FreshBtcLoanIsSafe(s: State, clock: Clock, key: VaultKey, signer: Key, amount: u64, feed: Feed,
                           later: Clock, liquidator: Key, laterFeed: Feed, wallet: u64, dwallet: Key,
                           sighash: Bytes32, cpiAccepted: bool)
    requires Inv(s) && BorrowBtcStep(s, clock, key, signer, amount, feed).Ok?
    requires !RoundingCrosses(UsdValue(s.attestations[key].satoshis, feed.priceUsd, SATOSHIS_PER_BTC),
                              s.pool.ltvBps, s.pool.thresholdBps)
    requires later.slot == clock.slot && laterFeed.priceUsd == feed.priceUsd
    ensures var loan := BorrowBtcStep(s, clock, key, signer, amount, feed).value.state;
            var r := LiquidateBtcStep(loan, later, key, liquidator, laterFeed, wallet, dwallet, sighash, cpiAccepted);
            r.Err?
            && (loan.btcPositions[key].principal > 0 && liquidator != signer && dwallet == s.btcVaults[key].ikaDwallet
                && FreshGuard(later.now, s.attestations[key].attestedAt, BTC_ATTESTATION_MAX_AGE_SECONDS,
                              BitcoinAttestationStale).Pass?
                && FreshGuard(later.now, laterFeed.updatedAt, PRICE_STALENESS_SECONDS, PriceFeedStale).Pass?
                ==> r == Err(PositionHealthy))
  {
    hide DrawFunds, FreshGuard, DebtToSatoshisWithBonus, PayOff, Accrued, RoundingCrosses, LimitGuard, BorrowLimit,
      UsdValue, Inv;
    InvBoundsPool(s);
    BorrowedBtcWithinLimit(s, clock, key, signer, amount, feed);
    FreshPayOff(s, clock.slot, amount, s.attestations[key].satoshis, feed.priceUsd, SATOSHIS_PER_BTC,
                BorrowBtcStep(s, clock, key, signer, amount, feed).value.state.poolTokens, laterFeed, wallet);
  }

  lemma FreshPayOff(s: State, slot: u64, amount: u64, collateral: u64, price: u64, coin: Coin,
                    tokens: u64, feed: Feed, wallet: u64)
    requires RAY <= s.pool.borrowIndex && DrawFunds(s.pool, s.poolTokens, slot, amount).Ok?
    requires s.pool.ltvBps < s.pool.thresholdBps <= BPS
    requires amount <= BorrowLimit(UsdValue(collateral, price, coin), s.pool.ltvBps)
    requires !RoundingCrosses(UsdValue(collateral, price, coin), s.pool.ltvBps, s.pool.thresholdBps)
    requires feed.priceUsd == price
    ensures var d := DrawFunds(s.pool, s.poolTokens, slot, amount).value;
            Accrued(d.pool, slot) == Ok(d.pool)
            && PayOff(tokens, d.pool, d.principal, collateral, feed, coin, wallet) == Err(PositionHealthy)
  {
    hide RoundingCrosses, BorrowLimit, UsdValue, Accrued, PayOff, DrawFunds, Debt, Scaled;
    DrawEffect(s.pool, s.poolTokens, slot, amount);
    var d := DrawFunds(s.pool, s.poolTokens, slot, amount).value;
    DrawAccrues(s.pool, s.poolTokens, slot, amount);
    AccruedOnce(s.pool, slot, d.pool.totalBorrowed);
    FreshLoanAgainstThreshold(collateral, price, coin, s.pool.ltvBps, s.pool.thresholdBps, amount, d.pool.borrowIndex);
    FreshDebt(amount, d.pool.borrowIndex);
    PayOffSucceedsIff(tokens, d.pool, d.principal, collateral, feed, coin, wallet);
  }

  /** A collateral value whose margin is worth the LTV of one unit makes both theorems apply: no liquidation of
      the fresh loan commits at its price as the next transaction in its slot. */
  lemma MarginKeepsLoanSafe(s: State, clock: Clock, key: VaultKey, signer: Key, amount: u64, feed: Feed,
                            later: Clock, liquidator: Key, laterFeed: Feed, wallet: u64, lamports: Lamports)
    requires Inv(s) && BorrowStep(s, clock, key, signer, amount, feed).Ok?
    requires HasMargin(s.vaults[key].deposited, feed.priceUsd, COLLATERAL_ONE, s.pool)
    requires later.slot == clock.slot && laterFeed.priceUsd == feed.priceUsd
    ensures var loan := BorrowStep(s, clock, key, signer, amount, feed).value.state;
            LiquidateStep(loan, later, key, liquidator, laterFeed, wallet, lamports).Err?
  {
    hide BorrowGuard, DrawFunds, LiquidateStep, Inv, RoundingCrosses;
    InvBoundsPool(s);
    MarginRulesOutCrossing(UsdValue(s.vaults[key].deposited, feed.priceUsd, COLLATERAL_ONE), s.pool.ltvBps,
                           s.pool.thresholdBps);
    FreshLoanIsSafe(s, clock, key, signer, amount, feed, later, liquidator, laterFeed, wallet, lamports);
  }

  lemma MarginKeepsBtcLoanSafe(s: State, clock: Clock, key: VaultKey, signer: Key, amount: u64, feed: Feed,
                               later: Clock, liquidator: Key, laterFeed: Feed, wallet: u64, dwallet: Key,
                               sighash: Bytes32, cpiAccepted: bool)
    requires Inv(s) && BorrowBtcStep(s, clock, key, signer, amount, feed).Ok?
    requires HasMargin(s.attestations[key].satoshis, feed.priceUsd, SATOSHIS_PER_BTC, s.pool)
    requires later.slot == clock.slot && laterFeed.priceUsd == feed.priceUsd
    ensures var loan := BorrowBtcStep(s, clock, key, signer, amount, feed).value.state;
            LiquidateBtcStep(loan, later, key, liquidator, laterFeed, wallet, dwallet, sighash, cpiAccepted).Err?
  {
    hide BtcBorrowGuard, DrawFunds, LiquidateBtcStep, Inv, RoundingCrosses;
    InvBoundsPool(s);
    MarginRulesOutCrossing(UsdValue(s.attestations[key].satoshis, feed.priceUsd, SATOSHIS_PER_BTC), s.pool.ltvBps,
                           s.pool.thresholdBps);
    FreshBtcLoanIsSafe(s, clock, key, signer, amount, feed, later, liquidator, laterFeed, wallet, dwallet, sighash,
                       cpiAccepted);
  }

  /** Where roundings cross it happens: a loan of one unit on collateral worth 0.00000199 dollars commits, and so
      does its liquidation at the same time and price. */
  lemma FreshLoanLiquidatedAtOnce()
    ensures var s, feed := OneVault(RAY, 6000, 6001, 1_000_000_000), Feed(199, 1);
            var r := BorrowStep(s, Clock(1, 0), Address(), Owner(), 1, feed);
            Inv(s) && r.Ok?
            && LiquidateStep(r.value.state, Clock(1, 0), Address(), Stranger(), feed, 1,
                             Lamports(1_000_000_000, 0, 0)).Ok?
  {
    var s, feed := OneVault(RAY, 6000, 6001, 1_000_000_000), Feed(199, 1);
    OneVaultIsConsistent(RAY, 6000, 6001, 1_000_000_000);
    BorrowSucceedsIff(s, Clock(1, 0), Address(), Owner(), 1, feed);
  }
}
