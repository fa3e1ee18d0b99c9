/**
 The borrow limit and the liquidation test of both paths, on the instructions and in products: amounts and
 debts in millionths, prices with 8 decimals, lamports with 9, satoshis with 8, ratios in basis points.
 */
module Coverage {
  import opened Prelude
  import opened FloorArithmetic
  import opened Approvals
  import opened Pricing
  import opened Interest
  import opened Loans
  import opened Accounts
  import opened Steps
  import opened Figures

  // ---- arithmetic ----

  /** amount / 10^6 <= units / coin * price / 10^8 * ltv / 10^4. */
  predicate Covers(units: nat, price: nat, coin: nat, ltvBps: nat, amount: nat) {
    amount * coin * 1_000_000_000_000 <= units * price * ltvBps * 1_000_000
  }

  /** The opposite, up to the rounding of the dollar value and of the limit. */
  predicate FallsShort(units: nat, price: nat, coin: nat, ltvBps: nat, amount: nat) {
    units * price * ltvBps * 1_000_000
    < amount * coin * 1_000_000_000_000 + coin * ltvBps * 1_000_000 + coin * 10_000_000_000
  }

  /** debt / 10^6 <= units / coin * price / 10^8 * threshold / 10^4. */
  predicate Secures(units: nat, price: nat, coin: nat, thresholdBps: nat, debt: nat) {
    debt * coin * 1_000_000_000_000 <= units * price * thresholdBps * 1_000_000
  }

  /** The opposite, up to the rounding of the dollar value and of its worth in the borrow asset. */
  predicate Exceeds(units: nat, price: nat, coin: nat, thresholdBps: nat, debt: nat) {
    units * price * thresholdBps * 1_000_000
    < debt * coin * 1_000_000_000_000 + coin * thresholdBps * 1_000_000 + coin * thresholdBps * 100_000_000
  }

  /** From the dollar value, given between two products, to a bound that has the units in it. */
  lemma ValueBounds(usd: nat, coin: nat, product: nat, bps: nat)
    requires usd * coin <= product < (usd + 1) * coin
    ensures usd * bps * coin <= product * bps <= usd * bps * coin + coin * bps
  {
    MulMonotone(usd * coin, product, bps);
    MulMonotone(product, (usd + 1) * coin, bps);
    assert usd * coin * bps == usd * bps * coin;
    assert (usd + 1) * coin * bps == usd * bps * coin + coin * bps;
  }

  lemma LimitBounds(usd: nat, ltvBps: nat)
    ensures BorrowLimit(usd, ltvBps) * 1_000_000_000_000 <= usd * ltvBps * 1_000_000
          < (BorrowLimit(usd, ltvBps) + 1) * 1_000_000_000_000 + 10_000_000_000
  {
    var x := usd * ltvBps;
    Rounded(x, BPS);
    Rounded(x / BPS * ASSET_ONE, PRICE_ONE);
  }

  lemma LiquidationBounds(usd: nat, thresholdBps: nat)
    ensures LiquidationValue(usd, thresholdBps) * 1_000_000_000_000 <= usd * thresholdBps * 1_000_000
          < (LiquidationValue(usd, thresholdBps) + 1) * 1_000_000_000_000 + thresholdBps * 100_000_000
  {
    var v := AssetValue(usd);
    Rounded(usd * ASSET_ONE, PRICE_ONE);
    Rounded(v * thresholdBps, BPS);
    MulMonotone(v * PRICE_ONE, usd * ASSET_ONE, thresholdBps);
    MulMonotone(usd * ASSET_ONE, (v + 1) * PRICE_ONE, thresholdBps);
    assert v * PRICE_ONE * thresholdBps == v * thresholdBps * PRICE_ONE;
    assert (v + 1) * PRICE_ONE * thresholdBps == v * thresholdBps * PRICE_ONE + thresholdBps * PRICE_ONE;
    assert usd * ASSET_ONE * thresholdBps == usd * thresholdBps * ASSET_ONE;
  }

  /** From a bound on a debt in dollars to one in collateral. */
  lemma DebtAtMost(debt: nat, coin: nat, x: nat, product: nat)
    requires debt * 1_000_000_000_000 <= x * 1_000_000 && x * coin <= product
    ensures debt * coin * 1_000_000_000_000 <= product * 1_000_000
  {
    MulMonotone(debt * 1_000_000_000_000, x * 1_000_000, coin);
    assert debt * 1_000_000_000_000 * coin == debt * coin * 1_000_000_000_000;
    assert x * 1_000_000 * coin == x * coin * 1_000_000;
  }

  lemma DebtAbove(debt: nat, coin: nat, x: nat, product: nat, slack: nat, z: nat)
    requires 0 < coin && x * 1_000_000 < debt * 1_000_000_000_000 + z && product <= x * coin + slack
    ensures product * 1_000_000 < debt * coin * 1_000_000_000_000 + slack * 1_000_000 + coin * z
  {
    MulMonotone(x * 1_000_000 + 1, debt * 1_000_000_000_000 + z, coin);
    assert (x * 1_000_000 + 1) * coin == x * coin * 1_000_000 + coin;
    assert (debt * 1_000_000_000_000 + z) * coin == debt * coin * 1_000_000_000_000 + coin * z;
  }

  /** The borrow limit decides between the two, up to the stated rounding. */
  lemma LimitCovers(units: nat, price: nat, coin: nat, usd: nat, ltvBps: nat, amount: nat)
    requires usd * coin <= units * price < (usd + 1) * coin
    ensures amount <= BorrowLimit(usd, ltvBps) ==> Covers(units, price, coin, ltvBps, amount)
    ensures amount > BorrowLimit(usd, ltvBps) ==> 0 < coin && FallsShort(units, price, coin, ltvBps, amount)
  {
    hide BorrowLimit;
    LimitBounds(usd, ltvBps);
    ValueBounds(usd, coin, units * price, ltvBps);
    var x := usd * ltvBps;
    if amount <= BorrowLimit(usd, ltvBps) {
      DebtAtMost(amount, coin, x, units * price * ltvBps);
    } else {
      DebtAbove(amount, coin, x, units * price * ltvBps, coin * ltvBps, 10_000_000_000);
    }
  }

  /** Likewise the liquidation value. */
  lemma ThresholdSecures(units: nat, price: nat, coin: nat, usd: nat, thresholdBps: nat, debt: nat)
    requires usd * coin <= units * price < (usd + 1) * coin
    ensures debt <= LiquidationValue(usd, thresholdBps) ==> Secures(units, price, coin, thresholdBps, debt)
    ensures debt > LiquidationValue(usd, thresholdBps) ==> 0 < coin && Exceeds(units, price, coin, thresholdBps, debt)
  {
    hide LiquidationValue;
    LiquidationBounds(usd, thresholdBps);
    ValueBounds(usd, coin, units * price, thresholdBps);
    var x, z := usd * thresholdBps, thresholdBps * 100_000_000;
    if debt <= LiquidationValue(usd, thresholdBps) {
      DebtAtMost(debt, coin, x, units * price * thresholdBps);
    } else {
      DebtAbove(debt, coin, x, units * price * thresholdBps, coin * thresholdBps, z);
      assert coin * z == coin * thresholdBps * 100_000_000;
    }
  }

  // ---- the instructions ----

  /** A committed borrow is covered by its collateral at the LTV; one refused for its size is not, up to rounding. */
  lemma BorrowIsCovered(s: State, clock: Clock, key: VaultKey, signer: Key, amount: u64, feed: Feed)
    requires key in s.vaults
    ensures var r := BorrowStep(s, clock, key, signer, amount, feed);
            (r.Ok? ==> Covers(s.vaults[key].deposited, feed.priceUsd, 1_000_000_000, s.pool.ltvBps, amount))
            && (r == Err(BorrowExceedsCollateralLtv) ==>
                  FallsShort(s.vaults[key].deposited, feed.priceUsd, 1_000_000_000, s.pool.ltvBps, amount))
  {
    hide DrawFunds, FreshGuard, BorrowLimit, UsdValue, Covers, FallsShort;
    var deposited, usd := s.vaults[key].deposited, UsdValue(s.vaults[key].deposited, feed.priceUsd, COLLATERAL_ONE);
    DollarValue(deposited, feed.priceUsd);
    LimitCovers(deposited, feed.priceUsd, 1_000_000_000, usd, s.pool.ltvBps, amount);
    DrawErrors(s.pool, s.poolTokens, clock.slot, amount);
    FreshErrors(clock.now, s.vaults[key].proofTimestamp, PROOF_EXPIRY_SECONDS, ProofExpired);
    FreshErrors(clock.now, feed.updatedAt, PRICE_STALENESS_SECONDS, PriceFeedStale);
  }

  lemma BtcBorrowIsCovered(s: State, clock: Clock, key: VaultKey, signer: Key, amount: u64, feed: Feed)
    requires key in s.attestations
    ensures var r := BorrowBtcStep(s, clock, key, signer, amount, feed);
            (r.Ok? ==> Covers(s.attestations[key].satoshis, feed.priceUsd, 100_000_000, s.pool.ltvBps, amount))
            && (r == Err(BorrowExceedsCollateralLtv) ==>
                  FallsShort(s.attestations[key].satoshis, feed.priceUsd, 100_000_000, s.pool.ltvBps, amount))
  {
    hide DrawFunds, FreshGuard, BorrowLimit, UsdValue, Covers, FallsShort;
    var satoshis := s.attestations[key].satoshis;
    DollarValue(satoshis, feed.priceUsd);
    LimitCovers(satoshis, feed.priceUsd, 100_000_000, UsdValue(satoshis, feed.priceUsd, SATOSHIS_PER_BTC),
                s.pool.ltvBps, amount);
    DrawErrors(s.pool, s.poolTokens, clock.slot, amount);
    if key in s.btcVaults {
      FreshErrors(clock.now, s.btcVaults[key].proofTimestamp, PROOF_EXPIRY_SECONDS, ProofExpired);
    }
    FreshErrors(clock.now, s.attestations[key].attestedAt, BTC_ATTESTATION_MAX_AGE_SECONDS, BitcoinAttestationStale);
    FreshErrors(clock.now, feed.updatedAt, PRICE_STALENESS_SECONDS, PriceFeedStale);
  }

  lemma DrawErrors(account: Pool, tokens: u64, slot: u64, amount: u64)
    ensures DrawFunds(account, tokens, slot, amount) != Err(BorrowExceedsCollateralLtv)
  {
    hide Debt, Scaled;
  }

  lemma FreshErrors(now: i64, since: i64, maxAge: nat, stale: Error)
    ensures FreshGuard(now, since, maxAge, stale) in {Pass, Fail(InvalidTimestamp), Fail(stale)}
  {
  }

  /** A committed liquidation's debt exceeds what the collateral secures at the threshold, up to rounding; one
      refused because the loan is healthy meets a debt that the collateral does secure. */
  lemma LiquidationIsDue(s: State, clock: Clock, key: VaultKey, signer: Key, feed: Feed, wallet: u64,
                         lamports: Lamports)
    requires key in s.vaults && key in s.positions && Accrued(s.pool, clock.slot).Ok?
    ensures var r := LiquidateStep(s, clock, key, signer, feed, wallet, lamports);
            var debt := Debt(s.positions[key].principal, Accrued(s.pool, clock.slot).value.borrowIndex);
            (r.Ok? ==> Exceeds(s.vaults[key].deposited, feed.priceUsd, 1_000_000_000, s.pool.thresholdBps, debt))
            && (r == Err(PositionHealthy) ==>
                  Secures(s.vaults[key].deposited, feed.priceUsd, 1_000_000_000, s.pool.thresholdBps, debt))
  {
    hide Accrued, LiquidatorGuard, FreshGuard, Seize, LiquidationValue, UsdValue, Secures, Exceeds, Debt;
    var debt := Debt(s.positions[key].principal, Accrued(s.pool, clock.slot).value.borrowIndex);
    var deposited := s.vaults[key].deposited;
    DollarValue(deposited, feed.priceUsd);
    ThresholdSecures(deposited, feed.priceUsd, 1_000_000_000, UsdValue(deposited, feed.priceUsd, COLLATERAL_ONE),
                     s.pool.thresholdBps, debt);
    GuardErrors(s, s.positions[key], signer);
    FreshErrors(clock.now, feed.updatedAt, PRICE_STALENESS_SECONDS, PriceFeedStale);
    SeizeErrors(deposited, s.pool.bonusBps, lamports);
  }

  lemma BtcLiquidationIsDue(s: State, clock: Clock, key: VaultKey, signer: Key, feed: Feed, wallet: u64, dwallet: Key,
                            sighash: Bytes32, cpiAccepted: bool)
    requires key in s.attestations && key in s.btcPositions && Accrued(s.pool, clock.slot).Ok?
    ensures var r := LiquidateBtcStep(s, clock, key, signer, feed, wallet, dwallet, sighash, cpiAccepted);
            var debt := Debt(s.btcPositions[key].principal, Accrued(s.pool, clock.slot).value.borrowIndex);
            (r.Ok? ==> Exceeds(s.attestations[key].satoshis, feed.priceUsd, 100_000_000, s.pool.thresholdBps, debt))
            && (r == Err(PositionHealthy) ==>
                  Secures(s.attestations[key].satoshis, feed.priceUsd, 100_000_000, s.pool.thresholdBps, debt))
  {
    hide Accrued, LiquidatorGuard, FreshGuard, LiquidationValue, UsdValue, Secures, Exceeds, Debt,
      DebtToSatoshisWithBonus, WithBtcLiquidation;
    var debt := Debt(s.btcPositions[key].principal, Accrued(s.pool, clock.slot).value.borrowIndex);
    var satoshis := s.attestations[key].satoshis;
    DollarValue(satoshis, feed.priceUsd);
    ThresholdSecures(satoshis, feed.priceUsd, 100_000_000, UsdValue(satoshis, feed.priceUsd, SATOSHIS_PER_BTC),
                     s.pool.thresholdBps, debt);
    GuardErrors(s, s.btcPositions[key], signer);
    FreshErrors(clock.now, s.attestations[key].attestedAt, BTC_ATTESTATION_MAX_AGE_SECONDS, BitcoinAttestationStale);
    FreshErrors(clock.now, feed.updatedAt, PRICE_STALENESS_SECONDS, PriceFeedStale);
  }

  lemma GuardErrors(s: State, position: Position, signer: Key)
    ensures LiquidatorGuard(s, position, signer) != Fail(PositionHealthy)
  {
  }

  lemma SeizeErrors(deposited: u64, bonusBps: u16, lamports: Lamports)
    ensures Seize(deposited, bonusBps, lamports) != Err(PositionHealthy)
  {
    hide WithBonus;
  }
}
