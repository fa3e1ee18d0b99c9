/**
 The program's arithmetic in plain numbers: every scale written out, every rounded quotient between two
 products.
 */
module Figures {
  import opened Prelude
  import opened FloorArithmetic
  import opened Pricing
  import opened Interest

  /** The machine words. */
  lemma WordSizes()
    ensures U64_MAX == 18_446_744_073_709_551_615
    ensures U128_LIMIT == 340_282_366_920_938_463_463_374_607_431_768_211_456
    ensures I64_LIMIT == 9_223_372_036_854_775_808
  {
  }

  /** A quotient rounded down, between two products. */
  lemma Rounded(x: int, d: int)
    requires 0 < d
    ensures x / d * d <= x < (x / d + 1) * d
  {
    assert x == x / d * d + x % d;
  }

  // ---- debts ----

  /** What a principal owes, in whole units. */
  lemma DebtInUnits(principal: nat, index: nat)
    ensures Debt(principal, index) * 1_000_000_000_000_000_000 <= principal * index
          < (Debt(principal, index) + 1) * 1_000_000_000_000_000_000
  {
    Rounded(principal * index, RAY);
  }

  /** An amount in scaled units. */
  lemma ScaledInUnits(amount: nat, index: nat)
    requires index > 0
    ensures Scaled(amount, index) * index <= amount * 1_000_000_000_000_000_000
          < (Scaled(amount, index) + 1) * index
  {
    Rounded(amount * RAY, index);
  }

  // ---- accrual ----

  /** Nothing accrues while no slot passes, or without debt or liquidity. */
  lemma NothingAccrues(pool: Pool, slot: u64)
    ensures slot <= pool.lastUpdateSlot ==> Accrued(pool, slot) == Ok(pool)
    ensures pool.lastUpdateSlot < slot && (pool.totalBorrowed == 0 || pool.totalLiquidity == 0)
            ==> Accrued(pool, slot) == Ok(pool.(lastUpdateSlot := slot))
  {
  }

  /** `debt` is what the pool is owed, `u` its part of the liquidity in basis points, at most all of it. */
  predicate IsUtilisation(pool: Pool, debt: nat, u: nat) {
    debt * 1_000_000_000_000_000_000 <= pool.totalBorrowed * pool.borrowIndex
    && pool.totalBorrowed * pool.borrowIndex < (debt + 1) * 1_000_000_000_000_000_000
    && u <= 10_000 && u * pool.totalLiquidity <= 10_000 * debt
    && (u == 10_000 || 10_000 * debt < (u + 1) * pool.totalLiquidity)
  }

  /** `r` is the yearly rate in basis points at that utilisation: the base, and that part of the slope. */
  predicate IsRate(pool: Pool, u: nat, r: nat) {
    (r - pool.baseRateBps) * 10_000 <= pool.rateSlopeBps * u
    && pool.rateSlopeBps * u < (r - pool.baseRateBps + 1) * 10_000
  }

  /** The index has grown by that rate over the slots, of which a year has 78,840,000. */
  predicate IsGrowth(index: nat, after: nat, r: nat, slots: nat) {
    (after - index) * 788_400_000_000 <= index * r * slots
    && index * r * slots < (after - index + 1) * 788_400_000_000
  }

  lemma UtilisationIs(pool: Pool)
    requires pool.totalLiquidity > 0
    ensures IsUtilisation(pool, Debt(pool.totalBorrowed, pool.borrowIndex), Utilisation(pool, pool.borrowIndex))
  {
    var debt := Debt(pool.totalBorrowed, pool.borrowIndex);
    DebtInUnits(pool.totalBorrowed, pool.borrowIndex);
    var share := debt * BPS / pool.totalLiquidity;
    Rounded(debt * BPS, pool.totalLiquidity);
    if BPS < share {
      MulMonotone(BPS, share, pool.totalLiquidity);
    }
  }

  lemma RateIs(pool: Pool, u: nat)
    requires pool.totalLiquidity > 0 && u == Utilisation(pool, pool.borrowIndex)
    ensures IsRate(pool, u, AnnualRate(pool, pool.borrowIndex))
  {
    Rounded(pool.rateSlopeBps * u, BPS);
  }

  /** Exactly when an accrual succeeds, and the index it leaves: the law of the interest rate. */
  lemma AccrualLaw(pool: Pool, slot: u64) returns (debt: nat, u: nat, r: nat, after: nat)
    requires pool.totalBorrowed > 0 && pool.totalLiquidity > 0 && pool.lastUpdateSlot < slot
    ensures IsUtilisation(pool, debt, u) && IsRate(pool, u, r)
    ensures pool.borrowIndex <= after && IsGrowth(pool.borrowIndex, after, r, slot - pool.lastUpdateSlot)
    ensures var most := 340_282_366_920_938_463_463_374_607_431_768_211_455;
            Accrued(pool, slot).Ok?
            <==> pool.totalBorrowed * pool.borrowIndex <= most && debt * 10_000 <= most
                 && pool.borrowIndex * r <= most && pool.borrowIndex * r * (slot - pool.lastUpdateSlot) <= most
                 && after <= most
    ensures Accrued(pool, slot).Ok?
            ==> Accrued(pool, slot).value == pool.(borrowIndex := after, lastUpdateSlot := slot)
  {
    var index := pool.borrowIndex;
    var slots: nat := slot - pool.lastUpdateSlot;
    debt, u, r := Debt(pool.totalBorrowed, index), Utilisation(pool, index), AnnualRate(pool, index);
    after := IndexAfter(pool, index, slots);
    UtilisationIs(pool);
    RateIs(pool, u);
    Rounded(index * r * slots, RATE_DENOMINATOR);
    hide IsUtilisation, IsRate, Debt, Utilisation, AnnualRate, Interest.Interest;
  }

  /** The law leaves no choice. */
  lemma RateIsUnique(pool: Pool, debt: nat, u: nat, r: nat, otherDebt: nat, otherU: nat, otherR: nat)
    requires pool.totalLiquidity > 0
    requires IsUtilisation(pool, debt, u) && IsRate(pool, u, r)
    requires IsUtilisation(pool, otherDebt, otherU) && IsRate(pool, otherU, otherR)
    ensures debt == otherDebt && u == otherU && r == otherR
  {
    if u < otherU {
      MulMonotone(u + 1, otherU, pool.totalLiquidity);
    } else if otherU < u {
      MulMonotone(otherU + 1, u, pool.totalLiquidity);
    }
  }

  /** Below one basis point of utilisation only the base rate is charged, at full utilisation base and slope. */
  lemma RateEnds(pool: Pool, debt: nat, u: nat, r: nat)
    requires pool.totalLiquidity > 0 && IsUtilisation(pool, debt, u) && IsRate(pool, u, r)
    ensures debt * 10_000 < pool.totalLiquidity ==> r == pool.baseRateBps
    ensures pool.totalLiquidity <= debt ==> r == pool.baseRateBps + pool.rateSlopeBps
  {
    if debt * 10_000 < pool.totalLiquidity {
      if u > 0 {
        MulMonotone(1, u, pool.totalLiquidity);
      }
    } else if pool.totalLiquidity <= debt && u < 10_000 {
      MulMonotone(u + 1, 10_000, pool.totalLiquidity);
    }
  }

  // ---- amounts of collateral ----

  /** The dollar value of collateral with nine or eight decimals, rounded once, after the product. */
  lemma DollarValue(units: nat, price: nat)
    ensures UsdValue(units, price, COLLATERAL_ONE) * 1_000_000_000 <= units * price
          < (UsdValue(units, price, COLLATERAL_ONE) + 1) * 1_000_000_000
    ensures UsdValue(units, price, SATOSHIS_PER_BTC) * 100_000_000 <= units * price
          < (UsdValue(units, price, SATOSHIS_PER_BTC) + 1) * 100_000_000
  {
    Rounded(units * price, COLLATERAL_ONE);
    Rounded(units * price, SATOSHIS_PER_BTC);
  }

  /** The borrow limit: the dollar value `usd`, its part `m` at the LTV, and that in millionths. */
  lemma LimitInUnits(usd: nat, ltvBps: nat) returns (m: nat)
    ensures m * 10_000 <= usd * ltvBps < (m + 1) * 10_000
    ensures BorrowLimit(usd, ltvBps) * 100_000_000 <= m * 1_000_000 < (BorrowLimit(usd, ltvBps) + 1) * 100_000_000
  {
    m := usd * ltvBps / BPS;
    Rounded(usd * ltvBps, BPS);
    Rounded(m * ASSET_ONE, PRICE_ONE);
  }

  /** The liquidation value: the dollar value in millionths, `v`, and its part at the threshold. */
  lemma LiquidationInUnits(usd: nat, thresholdBps: nat) returns (v: nat)
    ensures v * 100_000_000 <= usd * 1_000_000 < (v + 1) * 100_000_000
    ensures LiquidationValue(usd, thresholdBps) * 10_000 <= v * thresholdBps
          < (LiquidationValue(usd, thresholdBps) + 1) * 10_000
  {
    v := AssetValue(usd);
    Rounded(usd * ASSET_ONE, PRICE_ONE);
    Rounded(v * thresholdBps, BPS);
  }

  /** An amount with a bonus in basis points. */
  lemma BonusInUnits(amount: nat, bonusBps: nat)
    ensures WithBonus(amount, bonusBps) * 10_000 <= amount * (10_000 + bonusBps)
          < (WithBonus(amount, bonusBps) + 1) * 10_000
  {
    Rounded(amount * (BPS + bonusBps), BPS);
  }

  /** `w` satoshis are worth a debt at a price, and `x` are they with the bonus. */
  predicate AreWorth(w: nat, x: nat, debt: nat, price: nat, bonusBps: nat) {
    w * price * 1_000_000 <= debt * 10_000_000_000_000_000
    && debt * 10_000_000_000_000_000 < (w * price + price) * 1_000_000
    && x * 10_000 <= w * (10_000 + bonusBps)
    && w * (10_000 + bonusBps) < (x + 1) * 10_000
  }

  lemma SatoshisInUnits(debt: nat, price: nat, bonusBps: nat) returns (w: nat)
    requires price > 0
    ensures AreWorth(w, SatoshisWithBonus(debt, price, bonusBps), debt, price, bonusBps)
  {
    var worth := debt * PRICE_ONE * SATOSHIS_PER_BTC / ASSET_ONE;
    assert worth == debt * 10_000_000_000;
    QuotientBelow(worth, price);
    w := worth / price;
    Rounded(worth, price);
    BonusInUnits(w, bonusBps);
  }
}
