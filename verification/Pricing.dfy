/** The dollar arithmetic of loans: borrowing limit, liquidation test and seizure amounts. */
module Pricing {
  import opened Prelude
  import opened FloorArithmetic

  const BPS := 10_000
  const PRICE_ONE := 100_000_000      // prices have 8 decimals
  const ASSET_ONE := 1_000_000        // the borrow asset has 6
  const COLLATERAL_ONE := 1_000_000_000 // SOL-path collateral has 9
  const SATOSHIS_PER_BTC := 100_000_000

  /** Collateral units per coin, on either path. */
  type Coin = x: int | x == COLLATERAL_ONE || x == SATOSHIS_PER_BTC witness COLLATERAL_ONE

  // ---- the client's unbounded arithmetic ----

  /** Dollar value of the collateral with 8 decimals. */
  function UsdValue(units: nat, price: nat, coin: Coin): nat {
    ProductNonNegative(units, price);
    units * price / coin
  }

  /** Collateral value in units of the borrow asset. */
  function AssetValue(usd: nat): nat {
    usd * ASSET_ONE / PRICE_ONE
  }

  function LiquidationValue(usd: nat, thresholdBps: nat): nat {
    ProductNonNegative(AssetValue(usd), thresholdBps);
    AssetValue(usd) * thresholdBps / BPS
  }

  function BorrowLimit(usd: nat, ltvBps: nat): nat {
    ProductNonNegative(usd, ltvBps);
    usd * ltvBps / BPS * ASSET_ONE / PRICE_ONE
  }

  /** `isLiquidatable` and `isBtcLiquidatable` of the client, which differ in the coin only. */
  predicate ClientIsLiquidatable(units: nat, price: nat, debt: nat, thresholdBps: nat, coin: Coin) {
    debt > LiquidationValue(UsdValue(units, price, coin), thresholdBps)
  }

  // ---- the program's checked arithmetic ----

  lemma ProductBound(a: nat, b: nat, aMax: nat, bMax: nat)
    requires a <= aMax && b <= bMax
    ensures a * b <= aMax * bMax
  {
    MulMonotone(a, aMax, b);
    MulMonotone(b, bMax, aMax);
  }

  /** Above the dollar value of any u64 amount at any u64 price. */
  const USD_MAX := 0x30_0000_0000_0000_0000_0000_0000

  lemma UsdValueBound(units: u64, price: u64, coin: Coin)
    ensures units * price < U128_LIMIT
    ensures UsdValue(units, price, coin) <= USD_MAX
  {
    ProductBound(units, price, U64_MAX, U64_MAX);
  }

  /** `calculate_max_borrow` and `calculate_max_btc_borrow`: the limit, unless it exceeds 64 bits. */
  function CalculateMaxBorrow(units: u64, price: u64, ltvBps: u16, coin: Coin): (r: Result<u64>)
    ensures r == Fit64(BorrowLimit(UsdValue(units, price, coin), ltvBps))
  {
    UsdValueBound(units, price, coin);
    ProductBound(UsdValue(units, price, coin), ltvBps, USD_MAX, 0xFFFF);
    var usd := Over(Times(Ok(units), price), coin);
    assert usd == Ok(UsdValue(units, price, coin));
    var limitUsd := Over(Times(usd, ltvBps), BPS);
    var limitUnits := Over(Times(limitUsd, ASSET_ONE), PRICE_ONE);
    ToU64(limitUnits)
  }

  /** `is_liquidatable` and `is_btc_liquidatable`: never an overflow, and the client's answer. */
  function IsLiquidatable(units: u64, price: u64, debt: u64, thresholdBps: u16, coin: Coin): (r: Result<bool>)
    ensures r == Ok(ClientIsLiquidatable(units, price, debt, thresholdBps, coin))
  {
    UsdValueBound(units, price, coin);
    ProductBound(AssetValue(UsdValue(units, price, coin)), thresholdBps, USD_MAX, 0xFFFF);
    var usd := Over(Times(Ok(units), price), coin);
    assert usd == Ok(UsdValue(units, price, coin));
    var assetValue := Over(Times(usd, ASSET_ONE), PRICE_ONE);
    var liquidationValue := Over(Times(assetValue, thresholdBps), BPS);
    match liquidationValue
    case Err(e) => Err(e)
    case Ok(value) => Ok(debt > value)
  }

  lemma BonusAdds(deposited: nat, bonusBps: nat)
    ensures 0 <= deposited <= deposited * (BPS + bonusBps) / BPS
  {
    MulMonotone(BPS, BPS + bonusBps, deposited);
    DivAtLeast(deposited * (BPS + bonusBps), BPS, deposited);
  }

  function WithBonus(amount: nat, bonusBps: nat): (r: nat)
    ensures amount <= r
  {
    BonusAdds(amount, bonusBps);
    amount * (BPS + bonusBps) / BPS
  }

  /** `collateral_with_bonus`: the amount and its bonus; it fails only if that exceeds 64 bits. */
  function CollateralWithBonus(deposited: u64, bonusBps: u16): (r: Result<u64>)
    ensures r == Fit64(WithBonus(deposited, bonusBps))
  {
    var factor: u128 := BPS + bonusBps;
    ProductBound(deposited, factor, U64_MAX, BPS + 0xFFFF);
    ToU64(Over(Times(Ok(deposited), factor), BPS))
  }

  /** Satoshis worth a debt, and the bonus. */
  function SatoshisWithBonus(debt: nat, price: nat, bonusBps: nat): nat
    requires price > 0
  {
    var worth := debt * PRICE_ONE * SATOSHIS_PER_BTC / ASSET_ONE;
    QuotientBelow(worth, price);
    WithBonus(worth / price, bonusBps)
  }

  /** `debt_to_satoshis_with_bonus`: a zero price is the only other way to fail. */
  function DebtToSatoshisWithBonus(debt: u64, price: u64, bonusBps: u16): (r: Result<u64>)
    ensures price == 0 ==> r == Err(ArithmeticOverflow)
    ensures price > 0 ==> r == Fit64(SatoshisWithBonus(debt, price, bonusBps))
  {
    var worth := Over(Times(Times(Ok(debt), PRICE_ONE), SATOSHIS_PER_BTC), ASSET_ONE);
    assert worth == Ok(debt * PRICE_ONE * SATOSHIS_PER_BTC / ASSET_ONE);
    var factor: u128 := BPS + bonusBps;
    var sats := Over(worth, price);
    assert price > 0 ==>
      sats == Ok(worth.value / price) && worth.value / price * factor < U128_LIMIT by {
      if price > 0 {
        QuotientBelow(worth.value, price);
        ProductBound(worth.value / price, factor, USD_MAX, BPS + 0xFFFF);
      }
    }
    ToU64(Over(Times(sats, factor), BPS))
  }

  // ---- a fresh loan against the liquidation test ----

  /** In units of the borrow asset both values are plain quotients. */
  lemma LimitsAsQuotients(usd: nat, ltvBps: nat)
    ensures AssetValue(usd) == usd / 100
    ensures BorrowLimit(usd, ltvBps) == usd * ltvBps / 1_000_000
  {
  }

  /** The pair of limits for a collateral value written as 100 * whole + cents. */
  lemma SplitValue(usd: nat, ltvBps: nat)
    ensures usd * ltvBps == 100 * (usd / 100 * ltvBps) + usd % 100 * ltvBps
  {
    assert usd == 100 * (usd / 100) + usd % 100;
  }

  /**
   The largest loan the LTV check lets through exceeds the liquidation value exactly when threshold and LTV
   give the same whole number of units and the rounded-off part of the LTV limit, with the cents the
   liquidation test drops, makes up one more.
   */
  predicate RoundingCrosses(usd: nat, ltvBps: nat, thresholdBps: nat) {
    var whole, cents := usd / 100, usd % 100;
    ProductNonNegative(whole, ltvBps);
    whole * thresholdBps / BPS == whole * ltvBps / BPS
    && whole * ltvBps % BPS * 100 + cents * ltvBps >= 1_000_000
  }

  lemma LimitAgainstLiquidation(usd: nat, ltvBps: nat, thresholdBps: nat)
    requires ltvBps < thresholdBps <= BPS
    ensures BorrowLimit(usd, ltvBps) <= LiquidationValue(usd, thresholdBps) + 1
    ensures BorrowLimit(usd, ltvBps) > LiquidationValue(usd, thresholdBps)
       <==> RoundingCrosses(usd, ltvBps, thresholdBps)
  {
    LimitsAsQuotients(usd, ltvBps);
    SplitValue(usd, ltvBps);
    var whole, cents := usd / 100, usd % 100;
    ProductBound(cents, ltvBps, 99, BPS - 1);
    MulMonotone(ltvBps, thresholdBps, whole);
    var p, q, c := whole * ltvBps, whole * thresholdBps, cents * ltvBps;
    assert usd * ltvBps == 100 * p + c;
    assert p <= q && 0 <= c < 1_000_000;
  }

  /** A collateral value whose LTV margin is worth the LTV of one unit leaves every fresh loan healthy. */
  lemma MarginKeepsFreshLoanHealthy(usd: nat, ltvBps: nat, thresholdBps: nat)
    requires ltvBps < thresholdBps <= BPS
    requires AssetValue(usd) * (thresholdBps - ltvBps) >= ltvBps
    ensures BorrowLimit(usd, ltvBps) <= LiquidationValue(usd, thresholdBps)
  {
    LimitsAsQuotients(usd, ltvBps);
    SplitValue(usd, ltvBps);
    var whole, cents := usd / 100, usd % 100;
    assert whole * (thresholdBps - ltvBps) == whole * thresholdBps - whole * ltvBps;
    MulMonotone(cents, 99, ltvBps);
    var p, q, c := whole * ltvBps, whole * thresholdBps, cents * ltvBps;
    assert usd * ltvBps == 100 * p + c;
  }

  /** Without the margin it can fail: collateral worth 0.00000199 dollars. */
  lemma FreshLoanCanBeLiquidatable()
    ensures BorrowLimit(199, 6000) == 1 && LiquidationValue(199, 6001) == 0
  {
  }
}
