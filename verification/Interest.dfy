/** Scaled debt and the lazily applied borrow index. */
module Interest {
  import opened Prelude
  import opened FloorArithmetic
  import opened Pricing
  import opened Numerals

  const RAY := 1_000_000_000_000_000_000
  const SLOTS_PER_YEAR := 78_840_000
  const RATE_DENOMINATOR := SLOTS_PER_YEAR * BPS

  /** The pool account. */
  datatype Pool = Pool(
    totalLiquidity: u64,
    totalBorrowed: u64,      // in scaled units
    ltvBps: u16,
    thresholdBps: u16,
    bonusBps: u16,
    borrowIndex: u128,
    lastUpdateSlot: u64,
    baseRateBps: u16,
    rateSlopeBps: u16)

  // ---- conversions between raw and scaled amounts ----

  /** What a scaled principal owes: the client's `currentDebt`. */
  function Debt(principal: nat, index: nat): nat {
    ProductNonNegative(principal, index);
    principal * index / RAY
  }

  /** A raw amount in scaled units, rounded down. */
  function Scaled(amount: nat, index: nat): nat
    requires index > 0
  {
    QuotientBelow(amount * RAY, index);
    amount * RAY / index
  }

  /** `current_debt`: the client's value, unless it exceeds 64 bits. */
  function CurrentDebt(principal: u64, index: u128): (r: Result<u64>)
    ensures r == Fit64(Debt(principal, index))
  {
    ProductNonNegative(principal, index);
    ToU64(Over(Times(Ok(principal), index), RAY))
  }

  /** `to_scaled`: it fails on a zero index and beyond 64 bits. */
  function ToScaled(amount: u64, index: u128): (r: Result<u64>)
    ensures index == 0 ==> r == Err(ArithmeticOverflow)
    ensures index > 0 ==> r == Fit64(Scaled(amount, index))
  {
    ToU64(Over(Times(Ok(amount), RAY), index))
  }

  // ---- accrual without bounds ----

  /** Utilisation in basis points at the given index, capped at 100 %. */
  function Utilisation(pool: Pool, index: nat): (bps: nat)
    requires pool.totalLiquidity > 0
    ensures bps <= BPS
  {
    QuotientBelow(Debt(pool.totalBorrowed, index) * BPS, pool.totalLiquidity);
    Min(Debt(pool.totalBorrowed, index) * BPS / pool.totalLiquidity, BPS)
  }

  function AnnualRate(pool: Pool, index: nat): nat
    requires pool.totalLiquidity > 0
  {
    ProductNonNegative(pool.rateSlopeBps, Utilisation(pool, index));
    pool.baseRateBps + pool.rateSlopeBps * Utilisation(pool, index) / BPS
  }

  function Interest(index: nat, rate: nat, slots: nat): nat {
    ProductNonNegative(index, rate);
    ProductNonNegative(index * rate, slots);
    index * rate * slots / RATE_DENOMINATOR
  }

  /** The pool earns nothing while nothing is lent out. */
  predicate Idle(pool: Pool) {
    pool.totalBorrowed == 0 || pool.totalLiquidity == 0
  }

  /** The index after some slots, in unbounded arithmetic. */
  function IndexAfter(pool: Pool, index: nat, slots: nat): (after: nat)
    ensures index <= after
  {
    if Idle(pool) then index
    else index + Interest(index, AnnualRate(pool, index), slots)
  }

  /** No intermediate result of the accrual exceeds 128 bits. */
  predicate AccrualFits(pool: Pool, slots: nat)
    requires !Idle(pool)
  {
    var index, rate := pool.borrowIndex, AnnualRate(pool, pool.borrowIndex);
    pool.totalBorrowed * index < U128_LIMIT
    && Debt(pool.totalBorrowed, index) * BPS < U128_LIMIT
    && index * rate < U128_LIMIT
    && index * rate * slots < U128_LIMIT
    && IndexAfter(pool, index, slots) < U128_LIMIT
  }

  /** What `accrue_interest` does to the pool account. */
  function Accrued(pool: Pool, nowSlot: u64): (r: Result<Pool>)
    ensures r.Ok? ==> pool.borrowIndex <= r.value.borrowIndex
    ensures r.Ok? ==> r.value == pool.(borrowIndex := r.value.borrowIndex, lastUpdateSlot := r.value.lastUpdateSlot)
  {
    if nowSlot <= pool.lastUpdateSlot then Ok(pool)
    else if Idle(pool) then Ok(pool.(lastUpdateSlot := nowSlot))
    else
      var slots: int := nowSlot - pool.lastUpdateSlot;
      if AccrualFits(pool, slots)
      then Ok(pool.(borrowIndex := IndexAfter(pool, pool.borrowIndex, slots), lastUpdateSlot := nowSlot))
      else Err(ArithmeticOverflow)
  }

  /** The pool account as an instruction works on it. */
  class LendingPool {
    var totalLiquidity: u64
    var totalBorrowed: u64
    var borrowIndex: u128
    var lastUpdateSlot: u64
    const ltvBps: u16
    const thresholdBps: u16
    const bonusBps: u16
    const baseRateBps: u16
    const rateSlopeBps: u16

    constructor (account: Pool)
      ensures View() == account
    {
      totalLiquidity, totalBorrowed := account.totalLiquidity, account.totalBorrowed;
      borrowIndex, lastUpdateSlot := account.borrowIndex, account.lastUpdateSlot;
      ltvBps, thresholdBps, bonusBps := account.ltvBps, account.thresholdBps, account.bonusBps;
      baseRateBps, rateSlopeBps := account.baseRateBps, account.rateSlopeBps;
    }

    /** The account as it would be stored. */
    function View(): Pool
      reads this
    {
      Pool(totalLiquidity, totalBorrowed, ltvBps, thresholdBps, bonusBps, borrowIndex, lastUpdateSlot,
           baseRateBps, rateSlopeBps)
    }

    /** `accrue_interest`, with its checked intermediate results. */
    method AccrueInterest(nowSlot: u64) returns (r: Result<()>)
      modifies this`borrowIndex, this`lastUpdateSlot
      ensures match Accrued(old(View()), nowSlot)
              case Ok(after) => r == Ok(()) && View() == after
              case Err(e) => r == Err(e) && View() == old(View())
    {
      if nowSlot <= lastUpdateSlot {
        return Ok(());
      }
      var elapsed: u64 := nowSlot - lastUpdateSlot;
      if totalBorrowed == 0 || totalLiquidity == 0 {
        lastUpdateSlot := nowSlot;
        return Ok(());
      }

      var debt := Over(Times(Ok(totalBorrowed), borrowIndex), RAY);
      var uncapped := Over(Times(debt, BPS), totalLiquidity);
      if uncapped.Err? {
        return Err(uncapped.error);
      }
      var utilBps: int := Min(uncapped.value, BPS);
      ProductBound(rateSlopeBps, utilBps, 0xFFFF, BPS);
      var annualRate: int := baseRateBps + rateSlopeBps * utilBps / BPS;

      var deltaIndex := Over(Times(Times(Ok(borrowIndex), annualRate), elapsed), RATE_DENOMINATOR);
      if deltaIndex.Err? {
        return Err(deltaIndex.error);
      }
      var newIndex := Plus(Ok(borrowIndex), deltaIndex.value);
      if newIndex.Err? {
        return Err(newIndex.error);
      }
      borrowIndex := newIndex.value;
      lastUpdateSlot := nowSlot;
      return Ok(());
    }
  }

  /** Within ten times the initial index and some fifteen months of slots no rate can make accrual fail. */
  lemma AccrualNeverFails(pool: Pool, nowSlot: u64)
    requires pool.borrowIndex <= 10 * RAY
    requires nowSlot <= pool.lastUpdateSlot + 100_000_000
    ensures Accrued(pool, nowSlot).Ok?
  {
    if pool.lastUpdateSlot < nowSlot && !Idle(pool) {
      var index, slots := pool.borrowIndex, nowSlot - pool.lastUpdateSlot;
      var rate := AnnualRate(pool, index);
      ProductBound(pool.rateSlopeBps, Utilisation(pool, index), 0xFFFF, BPS);
      ProductBound(pool.totalBorrowed, index, U64_MAX, 10 * RAY);
      ProductBound(index, rate, 10 * RAY, 0x1FFFE);
      ProductBound(index * rate, slots, 10 * RAY * 0x1FFFE, 100_000_000);
    }
  }

  lemma FitsForLess(pool: Pool, slots: nat, more: nat)
    requires !Idle(pool) && slots <= more && AccrualFits(pool, more)
    ensures AccrualFits(pool, slots)
  {
    var index, rate := pool.borrowIndex, AnnualRate(pool, pool.borrowIndex);
    ProductNonNegative(index, rate);
    MulMonotone(slots, more, index * rate);
    DivMonotone(index * rate * slots, index * rate * more, RATE_DENOMINATOR);
  }

  /** Once an accrual fails it fails at every later slot too. */
  lemma FailedAccrualKeepsFailing(pool: Pool, slot: u64, later: u64)
    requires Accrued(pool, slot).Err? && slot <= later
    ensures Accrued(pool, later).Err?
  {
    hide AccrualFits;
    if AccrualFits(pool, later - pool.lastUpdateSlot) {
      FitsForLess(pool, slot - pool.lastUpdateSlot, later - pool.lastUpdateSlot);
    }
  }

  // ---- splitting an accrual ----

  lemma DebtMonotone(principal: nat, i: nat, j: nat)
    requires i <= j
    ensures Debt(principal, i) <= Debt(principal, j)
  {
    MulMonotone(i, j, principal);
    DivMonotone(principal * i, principal * j, RAY);
  }

  /** A higher index means more debt, more utilisation and a higher rate. */
  lemma RateMonotone(pool: Pool, i: nat, j: nat)
    requires pool.totalLiquidity > 0 && i <= j
    ensures AnnualRate(pool, i) <= AnnualRate(pool, j)
  {
    DebtMonotone(pool.totalBorrowed, i, j);
    DivMonotone(Debt(pool.totalBorrowed, i) * BPS, Debt(pool.totalBorrowed, j) * BPS, pool.totalLiquidity);
    var u, v := Utilisation(pool, i), Utilisation(pool, j);
    MulMonotone(u, v, pool.rateSlopeBps);
    DivMonotone(pool.rateSlopeBps * u, pool.rateSlopeBps * v, BPS);
  }

  lemma InterestMonotone(i: nat, j: nat, r: nat, s: nat, slots: nat)
    requires i <= j && r <= s
    ensures Interest(i, r, slots) <= Interest(j, s, slots)
  {
    ProductBound(i, r, j, s);
    ProductBound(i * r, slots, j * s, slots);
    DivMonotone(i * r * slots, j * s * slots, RATE_DENOMINATOR);
  }

  /** At a fixed index and rate splitting the time loses at most one unit to rounding. */
  lemma InterestSplits(index: nat, rate: nat, a: nat, b: nat)
    ensures Interest(index, rate, a + b) <= Interest(index, rate, a) + Interest(index, rate, b) + 1
  {
    var x := index * rate;
    assert x * (a + b) == x * a + x * b;
    DivSum(x * a, x * b, RATE_DENOMINATOR);
  }

  function TotalSlots(pieces: seq<nat>): nat {
    if pieces == [] then 0 else TotalSlots(pieces[..|pieces| - 1]) + pieces[|pieces| - 1]
  }

  /** Accruing piece by piece. */
  function IndexAfterPieces(pool: Pool, index: nat, pieces: seq<nat>): (after: nat)
    ensures index <= after
  {
    if pieces == [] then index
    else IndexAfter(pool, IndexAfterPieces(pool, index, pieces[..|pieces| - 1]), pieces[|pieces| - 1])
  }

  /** Accruing in n pieces gives at least the single-step index less n - 1 units. */
  lemma {:induction false} PiecesReachSingleStep(pool: Pool, index: nat, pieces: seq<nat>)
    requires pieces != []
    ensures IndexAfterPieces(pool, index, pieces) + |pieces| - 1 >= IndexAfter(pool, index, TotalSlots(pieces))
  {
    var init, last := pieces[..|pieces| - 1], pieces[|pieces| - 1];
    if !Idle(pool) {
      var reached := IndexAfterPieces(pool, index, init);
      var rate := AnnualRate(pool, index);
      RateMonotone(pool, index, reached);
      InterestMonotone(index, reached, rate, AnnualRate(pool, reached), last);
      if init != [] {
        PiecesReachSingleStep(pool, index, init);
        InterestSplits(index, rate, TotalSlots(init), last);
      }
    } else if init != [] {
      PiecesReachSingleStep(pool, index, init);
    }
  }

  /** The growth factors of the pieces at full utilisation, multiplied. */
  function MaxGrowth(pool: Pool, pieces: seq<nat>): nat {
    if pieces == [] then 1
    else MaxGrowth(pool, pieces[..|pieces| - 1])
         * (RATE_DENOMINATOR + (pool.baseRateBps + pool.rateSlopeBps) * pieces[|pieces| - 1])
  }

  lemma RateAtMost(pool: Pool, index: nat)
    requires pool.totalLiquidity > 0
    ensures AnnualRate(pool, index) <= pool.baseRateBps + pool.rateSlopeBps
  {
    MulMonotone(Utilisation(pool, index), BPS, pool.rateSlopeBps);
  }

  lemma GrowthAtRate(index: nat, rate: nat, slots: nat)
    ensures (index + Interest(index, rate, slots)) * RATE_DENOMINATOR
         <= index * (RATE_DENOMINATOR + rate * slots)
  {
    assert index * rate * slots == index * (rate * slots);
    assert index * (RATE_DENOMINATOR + rate * slots) == index * RATE_DENOMINATOR + index * (rate * slots);
  }

  lemma StepGrowth(pool: Pool, index: nat, slots: nat)
    ensures IndexAfter(pool, index, slots) * RATE_DENOMINATOR
         <= index * (RATE_DENOMINATOR + (pool.baseRateBps + pool.rateSlopeBps) * slots)
  {
    var most := pool.baseRateBps + pool.rateSlopeBps;
    GrowthAtRate(index, most, slots);
    if !Idle(pool) {
      RateAtMost(pool, index);
      InterestMonotone(index, index, AnnualRate(pool, index), most, slots);
    }
  }

  /** Compounding is bounded by the growth at full utilisation, whatever the pieces. */
  lemma {:induction false} PiecesGrowAtMost(pool: Pool, index: nat, pieces: seq<nat>)
    ensures IndexAfterPieces(pool, index, pieces) * Power(RATE_DENOMINATOR, |pieces|)
         <= index * MaxGrowth(pool, pieces)
  {
    if pieces != [] {
      var init, last := pieces[..|pieces| - 1], pieces[|pieces| - 1];
      PiecesGrowAtMost(pool, index, init);
      var reached := IndexAfterPieces(pool, index, init);
      StepGrowth(pool, reached, last);
      Compound(IndexAfterPieces(pool, index, pieces), reached, index, RATE_DENOMINATOR,
               Power(RATE_DENOMINATOR, |init|), MaxGrowth(pool, init),
               RATE_DENOMINATOR + (pool.baseRateBps + pool.rateSlopeBps) * last);
    }
  }

  lemma Compound(after: nat, reached: nat, index: nat, d: nat, p: nat, growth: nat, factor: nat)
    requires after * d <= reached * factor
    requires reached * p <= index * growth
    ensures after * (d * p) <= index * (growth * factor)
  {
    MulMonotone(after * d, reached * factor, p);
    MulMonotone(reached * p, index * growth, factor);
    assert after * d * p == after * (d * p);
    assert reached * factor * p == reached * p * factor;
    assert index * growth * factor == index * (growth * factor);
  }

  // ---- the same for accounts touched at a sequence of slots ----

  /** The pool after `accrue_interest` at each of the slots, if none fails. */
  function Touched(pool: Pool, slots: seq<u64>): Result<Pool> {
    if slots == [] then Ok(pool)
    else
      match Touched(pool, slots[..|slots| - 1])
      case Err(e) => Err(e)
      case Ok(before) => Accrued(before, slots[|slots| - 1])
  }

  /** The time between consecutive slots, none if the clock did not advance. */
  function Pieces(start: u64, slots: seq<u64>): (pieces: seq<nat>)
    ensures |pieces| == |slots|
    ensures Latest(start, slots) == start + TotalSlots(pieces)
  {
    if slots == [] then []
    else
      var init, last: int := slots[..|slots| - 1], slots[|slots| - 1];
      var before: int := Latest(start, init);
      var pieces := Pieces(start, init) + [if last <= before then 0 else last - before];
      assert pieces[..|init|] == Pieces(start, init);
      pieces
  }

  function Latest(start: u64, slots: seq<u64>): u64 {
    if slots == [] then start
    else
      var before := Latest(start, slots[..|slots| - 1]);
      if slots[|slots| - 1] <= before then before else slots[|slots| - 1]
  }

  lemma NoTimeNoInterest(pool: Pool, index: nat)
    ensures IndexAfter(pool, index, 0) == index
  {
  }

  lemma {:induction false} TouchedIsPieces(pool: Pool, slots: seq<u64>)
    requires Touched(pool, slots).Ok?
    ensures var after := Touched(pool, slots).value;
            after.borrowIndex == IndexAfterPieces(pool, pool.borrowIndex, Pieces(pool.lastUpdateSlot, slots))
            && after.lastUpdateSlot == Latest(pool.lastUpdateSlot, slots)
            && after == pool.(borrowIndex := after.borrowIndex, lastUpdateSlot := after.lastUpdateSlot)
  {
    if slots != [] {
      var init := slots[..|slots| - 1];
      TouchedIsPieces(pool, init);
      var pieces := Pieces(pool.lastUpdateSlot, slots);
      assert pieces[..|init|] == Pieces(pool.lastUpdateSlot, init);
      NoTimeNoInterest(pool, Touched(pool, init).value.borrowIndex);
    }
  }

  /** However often the pool is touched, its index lies between the single accrual less one unit a touch
      and the growth at full utilisation. */
  lemma TouchingOftenIsHarmless(pool: Pool, slots: seq<u64>)
    requires slots != [] && Touched(pool, slots).Ok?
    ensures var after := Touched(pool, slots).value;
            var elapsed := after.lastUpdateSlot - pool.lastUpdateSlot;
            0 <= elapsed
            && after.borrowIndex >= IndexAfter(pool, pool.borrowIndex, elapsed) - (|slots| - 1)
            && after.borrowIndex * Power(RATE_DENOMINATOR, |slots|)
               <= pool.borrowIndex * MaxGrowth(pool, Pieces(pool.lastUpdateSlot, slots))
  {
    TouchedIsPieces(pool, slots);
    PiecesReachSingleStep(pool, pool.borrowIndex, Pieces(pool.lastUpdateSlot, slots));
    PiecesGrowAtMost(pool, pool.borrowIndex, Pieces(pool.lastUpdateSlot, slots));
  }
}
