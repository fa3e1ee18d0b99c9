/** The laws of loans over transactions and runs. */
module LoanLaws {
  import opened Prelude
  import opened FloorArithmetic
  import opened MapSums
  import opened Pricing
  import opened Interest
  import opened Loans
  import opened Accounts
  import opened Steps
  import opened Invariants
  import opened Runs
  import opened LoanEffects

  // ---- pool debt against the loans' debts ----

  function DebtAt(index: nat): Position -> nat {
    (p: Position) => Debt(p.principal, index)
  }

  /** What all borrowers owe. */
  ghost function TotalDebts(s: State, index: nat): nat {
    Sum(s.positions, DebtAt(index)) + Sum(s.btcPositions, DebtAt(index))
  }

  /** Rounding each debt of a path loses less than one unit a loan, and nothing on the first. */
  lemma {:induction false} PathDebts(m: map<VaultKey, Position>, index: nat)
    ensures var debts, debt := Sum(m, DebtAt(index)), Debt(Sum(m, Principal), index);
            if m == map[] then debts == debt == 0 else debts <= debt <= debts + |m| - 1
    decreases |m|
  {
    if m != map[] {
      var key :| key in m;
      var rest := m - {key};
      assert rest.Keys == m.Keys - {key};
      PathDebts(rest, index);
      SumSplit(m, Principal, key);
      SumSplit(m, DebtAt(index), key);
      DebtOfSum(m[key].principal, Sum(rest, Principal), index);
    }
  }

  lemma DebtOfSum(p: nat, q: nat, index: nat)
    ensures Debt(p, index) + Debt(q, index) <= Debt(p + q, index) <= Debt(p, index) + Debt(q, index) + 1
  {
    assert (p + q) * index == p * index + q * index;
    DivSum(p * index, q * index, RAY);
  }

  /** The pool's debt, computed from one number, is the sum of the loans' debts up to one unit for each loan
      after the first, at every index. */
  lemma PoolDebtIsSumOfDebts(s: State, index: nat)
    requires Inv(s)
    ensures var loans := |s.positions| + |s.btcPositions|;
            var debts, debt := TotalDebts(s, index), Debt(s.pool.totalBorrowed, index);
            if loans == 0 then debts == debt == 0 else debts <= debt <= debts + loans - 1
  {
    hide VaultsConsistent, Debt;
    PathDebts(s.positions, index);
    PathDebts(s.btcPositions, index);
    DebtOfSum(Sum(s.positions, Principal), Sum(s.btcPositions, Principal), index);
  }

  lemma TotalCovers(s: State, key: VaultKey)
    requires Inv(s)
    ensures key in s.positions ==> s.positions[key].principal <= s.pool.totalBorrowed
    ensures key in s.btcPositions ==> s.btcPositions[key].principal <= s.pool.totalBorrowed
  {
    hide VaultsConsistent;
    if key in s.positions {
      SumRemove(s.positions, Principal, key);
    }
    if key in s.btcPositions {
      SumRemove(s.btcPositions, Principal, key);
    }
  }

  // ---- borrowing ----

  lemma DebtAfterDraw(total: nat, amount: nat, index: nat)
    requires index > 0
    ensures Debt(total + Scaled(amount, index), index) <= Debt(total, index) + amount
  {
    ScaledBounds(amount, index);
    var scaled := Scaled(amount, index);
    assert (total + scaled) * index == total * index + scaled * index;
    DivMonotone((total + scaled) * index, total * index + amount * RAY, RAY);
    DivShift(total * index, amount, RAY);
  }

  /** Right after a borrow of either path the pool's debt is at most its liquidity. */
  lemma BorrowStaysWithinLiquidity(s: State, tx: Transaction)
    requires Inv(s) && OnLoan(tx) && Commits(s, tx) && Apply(s, tx).value.event.BorrowOpened?
    ensures var after := Next(s, tx).pool;
            Debt(after.totalBorrowed, after.borrowIndex) <= after.totalLiquidity
  {
    hide Apply, Inv;
    InvBoundsPool(s);
    LoanCommits(s, tx);
    DebtAfterDraw(s.pool.totalBorrowed, Apply(s, tx).value.event.amount, Next(s, tx).pool.borrowIndex);
  }

  /** A timestamp is recent enough, and its age can be computed. */
  predicate Recent(since: i64, now: i64, maxAge: nat) {
    -I64_LIMIT <= now - since <= maxAge
  }

  /** The collateral's limit covers the amount; a limit beyond 64 bits covers nothing. */
  predicate CoveredBy(units: u64, price: u64, coin: Coin, ltvBps: u16, amount: u64) {
    amount <= BorrowLimit(UsdValue(units, price, coin), ltvBps) <= U64_MAX
  }

  /** The pool can lend the amount. */
  predicate Lendable(account: Pool, tokens: u64, slot: u64, amount: u64) {
    Accrued(account, slot).Ok? && amount <= tokens
    && Debt(account.totalBorrowed, Accrued(account, slot).value.borrowIndex) + amount <= account.totalLiquidity
  }

  /** Within the liquidity none of a draw's conversions and sums can fail. */
  lemma DrawSucceedsIff(account: Pool, tokens: u64, slot: u64, amount: u64)
    requires RAY <= account.borrowIndex
    ensures DrawFunds(account, tokens, slot, amount).Ok? <==> Lendable(account, tokens, slot, amount)
  {
    hide Accrued;
    if Accrued(account, slot).Ok? {
      var index := Accrued(account, slot).value.borrowIndex;
      DebtAtLeastPrincipal(account.totalBorrowed, index);
      ScaledAtMost(amount, index);
    }
  }

  lemma ScaledAtMost(amount: nat, index: nat)
    requires RAY <= index
    ensures Scaled(amount, index) <= amount
  {
    DebtAtLeastPrincipal(Scaled(amount, index), index);
    FreshDebt(amount, index);
  }

  /** Exactly when the owner of a vault can borrow against it. */
  lemma BorrowSucceedsIff(s: State, clock: Clock, key: VaultKey, signer: Key, amount: u64, feed: Feed)
    requires Inv(s)
    ensures BorrowStep(s, clock, key, signer, amount, feed).Ok?
       <==> key in s.vaults && key !in s.positions && s.vaults[key].owner == signer
            && !s.protocol.frozen && !s.vaults[key].frozen && s.vaults[key].proofStatus == Verified
            && Recent(s.vaults[key].proofTimestamp, clock.now, 600)
            && Recent(feed.updatedAt, clock.now, 3600)
            && 0 < amount && CoveredBy(s.vaults[key].deposited, feed.priceUsd, COLLATERAL_ONE, s.pool.ltvBps, amount)
            && Lendable(s.pool, s.poolTokens, clock.slot, amount)
  {
    hide DrawFunds, Lendable, Inv, BorrowLimit;
    InvBoundsPool(s);
    DrawSucceedsIff(s.pool, s.poolTokens, clock.slot, amount);
    NothingCoversNothing(feed.priceUsd, COLLATERAL_ONE, s.pool.ltvBps);
  }

  lemma NothingCoversNothing(price: u64, coin: Coin, ltvBps: u16)
    ensures BorrowLimit(UsdValue(0, price, coin), ltvBps) == 0
  {
  }

  /** Exactly when the owner of a Bitcoin vault can: a vault in flight is frozen and so rules itself out. */
  lemma BorrowBtcSucceedsIff(s: State, clock: Clock, key: VaultKey, signer: Key, amount: u64, feed: Feed)
    requires Inv(s)
    ensures BorrowBtcStep(s, clock, key, signer, amount, feed).Ok?
       <==> key in s.btcVaults && key in s.attestations && key !in s.btcPositions && s.btcVaults[key].owner == signer
            && !s.protocol.frozen && s.btcVaults[key].proofStatus == Verified
            && Recent(s.btcVaults[key].proofTimestamp, clock.now, 600)
            && Recent(s.attestations[key].attestedAt, clock.now, 600)
            && Recent(feed.updatedAt, clock.now, 3600)
            && 0 < amount
            && CoveredBy(s.attestations[key].satoshis, feed.priceUsd, SATOSHIS_PER_BTC, s.pool.ltvBps, amount)
            && Lendable(s.pool, s.poolTokens, clock.slot, amount)
  {
    hide DrawFunds, Lendable, Inv, BorrowLimit;
    InvBoundsPool(s);
    KeyIsConsistent(s, key);
    DrawSucceedsIff(s.pool, s.poolTokens, clock.slot, amount);
    NothingCoversNothing(feed.priceUsd, SATOSHIS_PER_BTC, s.pool.ltvBps);
  }

  // ---- repaying ----

  /** What a payment needs besides the principal being part of the total: none of its conversions and
      subtractions can fail. */
  lemma PaymentSucceeds(account: Pool, tokens: u64, slot: u64, principal: u64, amount: u64, all: bool, wallet: u64)
    requires RAY <= account.borrowIndex && principal <= account.totalBorrowed
    ensures PayDown(account, tokens, slot, principal, amount, all, wallet).Ok?
       <==> Accrued(account, slot).Ok?
            && var debt := Debt(principal, Accrued(account, slot).value.borrowIndex);
               var paid := if all then Min(wallet, debt) else Min(amount, debt);
               0 < debt <= U64_MAX && 0 < paid <= wallet && tokens + paid <= U64_MAX
  {
    hide Accrued;
    if Accrued(account, slot).Ok? {
      var index := Accrued(account, slot).value.borrowIndex;
      var debt := Debt(principal, index);
      PartIsLess(principal, index, if all then Min(wallet, debt) else Min(amount, debt));
    }
  }

  /** Exactly when a loan of either path can be repaid: the pool's total never stands in the way. */
  lemma RepaymentSucceedsIff(s: State, tx: Transaction)
    requires Inv(s) && OnLoan(tx) && (Repays(tx, LoanKey(tx)) || RepaysBtc(tx, LoanKey(tx)))
    ensures var sol, key := tx.instruction.Lending?, LoanKey(tx);
            var signer := if sol then tx.instruction.lending.signer else tx.instruction.btcLending.signer;
            var amount := if sol then tx.instruction.lending.amount else tx.instruction.btcLending.amount;
            var wallet := if sol then tx.instruction.lending.wallet else tx.instruction.btcLending.wallet;
            Commits(s, tx)
            <==> key.owner == signer && key in LoansOf(s, tx) && (sol ==> key in s.vaults)
                 && 0 < amount && Accrued(s.pool, tx.clock.slot).Ok?
                 && var debt := Debt(PrincipalOf(s, tx), Accrued(s.pool, tx.clock.slot).value.borrowIndex);
                    0 < debt <= U64_MAX
                    && (if RepaysAll(tx) then 0 < wallet else Min(amount, debt) <= wallet)
                    && s.poolTokens + Min(if RepaysAll(tx) then wallet else amount, debt) <= U64_MAX
  {
    hide PayDown, PaidPositions, Inv, Accrued, Debt;
    InvBoundsPool(s);
    KeyIsConsistent(s, LoanKey(tx));
    TotalCovers(s, LoanKey(tx));
    var amount := if tx.instruction.Lending? then tx.instruction.lending.amount else tx.instruction.btcLending.amount;
    var wallet := if tx.instruction.Lending? then tx.instruction.lending.wallet else tx.instruction.btcLending.wallet;
    if LoanKey(tx) in LoansOf(s, tx) {
      PaymentSucceeds(s.pool, s.poolTokens, tx.clock.slot, PrincipalOf(s, tx), amount, RepaysAll(tx), wallet);
    }
  }

  /** A repayment closes its loan exactly when it offers the whole debt or, on the Bitcoin path, asks to
      repay all. Otherwise principal is left and owes the rest, with at most the slack on top. */
  lemma RepaymentClosesIff(s: State, tx: Transaction)
    requires Inv(s) && OnLoan(tx) && Commits(s, tx)
    requires Repays(tx, LoanKey(tx)) || RepaysBtc(tx, LoanKey(tx))
    ensures var amount := if tx.instruction.Lending? then tx.instruction.lending.amount
                          else tx.instruction.btcLending.amount;
            var after := Next(s, tx);
            var index := after.pool.borrowIndex;
            var debt, left := Debt(PrincipalOf(s, tx), index), Debt(PrincipalOf(after, tx), index);
            (LoanKey(tx) !in LoansOf(after, tx) <==> amount >= debt || RepaysAll(tx))
            && (LoanKey(tx) in LoansOf(after, tx) ==>
                  0 < PrincipalOf(after, tx) && debt - amount <= left <= debt - amount + Slack(index)
                  && after.poolTokens == s.poolTokens + amount)
  {
    hide Apply, Inv, Debt, Scaled, Slack;
    InvBoundsPool(s);
    LoanCommits(s, tx);
    PaysAmount(s, tx);
    var c := Apply(s, tx).value;
    var paid, principal, index := c.event.amount, PrincipalOf(s, tx), c.state.pool.borrowIndex;
    if paid < Debt(principal, index) {
      PartialPayment(principal, index, paid);
    }
  }

  lemma PaysAmount(s: State, tx: Transaction)
    requires RAY <= s.pool.borrowIndex && OnLoan(tx) && Commits(s, tx)
    requires Repays(tx, LoanKey(tx)) || RepaysBtc(tx, LoanKey(tx))
    ensures var debt := Debt(PrincipalOf(s, tx), Next(s, tx).pool.borrowIndex);
            var event := Apply(s, tx).value.event;
            event.BorrowRepaid?
            && (tx.instruction.Lending? ==> event.amount == Min(tx.instruction.lending.amount, debt))
            && (tx.instruction.BtcLending? && !RepaysAll(tx) ==>
                  event.amount == Min(tx.instruction.btcLending.amount, debt))
  {
    hide PayDown;
    if tx.instruction.Lending? {
      var i := tx.instruction.lending;
      PayDownEffect(s.pool, s.poolTokens, tx.clock.slot, PrincipalOf(s, tx), i.amount, false, i.wallet);
    } else {
      var i := tx.instruction.btcLending;
      PayDownEffect(s.pool, s.poolTokens, tx.clock.slot, PrincipalOf(s, tx), i.amount, i.amount == U64_MAX, i.wallet);
    }
  }

  // ---- borrowing and repaying in the same slot ----

  /** Drawing and paying off in one slot gives the accrued pool back, for the amount less at most the slack. */
  lemma DrawAndPayOff(account: Pool, tokens: u64, slot: u64, amount: u64, offer: u64, all: bool, wallet: u64)
    requires RAY <= account.borrowIndex && DrawFunds(account, tokens, slot, amount).Ok?
    requires var d := DrawFunds(account, tokens, slot, amount).value; 0 < d.principal
    requires amount <= offer && amount <= wallet
    ensures var d := DrawFunds(account, tokens, slot, amount).value;
            var r := PayDown(d.pool, d.tokens, slot, d.principal, offer, all, wallet);
            r.Ok?
            && r.value.remaining == 0
            && Ok(r.value.pool) == Accrued(account, slot)
            && amount - Slack(d.pool.borrowIndex) <= r.value.paid <= amount
            && r.value.tokens == tokens - amount + r.value.paid
  {
    hide Accrued, Slack, PayDown;
    var d := DrawFunds(account, tokens, slot, amount).value;
    DrawEffect(account, tokens, slot, amount);
    AccruedOnce(account, slot, d.pool.totalBorrowed);
    FreshDebt(amount, d.pool.borrowIndex);
    DebtAtLeastPrincipal(d.principal, d.pool.borrowIndex);
    PaymentSucceeds(d.pool, d.tokens, slot, d.principal, offer, all, wallet);
    PayDownEffect(d.pool, d.tokens, slot, d.principal, offer, all, wallet);
    PayDownPool(d.pool, d.tokens, slot, d.principal, offer, all, wallet);
  }

  /** On the SOL path, repaying a fresh loan in the slot it was opened in leaves every account as it was but
      for the accrual and the part of a unit that rounding keeps from the pool. */
  lemma BorrowThenRepayRestores(s: State, clock: Clock, key: VaultKey, signer: Key, amount: u64, feed: Feed,
                                later: i64, offer: u64, wallet: u64)
    requires Inv(s) && BorrowStep(s, clock, key, signer, amount, feed).Ok?
    requires amount * RAY >= BorrowStep(s, clock, key, signer, amount, feed).value.state.pool.borrowIndex
    requires amount <= offer && amount <= wallet
    ensures var loan := BorrowStep(s, clock, key, signer, amount, feed).value.state;
            var r := RepayStep(loan, Clock(later, clock.slot), key, signer, offer, wallet);
            r.Ok?
            && r.value.event.BorrowRepaid?
            && amount - Slack(loan.pool.borrowIndex) <= r.value.event.amount <= amount
            && Accrued(s.pool, clock.slot) == Ok(r.value.state.pool)
            && r.value.state == s.(pool := r.value.state.pool,
                                   poolTokens := s.poolTokens - amount + r.value.event.amount)
  {
    hide BorrowGuard, DrawFunds, PayDown, Slack, Inv;
    InvBoundsPool(s);
    DrawEffect(s.pool, s.poolTokens, clock.slot, amount);
    var d := DrawFunds(s.pool, s.poolTokens, clock.slot, amount).value;
    DustLoan(amount, d.pool.borrowIndex);
    DrawAndPayOff(s.pool, s.poolTokens, clock.slot, amount, offer, false, wallet);
    assert s.positions[key := NewPosition(signer, clock.now, d)] - {key} == s.positions;
  }

  /** Likewise on the Bitcoin path, also for a request to repay all. */
  lemma BorrowThenRepayBtcRestores(s: State, clock: Clock, key: VaultKey, signer: Key, amount: u64, feed: Feed,
                                   later: i64, offer: u64, wallet: u64)
    requires Inv(s) && BorrowBtcStep(s, clock, key, signer, amount, feed).Ok?
    requires amount * RAY >= BorrowBtcStep(s, clock, key, signer, amount, feed).value.state.pool.borrowIndex
    requires amount <= offer && amount <= wallet
    ensures var loan := BorrowBtcStep(s, clock, key, signer, amount, feed).value.state;
            var r := RepayBtcStep(loan, Clock(later, clock.slot), key, signer, offer, wallet);
            r.Ok?
            && r.value.event.BorrowRepaid?
            && amount - Slack(loan.pool.borrowIndex) <= r.value.event.amount <= amount
            && Accrued(s.pool, clock.slot) == Ok(r.value.state.pool)
            && r.value.state == s.(pool := r.value.state.pool,
                                   poolTokens := s.poolTokens - amount + r.value.event.amount)
  {
    hide BtcBorrowGuard, DrawFunds, PayDown, Slack, Inv;
    InvBoundsPool(s);
    DrawEffect(s.pool, s.poolTokens, clock.slot, amount);
    var d := DrawFunds(s.pool, s.poolTokens, clock.slot, amount).value;
    DustLoan(amount, d.pool.borrowIndex);
    DrawAndPayOff(s.pool, s.poolTokens, clock.slot, amount, offer, offer == U64_MAX, wallet);
    assert s.btcPositions[key := NewPosition(signer, clock.now, d)] - {key} == s.btcPositions;
  }
}
