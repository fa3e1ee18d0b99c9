/** Conservation of the pool's value: every rounding and every forgiven debt is booked. */
module Conservation {
  import opened Prelude
  import opened FloorArithmetic
  import opened Interest
  import opened Loans
  import opened Accounts
  import opened Steps
  import opened Invariants
  import opened Runs
  import opened LoanEffects
  import opened Pricing
  import opened Example

  /** Tokens held and lent out, against the liquidity deposited, in units of 1 / RAY. */
  function Gap(s: State): int {
    s.poolTokens * RAY + s.pool.totalBorrowed * s.pool.borrowIndex - s.pool.totalLiquidity * RAY
  }

  /** What moves that gap; amounts in units of 1 / RAY, except the forgiven debt, in units of the token. */
  datatype Books = Books(
    interest: nat,      // growth of the index on what is lent out
    borrowDust: nat,    // drawn but not booked as principal
    repayDust: nat,     // paid but not taken off the principal
    wipeDust: nat,      // principal wiped beyond the whole units owed
    forgiven: nat,      // debt a repay-all did not pay
    borrows: nat,
    wipes: nat)

  const BLANK := Books(0, 0, 0, 0, 0, 0, 0)

  function Sum(a: Books, b: Books): Books {
    Books(a.interest + b.interest, a.borrowDust + b.borrowDust, a.repayDust + b.repayDust,
          a.wipeDust + b.wipeDust, a.forgiven + b.forgiven, a.borrows + b.borrows, a.wipes + b.wipes)
  }

  /** A loan of which everything is wiped for a payment, at an index. */
  function Wipe(principal: nat, index: nat, paid: nat): Books {
    ProductNonNegative(principal, index);
    var debt := Debt(principal, index);
    BLANK.(wipeDust := principal * index % RAY, forgiven := if paid <= debt then debt - paid else 0, wipes := 1)
  }

  /** The entry a committed transaction makes, told from its event and the loan it acts on. */
  function Entry(s: State, tx: Transaction, c: Commit): Books
    requires RAY <= s.pool.borrowIndex <= c.state.pool.borrowIndex
  {
    var index := c.state.pool.borrowIndex;
    ProductNonNegative(s.pool.totalBorrowed, index - s.pool.borrowIndex);
    var entry :=
      match c.event
      case BorrowOpened(amount, _) => BLANK.(borrowDust := amount * RAY % index, borrows := 1)
      case BorrowRepaid(paid, remaining) =>
        if remaining == 0 then Wipe(PrincipalOf(s, tx), index, paid)
        else BLANK.(repayDust := paid * RAY % index)
      case PositionLiquidated(repaid, _, _) => Wipe(PrincipalOf(s, tx), index, repaid)
      case BtcLiquidationInitiated(repaid, _) => Wipe(PrincipalOf(s, tx), index, repaid)
      case Done => BLANK;
    entry.(interest := s.pool.totalBorrowed * (index - s.pool.borrowIndex))
  }

  /** The gap between two states of the books. */
  function Net(books: Books): int {
    books.interest + books.repayDust - books.borrowDust - books.wipeDust - books.forgiven * RAY
  }

  // ---- arithmetic ----

  /** The gap moves by the interest and by the tokens moved against the principal moved, at the new index. */
  lemma GapMoves(tokens: int, total: int, index: int, tokensAfter: int, totalAfter: int, indexAfter: int,
                 liquidity: int)
    ensures tokensAfter * RAY + totalAfter * indexAfter - liquidity * RAY
         == tokens * RAY + total * index - liquidity * RAY
            + total * (indexAfter - index) + (tokensAfter - tokens) * RAY + (totalAfter - total) * indexAfter
  {
    assert (totalAfter - total) * indexAfter == totalAfter * indexAfter - total * indexAfter;
    assert total * (indexAfter - index) == total * indexAfter - total * index;
  }

  /** A draw leaves the part of the amount that makes no whole scaled unit. */
  lemma DrawNet(amount: nat, index: nat, tokens: int, total: int)
    requires index > 0 && tokens + amount == 0 && total == Scaled(amount, index)
    ensures tokens * RAY + total * index + amount * RAY % index == 0
  {
  }

  /** Likewise a payment in part. */
  lemma PaymentNet(paid: nat, index: nat, tokens: int, total: int)
    requires index > 0 && tokens == paid && total + Scaled(paid, index) == 0
    ensures tokens * RAY + total * index == paid * RAY % index
  {
    assert total * index + Scaled(paid, index) * index == 0;
  }

  /** A wiped loan leaves the part of it that makes no whole token unit, and what was not paid. */
  lemma WipeNet(principal: nat, index: nat, paid: nat, tokens: int, total: int)
    requires paid <= Debt(principal, index) && tokens == paid && total + principal == 0
    ensures 0 <= principal * index
    ensures tokens * RAY + total * index + principal * index % RAY + (Debt(principal, index) - paid) * RAY == 0
  {
    ProductNonNegative(principal, index);
    assert total * index + principal * index == 0;
  }

  // ---- one transaction ----

  /** Tokens moved against principal moved, of a loan transaction. */
  lemma LoanMoves(s: State, tx: Transaction)
    requires OnLoan(tx) && Commits(s, tx) && RAY <= s.pool.borrowIndex
    ensures var c := Apply(s, tx).value;
            var index := c.state.pool.borrowIndex;
            s.pool.borrowIndex <= index
            && (c.state.poolTokens - s.poolTokens) * RAY + (c.state.pool.totalBorrowed - s.pool.totalBorrowed) * index
               == Net(Entry(s, tx, c).(interest := 0))
  {
    hide Apply, Scaled, Debt, LoansOf, PrincipalOf;
    LoanCommits(s, tx);
    var c := Apply(s, tx).value;
    var index, principal := c.state.pool.borrowIndex, PrincipalOf(s, tx);
    var tokens, total: int := c.state.poolTokens - s.poolTokens, c.state.pool.totalBorrowed - s.pool.totalBorrowed;
    match c.event
    case BorrowOpened(amount, _) => DrawNet(amount, index, tokens, total);
    case BorrowRepaid(paid, remaining) =>
      if remaining == 0 {
        WipeNet(principal, index, paid, tokens, total);
      } else {
        PaymentNet(paid, index, tokens, total);
      }
    case PositionLiquidated(repaid, _, _) => WipeNet(principal, index, repaid, tokens, total);
    case BtcLiquidationInitiated(repaid, _) => WipeNet(principal, index, repaid, tokens, total);
    case Done =>
  }

  /** The books of a transaction: blank unless it commits on a loan. */
  function Booked(s: State, tx: Transaction): Books
    requires RAY <= s.pool.borrowIndex
  {
    if OnLoan(tx) && Commits(s, tx) then
      LoanMoves(s, tx);
      Entry(s, tx, Apply(s, tx).value)
    else BLANK
  }

  /** Every transaction moves the gap by its books; the liquidity is constant. */
  lemma GapStep(s: State, tx: Transaction)
    requires RAY <= s.pool.borrowIndex
    ensures Gap(Next(s, tx)) == Gap(s) + Net(Booked(s, tx))
    ensures Next(s, tx).pool.totalLiquidity == s.pool.totalLiquidity
  {
    hide Apply, Entry, LoanEffect;
    if OnLoan(tx) && Commits(s, tx) {
      LoanCommits(s, tx);
      LoanMoves(s, tx);
      var after := Next(s, tx);
      GapMoves(s.poolTokens, s.pool.totalBorrowed, s.pool.borrowIndex, after.poolTokens, after.pool.totalBorrowed,
               after.pool.borrowIndex, s.pool.totalLiquidity);
      InterestBooked(s, tx);
    } else if !OnLoan(tx) {
      OthersLeaveLoans(s, tx);
    }
  }

  lemma InterestBooked(s: State, tx: Transaction)
    requires OnLoan(tx) && Commits(s, tx) && RAY <= s.pool.borrowIndex
    ensures Booked(s, tx).interest == s.pool.totalBorrowed * (Next(s, tx).pool.borrowIndex - s.pool.borrowIndex)
  {
    hide Apply, PrincipalOf, Wipe;
  }

  /** Each entry's dust is less than one unit: of the index for a borrow, of a token for a wipe. */
  lemma DustIsSmall(s: State, tx: Transaction)
    requires RAY <= s.pool.borrowIndex
    ensures var entry := Booked(s, tx);
            s.pool.borrowIndex <= Next(s, tx).pool.borrowIndex
            && entry.borrowDust <= entry.borrows * (Next(s, tx).pool.borrowIndex - 1)
            && entry.wipeDust <= entry.wipes * (RAY - 1)
            && entry.borrows + entry.wipes <= 1
  {
    hide Apply, PrincipalOf;
    if OnLoan(tx) && Commits(s, tx) {
      LoanMoves(s, tx);
    } else if !OnLoan(tx) {
      OthersLeaveLoans(s, tx);
    }
  }

  /** Debt is forgiven by a Bitcoin repay-all only, and then exactly what its wallet lacks. */
  lemma ForgivenByRepayAllOnly(s: State, tx: Transaction)
    requires RAY <= s.pool.borrowIndex && OnLoan(tx) && Commits(s, tx)
    ensures var debt := Debt(PrincipalOf(s, tx), Next(s, tx).pool.borrowIndex);
            Booked(s, tx).forgiven
            == if RepaysAll(tx) && tx.instruction.btcLending.wallet < debt
               then debt - tx.instruction.btcLending.wallet else 0
  {
    hide Apply, Debt, Scaled, LoansOf, PrincipalOf;
    LoanCommits(s, tx);
    if RepaysAll(tx) {
      RepayAllPaysWallet(s, tx);
    } else if Apply(s, tx).value.event.BorrowRepaid? {
      PartIsLess(PrincipalOf(s, tx), Next(s, tx).pool.borrowIndex, Apply(s, tx).value.event.amount);
    }
  }

  lemma RepayAllPaysWallet(s: State, tx: Transaction)
    requires RepaysAll(tx) && Commits(s, tx) && RAY <= s.pool.borrowIndex
    ensures var debt := Debt(PrincipalOf(s, tx), Next(s, tx).pool.borrowIndex);
            Apply(s, tx).value.event == BorrowRepaid(Min(tx.instruction.btcLending.wallet, debt), 0)
  {
    hide PayDown;
    PayDownEffect(s.pool, s.poolTokens, tx.clock.slot, PrincipalOf(s, tx), U64_MAX, true,
                  tx.instruction.btcLending.wallet);
  }

  // ---- runs ----

  ghost predicate IndexAtLeastOne(r: Run) {
    forall i | 0 <= i < |r.states| :: RAY <= r.states[i].pool.borrowIndex
  }

  lemma RunsKeepIndex(r: Run)
    requires IsRun(r)
    ensures IndexAtLeastOne(r)
  {
    hide Next, Initial;
    forall i | 0 <= i < |r.states| ensures RAY <= r.states[i].pool.borrowIndex {
      IndexAlwaysAtLeastOne(r, i);
    }
  }

  /** The books of the first n transactions of a run. */
  ghost function BooksSoFar(r: Run, n: nat): Books
    requires IndexAtLeastOne(r) && n <= |r.txs| < |r.states|
  {
    if n == 0 then BLANK else Sum(BooksSoFar(r, n - 1), Booked(r.states[n - 1], r.txs[n - 1]))
  }

  /** In every reachable state tokens and loans make up the initial tokens and the books, to the last unit. */
  lemma {:induction false} ValueIsConserved(r: Run, i: nat)
    requires IsRun(r) && i <= |r.txs|
    ensures IndexAtLeastOne(r)
    ensures Gap(r.states[i]) == Gap(r.states[0]) + Net(BooksSoFar(r, i))
    ensures r.states[i].pool.totalLiquidity == r.states[0].pool.totalLiquidity
  {
    hide Next, Booked, Initial, Gap;
    RunsKeepIndex(r);
    if i > 0 {
      ValueIsConserved(r, i - 1);
      GapStep(r.states[i - 1], r.txs[i - 1]);
    }
  }

  lemma {:induction false} DustStaysSmall(r: Run, i: nat)
    requires IsRun(r) && i <= |r.txs|
    ensures IndexAtLeastOne(r)
    ensures var books := BooksSoFar(r, i);
            books.borrowDust <= books.borrows * r.states[i].pool.borrowIndex
            && books.wipeDust <= books.wipes * RAY
  {
    hide Next, Booked, Initial;
    RunsKeepIndex(r);
    if i > 0 {
      DustStaysSmall(r, i - 1);
      DustIsSmall(r.states[i - 1], r.txs[i - 1]);
      var books, entry := BooksSoFar(r, i - 1), Booked(r.states[i - 1], r.txs[i - 1]);
      DustAdds(books.borrowDust, books.borrows, entry.borrowDust, entry.borrows,
               r.states[i - 1].pool.borrowIndex, r.states[i].pool.borrowIndex);
    }
  }

  lemma DustAdds(dust: nat, borrows: nat, more: nat, drawn: nat, index: nat, after: nat)
    requires dust <= borrows * index && index <= after && more <= drawn * (after - 1) && 0 < after
    ensures dust + more <= (borrows + drawn) * after
  {
    MulMonotone(index, after, borrows);
    MulMonotone(after - 1, after, drawn);
  }

  /** The pool's tokens and loans never fall short of the liquidity by more than one index unit a borrow, one
      token unit a wiped loan, and the forgiven debt. */
  lemma LiquidityIsCovered(r: Run, i: nat)
    requires IsRun(r) && i <= |r.txs|
    ensures IndexAtLeastOne(r)
    ensures var s, books := r.states[i], BooksSoFar(r, i);
            s.poolTokens * RAY + s.pool.totalBorrowed * s.pool.borrowIndex + books.borrows * s.pool.borrowIndex
            + (books.wipes + books.forgiven) * RAY
            >= s.pool.totalLiquidity * RAY
  {
    hide Next, Booked;
    ValueIsConserved(r, i);
    DustStaysSmall(r, i);
  }

  lemma BtcLoanOfThousand()
    ensures var s := OneBtcVault(6000, 7500);
            var loan := BorrowBtcStep(s, Clock(1, 0), Address(), Owner(), 1000, Feed(PRICE_ONE, 1));
            Inv(s) && loan.Ok?
            && loan.value.state.pool == s.pool.(totalBorrowed := 1000) && loan.value.state.poolTokens == 0
            && Address() in loan.value.state.btcPositions
            && loan.value.state.btcPositions[Address()].principal == 1000
            && loan.value.state.btcPositions[Address()].owner == Owner()
            && loan.value.state.btcVaults == s.btcVaults
  {
    OneBtcVaultIsConsistent(6000, 7500);
  }

  lemma ThousandRepaid(loan: State, tx: Transaction)
    requires loan.pool.borrowIndex == RAY && loan.pool.totalBorrowed == 1000 && loan.pool.lastUpdateSlot == 0
    requires loan.poolTokens == 0
    requires Address() in loan.btcPositions && Address() in loan.btcVaults
    requires loan.btcPositions[Address()].principal == 1000 && loan.btcPositions[Address()].owner == Owner()
    requires loan.btcVaults[Address()].owner == Owner()
    requires tx == Transaction(Clock(1, 0), BtcLending(RepayBtc(Address(), Owner(), U64_MAX, 1)))
    ensures Commits(loan, tx) && Apply(loan, tx).value.event == BorrowRepaid(1, 0)
    ensures Address() !in Next(loan, tx).btcPositions && Next(loan, tx).pool.borrowIndex == RAY
    ensures PrincipalOf(loan, tx) == 1000 && RepaysAll(tx)
  {
  }

  /** A repay-all forgives more than dust: with one unit in the wallet it closes a loan of 1000. */
  lemma RepayAllForgivesMost()
    ensures var s, clock := OneBtcVault(6000, 7500), Clock(1, 0);
            var loan := BorrowBtcStep(s, clock, Address(), Owner(), 1000, Feed(PRICE_ONE, 1));
            Inv(s) && loan.Ok?
            && var tx := Transaction(clock, BtcLending(RepayBtc(Address(), Owner(), U64_MAX, 1)));
               Commits(loan.value.state, tx)
               && Apply(loan.value.state, tx).value.event == BorrowRepaid(1, 0)
               && Address() !in Next(loan.value.state, tx).btcPositions
               && Booked(loan.value.state, tx).forgiven == 999
  {
    hide BorrowBtcStep, Inv, Entry;
    BtcLoanOfThousand();
    var s, clock := OneBtcVault(6000, 7500), Clock(1, 0);
    var loan := BorrowBtcStep(s, clock, Address(), Owner(), 1000, Feed(PRICE_ONE, 1)).value.state;
    var tx := Transaction(clock, BtcLending(RepayBtc(Address(), Owner(), U64_MAX, 1)));
    ThousandRepaid(loan, tx);
    ForgivenByRepayAllOnly(loan, tx);
  }
}
