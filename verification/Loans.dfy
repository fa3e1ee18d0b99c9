/**
 The loan core both collateral paths share: drawing tokens from the pool, paying a principal down and
 paying it off, with the laws of the rounding between raw and scaled amounts.
 */
module Loans {
  import opened Prelude
  import opened FloorArithmetic
  import opened Interest

  datatype Draw = Draw(pool: Pool, tokens: u64, principal: u64)

  datatype Repayment = Repayment(pool: Pool, tokens: u64, paid: u64, remaining: u64)

  /** The pool side of both borrow instructions, from the accrual on. */
  function DrawFunds(account: Pool, tokens: u64, slot: u64, amount: u64): Result<Draw> {
    var pool :- Accrued(account, slot);
    var totalDebt :- CurrentDebt(pool.totalBorrowed, pool.borrowIndex);
    var available :- SubU64(pool.totalLiquidity, totalDebt);
    :- Require(amount <= available, InsufficientPoolLiquidity);
    var principal :- ToScaled(amount, pool.borrowIndex);
    var totalBorrowed :- AddU64(pool.totalBorrowed, principal);
    :- Require(amount <= tokens, InsufficientFunds);
    Ok(Draw(pool.(totalBorrowed := totalBorrowed), tokens - amount, principal))
  }

  /** A token transfer from a wallet into the pool's token account. */
  function ReceiveTokens(tokens: u64, wallet: u64, amount: u64): Result<u64> {
    if amount > wallet then Err(InsufficientFunds) else
    :- Require(tokens + amount <= U64_MAX, TokenOverflow);
    Ok(tokens + amount)
  }

  /** Both repay instructions; only the Bitcoin path ever passes `all`, which forgives what the wallet lacks. */
  function PayDown(account: Pool, tokens: u64, slot: u64, principal: u64, amount: u64, all: bool, wallet: u64):
    Result<Repayment>
  {
    var pool :- Accrued(account, slot);
    var outstanding :- CurrentDebt(principal, pool.borrowIndex);
    :- Require(outstanding > 0, NoOutstandingDebt);
    var paid: u64 := if all then Min(wallet, outstanding) else Min(amount, outstanding);
    :- Require(paid > 0, InvalidRepayAmount);
    var wiped :- if all || paid == outstanding then Ok(principal) else ToScaled(paid, pool.borrowIndex);
    var closed: u64 := Min(wiped, principal);
    var newTokens :- ReceiveTokens(tokens, wallet, paid);
    var totalBorrowed :- SubU64(pool.totalBorrowed, closed);
    Ok(Repayment(pool.(totalBorrowed := totalBorrowed), newTokens, paid, principal - closed))
  }

  // ---- the accrual in a loan ----

  lemma AccruedOnce(pool: Pool, slot: u64, total: u64)
    requires Accrued(pool, slot).Ok?
    ensures var again := Accrued(pool, slot).value.(totalBorrowed := total); Accrued(again, slot) == Ok(again)
  {
  }

  lemma DrawAccrues(account: Pool, tokens: u64, slot: u64, amount: u64)
    requires DrawFunds(account, tokens, slot, amount).Ok?
    ensures Accrued(account, slot).Ok?
    ensures var pool := DrawFunds(account, tokens, slot, amount).value.pool;
            pool == Accrued(account, slot).value.(totalBorrowed := pool.totalBorrowed)
  {
    hide Accrued, CurrentDebt, ToScaled;
  }

  lemma PayDownPool(account: Pool, tokens: u64, slot: u64, principal: u64, amount: u64, all: bool, wallet: u64)
    requires PayDown(account, tokens, slot, principal, amount, all, wallet).Ok?
    ensures Accrued(account, slot).Ok?
    ensures var pool := PayDown(account, tokens, slot, principal, amount, all, wallet).value.pool;
            pool == Accrued(account, slot).value.(totalBorrowed := pool.totalBorrowed)
  {
    hide Accrued, CurrentDebt, ToScaled, ReceiveTokens;
  }

  // ---- rounding between raw and scaled amounts ----

  lemma DebtBounds(principal: nat, index: nat)
    ensures Debt(principal, index) * RAY <= principal * index < (Debt(principal, index) + 1) * RAY
  {
    assert principal * index == principal * index / RAY * RAY + principal * index % RAY;
  }

  lemma ScaledBounds(amount: nat, index: nat)
    requires index > 0
    ensures Scaled(amount, index) * index <= amount * RAY < Scaled(amount, index) * index + index
  {
    var x := amount * RAY;
    assert x == x / index * index + x % index;
  }

  /** The units a rounded scaled amount can fall short by, in raw units: (index - 1) / RAY rounded up. */
  function Slack(index: nat): nat
    requires index > 0
  {
    (index - 1 + RAY - 1) / RAY
  }

  /** The debt of a fresh loan: at most the amount, and short of it by no more than the slack. */
  lemma FreshDebt(amount: nat, index: nat)
    requires index > 0
    ensures amount - Slack(index) <= Debt(Scaled(amount, index), index) <= amount
  {
    ScaledBounds(amount, index);
    var product := Scaled(amount, index) * index;
    assert amount * RAY - (index - 1) <= product <= amount * RAY;
  }

  /** Rescaling a debt gives the principal back, or one unit less if the debt was rounded. */
  lemma RescaledDebt(principal: nat, index: nat)
    requires RAY <= index
    ensures Scaled(Debt(principal, index), index)
         == if principal * index % RAY == 0 then principal else principal - 1
  {
    var product := principal * index;
    var rounded := product % RAY;
    assert Debt(principal, index) * RAY == product - rounded;
    if rounded == 0 {
      QuotientIs(product, index, principal);
    } else {
      assert (principal - 1) * index == product - index;
      QuotientIs(product - rounded, index, principal - 1);
    }
  }

  lemma QuotientIs(x: int, d: int, q: int)
    requires 0 < d && q * d <= x < q * d + d
    ensures x / d == q
  {
    DivAtLeast(x, d, q);
    DivBelow(x, d, q + 1);
  }

  /** At an index of at least one a principal owes at least itself. */
  lemma DebtAtLeastPrincipal(principal: nat, index: nat)
    requires RAY <= index
    ensures principal <= Debt(principal, index)
  {
    MulMonotone(RAY, index, principal);
    DivAtLeast(principal * index, RAY, principal);
  }

  /** A loan gets a nonzero principal exactly when it is worth one scaled unit. */
  lemma DustLoan(amount: nat, index: nat)
    requires index > 0
    ensures Scaled(amount, index) == 0 <==> amount * RAY < index
  {
    ScaledBounds(amount, index);
    if amount * RAY < index {
      QuotientIs(amount * RAY, index, 0);
    }
  }

  /** Paying part of a debt leaves a positive principal, which owes the rest and at most the slack on top. */
  lemma PartialPayment(principal: nat, index: nat, paid: nat)
    requires index > 0 && paid < Debt(principal, index)
    ensures Scaled(paid, index) < principal
    ensures var left := Debt(principal - Scaled(paid, index), index);
            Debt(principal, index) - paid <= left <= Debt(principal, index) - paid + Slack(index)
  {
    DebtBounds(principal, index);
    ScaledBounds(paid, index);
    var debt, closed := Debt(principal, index), Scaled(paid, index);
    MulMonotone(paid + 1, debt, RAY);
    if principal <= closed {
      MulMonotone(principal, closed, index);
    }
    assert (principal - closed) * index == principal * index - closed * index;
    RemainingDebt(principal * index, closed * index, debt, paid, index);
  }

  lemma RemainingDebt(owed: nat, closed: nat, debt: nat, paid: nat, index: nat)
    requires index > 0 && paid < debt
    requires debt * RAY <= owed < (debt + 1) * RAY
    requires closed <= paid * RAY < closed + index
    ensures debt - paid <= (owed - closed) / RAY <= debt - paid + Slack(index)
  {
  }
}
