# LendGuard lending core, verified

LendGuard lends LGUSD against SOL and Bitcoin whose custody is proved by Ika dWallet approvals. This project
models the on-chain lending core as a state machine and proves its laws over every run, together with three
companions: the approval writer and parsers, the client's base-58 decoder, and the client's LGUSD printer and
parser.

`dafny verify dfyconfig.toml` checks everything.

## How it is built

* `Accounts` holds the accounts and the transactions. `Steps` says, for each of the 21 instructions, which
  check fails with which error and, if none does, which accounts are committed and which amounts are emitted.
* `Program` holds the same instructions as handlers that work in place: accounts are loaded into objects,
  changed field by field and stored at the end. `Store.Execute` is proved to do exactly what `Steps.Apply` says.
  `Interest.LendingPool` is the pool object with `accrue_interest` as a method.
* `Pricing`, `Interest` and `Loans` hold the fixed-point arithmetic: the checked program functions, their
  unbounded counterparts on the client, and the laws of their rounding.
* `Figures` and `Coverage` restate that arithmetic, and the borrow limit and liquidation test of the instructions,
  in products with every scale written out. `Refusals` is the table of errors.
* `Invariants` and `Runs` prove what every transaction keeps; a run is any sequence of transactions from
  initialisation on, with positive clock readings that never go back.
* `LoanEffects` and `VaultEffects` say what committed transactions did. On them rest the laws: `Conservation`
  (value), `LoanLaws` (borrowing and repaying), `StuckLoans` (loans without principal), `Liquidations`,
  `FreshLoans` and `SlotShelter` (fresh loans against liquidation), `BtcProtocol` and `Balances` (the two-phase
  Bitcoin liquidation and the attested balance), `CustodyChain` and `BtcWindow` (the custody proofs of the two paths), `Freeze`, `Ledger` (the
  collateral total).
* `Approvals`, `Base58` and `Decimals` are the companions; `Prelude`, `FloorArithmetic`, `MapSums` and
  `Numerals` are helpers, and `Example` is a small deployment for showing what can happen.

## Assumptions

* There is one pool and one mint. Vaults, attestations and loans sit under the seeds their addresses are
  derived from, so distinct seeds have distinct addresses.
* Runs start with the pool and no vaults: `Initialize` is `initialize_protocol` and `initialize_lending_pool` in one.
  On chain, vaults can be registered and funded between the two.
* Clock readings are after the epoch and, for the proof window, never go back. Slots need not be monotone.
* What a transaction reads from outside is an input: price feed, payer's token balance, lamports, the
  outcome of the encrypted risk check, and whether the Ika program accepts the approval call. Every law holds
  for all of them.
* Only loans move the pool's tokens; nobody sends it tokens directly.
* Integer widths, checked and truncating conversions and failing unchecked operators are modelled as written.

## Where code and documentation differ

The model follows the code.

* The liquidation bonus that the repository's `README.md:49` and `README.md:135` promise is never paid on the SOL
  path: the seized amount is subtracted from the recorded deposit, so a seizure above it fails
  (`SeizureSucceedsIff`, `BonusIsNeverPaid`); a lamport above the deposit is enough (`SurplusStopsLiquidation`).
* "Dust forgiveness" (the repository's `README.md:68`) is not limited to dust: a Bitcoin repay-all forgives whatever
  the wallet lacks (`ForgivenByRepayAllOnly`, `RepayAllForgivesMost`).
* A loan within its limit can be liquidatable at once for tiny collateral values; the exact condition is in
  `LimitAgainstLiquidation` and `FreshLoanAgainstThreshold`, an instance in `FreshLoanLiquidatedAtOnce`.
* A borrow of less than one scaled unit opens a loan that can never be repaid, liquidated or replaced
  (`StuckForEver`, `DustBorrowSticks`), and a payment of less than one scaled unit reduces the principal by nothing.
* Collateral whose borrow limit exceeds 64 bits supports no borrow at all (`BorrowSucceedsIff`).
* `contracts/src/instructions/lending.rs:14` speaks of 365.25 days of 400 ms slots; the number is that of 365 days.
* `contracts/src/state/lending_pool.rs:22` speaks of a slope up to 80 % utilisation; the code is linear up to 100 %.
* `contracts/src/instructions/lending.rs:799` assumes rates up to 12,000 bps; rates are not validated. Accrual is
  proved safe for all of them within the index and slots that comment names; beyond, a failed accrual stalls the
  pool (`FailedAccrualStalls`).
* The proof status EXPIRED is tested for but never assigned; on the SOL path a lapsed proof blocks its vault
  (`LapsedVaultIsStuck`), while on the Bitcoin path it can still be refreshed (`BtcRefreshIgnoresWindow`).
* `parseLgUsd` adds the fraction of a negative text instead of subtracting it (`SignedDecimalText`), and reads text
  with the prefix of another base (`PrefixedText`).
* The protocol's vault count is never lowered (`VaultsAreCounted`).
* Withdrawals do not look at debt, so no law here says that loans stay collateralised; a withdrawal can expose
  even a fresh loan (`WithdrawalExposesFreshLoan`), as can a smaller attestation (`AttestationExposesFreshBtcLoan`).

## Model

| member | source | states |
|---|---|---|
| `Pricing.CalculateMaxBorrow` | `contracts/src/instructions/lending.rs:861-885` | for every u64 amount and price and u16 ratio the checked computation is the unbounded borrow limit; it fails only if that limit exceeds 64 bits |
| `Pricing.IsLiquidatable` | `contracts/src/instructions/lending.rs:889-912` | never overflows, and gives the answer of the client predicate on unbounded integers |
| `Pricing.CollateralWithBonus` | `contracts/src/instructions/lending.rs:914-926` | the amount with its bonus, never below the amount; fails only beyond 64 bits |
| `Pricing.DebtToSatoshisWithBonus` | `contracts/src/instructions/btc_lending.rs:667-693` | the satoshis worth a debt with their bonus; fails only on a zero price or beyond 64 bits |
| `Pricing.LimitAgainstLiquidation` | `contracts/src/instructions/lending.rs:861-912` | over all collateral values: the borrow limit exceeds the liquidation value by at most one unit, and does so if and only if the two roundings cross |
| `Pricing.MarginKeepsFreshLoanHealthy` | `contracts/src/instructions/lending.rs:861-912` | where the margin between threshold and LTV is worth the LTV of one unit, the limit is at most the liquidation value |
| `Pricing.FreshLoanCanBeLiquidatable` | `contracts/src/instructions/lending.rs:861-912` | without the margin it fails: value 199, ratios 6000 and 6001 give limit 1 against liquidation value 0 |
| `Interest.CurrentDebt` | `contracts/src/instructions/lending.rs:743-750` | the client's debt of a principal, unless it exceeds 64 bits |
| `Interest.ToScaled` | `contracts/src/instructions/lending.rs:731-738` | the amount in scaled units rounded down; fails on a zero index and beyond 64 bits |
| `Interest.LendingPool.AccrueInterest` | `contracts/src/instructions/lending.rs:754-831` | the in-place update with its checked intermediate results leaves exactly the account of the unbounded index formula, and fails exactly when one intermediate result exceeds 128 bits |
| `Interest.AccrualNeverFails` | `contracts/src/instructions/lending.rs:770-816` | for every u16 rate and slope accrual succeeds at an index up to 10 and up to 10^8 elapsed slots |
| `Interest.FailedAccrualKeepsFailing` | `contracts/src/instructions/lending.rs:770-816` | once an accrual fails it fails at every later slot |
| `Interest.PiecesReachSingleStep` | `contracts/src/instructions/lending.rs:754-831` | accruing over n pieces of time gives at least the index of one single accrual less n - 1 units |
| `Interest.PiecesGrowAtMost` | `contracts/src/instructions/lending.rs:754-831` | whatever the pieces, the index grows at most by the product of the growth factors at full utilisation |
| `Interest.TouchingOftenIsHarmless` | `contracts/src/instructions/lending.rs:754-831` | the same two bounds for a pool account touched at any sequence of slots |
| `Figures.WordSizes` | `contracts/src/instructions/lending.rs:731-738` | the bounds of the machine words, in decimal |
| `Figures.DebtInUnits` | `contracts/src/instructions/lending.rs:743-750` | the debt of a principal, between two products with 10^18 written out |
| `Figures.ScaledInUnits` | `contracts/src/instructions/lending.rs:731-738` | an amount in scaled units, likewise |
| `Figures.NothingAccrues` | `contracts/src/instructions/lending.rs:760-768` | without a new slot the pool stays as it is; without debt or liquidity only its slot moves |
| `Figures.AccrualLaw` | `contracts/src/instructions/lending.rs:770-816` | the law of the interest rate in products and literals: utilisation, rate and new index between the products that determine them, and exactly when the 128-bit intermediate results fit |
| `Figures.RateIsUnique` | `contracts/src/instructions/lending.rs:770-795` | debt, utilisation and rate are determined by that law |
| `Figures.RateEnds` | `contracts/src/instructions/lending.rs:778-795` | below one basis point of utilisation the rate is the base, at full utilisation base and slope |
| `Figures.DollarValue` | `contracts/src/instructions/lending.rs:866-870` | the dollar value of lamports and of satoshis, between two products: multiplied before it is divided |
| `Figures.LimitInUnits` | `contracts/src/instructions/lending.rs:872-884` | the borrow limit from the dollar value by its two roundings, in literals |
| `Figures.LiquidationInUnits` | `contracts/src/instructions/lending.rs:901-911` | the liquidation value by its two roundings, in literals |
| `Figures.BonusInUnits` | `contracts/src/instructions/lending.rs:914-926` | an amount with its bonus, between two products |
| `Figures.SatoshisInUnits` | `contracts/src/instructions/btc_lending.rs:667-693` | the satoshis worth a debt at a price, and they with the bonus, between products in literals |
| `Coverage.BorrowIsCovered` | `contracts/src/instructions/lending.rs:330-335` | a committed borrow is covered: amount * 10^9 * 10^12 <= lamports * price * LTV * 10^6; one refused for its size exceeds that up to the stated rounding |
| `Coverage.BtcBorrowIsCovered` | `contracts/src/instructions/btc_lending.rs:124-129` | the same with 10^8 for satoshis |
| `Coverage.LiquidationIsDue` | `contracts/src/instructions/lending.rs:652-660` | a committed liquidation has a debt above what the collateral secures at the threshold, up to the stated rounding; one refused as healthy has not |
| `Coverage.BtcLiquidationIsDue` | `contracts/src/instructions/btc_lending.rs:451-461` | the same for satoshis |
| `Loans.FreshDebt` | `contracts/src/instructions/lending.rs:731-750` | the debt of a freshly scaled amount lies between the amount less one rounding slack and the amount |
| `Loans.RescaledDebt` | `contracts/src/instructions/lending.rs:731-750` | at an index of at least one, scaling the debt of a principal gives the principal back if its debt was a whole number of units, else one unit less |
| `Loans.PartialPayment` | `contracts/src/instructions/lending.rs:488-493` | a payment below the debt leaves a positive principal, which owes the rest and at most the slack on top |
| `Loans.DustLoan` | `contracts/src/instructions/lending.rs:731-738` | an amount scales to zero exactly when it is worth less than one scaled unit |
| `Invariants.PayDownEffect` | `contracts/src/instructions/btc_lending.rs:257-305` | a payment either wipes the principal (whole debt, or repay all) or takes off the scaled amount and leaves principal; the cap on the principal never bites; tokens and total move accordingly |
| `Invariants.DrawEffect` | `contracts/src/instructions/lending.rs:339-356` | a draw adds the scaled amount to the accrued total, stays within liquidity and moves no other field of the pool |
| `Invariants.InitializedIsInitial` | `contracts/src/instructions/lending.rs:64-130` | initialisation succeeds exactly on valid parameters with the liquidity in the pool's token account, stores each parameter in its field and establishes the invariant |
| `Invariants.InvStays` | `contracts/src/instructions/lending.rs:718-727` | every transaction keeps the invariant: the pool total is the sum of all open principals, the index is at least one, and a Bitcoin vault agrees with its attestation and is frozen exactly while a liquidation is in flight, its loan then without principal, and no proof ever has status EXPIRED |
| `Runs.InvAlways` | `contracts/src/instructions/lending.rs:718-727` | hence in every state of every run |
| `LoanEffects.LoanCommits` | `contracts/src/instructions/lending.rs:298-716` | every committed loan transaction of either path has, on pool, tokens and loan, the effect its event tells |
| `LoanEffects.OthersLeaveLoans` | `contracts/src/instructions/deposit_collateral.rs:26-134` | no other transaction touches the pool, its tokens or any loan |
| `LoanEffects.FailedAccrualStalls` | `contracts/src/instructions/lending.rs:338-341` | over a run, once the pool cannot be accrued and slots go on, it never changes again: of the loan instructions of both paths only finalisations commit |
| `LoanEffects.PoolOnlyMoves` | `contracts/src/instructions/lending.rs:754-831` | over a run only total, index and slot of the pool move, and index and slot never fall |
| `LoanLaws.PoolDebtIsSumOfDebts` | `contracts/src/instructions/lending.rs:718-727` | with n open loans the pool-level debt lies between the sum of the loans' debts and that sum plus n - 1, at every index |
| `LoanLaws.BorrowStaysWithinLiquidity` | `contracts/src/instructions/btc_lending.rs:139-159` | right after a borrow of either path the pool's debt is at most its liquidity |
| `LoanLaws.DrawSucceedsIff` | `contracts/src/instructions/lending.rs:339-356` | within liquidity and tokens none of the conversions and checked sums of a draw can fail |
| `LoanLaws.BorrowSucceedsIff` | `contracts/src/instructions/lending.rs:298-410` | a borrow commits if and only if its business conditions hold and the pool can be accrued; no other arithmetic stands in the way |
| `LoanLaws.BorrowBtcSucceedsIff` | `contracts/src/instructions/btc_lending.rs:82-201` | the same on the Bitcoin path, where the two guards on a liquidation in flight follow from the invariant |
| `LoanLaws.PaymentSucceeds` | `contracts/src/instructions/lending.rs:472-521` | neither the conversion nor the checked subtractions of a payment can fail when the principal is part of the total |
| `LoanLaws.RepaymentSucceedsIff` | `contracts/src/instructions/btc_lending.rs:246-323` | on either path a repayment commits if and only if the pool can be accrued and the owner pays a positive part of a positive debt from a sufficient wallet; the pool's total never stands in the way |
| `LoanLaws.RepaymentClosesIff` | `contracts/src/instructions/lending.rs:458-542` | a SOL repayment closes the loan exactly when it offers the whole debt, a Bitcoin one also when it asks to repay all; else principal is left that owes the rest up to the slack |
| `LoanLaws.BorrowThenRepayRestores` | `contracts/src/instructions/lending.rs:298-542` | borrowing and repaying in one slot commits and restores every account but for the accrual, for a payment between the amount less the slack and the amount |
| `LoanLaws.BorrowThenRepayBtcRestores` | `contracts/src/instructions/btc_lending.rs:82-323` | the same on the Bitcoin path, also for repay all |
| `StuckLoans.StuckByDustBorrowOnly` | `contracts/src/instructions/lending.rs:352-356` | a loan without principal, not waiting for a finalisation, arises exactly by borrowing less than one scaled unit |
| `StuckLoans.StuckForEver` | `contracts/src/instructions/lending.rs:473-475` | such a loan stays in every later state of the run, and no borrow, repayment or liquidation of it ever commits |
| `StuckLoans.DustBorrowSticks` | `contracts/src/instructions/lending.rs:352-356` | it happens: at every index above one there is a consistent state in which a borrow of one unit commits and leaves such a loan |
| `Conservation.GapStep` | `contracts/src/instructions/lending.rs:343-376` | every transaction moves the pool's tokens and loans against its liquidity by exactly what the books enter for it |
| `Conservation.ForgivenByRepayAllOnly` | `contracts/src/instructions/btc_lending.rs:259-281` | debt is forgiven by a Bitcoin repay-all only, and then exactly what the wallet lacks of the debt |
| `Conservation.RepayAllForgivesMost` | `contracts/src/instructions/btc_lending.rs:259-281` | it happens: with one unit in the wallet a repay-all closes a loan of 1000 and forgives 999 |
| `Conservation.ValueIsConserved` | `contracts/src/instructions/lending.rs:472-521` | in every reachable state tokens and loans equal the initial tokens plus interest, less rounding and forgiven debt, to the last unit |
| `Conservation.LiquidityIsCovered` | `contracts/src/instructions/btc_lending.rs:463-511` | in every reachable state tokens and loans fall short of the liquidity by at most one index unit a borrow, one token unit a wiped loan and the forgiven debt |
| `FreshLoans.FreshLoanAgainstThreshold` | `contracts/src/instructions/lending.rs:861-912` | a loan within its limit is liquidatable at the price and index it was opened at if and only if its debt is the whole limit and the roundings cross |
| `FreshLoans.FreshLoanIsSafe` | `contracts/src/instructions/lending.rs:648-660` | unless the roundings cross, no liquidation of a fresh SOL-path loan at its price commits as the next transaction in its slot; a liquidator who passes the guards is told that the position is healthy |
| `FreshLoans.FreshBtcLoanIsSafe` | `contracts/src/instructions/btc_lending.rs:451-461` | the same on the Bitcoin path, with the same error for a liquidator who passes the guards |
| `FreshLoans.MarginKeepsLoanSafe` | `contracts/src/instructions/lending.rs:648-660` | a collateral value whose margin between threshold and LTV is worth the LTV of one unit rules the crossing out: no liquidation commits as the next transaction |
| `FreshLoans.MarginKeepsBtcLoanSafe` | `contracts/src/instructions/btc_lending.rs:616-665` | the same on the Bitcoin path |
| `FreshLoans.FreshLoanLiquidatedAtOnce` | `contracts/src/instructions/lending.rs:298-716` | where the roundings cross it happens: from a consistent state a borrow of one unit commits and so does its liquidation, at one time and price |
| `SlotShelter.FreshLoanIsSafeInSlot` | `contracts/src/instructions/lending.rs:648-660` | unless the roundings cross, over a run no liquidation commits for the rest of a slot, from the vault's last borrow in it on, at the price of that borrow or a higher one, whatever else commits but a withdrawal from the vault |
| `SlotShelter.FreshBtcLoanIsSafeInSlot` | `contracts/src/instructions/btc_lending.rs:451-461` | the same on the Bitcoin path, from the vault's last borrow on, whatever else commits but the attestation of a smaller balance |
| `SlotShelter.AttestationExposesFreshBtcLoan` | `contracts/src/instructions/attest_btc_balance.rs:31-72` | that exception is needed: borrow, smaller attestation and liquidation commit in this order at one time and price |
| `SlotShelter.WithdrawalExposesFreshLoan` | `contracts/src/instructions/deposit_collateral.rs:87-134` | the exception on the SOL path is needed: borrow, withdrawal and liquidation commit in this order at one time and price |
| `Liquidations.SeizureSucceedsIff` | `contracts/src/instructions/lending.rs:668-702` | a seizure takes min(deposit, lamports above rent), leaves the vault rent-exempt and loses no lamport; it succeeds if and only if both are positive, the deposit with bonus fits 64 bits, no bonus would have to be paid, and the liquidator's balance does not overflow |
| `Liquidations.LiquidationSucceedsIff` | `contracts/src/instructions/lending.rs:603-716` | the exact conditions of a SOL-path liquidation; the subtraction from the pool's total never fails |
| `Liquidations.LiquidationTakes` | `contracts/src/instructions/lending.rs:662-702` | a committed liquidation pays the whole debt, removes the whole principal and the loan, and moves exactly the movable part of the deposit |
| `Liquidations.BonusIsNeverPaid` | `contracts/src/instructions/lending.rs:668-702` | in every consistent state no SOL-path liquidation commits from a vault that could move more than its deposit, if a bonus is due |
| `Liquidations.SurplusStopsLiquidation` | `contracts/src/instructions/lending.rs:668-702` | it happens: an unhealthy loan is liquidated from a vault holding its deposit and cannot be from one holding a lamport more |
| `Liquidations.BtcLiquidationSucceedsIff` | `contracts/src/instructions/btc_lending.rs:407-511` | the exact conditions of a Bitcoin liquidation; the guard on a liquidation in flight follows from the principal |
| `Liquidations.BtcLiquidationTakes` | `contracts/src/instructions/btc_lending.rs:451-516` | it pays the whole debt, promises the satoshis worth the debt at the feed's price with their bonus, or the whole attested balance if that is less, keeps the loan without principal and freezes the vault with time and sighash noted |
| `Balances.FinalisationSucceedsIff` | `contracts/src/instructions/btc_lending.rs:563-596` | a finalisation commits exactly for the admin, in flight, with at least one confirmation |
| `Balances.FinalisationTakes` | `contracts/src/instructions/btc_lending.rs:588-614` | it sets balance, slot, height, time and keeper of vault and attestation to what it reports, resets the vault, closes the loan and leaves everything else alone |
| `Balances.LastReportHolds` | `contracts/src/instructions/btc_lending.rs:590-606` | over a run, until the next attestation or finalisation of a vault both its copies of the balance are what the last one reported |
| `VaultEffects.BtcLendingCommits` | `contracts/src/instructions/btc_lending.rs:507-531` | what each committed loan instruction did to Bitcoin vaults and attestations: borrows and repayments nothing |
| `BtcProtocol.InFlightChange` | `contracts/src/instructions/btc_lending.rs:429-516` | initiation and finalisation are the only transactions that start and end a liquidation in flight, and verification the only one that makes a proof stand |
| `BtcProtocol.InFlightBlocksLoan` | `contracts/src/instructions/btc_lending.rs:95-104` | in flight no borrow, repayment or further liquidation of the vault commits |
| `BtcProtocol.FinalisationIsEnabled` | `contracts/src/instructions/btc_lending.rs:563-614` | a liquidation in flight can always be finalised by the keeper: the guard on outstanding debt never bites |
| `BtcProtocol.InFlightUntilFinalised` | `contracts/src/instructions/btc_lending.rs:570-596` | over a run a vault in flight stays so until a finalisation of it commits |
| `BtcProtocol.InitiationsAlternate` | `contracts/src/instructions/btc_lending.rs:429-438` | between two initiations on a vault there is a finalisation of it |
| `BtcProtocol.FinalisationsAlternate` | `contracts/src/instructions/btc_lending.rs:570-596` | between two finalisations there is an initiation |
| `BtcProtocol.FinalisationFollowsInitiation` | `contracts/src/instructions/btc_lending.rs:570-596` | every finalisation, the first included, follows an initiation with no other initiation or finalisation of the vault in between |
| `BtcProtocol.NothingCommitsInFlight` | `contracts/src/instructions/btc_lending.rs:257-259` | from an initiation to its finalisation no borrow, repayment or liquidation of the vault commits |
| `BtcProtocol.BorrowAfterFinalisationNeedsVerification` | `contracts/src/instructions/verify_btc_custody_proof.rs:25-50` | after a finalisation the next borrow of the vault follows a new successful verification |
| `VaultEffects.CustodyCommits` | `contracts/src/instructions/deposit_collateral.rs:26-134` | what each committed custody instruction needed and did to vault and protocol |
| `VaultEffects.CustodySucceedsIff` | `contracts/src/instructions/verify_custody_proof.rs:23-123` | in a consistent state a custody instruction of the SOL path commits if and only if its business conditions hold; proofs are pending or stand, none ever expires |
| `VaultEffects.BtcCustodySucceedsIff` | `contracts/src/instructions/attest_btc_balance.rs:31-72` | the same on the Bitcoin path, with the whole effect on vaults and attestations; the guard on the attested address never bites |
| `CustodyChain.ProofChange` | `contracts/src/instructions/verify_custody_proof.rs:23-123` | a standing proof stood before, unless this transaction verified it or refreshed one at most ten minutes old |
| `CustodyChain.StandingProofHasChain` | `contracts/src/instructions/verify_custody_proof.rs:29-115` | whenever a proof stands, there is a chain of one verification and refreshes, gaps at most 600 s, each with an accepted approval, with no liquidation or closing since, ending at its timestamp |
| `CustodyChain.UseRestsOnChain` | `contracts/src/instructions/lending.rs:311-323` | every committed deposit and borrow rests on such a chain whose last proof is at most 600 s old |
| `CustodyChain.UseWithinTwentyMinutes` | `contracts/src/integrations/ika.rs:283-320` | if the last approval of the chain a SOL-path deposit or borrow rests on is a demo one, it was recorded at most 1200 s before the use |
| `BtcWindow.StandingBtcProofRestsOn` | `contracts/src/instructions/verify_btc_custody_proof.rs:25-74` | a standing proof of a Bitcoin vault goes back to a committed verification with no finalisation since and a last committed proof at its timestamp, both with an accepted approval |
| `BtcWindow.BtcBorrowWithinTwentyMinutes` | `contracts/src/integrations/ika.rs:170-198` | every Bitcoin borrow, the first included, rests on such a proof at most 600 s old; a demo approval shown for it was recorded at most 1200 s before the borrow |
| `CustodyChain.LapsedVaultIsStuck` | `contracts/src/instructions/verify_custody_proof.rs:29-32` | a vault whose window lapsed while verified can neither deposit, borrow, verify nor refresh until it is liquidated or closed |
| `Freeze.StepSubdued` | `contracts/src/instructions/circuit_breaker.rs:22-114` | in a frozen protocol every transaction but the unfreezing one keeps the freeze and opens no loan, raises no principal, lowers no pool tokens, changes no deposit and starts no Bitcoin liquidation; no deposit, withdrawal, borrow or liquidation of either path commits |
| `Freeze.FrozenUntilUnfrozen` | `contracts/src/instructions/circuit_breaker.rs:108-114` | the same between any two states of a run, and for every transaction between them, until the protocol is unfrozen |
| `Freeze.FreezeLasts` | `contracts/src/instructions/trigger_risk_check.rs:113-116` | from a committed admin freeze or failed risk check on, until the protocol is unfrozen, all of that holds |
| `Freeze.RepaymentIgnoresFreeze` | `contracts/src/instructions/btc_lending.rs:246-323` | repayments of both paths and finalisations do exactly what they would do unfrozen |
| `Ledger.LedgerStep` | `contracts/src/instructions/deposit_collateral.rs:66-121` | only a liquidation moves the protocol's collateral total against the sum of deposits, by what it seized |
| `Ledger.TotalIsDepositsAndSeizures` | `contracts/src/instructions/lending.rs:696-700` | in every reachable state the total is the sum of open vaults' deposits plus everything seized so far |
| `Ledger.WithdrawalNeedsDepositOnly` | `contracts/src/instructions/deposit_collateral.rs:87-134` | in every reachable state a withdrawal succeeds exactly within the deposit of an unfrozen protocol: the subtraction from the total never fails |
| `Ledger.VaultsAreCounted` | `contracts/src/instructions/register_vault.rs:54-60` | in every reachable state the vault count is the number of registrations of both paths; closing does not lower it |
| `Refusals.RegisterRefused` | `contracts/src/instructions/register_vault.rs:32-70` | the checks of a registration in the order in which they decide, with their errors; passing all means committing |
| `Refusals.CloseRefused` | `contracts/src/instructions/close_vault.rs:15-40` | the same for closing a vault |
| `Refusals.VerifyRefused` | `contracts/src/instructions/verify_custody_proof.rs:29-52` | the same for a verification |
| `Refusals.RefreshRefused` | `contracts/src/instructions/verify_custody_proof.rs:79-108` | the same for a refresh |
| `Refusals.DepositRefused` | `contracts/src/instructions/deposit_collateral.rs:30-74` | the same for a deposit |
| `Refusals.WithdrawRefused` | `contracts/src/instructions/deposit_collateral.rs:91-121` | the same for a withdrawal |
| `Refusals.BreakerRefused` | `contracts/src/instructions/circuit_breaker.rs:22-114` | the same for the circuit breaker and the risk check |
| `Refusals.BorrowRefused` | `contracts/src/instructions/lending.rs:303-356` | the same for a borrow |
| `Refusals.BorrowBtcRefused` | `contracts/src/instructions/btc_lending.rs:87-159` | the same for a Bitcoin borrow |
| `Refusals.RepayRefused` | `contracts/src/instructions/lending.rs:459-521` | the same for a repayment |
| `Refusals.RepayBtcRefused` | `contracts/src/instructions/btc_lending.rs:247-305` | the same for a Bitcoin repayment |
| `Refusals.LiquidateRefused` | `contracts/src/instructions/lending.rs:603-702` | the same for a liquidation |
| `Refusals.LiquidateBtcRefused` | `contracts/src/instructions/btc_lending.rs:415-509` | the same for the initiation of a Bitcoin liquidation |
| `Refusals.FinalizeRefused` | `contracts/src/instructions/btc_lending.rs:570-585` | the same for its finalisation |
| `Refusals.RegisterBtcRefused` | `contracts/src/instructions/register_btc_vault.rs:42-115` | the same for the registration of a Bitcoin vault |
| `Refusals.AttestRefused` | `contracts/src/instructions/attest_btc_balance.rs:31-50` | the same for an attestation |
| `Refusals.ProveBtcRefused` | `contracts/src/instructions/verify_btc_custody_proof.rs:25-74` | the same for verification and refresh of a Bitcoin vault |
| `Program.Lend` | `contracts/src/instructions/btc_lending.rs:132-177` | the in-place draw on a pool account is the specified one, and the account is left as that says |
| `Program.Pay` | `contracts/src/instructions/btc_lending.rs:249-305` | the in-place payment on pool and position accounts is the specified one |
| `Program.Settle` | `contracts/src/instructions/lending.rs:648-667` | the debt, the health check and the transfer of a liquidator's payment are the specified ones |
| `Program.MoveCollateral` | `contracts/src/instructions/lending.rs:669-702` | the lamport moves and the deposit they leave are the specified ones |
| `Program.Store.RegisterVault` | `contracts/src/instructions/register_vault.rs:32-70` | registers a pending, empty vault and counts it, or fails and changes nothing |
| `Program.Store.CloseVault` | `contracts/src/instructions/close_vault.rs:15-40` | removes an empty vault of its owner, or fails and changes nothing |
| `Program.Store.VerifyCustodyProof` | `contracts/src/instructions/verify_custody_proof.rs:23-71` | sets status and time of the proof after all guards, or fails with the first failing guard's error and changes nothing |
| `Program.Store.RefreshCustodyProof` | `contracts/src/instructions/verify_custody_proof.rs:73-123` | sets the time of a standing, unexpired proof, or fails likewise |
| `Program.Store.DepositCollateral` | `contracts/src/instructions/deposit_collateral.rs:26-85` | adds to the deposit and to the protocol total, or fails likewise |
| `Program.Store.WithdrawCollateral` | `contracts/src/instructions/deposit_collateral.rs:87-134` | takes off both, or fails likewise |
| `Program.Store.CircuitBreakerFreeze` | `contracts/src/instructions/circuit_breaker.rs:22-46` | sets the vault's and the protocol's flag, or fails likewise |
| `Program.Store.AdminUnfreeze` | `contracts/src/instructions/circuit_breaker.rs:63-85` | clears the vault's flag only, or fails likewise |
| `Program.Store.UnfreezeProtocolState` | `contracts/src/instructions/circuit_breaker.rs:108-114` | clears the protocol's flag for any signer |
| `Program.Store.TriggerRiskCheck` | `contracts/src/instructions/trigger_risk_check.rs:51-130` | sets both flags if the check failed, else changes nothing |
| `Program.Store.Borrow` | `contracts/src/instructions/lending.rs:298-410` | accrual, checks in the program's order, draw and new position are the specified step, or the first failing check's error and no change |
| `Program.Store.Repay` | `contracts/src/instructions/lending.rs:458-542` | accrual, payment and closing are the specified step, or its error and no change |
| `Program.Store.Liquidate` | `contracts/src/instructions/lending.rs:603-716` | payment, seizure and closing are the specified step, or its error and no change |
| `Program.Store.RegisterBtcVault` | `contracts/src/instructions/register_btc_vault.rs:42-115` | registers a vault and its empty attestation, or fails and changes nothing |
| `Program.Store.AttestBtcBalance` | `contracts/src/instructions/attest_btc_balance.rs:31-72` | writes the attested balance to attestation and vault, or fails and changes nothing |
| `Program.Store.VerifyBtcCustodyProof` | `contracts/src/instructions/verify_btc_custody_proof.rs:25-50` | sets status and time of the proof, or fails and changes nothing |
| `Program.Store.RefreshBtcCustodyProof` | `contracts/src/instructions/verify_btc_custody_proof.rs:52-74` | sets the time of a standing proof, or fails and changes nothing |
| `Program.Store.BorrowBtc` | `contracts/src/instructions/btc_lending.rs:82-201` | the specified step, or its error and no change |
| `Program.Store.RepayBtc` | `contracts/src/instructions/btc_lending.rs:246-323` | the specified step with repay all, or its error and no change |
| `Program.Store.LiquidateBtc` | `contracts/src/instructions/btc_lending.rs:407-531` | payment, wiped principal and frozen vault are the specified step, or its error and no change |
| `Program.Store.FinalizeBtcLiquidation` | `contracts/src/instructions/btc_lending.rs:563-614` | unfreezes and resets the vault, rewrites the attestation and closes the loan, or fails and changes nothing |
| `Program.Store.Execute` | `contracts/src/lib.rs:25-343` | every transaction on the stored accounts is the transition all the laws above are about |
| `Approvals.DemoCreateMessageApproval` | `contracts/src/instructions/demo_helpers.rs:46-73` | fills a 49-byte account with exactly the demo layout; another length is refused and left untouched |
| `Approvals.LeBytesRoundTrip` | `contracts/src/instructions/demo_helpers.rs:60-70` | reading back the eight little-endian bytes of a signed 64-bit time gives the time |
| `Approvals.LayoutFields` | `contracts/src/instructions/demo_helpers.rs:56-70` | the demo layout by its offsets |
| `Approvals.LeBytesMeaning` | `contracts/src/instructions/demo_helpers.rs:69` | the eight bytes of a time are its two's complement, the lowest first |
| `Approvals.WrittenApprovalParses` | `contracts/src/integrations/ika.rs:89-113` | both parsers accept a written approval if and only if it is signed, matches and is at most 600 s old, and return its id and time |
| `Approvals.AcceptedDemoWasWritten` | `contracts/src/integrations/ika.rs:283-320` | conversely a demo approval either parser accepts is, after its first 8 bytes, one the writer writes |
| `Approvals.ParsersDiffer` | `contracts/src/integrations/ika.rs:127-201` | the two parsers return the same approval except on two exactly described families of buffers |
| `Approvals.RealApprovalParses` | `contracts/src/integrations/ika.rs:141-167` | a real approval, laid out in literals, is accepted by the SOL parser exactly when version and status are 1 and the dWallet matches, by the Bitcoin parser also only with scheme 1; both return its id and time 0, and the error tells why one is refused |
| `Approvals.RealBuffers` | `contracts/src/integrations/ika.rs:251-258` | every buffer of 142 bytes or more with 14 in front has that layout; a shorter one is refused, but for a demo approval on the Bitcoin path |
| `Approvals.AcceptedRealIsLayout` | `contracts/src/integrations/ika.rs:251-281` | conversely a real approval either parser accepts is such a buffer; any buffer that is neither is refused |
| `Base58.AlphabetIs` | `web/lib/ika-flow.ts:251-253` | the alphabet is the 58 ASCII letters and digits other than zero, capital o, capital i and small l, ascending |
| `Base58.Accumulate` | `web/lib/ika-flow.ts:265-274` | one round of the carry loop and the push loop multiplies the little-endian number by 58 and adds the digit, keeps a nonzero top cell and adds at most one byte |
| `Base58.CarryStep` | `web/lib/ika-flow.ts:266-270` | the inner step keeps the carry at most 57 and the number still to be computed unchanged |
| `Base58.Bs58Decode` | `web/lib/ika-flow.ts:250-277` | the loops compute base conversion through natural numbers, or report the first foreign character; never more bytes than characters |
| `Base58.RefusalNamesFirst` | `web/lib/ika-flow.ts:257-261` | a string with a character outside the alphabet is refused with the first such character |
| `Base58.DecodedForm` | `web/lib/ika-flow.ts:250-277` | one zero byte for each leading 1, then the minimal base-256 form of the same number |
| `Base58.EncodeDecode` | `web/lib/ika-flow.ts:250-277` | decoding succeeds exactly on strings over the alphabet, and encoding gives the string back |
| `Base58.DecodeEncode` | `web/lib/ika-flow.ts:250-277` | every byte sequence is the decoding of its encoding |
| `Decimals.ParseOfFormatted` | `packages/sdk/src/lending/accounts.ts:252-264` | parsing a printed amount gives the amount, for every natural number |
| `Decimals.FormattedIsCanonical` | `packages/sdk/src/lending/accounts.ts:252-257` | a printed amount has no superfluous leading zero, at most six places and no trailing zero, and denotes the amount |
| `Decimals.ParseDecimalText` | `packages/sdk/src/lending/accounts.ts:259-264` | decimal text in any white space parses to its value truncated to six places |
| `Decimals.NumberIsDecimal` | `packages/sdk/src/lending/accounts.ts:259-264` | what digits denote, digit by digit |
| `Decimals.SignedDecimalText` | `packages/sdk/src/lending/accounts.ts:259-264` | a sign counts for the whole part only: the fraction of a negative text is added |
| `Decimals.PrefixedText` | `packages/sdk/src/lending/accounts.ts:261` | text with the prefix of another base is read in that base |
| `Decimals.ForeignDigitRefused` | `packages/sdk/src/lending/accounts.ts:261` | a numeral with a character that is no digit is refused |
| `Decimals.FormatOfParsed` | `packages/sdk/src/lending/accounts.ts:252-264` | printing what was parsed gives the canonical numeral of the text truncated to six places |

## Left out

- Several pools, other mints and the comparison of a loan's asset with the pool's: one pool carries all the laws.
- Price feed administration, `reject_unverified_deposit`, `update_backing_state`, `approve_custody_signature` and
  `initialize_risk_state`: they hold no loan, proof or collateral state of the core.
- Program.Store.TriggerRiskCheck: leaves out the risk-state account, that is the guards on its vault and its
  ciphertexts and the recorded last result, because nothing else in the core reads them; the outcome of the check
  is an input.
- The dWallet public key of a Bitcoin vault and the block hash of an attestation: stored, read by no modelled
  instruction.
- Health ciphertexts of loans: opaque handles that no modelled instruction reads.
- The Ika, SPL token and system programs: a transfer is a guarded balance update, the approval call succeeds or aborts.
- `parse_real_message_approval_for_dwallet`: it checks the same bytes as the two parsers modelled.
- Address derivation, bumps and hashes: library code; the seeds stand for the address.
- Events beyond their amounts, rent of opened and closed accounts, and logging.
- Bitcoin addresses are byte sequences of their own length, not padded buffers with a length beside them.
- The stored account map: handlers change objects in place, but stores are maps of records, so the model does not
  capture two live objects for one account; the program never has them.
- `demo_create_ciphertext` and the rest of the demo helpers: one byte written to an account.
- Account decoders, instruction builders, pages and keepers: field copying and input or output.
- Base58.Bs58Decode: works on sequences of characters, so a character outside the basic plane is reported by its
  first code unit; the cells are a sequence updated at an index, not a shared array.
- Decimals.FormatLgUsd: on negative amounts it is modelled as written but no law is stated, because amounts on chain
  are unsigned.
