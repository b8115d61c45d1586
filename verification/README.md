# The money core of the bank, verified

This Dafny project models the part of the credit management system that moves money: savings
accounts, credit accounts, loans with their installment rows, the transaction ledger, the manual
loan workflow, and the nightly jobs (interest, overdue marking, late fees, defaults, tiers). Every
amount is recorded in up to four places, each with its own update code. The theorems say that
these books agree in every reachable state, which facts are final, and what the day-by-day jobs
amount to over whole runs.

## How it is organised

- `Model.dfy`, `Money.dfy`, `Calendar.dfy`, `Sums.dfy`: the tables, the pure rules and constants,
  decimal rounding, JavaScript month arithmetic, folds over tables.
- `Rules.dfy`: limits, rates, fees, terms and the calendar in plain numbers, and that the rules above
  compute exactly these; the results are stated with them.
- `Operations.dfy`: one function per service call, from the books before to the books after.
- `Bank.dfy`: the services as they work, a class whose methods update the tables step by step in
  the order of the source. Each is proved to have exactly the effect of its function, and serving
  any list of events is proved to be a run.
- `Invariants.dfy`, `Tables.dfy`, `Preservation.dfy`: the invariant and its preservation by every step.
- `Runs.dfy`, `History.dfy`: runs (any finite sequence of requests, clock readings and jobs, in any
  order) and what may change between two moments of one run.
- `Effects.dfy`: exactly which requests are accepted, and everything an accepted one changes.
- `Theorems.dfy`, `LoanTheorems.dfy`, `Conservation.dfy`, `Nightly.dfy`, `Limits.dfy`,
  `LateFees.dfy`, `InterestBook.dfy`, `Tiers.dfy`, `Billing.dfy`, `Overpayment.dfy`, `Payoff.dfy`,
  `Numbers.dfy`, `References.dfy`, `Identifiers.dfy`: the results.
- `Scenarios.dfy`, `Counterexamples.dfy`: concrete runs, and the surprising states they reach.

## Modelling decisions

- Money is whole cents (all columns are decimal(15,2)); rounding at save is the function
  `Money.Round`, half away from zero, on exact fractions. JavaScript floats are treated as exact.
  Request amounts arrive in whole cents.
- A service call is one atomic step with one clock reading; the clock never moves back.
- Mails and other notifications always succeed and have no effect.
- Customers are numbered in order of registration; rows of a table are identified by their
  position, which is also their order of creation.
- The clock shows a local date and milliseconds since midnight. Due dates are kept as day counts:
  between midnights the floored difference of milliseconds is the difference of day counts, and a
  due time lies before today's midnight exactly when its day lies before today
  (`Calendar.DayCountsSuffice`).
- The default job penalises a customer through the user object read with each row. Whether rows of
  one customer share that object is up to the ORM, so it is an input of the job; the results hold
  both ways, and `LoanTheorems.PenaltyIff` says when it matters.
- The interest job may be started any number of times. Its query names no order, so each start comes
  with one (each account once), and the results hold for every order. A second snapshot of an account
  on one day is refused by the unique index, and the refusal ends the job, with that account already
  saved.
- Reading a row's relations never fails: a missing customer or credit account is reported before
  anything is written.
- A repayment whose debit fails rolls back the loan and the row, which were written in the unit of
  work, but not the transaction, which was not: it stays pending.

## What the code does, where one might expect otherwise

- A customer who pays every row exactly as billed need not end with a fully paid loan: that holds if
  and only if the rounded installments add up to the total (`Billing.PayingAsBilledIff`, and for
  every run `Billing.FullyPaidAsBilledIff`). 1,000 francs over 12 months leave four cents owed for
  ever; over 24 months the last billed payment is refused.
- A loan can be fully paid in one payment while later rows stay open; the default job then puts it
  into default. It stays fully paid for ever if and only if no row is open
  (`Overpayment.FullyPaidStaysIff`).
- A partially paid row is never offered again, and a payment may leave less than the smallest later
  payment. A loan in repayment can still be paid off if and only if it owes at least that much and
  has an open row (`Payoff.CanStillBePaidOffIff`): paying 104.50 of 105 francs leaves a loan that
  nobody can clear and that the jobs put into default (`Payoff.FiftyCentsCannotBePaid`).
- An active loan stays active for ever if and only if no row is open (`Overpayment.ActiveStaysIff`).
- Late fees are charged but never collected: without the fee runs every balance, entry, debt, status
  and answer is the same (`LateFees.FeesAreNeverCollected`).
- Manually approved loans get no schedule and can never be repaid, and paying them out does not look
  at the available credit, which can go below zero (`Theorems.CreditGoesNegativeIff`,
  `Counterexamples.ManualLoansOverdrawTheCredit`).
- Payments go to rows not yet due before overdue ones (`LoanTheorems.RepaymentTargets`,
  `Counterexamples.OverdueRowIsPassedOver`).
- The recorded `balanceAfter` of a repayment is the balance before it; for every other kind it is
  the real one (`Theorems.RecordedAfterIsTheBalanceIff`).
- A second start of the interest job on a month end credits the accounts up to the first refused
  snapshot once more (`InterestBook.JobCreditsIff`, `Counterexamples.SecondStartCreditsAgain`).
- Transaction references are unique in every run exactly when the process clock is in UTC
  (`Identifiers.LedgerReferencesUniqueIffUtc`); the jobs themselves are scheduled in Kigali time.
- Repaid interest becomes available credit, which can pass the limit (`Theorems.CreditExceedsLimitIff`).
- The tier job is called an upgrade but also downgrades, exactly when an account no longer meets its
  own tier (`Tiers.TierMovesIff`, `Counterexamples.TierRisesAndFalls`).

## Model

| member | source | states |
|---|---|---|
| Effects.RepayIff | apps/customer-service/src/modules/loan/loan.service.ts:363-512 | In every reachable state: a repayment that may be made takes exactly the amount from the named account, or else from the loan's own, with one completed entry for that account, and credits the customer's credit line alone; if that account does not hold the amount, one pending entry for it is all that remains; anything else is refused without a trace |
| Effects.RequestIff | apps/customer-service/src/modules/loan/loan.service.ts:72-233 | In every reachable state a request is accepted if and only if the amount is at least one franc and within the available credit, the tenor is 3, 6, 12 or 24 months, the customer has no defaulted loan, and a named account is the customer's own and active; the loan is linked to the named or else the earliest active account, with total, rows, decision and status in numbers, and exactly when approved at once its principal goes to that account alone |
| Effects.WithdrawIff | apps/customer-service/src/modules/savings/savings.service.ts:169-245 | In every reachable state a withdrawal is accepted if and only if the account is the customer's own and active, holds the amount, and the amounts withdrawn that day and that month stay within 50,000, 200,000, 1,000,000 or 5,000,000 and 500,000, 2,000,000, 10,000,000 or 50,000,000 francs by tier; it moves that balance alone |
| Effects.DepositIff | apps/customer-service/src/modules/savings/savings.service.ts:75-131 | The same for deposits, within 100,000, 500,000, 2,000,000 or 10,000,000 francs a day by tier |
| Effects.DisburseIff | apps/customer-service/src/modules/loan/loan.service.ts:235-307 | In every reachable state a loan can be paid out if and only if it was approved by hand and not paid out yet; the whole principal goes to the linked account, with its entry and the customer's credit line |
| Effects.ReviewIff | apps/admin-service/src/modules/loan-management/loan-management.service.ts:85-160 | Approval and rejection are accepted if and only if the loan waits for review, and change its two status fields and nothing else |
| Effects.CloseIff | apps/customer-service/src/modules/savings/savings.service.ts:362-411 | In every reachable state an account is closed if and only if it is empty, its customer has two active accounts and every loan linked to it has come to an end; nothing else changes |
| Effects.LimitIff | apps/customer-service/src/modules/credit/credit.service.ts:78-110 | A limit is set if and only if it covers what is borrowed, to the nearest limit between 50,000 and 10,000,000 francs, and what is borrowed stays unavailable |
| Effects.RegistrationOpens | apps/customer-service/src/modules/credit/credit.service.ts:25-60 | A new customer has score 300, is unverified, and gets an empty BASIC account at 5% and the nearest admissible credit limit, all of it available |
| Effects.CustomerIff | apps/admin-service/src/modules/customer-management/customer-management.service.ts:345-361 | A score of 300 to 850 is set, an identity verified, or an account opened, for an existing customer and for that customer alone |
| Effects.AdvanceIff | apps/crons-service/src/modules/banking/helpers/banking.helpers.ts:6-11 | The model's clock moves to a reading if and only if its instant, in milliseconds, is no earlier |
| Rules.FeeInNumbers | apps/crons-service/src/modules/banking/helpers/late-fee.helper.ts:8-23 | The stored late fee is 1,000 francs or the rounded 2% of the installment, whichever is more, and the rounded 5% of the principal whenever that is less; it is positive |
| Rules.TermsInNumbers | apps/customer-service/src/modules/loan/loan.service.ts:178-180 | Total and installment are the rounded 105%, 108%, 112% or 118% of the principal, whole and in 3, 6, 12 or 24 parts |
| Rules.YearStart | apps/crons-service/src/modules/banking/helpers/banking.helpers.ts:6-11 | The day count of a new year has a closed form: 365 days a year, and one more for every fourth year but not for every hundredth and yet for every four hundredth |
| Rules.LastDayIff | apps/crons-service/src/modules/banking/helpers/banking.helpers.ts:28-32 | A day is the last of its month exactly if its number is the length of the month |
| Theorems.ThreeBooksAgree | apps/customer-service/src/modules/credit/credit.service.ts:168-188 | In every reachable state a customer's borrowed and repaid totals equal the sums over the loan table and over the completed ledger entries, and the outstanding balance is their difference |
| Theorems.LoanAndLedgerAgree | apps/customer-service/src/modules/loan/loan.service.ts:272-305 | Each loan is disbursed at most once and in full, and its completed repayments equal both its rows' payments and what its outstanding amount lost |
| Theorems.CreditBounds | apps/customer-service/src/modules/credit/credit.service.ts:84-105 | Available credit is limit less borrowed plus repaid, negative by at most the manually lent principal, above the limit by at most the interest of lent loans |
| Theorems.AutoOnlyStaysCovered | apps/customer-service/src/modules/loan/loan.service.ts:149-155 | Without manually approved loans the available credit is never negative, through every limit change and clamp |
| Theorems.CreditGoesNegativeIff | apps/customer-service/src/modules/loan/loan.service.ts:235-295 | In every reachable state, one step takes a non-negative available credit below zero if and only if it pays out an approved loan of more than is available |
| Theorems.CreditExceedsLimitIff | apps/customer-service/src/modules/credit/credit.service.ts:180-184 | In every reachable state, one step takes the available credit above the limit if and only if it is an accepted repayment of more than the account has outstanding |
| Counterexamples.ManualLoansOverdrawTheCredit | apps/admin-service/src/modules/loan-management/loan-management.service.ts:85-105 | A concrete run: two requests for the whole credit line, approved by hand and disbursed, leave the available credit at minus the limit, with a manual loan disbursed |
| Theorems.LedgerReplays | apps/customer-service/src/modules/savings/savings.service.ts:332-349 | Every balance is the signed fold of the completed entries and is never negative |
| Theorems.EntriesStayWithOneCustomer | apps/customer-service/src/modules/loan/loan.service.ts:68-122 | Every entry moves an account of its own customer, and loan money belongs to a loan of that same customer |
| Theorems.EntriesChain | apps/customer-service/src/modules/transaction/transaction.service.ts:44-95 | Consecutive completed entries of an account chain: the next starts at the previous start plus its signed amount |
| Theorems.RecordedAfterIsTheBalanceIff | apps/customer-service/src/modules/transaction/transaction.service.ts:62-76 | The recorded balance afterwards is the real one if and only if the entry is not a loan repayment, which records the balance before it once more |
| Conservation.MoneyIsConserved | apps/customer-service/src/modules/transaction/transaction.service.ts:97-113 | All savings together equal deposits less withdrawals plus credited interest plus what all customers owe on their credit accounts |
| LoanTheorems.StatusTellsWhatIsPaid | apps/customer-service/src/modules/loan/loan.service.ts:476-488 | Outstanding plus the rows' payments is the total; the status says whether nothing, a part or everything is paid |
| LoanTheorems.ReachableStatusPairs | apps/customer-service/src/modules/loan/loan.service.ts:189-230 | The reachable combinations of approval, status and schedule length; auto-approved principals respect the threshold |
| LoanTheorems.TermsInEveryState | apps/customer-service/src/modules/loan/loan.service.ts:178-180 | In every reachable state a loan's total and installments are those of its principal and tenor in numbers |
| LoanTheorems.ApprovalIsMonotone | apps/customer-service/src/modules/loan/loan.service.ts:674-697 | A smaller amount, a better score or a verified identity never makes the decision worse |
| LoanTheorems.RowStatusTellsWhatIsPaid | apps/customer-service/src/modules/loan/loan.service.ts:461-474 | A row's status is determined by its payment, due amount and fee, in both directions; the fee is none or the one late fee in numbers |
| LoanTheorems.ScheduledRowsAreASuffix | apps/crons-service/src/modules/banking/repositories/repayment.queries.ts:8-23 | Scheduled rows always form a suffix of the schedule |
| LoanTheorems.RepaymentSettlesOneRow | apps/customer-service/src/modules/loan/loan.service.ts:406-488 | A successful repayment settles exactly one open row for good, lowers the outstanding amount by the payment, and makes the loan fully paid exactly when it covers it |
| LoanTheorems.AtMostTenorRepayments | apps/customer-service/src/modules/loan/loan.service.ts:406-431 | Over any run a loan accepts at most as many repayments as it has months: completed repayments are the settled rows |
| LoanTheorems.RepaymentAcceptedIff | apps/customer-service/src/modules/loan/loan.service.ts:363-431 | In every reachable state a repayment is accepted if and only if the loan is the customer's and in repayment, the amount lies between the minimum and the outstanding amount, some row is open, a named account is the customer's own and active, and the account holds the amount |
| LoanTheorems.RepaymentTargets | apps/customer-service/src/modules/loan/loan.service.ts:406-431 | An accepted repayment changes exactly one row: the earliest scheduled one, or the earliest overdue one if and only if no row is scheduled |
| LoanTheorems.RepaymentPassesOverOverdueRows | apps/customer-service/src/modules/loan/loan.service.ts:406-425 | While a row is scheduled, no repayment changes an overdue row |
| Counterexamples.OverdueRowIsPassedOver | apps/customer-service/src/modules/loan/loan.service.ts:406-425 | A concrete run: a payment settles the second row while the first stays overdue |
| Billing.FullyPaidAsBilledIff | apps/customer-service/src/modules/loan/loan.service.ts:649-671 | In every reachable state, a loan whose repayments so far were all exactly one installment is fully paid if and only if every row was paid and the installments add up to the total; below the total it is active once all rows are paid, above it the last row is never paid |
| Billing.PayingAsBilledIff | apps/customer-service/src/modules/loan/loan.service.ts:461-488 | A customer of a fresh loan with enough money pays each row as billed: the loan ends fully paid if and only if the installment can be paid at all and the installments add up to the total; below, the difference stays owed with no row open; above, the last payment is refused and one row stays open |
| Billing.FourCentsStayOwed | apps/customer-service/src/modules/loan/loan.service.ts:649-671 | A concrete run of 12 payments as billed leaves four cents owed on an active loan in every continuation |
| Billing.LastBilledPaymentIsRefused | apps/customer-service/src/modules/loan/loan.service.ts:393-398 | A concrete run in which the 24th payment as billed is refused as exceeding the outstanding amount |
| LoanTheorems.StuckLoanStaysActive | apps/customer-service/src/modules/loan/loan.service.ts:425-431 | An active loan without an open row stays active with the same outstanding amount and rows in every continuation |
| Payoff.CanStillBePaidOffIff | apps/customer-service/src/modules/loan/loan.service.ts:382-431 | A reachable loan in repayment is fully paid in some continuation if and only if it owes at least the smallest payment and one of its rows is open |
| Payoff.FiftyCentsCannotBePaid | apps/customer-service/src/modules/loan/loan.service.ts:392-397 | A concrete run leaves fifty cents owed with two open rows: no continuation pays the loan off, and some continuation puts it into default |
| LoanTheorems.ManualLoansCannotBeRepaid | apps/customer-service/src/modules/loan/loan.service.ts:224-230 | A repayment of a manually approved loan is always refused and changes nothing |
| LoanTheorems.FailedRepaymentFrame | apps/customer-service/src/modules/loan/loan.service.ts:437-495 | A repayment refused for insufficient balance adds one pending entry and changes no other table, period total, replay, customer or loan total |
| LoanTheorems.LedgerIsAppendOnly | apps/customer-service/src/modules/transaction/transaction.service.ts:81-95 | Entries once written never change again, so a pending one never completes |
| LoanTheorems.DefaultIsExact | apps/crons-service/src/modules/banking/services/loan-cron.service.ts:108-145 | Right after the default job of any run a loan is in default if and only if one of its rows is overdue by 31 days or more |
| LoanTheorems.PenaltyIff | apps/crons-service/src/modules/banking/services/loan-cron.service.ts:139-156 | Scores stay within 0 to 850; the default job takes 50 points off for each loan of the customer it puts into default, or 50 in all when the rows do not share their user object, never below 0; object sharing matters if and only if it defaults two or more and the score exceeds one penalty |
| LoanTheorems.DefaultIsFinal | apps/customer-service/src/modules/loan/loan.service.ts:157-170 | Default is absorbing in every continuation and the customer's number of loans stays the same |
| LoanTheorems.OneNightDefaultsIff | apps/crons-service/src/modules/banking/services/loan-cron.service.ts:37-145 | Whatever nights were skipped, one night of the three jobs defaults a loan exactly when an open row is 31 or more days late |
| Overpayment.FullyPaidWithOpenRows | apps/customer-service/src/modules/loan/loan.service.ts:478-486 | A concrete run reaches a fully paid loan with two open rows, and available credit above the limit by the interest paid |
| Overpayment.OpenRowDefaults | apps/crons-service/src/modules/banking/services/loan-cron.service.ts:125-145 | From any reachable state, a loan of any status with an open row is defaulted by the jobs of any day 31 or more days after that row was due |
| Overpayment.CanDefaultIff | apps/crons-service/src/modules/banking/services/loan-cron.service.ts:108-145 | Some continuation leaves a loan in default if and only if it is there already or one of its rows is open |
| Overpayment.FullyPaidStaysIff | apps/crons-service/src/modules/banking/services/loan-cron.service.ts:108-145 | A reachable fully paid loan stays fully paid in every continuation if and only if none of its rows is open |
| Overpayment.ActiveStaysIff | apps/customer-service/src/modules/loan/loan.service.ts:425-431 | A reachable active loan stays active in every continuation if and only if none of its rows is open |
| LoanTheorems.ClosureSafety | apps/customer-service/src/modules/savings/savings.service.ts:380-398 | A loan in progress always points at an active account of its own borrower, so the re-link branch of the disbursement is never taken |
| LoanTheorems.ClosedAccountsStayClosed | apps/customer-service/src/modules/savings/savings.service.ts:400-411 | A closed account is empty and identical in every continuation |
| LoanTheorems.AlwaysAnActiveAccount | apps/customer-service/src/modules/savings/savings.service.ts:365-378 | Every customer always has an active savings account |
| LoanTheorems.ScheduleAddsUp | apps/customer-service/src/modules/loan/loan.service.ts:649-671 | The rounded installments sum to the exact total within half a cent per row |
| LoanTheorems.WholeFrancSchedule | apps/customer-service/src/modules/loan/loan.service.ts:178-180 | For a principal in whole francs the stored total is exact and the schedule misses it by at most half a cent per row |
| LoanTheorems.ScheduleDates | apps/customer-service/src/modules/loan/loan.service.ts:655-656 | Stored rows are due 28 to 31 days apart, the last on the loan's due date, despite month overflow |
| Calendar.SerialIsCalendarOrder | apps/customer-service/src/modules/loan/loan.service.ts:655-656 | The day count orders due dates as the calendar does and identifies them |
| Calendar.DayCountsSuffice | apps/crons-service/src/modules/banking/helpers/banking.helpers.ts:6-11 | Between midnights the floored difference of milliseconds is the difference of day counts, and a time lies before a midnight if and only if its day does |
| Calendar.MonthlyGap | apps/customer-service/src/modules/loan/loan.service.ts:186-187 | Adding one month more moves the date by the length of the month passed, with or without overflow |
| History.StepEvolves | apps/customer-service/src/modules/loan/loan.service.ts:382-390 | One step respects the loan life cycle, never touches a settled row or a charged fee, keeps closed accounts frozen, only appends to the ledger, and bars defaulters from new loans |
| History.ContinueEvolves | apps/customer-service/src/modules/loan/loan.service.ts:382-390 | The same between any two moments of a run |
| History.ChargeLoanEvolves | apps/crons-service/src/modules/banking/services/loan-cron.service.ts:76-89 | Repeated fee runs never compound, change or remove a fee |
| Nightly.NightlyClosedForm | apps/crons-service/src/modules/banking/services/loan-cron.service.ts:37-106 | If no night is skipped, after tonight's jobs every open row has exactly the status and fee that today's date prescribes, however payments fell in between |
| Nightly.NightlyDefaults | apps/crons-service/src/modules/banking/constants/cron-jobs.config.ts:7-21 | And after the default job a loan is in default exactly when an open row is 31 or more days late |
| LateFees.FeeIff | apps/crons-service/src/modules/banking/services/loan-cron.service.ts:64-106 | For any schedule of the jobs, a row carries the late fee, written out in numbers, if some fee run met it overdue 8 to 30 days late, and no fee otherwise; never more than the rounded 5% of the principal |
| LateFees.FeesAreNeverCollected | apps/customer-service/src/modules/loan/loan.service.ts:455-488 | A run and the same run without its fee runs agree in every balance, entry, credit account, customer and loan, in every row up to the fee and paid or partly paid, and in the answer to any next request |
| Limits.LimitsHoldOverRuns | apps/customer-service/src/modules/savings/savings.service.ts:92-105 | Over any run, the amounts of the completed deposits of a day and withdrawals of a day or month never exceed the largest limit, in numbers, of a tier the account held in that period |
| Limits.StepWithinLimit | apps/customer-service/src/modules/transaction/transaction.service.ts:200-249 | One step leaves a period's amounts alone or keeps them within the limit in force |
| Limits.PeriodTotalIsBooked | apps/customer-service/src/modules/transaction/transaction.service.ts:200-249 | The totals the services ask for are the sums of the amounts of the period's completed entries of that kind and account |
| InterestBook.InterestIsConserved | apps/crons-service/src/modules/banking/services/savings-cron.service.ts:48-71 | Over any run, credited plus accrued interest is the sum of the daily interests as rounded |
| InterestBook.StoredSumsRoundAlike | apps/crons-service/src/modules/banking/services/savings-cron.service.ts:52-56 | Rounding the stored amount plus the exact daily interest at save is adding the rounded daily interest |
| InterestBook.InterestIsAccurate | apps/crons-service/src/modules/banking/helpers/interest.helper.ts:6-12 | Over any run, credited plus accrued interest lies within half a cent per accrual of the sum of balance times 5%, 5.5%, 6% or 7% by tier over 365 days |
| InterestBook.JobInNumbers | apps/crons-service/src/modules/banking/services/savings-cron.service.ts:48-98 | In every reachable state and visiting order, one start of the job gives an account in its turn the day's interest in numbers, rounded to cents, and at a month end moves everything accrued to the balance; any other account stays as it is |
| InterestBook.JobCreditsIff | apps/crons-service/src/modules/banking/services/savings-cron.service.ts:48-71 | In any state and any visiting order, one start of the job credits an account if and only if it is a month end, the account is active and earns interest, and no account before it ended the job by a refused snapshot |
| InterestBook.NextTurn | apps/customer-service/src/modules/savings/entities/daily-balance-snapshot.entity.ts:7 | While no snapshot was refused the next account of the visiting order gets its turn, and the job ends with it if and only if the account already has a snapshot of the day |
| Counterexamples.SecondStartCreditsAgain | apps/crons-service/src/modules/banking/services/savings-cron.service.ts:57-70 | A concrete run: two starts on a month end credit the same account twice |
| InterestBook.OneCreditPerMonth | apps/crons-service/src/modules/banking/constants/cron-jobs.config.ts:1-6 | If the job is started at most once a day, as it is scheduled, an account is credited interest at most once in a calendar month, on the month's last day |
| Tiers.AverageBetweenExtremes | apps/crons-service/src/modules/banking/helpers/interest.helper.ts:17-20 | The average lies between the smallest and largest snapshot |
| Tiers.TierIsMonotone | apps/crons-service/src/modules/banking/services/tier-cron.service.ts:82-103 | The tier never falls for larger snapshots, an older account or a verified customer |
| Tiers.TierThresholds | apps/crons-service/src/modules/banking/constants/banking.constants.ts:24-39 | The decision reaches a tier if and only if that tier's own average, age and identity requirements are met |
| Tiers.TierMovesIff | apps/crons-service/src/modules/banking/services/tier-cron.service.ts:35-115 | In every reachable state an evaluation sets the highest tier whose average over the last 90 days, age in months of 30 days and identity requirements, in numbers, an active account with snapshots meets, with that tier's rate; so it lowers a tier if and only if its own requirements are no longer met, and raises it if and only if those of a higher one are |
| Counterexamples.TierRisesAndFalls | apps/crons-service/src/modules/banking/services/tier-cron.service.ts:35-80 | A concrete run of savings takes an account to SILVER, and the evaluation after a withdrawal back to BASIC |
| Tiers.SecondEvaluationIsIdle | apps/crons-service/src/modules/banking/services/tier-cron.service.ts:51-77 | A second evaluation on the same data changes nothing |
| Tiers.EvaluationForgetsTheOldTier | apps/crons-service/src/modules/banking/services/tier-cron.service.ts:105-115 | The outcome does not depend on the tier held before, so the job downgrades as well |
| Tiers.RateMatchesTier | apps/customer-service/src/modules/savings/savings.service.ts:55-68 | In every reachable state the interest rate is the tier's |
| Tiers.SnapshotsAreDaily | apps/customer-service/src/modules/savings/entities/daily-balance-snapshot.entity.ts:7 | However often the job is started, the snapshots of an account lie on strictly increasing days |
| Tiers.OneSnapshotEach | apps/crons-service/src/modules/banking/services/savings-cron.service.ts:63-70 | The first start of the job on a day takes exactly one snapshot of each active account, with its balance after any credit, in whatever order it visits them |
| Tiers.AtMostNinetyBalances | apps/crons-service/src/modules/banking/services/tier-cron.service.ts:52-57 | A tier is decided on at most 90 balances |
| Numbers.ParseIntRoundTrip | apps/customer-service/src/modules/loan/loan.service.ts:708-714 | Parsing a padded number gives it back, for every natural number and width |
| Numbers.PrintRoundTrip | apps/customer-service/src/modules/savings/savings.service.ts:447-454 | A printed savings, credit or loan number gives back its sequence and its year |
| Numbers.PrintedNumbers | apps/customer-service/src/modules/loan/loan.service.ts:699-715 | What the numbers look like: SAV-007-2025, CRD-1234-2025, LN-2025-00007 |
| Numbers.LikeFindsTheYear | apps/customer-service/src/modules/credit/credit.service.ts:193-200 | The LIKE patterns match exactly the numbers of the wanted year |
| Numbers.NumbersAreUnique | apps/customer-service/src/modules/credit/credit.service.ts:190-210 | Whatever the years of creation, no number is handed out twice |
| Identifiers.NumbersOfRunsAreUnique | apps/customer-service/src/modules/loan/loan.service.ts:699-715 | In every run the savings, credit and loan numbers are pairwise distinct, and a number once given stays in every continuation |
| References.ReferencesUniqueIffUtc | apps/customer-service/src/modules/transaction/transaction.service.ts:268-288 | For all sequences of clock readings, references are distinct if and only if the process clock has no offset from UTC |
| Identifiers.LedgerReferencesUniqueIffUtc | apps/customer-service/src/modules/transaction/transaction.service.ts:268-288 | The references of the ledger entries are distinct in every run of the bank if and only if the process clock has no offset from UTC |
| References.OffUtcReferencesCollide | apps/customer-service/src/modules/transaction/transaction.service.ts:272-285 | With any other offset two transactions at the edges of a UTC day get the same reference |
| References.StampIdentifiesDate | apps/customer-service/src/modules/transaction/transaction.service.ts:269-270 | The eight-digit stamp identifies the date |
| Money.RoundBounds | apps/customer-service/src/modules/transaction/entities/transaction.entity.ts:37 | Rounding at save in a decimal(15,2) column moves a value by at most half a cent |
| Rules.OnlyOneRounds | apps/customer-service/src/modules/transaction/entities/transaction.entity.ts:37 | At most one amount is the nearest whole number of cents, a half rounded up, so the statements in numbers determine each fee, total, installment and day's interest |
| Runs.StepKeepsInv | apps/customer-service/src/modules/loan/loan.service.ts:437-512 | Every step keeps the whole invariant of all tables |
| Runs.RunKeepsInv | apps/customer-service/src/modules/loan/loan.service.ts:437-512 | Every reachable state satisfies it |
| Preservation.SetCreditLimitKeeps | apps/customer-service/src/modules/credit/credit.service.ts:78-110 | Changing and clamping a limit keeps every book and the lower bound of the available credit |
| Preservation.NoRelink | apps/customer-service/src/modules/loan/loan.service.ts:255-266 | A loan in progress resolves to the account it already points at |
| Preservation.PayLoanOk | apps/customer-service/src/modules/loan/loan.service.ts:455-488 | A payment keeps a loan's invariant and turns exactly one open row into a settled one |
| Preservation.MarkLoanOk | apps/crons-service/src/modules/banking/services/loan-cron.service.ts:37-57 | Marking overdue rows keeps a loan's invariant, the suffix shape in particular |
| Bank.Bank.CreateTransaction | apps/customer-service/src/modules/transaction/transaction.service.ts:28-95 | Appends one pending entry computed from the stored balance, or from nothing without an account; refuses an unknown customer or account without a change |
| Bank.Bank.CompleteTransaction | apps/customer-service/src/modules/transaction/transaction.service.ts:97-113 | Completes that entry and no other, or refuses an unknown one |
| Bank.Bank.UpdateBalance | apps/customer-service/src/modules/savings/savings.service.ts:332-349 | Debits or credits one account; refuses an unknown account or an uncovered debit without a change |
| Bank.Bank.UpdateAvailableCredit | apps/customer-service/src/modules/credit/credit.service.ts:168-188 | Lends from or collects to one credit account, or refuses an unknown one |
| Bank.Bank.Register | apps/customer-service/src/modules/credit/credit.service.ts:25-60 | Opens the new customer's savings and credit accounts |
| Bank.Bank.VerifyCustomer | apps/customer-service/src/modules/auth/auth.service.ts:81-93 | Marks exactly that customer as verified, or refuses an unknown one |
| Bank.Bank.SetCreditScore | apps/admin-service/src/modules/customer-management/customer-management.service.ts:345-361 | Sets exactly that customer's score within the allowed range, or refuses |
| Bank.Bank.OpenSavings | apps/customer-service/src/modules/savings/savings.service.ts:39-73 | Opens a BASIC account, or refuses an unknown customer |
| Bank.Bank.MakeDeposit | apps/customer-service/src/modules/savings/savings.service.ts:75-131 | Takes exactly the deposit step, with its refusals in order |
| Bank.Bank.Withdraw | apps/customer-service/src/modules/savings/savings.service.ts:169-245 | Takes exactly the withdrawal step, with its refusals in order |
| Bank.Bank.CloseSavings | apps/customer-service/src/modules/savings/savings.service.ts:362-411 | Takes exactly the closing step, with its three checks in order |
| Bank.Bank.SetCreditLimit | apps/customer-service/src/modules/credit/credit.service.ts:78-110 | Takes exactly the limit step |
| Bank.Bank.GenerateRepaymentSchedule | apps/customer-service/src/modules/loan/loan.service.ts:649-672 | The loop stores exactly the schedule |
| Bank.Bank.RequestLoan | apps/customer-service/src/modules/loan/loan.service.ts:124-233 | Takes exactly the request step, schedule and disbursement included when auto-approved |
| Bank.Bank.DisburseLoan | apps/customer-service/src/modules/loan/loan.service.ts:235-307 | Takes exactly the disbursement step |
| Bank.Bank.RepayLoan | apps/customer-service/src/modules/loan/loan.service.ts:363-431 | Takes exactly the repayment step, with its refusals in order |
| Bank.Bank.TakeRepayment | apps/customer-service/src/modules/loan/loan.service.ts:433-512 | Commits all four books, or keeps only the pending entry |
| Bank.Bank.ApproveLoan | apps/admin-service/src/modules/loan-management/loan-management.service.ts:85-105 | Takes exactly the approval step |
| Bank.Bank.RejectLoan | apps/admin-service/src/modules/loan-management/loan-management.service.ts:142-160 | Takes exactly the rejection step |
| Bank.Bank.MarkOverdue | apps/crons-service/src/modules/banking/services/loan-cron.service.ts:37-62 | The loop marks exactly the rows due before today |
| Bank.Bank.ApplyLateFees | apps/crons-service/src/modules/banking/services/loan-cron.service.ts:64-106 | The loop charges exactly the overdue rows in the fee window |
| Bank.Bank.DefaultLoans | apps/crons-service/src/modules/banking/services/loan-cron.service.ts:108-163 | Collecting the loans first and then defaulting each once, with the customer's penalty, has exactly the effect of the default step |
| Bank.Bank.LongOverdueLoans | apps/crons-service/src/modules/banking/services/loan-cron.service.ts:112-134 | Collects exactly the loans not yet in default that have a row overdue by 31 days or more |
| Bank.Bank.WriteDefaults | apps/crons-service/src/modules/banking/services/loan-cron.service.ts:139-156 | Written in any order, the collected loans end in default and every customer is penalised as often as the sharing of user objects says |
| Bank.Bank.CompoundInterest | apps/crons-service/src/modules/banking/services/savings-cron.service.ts:79-98 | Pays out the accrued interest with a completed entry, rounding the sums it stores |
| Bank.Bank.AccrueInterest | apps/crons-service/src/modules/banking/services/savings-cron.service.ts:35-71 | The loop accrues, compounds and takes a snapshot, account by account in any order, until a snapshot is refused |
| Bank.Bank.EvaluateTiers | apps/crons-service/src/modules/banking/services/tier-cron.service.ts:35-80 | The loop re-evaluates exactly the active accounts with recent snapshots |
| Bank.Bank.StartJob | apps/crons-service/src/modules/banking/banking.cron.service.ts:19-68 | Each scheduled job takes exactly its own step of the runs |
| Bank.Bank.Handle | apps/crons-service/src/modules/banking/banking.cron.service.ts:19-68 | Any event keeps the invariant and is a step of the runs |
| Bank.Serve | apps/crons-service/src/modules/banking/banking.cron.service.ts:19-68 | Serving any list of events from an empty bank is a run |

## Left out

- Identifiers.LedgerReferencesUniqueIffUtc: years beyond 9999, whose ISO text has more digits, are excluded.
- LoanTheorems.PenaltyIff: a customer's loans share one user object all together or not at all within one start of the job; mixed sharing is not modelled.
- Descriptive columns no rule reads: purposes, descriptions, metadata other than the loan, approval, disbursement and payment times, the transaction and account linked to a row, the last interest date, account type and currency.
- Mail, gRPC, RabbitMQ, WebSocket, Slack and templates; connection and database failures; interleaving inside one service call.
- Floating point error in JavaScript arithmetic before rounding at save.
- Authentication, roles, suspension, one-time passwords, audit log, admin queries, analytics and pagination. Verifying the email, which is the KYC check, is modelled once its code was found valid.
- Repayment reminders and progress percentages, which only feed mails; `calculateCreditLimit` and `getAverageMonthlyTransactions`, which nothing in the core calls.
- A customer without a credit score: the column is nullable, but its default is 300 and no modelled call clears it.
- Failed and reversed transactions and frozen accounts: the statuses exist, but no modelled call sets them, and the invariant shows they are never reached.
