// What holds between any two service calls, table by table.
module Invariants {
  import Calendar
  import opened Sums
  import opened Model
  import opened Operations

  // ---- Loans and their rows ---------------------------------------------------------

  ghost function PaidOf(): Row -> int { (r: Row) => r.paid }

  ghost function SettledOf(): Row -> int { (r: Row) => if r.Unpaid() then 0 else 1 }

  ghost function UnpaidOf(): Row -> int { (r: Row) => if r.Unpaid() then 1 else 0 }

  // A row's status is a function of its amounts; its fee is none or the one capped fee.
  ghost predicate RowOk(r: Row, principal: int, today: int) {
    && (r.fee == 0 || r.fee == SavedFee(r.amount, principal))
    && (r.Unpaid() ==> r.paid == 0)
    && (r.status == Scheduled ==> r.fee == 0)
    && (r.status == Overdue ==> r.due < today)
    && (r.status == Paid ==> 0 < r.paid && r.amount + r.fee <= r.paid)
    && (r.status == PartiallyPaid ==> 0 < r.paid < r.amount + r.fee)
  }

  ghost predicate IsScheduleOf(rows: seq<Row>, loan: Loan)
    requires IsTenor(loan.tenor)
  {
    forall i :: 0 <= i < |rows| ==>
      rows[i].due == ScheduleRow(loan, i).due && rows[i].amount == ScheduleRow(loan, i).amount
  }

  // Scheduled rows form a suffix.
  ghost predicate ScheduledSuffix(rows: seq<Row>) {
    forall i, j :: 0 <= i < j < |rows| && rows[i].status == Scheduled ==> rows[j].status == Scheduled
  }

  // The pairs of the two status fields that can be stored. (Auto-approved loans are stored
  // as Approved only inside requestLoan; see NoneInFlight.)
  ghost predicate StatusPair(loan: Loan) {
    match loan.approval
    case PendingReview => loan.status == Pending
    case ReviewRejected => loan.status == Rejected
    case ManualApproved => loan.status == Approved || loan.status == Disbursed
    case AutoApproved => loan.status != Pending && loan.status != Rejected
  }

  ghost predicate StatusMeaning(loan: Loan, today: int) {
    && 0 <= loan.outstanding <= loan.total
    && (loan.status == Active ==> 0 < loan.outstanding < loan.total)
    && (loan.status == FullyPaid ==> loan.outstanding == 0)
    && (loan.status == Defaulted ==> LongOverdue(loan, today))
    && (loan.status == Pending || loan.status == Approved || loan.status == Rejected || loan.status == Disbursed
        ==> loan.outstanding == loan.total)
  }

  // What was agreed at request: amounts, dates, and the schedule of an auto-approved loan.
  ghost predicate TermsOk(loan: Loan) {
    && MIN_AMOUNT <= loan.principal
    && IsTenor(loan.tenor)
    && loan.total == TotalAmount(loan.principal, loan.tenor)
    && loan.due == Calendar.Serial(Calendar.AddMonths(loan.requested, loan.tenor))
    && (loan.approval == AutoApproved ==> loan.principal <= AUTO_APPROVAL_THRESHOLD)
    && |loan.rows| == (if loan.approval == AutoApproved then loan.tenor else 0)
    && IsScheduleOf(loan.rows, loan)
  }

  ghost predicate RowsOk(loan: Loan, today: int) {
    && (forall i :: 0 <= i < |loan.rows| ==> RowOk(loan.rows[i], loan.principal, today))
    && ScheduledSuffix(loan.rows)
  }

  ghost predicate LoanOk(loan: Loan, today: int) {
    && TermsOk(loan)
    && RowsOk(loan, today)
    && loan.outstanding + Sum(loan.rows, PaidOf()) == loan.total
    && StatusPair(loan)
    && StatusMeaning(loan, today)
  }

  ghost predicate LoansOk(loans: seq<Loan>, today: int) {
    forall l :: 0 <= l < |loans| ==> LoanOk(loans[l], today)
  }

  ghost predicate NoneInFlight(loans: seq<Loan>) {
    forall l :: 0 <= l < |loans| && loans[l].approval == AutoApproved ==> loans[l].status != Approved
  }

  // ---- Customers --------------------------------------------------------------------

  ghost predicate CustomersOk(customers: seq<Customer>, users: nat) {
    && |customers| == users
    && forall u :: 0 <= u < users ==> MIN_SCORE <= customers[u].score <= MAX_ASSIGNED_SCORE
  }

  // ---- Savings accounts -------------------------------------------------------------

  ghost predicate SavingsOk(savings: seq<Savings>, users: nat) {
    && (forall a :: 0 <= a < |savings| ==>
          && savings[a].owner < users
          && savings[a].status != AccountFrozen
          && 0 <= savings[a].balance && 0 <= savings[a].accrued
          && savings[a].rate == TierRate(savings[a].tier)
          && (savings[a].status == AccountClosed ==> savings[a].balance == 0))
    && (forall u :: 0 <= u < users ==> Sum(savings, ActiveOf(u)) >= 1)
  }

  // A loan still in progress can always reach the money: its account is open and its own.
  ghost predicate LinksOk(loans: seq<Loan>, savings: seq<Savings>, users: nat) {
    forall l :: 0 <= l < |loans| ==>
      && loans[l].user < users
      && loans[l].account < |savings|
      && savings[loans[l].account].owner == loans[l].user
      && (Live(loans[l].status) ==> savings[loans[l].account].status == AccountActive)
  }

  // ---- Ledger -----------------------------------------------------------------------

  ghost predicate TxnOk(t: Txn, savings: seq<Savings>, before: seq<Txn>) {
    && t.account.Some? && t.account.value < |savings|
    && t.user == savings[t.account.value].owner
    && (t.status == TxnCompleted || (t.status == TxnPending && t.kind == LoanRepayment))
    && t.kind != FeeCharge && t.kind != LateFeeCharge
    && 0 <= t.amount && (t.kind == LoanRepayment ==> MIN_AMOUNT <= t.amount)
    && t.after == RecordedAfter(t.kind, t.before, t.amount)
    && t.before == Sum(before, BalanceFlow(t.account.value))
  }

  ghost predicate LedgerOk(savings: seq<Savings>, ledger: seq<Txn>) {
    && (forall a :: 0 <= a < |savings| ==> savings[a].balance == Sum(ledger, BalanceFlow(a)))
    && (forall i :: 0 <= i < |ledger| ==> TxnOk(ledger[i], savings, ledger[..i]))
  }

  // ---- Loans against the ledger, and credit accounts against both -------------------

  ghost predicate Lent(st: LoanStatus) {
    st == Disbursed || st == Active || st == FullyPaid || st == Defaulted
  }

  ghost predicate TagOk(t: Txn, loans: seq<Loan>) {
    match t.loan
    case Some(l) => l < |loans| && loans[l].user == t.user && (t.kind == LoanDisbursement || t.kind == LoanRepayment)
    case None => t.kind != LoanDisbursement && t.kind != LoanRepayment
  }

  // What the ledger says about one loan is what its own row says.
  ghost predicate LoanBook(l: nat, loan: Loan, ledger: seq<Txn>) {
    && Sum(ledger, LoanFlow(l, LoanDisbursement)) == (if Lent(loan.status) then loan.principal else 0)
    && Sum(ledger, LoanCount(l, LoanDisbursement)) == (if Lent(loan.status) then 1 else 0)
    && Sum(ledger, LoanFlow(l, LoanRepayment)) == loan.total - loan.outstanding
    && Sum(ledger, LoanCount(l, LoanRepayment)) == Sum(loan.rows, SettledOf())
  }

  ghost predicate LoanBooksOk(loans: seq<Loan>, ledger: seq<Txn>) {
    && (forall i :: 0 <= i < |ledger| ==> TagOk(ledger[i], loans))
    && (forall l :: 0 <= l < |loans| ==> LoanBook(l, loans[l], ledger))
  }

  ghost function BorrowedBy(u: nat): Loan -> int {
    (loan: Loan) => if loan.user == u && Lent(loan.status) then loan.principal else 0
  }

  ghost function RepaidBy(u: nat): Loan -> int {
    (loan: Loan) => if loan.user == u then loan.total - loan.outstanding else 0
  }

  // Principal that reached the customer without a second look at the available credit.
  ghost function ManuallyLentTo(u: nat): Loan -> int {
    (loan: Loan) => if loan.user == u && Lent(loan.status) && loan.approval == ManualApproved
      then loan.principal else 0
  }

  ghost function InterestChargedTo(u: nat): Loan -> int {
    (loan: Loan) => if loan.user == u && Lent(loan.status) then loan.total - loan.principal else 0
  }

  ghost predicate CreditBook(u: nat, c: Credit, loans: seq<Loan>, ledger: seq<Txn>) {
    && c.borrowed == Sum(loans, BorrowedBy(u)) == Sum(ledger, UserFlow(u, LoanDisbursement))
    && c.repaid == Sum(loans, RepaidBy(u)) == Sum(ledger, UserFlow(u, LoanRepayment))
    && c.available == c.limit - c.borrowed + c.repaid
    && c.outstanding == c.borrowed - c.repaid
    && MIN_CREDIT_LIMIT <= c.limit <= MAX_CREDIT_LIMIT
    && -Sum(loans, ManuallyLentTo(u)) <= c.available
  }

  ghost predicate CreditOk(credit: seq<Credit>, loans: seq<Loan>, ledger: seq<Txn>) {
    forall u :: 0 <= u < |credit| ==> CreditBook(u, credit[u], loans, ledger)
  }

  // ---- Everything -------------------------------------------------------------------

  ghost predicate Core(s: Books) {
    && CustomersOk(s.customers, |s.credit|)
    && LoansOk(s.loans, s.Today())
    && SavingsOk(s.savings, |s.credit|)
    && LinksOk(s.loans, s.savings, |s.credit|)
    && LedgerOk(s.savings, s.ledger)
    && LoanBooksOk(s.loans, s.ledger)
    && CreditOk(s.credit, s.loans, s.ledger)
  }

  ghost predicate Inv(s: Books) {
    Core(s) && NoneInFlight(s.loans)
  }
}
