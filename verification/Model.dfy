// The tables of the bank and the rules that only compute: limits, rates, fees, approval.
module Model {
  import opened Calendar
  import opened Money
  import Sums

  datatype Option<+T> = None | Some(value: T)

  // ---- Customers --------------------------------------------------------------------

  // One row per customer; the credit account of a customer has the same position.
  datatype Customer = Customer(score: int, verified: bool)

  const INITIAL_CREDIT_SCORE: int := 300
  const MIN_ASSIGNED_SCORE: int := 300
  const MAX_ASSIGNED_SCORE: int := 850
  const DEFAULT_PENALTY: int := 50
  const MIN_SCORE: int := 0

  // ---- Savings accounts -------------------------------------------------------------

  datatype AccountStatus = AccountActive | AccountFrozen | AccountClosed
  datatype Tier = Basic | Silver | Gold | Platinum

  // rate is in hundredths of a percent; balance and accrued are cents.
  datatype Savings = Savings(owner: nat, openedAt: Clock, tier: Tier, rate: int,
                             balance: int, accrued: int, status: AccountStatus)

  datatype Snapshot = Snapshot(account: nat, balance: int, day: int)

  function DailyWithdrawalLimit(t: Tier): int {
    match t
    case Basic => 50_000 * RWF
    case Silver => 200_000 * RWF
    case Gold => 1_000_000 * RWF
    case Platinum => 5_000_000 * RWF
  }

  function MonthlyWithdrawalLimit(t: Tier): int {
    match t
    case Basic => 500_000 * RWF
    case Silver => 2_000_000 * RWF
    case Gold => 10_000_000 * RWF
    case Platinum => 50_000_000 * RWF
  }

  function DailyDepositLimit(t: Tier): int {
    match t
    case Basic => 100_000 * RWF
    case Silver => 500_000 * RWF
    case Gold => 2_000_000 * RWF
    case Platinum => 10_000_000 * RWF
  }

  function TierRate(t: Tier): int {
    match t
    case Basic => 500
    case Silver => 550
    case Gold => 600
    case Platinum => 700
  }

  function NewSavings(owner: nat, openedAt: Clock): Savings {
    Savings(owner, openedAt, Basic, TierRate(Basic), 0, 0, AccountActive)
  }

  // The exact daily interest is InterestNumerator / INTEREST_SCALE cents: the rate is in
  // hundredths of a percent, and a year has 365 days.
  const INTEREST_SCALE: int := 3_650_000

  function InterestNumerator(balance: int, rate: int): int {
    balance * rate
  }

  // ---- Credit accounts --------------------------------------------------------------

  // One per customer, at the customer's index.
  datatype Credit = Credit(openedAt: Clock, limit: int, available: int, borrowed: int, repaid: int, outstanding: int)

  const MIN_CREDIT_LIMIT: int := 50_000 * RWF
  const MAX_CREDIT_LIMIT: int := 10_000_000 * RWF

  function ClampLimit(limit: int): int {
    Max(MIN_CREDIT_LIMIT, Min(limit, MAX_CREDIT_LIMIT))
  }

  // ---- Loans ------------------------------------------------------------------------

  datatype LoanStatus = Pending | Approved | Disbursed | Active | FullyPaid | Defaulted | Rejected
  datatype Approval = PendingReview | AutoApproved | ManualApproved | ReviewRejected
  datatype RowStatus = Scheduled | Paid | Overdue | PartiallyPaid

  // One installment. due is the day count of its due date.
  datatype Row = Row(due: int, amount: int, paid: int, status: RowStatus, fee: int) {
    // Still open for a payment.
    predicate Unpaid() { status.Scheduled? || status.Overdue? }
  }

  datatype Loan = Loan(user: nat, account: nat, principal: int, tenor: nat,
                       total: int, outstanding: int, status: LoanStatus, approval: Approval,
                       requested: Date, due: int, rows: seq<Row>)

  const AUTO_APPROVAL_THRESHOLD: int := 50_000 * RWF
  const MIN_CREDIT_SCORE_AUTO: int := 300
  const MIN_CREDIT_SCORE_REJECT: int := 200

  predicate IsTenor(t: nat) {
    t == 3 || t == 6 || t == 12 || t == 24
  }

  // Flat interest, in percent.
  function InterestPercent(tenor: nat): int {
    if tenor == 3 then 5 else if tenor == 6 then 8 else if tenor == 12 then 12 else 18
  }

  function TotalAmount(principal: int, tenor: nat): int {
    Round(principal * (100 + InterestPercent(tenor)), 100)
  }

  function Installment(principal: int, tenor: nat): int
    requires IsTenor(tenor)
  {
    Round(principal * (100 + InterestPercent(tenor)), 100 * tenor)
  }

  function ScheduleRow(loan: Loan, i: nat): Row
    requires IsTenor(loan.tenor)
  {
    Row(Serial(AddMonths(loan.requested, i + 1)), Installment(loan.principal, loan.tenor), 0, Scheduled, 0)
  }

  function Schedule(loan: Loan): seq<Row>
    requires IsTenor(loan.tenor)
  {
    seq(loan.tenor, i requires 0 <= i => ScheduleRow(loan, i))
  }

  function DetermineApproval(amount: int, score: int, verified: bool, hasDefaulted: bool): Approval {
    if score < MIN_CREDIT_SCORE_REJECT || hasDefaulted then ReviewRejected
    else if amount <= AUTO_APPROVAL_THRESHOLD && score >= MIN_CREDIT_SCORE_AUTO && verified && !hasDefaulted
    then AutoApproved
    else PendingReview
  }

  function InitialStatus(a: Approval): LoanStatus {
    if a == AutoApproved then Approved else if a == ReviewRejected then Rejected else Pending
  }

  const LATE_FEE_START_DAY: int := 8
  const DEFAULT_THRESHOLD_DAYS: int := 31
  const FIXED_FEE: int := 1000 * RWF

  // The capped fee, in hundredths of a cent: at least the fixed fee or 2% of the
  // installment, at most 5% of the principal.
  function CappedFee(amount: int, principal: int): int {
    Min(Max(FIXED_FEE * 100, 2 * amount), 5 * principal)
  }

  function LateFee(daysOverdue: int, amount: int, principal: int): int {
    if daysOverdue < LATE_FEE_START_DAY || daysOverdue >= DEFAULT_THRESHOLD_DAYS then 0
    else CappedFee(amount, principal)
  }

  // The fee as its column keeps it.
  function SavedFee(amount: int, principal: int): int {
    Round(CappedFee(amount, principal), 100)
  }

  // ---- The ledger -------------------------------------------------------------------

  datatype Kind =
    | Deposit | Withdrawal | LoanDisbursement | LoanRepayment
    | InterestCredit | FeeCharge | LateFeeCharge
  datatype TxnStatus = TxnPending | TxnCompleted | TxnFailed | TxnReversed

  datatype Txn = Txn(user: nat, account: Option<nat>, kind: Kind, amount: int, before: int, after: int,
                     status: TxnStatus, created: Clock, loan: Option<nat>)

  predicate IsCredit(k: Kind) {
    k == Deposit || k == LoanDisbursement || k == InterestCredit
  }

  // What the transaction row records as the balance afterwards.
  function RecordedAfter(k: Kind, before: int, amount: int): int {
    if IsCredit(k) then before + amount
    else if k == Withdrawal || k == FeeCharge then before - amount
    else before
  }

  function SignedAmount(k: Kind, amount: int): int {
    if IsCredit(k) then amount else -amount
  }

  // Weight of a transaction in the balance of account a.
  function BalanceFlow(a: nat): Txn -> int {
    (t: Txn) => if t.account == Some(a) && t.status == TxnCompleted then SignedAmount(t.kind, t.amount) else 0
  }

  // Completed amounts of one kind belonging to one customer, and to one loan.
  function UserFlow(u: nat, k: Kind): Txn -> int {
    (t: Txn) => if t.user == u && t.kind == k && t.status == TxnCompleted then t.amount else 0
  }

  function LoanFlow(l: nat, k: Kind): Txn -> int {
    (t: Txn) => if t.loan == Some(l) && t.kind == k && t.status == TxnCompleted then t.amount else 0
  }

  function LoanCount(l: nat, k: Kind): Txn -> int {
    (t: Txn) => if t.loan == Some(l) && t.kind == k && t.status == TxnCompleted then 1 else 0
  }

  datatype Period = OnDay(date: Date) | InMonth(month: nat) {
    predicate Covers(d: Date) {
      match this
      case OnDay(day) => d == day
      case InMonth(m) => d.month == m
    }
  }

  function PeriodFlow(a: nat, k: Kind, p: Period): Txn -> int {
    (t: Txn) => if t.account == Some(a) && t.kind == k && t.status == TxnCompleted && p.Covers(t.created.date)
      then t.amount else 0
  }

  // getDailyTransactionTotal and getMonthlyTransactionTotal.
  function PeriodTotal(ledger: seq<Txn>, a: nat, k: Kind, p: Period): int {
    Sums.Sum(ledger, PeriodFlow(a, k, p))
  }

  // ---- The whole database -----------------------------------------------------------

  datatype Books = Books(customers: seq<Customer>, credit: seq<Credit>, savings: seq<Savings>, loans: seq<Loan>,
                         ledger: seq<Txn>, snapshots: seq<Snapshot>, now: Clock) {
    function Today(): int { Serial(now.date) }

    predicate Owns(u: nat, a: nat) { a < |savings| && savings[a].owner == u }
  }

  function EmptyBooks(start: Clock): Books {
    Books([], [], [], [], [], [], start)
  }

  datatype Error =
    | InvalidRequest | ClockMovedBack
    | CustomerNotFound | SavingsAccountNotFound | CreditAccountNotFound | LoanNotFound | TransactionNotFound
    | AccountNotActive | InsufficientBalance
    | DailyDepositLimitExceeded | DailyWithdrawalLimitExceeded | MonthlyWithdrawalLimitExceeded
    | CannotCloseLastAccount | AccountHasActiveLoans | AccountHasBalance
    | InvalidSavingsAccount | SavingsAccountInactive
    | InsufficientCredit | ExistingDefaultedLoans | InvalidCreditLimit
    | LoanNotPendingReview | LoanNotApproved | LoanNotActive
    | AmountExceedsOutstanding | NoPendingRepayments

  datatype Outcome = Done | Refused(error: Error)

  datatype Result = Result(books: Books, outcome: Outcome)
}
