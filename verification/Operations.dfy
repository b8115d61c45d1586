// One function per service call: the books before, the request, the books after. Each is the
// specification of the method of the same name of class Bank, and the step of the runs that
// the theorems speak about.
module Operations {
  import opened Calendar
  import opened Money
  import Sums
  import opened Model

  function Refuse(s: Books, e: Error): Result {
    Result(s, Refused(e))
  }

  // ---- Writing the ledger -----------------------------------------------------------

  // createTransaction, from the balance stored at that moment.
  function Entry(s: Books, user: nat, account: Option<nat>, kind: Kind, amount: int, loan: Option<nat>,
                 status: TxnStatus): Txn
    requires account.Some? ==> account.value < |s.savings|
  {
    var before := if account.Some? then s.savings[account.value].balance else 0;
    var after := if account.Some? then RecordedAfter(kind, before, amount) else 0;
    Txn(user, account, kind, amount, before, after, status, s.now, loan)
  }

  // Create the transaction, move the balance, complete the transaction.
  function Post(s: Books, user: nat, a: nat, kind: Kind, amount: int, loan: Option<nat>): Books
    requires a < |s.savings|
  {
    var acc := s.savings[a];
    s.(ledger := s.ledger + [Entry(s, user, Some(a), kind, amount, loan, TxnCompleted)],
       savings := s.savings[a := acc.(balance := acc.balance + SignedAmount(kind, amount))])
  }

  // ---- Customers and savings accounts -----------------------------------------------

  function NewCredit(openedAt: Clock, initialLimit: int): Credit {
    var limit := ClampLimit(initialLimit);
    Credit(openedAt, limit, limit, 0, 0, 0)
  }

  // Registration opens a savings account and a credit account for the new customer.
  function Register(s: Books, initialLimit: int): Result {
    Result(s.(customers := s.customers + [Customer(INITIAL_CREDIT_SCORE, false)],
              credit := s.credit + [NewCredit(s.now, initialLimit)],
              savings := s.savings + [NewSavings(|s.customers|, s.now)]), Done)
  }

  // Email verification, once the code was found valid, is the customer's KYC.
  function VerifyCustomer(s: Books, u: nat): Result {
    if u >= |s.customers| then Refuse(s, CustomerNotFound)
    else Result(s.(customers := s.customers[u := s.customers[u].(verified := true)]), Done)
  }

  function SetCreditScore(s: Books, u: nat, score: int): Result {
    if score < MIN_ASSIGNED_SCORE || score > MAX_ASSIGNED_SCORE then Refuse(s, InvalidRequest)
    else if u >= |s.customers| then Refuse(s, CustomerNotFound)
    else Result(s.(customers := s.customers[u := s.customers[u].(score := score)]), Done)
  }

  function OpenSavings(s: Books, u: nat): Result {
    if u >= |s.customers| then Refuse(s, CustomerNotFound)
    else Result(s.(savings := s.savings + [NewSavings(u, s.now)]), Done)
  }

  const MIN_AMOUNT: int := 1 * RWF

  function MakeDeposit(s: Books, u: nat, a: nat, amount: int): Result {
    if amount < MIN_AMOUNT then Refuse(s, InvalidRequest)
    else if !s.Owns(u, a) then Refuse(s, SavingsAccountNotFound)
    else if s.savings[a].status != AccountActive then Refuse(s, AccountNotActive)
    else if PeriodTotal(s.ledger, a, Deposit, OnDay(s.now.date)) + amount > DailyDepositLimit(s.savings[a].tier)
    then Refuse(s, DailyDepositLimitExceeded)
    else if u >= |s.customers| then Refuse(s, CustomerNotFound)
    else Result(Post(s, u, a, Deposit, amount, None), Done)
  }

  function Withdraw(s: Books, u: nat, a: nat, amount: int): Result {
    if amount < MIN_AMOUNT then Refuse(s, InvalidRequest)
    else if !s.Owns(u, a) then Refuse(s, SavingsAccountNotFound)
    else if s.savings[a].status != AccountActive then Refuse(s, AccountNotActive)
    else if s.savings[a].balance < amount then Refuse(s, InsufficientBalance)
    else if PeriodTotal(s.ledger, a, Withdrawal, OnDay(s.now.date)) + amount
              > DailyWithdrawalLimit(s.savings[a].tier)
    then Refuse(s, DailyWithdrawalLimitExceeded)
    else if PeriodTotal(s.ledger, a, Withdrawal, InMonth(s.now.date.month)) + amount
              > MonthlyWithdrawalLimit(s.savings[a].tier)
    then Refuse(s, MonthlyWithdrawalLimitExceeded)
    else if u >= |s.customers| then Refuse(s, CustomerNotFound)
    else Result(Post(s, u, a, Withdrawal, amount, None), Done)
  }

  function ActiveOf(u: nat): Savings -> int {
    (acc: Savings) => if acc.owner == u && acc.status == AccountActive then 1 else 0
  }

  predicate Live(st: LoanStatus) {
    st == Pending || st == Approved || st == Disbursed || st == Active
  }

  predicate HasLiveLoan(loans: seq<Loan>, a: nat) {
    exists l :: 0 <= l < |loans| && loans[l].account == a && Live(loans[l].status)
  }

  function CloseSavings(s: Books, u: nat, a: nat): Result {
    if !s.Owns(u, a) then Refuse(s, SavingsAccountNotFound)
    else if Sums.Sum(s.savings, ActiveOf(u)) <= 1 then Refuse(s, CannotCloseLastAccount)
    else if HasLiveLoan(s.loans, a) then Refuse(s, AccountHasActiveLoans)
    else if s.savings[a].balance > 0 then Refuse(s, AccountHasBalance)
    else Result(s.(savings := s.savings[a := s.savings[a].(status := AccountClosed)]), Done)
  }

  // ---- Credit -----------------------------------------------------------------------

  function SetCreditLimit(s: Books, u: nat, newLimit: int): Result {
    if newLimit < 0 then Refuse(s, InvalidRequest)
    else if u >= |s.customers| then Refuse(s, CustomerNotFound)
    else if u >= |s.credit| then Refuse(s, CreditAccountNotFound)
    else
      var c := s.credit[u];
      var borrowed := c.borrowed - c.repaid;
      if newLimit < borrowed then Refuse(s, InvalidCreditLimit)
      else
        var bounded := ClampLimit(newLimit);
        Result(s.(credit := s.credit[u := c.(limit := bounded, available := bounded - borrowed)]), Done)
  }

  // updateAvailableCredit
  function Lend(c: Credit, amount: int): Credit {
    c.(available := c.available - amount, borrowed := c.borrowed + amount, outstanding := c.outstanding + amount)
  }

  function Collect(c: Credit, amount: int): Credit {
    c.(available := c.available + amount, repaid := c.repaid + amount, outstanding := c.outstanding - amount)
  }

  // ---- Loans ------------------------------------------------------------------------

  // The customer's first active account, accounts being stored in order of creation.
  function FirstActive(savings: seq<Savings>, u: nat, i: nat): (a: nat)
    requires i <= |savings|
    ensures i <= a <= |savings|
    ensures a < |savings| ==> savings[a].owner == u && savings[a].status == AccountActive
    ensures forall j :: i <= j < a ==> !(savings[j].owner == u && savings[j].status == AccountActive)
    decreases |savings| - i
  {
    if i == |savings| || (savings[i].owner == u && savings[i].status == AccountActive) then i
    else FirstActive(savings, u, i + 1)
  }

  datatype Resolution = Resolved(account: nat) | Unresolved(error: Error)

  function ResolveAccount(s: Books, u: nat, specified: Option<nat>, loanAccount: Option<nat>): (r: Resolution)
    ensures r.Resolved? ==> r.account < |s.savings| && s.savings[r.account].status == AccountActive
  {
    if specified.Some? then
      if !s.Owns(u, specified.value) then Unresolved(InvalidSavingsAccount)
      else if s.savings[specified.value].status != AccountActive then Unresolved(SavingsAccountInactive)
      else Resolved(specified.value)
    else if loanAccount.Some? && loanAccount.value < |s.savings|
         && s.savings[loanAccount.value].status == AccountActive
    then Resolved(loanAccount.value)
    else
      var a := FirstActive(s.savings, u, 0);
      if a == |s.savings| then Unresolved(SavingsAccountNotFound) else Resolved(a)
  }

  predicate HasDefaulted(loans: seq<Loan>, u: nat) {
    exists l :: 0 <= l < |loans| && loans[l].user == u && loans[l].status == Defaulted
  }

  function NewLoan(s: Books, u: nat, a: nat, principal: int, tenor: nat, approval: Approval): Loan {
    var total := TotalAmount(principal, tenor);
    Loan(u, a, principal, tenor, total, total, InitialStatus(approval), approval,
         s.now.date, Serial(AddMonths(s.now.date, tenor)), [])
  }

  // The loan as stored by requestLoan, with its schedule when it was auto-approved.
  function RequestedLoan(s: Books, u: nat, a: nat, principal: int, tenor: nat, approval: Approval): Loan
    requires IsTenor(tenor)
  {
    var loan := NewLoan(s, u, a, principal, tenor, approval);
    if approval == AutoApproved then loan.(rows := Schedule(loan)) else loan
  }

  function RequestLoan(s: Books, u: nat, principal: int, tenor: nat, specified: Option<nat>): Result {
    if principal < MIN_AMOUNT || !IsTenor(tenor) then Refuse(s, InvalidRequest)
    else if u >= |s.customers| then Refuse(s, CustomerNotFound)
    else if u >= |s.credit| then Refuse(s, CreditAccountNotFound)
    else if s.credit[u].available < principal then Refuse(s, InsufficientCredit)
    else if HasDefaulted(s.loans, u) then Refuse(s, ExistingDefaultedLoans)
    else
      var target := ResolveAccount(s, u, specified, None);
      if target.Unresolved? then Refuse(s, target.error)
      else
        var approval := DetermineApproval(principal, s.customers[u].score, s.customers[u].verified, false);
        var s' := s.(loans := s.loans + [RequestedLoan(s, u, target.account, principal, tenor, approval)]);
        if approval == AutoApproved then DisburseLoan(s', |s.loans|) else Result(s', Done)
  }

  function DisburseLoan(s: Books, l: nat): Result {
    if l >= |s.loans| then Refuse(s, LoanNotFound)
    else if s.loans[l].status != Approved then Refuse(s, LoanNotApproved)
    else
      var loan := s.loans[l];
      var target := ResolveAccount(s, loan.user, None, Some(loan.account));
      if target.Unresolved? then Refuse(s, target.error)
      else if loan.user >= |s.customers| then Refuse(s, CustomerNotFound)
      else if loan.user >= |s.credit| then Refuse(s, CreditAccountNotFound)
      else Result(Disbursement(s, l, target.account), Done)
  }

  function Disbursement(s: Books, l: nat, a: nat): Books
    requires l < |s.loans| && a < |s.savings| && s.loans[l].user < |s.credit|
  {
    var loan := s.loans[l];
    var posted := Post(s, loan.user, a, LoanDisbursement, loan.principal, Some(l));
    posted.(credit := s.credit[loan.user := Lend(s.credit[loan.user], loan.principal)],
            loans := s.loans[l := loan.(account := a, status := Disbursed)])
  }

  function ApproveLoan(s: Books, l: nat): Result {
    if l >= |s.loans| then Refuse(s, LoanNotFound)
    else if s.loans[l].approval != PendingReview then Refuse(s, LoanNotPendingReview)
    else Result(s.(loans := s.loans[l := s.loans[l].(approval := ManualApproved, status := Approved)]), Done)
  }

  function RejectLoan(s: Books, l: nat): Result {
    if l >= |s.loans| then Refuse(s, LoanNotFound)
    else if s.loans[l].approval != PendingReview then Refuse(s, LoanNotPendingReview)
    else Result(s.(loans := s.loans[l := s.loans[l].(approval := ReviewRejected, status := Rejected)]), Done)
  }

  // First row of a status, in schedule order; |rows| when there is none.
  function FirstRow(rows: seq<Row>, st: RowStatus, i: nat): (k: nat)
    requires i <= |rows|
    ensures i <= k <= |rows|
    ensures k < |rows| ==> rows[k].status == st
    ensures forall j :: i <= j < k ==> rows[j].status != st
    decreases |rows| - i
  {
    if i == |rows| || rows[i].status == st then i else FirstRow(rows, st, i + 1)
  }

  // A repayment goes to the next scheduled row, and to an overdue one only when no row is
  // scheduled. Due dates grow along the schedule, so the earliest due date is the first row.
  function TargetRow(rows: seq<Row>): (k: nat)
    ensures k <= |rows|
    ensures k < |rows| ==> rows[k].Unpaid()
    ensures k == |rows| ==> forall j :: 0 <= j < |rows| ==> !rows[j].Unpaid()
  {
    var k := FirstRow(rows, Scheduled, 0);
    if k < |rows| then k else FirstRow(rows, Overdue, 0)
  }

  function PayRow(r: Row, amount: int): Row {
    var paid := r.paid + amount;
    r.(paid := paid, status := if paid >= r.amount + r.fee then Paid else PartiallyPaid)
  }

  function PayLoan(loan: Loan, k: nat, amount: int): Loan
    requires k < |loan.rows|
  {
    var left := loan.outstanding - amount;
    loan.(rows := loan.rows[k := PayRow(loan.rows[k], amount)],
          outstanding := left,
          status := if left <= 0 then FullyPaid else Active)
  }

  function RepayLoan(s: Books, u: nat, l: nat, amount: int, specified: Option<nat>): Result {
    if amount < MIN_AMOUNT then Refuse(s, InvalidRequest)
    else if l >= |s.loans| || s.loans[l].user != u then Refuse(s, LoanNotFound)
    else if s.loans[l].status != Active && s.loans[l].status != Disbursed then Refuse(s, LoanNotActive)
    else if amount > s.loans[l].outstanding then Refuse(s, AmountExceedsOutstanding)
    else
      var loan := s.loans[l];
      var source := ResolveAccount(s, u, specified, Some(loan.account));
      if source.Unresolved? then Refuse(s, source.error)
      else
        var k := TargetRow(loan.rows);
        if k == |loan.rows| then Refuse(s, NoPendingRepayments)
        // the loan's customer and credit account are read with the loan
        else if u >= |s.customers| then Refuse(s, CustomerNotFound)
        else if u >= |s.credit| then Refuse(s, CreditAccountNotFound)
        else if s.savings[source.account].balance < amount then
          // the transaction row was saved outside the rolled back unit and stays pending
          Result(s.(ledger := s.ledger
                              + [Entry(s, u, Some(source.account), LoanRepayment, amount, Some(l), TxnPending)]),
                 Refused(InsufficientBalance))
        else Result(Repayment(s, u, l, k, amount, source.account), Done)
  }

  function Repayment(s: Books, u: nat, l: nat, k: nat, amount: int, a: nat): Books
    requires l < |s.loans| && k < |s.loans[l].rows| && a < |s.savings| && u < |s.credit|
  {
    var posted := Post(s, u, a, LoanRepayment, amount, Some(l));
    posted.(credit := s.credit[u := Collect(s.credit[u], amount)],
            loans := s.loans[l := PayLoan(s.loans[l], k, amount)])
  }

  // ---- Clock and nightly jobs -------------------------------------------------------

  function Advance(s: Books, to: Clock): Result {
    if NotBefore(to, s.now) then Result(s.(now := to), Done) else Refuse(s, ClockMovedBack)
  }

  // A due time lies before today's midnight exactly when its day lies before today.
  function MarkRow(r: Row, today: int): Row {
    if r.status == Scheduled && r.due < today then r.(status := Overdue) else r
  }

  function ChargeRow(r: Row, principal: int, today: int): Row {
    if r.status == Overdue && LateFee(today - r.due, r.amount, principal) > 0
    then r.(fee := Round(LateFee(today - r.due, r.amount, principal), 100))
    else r
  }

  function MarkLoan(loan: Loan, today: int): Loan {
    loan.(rows := seq(|loan.rows|, i requires 0 <= i < |loan.rows| => MarkRow(loan.rows[i], today)))
  }

  function ChargeLoan(loan: Loan, today: int): Loan {
    loan.(rows := seq(|loan.rows|, i requires 0 <= i < |loan.rows| =>
                          ChargeRow(loan.rows[i], loan.principal, today)))
  }

  predicate LongOverdue(loan: Loan, today: int) {
    exists i :: 0 <= i < |loan.rows| && loan.rows[i].status == Overdue
                && today - loan.rows[i].due >= DEFAULT_THRESHOLD_DAYS
  }

  function DefaultLoan(loan: Loan, today: int): Loan {
    if LongOverdue(loan, today) then loan.(status := Defaulted) else loan
  }

  function MarkOverdue(s: Books): Books {
    s.(loans := seq(|s.loans|, l requires 0 <= l < |s.loans| => MarkLoan(s.loans[l], s.Today())))
  }

  function ApplyLateFees(s: Books): Books {
    s.(loans := seq(|s.loans|, l requires 0 <= l < |s.loans| => ChargeLoan(s.loans[l], s.Today())))
  }

  // A loan the job finds long overdue and not yet in default.
  predicate NewlyDefaulted(loan: Loan, today: int) {
    loan.status != Defaulted && LongOverdue(loan, today)
  }

  function NewlyDefaultedOf(u: nat, today: int): Loan -> int {
    (loan: Loan) => if loan.user == u && NewlyDefaulted(loan, today) then 1 else 0
  }

  // Each of n newly defaulted loans costs the penalty when the rows of one customer share
  // their user object; when they do not, each write starts from the same stored score.
  function Penalised(c: Customer, n: int, shared: bool): Customer {
    if n <= 0 then c
    else c.(score := Max(MIN_SCORE, c.score - DEFAULT_PENALTY * (if shared then n else 1)))
  }

  function DefaultLoans(s: Books, shared: bool): Books {
    s.(loans := seq(|s.loans|, l requires 0 <= l < |s.loans| => DefaultLoan(s.loans[l], s.Today())),
       customers := seq(|s.customers|, u requires 0 <= u < |s.customers| =>
                            Penalised(s.customers[u], Sums.Sum(s.loans, NewlyDefaultedOf(u, s.Today())), shared)))
  }

  // ---- Interest ---------------------------------------------------------------------

  // The daily interest of an account, rounded as its column keeps it.
  function DailyInterest(acc: Savings): int {
    Round(InterestNumerator(acc.balance, acc.rate), INTEREST_SCALE)
  }

  // Accrued interest including today's, before rounding, is positive.
  predicate EarnsInterest(acc: Savings) {
    acc.accrued * INTEREST_SCALE + InterestNumerator(acc.balance, acc.rate) > 0
  }

  // Month end: pay out what has accrued, today included. The transaction is created from
  // the stored balance, before the account itself is saved.
  function CreditInterest(s: Books, a: nat): Books
    requires a < |s.savings|
  {
    var acc := s.savings[a];
    var accrued := acc.accrued + DailyInterest(acc);
    s.(ledger := s.ledger + [Entry(s, acc.owner, Some(a), InterestCredit, accrued, None, TxnCompleted)],
       savings := s.savings[a := acc.(balance := acc.balance + accrued, accrued := 0)])
  }

  function HoldInterest(s: Books, a: nat): Books
    requires a < |s.savings|
  {
    var acc := s.savings[a];
    s.(savings := s.savings[a := acc.(accrued := acc.accrued + DailyInterest(acc))])
  }

  predicate HasSnapshot(snapshots: seq<Snapshot>, a: nat, day: int) {
    exists i :: 0 <= i < |snapshots| && snapshots[i].account == a && snapshots[i].day == day
  }

  // The unique index on account and day refuses a second snapshot.
  function TakeSnapshot(s: Books, a: nat): Books
    requires a < |s.savings|
  {
    if HasSnapshot(s.snapshots, a, s.Today()) then s
    else s.(snapshots := s.snapshots + [Snapshot(a, s.savings[a].balance, s.Today())])
  }

  // One turn of the interest loop.
  function AccrueOne(s: Books, a: nat): Books
    requires a < |s.savings|
  {
    if s.savings[a].status != AccountActive then s
    else if IsLastDayOfMonth(s.now.date) && EarnsInterest(s.savings[a]) then TakeSnapshot(CreditInterest(s, a), a)
    else TakeSnapshot(HoldInterest(s, a), a)
  }

  // The query names no order, so every start of the job comes with one: each account once.
  predicate IsOrder(order: seq<nat>, accounts: nat) {
    && (forall k :: 0 <= k < |order| ==> order[k] < accounts)
    && (forall j, k :: 0 <= j < k < |order| ==> order[j] != order[k])
    && (forall a :: 0 <= a < accounts ==> a in order)
  }

  // A refused snapshot ends the job: the account it belongs to is already saved, and no later
  // account gets a turn.
  predicate EndedBefore(s: Books, order: seq<nat>, n: nat)
    requires IsOrder(order, |s.savings|) && n <= |order|
  {
    exists k :: 0 <= k < n
      && s.savings[order[k]].status == AccountActive && HasSnapshot(s.snapshots, order[k], s.Today())
  }

  // The first n turns.
  function AccrueUpTo(s: Books, order: seq<nat>, n: nat): (r: Books)
    requires IsOrder(order, |s.savings|) && n <= |order|
    ensures |r.savings| == |s.savings| && r == s.(savings := r.savings, ledger := r.ledger, snapshots := r.snapshots)
    ensures forall a :: 0 <= a < |s.savings| ==> r.savings[a].owner == s.savings[a].owner
    ensures forall k :: n <= k < |order| ==> r.savings[order[k]] == s.savings[order[k]]
  {
    if n == 0 then s
    else
      var r := AccrueUpTo(s, order, n - 1);
      if EndedBefore(s, order, n - 1) then r else AccrueOne(r, order[n - 1])
  }

  function AccrueInterest(s: Books, order: seq<nat>): Result {
    if !IsOrder(order, |s.savings|) then Refuse(s, InvalidRequest)
    else Result(AccrueUpTo(s, order, |order|), Done)
  }

  // ---- Tiers ------------------------------------------------------------------------

  const EVALUATION_PERIOD_DAYS: int := 90
  const SILVER_MIN: int := 500_000 * RWF
  const GOLD_MIN: int := 2_000_000 * RWF
  const PLATINUM_MIN: int := 10_000_000 * RWF
  const GOLD_MONTHS: int := 6
  const PLATINUM_MONTHS: int := 12

  // Balances of the snapshots of account a taken after day `since`.
  function RecentBalances(snapshots: seq<Snapshot>, a: nat, since: int): seq<int> {
    if snapshots == [] then []
    else
      var last := snapshots[|snapshots| - 1];
      RecentBalances(snapshots[..|snapshots| - 1], a, since)
      + (if last.account == a && last.day > since then [last.balance] else [])
  }

  function Total(balances: seq<int>): int {
    Sums.Sum(balances, (b: int) => b)
  }

  // The average is compared exactly: total / n >= m is total >= m * n.
  predicate AverageAtLeast(balances: seq<int>, m: int) {
    Total(balances) >= m * |balances|
  }

  function AgeInMonths(openedAt: Clock, now: Clock): int {
    (Instant(now) - Instant(openedAt)) / MS_PER_MONTH
  }

  function DetermineTier(balances: seq<int>, ageMonths: int, verified: bool): Tier {
    if AverageAtLeast(balances, PLATINUM_MIN) && verified && ageMonths >= PLATINUM_MONTHS then Platinum
    else if AverageAtLeast(balances, GOLD_MIN) && verified && ageMonths >= GOLD_MONTHS then Gold
    else if AverageAtLeast(balances, SILVER_MIN) && verified then Silver
    else Basic
  }

  predicate IsVerified(s: Books, u: nat) {
    u < |s.customers| && s.customers[u].verified
  }

  function EvaluateAccount(s: Books, a: nat): Savings
    requires a < |s.savings|
  {
    var acc := s.savings[a];
    var balances := RecentBalances(s.snapshots, a, s.Today() - EVALUATION_PERIOD_DAYS);
    if acc.status != AccountActive || balances == [] then acc
    else
      var tier := DetermineTier(balances, AgeInMonths(acc.openedAt, s.now), IsVerified(s, acc.owner));
      if tier == acc.tier then acc else acc.(tier := tier, rate := TierRate(tier))
  }

  function EvaluateTiers(s: Books): Books {
    s.(savings := seq(|s.savings|, a requires 0 <= a < |s.savings| => EvaluateAccount(s, a)))
  }
}
