// The services as they work: tables updated in place, step by step. Each method is proved to
// have exactly the effect of the function of the same name in Operations, and so to take one
// step of the runs that the theorems speak about.
module Bank {
  import opened Calendar
  import opened Money
  import opened Sums
  import opened Model
  import opened Operations
  import opened Invariants
  import Preservation
  import opened Runs
  import InterestBook

  // Some row before the i-th one is overdue by 31 days or more.
  ghost predicate LongOverdueBefore(loan: Loan, today: int, i: nat) {
    exists j :: 0 <= j < i <= |loan.rows| && loan.rows[j].status == Overdue
                && today - loan.rows[j].due >= DEFAULT_THRESHOLD_DAYS
  }

  // Loans of customer u that the default job has written so far.
  ghost function DefaultedSoFar(before: seq<Loan>, loans: seq<Loan>, u: nat, today: int): int {
    Sum(before, NewlyDefaultedOf(u, today)) - Sum(loans, NewlyDefaultedOf(u, today))
  }

  // The default job half done: of the loans it found, those in rest still have to be written.
  ghost predicate DefaultedBut(rest: set<nat>, before: seq<Loan>, loans: seq<Loan>, read: seq<Customer>,
                               customers: seq<Customer>, today: int, shared: bool) {
    && |loans| == |before| && |customers| == |read|
    && (forall m: nat :: m in rest ==> m < |before| && NewlyDefaulted(before[m], today))
    && (forall m: nat :: m < |before| ==> loans[m] == if m in rest then before[m] else DefaultLoan(before[m], today))
    && (forall u: nat :: u < |read| ==>
          customers[u] == Penalised(read[u], DefaultedSoFar(before, loans, u, today), shared))
  }

  lemma PenaltyAgain(c: Customer, n: int, shared: bool)
    requires 0 <= n
    ensures var score := if shared then Penalised(c, n, shared).score else c.score;
            Penalised(c, n + 1, shared) == Penalised(c, n, shared).(score := Max(MIN_SCORE, score - DEFAULT_PENALTY))
  {
  }

  lemma DefaultCounts(before: seq<Loan>, loans: seq<Loan>, l: nat, today: int)
    requires l < |loans| && NewlyDefaulted(loans[l], today)
    ensures forall u: nat :: DefaultedSoFar(before, loans[l := loans[l].(status := Defaulted)], u, today)
                          == DefaultedSoFar(before, loans, u, today) + (if u == loans[l].user then 1 else 0)
  {
    hide LongOverdue;
    var loan := loans[l].(status := Defaulted);
    forall u: nat
      ensures DefaultedSoFar(before, loans[l := loan], u, today)
           == DefaultedSoFar(before, loans, u, today) + (if u == loans[l].user then 1 else 0)
    {
      SumUpdate(loans, l, loan, NewlyDefaultedOf(u, today));
    }
  }

  lemma SoFarIsCount(rest: set<nat>, before: seq<Loan>, loans: seq<Loan>, u: nat, today: int)
    requires |loans| == |before|
    requires forall m: nat :: m < |before| ==>
               loans[m] == if m in rest then before[m] else DefaultLoan(before[m], today)
    ensures 0 <= DefaultedSoFar(before, loans, u, today)
  {
    hide LongOverdue;
    SumMono(loans, before, NewlyDefaultedOf(u, today), NewlyDefaultedOf(u, today));
  }

  lemma OneMoreDefaulted(rest: set<nat>, before: seq<Loan>, loans: seq<Loan>, read: seq<Customer>,
                         customers: seq<Customer>, today: int, shared: bool, l: nat)
    requires DefaultedBut(rest, before, loans, read, customers, today, shared)
    requires l in rest && loans[l].user < |customers|
    ensures var u := loans[l].user;
            var score := if shared then customers[u].score else read[u].score;
            var c := customers[u].(score := Max(MIN_SCORE, score - DEFAULT_PENALTY));
            var loans' := loans[l := loans[l].(status := Defaulted)];
            DefaultedBut(rest - {l}, before, loans', read, customers[u := c], today, shared)
  {
    hide LongOverdue, DefaultedSoFar, Penalised;
    var (loan, u) := (loans[l].(status := Defaulted), loans[l].user);
    DefaultCounts(before, loans, l, today);
    SoFarIsCount(rest, before, loans, u, today);
    PenaltyAgain(read[u], DefaultedSoFar(before, loans, u, today), shared);
    var score := if shared then customers[u].score else read[u].score;
    var c := customers[u].(score := Max(MIN_SCORE, score - DEFAULT_PENALTY));
    assert c == Penalised(read[u], DefaultedSoFar(before, loans[l := loan], u, today), shared);
  }

  lemma AllDefaulted(s: Books, loans: seq<Loan>, customers: seq<Customer>, shared: bool)
    requires DefaultedBut({}, s.loans, loans, s.customers, customers, s.Today(), shared)
    ensures loans == DefaultLoans(s, shared).loans && customers == DefaultLoans(s, shared).customers
  {
    hide LongOverdue, Serial;
    forall u: nat | u < |s.customers| ensures customers[u] == DefaultLoans(s, shared).customers[u] {
      SumZero(loans, NewlyDefaultedOf(u, s.Today()));
    }
  }

  lemma DefaultsKeepTheRest(s: Books, shared: bool)
    ensures var r := DefaultLoans(s, shared); r == s.(loans := r.loans, customers := r.customers)
  {
  }

  ghost predicate SameUsers(before: seq<Loan>, loans: seq<Loan>) {
    |loans| == |before| && forall m :: 0 <= m < |before| ==> loans[m].user == before[m].user
  }

  lemma NoneDefaultedYet(found: set<nat>, loans: seq<Loan>, customers: seq<Customer>, today: int, shared: bool)
    requires forall m: nat :: m in found <==> m < |loans| && NewlyDefaulted(loans[m], today)
    ensures DefaultedBut(found, loans, loans, customers, customers, today, shared)
  {
    hide LongOverdue;
    assert forall loan: Loan :: loan.status == Defaulted ==> loan.(status := Defaulted) == loan;
  }

  // What the interest job may assume of an account it reads.
  lemma StoredAccount(s: Books, a: nat)
    requires Inv(s) && a < |s.savings|
    ensures s.savings[a].owner < |s.customers|
    ensures 0 <= s.savings[a].balance && 0 <= s.savings[a].rate && 0 <= s.savings[a].accrued
  {
    hide LoansOk, LinksOk, LedgerOk, LoanBooksOk, CreditOk, NoneInFlight;
  }

  predicate IsJob(e: Event) {
    e.DoAccrueInterest? || e.DoMarkOverdue? || e.DoApplyLateFees? || e.DoDefaultLoans? || e.DoEvaluateTiers?
  }

  predicate IsLoanRequest(e: Event) {
    e.DoRequestLoan? || e.DoApproveLoan? || e.DoRejectLoan? || e.DoDisburseLoan? || e.DoRepayLoan?
  }

  class Bank {
    var customers: seq<Customer>
    var credit: seq<Credit>
    var savings: seq<Savings>
    var loans: seq<Loan>
    var ledger: seq<Txn>
    var snapshots: seq<Snapshot>
    var now: Clock

    function State(): Books
      reads this
    {
      Books(customers, credit, savings, loans, ledger, snapshots, now)
    }

    ghost predicate Valid()
      reads this
    {
      Inv(State())
    }

    constructor (start: Clock)
      ensures Valid() && State() == EmptyBooks(start)
    {
      customers, credit, savings, loans, ledger, snapshots := [], [], [], [], [], [];
      now := start;
    }

    // ---- TransactionService ---------------------------------------------------------

    method CreateTransaction(user: nat, account: Option<nat>, kind: Kind, amount: int, loan: Option<nat>)
      returns (id: nat, o: Outcome)
      modifies this`ledger
      ensures o == if user >= |customers| then Refused(CustomerNotFound)
                   else if account.Some? && account.value >= |savings| then Refused(SavingsAccountNotFound)
                   else Done
      ensures o.Refused? ==> ledger == old(ledger)
      ensures o == Done ==>
        && id == |old(ledger)|
        && ledger == old(ledger) + [Entry(old(State()), user, account, kind, amount, loan, TxnPending)]
        && (account.None? ==> ledger[id].before == 0 && ledger[id].after == 0)
    {
      id := |ledger|;
      if user >= |customers| {
        return id, Refused(CustomerNotFound);
      }
      var before, after := 0, 0;
      if account.Some? {
        if account.value >= |savings| {
          return id, Refused(SavingsAccountNotFound);
        }
        before := savings[account.value].balance;
        if kind == Deposit || kind == LoanDisbursement || kind == InterestCredit {
          after := before + amount;
        } else if kind == Withdrawal || kind == FeeCharge {
          after := before - amount;
        } else {
          after := before;
        }
      }
      ledger := ledger + [Txn(user, account, kind, amount, before, after, TxnPending, now, loan)];
      o := Done;
    }

    method CompleteTransaction(id: nat) returns (o: Outcome)
      modifies this`ledger
      ensures id >= |old(ledger)| ==> o == Refused(TransactionNotFound) && ledger == old(ledger)
      ensures id < |old(ledger)| ==>
        o == Done && ledger == old(ledger)[id := old(ledger)[id].(status := TxnCompleted)]
    {
      if id >= |ledger| {
        return Refused(TransactionNotFound);
      }
      ledger := ledger[id := ledger[id].(status := TxnCompleted)];
      o := Done;
    }

    // ---- SavingsService -------------------------------------------------------------

    method UpdateBalance(a: nat, amount: int, isDebit: bool) returns (o: Outcome)
      modifies this`savings
      ensures o == if a >= |old(savings)| then Refused(SavingsAccountNotFound)
                   else if isDebit && old(savings)[a].balance < amount then Refused(InsufficientBalance)
                   else Done
      ensures o.Refused? ==> savings == old(savings)
      ensures o == Done ==> savings == old(savings)[a := old(savings)[a].(balance :=
                              old(savings)[a].balance + (if isDebit then -amount else amount))]
    {
      if a >= |savings| {
        return Refused(SavingsAccountNotFound);
      }
      var account := savings[a];
      if isDebit {
        if account.balance < amount {
          return Refused(InsufficientBalance);
        }
        account := account.(balance := account.balance - amount);
      } else {
        account := account.(balance := account.balance + amount);
      }
      savings := savings[a := account];
      o := Done;
    }

    method Register(initialLimit: int) returns (o: Outcome)
      modifies this
      ensures Result(State(), o) == Operations.Register(old(State()), initialLimit)
    {
      var u := |customers|;
      customers := customers + [Customer(INITIAL_CREDIT_SCORE, false)];
      savings := savings + [NewSavings(u, now)];
      var limit := Max(MIN_CREDIT_LIMIT, Min(initialLimit, MAX_CREDIT_LIMIT));
      credit := credit + [Credit(now, limit, limit, 0, 0, 0)];
      o := Done;
    }

    method VerifyCustomer(u: nat) returns (o: Outcome)
      modifies this
      ensures Result(State(), o) == Operations.VerifyCustomer(old(State()), u)
    {
      if u >= |customers| {
        return Refused(CustomerNotFound);
      }
      customers := customers[u := customers[u].(verified := true)];
      o := Done;
    }

    method SetCreditScore(u: nat, score: int) returns (o: Outcome)
      modifies this
      ensures Result(State(), o) == Operations.SetCreditScore(old(State()), u, score)
    {
      if score < MIN_ASSIGNED_SCORE || score > MAX_ASSIGNED_SCORE {
        return Refused(InvalidRequest);
      }
      if u >= |customers| {
        return Refused(CustomerNotFound);
      }
      customers := customers[u := customers[u].(score := score)];
      o := Done;
    }

    method OpenSavings(u: nat) returns (o: Outcome)
      modifies this
      ensures Result(State(), o) == Operations.OpenSavings(old(State()), u)
    {
      if u >= |customers| {
        return Refused(CustomerNotFound);
      }
      savings := savings + [NewSavings(u, now)];
      o := Done;
    }

    method MakeDeposit(u: nat, a: nat, amount: int) returns (o: Outcome)
      modifies this
      ensures Result(State(), o) == Operations.MakeDeposit(old(State()), u, a, amount)
    {
      if amount < MIN_AMOUNT {
        return Refused(InvalidRequest);
      }
      if a >= |savings| || savings[a].owner != u {
        return Refused(SavingsAccountNotFound);
      }
      var account := savings[a];
      if account.status != AccountActive {
        return Refused(AccountNotActive);
      }
      var depositedToday := PeriodTotal(ledger, a, Deposit, OnDay(now.date));
      if depositedToday + amount > DailyDepositLimit(account.tier) {
        return Refused(DailyDepositLimitExceeded);
      }
      var id, created := CreateTransaction(u, Some(a), Deposit, amount, None);
      if created.Refused? {
        return created;
      }
      savings := savings[a := account.(balance := account.balance + amount)];
      o := CompleteTransaction(id);
    }

    method Withdraw(u: nat, a: nat, amount: int) returns (o: Outcome)
      modifies this
      ensures Result(State(), o) == Operations.Withdraw(old(State()), u, a, amount)
    {
      if amount < MIN_AMOUNT {
        return Refused(InvalidRequest);
      }
      if a >= |savings| || savings[a].owner != u {
        return Refused(SavingsAccountNotFound);
      }
      var account := savings[a];
      if account.status != AccountActive {
        return Refused(AccountNotActive);
      }
      if account.balance < amount {
        return Refused(InsufficientBalance);
      }
      var withdrawnToday := PeriodTotal(ledger, a, Withdrawal, OnDay(now.date));
      if withdrawnToday + amount > DailyWithdrawalLimit(account.tier) {
        return Refused(DailyWithdrawalLimitExceeded);
      }
      var withdrawnThisMonth := PeriodTotal(ledger, a, Withdrawal, InMonth(now.date.month));
      if withdrawnThisMonth + amount > MonthlyWithdrawalLimit(account.tier) {
        return Refused(MonthlyWithdrawalLimitExceeded);
      }
      var id, created := CreateTransaction(u, Some(a), Withdrawal, amount, None);
      if created.Refused? {
        return created;
      }
      savings := savings[a := account.(balance := account.balance - amount)];
      o := CompleteTransaction(id);
    }

    method CloseSavings(u: nat, a: nat) returns (o: Outcome)
      modifies this
      ensures Result(State(), o) == Operations.CloseSavings(old(State()), u, a)
    {
      if a >= |savings| || savings[a].owner != u {
        return Refused(SavingsAccountNotFound);
      }
      var activeAccounts := Sum(savings, ActiveOf(u));
      if activeAccounts <= 1 {
        return Refused(CannotCloseLastAccount);
      }
      if HasLiveLoan(loans, a) {
        return Refused(AccountHasActiveLoans);
      }
      if savings[a].balance > 0 {
        return Refused(AccountHasBalance);
      }
      savings := savings[a := savings[a].(status := AccountClosed)];
      o := Done;
    }

    // ---- CreditService --------------------------------------------------------------

    method SetCreditLimit(u: nat, newLimit: int) returns (o: Outcome)
      modifies this
      ensures Result(State(), o) == Operations.SetCreditLimit(old(State()), u, newLimit)
    {
      if newLimit < 0 {
        return Refused(InvalidRequest);
      }
      if u >= |customers| {
        return Refused(CustomerNotFound);
      }
      if u >= |credit| {
        return Refused(CreditAccountNotFound);
      }
      var account := credit[u];
      var borrowed := account.borrowed - account.repaid;
      if newLimit < borrowed {
        return Refused(InvalidCreditLimit);
      }
      var bounded := Max(MIN_CREDIT_LIMIT, Min(newLimit, MAX_CREDIT_LIMIT));
      account := account.(limit := bounded);
      account := account.(available := bounded - borrowed);
      credit := credit[u := account];
      o := Done;
    }

    method UpdateAvailableCredit(u: nat, amount: int, isLoan: bool) returns (o: Outcome)
      modifies this`credit
      ensures u >= |old(credit)| ==> o == Refused(CreditAccountNotFound) && credit == old(credit)
      ensures u < |old(credit)| ==>
        && o == Done
        && credit == old(credit)[u := if isLoan then Lend(old(credit)[u], amount) else Collect(old(credit)[u], amount)]
    {
      if u >= |credit| {
        return Refused(CreditAccountNotFound);
      }
      var account := credit[u];
      if isLoan {
        account := account.(available := account.available - amount);
        account := account.(borrowed := account.borrowed + amount);
        account := account.(outstanding := account.outstanding + amount);
      } else {
        account := account.(available := account.available + amount);
        account := account.(repaid := account.repaid + amount);
        account := account.(outstanding := account.outstanding - amount);
      }
      credit := credit[u := account];
      o := Done;
    }

    // ---- LoanService ----------------------------------------------------------------

    method GenerateRepaymentSchedule(l: nat)
      requires l < |loans| && IsTenor(loans[l].tenor)
      modifies this`loans
      ensures loans == old(loans)[l := old(loans)[l].(rows := Schedule(old(loans)[l]))]
    {
      var loan := loans[l];
      var installment := Installment(loan.principal, loan.tenor);
      var rows: seq<Row> := [];
      for i := 1 to loan.tenor + 1
        invariant rows == Schedule(loan)[..i - 1]
      {
        var due := Serial(AddMonths(loan.requested, i));
        rows := rows + [Row(due, installment, 0, Scheduled, 0)];
      }
      assert Schedule(loan)[..loan.tenor] == Schedule(loan);
      loans := loans[l := loan.(rows := rows)];
    }

    method RequestLoan(u: nat, principal: int, tenor: nat, specified: Option<nat>) returns (o: Outcome)
      modifies this
      ensures Result(State(), o) == Operations.RequestLoan(old(State()), u, principal, tenor, specified)
    {
      if principal < MIN_AMOUNT || !IsTenor(tenor) {
        return Refused(InvalidRequest);
      }
      if u >= |customers| {
        return Refused(CustomerNotFound);
      }
      var customer := customers[u];
      if u >= |credit| {
        return Refused(CreditAccountNotFound);
      }
      if credit[u].available < principal {
        return Refused(InsufficientCredit);
      }
      var hasDefaulted := HasDefaulted(loans, u);
      if hasDefaulted {
        return Refused(ExistingDefaultedLoans);
      }
      var target := ResolveAccount(State(), u, specified, None);
      if target.Unresolved? {
        return Refused(target.error);
      }
      var total := TotalAmount(principal, tenor);
      var due := Serial(AddMonths(now.date, tenor));
      var approval := DetermineApproval(principal, customer.score, customer.verified, hasDefaulted);
      var status :=
        if approval == AutoApproved then Approved
        else if approval == ReviewRejected then Rejected
        else Pending;
      var l := |loans|;
      loans := loans + [Loan(u, target.account, principal, tenor, total, total, status, approval, now.date, due, [])];
      if approval == AutoApproved {
        GenerateRepaymentSchedule(l);
        assert loans == old(loans) + [RequestedLoan(old(State()), u, target.account, principal, tenor, approval)];
        o := DisburseLoan(l);
      } else {
        o := Done;
      }
    }

    method DisburseLoan(l: nat) returns (o: Outcome)
      modifies this
      ensures Result(State(), o) == Operations.DisburseLoan(old(State()), l)
    {
      if l >= |loans| {
        return Refused(LoanNotFound);
      }
      if loans[l].status != Approved {
        return Refused(LoanNotApproved);
      }
      var loan := loans[l];
      var target := ResolveAccount(State(), loan.user, None, Some(loan.account));
      if target.Unresolved? {
        return Refused(target.error);
      }
      if loan.user >= |customers| {
        return Refused(CustomerNotFound);
      }
      if loan.user >= |credit| {
        return Refused(CreditAccountNotFound);
      }
      if loan.account != target.account {
        loan := loan.(account := target.account);
      }
      var id, created := CreateTransaction(loan.user, Some(target.account), LoanDisbursement, loan.principal, Some(l));
      var moved := UpdateBalance(target.account, loan.principal, false);
      var lent := UpdateAvailableCredit(loan.user, loan.principal, true);
      loans := loans[l := loan.(status := Disbursed)];
      o := CompleteTransaction(id);
      assert State() == Disbursement(old(State()), l, target.account);
    }

    method RepayLoan(u: nat, l: nat, amount: int, specified: Option<nat>) returns (o: Outcome)
      modifies this
      ensures Result(State(), o) == Operations.RepayLoan(old(State()), u, l, amount, specified)
    {
      if amount < MIN_AMOUNT {
        return Refused(InvalidRequest);
      }
      if l >= |loans| || loans[l].user != u {
        return Refused(LoanNotFound);
      }
      var loan := loans[l];
      if loan.status != Active && loan.status != Disbursed {
        return Refused(LoanNotActive);
      }
      if amount > loan.outstanding {
        return Refused(AmountExceedsOutstanding);
      }
      var source := ResolveAccount(State(), u, specified, Some(loan.account));
      if source.Unresolved? {
        return Refused(source.error);
      }
      var k := FirstRow(loan.rows, Scheduled, 0);
      if k == |loan.rows| {
        k := FirstRow(loan.rows, Overdue, 0);
        if k == |loan.rows| {
          return Refused(NoPendingRepayments);
        }
      }
      if u >= |customers| {
        return Refused(CustomerNotFound);
      }
      if u >= |credit| {
        return Refused(CreditAccountNotFound);
      }
      hide Repayment, Entry, ResolveAccount;
      o := TakeRepayment(u, l, k, amount, source.account);
    }

    // The row and the loan are written in a unit of work that is kept only on commit; the
    // transaction is not part of it.
    method TakeRepayment(u: nat, l: nat, k: nat, amount: int, a: nat) returns (o: Outcome)
      requires l < |loans| && k < |loans[l].rows| && a < |savings| && u < |customers| && u < |credit|
      modifies this
      ensures old(savings)[a].balance < amount ==>
        && o == Refused(InsufficientBalance)
        && ledger == old(ledger) + [Entry(old(State()), u, Some(a), LoanRepayment, amount, Some(l), TxnPending)]
        && State() == old(State()).(ledger := ledger)
      ensures old(savings)[a].balance >= amount ==> o == Done && State() == Repayment(old(State()), u, l, k, amount, a)
    {
      var loan := loans[l];
      var id, created := CreateTransaction(u, Some(a), LoanRepayment, amount, Some(l));
      var row := loan.rows[k];
      var totalDue := row.amount + row.fee;
      row := row.(paid := row.paid + amount);
      if row.paid >= totalDue {
        row := row.(status := Paid);
      } else {
        row := row.(status := PartiallyPaid);
      }
      loan := loan.(rows := loan.rows[k := row]);
      loan := loan.(outstanding := loan.outstanding - amount);
      if loan.outstanding <= 0 {
        loan := loan.(status := FullyPaid);
      } else {
        loan := loan.(status := Active);
      }
      assert loan == PayLoan(old(loans)[l], k, amount);
      hide PayLoan;
      o := UpdateBalance(a, amount, true);
      if o.Refused? {
        return o;
      }
      var collected := UpdateAvailableCredit(u, amount, false);
      o := CompleteTransaction(id);
      loans := loans[l := loan];
    }

    // ---- Administrators -------------------------------------------------------------

    method ApproveLoan(l: nat) returns (o: Outcome)
      modifies this
      ensures Result(State(), o) == Operations.ApproveLoan(old(State()), l)
    {
      if l >= |loans| {
        return Refused(LoanNotFound);
      }
      var loan := loans[l];
      if loan.approval != PendingReview {
        return Refused(LoanNotPendingReview);
      }
      loan := loan.(approval := ManualApproved);
      loan := loan.(status := Approved);
      loans := loans[l := loan];
      o := Done;
    }

    method RejectLoan(l: nat) returns (o: Outcome)
      modifies this
      ensures Result(State(), o) == Operations.RejectLoan(old(State()), l)
    {
      if l >= |loans| {
        return Refused(LoanNotFound);
      }
      var loan := loans[l];
      if loan.approval != PendingReview {
        return Refused(LoanNotPendingReview);
      }
      loan := loan.(approval := ReviewRejected);
      loan := loan.(status := Rejected);
      loans := loans[l := loan];
      o := Done;
    }

    // ---- Nightly jobs ---------------------------------------------------------------

    method Advance(to: Clock) returns (o: Outcome)
      modifies this
      ensures Result(State(), o) == Operations.Advance(old(State()), to)
    {
      if !NotBefore(to, now) {
        return Refused(ClockMovedBack);
      }
      now := to;
      o := Done;
    }

    method MarkOverdue()
      modifies this
      ensures State() == Operations.MarkOverdue(old(State()))
    {
      var today := Serial(now.date);
      var before := loans;
      for l := 0 to |before|
        invariant State() == old(State()).(loans := loans) && |loans| == |before|
        invariant forall m :: 0 <= m < l ==> loans[m] == MarkLoan(before[m], today)
        invariant forall m :: l <= m < |before| ==> loans[m] == before[m]
      {
        var rows := loans[l].rows;
        for i := 0 to |rows|
          invariant |rows| == |before[l].rows|
          invariant forall j :: 0 <= j < i ==> rows[j] == MarkRow(before[l].rows[j], today)
          invariant forall j :: i <= j < |rows| ==> rows[j] == before[l].rows[j]
        {
          if rows[i].status == Scheduled && rows[i].due < today {
            rows := rows[i := rows[i].(status := Overdue)];
          }
        }
        assert rows == MarkLoan(before[l], today).rows;
        loans := loans[l := loans[l].(rows := rows)];
      }
      assert loans == Operations.MarkOverdue(old(State())).loans;
    }

    method ApplyLateFees()
      modifies this
      ensures State() == Operations.ApplyLateFees(old(State()))
    {
      hide LateFee, Round;
      var today := Serial(now.date);
      var before := loans;
      for l := 0 to |before|
        invariant State() == old(State()).(loans := loans) && |loans| == |before|
        invariant forall m :: 0 <= m < l ==> loans[m] == ChargeLoan(before[m], today)
        invariant forall m :: l <= m < |before| ==> loans[m] == before[m]
      {
        var rows := loans[l].rows;
        var principal := loans[l].principal;
        for i := 0 to |rows|
          invariant |rows| == |before[l].rows|
          invariant forall j :: 0 <= j < i ==> rows[j] == ChargeRow(before[l].rows[j], principal, today)
          invariant forall j :: i <= j < |rows| ==> rows[j] == before[l].rows[j]
        {
          if rows[i].status == Overdue {
            var fee := LateFee(today - rows[i].due, rows[i].amount, principal);
            if fee > 0 {
              rows := rows[i := rows[i].(fee := Round(fee, 100))];
            }
          }
        }
        assert rows == ChargeLoan(before[l], today).rows;
        loans := loans[l := loans[l].(rows := rows)];
      }
      assert loans == Operations.ApplyLateFees(old(State())).loans;
    }

    // First collect the loans to default from their rows, then default each of them once.
    method DefaultLoans(shared: bool)
      requires Valid()
      modifies this
      ensures State() == Operations.DefaultLoans(old(State()), shared)
    {
      var toDefault := LongOverdueLoans();
      Preservation.LinksHold(State());
      WriteDefaults(toDefault, shared);
    }

    // The penalty starts from the customer object read with the rows: one object for all of a
    // customer's loans, or one for each.
    method WriteDefaults(toDefault: set<nat>, shared: bool)
      requires forall l: nat :: l in toDefault <==> l < |loans| && NewlyDefaulted(loans[l], Serial(now.date))
      requires forall l :: 0 <= l < |loans| ==> loans[l].user < |customers|
      modifies this`loans, this`customers
      ensures State() == Operations.DefaultLoans(old(State()), shared)
    {
      hide NewlyDefaulted, Serial, DefaultedBut;
      ghost var today := Serial(now.date);
      ghost var before := loans;
      var read := customers;
      var rest := toDefault;
      NoneDefaultedYet(rest, loans, customers, today, shared);
      while rest != {}
        invariant DefaultedBut(rest, before, loans, read, customers, today, shared)
        invariant SameUsers(before, loans) && |customers| == |read|
        invariant forall m: nat :: m in rest ==> m < |before|
      {
        var l :| l in rest;
        var u := loans[l].user;
        OneMoreDefaulted(rest, before, loans, read, customers, today, shared, l);
        loans := loans[l := loans[l].(status := Defaulted)];
        var score := if shared then customers[u].score else read[u].score;
        customers := customers[u := customers[u].(score := Max(MIN_SCORE, score - DEFAULT_PENALTY))];
        rest := rest - {l};
      }
      AllDefaulted(old(State()), loans, customers, shared);
      hide Operations.DefaultLoans;
      DefaultsKeepTheRest(old(State()), shared);
    }

    method LongOverdueLoans() returns (toDefault: set<nat>)
      ensures forall m: nat :: m in toDefault <==> m < |loans| && NewlyDefaulted(loans[m], Serial(now.date))
    {
      var today := Serial(now.date);
      toDefault := {};
      for l := 0 to |loans|
        invariant forall m: nat :: m in toDefault <==> m < l && NewlyDefaulted(loans[m], today)
      {
        for i := 0 to |loans[l].rows|
          invariant forall m: nat :: m != l ==> (m in toDefault <==> m < l && NewlyDefaulted(loans[m], today))
          invariant l in toDefault <==> loans[l].status != Defaulted && LongOverdueBefore(loans[l], today, i)
        {
          var row := loans[l].rows[i];
          if row.status == Overdue && today - row.due >= DEFAULT_THRESHOLD_DAYS && loans[l].status != Defaulted {
            if l !in toDefault {
              toDefault := toDefault + {l};
            }
          }
        }
      }
    }

    // The account object is changed first and saved last, so the transaction starts from the
    // stored balance; fractions of a cent are rounded away as each column is saved.
    method CompoundInterest(a: nat)
      requires a < |savings| && savings[a].owner < |customers|
      requires 0 <= savings[a].balance && 0 <= savings[a].rate && 0 <= savings[a].accrued
      modifies this`savings, this`ledger
      ensures State() == CreditInterest(old(State()), a)
    {
      var account := savings[a];
      var daily := InterestNumerator(account.balance, account.rate);
      var interest := account.accrued * INTEREST_SCALE + daily;
      var balance := account.balance * INTEREST_SCALE + interest;
      InterestBook.StoredSumsRoundAlike(account, account.accrued);
      InterestBook.StoredSumsRoundAlike(account, account.balance + account.accrued);
      assert balance == (account.balance + account.accrued) * INTEREST_SCALE + daily;
      var id, created :=
        CreateTransaction(account.owner, Some(a), InterestCredit, Round(interest, INTEREST_SCALE), None);
      var completed := CompleteTransaction(id);
      savings := savings[a := account.(balance := Round(balance, INTEREST_SCALE), accrued := 0)];
    }

    // Account by account, in the order of the query: accrue, at a month end pay out, save, and take
    // the day's snapshot. A snapshot refused by the unique index throws, and ends the job.
    method AccrueInterest(order: seq<nat>)
      requires Valid() && IsOrder(order, |savings|)
      modifies this
      ensures State() == AccrueUpTo(old(State()), order, |order|)
    {
      ghost var start := State();
      var today := Serial(now.date);
      var lastDayOfMonth := IsLastDayOfMonth(now.date);
      hide Inv, DailyInterest, EarnsInterest, IsLastDayOfMonth, Serial, Round, HasSnapshot, AccrueUpTo, EndedBefore,
        InterestNumerator;
      InterestBook.NoneEnded(start, order);
      for n := 0 to |order|
        invariant State() == AccrueUpTo(start, order, n) && Inv(State()) && !EndedBefore(start, order, n)
      {
        Preservation.AccrueUpToKeeps(start, order, n + 1);
        InterestBook.NextTurn(start, order, n);
        var a := order[n];
        StoredAccount(State(), a);
        var account := savings[a];
        if account.status == AccountActive {
          var accrued := account.accrued * INTEREST_SCALE + InterestNumerator(account.balance, account.rate);
          if lastDayOfMonth && EarnsInterest(account) {
            CompoundInterest(a);
          } else {
            InterestBook.StoredSumsRoundAlike(account, account.accrued);
            savings := savings[a := account.(accrued := Round(accrued, INTEREST_SCALE))];
          }
          if HasSnapshot(snapshots, a, today) {
            InterestBook.EndedForGood(start, order, n + 1, |order|);
            return;
          }
          snapshots := snapshots + [Snapshot(a, savings[a].balance, today)];
        }
      }
    }

    method EvaluateTiers()
      modifies this
      ensures State() == Operations.EvaluateTiers(old(State()))
    {
      hide DetermineTier, RecentBalances, Serial, AgeInMonths;
      var today := Serial(now.date);
      var before := savings;
      for a := 0 to |before|
        invariant State() == old(State()).(savings := savings) && |savings| == |before|
        invariant forall b :: 0 <= b < a ==> savings[b] == EvaluateAccount(old(State()), b)
        invariant forall b :: a <= b < |before| ==> savings[b] == before[b]
      {
        var account := savings[a];
        var balances := RecentBalances(snapshots, a, today - EVALUATION_PERIOD_DAYS);
        if account.status == AccountActive && balances != [] {
          var verified := account.owner < |customers| && customers[account.owner].verified;
          var tier := DetermineTier(balances, AgeInMonths(account.openedAt, now), verified);
          if tier != account.tier {
            savings := savings[a := account.(tier := tier, rate := TierRate(tier))];
          }
        }
      }
      assert savings == Operations.EvaluateTiers(old(State())).savings;
    }

    // ---- Any event ------------------------------------------------------------------

    // The scheduler starts a job.
    method StartJob(e: Event) returns (o: Outcome)
      requires Valid() && IsJob(e)
      modifies this
      ensures Result(State(), o) == Apply(old(State()), e)
    {
      hide AccrueUpTo, Operations.MarkOverdue, Operations.ApplyLateFees, Operations.DefaultLoans,
        Operations.EvaluateTiers;
      o := Done;
      match e
      case DoAccrueInterest(order) =>
        if !IsOrder(order, |savings|) {
          return Refused(InvalidRequest);
        }
        AccrueInterest(order);
      case DoMarkOverdue => MarkOverdue();
      case DoApplyLateFees => ApplyLateFees();
      case DoDefaultLoans(shared) => DefaultLoans(shared);
      case DoEvaluateTiers => EvaluateTiers();
    }

    method HandleLoanRequest(e: Event) returns (o: Outcome)
      requires IsLoanRequest(e)
      modifies this
      ensures Result(State(), o) == Apply(old(State()), e)
    {
      hide Operations.RequestLoan, Operations.ApproveLoan, Operations.RejectLoan, Operations.DisburseLoan,
        Operations.RepayLoan;
      match e
      case DoRequestLoan(u, p, tenor, a) => o := RequestLoan(u, p, tenor, a);
      case DoApproveLoan(l) => o := ApproveLoan(l);
      case DoRejectLoan(l) => o := RejectLoan(l);
      case DoDisburseLoan(l) => o := DisburseLoan(l);
      case DoRepayLoan(u, l, amount, a) => o := RepayLoan(u, l, amount, a);
    }

    method HandleAccountRequest(e: Event) returns (o: Outcome)
      requires !IsJob(e) && !IsLoanRequest(e)
      modifies this
      ensures Result(State(), o) == Apply(old(State()), e)
    {
      hide Operations.Register, Operations.VerifyCustomer, Operations.SetCreditScore, Operations.OpenSavings,
        Operations.MakeDeposit, Operations.Withdraw, Operations.CloseSavings, Operations.SetCreditLimit,
        Operations.Advance;
      match e
      case DoRegister(limit) => o := Register(limit);
      case DoVerifyCustomer(u) => o := VerifyCustomer(u);
      case DoSetCreditScore(u, score) => o := SetCreditScore(u, score);
      case DoOpenSavings(u) => o := OpenSavings(u);
      case DoDeposit(u, a, amount) => o := MakeDeposit(u, a, amount);
      case DoWithdraw(u, a, amount) => o := Withdraw(u, a, amount);
      case DoCloseSavings(u, a) => o := CloseSavings(u, a);
      case DoSetCreditLimit(u, limit) => o := SetCreditLimit(u, limit);
      case DoAdvance(to) => o := Advance(to);
    }

    // The bank takes the step of the runs, whatever the event.
    method Handle(e: Event) returns (o: Outcome)
      requires Valid()
      modifies this
      ensures Valid() && Result(State(), o) == Apply(old(State()), e)
    {
      StepKeepsInv(State(), e);
      hide Inv, Apply;
      if IsJob(e) {
        o := StartJob(e);
      } else if IsLoanRequest(e) {
        o := HandleLoanRequest(e);
      } else {
        o := HandleAccountRequest(e);
      }
    }
  }

  // Serving any list of events, one after the other, is a run.
  method Serve(start: Clock, evs: seq<Event>) returns (bank: Bank)
    ensures fresh(bank) && bank.Valid() && bank.State() == Run(start, evs)
  {
    bank := new Bank(start);
    for i := 0 to |evs|
      invariant fresh(bank) && bank.Valid() && bank.State() == Run(start, evs[..i])
    {
      var o := bank.Handle(evs[i]);
      assert evs[..i + 1][..i] == evs[..i];
    }
    assert evs[..|evs|] == evs;
  }
}
