// Every service call and every nightly job keeps the invariant.
module Preservation {
  import opened Calendar
  import Money
  import opened Sums
  import opened Model
  import opened Operations
  import opened Invariants
  import opened Tables

  // ---- Customers and savings --------------------------------------------------------

  lemma RegisterKeeps(s: Books, initialLimit: int)
    requires Inv(s)
    ensures Inv(Register(s, initialLimit).books)
  {
    var users := |s.credit|;
    SavingsRegistered(s.savings, users, s.now);
    LedgerAccountOpened(s.savings, s.ledger, users, s.now);
    CreditRegistered(s, NewCredit(s.now, initialLimit));
    hide LoanOk, LoanBook, CreditOk, LedgerOk, SavingsOk;
  }

  lemma CreditRegistered(s: Books, c: Credit)
    requires Inv(s) && MIN_CREDIT_LIMIT <= c.limit <= MAX_CREDIT_LIMIT
    requires c == Credit(c.openedAt, c.limit, c.limit, 0, 0, 0)
    ensures CreditOk(s.credit + [c], s.loans, s.ledger)
  {
    hide LoanOk, LoanBook;
    var users := |s.credit|;
    SumZero(s.loans, BorrowedBy(users));
    SumZero(s.loans, RepaidBy(users));
    SumZero(s.loans, ManuallyLentTo(users));
    SumZero(s.ledger, UserFlow(users, LoanDisbursement));
    SumZero(s.ledger, UserFlow(users, LoanRepayment));
  }

  lemma CustomersKeep(s: Books, u: nat, score: int)
    requires Inv(s)
    ensures Inv(VerifyCustomer(s, u).books) && Inv(SetCreditScore(s, u, score).books)
  {
    hide LoansOk, SavingsOk, LinksOk, LedgerOk, LoanBooksOk, CreditOk, NoneInFlight;
  }

  lemma OpenSavingsKeeps(s: Books, u: nat)
    requires Inv(s)
    ensures Inv(OpenSavings(s, u).books)
  {
    if u < |s.credit| {
      SavingsOpened(s.savings, |s.credit|, u, s.now);
      LedgerAccountOpened(s.savings, s.ledger, u, s.now);
    }
  }

  // A completed transaction that moves no loan money, on an active account that can bear it.
  lemma PostKeeps(s: Books, a: nat, kind: Kind, amount: int)
    requires Inv(s) && a < |s.savings| && s.savings[a].status == AccountActive
    requires kind == Deposit || kind == Withdrawal
    requires 0 <= amount && 0 <= s.savings[a].balance + SignedAmount(kind, amount)
    ensures Inv(Post(s, s.savings[a].owner, a, kind, amount, None))
  {
    var t := Entry(s, s.savings[a].owner, Some(a), kind, amount, None, TxnCompleted);
    PostTables(s, a, t);
    BooksIgnoreNeutral(s.credit, s.loans, s.ledger, t);
  }

  lemma MakeDepositKeeps(s: Books, u: nat, a: nat, amount: int)
    requires Inv(s)
    ensures Inv(MakeDeposit(s, u, a, amount).books)
  {
    if MakeDeposit(s, u, a, amount).outcome == Done {
      PostKeeps(s, a, Deposit, amount);
    }
  }

  lemma WithdrawKeeps(s: Books, u: nat, a: nat, amount: int)
    requires Inv(s)
    ensures Inv(Withdraw(s, u, a, amount).books)
  {
    if Withdraw(s, u, a, amount).outcome == Done {
      PostKeeps(s, a, Withdrawal, amount);
    }
  }

  lemma CloseSavingsKeeps(s: Books, u: nat, a: nat)
    requires Inv(s)
    ensures Inv(CloseSavings(s, u, a).books)
  {
    hide LoanOk, LoanBook, CreditBook, TxnOk;
    if CloseSavings(s, u, a).outcome == Done {
      SavingsClosed(s.savings, |s.credit|, a);
      LedgerSameBalances(s.savings, s.savings[a := s.savings[a].(status := AccountClosed)], s.ledger);
      hide SavingsOk, LedgerOk, LoanBooksOk, CreditOk;
    }
  }

  // ---- Credit limit -----------------------------------------------------------------

  // The clamp may push the limit below the new request, but never past what the manually
  // lent principal already allowed.
  lemma SetCreditLimitKeeps(s: Books, u: nat, newLimit: int)
    requires Inv(s)
    ensures Inv(SetCreditLimit(s, u, newLimit).books)
  {
    if u < |s.credit| {
      SumNonNegative(s.loans, ManuallyLentTo(u));
      hide LoanOk, LoanBook, TxnOk;
    }
  }

  // ---- Loan requests and the manual workflow ----------------------------------------

  lemma TotalCoversPrincipal(principal: int, tenor: nat)
    requires 0 <= principal
    ensures principal <= TotalAmount(principal, tenor)
  {
  }

  lemma RequestedRowsOk(s: Books, u: nat, a: nat, principal: int, tenor: nat, approval: Approval)
    requires IsTenor(tenor)
    ensures var loan := RequestedLoan(s, u, a, principal, tenor, approval);
            && |loan.rows| == (if approval == AutoApproved then tenor else 0)
            && IsScheduleOf(loan.rows, loan) && RowsOk(loan, s.Today()) && Sum(loan.rows, PaidOf()) == 0
  {
    hide Installment, SavedFee, AddMonths, Serial, TotalAmount, IsTenor;
    SumZero(RequestedLoan(s, u, a, principal, tenor, approval).rows, PaidOf());
  }

  lemma RequestedLoanOk(s: Books, u: nat, a: nat, principal: int, tenor: nat, approval: Approval)
    requires IsTenor(tenor) && MIN_AMOUNT <= principal && approval != ManualApproved
    requires approval == AutoApproved ==> principal <= AUTO_APPROVAL_THRESHOLD
    ensures LoanOk(RequestedLoan(s, u, a, principal, tenor, approval), s.Today())
  {
    TotalCoversPrincipal(principal, tenor);
    RequestedRowsOk(s, u, a, principal, tenor, approval);
    hide TotalAmount, AddMonths, Serial, IsScheduleOf, RowsOk, Schedule, IsTenor;
  }

  lemma LoanAddedBooks(credit: seq<Credit>, loans: seq<Loan>, ledger: seq<Txn>, loan: Loan)
    requires LoanBooksOk(loans, ledger) && CreditOk(credit, loans, ledger)
    requires loan.outstanding == loan.total && !Lent(loan.status) && Sum(loan.rows, SettledOf()) == 0
    ensures LoanBooksOk(loans + [loan], ledger) && CreditOk(credit, loans + [loan], ledger)
  {
    var n := |loans|;
    assert LoanBook(n, loan, ledger) by {
      SumZero(ledger, LoanFlow(n, LoanDisbursement));
      SumZero(ledger, LoanCount(n, LoanDisbursement));
      SumZero(ledger, LoanFlow(n, LoanRepayment));
      SumZero(ledger, LoanCount(n, LoanRepayment));
    }
    forall u | 0 <= u < |credit| ensures CreditBook(u, credit[u], loans + [loan], ledger) {
      SumAppend(loans, loan, BorrowedBy(u));
      SumAppend(loans, loan, RepaidBy(u));
      SumAppend(loans, loan, ManuallyLentTo(u));
    }
  }

  lemma LoanAdded(s: Books, loan: Loan)
    requires Core(s) && LoanOk(loan, s.Today()) && !Lent(loan.status)
    requires loan.user < |s.credit| && loan.account < |s.savings|
    requires s.savings[loan.account].owner == loan.user && s.savings[loan.account].status == AccountActive
    requires Sum(loan.rows, SettledOf()) == 0
    ensures Core(s.(loans := s.loans + [loan]))
  {
    assert loan.outstanding == loan.total;
    hide LoanOk, LoanBook, CreditBook, TxnOk;
    LoanAddedBooks(s.credit, s.loans, s.ledger, loan);
  }

  // Money moved for loan l: only that loan's book can have changed.
  lemma LoanBookMoved(loans: seq<Loan>, ledger: seq<Txn>, l: nat, loan: Loan, t: Txn)
    requires LoanBooksOk(loans, ledger) && l < |loans|
    requires t.loan == Some(l) && TagOk(t, loans) && loan.user == loans[l].user && LoanBook(l, loan, ledger + [t])
    ensures LoanBooksOk(loans[l := loan], ledger + [t])
  {
    forall m | 0 <= m < |loans| && m != l ensures LoanBook(m, loans[m], ledger + [t]) {
      LoanTotalsAfter(m, ledger, t);
    }
  }

  lemma CreditBookMoved(credit: seq<Credit>, loans: seq<Loan>, ledger: seq<Txn>, l: nat, loan: Loan, c: Credit, t: Txn)
    requires CreditOk(credit, loans, ledger) && l < |loans|
    requires loan.user == loans[l].user == t.user < |credit|
    requires CreditBook(t.user, c, loans[l := loan], ledger + [t])
    ensures CreditOk(credit[t.user := c], loans[l := loan], ledger + [t])
  {
    forall v | 0 <= v < |credit| && v != t.user ensures CreditBook(v, credit[v], loans[l := loan], ledger + [t]) {
      UserTotalsAfter(v, ledger, t);
      LoanTableTotals(loans, l, loan, v);
    }
  }

  lemma DisbursedBooks(credit: seq<Credit>, loans: seq<Loan>, ledger: seq<Txn>, l: nat, t: Txn)
    requires LoanBooksOk(loans, ledger) && CreditOk(credit, loans, ledger) && l < |loans|
    requires loans[l].status == Approved && loans[l].user < |credit| && 0 <= loans[l].principal
    requires loans[l].approval == ManualApproved || loans[l].principal <= credit[loans[l].user].available
    requires t.loan == Some(l) && t.user == loans[l].user && t.amount == loans[l].principal
    requires t.kind == LoanDisbursement && t.status == TxnCompleted
    requires forall m :: 0 <= m < |loans| && Lent(loans[m].status) ==> 0 <= loans[m].principal
    ensures var loan := loans[l].(status := Disbursed);
            && LoanBooksOk(loans[l := loan], ledger + [t])
            && CreditOk(credit[t.user := Lend(credit[t.user], t.amount)], loans[l := loan], ledger + [t])
  {
    var loan := loans[l].(status := Disbursed);
    LoanTotalsAfter(l, ledger, t);
    LoanBookMoved(loans, ledger, l, loan, t);
    UserTotalsAfter(t.user, ledger, t);
    LoanTableTotals(loans, l, loan, t.user);
    SumNonNegative(loans, ManuallyLentTo(t.user));
    CreditBookMoved(credit, loans, ledger, l, loan, Lend(credit[t.user], t.amount), t);
  }

  // The terms of a loan depend on nothing that moves later.
  lemma TermsKept(loan: Loan, loan': Loan)
    requires TermsOk(loan)
    requires loan'.principal == loan.principal && loan'.tenor == loan.tenor && loan'.total == loan.total
    requires loan'.requested == loan.requested && loan'.due == loan.due && |loan'.rows| == |loan.rows|
    requires loan'.approval == AutoApproved <==> loan.approval == AutoApproved
    requires forall i :: 0 <= i < |loan.rows| ==>
               loan'.rows[i].due == loan.rows[i].due && loan'.rows[i].amount == loan.rows[i].amount
    ensures TermsOk(loan')
  {
    forall i | 0 <= i < |loan'.rows|
      ensures loan'.rows[i].due == ScheduleRow(loan', i).due && loan'.rows[i].amount == ScheduleRow(loan', i).amount
    {
      assert loan.rows[i].due == ScheduleRow(loan, i).due && loan.rows[i].amount == ScheduleRow(loan, i).amount;
    }
  }

  lemma DisbursedLoanOk(loan: Loan, today: int)
    requires LoanOk(loan, today) && loan.status == Approved
    ensures LoanOk(loan.(status := Disbursed), today)
  {
    hide TermsOk;
    TermsKept(loan, loan.(status := Disbursed));
  }

  lemma PrincipalsPositive(loans: seq<Loan>, today: int)
    requires LoansOk(loans, today)
    ensures forall l :: 0 <= l < |loans| ==> 0 < loans[l].principal
  {
  }

  // Money out: the balance, the ledger, the credit account and the loan move together.
  lemma DisbursementKeeps(s: Books, l: nat)
    requires Core(s) && l < |s.loans| && s.loans[l].status == Approved
    requires s.loans[l].approval == ManualApproved || s.loans[l].principal <= s.credit[s.loans[l].user].available
    ensures Core(Disbursement(s, l, s.loans[l].account))
  {
    hide LoanOk, LoanBook, CreditBook, TxnOk;
    var loan := s.loans[l];
    PrincipalsPositive(s.loans, s.Today());
    var t := Entry(s, loan.user, Some(loan.account), LoanDisbursement, loan.principal, Some(l), TxnCompleted);
    assert loan.(account := loan.account, status := Disbursed) == loan.(status := Disbursed);
    DisbursedLoanOk(loan, s.Today());
    DisbursedBooks(s.credit, s.loans, s.ledger, l, t);
    PostTables(s, loan.account, t);
  }

  // The savings and ledger tables after a posting.
  lemma PostTables(s: Books, a: nat, t: Txn)
    requires SavingsOk(s.savings, |s.credit|) && LedgerOk(s.savings, s.ledger) && a < |s.savings|
    requires s.savings[a].status == AccountActive
    requires 0 <= t.amount && (t.kind == LoanRepayment ==> MIN_AMOUNT <= t.amount)
    requires t.kind != FeeCharge && t.kind != LateFeeCharge
    requires t == Entry(s, s.savings[a].owner, Some(a), t.kind, t.amount, t.loan, TxnCompleted)
    requires 0 <= s.savings[a].balance + SignedAmount(t.kind, t.amount)
    ensures var s' := Post(s, t.user, a, t.kind, t.amount, t.loan);
            && s'.ledger == s.ledger + [t]
            && SavingsOk(s'.savings, |s.credit|) && LedgerOk(s'.savings, s'.ledger)
  {
    var s' := Post(s, t.user, a, t.kind, t.amount, t.loan);
    SavingsUpdated(s.savings, |s.credit|, a, s'.savings[a]);
    LedgerExtended(s.savings, s'.savings, s.ledger, t);
  }

  // The account a stored loan in progress points at is the one it is paid into: the branch
  // that re-links a loan is never taken.
  lemma NoRelink(s: Books, l: nat)
    requires Core(s) && l < |s.loans| && Live(s.loans[l].status)
    ensures ResolveAccount(s, s.loans[l].user, None, Some(s.loans[l].account)) == Resolved(s.loans[l].account)
  {
  }

  lemma DisburseLoanKeeps(s: Books, l: nat)
    requires Inv(s)
    ensures Inv(DisburseLoan(s, l).books)
  {
    hide TermsOk, RowsOk, LoanBook, CreditBook, TxnOk, SavingsOk;
    if l < |s.loans| && s.loans[l].status == Approved {
      NoRelink(s, l);
      DisbursementKeeps(s, l);
    }
  }

  lemma LoanStored(s: Books, loan: Loan, principal: int, tenor: nat)
    requires Inv(s) && IsTenor(tenor) && MIN_AMOUNT <= principal && loan.approval != ManualApproved
    requires loan.approval == AutoApproved ==> principal <= AUTO_APPROVAL_THRESHOLD
    requires loan == RequestedLoan(s, loan.user, loan.account, principal, tenor, loan.approval)
    requires s.Owns(loan.user, loan.account) && loan.user < |s.credit|
    requires s.savings[loan.account].status == AccountActive
    ensures Core(s.(loans := s.loans + [loan]))
  {
    RequestedLoanOk(s, loan.user, loan.account, principal, tenor, loan.approval);
    SumZero(loan.rows, SettledOf());
    LoanAdded(s, loan);
  }

  lemma AutoLoanDisbursed(s: Books, l: nat)
    requires Core(s) && l + 1 == |s.loans| && NoneInFlight(s.loans[..l])
    requires s.loans[l].status == Approved && s.loans[l].principal <= s.credit[s.loans[l].user].available
    ensures DisburseLoan(s, l).outcome == Done && Inv(DisburseLoan(s, l).books)
  {
    hide LoansOk, SavingsOk, LedgerOk, LoanBooksOk, CreditOk, ResolveAccount;
    NoRelink(s, l);
    DisbursementKeeps(s, l);
    var loans := Disbursement(s, l, s.loans[l].account).loans;
    forall m | 0 <= m < |loans| && loans[m].approval == AutoApproved ensures loans[m].status != Approved {
      if m < l {
        assert loans[m] == s.loans[..l][m];
      }
    }
  }

  lemma RequestLoanKeeps(s: Books, u: nat, principal: int, tenor: nat, specified: Option<nat>)
    requires Inv(s)
    ensures Inv(RequestLoan(s, u, principal, tenor, specified).books)
  {
    hide LoanOk, LoanBook, CreditBook, TxnOk, TotalAmount, Schedule, SavingsOk;
    var r := RequestLoan(s, u, principal, tenor, specified);
    if r.books != s {
      var a := ResolveAccount(s, u, specified, None).account;
      var approval := DetermineApproval(principal, s.customers[u].score, s.customers[u].verified, false);
      var loan := RequestedLoan(s, u, a, principal, tenor, approval);
      var s' := s.(loans := s.loans + [loan]);
      LoanStored(s, loan, principal, tenor);
      if approval == AutoApproved {
        assert s'.loans[..|s.loans|] == s.loans;
        AutoLoanDisbursed(s', |s.loans|);
      }
    }
  }

  lemma ReviewedLoanOk(loan: Loan, today: int)
    requires LoanOk(loan, today) && loan.approval == PendingReview
    ensures loan.status == Pending
    ensures LoanOk(loan.(approval := ManualApproved, status := Approved), today)
    ensures LoanOk(loan.(approval := ReviewRejected, status := Rejected), today)
  {
    hide TermsOk;
    TermsKept(loan, loan.(approval := ManualApproved, status := Approved));
    TermsKept(loan, loan.(approval := ReviewRejected, status := Rejected));
  }

  lemma LoanReplaced(s: Books, l: nat, loan: Loan, savings: seq<Savings>)
    requires Inv(s) && l < |s.loans| && LoanOk(loan, s.Today())
    requires loan.user == s.loans[l].user && loan.account == s.loans[l].account
    requires loan.approval == AutoApproved ==> loan.status != Approved
    requires Live(loan.status) ==> Live(s.loans[l].status)
    requires |savings| == |s.savings| && forall a :: 0 <= a < |savings| ==>
               savings[a].owner == s.savings[a].owner && savings[a].status == s.savings[a].status
    ensures LoansOk(s.loans[l := loan], s.Today()) && NoneInFlight(s.loans[l := loan])
    ensures LinksOk(s.loans[l := loan], savings, |s.credit|)
  {
    hide LoanOk, SavingsOk, LedgerOk, LoanBooksOk, CreditOk, CustomersOk;
  }

  lemma LoanReviewed(s: Books, l: nat, loan: Loan)
    requires Inv(s) && l < |s.loans| && s.loans[l].approval == PendingReview
    requires loan == s.loans[l].(approval := ManualApproved, status := Approved)
          || loan == s.loans[l].(approval := ReviewRejected, status := Rejected)
    ensures Inv(s.(loans := s.loans[l := loan]))
  {
    hide LoanOk, LoanBook, CreditBook, TxnOk, SavingsOk, LedgerOk;
    ReviewedLoanOk(s.loans[l], s.Today());
    LoanReplaced(s, l, loan, s.savings);
    BooksIgnoreSameDebt(s.credit, s.loans, s.loans[l := loan], s.ledger);
    hide LoansOk, LinksOk, LoanBooksOk, CreditOk, NoneInFlight;
  }

  lemma ApproveLoanKeeps(s: Books, l: nat)
    requires Inv(s)
    ensures Inv(ApproveLoan(s, l).books)
  {
    if ApproveLoan(s, l).outcome == Done {
      LoanReviewed(s, l, s.loans[l].(approval := ManualApproved, status := Approved));
    }
  }

  lemma RejectLoanKeeps(s: Books, l: nat)
    requires Inv(s)
    ensures Inv(RejectLoan(s, l).books)
  {
    if RejectLoan(s, l).outcome == Done {
      LoanReviewed(s, l, s.loans[l].(approval := ReviewRejected, status := Rejected));
    }
  }

  // ---- Repayment --------------------------------------------------------------------

  // A payment into row k, the first scheduled one or the first overdue one, settles that row.
  lemma PaidRowsOk(loan: Loan, amount: int, today: int)
    requires RowsOk(loan, today) && 0 < amount && TargetRow(loan.rows) < |loan.rows|
    ensures var loan' := PayLoan(loan, TargetRow(loan.rows), amount); RowsOk(loan', today)
  {
    hide SavedFee;
    var k := TargetRow(loan.rows);
    assert RowOk(loan.rows[k], loan.principal, today);
  }

  lemma PaidSums(rows: seq<Row>, k: nat, amount: int)
    requires k < |rows| && rows[k].Unpaid()
    ensures var rows' := rows[k := PayRow(rows[k], amount)];
            && Sum(rows', PaidOf()) == Sum(rows, PaidOf()) + amount
            && Sum(rows', SettledOf()) == Sum(rows, SettledOf()) + 1
            && Sum(rows', UnpaidOf()) == Sum(rows, UnpaidOf()) - 1
  {
    SumUpdate(rows, k, PayRow(rows[k], amount), PaidOf());
    SumUpdate(rows, k, PayRow(rows[k], amount), SettledOf());
    SumUpdate(rows, k, PayRow(rows[k], amount), UnpaidOf());
  }

  lemma PayLoanOk(loan: Loan, amount: int, today: int)
    requires LoanOk(loan, today) && (loan.status == Active || loan.status == Disbursed)
    requires 0 < amount <= loan.outstanding && TargetRow(loan.rows) < |loan.rows|
    ensures var loan' := PayLoan(loan, TargetRow(loan.rows), amount);
            && LoanOk(loan', today)
            && Sum(loan'.rows, SettledOf()) == Sum(loan.rows, SettledOf()) + 1
            && Sum(loan'.rows, UnpaidOf()) == Sum(loan.rows, UnpaidOf()) - 1
  {
    var k := TargetRow(loan.rows);
    assert loan.rows != [] ==> loan.approval == AutoApproved;
    hide TermsOk, RowsOk, RowOk, TargetRow;
    TermsKept(loan, PayLoan(loan, k, amount));
    PaidRowsOk(loan, amount, today);
    PaidSums(loan.rows, k, amount);
  }

  lemma RepaidBooks(credit: seq<Credit>, loans: seq<Loan>, ledger: seq<Txn>, l: nat, t: Txn, today: int)
    requires LoanBooksOk(loans, ledger) && CreditOk(credit, loans, ledger) && l < |loans|
    requires LoanOk(loans[l], today) && loans[l].user < |credit|
    requires loans[l].status == Active || loans[l].status == Disbursed
    requires 0 < t.amount <= loans[l].outstanding && TargetRow(loans[l].rows) < |loans[l].rows|
    requires t.loan == Some(l) && t.user == loans[l].user && t.kind == LoanRepayment && t.status == TxnCompleted
    ensures var loan := PayLoan(loans[l], TargetRow(loans[l].rows), t.amount);
            && LoanBooksOk(loans[l := loan], ledger + [t])
            && CreditOk(credit[t.user := Collect(credit[t.user], t.amount)], loans[l := loan], ledger + [t])
  {
    var loan := PayLoan(loans[l], TargetRow(loans[l].rows), t.amount);
    PayLoanOk(loans[l], t.amount, today);
    LoanTotalsAfter(l, ledger, t);
    LoanBookMoved(loans, ledger, l, loan, t);
    UserTotalsAfter(t.user, ledger, t);
    LoanTableTotals(loans, l, loan, t.user);
    CreditBookMoved(credit, loans, ledger, l, loan, Collect(credit[t.user], t.amount), t);
  }

  // Money back: row, loan, balance, ledger and credit account move together.
  lemma RepaymentKeeps(s: Books, u: nat, l: nat, amount: int, a: nat)
    requires Inv(s) && l < |s.loans| && s.loans[l].user == u && a < |s.savings| && s.Owns(u, a)
    requires s.loans[l].status == Active || s.loans[l].status == Disbursed
    requires MIN_AMOUNT <= amount <= s.loans[l].outstanding && TargetRow(s.loans[l].rows) < |s.loans[l].rows|
    requires s.savings[a].status == AccountActive && amount <= s.savings[a].balance
    ensures Inv(Repayment(s, u, l, TargetRow(s.loans[l].rows), amount, a))
  {
    hide LoanOk, LoanBook, CreditBook, TxnOk;
    var t := Entry(s, u, Some(a), LoanRepayment, amount, Some(l), TxnCompleted);
    var loan := PayLoan(s.loans[l], TargetRow(s.loans[l].rows), amount);
    PayLoanOk(s.loans[l], amount, s.Today());
    LoanReplaced(s, l, loan, Post(s, u, a, LoanRepayment, amount, Some(l)).savings);
    RepaidBooks(s.credit, s.loans, s.ledger, l, t, s.Today());
    PostTables(s, a, t);
    hide LoansOk, SavingsOk, LinksOk, LedgerOk, LoanBooksOk, CreditOk, NoneInFlight;
  }

  lemma RefusedRepaymentKeeps(s: Books, l: nat, a: nat, amount: int)
    requires Inv(s) && l < |s.loans| && s.Owns(s.loans[l].user, a) && MIN_AMOUNT <= amount
    ensures var t := Entry(s, s.loans[l].user, Some(a), LoanRepayment, amount, Some(l), TxnPending);
            Inv(s.(ledger := s.ledger + [t]))
  {
    hide LoanOk, LoanBook, CreditBook, SavingsOk;
    var t := Entry(s, s.loans[l].user, Some(a), LoanRepayment, amount, Some(l), TxnPending);
    LedgerExtended(s.savings, s.savings, s.ledger, t);
    BooksIgnoreNeutral(s.credit, s.loans, s.ledger, t);
  }

  lemma LinksHold(s: Books)
    requires Inv(s)
    ensures LinksOk(s.loans, s.savings, |s.credit|) && |s.customers| == |s.credit|
  {
  }

  lemma SourceIsOwn(s: Books, u: nat, l: nat, specified: Option<nat>)
    requires LinksOk(s.loans, s.savings, |s.credit|) && l < |s.loans| && s.loans[l].user == u
    ensures var source := ResolveAccount(s, u, specified, Some(s.loans[l].account));
            source.Resolved? ==> s.Owns(u, source.account) && s.savings[source.account].status == AccountActive
  {
  }

  lemma RepayLoanKeeps(s: Books, u: nat, l: nat, amount: int, specified: Option<nat>)
    requires Inv(s)
    ensures Inv(RepayLoan(s, u, l, amount, specified).books)
  {
    hide Inv, LinksOk, Repayment, Entry, TargetRow, ResolveAccount;
    var r := RepayLoan(s, u, l, amount, specified);
    if r.books != s {
      LinksHold(s);
      var a := ResolveAccount(s, u, specified, Some(s.loans[l].account)).account;
      SourceIsOwn(s, u, l, specified);
      if r.outcome == Done {
        RepaymentKeeps(s, u, l, amount, a);
      } else {
        RefusedRepaymentKeeps(s, l, a, amount);
      }
    }
  }

  // ---- Clock and nightly loan jobs --------------------------------------------------

  lemma AdvanceKeeps(s: Books, to: Clock)
    requires Inv(s)
    ensures Inv(Advance(s, to).books)
  {
    var s' := Advance(s, to).books;
    forall l | 0 <= l < |s.loans| ensures LoanOk(s.loans[l], s'.Today()) {
      OlderLoanOk(s.loans[l], s.Today(), s'.Today());
    }
  }

  lemma OlderLoanOk(loan: Loan, today: int, later: int)
    requires LoanOk(loan, today) && today <= later
    ensures LoanOk(loan, later)
  {
  }

  lemma ScheduleIncreases(loan: Loan, i: nat, j: nat)
    requires IsTenor(loan.tenor) && IsScheduleOf(loan.rows, loan) && i < j < |loan.rows|
    ensures loan.rows[i].due < loan.rows[j].due
  {
    AddMonthsGrows(loan.requested, i + 1, j + 1);
  }

  // Rewriting rows without touching what is due, what was paid or what is overdue.
  lemma RowsRewritten(loan: Loan, rows: seq<Row>, today: int)
    requires LoanOk(loan, today) && |rows| == |loan.rows| && ScheduledSuffix(rows)
    requires forall i :: 0 <= i < |rows| ==>
               && RowOk(rows[i], loan.principal, today)
               && rows[i].due == loan.rows[i].due && rows[i].amount == loan.rows[i].amount
               && rows[i].paid == loan.rows[i].paid && rows[i].Unpaid() == loan.rows[i].Unpaid()
               && (loan.rows[i].status == Overdue ==> rows[i].status == Overdue)
    ensures LoanOk(loan.(rows := rows), today) && SameDebt(loan, loan.(rows := rows))
  {
    hide TermsOk;
    TermsKept(loan, loan.(rows := rows));
    SumSame(loan.rows, rows, PaidOf(), PaidOf());
    if LongOverdue(loan, today) {
      var i :| 0 <= i < |loan.rows| && loan.rows[i].status == Overdue
               && today - loan.rows[i].due >= DEFAULT_THRESHOLD_DAYS;
      assert rows[i].status == Overdue;
    }
  }

  lemma MarkLoanOk(loan: Loan, today: int)
    requires LoanOk(loan, today)
    ensures LoanOk(MarkLoan(loan, today), today) && SameDebt(loan, MarkLoan(loan, today))
  {
    var rows := MarkLoan(loan, today).rows;
    forall i, j | 0 <= i < j < |rows| && rows[i].status == Scheduled ensures rows[j].status == Scheduled {
      ScheduleIncreases(loan, i, j);
    }
    RowsRewritten(loan, rows, today);
  }

  lemma ChargeLoanOk(loan: Loan, today: int)
    requires LoanOk(loan, today)
    ensures LoanOk(ChargeLoan(loan, today), today) && SameDebt(loan, ChargeLoan(loan, today))
  {
    RowsRewritten(loan, ChargeLoan(loan, today).rows, today);
  }

  lemma DefaultLoanOk(loan: Loan, today: int)
    requires LoanOk(loan, today) && (loan.approval == AutoApproved ==> loan.status != Approved)
    ensures LoanOk(DefaultLoan(loan, today), today) && SameDebt(loan, DefaultLoan(loan, today))
  {
    hide TermsOk, RowOk;
    var loan' := DefaultLoan(loan, today);
    TermsKept(loan, loan');
    assert LongOverdue(loan, today) == LongOverdue(loan', today);
  }

  lemma LoansRewritten(s: Books, loans: seq<Loan>)
    requires Inv(s) && |loans| == |s.loans| && LoansOk(loans, s.Today())
    requires forall l :: 0 <= l < |loans| ==>
               && SameDebt(s.loans[l], loans[l])
               && loans[l].account == s.loans[l].account && loans[l].approval == s.loans[l].approval
               && (loans[l].status == s.loans[l].status || loans[l].status == Defaulted)
    ensures Inv(s.(loans := loans))
  {
    hide LoanOk, LoanBook, CreditBook, TxnOk;
    BooksIgnoreSameDebt(s.credit, s.loans, loans, s.ledger);
  }

  lemma MarkOverdueKeeps(s: Books)
    requires Inv(s)
    ensures Inv(MarkOverdue(s))
  {
    forall l | 0 <= l < |s.loans|
      ensures LoanOk(MarkOverdue(s).loans[l], s.Today()) && SameDebt(s.loans[l], MarkOverdue(s).loans[l])
    {
      MarkLoanOk(s.loans[l], s.Today());
    }
    LoansRewritten(s, MarkOverdue(s).loans);
  }

  lemma ApplyLateFeesKeeps(s: Books)
    requires Inv(s)
    ensures Inv(ApplyLateFees(s))
  {
    forall l | 0 <= l < |s.loans|
      ensures LoanOk(ApplyLateFees(s).loans[l], s.Today()) && SameDebt(s.loans[l], ApplyLateFees(s).loans[l])
    {
      ChargeLoanOk(s.loans[l], s.Today());
    }
    LoansRewritten(s, ApplyLateFees(s).loans);
  }

  lemma PenaltiesOk(s: Books, shared: bool)
    requires CustomersOk(s.customers, |s.credit|)
    ensures CustomersOk(DefaultLoans(s, shared).customers, |s.credit|)
  {
  }

  lemma DefaultLoansKeeps(s: Books, shared: bool)
    requires Inv(s)
    ensures Inv(DefaultLoans(s, shared))
  {
    var loans := DefaultLoans(s, shared).loans;
    forall l | 0 <= l < |s.loans| ensures LoanOk(loans[l], s.Today()) && SameDebt(s.loans[l], loans[l]) {
      DefaultLoanOk(s.loans[l], s.Today());
    }
    LoansRewritten(s, loans);
    PenaltiesOk(s, shared);
    hide LoansOk, SavingsOk, LinksOk, LedgerOk, LoanBooksOk, CreditOk, NoneInFlight;
  }

  // ---- Interest ---------------------------------------------------------------------

  lemma InterestNonNegative(savings: seq<Savings>, users: nat, a: nat)
    requires SavingsOk(savings, users) && a < |savings|
    ensures 0 <= savings[a].accrued + DailyInterest(savings[a])
  {
    assert 0 <= savings[a].balance * savings[a].rate;
    Money.RoundAtLeast(InterestNumerator(savings[a].balance, savings[a].rate), INTEREST_SCALE, 0);
  }

  lemma CreditInterestTables(s: Books, a: nat, t: Txn)
    requires Inv(s) && a < |s.savings| && s.savings[a].status == AccountActive
    requires 0 <= t.amount && t.kind == InterestCredit
    requires t == Entry(s, s.savings[a].owner, Some(a), InterestCredit, t.amount, None, TxnCompleted)
    ensures var savings := s.savings[a := s.savings[a].(balance := s.savings[a].balance + t.amount, accrued := 0)];
            && SavingsOk(savings, |s.credit|) && LedgerOk(savings, s.ledger + [t])
            && LinksOk(s.loans, savings, |s.credit|)
  {
    hide LoanOk, LoanBook, CreditBook;
    var acc' := s.savings[a].(balance := s.savings[a].balance + t.amount, accrued := 0);
    SavingsUpdated(s.savings, |s.credit|, a, acc');
    LedgerExtended(s.savings, s.savings[a := acc'], s.ledger, t);
    hide LedgerOk, SavingsOk;
  }

  lemma CreditInterestKeeps(s: Books, a: nat)
    requires Inv(s) && a < |s.savings| && s.savings[a].status == AccountActive
    ensures Inv(CreditInterest(s, a))
  {
    hide LoansOk, LinksOk, LedgerOk, SavingsOk, LoanBooksOk, CreditOk, NoneInFlight, CustomersOk, DailyInterest;
    InterestNonNegative(s.savings, |s.credit|, a);
    var acc := s.savings[a];
    var t := Entry(s, acc.owner, Some(a), InterestCredit, acc.accrued + DailyInterest(acc), None, TxnCompleted);
    CreditInterestTables(s, a, t);
    BooksIgnoreNeutral(s.credit, s.loans, s.ledger, t);
  }

  lemma HeldTables(s: Books, a: nat, accrued: int)
    requires Inv(s) && a < |s.savings| && 0 <= accrued
    ensures var savings := s.savings[a := s.savings[a].(accrued := accrued)];
            && SavingsOk(savings, |s.credit|) && LedgerOk(savings, s.ledger)
            && LinksOk(s.loans, savings, |s.credit|)
  {
    hide LoanOk, LoanBook, CreditBook, TxnOk;
    var acc' := s.savings[a].(accrued := accrued);
    SavingsUpdated(s.savings, |s.credit|, a, acc');
    LedgerSameBalances(s.savings, s.savings[a := acc'], s.ledger);
    hide LedgerOk, SavingsOk;
  }

  lemma HoldInterestKeeps(s: Books, a: nat)
    requires Inv(s) && a < |s.savings|
    ensures Inv(HoldInterest(s, a))
  {
    hide LoansOk, LinksOk, LedgerOk, SavingsOk, LoanBooksOk, CreditOk, NoneInFlight, CustomersOk, DailyInterest;
    InterestNonNegative(s.savings, |s.credit|, a);
    HeldTables(s, a, s.savings[a].accrued + DailyInterest(s.savings[a]));
  }

  lemma SnapshotKeeps(s: Books, a: nat)
    requires Inv(s) && a < |s.savings|
    ensures Inv(TakeSnapshot(s, a))
  {
    hide LoansOk, SavingsOk, LinksOk, LedgerOk, LoanBooksOk, CreditOk, NoneInFlight, CustomersOk;
  }

  lemma AccrueOneKeeps(s: Books, a: nat)
    requires Inv(s) && a < |s.savings|
    ensures Inv(AccrueOne(s, a))
  {
    hide Inv, IsLastDayOfMonth, EarnsInterest, TakeSnapshot;
    if s.savings[a].status == AccountActive {
      if IsLastDayOfMonth(s.now.date) && EarnsInterest(s.savings[a]) {
        CreditInterestKeeps(s, a);
        SnapshotKeeps(CreditInterest(s, a), a);
      } else {
        HoldInterestKeeps(s, a);
        SnapshotKeeps(HoldInterest(s, a), a);
      }
    }
  }

  lemma {:induction false} AccrueUpToKeeps(s: Books, order: seq<nat>, n: nat)
    requires Inv(s) && IsOrder(order, |s.savings|) && n <= |order|
    ensures Inv(AccrueUpTo(s, order, n))
  {
    hide Inv, AccrueOne, EndedBefore;
    if n == 0 {
    } else {
      AccrueUpToKeeps(s, order, n - 1);
      AccrueOneKeeps(AccrueUpTo(s, order, n - 1), order[n - 1]);
    }
  }

  lemma AccrueInterestKeeps(s: Books, order: seq<nat>)
    requires Inv(s)
    ensures Inv(AccrueInterest(s, order).books)
  {
    hide Inv, AccrueUpTo;
    if IsOrder(order, |s.savings|) {
      AccrueUpToKeeps(s, order, |order|);
    }
  }

  // ---- Tiers ------------------------------------------------------------------------

  lemma EvaluateTiersKeeps(s: Books)
    requires Inv(s)
    ensures Inv(EvaluateTiers(s))
  {
    hide LoanOk, LoanBook, CreditBook, TxnOk, DetermineTier, RecentBalances, AgeInMonths, IsVerified;
    var savings := EvaluateTiers(s).savings;
    LedgerSameBalances(s.savings, savings, s.ledger);
    forall u | 0 <= u < |s.credit| ensures Sum(savings, ActiveOf(u)) >= 1 {
      SumSame(s.savings, savings, ActiveOf(u), ActiveOf(u));
    }
  }
}
