// What may change between an earlier and a later moment of one run: which facts are final.
module History {
  import Calendar
  import opened Sums
  import opened Model
  import opened Operations
  import opened Invariants
  import Preservation
  import opened Runs

  // The loan life cycle, closed under several steps.
  ghost predicate CanBecome(a: LoanStatus, b: LoanStatus) {
    match a
    case Pending => true
    case Approved => b != Pending && b != Rejected
    case Disbursed => b != Pending && b != Rejected && b != Approved
    case Active => b == Active || b == FullyPaid || b == Defaulted
    case FullyPaid => b == FullyPaid || b == Defaulted
    case Defaulted => b == Defaulted
    case Rejected => b == Rejected
  }

  // A settled row never changes again, an overdue one is never rescheduled, and a fee once
  // charged stays: it neither grows nor disappears.
  ghost predicate RowEvolves(r: Row, r': Row) {
    && r'.due == r.due && r'.amount == r.amount
    && (!r.Unpaid() ==> r' == r)
    && (r.status == Overdue ==> r'.status != Scheduled)
    && (r.fee != 0 ==> r'.fee == r.fee)
  }

  ghost predicate LoanEvolves(loan: Loan, loan': Loan) {
    && loan'.user == loan.user && loan'.account == loan.account
    && loan'.principal == loan.principal && loan'.tenor == loan.tenor
    && loan'.total == loan.total && loan'.outstanding <= loan.outstanding && loan'.requested == loan.requested
    && CanBecome(loan.status, loan'.status)
    && |loan'.rows| == |loan.rows|
    && forall i :: 0 <= i < |loan.rows| ==> RowEvolves(loan.rows[i], loan'.rows[i])
  }

  function OfUser(u: nat): Loan -> int { (loan: Loan) => if loan.user == u then 1 else 0 }

  ghost predicate LoansEvolve(loans: seq<Loan>, loans': seq<Loan>) {
    && |loans| <= |loans'|
    && forall l :: 0 <= l < |loans| ==> LoanEvolves(loans[l], loans'[l])
  }

  // A defaulted customer gets no further loan.
  ghost predicate DefaultersBarred(loans: seq<Loan>, loans': seq<Loan>) {
    forall u: nat :: HasDefaulted(loans, u) ==> Sum(loans', OfUser(u)) == Sum(loans, OfUser(u))
  }

  // Accounts keep their owner, and a closed account is frozen for ever.
  ghost predicate SavingsEvolve(savings: seq<Savings>, savings': seq<Savings>) {
    && |savings| <= |savings'|
    && forall a :: 0 <= a < |savings| ==>
         && savings'[a].owner == savings[a].owner && savings'[a].openedAt == savings[a].openedAt
         && (savings[a].status == AccountClosed ==> savings'[a] == savings[a])
  }

  ghost predicate CreditEvolve(credit: seq<Credit>, credit': seq<Credit>) {
    && |credit| <= |credit'|
    && forall u :: 0 <= u < |credit| ==> credit'[u].openedAt == credit[u].openedAt
  }

  ghost predicate Evolves(s: Books, s': Books) {
    && LoansEvolve(s.loans, s'.loans)
    && DefaultersBarred(s.loans, s'.loans)
    && SavingsEvolve(s.savings, s'.savings)
    && CreditEvolve(s.credit, s'.credit)
    && s.ledger <= s'.ledger
    && s.Today() <= s'.Today()
  }

  lemma EvolvesTransitive(s: Books, s': Books, s'': Books)
    requires Evolves(s, s') && Evolves(s', s'')
    ensures Evolves(s, s'')
  {
    forall u: nat | HasDefaulted(s.loans, u) ensures Sum(s''.loans, OfUser(u)) == Sum(s.loans, OfUser(u)) {
      var l :| 0 <= l < |s.loans| && s.loans[l].user == u && s.loans[l].status == Defaulted;
      assert LoanEvolves(s.loans[l], s'.loans[l]);
      assert HasDefaulted(s'.loans, u);
    }
    forall l | 0 <= l < |s.loans| ensures LoanEvolves(s.loans[l], s''.loans[l]) {
      LoanEvolvesTransitive(s.loans[l], s'.loans[l], s''.loans[l]);
    }
  }

  lemma LoanEvolvesTransitive(a: Loan, b: Loan, c: Loan)
    requires LoanEvolves(a, b) && LoanEvolves(b, c)
    ensures LoanEvolves(a, c)
  {
    forall i | 0 <= i < |a.rows| ensures RowEvolves(a.rows[i], c.rows[i]) {
      assert RowEvolves(a.rows[i], b.rows[i]) && RowEvolves(b.rows[i], c.rows[i]);
    }
  }

  lemma SameBooksEvolve(s: Books)
    ensures Evolves(s, s)
  {
  }

  // Rewriting the loan table row by row adds no loan for anybody.
  lemma LoansRewrittenEvolve(loans: seq<Loan>, loans': seq<Loan>)
    requires |loans'| == |loans|
    requires forall l :: 0 <= l < |loans| ==> LoanEvolves(loans[l], loans'[l])
    ensures LoansEvolve(loans, loans') && DefaultersBarred(loans, loans')
  {
    forall u: nat | HasDefaulted(loans, u) ensures Sum(loans', OfUser(u)) == Sum(loans, OfUser(u)) {
      SumSame(loans, loans', OfUser(u), OfUser(u));
    }
  }

  lemma LoanReplacedEvolves(loans: seq<Loan>, l: nat, loan: Loan)
    requires l < |loans| && LoanEvolves(loans[l], loan)
    ensures LoansEvolve(loans, loans[l := loan]) && DefaultersBarred(loans, loans[l := loan])
  {
    LoansRewrittenEvolve(loans, loans[l := loan]);
  }

  lemma LoanAppendedEvolves(loans: seq<Loan>, loan: Loan)
    requires !HasDefaulted(loans, loan.user)
    ensures LoansEvolve(loans, loans + [loan]) && DefaultersBarred(loans, loans + [loan])
  {
  }

  lemma RequestEvolves(s: Books, u: nat, principal: int, tenor: nat, specified: Option<nat>)
    requires |s.credit| == |s.customers|
    ensures Evolves(s, RequestLoan(s, u, principal, tenor, specified).books)
  {
    var r := RequestLoan(s, u, principal, tenor, specified);
    if r.books == s {
      LoansRewrittenEvolve(s.loans, s.loans);
    } else {
      var a := ResolveAccount(s, u, specified, None).account;
      var approval := DetermineApproval(principal, s.customers[u].score, s.customers[u].verified, false);
      var loan := RequestedLoan(s, u, a, principal, tenor, approval);
      LoanAppendedEvolves(s.loans, loan);
      if loan.approval == AutoApproved {
        AutoRequestEvolves(s, loan);
      }
    }
  }

  lemma AutoRequestEvolves(s: Books, loan: Loan)
    requires loan.status == Approved && loan.user < |s.credit| == |s.customers| && loan.account < |s.savings|
    requires s.savings[loan.account].status == AccountActive && !HasDefaulted(s.loans, loan.user)
    ensures Evolves(s, DisburseLoan(s.(loans := s.loans + [loan]), |s.loans|).books)
  {
    var s' := s.(loans := s.loans + [loan]);
    assert ResolveAccount(s', loan.user, None, Some(loan.account)) == Resolved(loan.account);
    hide ResolveAccount, LoansEvolve, DefaultersBarred, HasDefaulted, Entry;
    var loan' := loan.(account := loan.account, status := Disbursed);
    LoanAppendedEvolves(s.loans, loan');
    assert DisburseLoan(s', |s.loans|).books.loans == s.loans + [loan'];
  }

  lemma PayLoanEvolves(loan: Loan, amount: int, today: int)
    requires LoanOk(loan, today) && (loan.status == Active || loan.status == Disbursed)
    requires 0 < amount && TargetRow(loan.rows) < |loan.rows|
    ensures LoanEvolves(loan, PayLoan(loan, TargetRow(loan.rows), amount))
  {
  }

  // A second fee run finds either no fee to charge or the fee already charged.
  lemma ChargeLoanEvolves(loan: Loan, today: int)
    requires LoanOk(loan, today)
    ensures LoanEvolves(loan, ChargeLoan(loan, today))
  {
  }

  lemma MarkOverdueEvolves(s: Books)
    ensures Evolves(s, MarkOverdue(s))
  {
    LoansRewrittenEvolve(s.loans, MarkOverdue(s).loans);
    hide LoansEvolve, DefaultersBarred;
  }

  lemma ApplyLateFeesEvolves(s: Books)
    requires LoansOk(s.loans, s.Today())
    ensures Evolves(s, ApplyLateFees(s))
  {
    forall l | 0 <= l < |s.loans| ensures LoanEvolves(s.loans[l], ApplyLateFees(s).loans[l]) {
      ChargeLoanEvolves(s.loans[l], s.Today());
    }
    hide LoanOk, LoanEvolves;
    LoansRewrittenEvolve(s.loans, ApplyLateFees(s).loans);
    hide LoansEvolve, DefaultersBarred;
  }

  lemma DefaultLoansEvolves(s: Books, shared: bool)
    requires LoansOk(s.loans, s.Today())
    ensures Evolves(s, DefaultLoans(s, shared))
  {
    var loans := DefaultLoans(s, shared).loans;
    forall l | 0 <= l < |s.loans| ensures LoanEvolves(s.loans[l], loans[l]) {
      assert LoanOk(s.loans[l], s.Today()) && StatusPair(s.loans[l]);
    }
    hide LoanOk, LoanEvolves;
    LoansRewrittenEvolve(s.loans, loans);
    hide LoansEvolve, DefaultersBarred;
  }

  lemma TurnEvolves(s: Books, a: nat)
    requires a < |s.savings|
    ensures Evolves(s, AccrueOne(s, a))
  {
    LoansRewrittenEvolve(s.loans, s.loans);
    hide LoansEvolve, DefaultersBarred, DailyInterest, EarnsInterest, Calendar.IsLastDayOfMonth, HasSnapshot, Entry;
  }

  lemma {:induction false} AccrualEvolves(s: Books, order: seq<nat>, n: nat)
    requires IsOrder(order, |s.savings|) && n <= |order|
    ensures Evolves(s, AccrueUpTo(s, order, n))
  {
    hide Evolves, AccrueOne, EndedBefore;
    if n == 0 {
      SameBooksEvolve(s);
    } else {
      var r := AccrueUpTo(s, order, n - 1);
      AccrualEvolves(s, order, n - 1);
      TurnEvolves(r, order[n - 1]);
      EvolvesTransitive(s, r, AccrueOne(r, order[n - 1]));
    }
  }

  lemma InterestEvolves(s: Books, order: seq<nat>)
    ensures Evolves(s, AccrueInterest(s, order).books)
  {
    hide Evolves, AccrueUpTo;
    if IsOrder(order, |s.savings|) {
      AccrualEvolves(s, order, |order|);
    } else {
      SameBooksEvolve(s);
    }
  }

  lemma RepaymentEvolves(s: Books, u: nat, l: nat, amount: int, a: nat)
    requires l < |s.loans| && LoanOk(s.loans[l], s.Today())
    requires s.loans[l].status == Active || s.loans[l].status == Disbursed
    requires 0 < amount && TargetRow(s.loans[l].rows) < |s.loans[l].rows|
    requires u < |s.credit| && a < |s.savings| && s.savings[a].status == AccountActive
    ensures Evolves(s, Repayment(s, u, l, TargetRow(s.loans[l].rows), amount, a))
  {
    PayLoanEvolves(s.loans[l], amount, s.Today());
    LoanReplacedEvolves(s.loans, l, PayLoan(s.loans[l], TargetRow(s.loans[l].rows), amount));
    hide LoansEvolve, DefaultersBarred, LoanOk, LoanEvolves;
  }

  lemma PendingEvolves(s: Books, t: Txn)
    ensures Evolves(s, s.(ledger := s.ledger + [t]))
  {
  }

  lemma RepayEvolves(s: Books, u: nat, l: nat, amount: int, specified: Option<nat>)
    requires Inv(s)
    ensures Evolves(s, RepayLoan(s, u, l, amount, specified).books)
  {
    hide Evolves, LoanOk;
    var r := RepayLoan(s, u, l, amount, specified);
    if r.outcome == Done {
      RepaymentEvolves(s, u, l, amount, ResolveAccount(s, u, specified, Some(s.loans[l].account)).account);
    } else if r.books == s {
      SameBooksEvolve(s);
    } else {
      PendingEvolves(s, r.books.ledger[|s.ledger|]);
    }
  }

  lemma ApproveEvolves(s: Books, l: nat)
    requires LoansOk(s.loans, s.Today())
    ensures Evolves(s, ApproveLoan(s, l).books)
  {
    LoansRewrittenEvolve(s.loans, s.loans);
    hide TermsOk, RowsOk, LoansEvolve, DefaultersBarred;
    if ApproveLoan(s, l).outcome == Done {
      assert LoanOk(s.loans[l], s.Today());
      LoanReplacedEvolves(s.loans, l, ApproveLoan(s, l).books.loans[l]);
    }
  }

  lemma RejectEvolves(s: Books, l: nat)
    requires LoansOk(s.loans, s.Today())
    ensures Evolves(s, RejectLoan(s, l).books)
  {
    LoansRewrittenEvolve(s.loans, s.loans);
    hide TermsOk, RowsOk, LoansEvolve, DefaultersBarred;
    if RejectLoan(s, l).outcome == Done {
      assert LoanOk(s.loans[l], s.Today());
      LoanReplacedEvolves(s.loans, l, RejectLoan(s, l).books.loans[l]);
    }
  }

  lemma DisbursementEvolves(s: Books, l: nat)
    requires l < |s.loans| && s.loans[l].status == Approved
    requires s.loans[l].account < |s.savings| && s.loans[l].user < |s.credit|
    requires s.savings[s.loans[l].account].status == AccountActive
    ensures Evolves(s, Disbursement(s, l, s.loans[l].account))
  {
    LoanReplacedEvolves(s.loans, l, s.loans[l].(account := s.loans[l].account, status := Disbursed));
    hide LoansEvolve, DefaultersBarred, LoanEvolves, Entry;
  }

  lemma DisburseEvolves(s: Books, l: nat)
    requires Inv(s)
    ensures Evolves(s, DisburseLoan(s, l).books)
  {
    hide LoansOk, SavingsOk, LedgerOk, LoanBooksOk, CreditOk, NoneInFlight, CustomersOk, ResolveAccount, Evolves,
      Disbursement;
    SameBooksEvolve(s);
    if l < |s.loans| && s.loans[l].status == Approved {
      Preservation.NoRelink(s, l);
      DisbursementEvolves(s, l);
    }
  }

  // Rewriting accounts without touching what a loan or the ledger says.
  lemma AccountsRewrittenEvolve(s: Books, s': Books)
    requires s'.loans == s.loans && s'.ledger == s.ledger && s'.now == s.now
    requires SavingsEvolve(s.savings, s'.savings) && CreditEvolve(s.credit, s'.credit)
    ensures Evolves(s, s')
  {
    LoansRewrittenEvolve(s.loans, s.loans);
    hide LoansEvolve, DefaultersBarred, SavingsEvolve, CreditEvolve;
  }

  lemma RegisterEvolves(s: Books, limit: int)
    ensures Evolves(s, Register(s, limit).books)
  {
    hide NewCredit;
    AccountsRewrittenEvolve(s, Register(s, limit).books);
  }

  lemma VerifyCustomerEvolves(s: Books, u: nat)
    ensures Evolves(s, VerifyCustomer(s, u).books)
  {
    AccountsRewrittenEvolve(s, VerifyCustomer(s, u).books);
  }

  lemma SetCreditScoreEvolves(s: Books, u: nat, score: int)
    ensures Evolves(s, SetCreditScore(s, u, score).books)
  {
    AccountsRewrittenEvolve(s, SetCreditScore(s, u, score).books);
  }

  lemma OpenSavingsEvolves(s: Books, u: nat)
    ensures Evolves(s, OpenSavings(s, u).books)
  {
    AccountsRewrittenEvolve(s, OpenSavings(s, u).books);
  }

  lemma CloseSavingsEvolves(s: Books, u: nat, a: nat)
    ensures Evolves(s, CloseSavings(s, u, a).books)
  {
    hide HasLiveLoan, ActiveOf;
    AccountsRewrittenEvolve(s, CloseSavings(s, u, a).books);
  }

  lemma SetCreditLimitEvolves(s: Books, u: nat, limit: int)
    ensures Evolves(s, SetCreditLimit(s, u, limit).books)
  {
    hide ClampLimit;
    AccountsRewrittenEvolve(s, SetCreditLimit(s, u, limit).books);
  }

  lemma TiersEvolve(s: Books)
    ensures Evolves(s, EvaluateTiers(s))
  {
    LoansRewrittenEvolve(s.loans, s.loans);
    hide LoansEvolve, DefaultersBarred, DetermineTier, RecentBalances, AgeInMonths;
  }

  lemma PostEvolves(s: Books, u: nat, a: nat, kind: Kind, amount: int)
    requires a < |s.savings| && s.savings[a].status == AccountActive
    ensures Evolves(s, Post(s, u, a, kind, amount, None))
  {
    LoansRewrittenEvolve(s.loans, s.loans);
    hide LoansEvolve, DefaultersBarred, Entry;
  }

  lemma DepositEvolves(s: Books, u: nat, a: nat, amount: int)
    ensures Evolves(s, MakeDeposit(s, u, a, amount).books)
  {
    hide Evolves, Post, PeriodTotal;
    SameBooksEvolve(s);
    if MakeDeposit(s, u, a, amount).outcome == Done {
      PostEvolves(s, u, a, Deposit, amount);
    }
  }

  lemma WithdrawalEvolves(s: Books, u: nat, a: nat, amount: int)
    ensures Evolves(s, Withdraw(s, u, a, amount).books)
  {
    hide Evolves, Post, PeriodTotal;
    SameBooksEvolve(s);
    if Withdraw(s, u, a, amount).outcome == Done {
      PostEvolves(s, u, a, Withdrawal, amount);
    }
  }

  lemma ClockEvolves(s: Books, to: Calendar.Clock)
    ensures Evolves(s, Advance(s, to).books)
  {
    LoansRewrittenEvolve(s.loans, s.loans);
    hide LoansEvolve, DefaultersBarred;
  }

  lemma AccountStepEvolves(s: Books, e: Event)
    requires e.DoRegister? || e.DoVerifyCustomer? || e.DoSetCreditScore? || e.DoOpenSavings? || e.DoDeposit?
             || e.DoWithdraw? || e.DoCloseSavings? || e.DoSetCreditLimit? || e.DoAdvance? || e.DoAccrueInterest?
             || e.DoEvaluateTiers?
    ensures Evolves(s, Step(s, e))
  {
    hide Evolves;
    match e
    case DoRegister(limit) => RegisterEvolves(s, limit);
    case DoVerifyCustomer(u) => VerifyCustomerEvolves(s, u);
    case DoSetCreditScore(u, score) => SetCreditScoreEvolves(s, u, score);
    case DoOpenSavings(u) => OpenSavingsEvolves(s, u);
    case DoDeposit(u, a, amount) => DepositEvolves(s, u, a, amount);
    case DoWithdraw(u, a, amount) => WithdrawalEvolves(s, u, a, amount);
    case DoCloseSavings(u, a) => CloseSavingsEvolves(s, u, a);
    case DoSetCreditLimit(u, limit) => SetCreditLimitEvolves(s, u, limit);
    case DoAdvance(to) => ClockEvolves(s, to);
    case DoAccrueInterest(order) => InterestEvolves(s, order);
    case DoEvaluateTiers => TiersEvolve(s);
  }

  // One step respects the life cycles, whatever the event.
  lemma StepEvolves(s: Books, e: Event)
    requires Inv(s)
    ensures Evolves(s, Step(s, e))
  {
    assert LoansOk(s.loans, s.Today()) && |s.credit| == |s.customers|;
    hide Inv, Evolves, LoansOk;
    match e
    case DoRequestLoan(u, p, tenor, a) => RequestEvolves(s, u, p, tenor, a);
    case DoApproveLoan(l) => ApproveEvolves(s, l);
    case DoRejectLoan(l) => RejectEvolves(s, l);
    case DoDisburseLoan(l) => DisburseEvolves(s, l);
    case DoRepayLoan(u, l, amount, a) => RepayEvolves(s, u, l, amount, a);
    case DoMarkOverdue => MarkOverdueEvolves(s);
    case DoApplyLateFees => ApplyLateFeesEvolves(s);
    case DoDefaultLoans(shared) => DefaultLoansEvolves(s, shared);
    case _ => AccountStepEvolves(s, e);
  }

  // Everything after any moment of a run is an evolution of that moment.
  lemma {:induction false} ContinueEvolves(s: Books, evs: seq<Event>)
    requires Inv(s)
    ensures Evolves(s, Continue(s, evs))
  {
    hide Inv;
    if evs == [] {
      LoansRewrittenEvolve(s.loans, s.loans);
    } else {
      var prefix := evs[..|evs| - 1];
      ContinueKeepsInv(s, prefix);
      ContinueEvolves(s, prefix);
      StepEvolves(Continue(s, prefix), evs[|evs| - 1]);
      EvolvesTransitive(s, Continue(s, prefix), Continue(s, evs));
    }
  }
}
