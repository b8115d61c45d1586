// The main results about single moments of any run.
module Theorems {
  import opened Calendar
  import opened Sums
  import opened Model
  import opened Operations
  import opened Invariants
  import Preservation
  import opened Runs

  // ---- The books agree --------------------------------------------------------------

  // A customer's credit totals, the loan table and the ledger tell the same story.
  lemma ThreeBooksAgree(start: Clock, evs: seq<Event>, u: nat)
    requires u < |Run(start, evs).credit|
    ensures var s := Run(start, evs);
            && s.credit[u].borrowed == Sum(s.loans, BorrowedBy(u)) == Sum(s.ledger, UserFlow(u, LoanDisbursement))
            && s.credit[u].repaid == Sum(s.loans, RepaidBy(u)) == Sum(s.ledger, UserFlow(u, LoanRepayment))
            && s.credit[u].outstanding == s.credit[u].borrowed - s.credit[u].repaid
  {
    RunKeepsInv(start, evs);
    assert CreditBook(u, Run(start, evs).credit[u], Run(start, evs).loans, Run(start, evs).ledger);
  }

  // Each loan is paid out once or not at all, in full, and what its rows took in is what the
  // ledger took in and what its outstanding amount lost.
  lemma LoanAndLedgerAgree(start: Clock, evs: seq<Event>, l: nat)
    requires l < |Run(start, evs).loans|
    ensures var s := Run(start, evs); var loan := s.loans[l];
            && Sum(s.ledger, LoanCount(l, LoanDisbursement)) == (if Lent(loan.status) then 1 else 0)
            && Sum(s.ledger, LoanFlow(l, LoanDisbursement)) == (if Lent(loan.status) then loan.principal else 0)
            && Sum(s.ledger, LoanFlow(l, LoanRepayment)) == loan.total - loan.outstanding == Sum(loan.rows, PaidOf())
  {
    RunKeepsInv(start, evs);
    assert LoanBook(l, Run(start, evs).loans[l], Run(start, evs).ledger);
    assert LoanOk(Run(start, evs).loans[l], Run(start, evs).Today());
  }

  ghost function LentTotal(u: nat): Loan -> int {
    (loan: Loan) => if loan.user == u && Lent(loan.status) then loan.total else 0
  }

  lemma OutstandingRange(loan: Loan, today: int)
    requires LoanOk(loan, today)
    ensures 0 <= loan.outstanding <= loan.total
    ensures !Lent(loan.status) ==> loan.outstanding == loan.total
  {
  }

  lemma LentTotals(loans: seq<Loan>, today: int, u: nat)
    requires LoansOk(loans, today)
    ensures Sum(loans, RepaidBy(u)) <= Sum(loans, BorrowedBy(u)) + Sum(loans, InterestChargedTo(u))
  {
    hide LoanOk;
    SumAdd(loans, BorrowedBy(u), InterestChargedTo(u), LentTotal(u));
    forall l | 0 <= l < |loans| ensures RepaidBy(u)(loans[l]) <= LentTotal(u)(loans[l]) {
      OutstandingRange(loans[l], today);
    }
    SumMono(loans, loans, RepaidBy(u), LentTotal(u));
  }

  // The available credit can go negative only by what was lent by hand, and above the limit
  // only by the interest of what was lent.
  lemma CreditBounds(start: Clock, evs: seq<Event>, u: nat)
    requires u < |Run(start, evs).credit|
    ensures var s := Run(start, evs); var c := s.credit[u];
            && c.available == c.limit - c.borrowed + c.repaid
            && -Sum(s.loans, ManuallyLentTo(u)) <= c.available <= c.limit + Sum(s.loans, InterestChargedTo(u))
  {
    var s := Run(start, evs);
    RunKeepsInv(start, evs);
    assert CreditBook(u, s.credit[u], s.loans, s.ledger);
    hide LoanOk, LoanBook, TxnOk, Inv, Run;
    LentTotals(s.loans, s.Today(), u);
  }

  // A customer without manually approved loans never has negative credit, whatever limits
  // were set and clamped.
  lemma AutoOnlyStaysCovered(start: Clock, evs: seq<Event>, u: nat)
    requires u < |Run(start, evs).credit|
    requires forall l :: 0 <= l < |Run(start, evs).loans| && Run(start, evs).loans[l].user == u ==>
               Run(start, evs).loans[l].approval != ManualApproved
    ensures 0 <= Run(start, evs).credit[u].available
  {
    CreditBounds(start, evs, u);
    SumZero(Run(start, evs).loans, ManuallyLentTo(u));
  }

  lemma DisbursementCredit(s: Books, l: nat, u: nat)
    requires Inv(s) && u < |s.credit|
    ensures var credit := DisburseLoan(s, l).books.credit;
            && |credit| == |s.credit|
            && credit[u].available == s.credit[u].available
                 - (if l < |s.loans| && s.loans[l].user == u && s.loans[l].status == Approved
                    then s.loans[l].principal else 0)
  {
    Preservation.LinksHold(s);
    if l < |s.loans| && s.loans[l].status == Approved {
      Preservation.NoRelink(s, l);
    }
    hide Inv, ResolveAccount, Entry;
  }

  lemma RequestCredit(s: Books, v: nat, principal: int, tenor: nat, specified: Option<nat>, u: nat)
    requires Inv(s) && u < |s.credit|
    ensures var credit := RequestLoan(s, v, principal, tenor, specified).books.credit;
            && |credit| == |s.credit|
            && (0 <= s.credit[u].available ==> 0 <= credit[u].available)
  {
    hide Inv, ResolveAccount, HasDefaulted, DetermineApproval, Entry, TotalAmount, Schedule;
  }

  lemma RepaymentCredit(s: Books, v: nat, l: nat, amount: int, specified: Option<nat>, u: nat)
    requires u < |s.credit|
    ensures var credit := RepayLoan(s, v, l, amount, specified).books.credit;
            |credit| == |s.credit| && s.credit[u].available <= credit[u].available
  {
    hide ResolveAccount, TargetRow, Entry, PayLoan;
  }

  // A smaller limit is refused before it could cut below what is borrowed.
  lemma LimitCredit(s: Books, v: nat, limit: int, u: nat)
    requires Inv(s) && u < |s.credit|
    ensures var credit := SetCreditLimit(s, v, limit).books.credit;
            && |credit| == |s.credit|
            && (0 <= s.credit[u].available ==> 0 <= credit[u].available)
  {
    assert CreditBook(u, s.credit[u], s.loans, s.ledger);
    hide LoansOk, SavingsOk, LinksOk, LedgerOk, LoanBooksOk, CustomersOk, NoneInFlight;
  }

  lemma OtherCredit(s: Books, e: Event, u: nat)
    requires u < |s.credit|
    requires !e.DoDisburseLoan? && !e.DoRequestLoan? && !e.DoRepayLoan? && !e.DoSetCreditLimit?
    ensures u < |Step(s, e).credit| && Step(s, e).credit[u] == s.credit[u]
  {
    hide PeriodTotal, NotBefore, HasLiveLoan, ActiveOf, ClampLimit, MarkLoan, ChargeLoan, DefaultLoan, EvaluateAccount,
      Penalised, Entry;
  }

  // Exactly how available credit can go below zero: by paying out an approved loan of more than
  // is available. Only the request, not the approval or the disbursement, looks at it.
  lemma CreditGoesNegativeIff(start: Clock, evs: seq<Event>, u: nat, e: Event)
    requires u < |Run(start, evs).credit| && 0 <= Run(start, evs).credit[u].available
    ensures var s := Run(start, evs);
            && u < |Step(s, e).credit|
            && (Step(s, e).credit[u].available < 0 <==>
                  && e.DoDisburseLoan? && e.loan < |s.loans| && s.loans[e.loan].user == u
                  && s.loans[e.loan].status == Approved && s.credit[u].available < s.loans[e.loan].principal)
  {
    var s := Run(start, evs);
    RunKeepsInv(start, evs);
    assert CreditBook(u, s.credit[u], s.loans, s.ledger);
    hide Run, CreditBook;
    match e
    case DoDisburseLoan(l) => DisbursementCredit(s, l, u);
    case DoRequestLoan(v, p, tenor, a) => RequestCredit(s, v, p, tenor, a, u);
    case DoRepayLoan(v, l, amount, a) => RepaymentCredit(s, v, l, amount, a, u);
    case DoSetCreditLimit(v, limit) => LimitCredit(s, v, limit, u);
    case _ => OtherCredit(s, e, u);
  }

  lemma DisbursementStaysBelow(s: Books, l: nat, u: nat)
    requires Inv(s) && u < |s.credit|
    ensures var credit := DisburseLoan(s, l).books.credit;
            && |credit| == |s.credit|
            && credit[u].available <= s.credit[u].available && credit[u].limit == s.credit[u].limit
  {
    DisbursementCredit(s, l, u);
    if l < |s.loans| {
      assert LoanOk(s.loans[l], s.Today());
    }
    hide Inv, ResolveAccount, Entry, LoanOk;
  }

  lemma RequestStaysBelow(s: Books, v: nat, principal: int, tenor: nat, specified: Option<nat>, u: nat)
    requires u < |s.credit|
    ensures var credit := RequestLoan(s, v, principal, tenor, specified).books.credit;
            && |credit| == |s.credit|
            && credit[u].available <= s.credit[u].available && credit[u].limit == s.credit[u].limit
  {
    hide ResolveAccount, HasDefaulted, DetermineApproval, Entry, TotalAmount, Schedule;
  }

  lemma CollectedCredit(s: Books, v: nat, l: nat, amount: int, specified: Option<nat>, u: nat)
    requires u < |s.credit|
    ensures var r := RepayLoan(s, v, l, amount, specified);
            && |r.books.credit| == |s.credit|
            && r.books.credit[u] == (if v == u && r.outcome == Done then Collect(s.credit[u], amount) else s.credit[u])
  {
    hide ResolveAccount, TargetRow, Entry, PayLoan;
  }

  lemma LimitStaysAbove(s: Books, v: nat, limit: int, u: nat)
    requires Inv(s) && u < |s.credit|
    ensures var credit := SetCreditLimit(s, v, limit).books.credit;
            && |credit| == |s.credit|
            && (s.credit[u].available <= s.credit[u].limit ==> credit[u].available <= credit[u].limit)
  {
    assert CreditBook(u, s.credit[u], s.loans, s.ledger);
    hide LoansOk, SavingsOk, LinksOk, LedgerOk, LoanBooksOk, CustomersOk, NoneInFlight, ClampLimit;
  }

  // Exactly how available credit can rise above the limit: by repaying more than the account has
  // outstanding. Loans are repaid with interest, which was never borrowed.
  lemma CreditExceedsLimitIff(start: Clock, evs: seq<Event>, u: nat, e: Event)
    requires u < |Run(start, evs).credit|
    requires Run(start, evs).credit[u].available <= Run(start, evs).credit[u].limit
    ensures var s := Run(start, evs);
            && u < |Step(s, e).credit|
            && (Step(s, e).credit[u].available > Step(s, e).credit[u].limit <==>
                  && e.DoRepayLoan? && e.user == u && e.amount > s.credit[u].outstanding
                  && RepayLoan(s, u, e.loan, e.amount, e.specified).outcome == Done)
  {
    var s := Run(start, evs);
    RunKeepsInv(start, evs);
    assert CreditBook(u, s.credit[u], s.loans, s.ledger);
    hide Run, CreditBook;
    match e
    case DoDisburseLoan(l) => DisbursementStaysBelow(s, l, u);
    case DoRequestLoan(v, p, tenor, a) => RequestStaysBelow(s, v, p, tenor, a, u);
    case DoRepayLoan(v, l, amount, a) => CollectedCredit(s, v, l, amount, a, u);
    case DoSetCreditLimit(v, limit) => LimitStaysAbove(s, v, limit, u);
    case _ => OtherCredit(s, e, u);
  }

  // ---- The ledger replays -----------------------------------------------------------

  lemma LedgerReplays(start: Clock, evs: seq<Event>, a: nat)
    requires a < |Run(start, evs).savings|
    ensures var s := Run(start, evs);
            0 <= s.savings[a].balance == Sum(s.ledger, BalanceFlow(a))
  {
    RunKeepsInv(start, evs);
  }

  // Money never crosses customers: an entry moves the balance of an account of its own
  // customer, and loan money belongs to that same customer's loan.
  lemma EntriesStayWithOneCustomer(start: Clock, evs: seq<Event>, i: nat)
    requires i < |Run(start, evs).ledger|
    ensures var s := Run(start, evs); var t := s.ledger[i];
            && t.account.Some? && t.account.value < |s.savings| && s.savings[t.account.value].owner == t.user
            && (t.loan.Some? <==> t.kind in {LoanDisbursement, LoanRepayment})
            && (t.loan.Some? ==> t.loan.value < |s.loans| && s.loans[t.loan.value].user == t.user)
  {
    RunKeepsInv(start, evs);
    var s := Run(start, evs);
    assert TxnOk(s.ledger[i], s.savings, s.ledger[..i]) && TagOk(s.ledger[i], s.loans);
  }

  lemma ChainOf(savings: seq<Savings>, ledger: seq<Txn>, i: nat, j: nat)
    requires LedgerOk(savings, ledger) && i < j < |ledger|
    requires ledger[i].status == TxnCompleted && ledger[i].account == ledger[j].account
    requires forall m :: i < m < j ==> ledger[m].account != ledger[i].account || ledger[m].status != TxnCompleted
    ensures ledger[j].before == ledger[i].before + SignedAmount(ledger[i].kind, ledger[i].amount)
  {
    var a := ledger[i].account.value;
    assert TxnOk(ledger[i], savings, ledger[..i]) && TxnOk(ledger[j], savings, ledger[..j]);
    SumSkip(ledger, i, j, BalanceFlow(a));
  }

  // Consecutive completed entries of an account chain: each starts where the one before ended.
  lemma EntriesChain(start: Clock, evs: seq<Event>, i: nat, j: nat)
    requires i < j < |Run(start, evs).ledger|
    requires var ledger := Run(start, evs).ledger;
             && ledger[i].status == TxnCompleted && ledger[i].account == ledger[j].account
             && forall m :: i < m < j ==> ledger[m].account != ledger[i].account || ledger[m].status != TxnCompleted
    ensures var ledger := Run(start, evs).ledger;
            ledger[j].before == ledger[i].before + SignedAmount(ledger[i].kind, ledger[i].amount)
  {
    RunKeepsInv(start, evs);
    ChainOf(Run(start, evs).savings, Run(start, evs).ledger, i, j);
  }

  // The recorded balance afterwards is the real one exactly when the entry is no repayment; a
  // repayment records the balance before it once more.
  lemma RecordedAfterIsTheBalanceIff(start: Clock, evs: seq<Event>, i: nat)
    requires i < |Run(start, evs).ledger|
    requires Run(start, evs).ledger[i].status == TxnCompleted
    ensures var t := Run(start, evs).ledger[i];
            && (t.after == t.before + SignedAmount(t.kind, t.amount) <==> t.kind != LoanRepayment)
            && (t.kind == LoanRepayment ==> t.after == t.before)
            && (t.kind in {Deposit, LoanDisbursement, InterestCredit} ==> t.after == t.before + t.amount)
            && (t.kind == Withdrawal ==> t.after == t.before - t.amount)
  {
    RunKeepsInv(start, evs);
    assert TxnOk(Run(start, evs).ledger[i], Run(start, evs).savings, Run(start, evs).ledger[..i]);
  }
}
