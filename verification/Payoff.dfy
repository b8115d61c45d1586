// When a loan in repayment can still be paid off. A payment may leave less than the smallest
// amount a later one may have; and a row once settled, even in part, is not offered again.
module Payoff {
  import opened Calendar
  import opened Sums
  import opened Model
  import opened Operations
  import opened Invariants
  import opened Preservation
  import opened Runs
  import opened History
  import opened LoanTheorems
  import opened Scenarios
  import opened Overpayment
  import Billing

  // ---- When it cannot ---------------------------------------------------------------

  lemma {:induction false} FlowAtLeast(ledger: seq<Txn>, l: nat)
    requires forall i :: 0 <= i < |ledger| && ledger[i].kind == LoanRepayment ==> MIN_AMOUNT <= ledger[i].amount
    ensures var flow := Sum(ledger, LoanFlow(l, LoanRepayment)); flow == 0 || MIN_AMOUNT <= flow
  {
    if ledger == [] {
    } else {
      var n := |ledger| - 1;
      assert forall i :: 0 <= i < n ==> ledger[..n][i] == ledger[i];
      FlowAtLeast(ledger[..n], l);
    }
  }

  lemma LedgerSaysPaid(s: Books, l: nat)
    requires Inv(s) && l < |s.loans|
    ensures Sum(s.ledger, LoanFlow(l, LoanRepayment)) == s.loans[l].total - s.loans[l].outstanding
  {
    assert LoanBook(l, s.loans[l], s.ledger);
  }

  lemma RepaidMeanwhile(ledger: seq<Txn>, ledger': seq<Txn>, l: nat)
    requires ledger <= ledger'
    requires forall i :: 0 <= i < |ledger'| && ledger'[i].kind == LoanRepayment ==> MIN_AMOUNT <= ledger'[i].amount
    ensures var paid := Sum(ledger', LoanFlow(l, LoanRepayment)) - Sum(ledger, LoanFlow(l, LoanRepayment));
            paid == 0 || MIN_AMOUNT <= paid
  {
    hide LoanFlow, Sum;
    var later := ledger'[|ledger|..];
    assert ledger' == ledger + later;
    SumConcat(ledger, later, LoanFlow(l, LoanRepayment));
    assert forall i :: 0 <= i < |later| ==> later[i] == ledger'[|ledger| + i];
    FlowAtLeast(later, l);
  }

  // What a loan owes less, later, is a sum of repayments.
  lemma OwedLess(s: Books, s': Books, l: nat)
    requires Inv(s) && Inv(s') && Evolves(s, s') && l < |s.loans|
    ensures var paid := s.loans[l].outstanding - s'.loans[l].outstanding; paid == 0 || MIN_AMOUNT <= paid
  {
    hide Inv, Sum, DefaultersBarred, SavingsEvolve, CreditEvolve;
    assert LoanEvolves(s.loans[l], s'.loans[l]);
    LedgerSaysPaid(s, l);
    LedgerSaysPaid(s', l);
    Billing.LedgerAmounts(s');
    RepaidMeanwhile(s.ledger, s'.ledger, l);
    hide LoansEvolve;
  }

  lemma TooLittleLeft(s: Books, more: seq<Event>, l: nat)
    requires Inv(s) && l < |s.loans| && 0 < s.loans[l].outstanding < MIN_AMOUNT
    ensures !Reaches(s, more, l, FullyPaid)
  {
    ContinueKeepsInv(s, more);
    ContinueEvolves(s, more);
    OwedLess(s, Continue(s, more), l);
    PaidFacts(Continue(s, more), l);
    hide Inv, Evolves, Continue;
  }

  lemma NothingOpen(s: Books, more: seq<Event>, l: nat)
    requires Inv(s) && l < |s.loans| && 0 < s.loans[l].outstanding
    requires forall i :: 0 <= i < |s.loans[l].rows| ==> !s.loans[l].rows[i].Unpaid()
    ensures !Reaches(s, more, l, FullyPaid)
  {
    SettledLoanIsFrozen(s, more, l);
    hide Inv, Continue;
  }

  // ---- When it can ------------------------------------------------------------------

  function LatestMonth(ledger: seq<Txn>): (m: nat)
    ensures forall i :: 0 <= i < |ledger| ==> ledger[i].created.date.month <= m
  {
    if ledger == [] then 0
    else
      var (before, last) := (LatestMonth(ledger[..|ledger| - 1]), ledger[|ledger| - 1].created.date.month);
      if before <= last then last else before
  }

  // A midnight later than now, on a day without any entry.
  lemma FreeDay(now: Clock, ledger: seq<Txn>) returns (to: Clock)
    ensures NotBefore(to, now)
    ensures forall a, k :: PeriodTotal(ledger, a, k, OnDay(to.date)) == 0
  {
    var m := 1 + (if LatestMonth(ledger) <= now.date.month then now.date.month else LatestMonth(ledger));
    to := Reading(CivilDate(m, 1), 0);
    SerialIsCalendarOrder(now.date, to.date);
    hide Serial;
    forall a, k ensures PeriodTotal(ledger, a, k, OnDay(to.date)) == 0 {
      SumZero(ledger, PeriodFlow(a, k, OnDay(to.date)));
    }
  }

  lemma TotalAtMost(principal: int, tenor: nat)
    requires 0 < principal
    ensures TotalAmount(principal, tenor) <= 2 * principal
  {
    assert principal * (100 + InterestPercent(tenor)) <= principal * 118;
  }

  lemma LimitCoversLoan(loan: Loan, today: int, t: Tier)
    requires LoanOk(loan, today) && loan.rows != []
    ensures loan.outstanding <= DailyDepositLimit(t)
  {
    TotalAtMost(loan.principal, loan.tenor);
    hide TotalAmount, RowsOk, IsScheduleOf, AddMonths, Serial, Sum;
  }

  lemma CanDeposit(s: Books, u: nat, a: nat, amount: int)
    requires Inv(s) && s.Owns(u, a) && s.savings[a].status == AccountActive
    requires MIN_AMOUNT <= amount <= DailyDepositLimit(s.savings[a].tier)
    requires PeriodTotal(s.ledger, a, Deposit, OnDay(s.now.date)) == 0
    ensures var s' := Step(s, DoDeposit(u, a, amount));
            && Inv(s') && s'.loans == s.loans && |s'.savings| == |s.savings| && s.savings[a].balance >= 0
            && s'.savings[a].balance == s.savings[a].balance + amount
  {
    MakeDepositKeeps(s, u, a, amount);
    LinksHold(s);
    assert s.savings[a].owner < |s.credit| && s.savings[a].balance >= 0;
    hide Inv, PeriodTotal, Entry;
  }

  lemma PaysTheRest(s: Books, l: nat)
    requires Inv(s) && l < |s.loans| && s.loans[l].status in {Active, Disbursed}
    requires MIN_AMOUNT <= s.loans[l].outstanding && TargetRow(s.loans[l].rows) < |s.loans[l].rows|
    requires s.loans[l].account < |s.savings| && s.loans[l].outstanding <= s.savings[s.loans[l].account].balance
    ensures var s' := RepayLoan(s, s.loans[l].user, l, s.loans[l].outstanding, None).books;
            l < |s'.loans| && s'.loans[l].status == FullyPaid
  {
    LinksHold(s);
    hide Inv, ResolveAccount, TargetRow, LinksOk, RepayLoan, SourceOf;
    RestIsAccepted(s, l);
    AcceptedRepayment(s, s.loans[l].user, l, s.loans[l].outstanding, None);
  }

  lemma RestIsAccepted(s: Books, l: nat)
    requires LinksOk(s.loans, s.savings, |s.credit|) && |s.customers| == |s.credit|
    requires l < |s.loans| && s.loans[l].status in {Active, Disbursed}
    requires MIN_AMOUNT <= s.loans[l].outstanding && TargetRow(s.loans[l].rows) < |s.loans[l].rows|
    requires s.loans[l].account < |s.savings| && s.loans[l].outstanding <= s.savings[s.loans[l].account].balance
    ensures RepayLoan(s, s.loans[l].user, l, s.loans[l].outstanding, None).outcome == Done
  {
    hide ResolveAccount, TargetRow, RepayLoan;
    ResolvesToSource(s, l, None);
    AcceptedOnceResolved(s, s.loans[l].user, l, s.loans[l].outstanding, None);
  }

  // What the customer of an open loan may rely on: a linked account of its own, with room for the
  // debt under a day's limit.
  lemma OpenLoan(s: Books, l: nat)
    requires Inv(s) && l < |s.loans| && s.loans[l].rows != [] && Live(s.loans[l].status)
    ensures s.Owns(s.loans[l].user, s.loans[l].account)
    ensures s.savings[s.loans[l].account].status == AccountActive
    ensures s.loans[l].outstanding <= DailyDepositLimit(s.savings[s.loans[l].account].tier)
  {
    assert LoanOk(s.loans[l], s.Today());
    LinksHold(s);
    hide Inv, LoanOk;
    LimitCoversLoan(s.loans[l], s.Today(), s.savings[s.loans[l].account].tier);
  }

  // On a free day the customer deposits what is owed and pays it at once.
  lemma DepositAndPay(s: Books, l: nat) returns (more: seq<Event>)
    requires Inv(s) && l < |s.loans| && s.loans[l].status in {Active, Disbursed}
    requires MIN_AMOUNT <= s.loans[l].outstanding && TargetRow(s.loans[l].rows) < |s.loans[l].rows|
    ensures Reaches(s, more, l, FullyPaid)
  {
    hide Inv, NotBefore, PeriodTotal, TargetRow, MakeDeposit, RepayLoan, DailyDepositLimit, Continue, FirstRow;
    var (u, a, owed) := (s.loans[l].user, s.loans[l].account, s.loans[l].outstanding);
    OpenLoan(s, l);
    var to := FreeDay(s.now, s.ledger);
    AdvanceKeeps(s, to);
    more := [DoAdvance(to), DoDeposit(u, a, owed), DoRepayLoan(u, l, owed, None)];
    var s1 := Step(s, more[0]);
    assert s1 == s.(now := to);
    CanDeposit(s1, u, a, owed);
    var s2 := Step(s1, more[1]);
    assert Step(s2, more[2]) == RepayLoan(s2, u, l, owed, None).books;
    hide Step;
    PaysTheRest(s2, l);
    ContinueThree(s, more[0], more[1], more[2]);
  }

  // From any reachable state: a loan in repayment can still be fully paid, by some continuation,
  // if and only if what it owes is at least the smallest payment and one of its rows is open.
  lemma CanStillBePaidOffIff(start: Clock, evs: seq<Event>, l: nat)
    requires l < |Run(start, evs).loans| && Run(start, evs).loans[l].status in {Active, Disbursed}
    ensures (exists more :: Reaches(Run(start, evs), more, l, FullyPaid)) <==>
            && 1_00 <= Run(start, evs).loans[l].outstanding
            && exists i :: 0 <= i < |Run(start, evs).loans[l].rows| && Run(start, evs).loans[l].rows[i].Unpaid()
  {
    var s := Run(start, evs);
    RunKeepsInv(start, evs);
    PaidFacts(s, l);
    hide Run, Inv, Reaches;
    if s.loans[l].outstanding < MIN_AMOUNT {
      forall more ensures !Reaches(s, more, l, FullyPaid) {
        TooLittleLeft(s, more, l);
      }
    } else if i :| 0 <= i < |s.loans[l].rows| && s.loans[l].rows[i].Unpaid() {
      assert TargetRow(s.loans[l].rows) < |s.loans[l].rows|;
      var more := DepositAndPay(s, l);
    } else {
      forall more ensures !Reaches(s, more, l, FullyPaid) {
        NothingOpen(s, more, l);
      }
    }
  }

  // ---- Half a franc left ------------------------------------------------------------

  // Of 105 francs owed, 104.50 are paid at once.
  const FIFTY_CENTS_SHORT: seq<Event> := Borrowing(1_000, 10_000, 3) + [DoRepayLoan(0, 0, 10_450, None)]

  lemma PaidAlmostAll(s: Books)
    requires OneCustomer(s, DAY_ONE, 11_000, true) && |s.loans| == 1 && FreshLoan(s.loans[0])
    requires s.loans[0].user == 0 && s.loans[0].account == 0
    requires s.loans[0].outstanding == 10_500 && |s.loans[0].rows| == 3
    ensures var s' := Step(s, DoRepayLoan(0, 0, 10_450, None));
            && |s'.loans| == 1 && s'.loans[0].status == Active && s'.loans[0].outstanding == 50
            && |s'.loans[0].rows| == 3 && s'.loans[0].rows[1].Unpaid() && s'.loans[0].rows[2].Unpaid()
  {
    assert s.loans[0].rows[0].status == Scheduled;
    assert TargetRow(s.loans[0].rows) == 0;
  }

  // Fifty cents are less than any payment may be: the loan is active, has two open rows, is never
  // fully paid whatever follows, and can be driven into default.
  lemma FiftyCentsCannotBePaid()
    ensures var s := Run(DAY_ONE, FIFTY_CENTS_SHORT);
            && |s.loans| == 1 && s.loans[0].status == Active && s.loans[0].outstanding == 50
            && |s.loans[0].rows| == 3 && s.loans[0].rows[1].Unpaid() && s.loans[0].rows[2].Unpaid()
            && !(exists more :: Reaches(s, more, 0, FullyPaid))
            && (exists more :: Reaches(s, more, 0, Defaulted))
  {
    var evs := Borrowing(1_000, 10_000, 3);
    LoanGranted(1_000, 10_000, 3);
    assert TotalAmount(10_000, 3) == 10_500;
    hide TotalAmount, Step, Borrowing, OneCustomer;
    PaidAlmostAll(Run(DAY_ONE, evs));
    ContinueOne(EmptyBooks(DAY_ONE), evs, DoRepayLoan(0, 0, 10_450, None));
    hide Continue, Reaches, Run;
    CanStillBePaidOffIff(DAY_ONE, FIFTY_CENTS_SHORT, 0);
    CanDefaultIff(DAY_ONE, FIFTY_CENTS_SHORT, 0);
  }
}
