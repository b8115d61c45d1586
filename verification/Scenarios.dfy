// Short concrete runs, from an empty bank to the states some theorems speak about.
module Scenarios {
  import opened Calendar
  import opened Model
  import opened Operations
  import opened Runs

  const DAY_ONE: Clock := Reading(CivilDate(0, 1), 0)

  // A verified customer deposits something and asks for a loan.
  function Borrowing(deposit: int, principal: int, tenor: nat): seq<Event> {
    [DoRegister(MIN_CREDIT_LIMIT), DoVerifyCustomer(0), DoDeposit(0, 0, deposit),
     DoRequestLoan(0, principal, tenor, None)]
  }

  lemma ContinueOne(s: Books, evs: seq<Event>, e: Event)
    ensures Continue(s, evs + [e]) == Step(Continue(s, evs), e)
  {
    assert (evs + [e])[..|evs|] == evs;
  }

  lemma {:induction false} ContinueConcat(s: Books, evs: seq<Event>, more: seq<Event>)
    ensures Continue(s, evs + more) == Continue(Continue(s, evs), more)
  {
    hide Step;
    if more == [] {
      assert evs + more == evs;
    } else {
      var n := |more| - 1;
      assert (evs + more)[..|evs| + n] == evs + more[..n];
      ContinueConcat(s, evs, more[..n]);
    }
  }

  lemma RunContinues(start: Clock, evs: seq<Event>, more: seq<Event>)
    ensures Run(start, evs + more) == Continue(Run(start, evs), more)
  {
    ContinueConcat(EmptyBooks(start), evs, more);
  }

  lemma ContinueThree(s: Books, e1: Event, e2: Event, e3: Event)
    ensures Continue(s, [e1, e2, e3]) == Step(Step(Step(s, e1), e2), e3)
  {
    hide Step;
    ContinueOne(s, [], e1);
    ContinueOne(s, [e1], e2);
    ContinueOne(s, [e1, e2], e3);
    assert [] + [e1] == [e1] && [e1] + [e2] == [e1, e2] && [e1, e2] + [e3] == [e1, e2, e3];
  }

  lemma ContinueFour(s: Books, e1: Event, e2: Event, e3: Event, e4: Event)
    ensures Continue(s, [e1, e2, e3, e4]) == Step(Step(Step(Step(s, e1), e2), e3), e4)
  {
    hide Step;
    ContinueOne(s, [], e1);
    ContinueOne(s, [e1], e2);
    ContinueOne(s, [e1, e2], e3);
    ContinueOne(s, [e1, e2, e3], e4);
    assert [] + [e1] == [e1] && [e1] + [e2] == [e1, e2] && [e1, e2] + [e3] == [e1, e2, e3];
    assert [e1, e2, e3] + [e4] == [e1, e2, e3, e4];
  }

  // One customer with one BASIC account holding the given balance.
  ghost predicate OneCustomer(s: Books, now: Clock, balance: int, verified: bool) {
    && s.now == now && |s.customers| == 1 && |s.savings| == 1 && |s.credit| == 1
    && s.customers[0] == Customer(INITIAL_CREDIT_SCORE, verified)
    && s.savings[0].owner == 0 && s.savings[0].status == AccountActive && s.savings[0].tier == Basic
    && s.savings[0].balance == balance
  }

  lemma Registered(start: Clock)
    ensures var s := Step(EmptyBooks(start), DoRegister(MIN_CREDIT_LIMIT));
            && OneCustomer(s, start, 0, false) && s.loans == [] && s.ledger == []
            && s.credit[0].available == s.credit[0].limit == MIN_CREDIT_LIMIT
  {
  }

  lemma Verified(s: Books, now: Clock, balance: int)
    requires OneCustomer(s, now, balance, false)
    ensures var s' := Step(s, DoVerifyCustomer(0));
            OneCustomer(s', now, balance, true) && s'.credit == s.credit && s'.loans == s.loans && s'.ledger == s.ledger
  {
  }

  lemma Deposited(s: Books, now: Clock, amount: int, verified: bool)
    requires OneCustomer(s, now, 0, verified) && s.ledger == []
    requires MIN_AMOUNT <= amount <= DailyDepositLimit(Basic)
    ensures var s' := Step(s, DoDeposit(0, 0, amount));
            OneCustomer(s', now, amount, verified) && s'.credit == s.credit && s'.loans == s.loans
  {
  }

  // A loan just granted and paid out: every row of its schedule is still scheduled.
  ghost predicate FreshLoan(loan: Loan) {
    && loan.approval == AutoApproved && loan.status == Disbursed
    && forall i :: 0 <= i < |loan.rows| ==> loan.rows[i].status == Scheduled
  }

  lemma Borrowed(s: Books, now: Clock, balance: int, principal: int, tenor: nat)
    requires OneCustomer(s, now, balance, true) && s.loans == [] && s.credit[0].available == MIN_CREDIT_LIMIT
    requires MIN_AMOUNT <= principal <= AUTO_APPROVAL_THRESHOLD && IsTenor(tenor)
    ensures var s' := Step(s, DoRequestLoan(0, principal, tenor, None));
            && OneCustomer(s', now, balance + principal, true) && |s'.loans| == 1
            && FreshLoan(s'.loans[0]) && s'.loans[0].user == 0 && s'.loans[0].account == 0
            && s'.loans[0].principal == principal && s'.loans[0].tenor == tenor && s'.loans[0].requested == now.date
            && s'.loans[0].outstanding == s'.loans[0].total == TotalAmount(principal, tenor)
            && |s'.loans[0].rows| == tenor && s'.credit[0] == Lend(s.credit[0], principal)
  {
    hide TotalAmount, Installment, AddMonths, Serial, InterestPercent;
    assert ResolveAccount(s, 0, None, None) == Resolved(0);
  }

  // The run ends with the loan paid out to an account that holds deposit and principal.
  lemma LoanGranted(deposit: int, principal: int, tenor: nat)
    requires MIN_AMOUNT <= deposit <= DailyDepositLimit(Basic)
    requires MIN_AMOUNT <= principal <= AUTO_APPROVAL_THRESHOLD && IsTenor(tenor)
    ensures var s := Run(DAY_ONE, Borrowing(deposit, principal, tenor));
            && OneCustomer(s, DAY_ONE, deposit + principal, true) && |s.loans| == 1
            && FreshLoan(s.loans[0]) && s.loans[0].user == 0 && s.loans[0].account == 0
            && s.loans[0].principal == principal && s.loans[0].tenor == tenor && s.loans[0].requested == DAY_ONE.date
            && s.loans[0].outstanding == s.loans[0].total == TotalAmount(principal, tenor)
            && |s.loans[0].rows| == tenor
            && s.credit[0].limit == MIN_CREDIT_LIMIT && s.credit[0].available == MIN_CREDIT_LIMIT - principal
  {
    var s0 := EmptyBooks(DAY_ONE);
    var evs := Borrowing(deposit, principal, tenor);
    Registered(DAY_ONE);
    var s1 := Step(s0, evs[0]);
    Verified(s1, DAY_ONE, 0);
    var s2 := Step(s1, evs[1]);
    Deposited(s2, DAY_ONE, deposit, true);
    var s3 := Step(s2, evs[2]);
    Borrowed(s3, DAY_ONE, deposit, principal, tenor);
    hide Step, TotalAmount;
    ContinueFour(s0, evs[0], evs[1], evs[2], evs[3]);
  }
}
