// Short runs into states one might think impossible.
module Counterexamples {
  import opened Calendar
  import Money
  import opened Sums
  import opened Model
  import opened Operations
  import Invariants
  import opened Runs
  import opened Scenarios
  import opened InterestBook

  // ---- An overdue row is passed over ------------------------------------------------

  const DAY_AFTER_FIRST_DUE: Clock := Reading(CivilDate(1, 2), 0)

  // A customer lets the first row of a loan fall overdue and then pays one installment.
  const PAY_LATE: seq<Event> :=
    Borrowing(1_000, 10_000, 3) + [DoAdvance(DAY_AFTER_FIRST_DUE), DoMarkOverdue, DoRepayLoan(0, 0, 3_500, None)]

  lemma FirstDueDates(loan: Loan)
    requires IsTenor(loan.tenor) && Invariants.IsScheduleOf(loan.rows, loan) && |loan.rows| == 3
    requires loan.requested == DAY_ONE.date
    ensures loan.rows[0].due == 31 && loan.rows[1].due == 60 && loan.rows[2].due == 91
    ensures Serial(DAY_AFTER_FIRST_DUE.date) == 32
  {
    assert MonthStart(1) == 31 && MonthStart(2) == 60 && MonthStart(3) == 91;
    assert loan.rows[0].due == ScheduleRow(loan, 0).due;
    assert loan.rows[1].due == ScheduleRow(loan, 1).due;
    assert loan.rows[2].due == ScheduleRow(loan, 2).due;
    hide Installment;
  }

  lemma OneRowLate(s: Books)
    requires OneCustomer(s, DAY_ONE, 11_000, true) && |s.loans| == 1 && FreshLoan(s.loans[0])
    requires s.loans[0].user == 0 && s.loans[0].account == 0 && s.loans[0].outstanding == 10_500
    requires var rows := s.loans[0].rows;
             |rows| == 3 && rows[0].due == 31 && rows[1].due == 60 && rows[2].due == 91
    requires Serial(DAY_AFTER_FIRST_DUE.date) == 32
    ensures var s' := Step(Step(s, DoAdvance(DAY_AFTER_FIRST_DUE)), DoMarkOverdue);
            && OneCustomer(s', DAY_AFTER_FIRST_DUE, 11_000, true) && |s'.loans| == 1
            && s'.loans[0] == s.loans[0].(rows := s'.loans[0].rows)
            && var rows := s'.loans[0].rows;
               && |rows| == 3 && rows[0].status == Overdue
               && rows[1] == s.loans[0].rows[1] && rows[2] == s.loans[0].rows[2]
  {
    assert Serial(DAY_ONE.date) == 0;
    hide Serial;
  }

  lemma PaidPastOverdue(s: Books)
    requires OneCustomer(s, DAY_AFTER_FIRST_DUE, 11_000, true) && |s.loans| == 1
    requires s.loans[0].user == 0 && s.loans[0].account == 0 && s.loans[0].outstanding == 10_500
    requires s.loans[0].status == Disbursed
    requires var rows := s.loans[0].rows;
             |rows| == 3 && rows[0].status == Overdue && rows[1].status == Scheduled && rows[2].status == Scheduled
    ensures var s' := Step(s, DoRepayLoan(0, 0, 3_500, None));
            && |s'.loans| == 1 && |s'.loans[0].rows| == 3 && s'.loans[0].status == Active
            && s'.loans[0].rows[0] == s.loans[0].rows[0] && !s'.loans[0].rows[1].Unpaid()
            && s'.loans[0].rows[2].status == Scheduled
  {
    assert TargetRow(s.loans[0].rows) == 1;
    hide TargetRow;
  }

  lemma GrantedSchedule(evs: seq<Event>)
    requires |Run(DAY_ONE, evs).loans| == 1
    ensures var loan := Run(DAY_ONE, evs).loans[0]; IsTenor(loan.tenor) && Invariants.IsScheduleOf(loan.rows, loan)
  {
    RunKeepsInv(DAY_ONE, evs);
    assert Invariants.LoanOk(Run(DAY_ONE, evs).loans[0], Run(DAY_ONE, evs).Today());
  }

  // The payment settles the second row; the overdue first one stays overdue.
  lemma OverdueRowIsPassedOver()
    ensures var s := Run(DAY_ONE, PAY_LATE);
            && |s.loans| == 1 && |s.loans[0].rows| == 3 && s.loans[0].status == Active
            && s.loans[0].rows[0].status == Overdue && !s.loans[0].rows[1].Unpaid()
            && s.loans[0].rows[2].status == Scheduled
  {
    var evs := Borrowing(1_000, 10_000, 3);
    var s := Run(DAY_ONE, evs);
    LoanGranted(1_000, 10_000, 3);
    assert TotalAmount(10_000, 3) == 10_500;
    GrantedSchedule(evs);
    FirstDueDates(s.loans[0]);
    OneRowLate(s);
    var (e1, e2, e3) := (DoAdvance(DAY_AFTER_FIRST_DUE), DoMarkOverdue, DoRepayLoan(0, 0, 3_500, None));
    PaidPastOverdue(Step(Step(s, e1), e2));
    hide Run, Step, TotalAmount, OneCustomer, Borrowing;
    RunContinues(DAY_ONE, evs, [e1, e2, e3]);
    ContinueThree(s, e1, e2, e3);
  }

  // ---- Available credit below zero --------------------------------------------------

  // An unverified customer asks twice for the whole credit line; both requests are approved.
  const BORROW_TWICE: seq<Event> :=
    [DoRegister(MIN_CREDIT_LIMIT), DoRequestLoan(0, MIN_CREDIT_LIMIT, 3, None),
     DoRequestLoan(0, MIN_CREDIT_LIMIT, 3, None), DoApproveLoan(0)] +
    [DoApproveLoan(1), DoDisburseLoan(0), DoDisburseLoan(1)]

  ghost predicate UnderReview(loan: Loan) {
    && loan.user == 0 && loan.account == 0 && loan.principal == MIN_CREDIT_LIMIT
    && loan.approval == PendingReview && loan.status == Pending
  }

  ghost predicate LoansUnderReview(s: Books, n: nat) {
    && OneCustomer(s, DAY_ONE, 0, false) && |s.loans| == n && s.credit[0].available == MIN_CREDIT_LIMIT
    && forall l :: 0 <= l < n ==> UnderReview(s.loans[l])
  }

  lemma OneMoreUnderReview(s: Books, n: nat)
    requires LoansUnderReview(s, n)
    ensures LoansUnderReview(Step(s, DoRequestLoan(0, MIN_CREDIT_LIMIT, 3, None)), n + 1)
  {
    hide TotalAmount, AddMonths, Serial;
    assert ResolveAccount(s, 0, None, None) == Resolved(0);
    assert !HasDefaulted(s.loans, 0);
  }

  lemma PaidOutByHand(s: Books, balance: int, l: nat)
    requires OneCustomer(s, DAY_ONE, balance, false) && l < |s.loans|
    requires s.loans[l].user == 0 && s.loans[l].account == 0 && s.loans[l].status == Approved
    ensures var s' := Step(s, DoDisburseLoan(l));
            && OneCustomer(s', DAY_ONE, balance + s.loans[l].principal, false)
            && s'.credit[0].available == s.credit[0].available - s.loans[l].principal
            && |s'.loans| == |s.loans| && s'.loans[l] == s.loans[l].(account := 0, status := Disbursed)
            && forall m :: 0 <= m < |s.loans| && m != l ==> s'.loans[m] == s.loans[m]
  {
  }

  lemma BothPaidOut(s: Books)
    requires LoansUnderReview(s, 2)
    ensures var approved := Step(Step(s, DoApproveLoan(0)), DoApproveLoan(1));
            var s' := Step(Step(approved, DoDisburseLoan(0)), DoDisburseLoan(1));
            && |s'.credit| == 1 && s'.credit[0].available == -MIN_CREDIT_LIMIT && |s'.loans| == 2
            && s'.loans[1].approval == ManualApproved && s'.loans[1].status == Disbursed
  {
    var s2 := Step(Step(s, DoApproveLoan(0)), DoApproveLoan(1));
    assert OneCustomer(s2, DAY_ONE, 0, false) && s2.credit == s.credit && |s2.loans| == 2;
    assert forall l :: 0 <= l < 2 ==> s2.loans[l] == s.loans[l].(approval := ManualApproved, status := Approved);
    hide Step;
    PaidOutByHand(s2, 0, 0);
    PaidOutByHand(Step(s2, DoDisburseLoan(0)), MIN_CREDIT_LIMIT, 1);
  }

  // Two manual loans leave the available credit as far below zero as the limit is above it; and
  // such a loan is disbursed, so that a repayment of it can be tried.
  lemma ManualLoansOverdrawTheCredit()
    ensures var s := Run(DAY_ONE, BORROW_TWICE);
            && |s.credit| == 1 && s.credit[0].available == -MIN_CREDIT_LIMIT && |s.loans| == 2
            && s.loans[1].approval == ManualApproved && s.loans[1].status == Disbursed
  {
    var s0 := EmptyBooks(DAY_ONE);
    var e := BORROW_TWICE;
    Registered(DAY_ONE);
    var s1 := Step(s0, e[0]);
    OneMoreUnderReview(s1, 0);
    var s2 := Step(s1, e[1]);
    OneMoreUnderReview(s2, 1);
    var s3 := Step(s2, e[2]);
    BothPaidOut(s3);
    hide Step, OneCustomer, LoansUnderReview;
    ContinueFour(s0, e[0], e[1], e[2], e[3]);
    ContinueThree(Step(s3, e[3]), e[4], e[5], e[6]);
    RunContinues(DAY_ONE, [e[0], e[1], e[2], e[3]], [e[4], e[5], e[6]]);
    assert e == [e[0], e[1], e[2], e[3]] + [e[4], e[5], e[6]];
  }

  // ---- Interest credited twice ------------------------------------------------------

  const MONTH_END: Clock := Reading(CivilDate(0, 31), 0)

  // The interest job is started twice on the last day of a month.
  const START_TWICE: seq<Event> :=
    [DoRegister(MIN_CREDIT_LIMIT), DoDeposit(0, 0, 10_000_000), DoAccrueInterest([0]), DoAccrueInterest([0])]

  lemma FirstTurnCredits(s: Books, balance: int)
    requires OneCustomer(s, MONTH_END, balance, false) && 0 < balance && 0 <= s.savings[0].accrued
    requires s.savings[0].rate == TierRate(Basic)
    ensures EarnsInterest(s.savings[0])
    ensures var acc := AccrueOne(s, 0).savings[0];
            acc == s.savings[0].(balance := acc.balance, accrued := 0) && acc.balance > 0
  {
    assert IsLastDayOfMonth(MONTH_END.date);
    Money.RoundAtLeast(InterestNumerator(balance, 500), INTEREST_SCALE, 0);
    hide Money.Round, HasSnapshot, IsLastDayOfMonth;
  }

  lemma JobCredits(s: Books, balance: int)
    requires OneCustomer(s, MONTH_END, balance, false) && 0 < balance && 0 <= s.savings[0].accrued
    requires s.savings[0].rate == TierRate(Basic)
    ensures var s' := Step(s, DoAccrueInterest([0]));
            && Sum(s'.ledger, CreditsTo(0)) == Sum(s.ledger, CreditsTo(0)) + 1
            && |s'.savings| == 1 && 0 < s'.savings[0].balance && s'.savings[0].accrued == 0
            && s'.savings[0].rate == TierRate(Basic)
            && OneCustomer(s', MONTH_END, s'.savings[0].balance, false)
  {
    FirstTurnCredits(s, balance);
    assert [0][0] == 0 && !EndedBefore(s, [0], 0);
    assert AccrueUpTo(s, [0], 0) == s && AccrueUpTo(s, [0], 1) == AccrueOne(s, 0);
    hide AccrueUpTo, HasSnapshot, EndedBefore, CreditsTo, Sum;
    PaysInterestIff(s.savings[0], s.now.date);
    assert IsLastDayOfMonth(MONTH_END.date);
    hide IsLastDayOfMonth, EarnsInterest, PaysInterest;
    JobCreditsIff(s, [0], 0);
  }

  // The second start fails at the snapshot, but the first account was credited again by then.
  lemma SecondStartCreditsAgain()
    ensures Sum(Run(MONTH_END, START_TWICE).ledger, CreditsTo(0)) == 2
  {
    var s0 := EmptyBooks(MONTH_END);
    var e := START_TWICE;
    Registered(MONTH_END);
    var s1 := Step(s0, e[0]);
    assert s1.savings[0] == NewSavings(0, MONTH_END);
    Deposited(s1, MONTH_END, 10_000_000, false);
    var s2 := Step(s1, e[1]);
    assert s2.savings[0] == s1.savings[0].(balance := 10_000_000) && |s2.ledger| == 1;
    assert s2.ledger[0].kind == Deposit && s2.ledger[..0] == [];
    assert Sum(s2.ledger, CreditsTo(0)) == 0;
    JobCredits(s2, 10_000_000);
    var s3 := Step(s2, e[2]);
    JobCredits(s3, s3.savings[0].balance);
    hide Step, OneCustomer, Sum;
    ContinueFour(s0, e[0], e[1], e[2], e[3]);
  }

  // ---- A tier that falls ------------------------------------------------------------

  const DAILY_SAVING: int := 100_000 * Money.RWF

  function DayAt(day: nat): Clock
    requires 1 <= day <= 31
  {
    Reading(CivilDate(0, day), 0)
  }

  // A verified customer deposits as much as a BASIC account may take in a day, n days running.
  function Saving(n: nat): seq<Event>
    requires n <= 30
  {
    if n == 0 then [DoRegister(MIN_CREDIT_LIMIT), DoVerifyCustomer(0)]
    else Saving(n - 1) + [DoDeposit(0, 0, DAILY_SAVING), DoAdvance(DayAt(n + 1))]
  }

  // One verified customer with one account; nothing was entered on the day, nor any snapshot taken.
  ghost predicate Saver(s: Books, day: nat, tier: Tier, balance: int)
    requires 1 <= day <= 31
  {
    && s.now == DayAt(day) && |s.customers| == 1 && s.customers[0].verified && |s.savings| == 1
    && s.savings[0].owner == 0 && s.savings[0].status == AccountActive
    && s.savings[0].tier == tier && s.savings[0].balance == balance
    && forall i :: 0 <= i < |s.ledger| ==> s.ledger[i].created.date.month == 0 && s.ledger[i].created.date.day < day
  }

  ghost predicate NothingDrawn(ledger: seq<Txn>) {
    forall i :: 0 <= i < |ledger| ==> ledger[i].kind != Withdrawal
  }

  lemma ContinueTwo(s: Books, evs: seq<Event>, e1: Event, e2: Event)
    ensures Continue(s, evs + [e1, e2]) == Step(Step(Continue(s, evs), e1), e2)
  {
    hide Step;
    ContinueOne(s, evs, e1);
    ContinueOne(s, evs + [e1], e2);
    assert evs + [e1] + [e2] == evs + [e1, e2];
  }

  lemma LaterDay(day: nat)
    requires 1 <= day <= 30
    ensures NotBefore(DayAt(day + 1), DayAt(day))
  {
  }

  lemma NothingToday(s: Books, day: nat, tier: Tier, balance: int)
    requires 1 <= day <= 31 && Saver(s, day, tier, balance)
    ensures forall k :: PeriodTotal(s.ledger, 0, k, OnDay(s.now.date)) == 0
  {
    forall k ensures PeriodTotal(s.ledger, 0, k, OnDay(s.now.date)) == 0 {
      SumZero(s.ledger, PeriodFlow(0, k, OnDay(s.now.date)));
    }
  }

  lemma OneMoreDay(s: Books, day: nat, balance: int)
    requires 1 <= day <= 30 && Saver(s, day, Basic, balance)
    ensures var s' := Step(Step(s, DoDeposit(0, 0, DAILY_SAVING)), DoAdvance(DayAt(day + 1)));
            && Saver(s', day + 1, Basic, balance + DAILY_SAVING) && s'.snapshots == s.snapshots
            && (NothingDrawn(s.ledger) ==> NothingDrawn(s'.ledger))
  {
    NothingToday(s, day, Basic, balance);
    LaterDay(day);
    hide PeriodTotal, NotBefore;
  }

  lemma Opened()
    ensures var s := Step(Step(EmptyBooks(DAY_ONE), DoRegister(MIN_CREDIT_LIMIT)), DoVerifyCustomer(0));
            Saver(s, 1, Basic, 0) && s.snapshots == [] && s.ledger == []
  {
  }

  lemma SavingContinues(n: nat)
    requires 0 < n <= 30
    ensures Run(DAY_ONE, Saving(n))
         == Step(Step(Run(DAY_ONE, Saving(n - 1)), DoDeposit(0, 0, DAILY_SAVING)), DoAdvance(DayAt(n + 1)))
  {
    hide Step, Continue, DayAt;
    ContinueTwo(EmptyBooks(DAY_ONE), Saving(n - 1), DoDeposit(0, 0, DAILY_SAVING), DoAdvance(DayAt(n + 1)));
  }

  lemma {:induction false} Saved(n: nat)
    requires n <= 30
    ensures var s := Run(DAY_ONE, Saving(n));
            Saver(s, n + 1, Basic, n * DAILY_SAVING) && s.snapshots == [] && NothingDrawn(s.ledger)
  {
    hide Step, Saver;
    var s0 := EmptyBooks(DAY_ONE);
    if n == 0 {
      Opened();
      ContinueTwo(s0, [], DoRegister(MIN_CREDIT_LIMIT), DoVerifyCustomer(0));
      assert [] + Saving(0) == Saving(0);
    } else {
      hide NothingDrawn, Run;
      Saved(n - 1);
      SavingContinues(n);
      assert n * DAILY_SAVING == (n - 1) * DAILY_SAVING + DAILY_SAVING;
      OneMoreDay(Run(DAY_ONE, Saving(n - 1)), n, (n - 1) * DAILY_SAVING);
    }
  }

  lemma DayNumber(day: nat)
    requires 1 <= day <= 30
    ensures Serial(DayAt(day).date) == day - 1 && !IsLastDayOfMonth(DayAt(day).date)
  {
  }

  lemma SnapshotTaken(s: Books, day: nat, tier: Tier, balance: int)
    requires 1 <= day <= 30 && Saver(s, day, tier, balance)
    requires forall i :: 0 <= i < |s.snapshots| ==> s.snapshots[i].day < day - 1
    ensures var s' := Step(s, DoAccrueInterest([0]));
            && Saver(s', day, tier, balance) && s'.ledger == s.ledger
            && s'.snapshots == s.snapshots + [Snapshot(0, balance, day - 1)]
  {
    DayNumber(day);
    assert [0][0] == 0 && IsOrder([0], 1);
    assert AccrueUpTo(s, [0], 0) == s && AccrueUpTo(s, [0], 1) == AccrueOne(s, 0);
    hide AccrueUpTo, DailyInterest, EarnsInterest, Serial, IsLastDayOfMonth;
  }

  lemma Evaluated(s: Books, day: nat, tier: Tier, balance: int, balances: seq<int>)
    requires 1 <= day <= 30 && Saver(s, day, tier, balance)
    requires balances != [] && balances == RecentBalances(s.snapshots, 0, s.Today() - EVALUATION_PERIOD_DAYS)
    requires !AverageAtLeast(balances, GOLD_MIN) && !AverageAtLeast(balances, PLATINUM_MIN)
    ensures var s' := Step(s, DoEvaluateTiers);
            && s'.snapshots == s.snapshots && s'.ledger == s.ledger
            && Saver(s', day, if AverageAtLeast(balances, SILVER_MIN) then Silver else Basic, balance)
  {
    hide RecentBalances, AverageAtLeast, AgeInMonths, Serial;
  }

  const HIGH: int := 500_000 * Money.RWF
  const LOW: int := 450_000 * Money.RWF

  lemma OneMoreBalance(balances: seq<int>, b: int)
    ensures Total(balances + [b]) == Total(balances) + b
  {
    assert (balances + [b])[..|balances|] == balances;
  }

  lemma TwoSnapshots(since: int)
    requires since < 5
    ensures RecentBalances([Snapshot(0, HIGH, 5)], 0, since) == [HIGH]
    ensures RecentBalances([Snapshot(0, HIGH, 5), Snapshot(0, LOW, 6)], 0, since) == [HIGH, LOW]
    ensures AverageAtLeast([HIGH], SILVER_MIN) && !AverageAtLeast([HIGH, LOW], SILVER_MIN)
    ensures !AverageAtLeast([HIGH], GOLD_MIN) && !AverageAtLeast([HIGH, LOW], GOLD_MIN)
    ensures !AverageAtLeast([HIGH], PLATINUM_MIN) && !AverageAtLeast([HIGH, LOW], PLATINUM_MIN)
  {
    var (first, second) := (Snapshot(0, HIGH, 5), Snapshot(0, LOW, 6));
    assert [first, second][..1] == [first] && [first][..0] == [];
    assert Total([]) == 0 && [] + [HIGH] == [HIGH] && [HIGH] + [LOW] == [HIGH, LOW];
    OneMoreBalance([], HIGH);
    OneMoreBalance([HIGH], LOW);
    hide Total;
  }

  lemma MoneyTaken(s: Books)
    requires Saver(s, 6, Silver, HIGH) && NothingDrawn(s.ledger)
    ensures var s' := Step(Step(s, DoWithdraw(0, 0, HIGH - LOW)), DoAdvance(DayAt(7)));
            Saver(s', 7, Silver, LOW) && s'.snapshots == s.snapshots
  {
    NothingToday(s, 6, Silver, HIGH);
    SumZero(s.ledger, PeriodFlow(0, Withdrawal, InMonth(0)));
    LaterDay(6);
    hide PeriodTotal, NotBefore;
  }

  // Five days of saving, a snapshot and an evaluation; then a withdrawal, and both once more.
  const UP: seq<Event> := Saving(5) + [DoAccrueInterest([0]), DoEvaluateTiers]
  const DOWN: seq<Event> := UP + [DoWithdraw(0, 0, HIGH - LOW), DoAdvance(DayAt(7))] +
                            [DoAccrueInterest([0]), DoEvaluateTiers]

  lemma SaverFacts(s: Books, day: nat, tier: Tier, balance: int)
    requires 1 <= day <= 31 && Saver(s, day, tier, balance)
    ensures s.now == DayAt(day) && |s.savings| == 1 && s.savings[0].tier == tier
  {
  }

  // The account reaches SILVER, and the next evaluation takes it back to BASIC.
  lemma TierRisesAndFalls()
    ensures var (up, down) := (Run(DAY_ONE, UP), Run(DAY_ONE, DOWN));
            && |up.savings| == 1 && up.savings[0].tier == Silver
            && |down.savings| == 1 && down.savings[0].tier == Basic && down.savings[0].rate == TierRate(Basic)
  {
    hide Saver, Step, Saving, AverageAtLeast, RecentBalances, NothingDrawn;
    var s0 := EmptyBooks(DAY_ONE);
    Saved(5);
    DayNumber(6);
    DayNumber(7);
    TwoSnapshots(5 - EVALUATION_PERIOD_DAYS);
    TwoSnapshots(6 - EVALUATION_PERIOD_DAYS);
    var s1 := Run(DAY_ONE, Saving(5));
    SnapshotTaken(s1, 6, Basic, HIGH);
    var s2 := Step(s1, DoAccrueInterest([0]));
    SaverFacts(s2, 6, Basic, HIGH);
    assert s2.snapshots == [Snapshot(0, HIGH, 5)];
    Evaluated(s2, 6, Basic, HIGH, [HIGH]);
    var s3 := Step(s2, DoEvaluateTiers);
    ContinueTwo(s0, Saving(5), DoAccrueInterest([0]), DoEvaluateTiers);
    MoneyTaken(s3);
    var s4 := Step(Step(s3, DoWithdraw(0, 0, HIGH - LOW)), DoAdvance(DayAt(7)));
    ContinueTwo(s0, UP, DoWithdraw(0, 0, HIGH - LOW), DoAdvance(DayAt(7)));
    SnapshotTaken(s4, 7, Silver, LOW);
    var s5 := Step(s4, DoAccrueInterest([0]));
    SaverFacts(s5, 7, Silver, LOW);
    assert s5.snapshots == [Snapshot(0, HIGH, 5), Snapshot(0, LOW, 6)];
    Evaluated(s5, 7, Silver, LOW, [HIGH, LOW]);
    var s6 := Step(s5, DoEvaluateTiers);
    ContinueTwo(s0, UP + [DoWithdraw(0, 0, HIGH - LOW), DoAdvance(DayAt(7))], DoAccrueInterest([0]), DoEvaluateTiers);
    SaverFacts(s3, 6, Silver, HIGH);
    SaverFacts(s6, 7, Basic, LOW);
    RunKeepsInv(DAY_ONE, DOWN);
  }
}
