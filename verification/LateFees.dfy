// What late fees do: when a row carries one, and that nothing else ever depends on it.
module LateFees {
  import opened Calendar
  import opened Money
  import opened Sums
  import opened Model
  import opened Operations
  import opened Invariants
  import opened Rules
  import opened Runs
  import opened History
  import opened Scenarios

  // ---- When a row carries the fee ---------------------------------------------------

  lemma SavedFeePositive(amount: int, principal: int)
    requires MIN_AMOUNT <= principal
    ensures CappedFee(amount, principal) > 0 && SavedFee(amount, principal) > 0
  {
    RoundAtLeast(CappedFee(amount, principal), 100, 1);
    hide Round;
  }

  // Row i of loan l is overdue, 8 to 30 days late.
  predicate InFeeWindow(s: Books, l: nat, i: nat) {
    && l < |s.loans| && i < |s.loans[l].rows| && s.loans[l].rows[i].status == Overdue
    && 8 <= s.Today() - s.loans[l].rows[i].due <= 30
  }

  // Event n of the run is a fee run that met the row so.
  ghost predicate MetAt(start: Clock, evs: seq<Event>, n: nat, l: nat, i: nat) {
    n < |evs| && evs[n].DoApplyLateFees? && InFeeWindow(Run(start, evs[..n]), l, i)
  }

  ghost predicate MetByFeeRun(start: Clock, evs: seq<Event>, l: nat, i: nat) {
    exists n: nat :: MetAt(start, evs, n, l, i)
  }

  lemma MetNext(start: Clock, evs: seq<Event>, l: nat, i: nat)
    requires evs != []
    ensures var prefix := evs[..|evs| - 1];
            MetByFeeRun(start, evs, l, i) <==>
            || MetByFeeRun(start, prefix, l, i)
            || (evs[|evs| - 1].DoApplyLateFees? && InFeeWindow(Run(start, prefix), l, i))
  {
    hide Run, InFeeWindow;
    var prefix := evs[..|evs| - 1];
    assert forall n: nat :: n <= |prefix| ==> prefix[..n] == evs[..n];
    assert MetAt(start, evs, |evs| - 1, l, i)
      <==> evs[|evs| - 1].DoApplyLateFees? && InFeeWindow(Run(start, prefix), l, i);
    forall n: nat ensures MetAt(start, prefix, n, l, i) <==> MetAt(start, evs, n, l, i) && n < |prefix| {
    }
  }

  // The fee of a row, 0 for a row that does not exist yet.
  function FeeOf(s: Books, l: nat, i: nat): int {
    if l < |s.loans| && i < |s.loans[l].rows| then s.loans[l].rows[i].fee else 0
  }

  lemma NewLoanOwesNoFee(s: Books, u: nat, principal: int, tenor: nat, specified: Option<nat>, l: nat, i: nat)
    ensures FeeOf(RequestLoan(s, u, principal, tenor, specified).books, l, i) == FeeOf(s, l, i)
  {
    hide ResolveAccount, HasDefaulted, DetermineApproval, TotalAmount, Installment, AddMonths, Serial, Entry;
  }

  lemma RepaymentKeepsFees(s: Books, u: nat, k: nat, amount: int, specified: Option<nat>, l: nat, i: nat)
    ensures FeeOf(RepayLoan(s, u, k, amount, specified).books, l, i) == FeeOf(s, l, i)
  {
    hide ResolveAccount, TargetRow, Entry;
  }

  lemma LoansElsewhere(s: Books, e: Event, l: nat, i: nat)
    requires !e.DoApplyLateFees? && !e.DoRequestLoan? && !e.DoRepayLoan?
    ensures FeeOf(Step(s, e), l, i) == FeeOf(s, l, i)
  {
    hide PeriodTotal, NotBefore, HasLiveLoan, ActiveOf, ClampLimit, EvaluateAccount, Entry, ResolveAccount, Serial,
      LongOverdue, NewlyDefaulted, Penalised;
  }

  lemma OtherEventKeepsFees(s: Books, e: Event, l: nat, i: nat)
    requires !e.DoApplyLateFees?
    ensures FeeOf(Step(s, e), l, i) == FeeOf(s, l, i)
  {
    hide MakeDeposit, Withdraw, CloseSavings, SetCreditLimit, Register, RequestLoan, RepayLoan, AccrueInterest,
      ResolveAccount, Serial, LongOverdue, NewlyDefaulted, Penalised, EvaluateAccount, Entry;
    match e
    case DoRequestLoan(u, p, tenor, a) => NewLoanOwesNoFee(s, u, p, tenor, a, l, i);
    case DoRepayLoan(u, k, amount, a) => RepaymentKeepsFees(s, u, k, amount, a, l, i);
    case _ => LoansElsewhere(s, e, l, i);
  }

  lemma FeeRunCharges(s: Books, l: nat, i: nat)
    requires l < |s.loans| && i < |s.loans[l].rows| && MIN_AMOUNT <= s.loans[l].principal
    ensures var row := s.loans[l].rows[i];
            FeeOf(ApplyLateFees(s), l, i)
            == (if InFeeWindow(s, l, i) then SavedFee(row.amount, s.loans[l].principal) else row.fee)
  {
    SavedFeePositive(s.loans[l].rows[i].amount, s.loans[l].principal);
    hide Round, CappedFee, Serial;
  }

  ghost predicate HasRow(s: Books, l: nat, i: nat) {
    l < |s.loans| && i < |s.loans[l].rows|
  }

  // The fee a row would carry.
  ghost function FeeDue(s: Books, l: nat, i: nat): int
    requires HasRow(s, l, i)
  {
    SavedFee(s.loans[l].rows[i].amount, s.loans[l].principal)
  }

  ghost predicate FeeTells(s: Books, met: bool, l: nat, i: nat) {
    if HasRow(s, l, i) then FeeOf(s, l, i) == (if met then FeeDue(s, l, i) else 0) else !met
  }

  lemma FeeRunStep(s: Books, met: bool, l: nat, i: nat)
    requires FeeTells(s, met, l, i)
    requires HasRow(s, l, i) ==> MIN_AMOUNT <= s.loans[l].principal
    ensures FeeTells(ApplyLateFees(s), met || InFeeWindow(s, l, i), l, i)
  {
    hide SavedFee, Serial, LateFee, Round;
    if HasRow(s, l, i) {
      FeeRunCharges(s, l, i);
    }
  }

  // One step, whatever the event.
  lemma FeeStep(s: Books, e: Event, met: bool, l: nat, i: nat)
    requires Inv(s) && FeeTells(s, met, l, i)
    ensures FeeTells(Step(s, e), met || (e.DoApplyLateFees? && InFeeWindow(s, l, i)), l, i)
  {
    StepEvolves(s, e);
    if HasRow(s, l, i) {
      assert LoanEvolves(s.loans[l], Step(s, e).loans[l]);
      assert RowEvolves(s.loans[l].rows[i], Step(s, e).loans[l].rows[i]);
      assert LoanOk(s.loans[l], s.Today());
    }
    hide Inv, Evolves, LoanEvolves, LoanOk, RowEvolves, SavedFee, InFeeWindow, Step;
    if e.DoApplyLateFees? {
      FeeRunStep(s, met, l, i);
    } else {
      OtherEventKeepsFees(s, e, l, i);
    }
  }

  lemma {:induction false} FeeTellsOverRuns(start: Clock, evs: seq<Event>, l: nat, i: nat)
    ensures FeeTells(Run(start, evs), MetByFeeRun(start, evs, l, i), l, i)
  {
    if evs == [] {
    } else {
      var prefix, e := evs[..|evs| - 1], evs[|evs| - 1];
      FeeTellsOverRuns(start, prefix, l, i);
      RunKeepsInv(start, prefix);
      MetNext(start, evs, l, i);
      assert Run(start, evs) == Step(Run(start, prefix), e);
      hide Run, Step, FeeTells, MetByFeeRun, InFeeWindow, Inv;
      FeeStep(Run(start, prefix), e, MetByFeeRun(start, prefix, l, i), l, i);
    }
  }

  // However the jobs were scheduled, skipped or repeated: a row carries the one late fee if some fee
  // run met it overdue on a day 8 to 30 days late, and no fee otherwise. The fee never exceeds 5% of
  // the principal, as rounded.
  lemma FeeIff(start: Clock, evs: seq<Event>, l: nat, i: nat)
    requires l < |Run(start, evs).loans| && i < |Run(start, evs).loans[l].rows|
    ensures var loan := Run(start, evs).loans[l]; var row := loan.rows[i];
            && (if MetByFeeRun(start, evs, l, i) then row.fee > 0 && IsLateFee(row.fee, row.amount, loan.principal)
                else row.fee == 0)
            && 100 * row.fee <= 5 * loan.principal + 50
  {
    FeeTellsOverRuns(start, evs, l, i);
    RunKeepsInv(start, evs);
    var loan := Run(start, evs).loans[l];
    assert LoanOk(loan, Run(start, evs).Today());
    FeeInNumbers(loan.rows[i].amount, loan.principal);
    hide Run, Inv, MetByFeeRun, SavedFee, IsLateFee;
  }

  // ---- Nothing else depends on it ---------------------------------------------------

  // The same row up to the fee, and to whether a settled row counts as paid in full.
  ghost predicate RowAlike(r: Row, r': Row) {
    && r'.due == r.due && r'.amount == r.amount && r'.paid == r.paid
    && (r'.status == r.status || (!r.Unpaid() && !r'.Unpaid()))
  }

  ghost predicate RowsAlike(rows: seq<Row>, rows': seq<Row>) {
    |rows'| == |rows| && forall i :: 0 <= i < |rows| ==> RowAlike(rows[i], rows'[i])
  }

  ghost predicate LoanAlike(loan: Loan, loan': Loan) {
    loan' == loan.(rows := loan'.rows) && RowsAlike(loan.rows, loan'.rows)
  }

  ghost predicate LoansAlike(loans: seq<Loan>, loans': seq<Loan>) {
    |loans'| == |loans| && forall l :: 0 <= l < |loans| ==> LoanAlike(loans[l], loans'[l])
  }

  // Every balance, entry, credit account, customer, snapshot and loan is the same, and every row
  // up to its fee.
  ghost predicate AlikeButForFees(s: Books, s': Books) {
    s' == s.(loans := s'.loans) && LoansAlike(s.loans, s'.loans)
  }

  lemma {:induction false} FirstRowAlike(rows: seq<Row>, rows': seq<Row>, st: RowStatus, i: nat)
    requires RowsAlike(rows, rows') && i <= |rows| && (st == Scheduled || st == Overdue)
    ensures FirstRow(rows', st, i) == FirstRow(rows, st, i)
    decreases |rows| - i
  {
    if i == |rows| || rows[i].status == st {
      assert i < |rows| ==> RowAlike(rows[i], rows'[i]);
    } else {
      assert RowAlike(rows[i], rows'[i]);
      FirstRowAlike(rows, rows', st, i + 1);
    }
  }

  lemma TargetRowAlike(rows: seq<Row>, rows': seq<Row>)
    requires RowsAlike(rows, rows')
    ensures TargetRow(rows') == TargetRow(rows)
  {
    FirstRowAlike(rows, rows', Scheduled, 0);
    FirstRowAlike(rows, rows', Overdue, 0);
    hide FirstRow, RowsAlike;
  }

  lemma PayLoanAlike(loan: Loan, loan': Loan, k: nat, amount: int)
    requires LoanAlike(loan, loan') && k < |loan.rows|
    ensures LoanAlike(PayLoan(loan, k, amount), PayLoan(loan', k, amount))
  {
    assert RowAlike(loan.rows[k], loan'.rows[k]);
  }

  lemma LoanUpdatedAlike(loans: seq<Loan>, loans': seq<Loan>, l: nat, loan: Loan, loan': Loan)
    requires LoansAlike(loans, loans') && l < |loans| && LoanAlike(loan, loan')
    ensures LoansAlike(loans[l := loan], loans'[l := loan'])
  {
    hide LoanAlike;
  }

  // The answer is the same, and so are the books afterwards.
  ghost predicate SameAnswer(r: Result, r': Result) {
    r'.outcome == r.outcome && AlikeButForFees(r.books, r'.books)
  }

  lemma SameTables(s: Books, s': Books)
    requires AlikeButForFees(s, s')
    ensures |s'.loans| == |s.loans|
  {
  }

  // What a repayment asks of a loan.
  lemma RepaymentTermsAlike(s: Books, s': Books, u: nat, l: nat, amount: int, specified: Option<nat>)
    requires AlikeButForFees(s, s') && l < |s.loans|
    ensures var (loan, loan') := (s.loans[l], s'.loans[l]);
            && loan' == loan.(rows := loan'.rows) && |loan'.rows| == |loan.rows|
            && TargetRow(loan'.rows) == TargetRow(loan.rows)
            && ResolveAccount(s', u, specified, Some(loan.account))
            == ResolveAccount(s, u, specified, Some(loan.account))
    ensures var (k, loan, loan') := (TargetRow(s.loans[l].rows), s.loans[l], s'.loans[l]);
            k < |loan.rows| ==>
              LoansAlike(s.loans[l := PayLoan(loan, k, amount)], s'.loans[l := PayLoan(loan', k, amount)])
  {
    var (loan, loan') := (s.loans[l], s'.loans[l]);
    assert LoanAlike(loan, loan');
    TargetRowAlike(loan.rows, loan'.rows);
    var k := TargetRow(loan.rows);
    hide TargetRow;
    if k < |loan.rows| {
      PayLoanAlike(loan, loan', k, amount);
      hide PayLoan;
      LoanUpdatedAlike(s.loans, s'.loans, l, PayLoan(loan, k, amount), PayLoan(loan', k, amount));
    }
    hide LoansAlike, RowsAlike;
  }

  lemma PaidBooksAlike(s: Books, s': Books, u: nat, l: nat, k: nat, amount: int, a: nat)
    requires AlikeButForFees(s, s') && u < |s.credit| && a < |s.savings| && l < |s.loans|
    requires k < |s.loans[l].rows| == |s'.loans[l].rows|
    requires LoansAlike(s.loans[l := PayLoan(s.loans[l], k, amount)], s'.loans[l := PayLoan(s'.loans[l], k, amount)])
    ensures AlikeButForFees(Repayment(s, u, l, k, amount, a), Repayment(s', u, l, k, amount, a))
  {
    hide PayLoan, LoansAlike;
  }

  lemma RepaymentAlike(s: Books, s': Books, u: nat, l: nat, amount: int, specified: Option<nat>)
    requires AlikeButForFees(s, s')
    ensures SameAnswer(RepayLoan(s, u, l, amount, specified), RepayLoan(s', u, l, amount, specified))
  {
    SameTables(s, s');
    hide TargetRow, ResolveAccount, PayLoan, LoansAlike, Repayment, RecordedAfter;
    if l < |s.loans| {
      RepaymentTermsAlike(s, s', u, l, amount, specified);
      var source := ResolveAccount(s, u, specified, Some(s.loans[l].account));
      var k := TargetRow(s.loans[l].rows);
      if source.Resolved? && k < |s.loans[l].rows| && u < |s.credit| {
        PaidBooksAlike(s, s', u, l, k, amount, source.account);
      }
    }
  }

  lemma AlikeItself(loans: seq<Loan>)
    ensures LoansAlike(loans, loans)
  {
  }

  lemma WorkflowAlike(s: Books, s': Books, l: nat)
    requires AlikeButForFees(s, s')
    ensures SameAnswer(ApproveLoan(s, l), ApproveLoan(s', l)) && SameAnswer(RejectLoan(s, l), RejectLoan(s', l))
  {
    if l < |s.loans| {
      assert LoanAlike(s.loans[l], s'.loans[l]);
      hide RowsAlike;
    }
  }

  lemma DisbursementAlike(s: Books, s': Books, l: nat)
    requires AlikeButForFees(s, s')
    ensures SameAnswer(DisburseLoan(s, l), DisburseLoan(s', l))
  {
    if l < |s.loans| {
      var (loan, loan') := (s.loans[l], s'.loans[l]);
      assert LoanAlike(loan, loan');
      assert forall named :: ResolveAccount(s', loan.user, None, named) == ResolveAccount(s, loan.user, None, named);
      hide ResolveAccount, RowsAlike, Entry;
    }
  }

  lemma DefaultersAlike(loans: seq<Loan>, loans': seq<Loan>, u: nat)
    requires LoansAlike(loans, loans')
    ensures HasDefaulted(loans, u) <==> HasDefaulted(loans', u)
  {
    assert forall l :: 0 <= l < |loans| ==> LoanAlike(loans[l], loans'[l]);
    hide RowsAlike;
  }

  lemma LiveAlike(loans: seq<Loan>, loans': seq<Loan>, a: nat)
    requires LoansAlike(loans, loans')
    ensures HasLiveLoan(loans, a) <==> HasLiveLoan(loans', a)
  {
    assert forall l :: 0 <= l < |loans| ==> LoanAlike(loans[l], loans'[l]);
    hide RowsAlike;
  }

  lemma LoanAppendedAlike(s: Books, s': Books, loan: Loan)
    requires AlikeButForFees(s, s')
    ensures AlikeButForFees(s.(loans := s.loans + [loan]), s'.(loans := s'.loans + [loan]))
  {
    AlikeItself([loan]);
    hide LoanAlike;
  }

  lemma RequestAlike(s: Books, s': Books, u: nat, principal: int, tenor: nat, specified: Option<nat>)
    requires AlikeButForFees(s, s')
    ensures SameAnswer(RequestLoan(s, u, principal, tenor, specified), RequestLoan(s', u, principal, tenor, specified))
  {
    DefaultersAlike(s.loans, s'.loans, u);
    assert ResolveAccount(s', u, specified, None) == ResolveAccount(s, u, specified, None);
    hide LoansAlike, HasDefaulted, DisburseLoan, ResolveAccount, TotalAmount, Schedule, DetermineApproval;
    var r := RequestLoan(s, u, principal, tenor, specified);
    if IsTenor(tenor) && u < |s.customers| {
      var target := ResolveAccount(s, u, specified, None);
      if target.Resolved? {
        var approval := DetermineApproval(principal, s.customers[u].score, s.customers[u].verified, false);
        var loan := RequestedLoan(s, u, target.account, principal, tenor, approval);
        assert loan == RequestedLoan(s', u, target.account, principal, tenor, approval);
        LoanAppendedAlike(s, s', loan);
        SameTables(s, s');
        hide RequestedLoan;
        DisbursementAlike(s.(loans := s.loans + [loan]), s'.(loans := s'.loans + [loan]), |s.loans|);
      }
    }
  }

  lemma LongOverdueAlike(loan: Loan, loan': Loan, today: int)
    requires LoanAlike(loan, loan')
    ensures LongOverdue(loan', today) <==> LongOverdue(loan, today)
  {
    assert forall i :: 0 <= i < |loan.rows| ==> RowAlike(loan.rows[i], loan'.rows[i]);
  }

  lemma MarkingAlike(s: Books, s': Books)
    requires AlikeButForFees(s, s')
    ensures AlikeButForFees(MarkOverdue(s), MarkOverdue(s'))
  {
    hide Serial;
    forall l | 0 <= l < |s.loans| ensures LoanAlike(MarkOverdue(s).loans[l], MarkOverdue(s').loans[l]) {
      assert LoanAlike(s.loans[l], s'.loans[l]);
    }
    hide LoanAlike, MarkLoan;
  }

  lemma DefaultingAlike(s: Books, s': Books, shared: bool)
    requires AlikeButForFees(s, s')
    ensures AlikeButForFees(DefaultLoans(s, shared), DefaultLoans(s', shared))
  {
    hide Serial;
    forall l | 0 <= l < |s.loans|
      ensures LoanAlike(DefaultLoan(s.loans[l], s.Today()), DefaultLoan(s'.loans[l], s.Today()))
      ensures forall u: nat :: NewlyDefaultedOf(u, s.Today())(s.loans[l]) == NewlyDefaultedOf(u, s.Today())(s'.loans[l])
    {
      assert LoanAlike(s.loans[l], s'.loans[l]);
      LongOverdueAlike(s.loans[l], s'.loans[l], s.Today());
      hide LongOverdue, RowsAlike;
    }
    forall u: nat
      ensures Sum(s'.loans, NewlyDefaultedOf(u, s.Today())) == Sum(s.loans, NewlyDefaultedOf(u, s.Today()))
    {
      SumSame(s.loans, s'.loans, NewlyDefaultedOf(u, s.Today()), NewlyDefaultedOf(u, s.Today()));
    }
    hide LoanAlike, DefaultLoan, NewlyDefaulted, Sum;
  }

  // A fee run changes fees and nothing else.
  lemma FeeRunAlike(s: Books)
    ensures AlikeButForFees(s, ApplyLateFees(s))
  {
    hide Serial, LateFee, Round;
  }

  lemma AlikeTransitive(a: Books, b: Books, c: Books)
    requires AlikeButForFees(a, b) && AlikeButForFees(b, c)
    ensures AlikeButForFees(a, c)
  {
    forall l | 0 <= l < |a.loans| ensures LoanAlike(a.loans[l], c.loans[l]) {
      assert LoanAlike(a.loans[l], b.loans[l]) && LoanAlike(b.loans[l], c.loans[l]);
      assert forall i :: 0 <= i < |a.loans[l].rows| ==>
        RowAlike(a.loans[l].rows[i], b.loans[l].rows[i]) && RowAlike(b.loans[l].rows[i], c.loans[l].rows[i]);
    }
  }

  lemma TurnIgnoresLoans(s: Books, loans: seq<Loan>, a: nat)
    requires a < |s.savings|
    ensures AccrueOne(s.(loans := loans), a) == AccrueOne(s, a).(loans := loans)
  {
    hide DailyInterest, EarnsInterest, IsLastDayOfMonth, HasSnapshot, Serial;
  }

  lemma EndIgnoresLoans(s: Books, loans: seq<Loan>, order: seq<nat>, n: nat)
    requires IsOrder(order, |s.savings|) && n <= |order|
    ensures EndedBefore(s.(loans := loans), order, n) == EndedBefore(s, order, n)
  {
    hide HasSnapshot, Serial;
  }

  lemma NextTurnIgnoresLoans(s: Books, loans: seq<Loan>, order: seq<nat>, n: nat)
    requires IsOrder(order, |s.savings|) && n < |order|
    requires AccrueUpTo(s.(loans := loans), order, n) == AccrueUpTo(s, order, n).(loans := loans)
    ensures AccrueUpTo(s.(loans := loans), order, n + 1) == AccrueUpTo(s, order, n + 1).(loans := loans)
  {
    TurnIgnoresLoans(AccrueUpTo(s, order, n), loans, order[n]);
    EndIgnoresLoans(s, loans, order, n);
    hide AccrueOne, EndedBefore, IsOrder;
  }

  lemma {:induction false} TurnsIgnoreLoans(s: Books, loans: seq<Loan>, order: seq<nat>, n: nat)
    requires IsOrder(order, |s.savings|) && n <= |order|
    ensures AccrueUpTo(s.(loans := loans), order, n) == AccrueUpTo(s, order, n).(loans := loans)
  {
    if n == 0 {
    } else {
      hide AccrueUpTo, IsOrder;
      TurnsIgnoreLoans(s, loans, order, n - 1);
      NextTurnIgnoresLoans(s, loans, order, n - 1);
    }
  }

  lemma InterestAlike(s: Books, s': Books, order: seq<nat>)
    requires AlikeButForFees(s, s')
    ensures SameAnswer(AccrueInterest(s, order), AccrueInterest(s', order))
  {
    hide LoansAlike, AccrueUpTo;
    if IsOrder(order, |s.savings|) {
      TurnsIgnoreLoans(s, s'.loans, order, |order|);
    }
  }

  lemma EvaluationAlike(s: Books, s': Books)
    requires AlikeButForFees(s, s')
    ensures AlikeButForFees(EvaluateTiers(s), EvaluateTiers(s'))
  {
    hide LoansAlike, DetermineTier, RecentBalances, AgeInMonths, Serial;
    assert EvaluateTiers(s').savings == EvaluateTiers(s).savings;
  }

  lemma ClosingAlike(s: Books, s': Books, u: nat, a: nat)
    requires AlikeButForFees(s, s')
    ensures SameAnswer(CloseSavings(s, u, a), CloseSavings(s', u, a))
  {
    LiveAlike(s.loans, s'.loans, a);
    hide LoansAlike, HasLiveLoan;
  }

  // These look at no loan.
  lemma AccountRequestAlike(s: Books, s': Books, e: Event)
    requires AlikeButForFees(s, s')
    requires e.DoRegister? || e.DoVerifyCustomer? || e.DoSetCreditScore? || e.DoOpenSavings? || e.DoDeposit?
             || e.DoWithdraw? || e.DoSetCreditLimit? || e.DoAdvance?
    ensures SameAnswer(Apply(s, e), Apply(s', e))
  {
    hide LoansAlike, PeriodTotal, ClampLimit, NotBefore, Serial;
  }

  lemma StepAlike(s: Books, s': Books, e: Event)
    requires AlikeButForFees(s, s') && !e.DoApplyLateFees?
    ensures SameAnswer(Apply(s, e), Apply(s', e))
  {
    hide AlikeButForFees, CloseSavings, RequestLoan, ApproveLoan, RejectLoan, DisburseLoan, RepayLoan, AccrueInterest,
      MarkOverdue, DefaultLoans, EvaluateTiers;
    match e
    case DoCloseSavings(u, a) => ClosingAlike(s, s', u, a);
    case DoRequestLoan(u, p, tenor, a) => RequestAlike(s, s', u, p, tenor, a);
    case DoApproveLoan(l) => WorkflowAlike(s, s', l);
    case DoRejectLoan(l) => WorkflowAlike(s, s', l);
    case DoDisburseLoan(l) => DisbursementAlike(s, s', l);
    case DoRepayLoan(u, l, amount, a) => RepaymentAlike(s, s', u, l, amount, a);
    case DoAccrueInterest(order) => InterestAlike(s, s', order);
    case DoMarkOverdue => MarkingAlike(s, s');
    case DoDefaultLoans(shared) => DefaultingAlike(s, s', shared);
    case DoEvaluateTiers => EvaluationAlike(s, s');
    case _ => AccountRequestAlike(s, s', e);
  }

  // The same run without its fee runs.
  function WithoutFeeRuns(evs: seq<Event>): seq<Event> {
    if evs == [] then []
    else
      var prefix, e := evs[..|evs| - 1], evs[|evs| - 1];
      WithoutFeeRuns(prefix) + (if e.DoApplyLateFees? then [] else [e])
  }

  lemma {:induction false} RunsAlike(start: Clock, evs: seq<Event>)
    ensures AlikeButForFees(Run(start, WithoutFeeRuns(evs)), Run(start, evs))
  {
    if evs == [] {
    } else {
      var prefix, e := evs[..|evs| - 1], evs[|evs| - 1];
      var (s, s') := (Run(start, WithoutFeeRuns(prefix)), Run(start, prefix));
      RunsAlike(start, prefix);
      assert Run(start, evs) == Step(s', e);
      if e.DoApplyLateFees? {
        hide AlikeButForFees, ApplyLateFees, Run;
        FeeRunAlike(s');
        AlikeTransitive(s, s', ApplyLateFees(s'));
        assert WithoutFeeRuns(evs) == WithoutFeeRuns(prefix);
      } else {
        ContinueOne(EmptyBooks(start), WithoutFeeRuns(prefix), e);
        hide AlikeButForFees, Apply, Continue;
        StepAlike(s, s', e);
      }
    }
  }

  lemma FeeRunsAreDone(s: Books)
    ensures Apply(s, DoApplyLateFees).outcome == Done
  {
  }

  // No late fee is ever collected: leaving out every fee run changes no balance, no ledger entry,
  // no credit account, no loan's status or debt and no answer to any later request.
  lemma FeesAreNeverCollected(start: Clock, evs: seq<Event>, e: Event)
    ensures AlikeButForFees(Run(start, WithoutFeeRuns(evs)), Run(start, evs))
    ensures Apply(Run(start, WithoutFeeRuns(evs)), e).outcome == Apply(Run(start, evs), e).outcome
  {
    RunsAlike(start, evs);
    hide AlikeButForFees, Run, Apply;
    if e.DoApplyLateFees? {
      FeeRunsAreDone(Run(start, WithoutFeeRuns(evs)));
      FeeRunsAreDone(Run(start, evs));
    } else {
      StepAlike(Run(start, WithoutFeeRuns(evs)), Run(start, evs), e);
    }
  }
}
