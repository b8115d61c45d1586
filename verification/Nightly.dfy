// The nightly jobs work step by step; here they are compared with a closed form that looks
// only at today's date.
module Nightly {
  import opened Calendar
  import Money
  import opened Model
  import opened Operations
  import opened Invariants
  import opened Rules
  import opened Runs

  // How far tonight's jobs have come.
  datatype Phase = Fresh | Marked | Charged

  function NextPhase(phase: Phase, e: Event): Phase {
    if e.DoMarkOverdue? && phase == Fresh then Marked
    else if e.DoApplyLateFees? && phase == Marked then Charged
    else phase
  }

  ghost function PhaseAfter(start: Clock, evs: seq<Event>): Phase {
    if evs == [] then Charged
    else
      var prefix, e := evs[..|evs| - 1], evs[|evs| - 1];
      var before := PhaseAfter(start, prefix);
      match e
      case DoAdvance(to) => if Run(start, evs).Today() == Run(start, prefix).Today() then before else Fresh
      case _ => NextPhase(before, e)
  }

  // No night is skipped: the date moves on by one day at a time, and only after the overdue
  // job and then the fee job have run. Requests may come anywhere in between, and any job may
  // run again or out of turn.
  ghost predicate EveryNight(start: Clock, evs: seq<Event>) {
    evs == [] ||
    (var prefix, e := evs[..|evs| - 1], evs[|evs| - 1];
     && EveryNight(start, prefix)
     && (e.DoAdvance? ==>
           || Run(start, evs).Today() == Run(start, prefix).Today()
           || (PhaseAfter(start, prefix) == Charged
               && Run(start, evs).Today() == Run(start, prefix).Today() + 1)))
  }

  // What an unpaid row must look like on day `today`, whatever happened before.
  function ClosedStatus(due: int, today: int): RowStatus {
    if today <= due then Scheduled else Overdue
  }

  predicate ClosedFee(fee: int, due: int, amount: int, principal: int, today: int) {
    if today - due < 8 then fee == 0 else IsLateFee(fee, amount, principal)
  }

  // The same, while tonight's jobs may still be waiting.
  ghost predicate OnTrack(r: Row, principal: int, today: int, phase: Phase) {
    var late := today - r.due;
    r.Unpaid() ==>
      && (r.status == Scheduled ==> late <= 1 && (phase != Fresh ==> late <= 0))
      && (r.status == Overdue ==> late >= 1)
      && (late < 8 ==> r.fee == 0)
      && (late > 8 ==> r.fee == SavedFee(r.amount, principal))
      && (late == 8 && phase == Charged ==> r.fee == SavedFee(r.amount, principal))
  }

  ghost predicate LoanOnTrack(loan: Loan, today: int, phase: Phase) {
    forall i :: 0 <= i < |loan.rows| ==> OnTrack(loan.rows[i], loan.principal, today, phase)
  }

  ghost predicate AllOnTrack(loans: seq<Loan>, today: int, phase: Phase) {
    forall l :: 0 <= l < |loans| ==> LoanOnTrack(loans[l], today, phase)
  }

  lemma CappedFeePositive(amount: int, principal: int)
    requires MIN_AMOUNT <= principal
    ensures CappedFee(amount, principal) > 0
  {
  }

  lemma MarkOnTrack(loan: Loan, today: int, phase: Phase)
    requires LoanOk(loan, today) && LoanOnTrack(loan, today, phase)
    ensures LoanOnTrack(MarkLoan(loan, today), today, if phase == Fresh then Marked else phase)
  {
    hide SavedFee;
    forall i | 0 <= i < |loan.rows|
      ensures OnTrack(MarkLoan(loan, today).rows[i], loan.principal, today, if phase == Fresh then Marked else phase)
    {
      assert OnTrack(loan.rows[i], loan.principal, today, phase) && RowOk(loan.rows[i], loan.principal, today);
    }
  }

  lemma ChargeOnTrack(loan: Loan, today: int, phase: Phase)
    requires LoanOk(loan, today) && LoanOnTrack(loan, today, phase)
    ensures LoanOnTrack(ChargeLoan(loan, today), today, if phase == Marked then Charged else phase)
  {
    forall i | 0 <= i < |loan.rows|
      ensures OnTrack(ChargeLoan(loan, today).rows[i], loan.principal, today,
                      if phase == Marked then Charged else phase)
    {
      var r := loan.rows[i];
      assert OnTrack(r, loan.principal, today, phase) && RowOk(r, loan.principal, today);
      CappedFeePositive(r.amount, loan.principal);
      hide Money.Round, CappedFee;
    }
  }

  lemma NewScheduleOnTrack(loan: Loan, today: int, phase: Phase)
    requires IsTenor(loan.tenor) && loan.rows == Schedule(loan) && Serial(loan.requested) == today
    ensures LoanOnTrack(loan, today, phase)
  {
    AddZeroMonths(loan.requested);
    forall i | 0 <= i < |loan.rows| ensures OnTrack(loan.rows[i], loan.principal, today, phase) {
      AddMonthsGrows(loan.requested, 0, i + 1);
    }
  }

  lemma RequestOnTrack(s: Books, u: nat, principal: int, tenor: nat, specified: Option<nat>, phase: Phase)
    requires AllOnTrack(s.loans, s.Today(), phase)
    ensures AllOnTrack(RequestLoan(s, u, principal, tenor, specified).books.loans, s.Today(), phase)
  {
    var r := RequestLoan(s, u, principal, tenor, specified);
    if r.books != s {
      var a := ResolveAccount(s, u, specified, None).account;
      var approval := DetermineApproval(principal, s.customers[u].score, s.customers[u].verified, false);
      var loan := RequestedLoan(s, u, a, principal, tenor, approval);
      assert |r.books.loans| == |s.loans| + 1;
      assert r.books.loans[..|s.loans|] == s.loans;
      assert r.books.loans[|s.loans|].rows == loan.rows && r.books.loans[|s.loans|].principal == loan.principal;
      if approval == AutoApproved {
        NewScheduleOnTrack(loan, s.Today(), phase);
      }
      assert LoanOnTrack(loan, s.Today(), phase);
    }
  }

  // Every row is as before, or has just been settled.
  ghost predicate RowsKeptOrSettled(loans: seq<Loan>, loans': seq<Loan>) {
    && |loans'| == |loans|
    && forall l :: 0 <= l < |loans| ==>
         && loans'[l].principal == loans[l].principal && |loans'[l].rows| == |loans[l].rows|
         && forall i :: 0 <= i < |loans[l].rows| ==>
              loans'[l].rows[i] == loans[l].rows[i] || !loans'[l].rows[i].Unpaid()
  }

  lemma SameRowsOnTrack(loans: seq<Loan>, loans': seq<Loan>, today: int, phase: Phase)
    requires AllOnTrack(loans, today, phase) && RowsKeptOrSettled(loans, loans')
    ensures AllOnTrack(loans', today, phase)
  {
  }

  lemma DefaultKeepsRows(s: Books, shared: bool)
    ensures RowsKeptOrSettled(s.loans, DefaultLoans(s, shared).loans)
  {
  }

  lemma RepaymentKeepsRows(s: Books, u: nat, l: nat, amount: int, specified: Option<nat>)
    ensures RowsKeptOrSettled(s.loans, RepayLoan(s, u, l, amount, specified).books.loans)
  {
    hide ResolveAccount, TargetRow;
  }

  lemma WorkflowKeepsRows(s: Books, l: nat)
    ensures RowsKeptOrSettled(s.loans, ApproveLoan(s, l).books.loans)
    ensures RowsKeptOrSettled(s.loans, RejectLoan(s, l).books.loans)
    ensures RowsKeptOrSettled(s.loans, DisburseLoan(s, l).books.loans)
  {
    hide ResolveAccount;
  }

  lemma MarkAllOnTrack(s: Books, phase: Phase)
    requires LoansOk(s.loans, s.Today()) && AllOnTrack(s.loans, s.Today(), phase)
    ensures AllOnTrack(MarkOverdue(s).loans, s.Today(), if phase == Fresh then Marked else phase)
    ensures AllOnTrack(ApplyLateFees(s).loans, s.Today(), if phase == Marked then Charged else phase)
  {
    forall l | 0 <= l < |s.loans|
      ensures LoanOnTrack(MarkOverdue(s).loans[l], s.Today(), if phase == Fresh then Marked else phase)
      ensures LoanOnTrack(ApplyLateFees(s).loans[l], s.Today(), if phase == Marked then Charged else phase)
    {
      MarkOnTrack(s.loans[l], s.Today(), phase);
      ChargeOnTrack(s.loans[l], s.Today(), phase);
    }
  }

  lemma OtherEventKeepsLoans(s: Books, e: Event)
    requires !e.DoRequestLoan? && !e.DoApproveLoan? && !e.DoRejectLoan? && !e.DoDisburseLoan? && !e.DoRepayLoan?
    requires !e.DoMarkOverdue? && !e.DoApplyLateFees? && !e.DoDefaultLoans?
    ensures Step(s, e).loans == s.loans
  {
    hide PeriodTotal, NotBefore, HasLiveLoan, ActiveOf, ClampLimit, EvaluateAccount, Entry;
  }

  lemma StepOnTrack(s: Books, e: Event, phase: Phase)
    requires LoansOk(s.loans, s.Today()) && AllOnTrack(s.loans, s.Today(), phase) && !e.DoAdvance?
    ensures AllOnTrack(Step(s, e).loans, s.Today(), NextPhase(phase, e))
  {
    hide AllOnTrack, LoansOk, RowsKeptOrSettled, Serial, MakeDeposit, Withdraw, CloseSavings, SetCreditLimit, Register,
      AccrueInterest, EvaluateTiers, MarkOverdue, ApplyLateFees, DefaultLoans, RequestLoan, RepayLoan, DisburseLoan,
      ApproveLoan, RejectLoan;
    match e
    case DoRequestLoan(u, p, tenor, a) => RequestOnTrack(s, u, p, tenor, a, phase);
    case DoMarkOverdue => MarkAllOnTrack(s, phase);
    case DoApplyLateFees => MarkAllOnTrack(s, phase);
    case DoDefaultLoans(shared) =>
      DefaultKeepsRows(s, shared);
      SameRowsOnTrack(s.loans, DefaultLoans(s, shared).loans, s.Today(), phase);
    case DoRepayLoan(u, l, amount, a) =>
      RepaymentKeepsRows(s, u, l, amount, a);
      SameRowsOnTrack(s.loans, RepayLoan(s, u, l, amount, a).books.loans, s.Today(), phase);
    case DoApproveLoan(l) =>
      WorkflowKeepsRows(s, l);
      SameRowsOnTrack(s.loans, ApproveLoan(s, l).books.loans, s.Today(), phase);
    case DoRejectLoan(l) =>
      WorkflowKeepsRows(s, l);
      SameRowsOnTrack(s.loans, RejectLoan(s, l).books.loans, s.Today(), phase);
    case DoDisburseLoan(l) =>
      WorkflowKeepsRows(s, l);
      SameRowsOnTrack(s.loans, DisburseLoan(s, l).books.loans, s.Today(), phase);
    case _ => OtherEventKeepsLoans(s, e);
  }

  lemma SameClock(s: Books, e: Event)
    requires !e.DoAdvance?
    ensures Step(s, e).now == s.now
  {
  }

  lemma {:induction false} RunOnTrack(start: Clock, evs: seq<Event>)
    requires EveryNight(start, evs)
    ensures AllOnTrack(Run(start, evs).loans, Run(start, evs).Today(), PhaseAfter(start, evs))
  {
    if evs == [] {
    } else {
      var prefix, e := evs[..|evs| - 1], evs[|evs| - 1];
      var s := Run(start, prefix);
      var phase := PhaseAfter(start, prefix);
      RunOnTrack(start, prefix);
      RunKeepsInv(start, prefix);
      assert Run(start, evs) == Step(s, e);
      hide AllOnTrack, LoansOk, Step;
      if e.DoAdvance? {
        NewDateOnTrack(s, e.to, phase);
      } else {
        SameClock(s, e);
        StepOnTrack(s, e, phase);
        assert PhaseAfter(start, evs) == NextPhase(phase, e);
      }
    }
  }

  lemma NewDateOnTrack(s: Books, to: Clock, phase: Phase)
    requires AllOnTrack(s.loans, s.Today(), phase)
    ensures var s' := Step(s, DoAdvance(to));
            && (s'.Today() == s.Today() ==> AllOnTrack(s'.loans, s'.Today(), phase))
            && (s'.Today() == s.Today() + 1 && phase == Charged ==> AllOnTrack(s'.loans, s'.Today(), Fresh))
  {
  }

  // Once tonight's jobs are through, the status and the fee of every unpaid row are what
  // today's date alone prescribes, however payments fell in between.
  lemma NightlyClosedForm(start: Clock, evs: seq<Event>, l: nat, i: nat)
    requires EveryNight(start, evs) && PhaseAfter(start, evs) == Charged
    requires l < |Run(start, evs).loans| && i < |Run(start, evs).loans[l].rows|
    ensures var s := Run(start, evs);
            var (loan, row) := (s.loans[l], s.loans[l].rows[i]);
            row.Unpaid() ==>
              && row.status == ClosedStatus(row.due, s.Today())
              && ClosedFee(row.fee, row.due, row.amount, loan.principal, s.Today())
  {
    RunOnTrack(start, evs);
    RunKeepsInv(start, evs);
    var s := Run(start, evs);
    assert LoanOnTrack(s.loans[l], s.Today(), Charged) && LoanOk(s.loans[l], s.Today());
    assert OnTrack(s.loans[l].rows[i], s.loans[l].principal, s.Today(), Charged);
    hide Run, Inv;
    FeeInNumbers(s.loans[l].rows[i].amount, s.loans[l].principal);
    hide IsLateFee, SavedFee, LoanOk;
  }

  // And after the default job, a loan is in default exactly when an unpaid row is 31 days late.
  lemma NightlyDefaults(start: Clock, evs: seq<Event>, l: nat)
    requires EveryNight(start, evs) && PhaseAfter(start, evs) == Charged
    requires evs != [] && evs[|evs| - 1].DoDefaultLoans? && l < |Run(start, evs).loans|
    ensures var s := Run(start, evs);
            s.loans[l].status == Defaulted <==>
            exists i :: 0 <= i < |s.loans[l].rows| && s.loans[l].rows[i].Unpaid()
                        && s.Today() - s.loans[l].rows[i].due >= 31
  {
    var s := Run(start, evs);
    var s0 := Run(start, evs[..|evs| - 1]);
    assert s == DefaultLoans(s0, evs[|evs| - 1].shared);
    RunKeepsInv(start, evs);
    assert LoanOk(s.loans[l], s.Today());
    forall i | 0 <= i < |s.loans[l].rows| && s.loans[l].rows[i].Unpaid()
               && s.Today() - s.loans[l].rows[i].due >= 31
      ensures s.loans[l].rows[i].status == Overdue && LongOverdue(s0.loans[l], s.Today())
    {
      NightlyClosedForm(start, evs, l, i);
      assert s0.loans[l].rows[i].status == Overdue;
    }
  }
}
