// One payment can clear a whole loan while later installments stay open; the nightly jobs
// then treat those as unpaid. "A fully paid loan is never defaulted" is therefore false.
module Overpayment {
  import opened Calendar
  import opened Model
  import opened Operations
  import opened Invariants
  import Preservation
  import opened Runs
  import LoanTheorems
  import opened Scenarios

  // A customer deposits 10 francs, borrows 100 for three months, and pays 105 back at once.
  const PAY_AT_ONCE: seq<Event> := Borrowing(1_000, 10_000, 3) + [DoRepayLoan(0, 0, 10_500, None)]

  lemma PaidBack(s: Books)
    requires OneCustomer(s, DAY_ONE, 11_000, true) && |s.loans| == 1 && FreshLoan(s.loans[0])
    requires s.loans[0].user == 0 && s.loans[0].account == 0
    requires s.loans[0].outstanding == 10_500 && |s.loans[0].rows| == 3
    ensures var s' := Step(s, DoRepayLoan(0, 0, 10_500, None));
            && |s'.loans| == 1 && s'.loans[0].status == FullyPaid && |s'.loans[0].rows| == 3
            && s'.loans[0].rows[1].Unpaid() && s'.loans[0].rows[2].Unpaid()
            && |s'.credit| == 1 && s'.credit[0] == Collect(s.credit[0], 10_500)
  {
    assert s.loans[0].rows[0].status == Scheduled;
    assert TargetRow(s.loans[0].rows) == 0;
  }

  // The fully paid loan with two rows still open is reachable; and the interest paid now counts as
  // available credit above the limit.
  lemma FullyPaidWithOpenRows()
    ensures var s := Run(DAY_ONE, PAY_AT_ONCE);
            && |s.loans| == 1 && s.loans[0].status == FullyPaid && |s.loans[0].rows| == 3
            && s.loans[0].rows[1].Unpaid() && s.loans[0].rows[2].Unpaid()
            && |s.credit| == 1 && s.credit[0].available == s.credit[0].limit + 500
  {
    var evs := Borrowing(1_000, 10_000, 3);
    LoanGranted(1_000, 10_000, 3);
    assert TotalAmount(10_000, 3) == 10_500;
    hide TotalAmount, Step, Borrowing, OneCustomer;
    PaidBack(Run(DAY_ONE, evs));
    ContinueOne(EmptyBooks(DAY_ONE), evs, DoRepayLoan(0, 0, 10_500, None));
  }

  // The events that follow leave the loan with this status.
  ghost predicate Reaches(s: Books, more: seq<Event>, l: nat, st: LoanStatus) {
    l < |Continue(s, more).loans| && Continue(s, more).loans[l].status == st
  }

  // The three jobs of one night.
  function NightOf(to: Clock, shared: bool): seq<Event> {
    [DoAdvance(to), DoMarkOverdue, DoApplyLateFees, DoDefaultLoans(shared)]
  }

  lemma TonightDefaults(s: Books, l: nat, i: nat, shared: bool)
    requires Inv(s) && l < |s.loans| && i < |s.loans[l].rows| && s.loans[l].rows[i].Unpaid()
    requires s.Today() - s.loans[l].rows[i].due >= 31
    ensures |DefaultLoans(ApplyLateFees(MarkOverdue(s)), shared).loans| == |s.loans|
    ensures DefaultLoans(ApplyLateFees(MarkOverdue(s)), shared).loans[l].status == Defaulted
  {
    assert LoanOk(s.loans[l], s.Today());
    LoanTheorems.OneNightDefaultsIff(s.loans[l], s.Today());
    hide Inv, LoanOk;
    assert DefaultLoans(ApplyLateFees(MarkOverdue(s)), shared).loans[l] == LoanTheorems.Night(s.loans[l], s.Today());
  }

  lemma OneNightLater(s: Books, l: nat, i: nat, to: Clock, shared: bool)
    requires Inv(s) && l < |s.loans| && i < |s.loans[l].rows| && s.loans[l].rows[i].Unpaid() && NotBefore(to, s.now)
    requires Serial(to.date) - s.loans[l].rows[i].due >= 31
    ensures Reaches(s, NightOf(to, shared), l, Defaulted)
  {
    hide Inv, MarkOverdue, ApplyLateFees, DefaultLoans, Serial, NotBefore, Continue;
    Preservation.AdvanceKeeps(s, to);
    var s' := Advance(s, to).books;
    assert s' == s.(now := to);
    TonightDefaults(s', l, i, shared);
    ContinueFour(s, DoAdvance(to), DoMarkOverdue, DoApplyLateFees, DoDefaultLoans(shared));
  }

  // From any reachable state, whatever the loan's status: a loan with an unpaid row is put into
  // default by the jobs of any day 31 or more days after that row's due date.
  lemma OpenRowDefaults(start: Clock, evs: seq<Event>, l: nat, i: nat, to: Clock, shared: bool)
    requires l < |Run(start, evs).loans| && i < |Run(start, evs).loans[l].rows|
    requires var s := Run(start, evs);
             && s.loans[l].rows[i].Unpaid()
             && NotBefore(to, s.now) && Serial(to.date) - s.loans[l].rows[i].due >= 31
    ensures Reaches(Run(start, evs), NightOf(to, shared), l, Defaulted)
  {
    RunKeepsInv(start, evs);
    hide Inv, Run, Serial, NotBefore, Reaches;
    OneNightLater(Run(start, evs), l, i, to, shared);
  }

  lemma {:induction false} MonthStartAtLeast(m: nat)
    ensures MonthStart(m) >= 28 * m
  {
    if m == 0 {
    } else {
      MonthStartAtLeast(m - 1);
    }
  }

  // Some later midnight is far enough away.
  lemma LateNight(now: Clock, due: int) returns (to: Clock)
    ensures NotBefore(to, now) && Serial(to.date) - due >= 31
  {
    var m: nat := now.date.month + 1 + (if due > 0 then due else 0) + 31;
    to := Reading(CivilDate(m, 1), 0);
    MonthStartAtLeast(m);
    SerialIsCalendarOrder(now.date, to.date);
  }

  // A loan can end in default if and only if it is there already or one of its rows is open,
  // whatever else its status says.
  lemma CanDefaultIff(start: Clock, evs: seq<Event>, l: nat)
    requires l < |Run(start, evs).loans|
    ensures (exists more :: Reaches(Run(start, evs), more, l, Defaulted)) <==>
            || Run(start, evs).loans[l].status == Defaulted
            || exists i :: 0 <= i < |Run(start, evs).loans[l].rows| && Run(start, evs).loans[l].rows[i].Unpaid()
  {
    var s := Run(start, evs);
    if s.loans[l].status == Defaulted {
      assert Reaches(s, [], l, Defaulted);
    } else if i :| 0 <= i < |s.loans[l].rows| && s.loans[l].rows[i].Unpaid() {
      var to := LateNight(s.now, s.loans[l].rows[i].due);
      hide Run, NotBefore, Serial, Continue;
      OpenRowDefaults(start, evs, l, i, to, false);
    } else {
      RunKeepsInv(start, evs);
      hide Run, Inv, Continue;
      forall more ensures !Reaches(s, more, l, Defaulted) {
        LoanTheorems.SettledLoanIsFrozen(s, more, l);
      }
    }
  }

  lemma StaysIff(start: Clock, evs: seq<Event>, l: nat)
    requires l < |Run(start, evs).loans| && Run(start, evs).loans[l].status in {FullyPaid, Active}
    ensures (forall more :: Reaches(Run(start, evs), more, l, Run(start, evs).loans[l].status)) <==>
            (forall i :: 0 <= i < |Run(start, evs).loans[l].rows| ==> !Run(start, evs).loans[l].rows[i].Unpaid())
  {
    var s := Run(start, evs);
    var st := s.loans[l].status;
    CanDefaultIff(start, evs, l);
    if more :| Reaches(s, more, l, Defaulted) {
      assert !Reaches(s, more, l, st);
    } else {
      RunKeepsInv(start, evs);
      LoanTheorems.PaidFacts(s, l);
      hide Run, Inv, Continue;
      forall more ensures Reaches(s, more, l, st) {
        LoanTheorems.SettledLoanIsFrozen(s, more, l);
      }
    }
  }

  // Fully paid is final if and only if no row is open.
  lemma FullyPaidStaysIff(start: Clock, evs: seq<Event>, l: nat)
    requires l < |Run(start, evs).loans| && Run(start, evs).loans[l].status == FullyPaid
    ensures (forall more :: Reaches(Run(start, evs), more, l, FullyPaid)) <==>
            (forall i :: 0 <= i < |Run(start, evs).loans[l].rows| ==> !Run(start, evs).loans[l].rows[i].Unpaid())
  {
    StaysIff(start, evs, l);
  }

  // So is active: such a loan is never paid off.
  lemma ActiveStaysIff(start: Clock, evs: seq<Event>, l: nat)
    requires l < |Run(start, evs).loans| && Run(start, evs).loans[l].status == Active
    ensures (forall more :: Reaches(Run(start, evs), more, l, Active)) <==>
            (forall i :: 0 <= i < |Run(start, evs).loans[l].rows| ==> !Run(start, evs).loans[l].rows[i].Unpaid())
  {
    StaysIff(start, evs, l);
  }
}
