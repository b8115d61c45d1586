// Deposit and withdrawal limits over whole runs, across changes of tier.
module Limits {
  import opened Calendar
  import opened Money
  import opened Model
  import opened Operations
  import opened Rules
  import opened Runs

  // The three limits of the tier table.
  predicate Limited(k: Kind, p: Period) {
    k == Withdrawal || (k == Deposit && p.OnDay?)
  }

  function TierLimit(t: Tier, k: Kind, p: Period): int {
    if k == Deposit then DAILY_DEPOSITS[Rank(t)]
    else if p.OnDay? then DAILY_WITHDRAWALS[Rank(t)]
    else MONTHLY_WITHDRAWALS[Rank(t)]
  }

  // The limit in force in state s, when s lies in the period and the account exists.
  function LimitNow(s: Books, a: nat, k: Kind, p: Period): int {
    if a < |s.savings| && p.Covers(s.now.date) then TierLimit(s.savings[a].tier, k, p) else 0
  }

  // The largest limit of a tier the account held at any moment of the run inside the period.
  ghost function PeakLimit(start: Clock, evs: seq<Event>, a: nat, k: Kind, p: Period): int {
    var here := LimitNow(Run(start, evs), a, k, p);
    if evs == [] then here else Max(here, PeakLimit(start, evs[..|evs| - 1], a, k, p))
  }

  // ---- The amounts of a period ------------------------------------------------------

  // Entry t moved money of kind k through account a on the day, or in the month.
  predicate Counts(t: Txn, a: nat, k: Kind, p: Period) {
    && t.account == Some(a) && t.kind == k && t.status == TxnCompleted
    && (p.OnDay? ==> t.created.date == p.date) && (p.InMonth? ==> t.created.date.month == p.month)
  }

  // The amounts of those entries together, from the oldest to the latest.
  function Booked(ledger: seq<Txn>, a: nat, k: Kind, p: Period): int {
    if ledger == [] then 0
    else (if Counts(ledger[0], a, k, p) then ledger[0].amount else 0) + Booked(ledger[1..], a, k, p)
  }

  lemma {:induction false} BookedNext(ledger: seq<Txn>, t: Txn, a: nat, k: Kind, p: Period)
    ensures Booked(ledger + [t], a, k, p)
         == Booked(ledger, a, k, p) + (if Counts(t, a, k, p) then t.amount else 0)
  {
    if ledger == [] {
      assert [t][1..] == [];
    } else {
      assert (ledger + [t])[1..] == ledger[1..] + [t];
      BookedNext(ledger[1..], t, a, k, p);
    }
  }

  // The totals the services ask for are these.
  lemma {:induction false} PeriodTotalIsBooked(ledger: seq<Txn>, a: nat, k: Kind, p: Period)
    ensures PeriodTotal(ledger, a, k, p) == Booked(ledger, a, k, p)
  {
    if ledger == [] {
    } else {
      var n := |ledger| - 1;
      PeriodTotalIsBooked(ledger[..n], a, k, p);
      BookedNext(ledger[..n], ledger[n], a, k, p);
      assert ledger == ledger[..n] + [ledger[n]];
    }
  }

  // ---- Over runs --------------------------------------------------------------------

  lemma OtherKindsDoNotCount(ledger: seq<Txn>, t: Txn, a: nat, k: Kind, p: Period)
    requires k == Deposit || k == Withdrawal
    ensures PeriodTotal(ledger + [t], a, k, p) == PeriodTotal(ledger, a, k, p) + PeriodFlow(a, k, p)(t)
    ensures t.kind != k || t.status != TxnCompleted ==>
              PeriodTotal(ledger + [t], a, k, p) == PeriodTotal(ledger, a, k, p)
  {
  }

  lemma TurnDoesNotCount(s: Books, n: nat, a: nat, k: Kind, p: Period)
    requires n < |s.savings| && (k == Deposit || k == Withdrawal)
    ensures PeriodTotal(AccrueOne(s, n).ledger, a, k, p) == PeriodTotal(s.ledger, a, k, p)
  {
    hide DailyInterest, EarnsInterest, IsLastDayOfMonth, HasSnapshot, PeriodTotal;
    var s' := AccrueOne(s, n);
    if s'.ledger != s.ledger {
      OtherKindsDoNotCount(s.ledger, s'.ledger[|s.ledger|], a, k, p);
    }
  }

  lemma {:induction false} TurnsDoNotCount(s: Books, order: seq<nat>, n: nat, a: nat, k: Kind, p: Period)
    requires IsOrder(order, |s.savings|) && n <= |order| && (k == Deposit || k == Withdrawal)
    ensures PeriodTotal(AccrueUpTo(s, order, n).ledger, a, k, p) == PeriodTotal(s.ledger, a, k, p)
  {
    hide AccrueOne, EndedBefore, PeriodTotal;
    if n == 0 {
    } else {
      TurnsDoNotCount(s, order, n - 1, a, k, p);
      TurnDoesNotCount(AccrueUpTo(s, order, n - 1), order[n - 1], a, k, p);
    }
  }

  lemma InterestDoesNotCount(s: Books, order: seq<nat>, a: nat, k: Kind, p: Period)
    requires k == Deposit || k == Withdrawal
    ensures PeriodTotal(AccrueInterest(s, order).books.ledger, a, k, p) == PeriodTotal(s.ledger, a, k, p)
  {
    hide AccrueUpTo, PeriodTotal;
    if IsOrder(order, |s.savings|) {
      TurnsDoNotCount(s, order, |order|, a, k, p);
    }
  }

  lemma DepositWithinLimit(s: Books, u: nat, b: nat, amount: int, a: nat, k: Kind, p: Period)
    requires Limited(k, p)
    ensures PeriodTotal(MakeDeposit(s, u, b, amount).books.ledger, a, k, p)
         <= Max(PeriodTotal(s.ledger, a, k, p), LimitNow(s, a, k, p))
  {
    if b < |s.savings| {
      OtherKindsDoNotCount(s.ledger, Entry(s, u, Some(b), Deposit, amount, None, TxnCompleted), a, k, p);
    }
    if a < |s.savings| {
      TierTable(s.savings[a].tier);
    }
    hide PeriodTotal, DailyWithdrawalLimit, MonthlyWithdrawalLimit, DailyDepositLimit, Rank;
  }

  lemma WithdrawalWithinLimit(s: Books, u: nat, b: nat, amount: int, a: nat, k: Kind, p: Period)
    requires Limited(k, p)
    ensures PeriodTotal(Withdraw(s, u, b, amount).books.ledger, a, k, p)
         <= Max(PeriodTotal(s.ledger, a, k, p), LimitNow(s, a, k, p))
  {
    if b < |s.savings| {
      OtherKindsDoNotCount(s.ledger, Entry(s, u, Some(b), Withdrawal, amount, None, TxnCompleted), a, k, p);
    }
    if a < |s.savings| {
      TierTable(s.savings[a].tier);
    }
    hide PeriodTotal, DailyDepositLimit, DailyWithdrawalLimit, MonthlyWithdrawalLimit, Rank;
  }

  lemma LoanMoneyDoesNotCount(s: Books, e: Event, a: nat, k: Kind, p: Period)
    requires e.DoRequestLoan? || e.DoDisburseLoan? || e.DoRepayLoan?
    requires k == Deposit || k == Withdrawal
    ensures PeriodTotal(Step(s, e).ledger, a, k, p) == PeriodTotal(s.ledger, a, k, p)
  {
    hide ResolveAccount, RequestedLoan, HasDefaulted, TargetRow, DetermineApproval, PeriodTotal;
    var ledger' := Step(s, e).ledger;
    if ledger' != s.ledger {
      OtherKindsDoNotCount(s.ledger, ledger'[|s.ledger|], a, k, p);
    }
  }

  lemma TotalWithinLimit(s: Books, e: Event, a: nat, k: Kind, p: Period)
    requires Limited(k, p)
    ensures PeriodTotal(Step(s, e).ledger, a, k, p) <= Max(PeriodTotal(s.ledger, a, k, p), LimitNow(s, a, k, p))
  {
    hide NotBefore, EvaluateAccount, MarkLoan, ChargeLoan, DefaultLoan, Penalised, HasLiveLoan, ActiveOf, ClampLimit,
      MakeDeposit, Withdraw, AccrueInterest, RequestLoan, DisburseLoan, RepayLoan, PeriodTotal, LimitNow;
    match e
    case DoDeposit(u, b, amount) => DepositWithinLimit(s, u, b, amount, a, k, p);
    case DoWithdraw(u, b, amount) => WithdrawalWithinLimit(s, u, b, amount, a, k, p);
    case DoAccrueInterest(order) => InterestDoesNotCount(s, order, a, k, p);
    case DoRequestLoan(_, _, _, _) => LoanMoneyDoesNotCount(s, e, a, k, p);
    case DoDisburseLoan(_) => LoanMoneyDoesNotCount(s, e, a, k, p);
    case DoRepayLoan(_, _, _, _) => LoanMoneyDoesNotCount(s, e, a, k, p);
    case _ =>
  }

  // One event either leaves the period's amounts alone or is admitted by the limit in force.
  lemma StepWithinLimit(s: Books, e: Event, a: nat, k: Kind, p: Period)
    requires Limited(k, p)
    ensures Booked(Step(s, e).ledger, a, k, p) <= Max(Booked(s.ledger, a, k, p), LimitNow(s, a, k, p))
  {
    TotalWithinLimit(s, e, a, k, p);
    PeriodTotalIsBooked(s.ledger, a, k, p);
    PeriodTotalIsBooked(Step(s, e).ledger, a, k, p);
    hide Step, PeriodTotal, Booked, LimitNow;
  }

  // Over any run, what was deposited on a day, or withdrawn on a day or in a month, never
  // exceeds the largest limit the account's tier granted within that period.
  lemma {:induction false} LimitsHoldOverRuns(start: Clock, evs: seq<Event>, a: nat, k: Kind, p: Period)
    requires Limited(k, p)
    ensures Booked(Run(start, evs).ledger, a, k, p) <= PeakLimit(start, evs, a, k, p)
  {
    if evs == [] {
    } else {
      var prefix := evs[..|evs| - 1];
      var s := Run(start, prefix);
      LimitsHoldOverRuns(start, prefix, a, k, p);
      StepWithinLimit(s, evs[|evs| - 1], a, k, p);
      hide Booked, Step, LimitNow;
    }
  }
}
