// Interest over whole runs: nothing accrued is lost or invented between the daily accrual
// and the monthly credit.
module InterestBook {
  import opened Calendar
  import Money
  import opened Sums
  import opened Model
  import opened Operations
  import opened Invariants
  import opened Rules
  import opened Runs
  import Tiers

  function CreditedTo(a: nat): Txn -> int {
    (t: Txn) => if t.account == Some(a) && t.kind == InterestCredit && t.status == TxnCompleted then t.amount else 0
  }

  // Interest already paid out, and interest still waiting in the account.
  function Credited(s: Books, a: nat): int { Sum(s.ledger, CreditedTo(a)) }

  function Waiting(s: Books, a: nat): int {
    if a < |s.savings| then s.savings[a].accrued else 0
  }

  // Does this event give account a its turn in the interest loop?
  predicate Accrues(s: Books, e: Event, a: nat) {
    e.DoAccrueInterest? && HasTurn(s, e.order, a)
  }

  // An active account has its turn unless a snapshot refused before it ended the job.
  predicate HasTurn(s: Books, order: seq<nat>, a: nat) {
    && IsOrder(order, |s.savings|) && a < |s.savings| && s.savings[a].status == AccountActive
    && Reached(s, order, |order|, a)
  }

  // Account a stands among the first n of the order, and the job came so far.
  predicate Reached(s: Books, order: seq<nat>, n: nat, a: nat)
    requires IsOrder(order, |s.savings|) && n <= |order|
  {
    exists k :: 0 <= k < n && order[k] == a && !EndedBefore(s, order, k)
  }

  lemma ReachedNext(s: Books, order: seq<nat>, n: nat, a: nat)
    requires IsOrder(order, |s.savings|) && 0 < n <= |order|
    ensures Reached(s, order, n, a) <==>
            Reached(s, order, n - 1, a) || (order[n - 1] == a && !EndedBefore(s, order, n - 1))
    ensures Reached(s, order, n - 1, a) ==> order[n - 1] != a
  {
    hide EndedBefore;
  }

  // Over a run: the number of daily accruals of account a, the sum of its daily interests as
  // rounded, and the exact sum of balance times rate, in cents times hundredths of a percent.
  ghost function AccrualDays(start: Clock, evs: seq<Event>, a: nat): nat {
    if evs == [] then 0
    else
      var prefix, e := evs[..|evs| - 1], evs[|evs| - 1];
      AccrualDays(start, prefix, a) + (if Accrues(Run(start, prefix), e, a) then 1 else 0)
  }

  ghost function Earned(start: Clock, evs: seq<Event>, a: nat): int {
    if evs == [] then 0
    else
      var prefix, e := evs[..|evs| - 1], evs[|evs| - 1];
      var s := Run(start, prefix);
      Earned(start, prefix, a) + (if Accrues(s, e, a) then DailyInterest(s.savings[a]) else 0)
  }

  // A day's interest, exactly.
  function ExactDaily(acc: Savings): int {
    acc.balance * RATES[Rank(acc.tier)]
  }

  ghost function ExactlyEarned(start: Clock, evs: seq<Event>, a: nat): int {
    if evs == [] then 0
    else
      var prefix, e := evs[..|evs| - 1], evs[|evs| - 1];
      var s := Run(start, prefix);
      ExactlyEarned(start, prefix, a)
      + (if Accrues(s, e, a) then ExactDaily(s.savings[a]) else 0)
  }

  function Gain(acc: Savings): int {
    if acc.status == AccountActive then DailyInterest(acc) else 0
  }

  lemma AccrualTurn(s: Books, n: nat, a: nat)
    requires n < |s.savings|
    ensures var s' := AccrueOne(s, n);
            Credited(s', a) + Waiting(s', a)
            == Credited(s, a) + Waiting(s, a) + (if a == n then Gain(s.savings[a]) else 0)
  {
    hide DailyInterest, EarnsInterest, IsLastDayOfMonth;
    var s' := AccrueOne(s, n);
    if s'.ledger != s.ledger {
      SumAppend(s.ledger, s'.ledger[|s.ledger|], CreditedTo(a));
    }
  }

  lemma {:induction false} AccrualLoop(s: Books, order: seq<nat>, n: nat, a: nat)
    requires IsOrder(order, |s.savings|) && n <= |order|
    ensures var r := AccrueUpTo(s, order, n);
            Credited(r, a) + Waiting(r, a)
            == Credited(s, a) + Waiting(s, a) + (if Reached(s, order, n, a) then Gain(s.savings[a]) else 0)
  {
    hide AccrueOne, Gain, Credited, Waiting, EndedBefore;
    if n == 0 {
    } else {
      AccrualLoop(s, order, n - 1, a);
      AccrualTurn(AccrueUpTo(s, order, n - 1), order[n - 1], a);
      ReachedNext(s, order, n, a);
      hide Reached;
    }
  }

  lemma OtherKindsDoNotCredit(ledger: seq<Txn>, ledger': seq<Txn>, a: nat)
    requires ledger' == ledger
          || (|ledger'| == |ledger| + 1 && ledger <= ledger' && ledger'[|ledger|].kind != InterestCredit)
    ensures Sum(ledger', CreditedTo(a)) == Sum(ledger, CreditedTo(a))
  {
  }

  lemma OtherStepLedger(s: Books, e: Event)
    requires !e.DoAccrueInterest?
    ensures var ledger := Step(s, e).ledger;
            || ledger == s.ledger
            || (|ledger| == |s.ledger| + 1 && s.ledger <= ledger && ledger[|s.ledger|].kind != InterestCredit)
    ensures s.Today() <= Step(s, e).Today()
  {
    hide ResolveAccount, RequestedLoan, HasDefaulted, TargetRow, DetermineApproval, PeriodTotal, PayLoan,
      DetermineTier, HasLiveLoan, ActiveOf, ClampLimit, MarkLoan, ChargeLoan, DefaultLoan,
      RecentBalances, AgeInMonths, Penalised, IsVerified;
  }

  // No other event touches interest, paid or waiting.
  lemma OtherStep(s: Books, e: Event, a: nat)
    requires !e.DoAccrueInterest?
    ensures Credited(Step(s, e), a) == Credited(s, a)
    ensures Waiting(Step(s, e), a) == Waiting(s, a)
  {
    OtherStepLedger(s, e);
    OtherStepWaiting(s, e, a);
    hide Step;
    OtherKindsDoNotCredit(s.ledger, Step(s, e).ledger, a);
  }

  lemma OtherStepWaiting(s: Books, e: Event, a: nat)
    requires !e.DoAccrueInterest?
    ensures Waiting(Step(s, e), a) == Waiting(s, a)
  {
    hide ResolveAccount, RequestedLoan, HasDefaulted, TargetRow, DetermineApproval, PeriodTotal, PayLoan,
      DetermineTier, HasLiveLoan, ActiveOf, ClampLimit, MarkLoan, ChargeLoan, DefaultLoan, NotBefore,
      RecentBalances, AgeInMonths, Penalised, IsVerified;
  }

  lemma AccrualStep(s: Books, order: seq<nat>, a: nat)
    requires IsOrder(order, |s.savings|)
    ensures var s' := AccrueUpTo(s, order, |order|);
            Credited(s', a) + Waiting(s', a)
            == Credited(s, a) + Waiting(s, a)
               + (if Accrues(s, DoAccrueInterest(order), a) then DailyInterest(s.savings[a]) else 0)
  {
    AccrualLoop(s, order, |order|, a);
    hide DailyInterest, AccrueUpTo, EndedBefore;
  }

  lemma InterestMoves(s: Books, e: Event, a: nat)
    ensures Credited(Step(s, e), a) + Waiting(Step(s, e), a)
         == Credited(s, a) + Waiting(s, a) + (if Accrues(s, e, a) then DailyInterest(s.savings[a]) else 0)
  {
    hide DailyInterest, AccrueUpTo, Credited, Waiting, Reached;
    if e.DoAccrueInterest? && IsOrder(e.order, |s.savings|) {
      AccrualStep(s, e.order, a);
    } else if !e.DoAccrueInterest? {
      OtherStep(s, e, a);
    }
  }

  // Credited plus waiting interest is the sum of the daily interests, over any run.
  lemma {:induction false} InterestIsConserved(start: Clock, evs: seq<Event>, a: nat)
    ensures var s := Run(start, evs); Credited(s, a) + Waiting(s, a) == Earned(start, evs, a)
  {
    if evs == [] {
    } else {
      var prefix, e := evs[..|evs| - 1], evs[|evs| - 1];
      InterestIsConserved(start, prefix, a);
      InterestMoves(Run(start, prefix), e, a);
      hide DailyInterest, Step, Credited, Waiting, Accrues;
    }
  }

  // Rounding what the source computes, the stored accrual (or balance) plus the exact daily
  // interest, is adding the rounded daily interest to it.
  lemma StoredSumsRoundAlike(acc: Savings, stored: int)
    requires 0 <= acc.balance && 0 <= acc.rate && 0 <= stored
    ensures Money.Round(stored * INTEREST_SCALE + InterestNumerator(acc.balance, acc.rate), INTEREST_SCALE)
         == stored + DailyInterest(acc)
  {
    assert 0 <= acc.balance * acc.rate;
    Money.RoundShift(stored, InterestNumerator(acc.balance, acc.rate), INTEREST_SCALE);
  }

  // An amount of cents lies within half a cent per day of an exact amount, which is in cents times
  // hundredths of a percent a year, summed over days.
  predicate WithinHalfACentPerDay(cents: int, exact: int, days: nat) {
    -(10_000 * 365) * days <= 2 * ((10_000 * 365) * cents - exact) <= (10_000 * 365) * days
  }

  lemma DriftAdds(cents: int, exact: int, days: nat, cents': int, exact': int)
    requires WithinHalfACentPerDay(cents, exact, days) && WithinHalfACentPerDay(cents', exact', 1)
    ensures WithinHalfACentPerDay(cents + cents', exact + exact', days + 1)
  {
  }

  // The daily interest in numbers.
  lemma DailyInNumbers(acc: Savings)
    requires 0 <= acc.balance && acc.rate == TierRate(acc.tier)
    ensures Rounds(DailyInterest(acc), ExactDaily(acc), 10_000 * 365)
    ensures 0 <= DailyInterest(acc)
  {
    TierTable(acc.tier);
    assert 0 <= acc.balance * acc.rate;
    RoundRounds(acc.balance * acc.rate, 10_000 * 365);
    Money.RoundAtLeast(acc.balance * acc.rate, 10_000 * 365, 0);
    hide Money.Round;
  }

  lemma DailyDrift(acc: Savings)
    requires 0 <= acc.balance && acc.rate == TierRate(acc.tier)
    ensures WithinHalfACentPerDay(DailyInterest(acc), ExactDaily(acc), 1)
  {
    DailyInNumbers(acc);
    hide DailyInterest, ExactDaily;
  }

  lemma OneAccrualDrift(s: Books, e: Event, a: nat)
    requires Inv(s) && Accrues(s, e, a)
    ensures WithinHalfACentPerDay(DailyInterest(s.savings[a]), ExactDaily(s.savings[a]), 1)
  {
    Tiers.OwnerAndRate(s, a);
    NothingBelowZero(s, a);
    hide Inv;
    DailyDrift(s.savings[a]);
  }

  lemma NothingBelowZero(s: Books, a: nat)
    requires Inv(s) && a < |s.savings|
    ensures 0 <= s.savings[a].balance && 0 <= s.savings[a].accrued
  {
    hide LoansOk, LinksOk, LedgerOk, LoanBooksOk, CreditOk, NoneInFlight;
  }

  lemma NextAccrual(start: Clock, evs: seq<Event>, a: nat)
    requires evs != []
    ensures var prefix, e := evs[..|evs| - 1], evs[|evs| - 1];
            var s := Run(start, prefix);
            if Accrues(s, e, a) then
              && a < |s.savings|
              && Earned(start, evs, a) == Earned(start, prefix, a) + DailyInterest(s.savings[a])
              && ExactlyEarned(start, evs, a) == ExactlyEarned(start, prefix, a) + ExactDaily(s.savings[a])
              && AccrualDays(start, evs, a) == AccrualDays(start, prefix, a) + 1
            else
              && Earned(start, evs, a) == Earned(start, prefix, a)
              && ExactlyEarned(start, evs, a) == ExactlyEarned(start, prefix, a)
              && AccrualDays(start, evs, a) == AccrualDays(start, prefix, a)
  {
    hide Run, DailyInterest, ExactDaily, IsOrder, Reached;
  }

  lemma DriftNext(start: Clock, evs: seq<Event>, a: nat)
    requires evs != []
    requires var prefix := evs[..|evs| - 1];
             WithinHalfACentPerDay(Earned(start, prefix, a), ExactlyEarned(start, prefix, a),
                                   AccrualDays(start, prefix, a))
    ensures WithinHalfACentPerDay(Earned(start, evs, a), ExactlyEarned(start, evs, a), AccrualDays(start, evs, a))
  {
    hide WithinHalfACentPerDay, DailyInterest, ExactDaily, Inv, Accrues, Run, Earned, ExactlyEarned, AccrualDays;
    var prefix, e := evs[..|evs| - 1], evs[|evs| - 1];
    var s := Run(start, prefix);
    RunKeepsInv(start, prefix);
    NextAccrual(start, evs, a);
    if Accrues(s, e, a) {
      OneAccrualDrift(s, e, a);
      DriftAdds(Earned(start, prefix, a), ExactlyEarned(start, prefix, a), AccrualDays(start, prefix, a),
                DailyInterest(s.savings[a]), ExactDaily(s.savings[a]));
    }
  }

  lemma {:induction false} RoundingDrift(start: Clock, evs: seq<Event>, a: nat)
    ensures WithinHalfACentPerDay(Earned(start, evs, a), ExactlyEarned(start, evs, a), AccrualDays(start, evs, a))
  {
    if evs == [] {
    } else {
      hide WithinHalfACentPerDay, Earned, ExactlyEarned, AccrualDays;
      RoundingDrift(start, evs[..|evs| - 1], a);
      DriftNext(start, evs, a);
    }
  }

  // What the customer was credited and is still owed lies within half a cent per accrual of
  // the exact interest on the same balances and rates, over any run.
  lemma InterestIsAccurate(start: Clock, evs: seq<Event>, a: nat)
    ensures var s := Run(start, evs);
            WithinHalfACentPerDay(Credited(s, a) + Waiting(s, a), ExactlyEarned(start, evs, a),
                                  AccrualDays(start, evs, a))
  {
    hide WithinHalfACentPerDay, Run, Earned, ExactlyEarned, AccrualDays, Credited, Waiting;
    InterestIsConserved(start, evs, a);
    RoundingDrift(start, evs, a);
  }

  // ---- How the job ends -------------------------------------------------------------

  lemma NoneEnded(s: Books, order: seq<nat>)
    requires IsOrder(order, |s.savings|)
    ensures AccrueUpTo(s, order, 0) == s && !EndedBefore(s, order, 0)
  {
  }

  lemma OtherSnapshots(s: Books, n: nat, a: nat, day: int)
    requires n < |s.savings| && a != n
    ensures HasSnapshot(AccrueOne(s, n).snapshots, a, day) == HasSnapshot(s.snapshots, a, day)
  {
    hide DailyInterest, EarnsInterest, IsLastDayOfMonth, Serial, Entry;
    var (old', new') := (s.snapshots, AccrueOne(s, n).snapshots);
    assert new' == old' || new' == old' + [new'[|old'|]];
    assert forall i :: 0 <= i < |old'| ==> new'[i] == old'[i];
  }

  // The turns of the accounts before it leave an account's snapshots alone.
  lemma {:induction false} SnapshotsOfLater(s: Books, order: seq<nat>, n: nat, k: nat, day: int)
    requires IsOrder(order, |s.savings|) && n <= k < |order|
    ensures HasSnapshot(AccrueUpTo(s, order, n).snapshots, order[k], day) == HasSnapshot(s.snapshots, order[k], day)
  {
    hide AccrueOne, EndedBefore, HasSnapshot;
    if n == 0 {
    } else {
      SnapshotsOfLater(s, order, n - 1, k, day);
      OtherSnapshots(AccrueUpTo(s, order, n - 1), order[n - 1], order[k], day);
    }
  }

  // While no snapshot was refused, the next account of the order gets its turn, and the job ends
  // with it exactly when its own snapshot is refused.
  lemma NextTurn(s: Books, order: seq<nat>, n: nat)
    requires IsOrder(order, |s.savings|) && n < |order| && !EndedBefore(s, order, n)
    ensures var (r, a) := (AccrueUpTo(s, order, n), order[n]);
            && AccrueUpTo(s, order, n + 1) == AccrueOne(r, a)
            && (EndedBefore(s, order, n + 1) <==>
                  r.savings[a].status == AccountActive && HasSnapshot(r.snapshots, a, s.Today()))
  {
    SnapshotsOfLater(s, order, n, n, s.Today());
    assert AccrueUpTo(s, order, n).savings[order[n]] == s.savings[order[n]];
    hide AccrueOne, HasSnapshot, Serial;
  }

  lemma EndedLater(s: Books, order: seq<nat>, k: nat, n: nat)
    requires IsOrder(order, |s.savings|) && k <= n <= |order| && EndedBefore(s, order, k)
    ensures EndedBefore(s, order, n)
  {
    hide HasSnapshot, Serial;
  }

  lemma NoFurtherTurn(s: Books, order: seq<nat>, n: nat)
    requires IsOrder(order, |s.savings|) && n < |order| && EndedBefore(s, order, n)
    ensures AccrueUpTo(s, order, n + 1) == AccrueUpTo(s, order, n)
  {
    hide AccrueOne, EndedBefore, IsOrder;
  }

  // Once a snapshot was refused, nothing more happens.
  lemma {:induction false} EndedForGood(s: Books, order: seq<nat>, k: nat, n: nat)
    requires IsOrder(order, |s.savings|) && k <= n <= |order| && EndedBefore(s, order, k)
    ensures AccrueUpTo(s, order, n) == AccrueUpTo(s, order, k)
  {
    hide AccrueUpTo, EndedBefore, IsOrder;
    if k == n {
    } else {
      EndedLater(s, order, k, n - 1);
      EndedForGood(s, order, k, n - 1);
      NoFurtherTurn(s, order, n - 1);
    }
  }

  // ---- How often interest is credited -----------------------------------------------

  function CreditsTo(a: nat): Txn -> int {
    (t: Txn) => if t.account == Some(a) && t.kind == InterestCredit then 1 else 0
  }

  // Interest is paid out on the last day of a month, if more than nothing has accrued, today
  // included and before rounding.
  predicate PaysInterest(acc: Savings, day: Date) {
    && acc.status == AccountActive && day.day == DaysInMonth(day.month)
    && acc.accrued * (10_000 * 365) + acc.balance * acc.rate > 0
  }

  lemma PaysInterestIff(acc: Savings, day: Date)
    ensures PaysInterest(acc, day) <==> acc.status == AccountActive && IsLastDayOfMonth(day) && EarnsInterest(acc)
  {
    LastDayIff(day);
    hide IsLastDayOfMonth, DaysInMonth;
  }

  // Exactly when one start of the job credits an account: if it pays interest that day and no
  // account before it in the order ended the job by the refusal of its snapshot.
  predicate CreditsNow(s: Books, order: seq<nat>, a: nat) {
    HasTurn(s, order, a) && PaysInterest(s.savings[a], s.now.date)
  }

  lemma CreditTurn(s: Books, n: nat, a: nat)
    requires n < |s.savings|
    ensures Sum(AccrueOne(s, n).ledger, CreditsTo(a))
         == Sum(s.ledger, CreditsTo(a)) + (if a == n && PaysInterest(s.savings[n], s.now.date) then 1 else 0)
  {
    PaysInterestIff(s.savings[n], s.now.date);
    hide DailyInterest, EarnsInterest, IsLastDayOfMonth, PaysInterest;
    var s' := AccrueOne(s, n);
    if s'.ledger != s.ledger {
      SumAppend(s.ledger, s'.ledger[|s.ledger|], CreditsTo(a));
    }
  }

  lemma {:induction false} CreditLoop(s: Books, order: seq<nat>, n: nat, a: nat)
    requires IsOrder(order, |s.savings|) && n <= |order|
    ensures Sum(AccrueUpTo(s, order, n).ledger, CreditsTo(a))
         == Sum(s.ledger, CreditsTo(a))
            + (if Reached(s, order, n, a) && PaysInterest(s.savings[a], s.now.date) then 1 else 0)
  {
    hide AccrueOne, CreditsTo, PaysInterest, EndedBefore;
    if n == 0 {
    } else {
      CreditLoop(s, order, n - 1, a);
      CreditTurn(AccrueUpTo(s, order, n - 1), order[n - 1], a);
      ReachedNext(s, order, n, a);
      hide Reached;
    }
  }

  // In whatever order the query returns the accounts.
  lemma JobCreditsIff(s: Books, order: seq<nat>, a: nat)
    ensures Sum(AccrueInterest(s, order).books.ledger, CreditsTo(a))
         == Sum(s.ledger, CreditsTo(a)) + (if CreditsNow(s, order, a) then 1 else 0)
  {
    if IsOrder(order, |s.savings|) {
      CreditLoop(s, order, |order|, a);
    }
    hide AccrueUpTo, EndedBefore, PaysInterest;
  }

  // One turn, in numbers.
  lemma TurnInNumbers(s: Books, a: nat)
    requires a < |s.savings| && s.savings[a].status == AccountActive
    ensures var acc := s.savings[a];
            AccrueOne(s, a).savings[a]
            == if PaysInterest(acc, s.now.date)
               then acc.(balance := acc.balance + acc.accrued + DailyInterest(acc), accrued := 0)
               else acc.(accrued := acc.accrued + DailyInterest(acc))
  {
    PaysInterestIff(s.savings[a], s.now.date);
    hide DailyInterest, EarnsInterest, IsLastDayOfMonth, PaysInterest, HasSnapshot, Entry;
  }

  lemma OtherTurn(s: Books, n: nat, a: nat)
    requires n < |s.savings| && a < |s.savings| && (a != n || s.savings[a].status != AccountActive)
    ensures AccrueOne(s, n).savings[a] == s.savings[a]
  {
    hide DailyInterest, EarnsInterest, IsLastDayOfMonth, HasSnapshot, Entry;
  }

  lemma {:induction false} AccountAfterTurns(s: Books, order: seq<nat>, n: nat, a: nat)
    requires IsOrder(order, |s.savings|) && n <= |order| && a < |s.savings|
    ensures AccrueUpTo(s, order, n).savings[a]
         == if Reached(s, order, n, a) && s.savings[a].status == AccountActive
            then AccrueOne(s, a).savings[a] else s.savings[a]
  {
    hide AccrueOne, EndedBefore;
    if n == 0 {
    } else {
      var r := AccrueUpTo(s, order, n - 1);
      AccountAfterTurns(s, order, n - 1, a);
      ReachedNext(s, order, n, a);
      hide Reached;
      if order[n - 1] == a && s.savings[a].status == AccountActive {
        TurnInNumbers(r, a);
        TurnInNumbers(s, a);
      } else {
        OtherTurn(r, order[n - 1], a);
      }
    }
  }

  lemma EarnsIff(s: Books, a: nat)
    requires Inv(s) && a < |s.savings|
    ensures PaysInterest(s.savings[a], s.now.date)
       <==> s.savings[a].status == AccountActive && s.now.date.day == DaysInMonth(s.now.date.month)
            && (s.savings[a].balance > 0 || s.savings[a].accrued > 0)
  {
    hide LoansOk, LinksOk, LedgerOk, LoanBooksOk, CreditOk, NoneInFlight, DaysInMonth;
    var acc := s.savings[a];
    assert 5_00 <= acc.rate && 0 <= acc.balance && 0 <= acc.accrued;
    assert acc.balance * acc.rate >= acc.balance * 5_00;
  }

  lemma OneTurn(s: Books, a: nat)
    requires Inv(s) && a < |s.savings| && s.savings[a].status == AccountActive
    ensures var acc := s.savings[a];
            var daily := DailyInterest(acc);
            && Rounds(daily, ExactDaily(acc), 10_000 * 365)
            && AccrueOne(s, a).savings[a]
               == if s.now.date.day == DaysInMonth(s.now.date.month) && (acc.balance > 0 || acc.accrued > 0)
                  then acc.(balance := acc.balance + acc.accrued + daily, accrued := 0)
                  else acc.(accrued := acc.accrued + daily)
  {
    Tiers.OwnerAndRate(s, a);
    NothingBelowZero(s, a);
    EarnsIff(s, a);
    hide Inv, AccrueOne, PaysInterest, DaysInMonth, DailyInterest;
    DailyInNumbers(s.savings[a]);
    TurnInNumbers(s, a);
  }

  // The account is as before, a day's interest has been added, or at a month end everything accrued
  // has gone to the balance.
  ghost predicate AfterTurn(acc: Savings, acc': Savings, day: Date, daily: int) {
    acc' == if day.day == DaysInMonth(day.month) && (acc.balance > 0 || acc.accrued > 0)
            then acc.(balance := acc.balance + acc.accrued + daily, accrued := 0)
            else acc.(accrued := acc.accrued + daily)
  }

  lemma JobOnAccount(s: Books, order: seq<nat>, a: nat)
    requires Inv(s) && a < |s.savings| && IsOrder(order, |s.savings|)
    ensures var (acc, acc') := (s.savings[a], AccrueInterest(s, order).books.savings[a]);
            if HasTurn(s, order, a) then
              && Rounds(DailyInterest(acc), ExactDaily(acc), 10_000 * 365)
              && AfterTurn(acc, acc', s.now.date, DailyInterest(acc))
            else acc' == acc
  {
    AccountAfterTurns(s, order, |order|, a);
    if HasTurn(s, order, a) {
      OneTurn(s, a);
    }
    hide Inv, AccrueUpTo, AccrueOne, Reached, IsOrder, Rounds, ExactDaily, DailyInterest, DaysInMonth;
  }

  // What one start of the job does to an account, in any reachable state and any visiting order: in
  // its turn an active account earns the day's interest, balance times the rate of its tier over
  // 365 days, rounded to cents.
  lemma JobInNumbers(start: Clock, evs: seq<Event>, order: seq<nat>, a: nat)
    requires a < |Run(start, evs).savings| && IsOrder(order, |Run(start, evs).savings|)
    ensures var s := Run(start, evs);
            var (acc, acc') := (s.savings[a], AccrueInterest(s, order).books.savings[a]);
            if HasTurn(s, order, a) then
              exists daily :: Rounds(daily, ExactDaily(acc), 10_000 * 365) && AfterTurn(acc, acc', s.now.date, daily)
            else acc' == acc
  {
    RunKeepsInv(start, evs);
    hide Run, Inv, AccrueInterest, HasTurn, Rounds, ExactDaily, AfterTurn, IsOrder, DailyInterest;
    JobOnAccount(Run(start, evs), order, a);
  }

  // The day of the last start of the job in a run, -1 before the first.
  ghost function LastStart(start: Clock, evs: seq<Event>): int {
    if evs == [] then -1
    else
      var prefix, e := evs[..|evs| - 1], evs[|evs| - 1];
      if e.DoAccrueInterest? then Run(start, prefix).Today() else LastStart(start, prefix)
  }

  // The job is started at most once a day, as the scheduler does.
  ghost predicate OnceADay(start: Clock, evs: seq<Event>) {
    evs == [] ||
    (var prefix, e := evs[..|evs| - 1], evs[|evs| - 1];
     OnceADay(start, prefix) && (e.DoAccrueInterest? ==> LastStart(start, prefix) < Run(start, prefix).Today()))
  }

  ghost predicate SameInterest(t: Txn, t': Txn) {
    t.kind == InterestCredit && t'.kind == InterestCredit && t.account == t'.account
  }

  // The account of this entry stands among the first n of the order.
  ghost predicate Served(t: Txn, order: seq<nat>, n: nat) {
    exists k :: 0 <= k < n <= |order| && t.account == Some(order[k])
  }

  // Interest is credited on month ends no later than `last`, or than today for the accounts
  // served so far, and never twice in a month to one account.
  ghost predicate InterestOk(ledger: seq<Txn>, last: int, today: int, order: seq<nat>, n: nat) {
    && (forall i :: 0 <= i < |ledger| && ledger[i].kind == InterestCredit ==>
          && IsLastDayOfMonth(ledger[i].created.date)
          && Serial(ledger[i].created.date) <= (if Served(ledger[i], order, n) then today else last))
    && (forall i, j :: 0 <= i < j < |ledger| && SameInterest(ledger[i], ledger[j]) ==>
          ledger[i].created.date.month != ledger[j].created.date.month)
  }

  // The job is not at work.
  ghost predicate InterestAtRest(ledger: seq<Txn>, last: int) {
    InterestOk(ledger, last, last, [], 0)
  }

  lemma InterestAppended(ledger: seq<Txn>, last: int, today: Date, order: seq<nat>, n: nat, t: Txn)
    requires InterestOk(ledger, last, Serial(today), order, n) && last < Serial(today)
    requires n < |order| && forall k :: 0 <= k < n ==> order[k] != order[n]
    requires t.kind == InterestCredit ==>
               t.account == Some(order[n]) && t.created.date == today && IsLastDayOfMonth(today)
    ensures InterestOk(ledger + [t], last, Serial(today), order, n + 1)
  {
    assert t.kind == InterestCredit ==> Served(t, order, n + 1);
    forall i | 0 <= i < |ledger| && SameInterest(ledger[i], t)
      ensures ledger[i].created.date.month != today.month
    {
      assert !Served(ledger[i], order, n);
      if ledger[i].created.date.month == today.month {
        OneLastDayPerMonth(ledger[i].created.date, today);
      }
    }
    forall i | 0 <= i < |ledger| && Served(ledger[i], order, n) ensures Served(ledger[i], order, n + 1) {
    }
    hide Serial, IsLastDayOfMonth;
  }

  lemma InterestTurn(s: Books, last: int, order: seq<nat>, n: nat)
    requires n < |order| && order[n] < |s.savings| && forall k :: 0 <= k < n ==> order[k] != order[n]
    requires InterestOk(s.ledger, last, s.Today(), order, n) && last < s.Today()
    ensures InterestOk(AccrueOne(s, order[n]).ledger, last, s.Today(), order, n + 1)
  {
    hide DailyInterest, EarnsInterest, IsLastDayOfMonth, Serial;
    var s' := AccrueOne(s, order[n]);
    if s'.ledger == s.ledger {
      hide AccrueOne;
      TurnSkipped(s.ledger, last, s.Today(), order, n);
    } else {
      assert s'.ledger == s.ledger + [s'.ledger[|s.ledger|]];
      InterestAppended(s.ledger, last, s.now.date, order, n, s'.ledger[|s.ledger|]);
    }
  }

  lemma NobodyYet(ledger: seq<Txn>, last: int, today: int, order: seq<nat>)
    requires InterestAtRest(ledger, last)
    ensures InterestOk(ledger, last, today, order, 0)
  {
    hide IsLastDayOfMonth, Serial;
  }

  lemma TurnSkipped(ledger: seq<Txn>, last: int, today: int, order: seq<nat>, n: nat)
    requires InterestOk(ledger, last, today, order, n) && last < today && n < |order|
    ensures InterestOk(ledger, last, today, order, n + 1)
  {
    hide IsLastDayOfMonth, Serial;
    forall i | 0 <= i < |ledger| && Served(ledger[i], order, n) ensures Served(ledger[i], order, n + 1) {
    }
  }

  lemma {:induction false} InterestLoop(s: Books, last: int, order: seq<nat>, n: nat)
    requires IsOrder(order, |s.savings|) && n <= |order|
    requires InterestAtRest(s.ledger, last) && last < s.Today()
    ensures InterestOk(AccrueUpTo(s, order, n).ledger, last, s.Today(), order, n)
  {
    hide AccrueOne, EndedBefore, InterestOk, InterestAtRest, Serial;
    if n == 0 {
      NobodyYet(s.ledger, last, s.Today(), order);
    } else {
      var r := AccrueUpTo(s, order, n - 1);
      InterestLoop(s, last, order, n - 1);
      InterestTurn(r, last, order, n - 1);
      TurnSkipped(r.ledger, last, s.Today(), order, n - 1);
    }
  }

  // After the job, today is the last day it was started on.
  lemma InterestDone(ledger: seq<Txn>, last: int, today: int, order: seq<nat>, n: nat)
    requires InterestOk(ledger, last, today, order, n) && last <= today
    ensures InterestAtRest(ledger, today)
  {
    hide IsLastDayOfMonth, Serial;
  }

  lemma InterestUntouched(ledger: seq<Txn>, ledger': seq<Txn>, last: int)
    requires InterestAtRest(ledger, last)
    requires ledger' == ledger
          || (|ledger'| == |ledger| + 1 && ledger <= ledger' && ledger'[|ledger|].kind != InterestCredit)
    ensures InterestAtRest(ledger', last)
  {
    hide IsLastDayOfMonth, Serial, Served;
  }

  lemma InterestStep(s: Books, e: Event, last: int)
    requires InterestAtRest(s.ledger, last) && last <= s.Today()
    requires e.DoAccrueInterest? ==> last < s.Today()
    ensures var last' := if e.DoAccrueInterest? then s.Today() else last;
            InterestAtRest(Step(s, e).ledger, last') && last' <= Step(s, e).Today()
  {
    hide InterestOk, InterestAtRest, Serial, AccrueUpTo;
    if e.DoAccrueInterest? && IsOrder(e.order, |s.savings|) {
      InterestLoop(s, last, e.order, |e.order|);
      InterestDone(AccrueUpTo(s, e.order, |e.order|).ledger, last, s.Today(), e.order, |e.order|);
    } else if e.DoAccrueInterest? {
      NobodyYet(s.ledger, last, s.Today(), []);
      InterestDone(s.ledger, last, s.Today(), [], 0);
    } else {
      OtherStepLedger(s, e);
      hide Step;
      InterestUntouched(s.ledger, Step(s, e).ledger, last);
    }
  }

  lemma {:induction false} InterestOkOverRuns(start: Clock, evs: seq<Event>)
    requires OnceADay(start, evs)
    ensures InterestAtRest(Run(start, evs).ledger, LastStart(start, evs))
    ensures LastStart(start, evs) <= Run(start, evs).Today()
  {
    if evs == [] {
    } else {
      var prefix := evs[..|evs| - 1];
      InterestOkOverRuns(start, prefix);
      hide InterestAtRest, Step;
      InterestStep(Run(start, prefix), evs[|evs| - 1], LastStart(start, prefix));
    }
  }

  // If the job is started at most once a day, no account is credited interest twice in one
  // calendar month, and only on month ends.
  lemma OneCreditPerMonth(start: Clock, evs: seq<Event>, i: nat, j: nat)
    requires OnceADay(start, evs) && i < j < |Run(start, evs).ledger|
    requires Run(start, evs).ledger[i].kind == InterestCredit && Run(start, evs).ledger[j].kind == InterestCredit
    requires Run(start, evs).ledger[i].account == Run(start, evs).ledger[j].account
    ensures Run(start, evs).ledger[i].created.date.month != Run(start, evs).ledger[j].created.date.month
    ensures var paid := Run(start, evs).ledger[j].created.date; paid.day == DaysInMonth(paid.month)
  {
    InterestOkOverRuns(start, evs);
    LastDayIff(Run(start, evs).ledger[j].created.date);
    assert SameInterest(Run(start, evs).ledger[i], Run(start, evs).ledger[j]);
  }
}
