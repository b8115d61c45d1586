// Tier evaluation: what the average means, how the tier depends on it, and that a second
// evaluation finds nothing to do.
module Tiers {
  import opened Calendar
  import Money
  import opened Sums
  import opened Model
  import opened Operations
  import opened Invariants
  import opened Rules
  import opened Runs

  // The average (total / count) lies between the smallest and the largest balance.
  lemma AverageBetweenExtremes(balances: seq<int>, low: int, high: int)
    requires forall i :: 0 <= i < |balances| ==> low <= balances[i] <= high
    ensures low * |balances| <= Total(balances) <= high * |balances|
    ensures AverageAtLeast(balances, low) && (balances != [] ==> !AverageAtLeast(balances, high + 1))
  {
    var id := (b: int) => b;
    var (f, g) := ((b: int) => low, (b: int) => high);
    SumMono(balances, balances, f, id);
    SumMono(balances, balances, id, g);
    SumConstant(balances, f, low);
    SumConstant(balances, g, high);
  }

  // Never a lower tier for pointwise larger balances, an older account, or a verified user.
  lemma TierIsMonotone(balances: seq<int>, balances': seq<int>, age: int, age': int, verified: bool, verified': bool)
    requires |balances| == |balances'| && forall i :: 0 <= i < |balances| ==> balances[i] <= balances'[i]
    requires age <= age' && (verified ==> verified')
    ensures Rank(DetermineTier(balances, age, verified)) <= Rank(DetermineTier(balances', age', verified'))
  {
    var id := (b: int) => b;
    SumMono(balances, balances', id, id);
  }

  // Each tier has its own threshold: the decision reaches a tier exactly when that tier's
  // average, age and identity requirements are met.
  lemma TierThresholds(balances: seq<int>, age: int, verified: bool)
    ensures var rank := Rank(DetermineTier(balances, age, verified));
            && (rank >= 1 <==> verified && AverageAtLeast(balances, SILVER_MIN))
            && (rank >= 2 <==> verified && AverageAtLeast(balances, GOLD_MIN) && age >= GOLD_MONTHS)
            && (rank >= 3 <==> verified && AverageAtLeast(balances, PLATINUM_MIN) && age >= PLATINUM_MONTHS)
  {
  }

  // The snapshots of account a of the last 90 days: how many, and their balances together.
  function RecentCount(snapshots: seq<Snapshot>, a: nat, today: int): nat {
    if snapshots == [] then 0
    else
      (if snapshots[0].account == a && today - snapshots[0].day < 90 then 1 else 0)
      + RecentCount(snapshots[1..], a, today)
  }

  function RecentTotal(snapshots: seq<Snapshot>, a: nat, today: int): int {
    if snapshots == [] then 0
    else
      (if snapshots[0].account == a && today - snapshots[0].day < 90 then snapshots[0].balance else 0)
      + RecentTotal(snapshots[1..], a, today)
  }

  lemma {:induction false} RecentNext(snapshots: seq<Snapshot>, sn: Snapshot, a: nat, today: int)
    ensures var takes := sn.account == a && today - sn.day < 90;
            && RecentCount(snapshots + [sn], a, today)
               == RecentCount(snapshots, a, today) + (if takes then 1 else 0)
            && RecentTotal(snapshots + [sn], a, today)
               == RecentTotal(snapshots, a, today) + (if takes then sn.balance else 0)
  {
    if snapshots == [] {
      assert [sn][1..] == [];
    } else {
      assert (snapshots + [sn])[1..] == snapshots[1..] + [sn];
      RecentNext(snapshots[1..], sn, a, today);
    }
  }

  lemma TotalNext(balances: seq<int>, b: int)
    ensures Total(balances + [b]) == Total(balances) + b
  {
    assert (balances + [b])[..|balances|] == balances;
  }

  lemma {:induction false} RecentInNumbers(snapshots: seq<Snapshot>, a: nat, today: int)
    ensures var balances := RecentBalances(snapshots, a, today - EVALUATION_PERIOD_DAYS);
            |balances| == RecentCount(snapshots, a, today) && Total(balances) == RecentTotal(snapshots, a, today)
  {
    if snapshots == [] {
    } else {
      var (prefix, last) := (snapshots[..|snapshots| - 1], snapshots[|snapshots| - 1]);
      RecentInNumbers(prefix, a, today);
      RecentNext(prefix, last, a, today);
      assert snapshots == prefix + [last];
      var balances := RecentBalances(prefix, a, today - EVALUATION_PERIOD_DAYS);
      TotalNext(balances, last.balance);
      assert balances + [] == balances;
      hide Total;
    }
  }

  // A tier's own requirements: the average balance, the age of the account in months of 30 days,
  // and a verified identity.
  predicate Meets(t: Tier, count: nat, total: int, elapsed: int, verified: bool) {
    match t
    case Basic => true
    case Silver => verified && total >= 500_000_00 * count
    case Gold => verified && total >= 2_000_000_00 * count && elapsed >= 6 * 30 * 86_400_000
    case Platinum => verified && total >= 10_000_000_00 * count && elapsed >= 12 * 30 * 86_400_000
  }

  lemma MonthsElapsed(openedAt: Clock, now: Clock, months: nat)
    ensures AgeInMonths(openedAt, now) >= months <==> Instant(now) - Instant(openedAt) >= months * 30 * 86_400_000
  {
    hide Serial;
    var elapsed := Instant(now) - Instant(openedAt);
    Money.DivBounds(elapsed, MS_PER_MONTH);
    hide Instant;
  }

  lemma DecisionIsHighestMet(balances: seq<int>, openedAt: Clock, now: Clock, verified: bool)
    ensures var tier := DetermineTier(balances, AgeInMonths(openedAt, now), verified);
            var (total, elapsed) := (Total(balances), Instant(now) - Instant(openedAt));
            && Meets(tier, |balances|, total, elapsed, verified)
            && forall t :: Meets(t, |balances|, total, elapsed, verified) ==> Rank(t) <= Rank(tier)
  {
    MonthsElapsed(openedAt, now, 6);
    MonthsElapsed(openedAt, now, 12);
    hide AgeInMonths, Instant, Total;
  }

  lemma HigherIsHarder(t: Tier, t': Tier, count: nat, total: int, elapsed: int, verified: bool)
    requires Rank(t) <= Rank(t') && Meets(t', count, total, elapsed, verified)
    ensures Meets(t, count, total, elapsed, verified)
  {
  }

  lemma OwnerAndRate(s: Books, a: nat)
    requires Inv(s) && a < |s.savings|
    ensures s.savings[a].owner < |s.customers| && s.savings[a].rate == TierRate(s.savings[a].tier)
  {
    hide LoansOk, LinksOk, LedgerOk, LoanBooksOk, CreditOk, NoneInFlight;
  }

  lemma EvaluatedAccount(s: Books, a: nat)
    requires a < |s.savings| && s.savings[a].owner < |s.customers|
    ensures var (acc, acc') := (s.savings[a], EvaluateTiers(s).savings[a]);
            var (count, total) := (RecentCount(s.snapshots, a, s.Today()), RecentTotal(s.snapshots, a, s.Today()));
            var (elapsed, verified) := (Instant(s.now) - Instant(acc.openedAt), s.customers[acc.owner].verified);
            if acc.status != AccountActive || count == 0 then acc' == acc
            else
              && (acc' == acc || acc' == acc.(tier := acc'.tier, rate := RATES[Rank(acc'.tier)]))
              && Meets(acc'.tier, count, total, elapsed, verified)
              && forall t :: Meets(t, count, total, elapsed, verified) ==> Rank(t) <= Rank(acc'.tier)
  {
    hide RecentBalances, RecentCount, RecentTotal, Serial, Instant, AgeInMonths, DetermineTier, Total, TierRate, Meets,
      Rank, AverageAtLeast;
    var acc := s.savings[a];
    var balances := RecentBalances(s.snapshots, a, s.Today() - EVALUATION_PERIOD_DAYS);
    RecentInNumbers(s.snapshots, a, s.Today());
    DecisionIsHighestMet(balances, acc.openedAt, s.now, s.customers[acc.owner].verified);
    assert EvaluateTiers(s).savings[a] == EvaluateAccount(s, a);
    hide EvaluateTiers;
    TierTable(EvaluateAccount(s, a).tier);
  }

  // What an evaluation does to an account: nothing unless it is active with snapshots of the last
  // 90 days, and else it sets the highest tier whose own requirements the account meets, with that
  // tier's rate. So a tier falls exactly when its own requirements are no longer met, and rises
  // exactly when those of a higher one are.
  lemma TierMovesIff(start: Clock, evs: seq<Event>, a: nat)
    requires a < |Run(start, evs).savings|
    ensures var s := Run(start, evs);
            var (acc, acc') := (s.savings[a], EvaluateTiers(s).savings[a]);
            var (count, total) := (RecentCount(s.snapshots, a, s.Today()), RecentTotal(s.snapshots, a, s.Today()));
            var elapsed := Instant(s.now) - Instant(acc.openedAt);
            && acc.owner < |s.customers|
            && var verified := s.customers[acc.owner].verified;
            && acc' == acc.(tier := acc'.tier, rate := RATES[Rank(acc'.tier)])
            && (acc.status == AccountActive && count > 0 ==>
                  && Meets(acc'.tier, count, total, elapsed, verified)
                  && forall t :: Meets(t, count, total, elapsed, verified) ==> Rank(t) <= Rank(acc'.tier))
            && (Rank(acc'.tier) < Rank(acc.tier) <==>
                  acc.status == AccountActive && count > 0 && !Meets(acc.tier, count, total, elapsed, verified))
            && (Rank(acc'.tier) > Rank(acc.tier) <==>
                  && acc.status == AccountActive && count > 0
                  && exists t :: Rank(t) > Rank(acc.tier) && Meets(t, count, total, elapsed, verified))
  {
    var s := Run(start, evs);
    RunKeepsInv(start, evs);
    OwnerAndRate(s, a);
    EvaluatedAccount(s, a);
    var (acc, acc') := (s.savings[a], EvaluateTiers(s).savings[a]);
    var (count, total) := (RecentCount(s.snapshots, a, s.Today()), RecentTotal(s.snapshots, a, s.Today()));
    var (elapsed, verified) := (Instant(s.now) - Instant(acc.openedAt), s.customers[acc.owner].verified);
    TierTable(acc.tier);
    hide Run, Inv, EvaluateTiers, RecentCount, RecentTotal, Instant, Meets, TierRate;
    if count > 0 && acc.status == AccountActive && Rank(acc.tier) <= Rank(acc'.tier) {
      HigherIsHarder(acc.tier, acc'.tier, count, total, elapsed, verified);
    }
  }

  // Evaluating again on the same data changes nothing.
  lemma SecondEvaluationIsIdle(s: Books)
    ensures EvaluateTiers(EvaluateTiers(s)) == EvaluateTiers(s)
  {
  }

  // The outcome does not depend on the tier held before: evaluation upgrades and downgrades.
  lemma EvaluationForgetsTheOldTier(s: Books, a: nat, tier: Tier)
    requires a < |s.savings| && s.savings[a].status == AccountActive
    requires RecentBalances(s.snapshots, a, s.Today() - EVALUATION_PERIOD_DAYS) != []
    ensures var s' := s.(savings := s.savings[a := s.savings[a].(tier := tier, rate := TierRate(tier))]);
            s.savings[a].rate == TierRate(s.savings[a].tier) ==>
            EvaluateAccount(s', a) == EvaluateAccount(s, a)
  {
  }

  // In every reachable state the interest rate is the one of the tier.
  lemma RateMatchesTier(start: Clock, evs: seq<Event>, a: nat)
    requires a < |Run(start, evs).savings|
    ensures Run(start, evs).savings[a].rate == TierRate(Run(start, evs).savings[a].tier)
  {
    RunKeepsInv(start, evs);
  }

  // ---- Snapshots --------------------------------------------------------------------

  ghost predicate SnapshotsOk(snapshots: seq<Snapshot>, today: int) {
    && (forall i :: 0 <= i < |snapshots| ==> snapshots[i].day <= today)
    && (forall i, j :: 0 <= i < j < |snapshots| && snapshots[i].account == snapshots[j].account ==>
          snapshots[i].day < snapshots[j].day)
  }

  lemma SnapshotTurnOk(s: Books, n: nat)
    requires n < |s.savings| && SnapshotsOk(s.snapshots, s.Today())
    ensures SnapshotsOk(AccrueOne(s, n).snapshots, s.Today())
  {
    hide DailyInterest, EarnsInterest, IsLastDayOfMonth, Serial, Entry;
    var s' := AccrueOne(s, n);
    if s'.snapshots != s.snapshots {
      assert !HasSnapshot(s.snapshots, n, s.Today());
      assert s'.snapshots == s.snapshots + [Snapshot(n, s'.savings[n].balance, s.Today())];
    }
  }

  lemma {:induction false} AccrualSnapshots(s: Books, order: seq<nat>, n: nat)
    requires IsOrder(order, |s.savings|) && n <= |order| && SnapshotsOk(s.snapshots, s.Today())
    ensures SnapshotsOk(AccrueUpTo(s, order, n).snapshots, s.Today())
  {
    hide AccrueOne, SnapshotsOk, EndedBefore;
    if n == 0 {
    } else {
      AccrualSnapshots(s, order, n - 1);
      SnapshotTurnOk(AccrueUpTo(s, order, n - 1), order[n - 1]);
    }
  }

  // The snapshots of an account lie on strictly increasing days, however often the job is
  // started.
  lemma {:induction false} SnapshotsAreDaily(start: Clock, evs: seq<Event>)
    ensures SnapshotsOk(Run(start, evs).snapshots, Run(start, evs).Today())
  {
    if evs == [] {
    } else {
      var prefix, e := evs[..|evs| - 1], evs[|evs| - 1];
      var s := Run(start, prefix);
      SnapshotsAreDaily(start, prefix);
      assert Run(start, evs) == Step(s, e);
      hide Run;
      if e.DoAccrueInterest? {
        if IsOrder(e.order, |s.savings|) {
          AccrualSnapshots(s, e.order, |e.order|);
        }
        hide AccrueUpTo, IsOrder;
      } else {
        SameSnapshots(s, e);
        hide Step;
      }
    }
  }

  lemma SameSnapshots(s: Books, e: Event)
    requires !e.DoAccrueInterest?
    ensures Step(s, e).snapshots == s.snapshots && s.Today() <= Step(s, e).Today()
  {
    hide ResolveAccount, RequestedLoan, HasDefaulted, TargetRow, DetermineApproval, PeriodTotal, PayLoan,
      HasLiveLoan, ActiveOf, ClampLimit, MarkLoan, ChargeLoan, DefaultLoan, EvaluateAccount, Penalised, Entry;
  }

  function SnapshotsOf(a: nat): Snapshot -> int { (sn: Snapshot) => if sn.account == a then 1 else 0 }

  lemma SnapshotTurn(s: Books, n: nat, a: nat)
    requires a < |s.savings| && n < |s.savings| && !HasSnapshot(s.snapshots, n, s.Today())
    ensures var s' := AccrueOne(s, n);
            var taken := a == n && s.savings[a].status == AccountActive;
            && Sum(s'.snapshots, SnapshotsOf(a)) == Sum(s.snapshots, SnapshotsOf(a)) + (if taken then 1 else 0)
            && (taken ==> Snapshot(a, s'.savings[a].balance, s.Today()) in s'.snapshots)
            && (forall sn :: sn in s'.snapshots ==> sn in s.snapshots || sn.account == n)
            && (forall sn :: sn in s.snapshots ==> sn in s'.snapshots)
            && (a != n ==> s'.savings[a] == s.savings[a])
  {
    hide DailyInterest, EarnsInterest, IsLastDayOfMonth, Serial, Entry;
    var s' := AccrueOne(s, n);
    if s'.snapshots != s.snapshots {
      var sn := s'.snapshots[|s.snapshots|];
      assert s'.snapshots == s.snapshots + [sn];
      SumAppend(s.snapshots, sn, SnapshotsOf(a));
    }
  }

  // Account a stands among the first n of the order.
  predicate Visited(order: seq<nat>, n: nat, a: nat) {
    exists k :: 0 <= k < n <= |order| && order[k] == a
  }

  lemma VisitedNext(order: seq<nat>, n: nat, a: nat)
    requires 0 < n <= |order| && forall j, k :: 0 <= j < k < |order| ==> order[j] != order[k]
    ensures Visited(order, n, a) <==> Visited(order, n - 1, a) || order[n - 1] == a
    ensures !Visited(order, n - 1, order[n - 1])
  {
  }

  // Nobody has a snapshot of today except those whose turn is over.
  lemma FirstStart(s: Books, r: Books, order: seq<nat>, n: nat)
    requires IsOrder(order, |s.savings|) && n < |order|
    requires forall i :: 0 <= i < |s.snapshots| ==> s.snapshots[i].day != s.Today()
    requires forall sn :: sn in r.snapshots ==> sn in s.snapshots || Visited(order, n, sn.account)
    ensures !EndedBefore(s, order, n) && !HasSnapshot(r.snapshots, order[n], s.Today())
  {
    VisitedNext(order, n + 1, order[n]);
    hide Serial, IsOrder, Visited;
    forall i | 0 <= i < |r.snapshots|
      ensures !(r.snapshots[i].account == order[n] && r.snapshots[i].day == s.Today())
    {
      assert r.snapshots[i] in r.snapshots;
    }
  }

  // After n turns of the first start of the job on a day.
  lemma {:induction false} SnapshotsAfterTurns(s: Books, order: seq<nat>, n: nat, a: nat)
    requires a < |s.savings| && IsOrder(order, |s.savings|) && n <= |order|
    requires forall i :: 0 <= i < |s.snapshots| ==> s.snapshots[i].day != s.Today()
    ensures var r := AccrueUpTo(s, order, n);
            var taken := Visited(order, n, a) && s.savings[a].status == AccountActive;
            && Sum(r.snapshots, SnapshotsOf(a)) == Sum(s.snapshots, SnapshotsOf(a)) + (if taken then 1 else 0)
            && (taken ==> Snapshot(a, r.savings[a].balance, s.Today()) in r.snapshots)
            && (forall sn :: sn in r.snapshots ==> sn in s.snapshots || Visited(order, n, sn.account))
            && (!Visited(order, n, a) ==> r.savings[a] == s.savings[a])
  {
    hide AccrueOne, SnapshotsOf, EndedBefore, HasSnapshot, Serial;
    if n == 0 {
    } else {
      SnapshotsAfterTurns(s, order, n - 1, a);
      var r := AccrueUpTo(s, order, n - 1);
      FirstStart(s, r, order, n - 1);
      SnapshotTurn(r, order[n - 1], a);
      forall sn: Snapshot ensures Visited(order, n, sn.account)
                                  <==> Visited(order, n - 1, sn.account) || order[n - 1] == sn.account {
        VisitedNext(order, n, sn.account);
      }
      VisitedNext(order, n, a);
      hide IsOrder, Visited;
    }
  }

  // The first start of the job on a day takes one snapshot of every active account, after any
  // credit, and none of the others, in whatever order it visits them.
  lemma OneSnapshotEach(s: Books, order: seq<nat>, a: nat)
    requires a < |s.savings| && IsOrder(order, |s.savings|)
    requires forall i :: 0 <= i < |s.snapshots| ==> s.snapshots[i].day != s.Today()
    ensures var r := AccrueInterest(s, order).books;
            var taken := s.savings[a].status == AccountActive;
            && Sum(r.snapshots, SnapshotsOf(a)) == Sum(s.snapshots, SnapshotsOf(a)) + (if taken then 1 else 0)
            && (taken ==> Snapshot(a, r.savings[a].balance, s.Today()) in r.snapshots)
  {
    SnapshotsAfterTurns(s, order, |order|, a);
    assert a in order;
    hide AccrueUpTo, Serial;
  }

  lemma {:induction false} RecentAtMost(snapshots: seq<Snapshot>, a: nat, since: int, last: int)
    requires forall i, j :: 0 <= i < j < |snapshots| && snapshots[i].account == snapshots[j].account ==>
               snapshots[i].day < snapshots[j].day
    requires forall i :: 0 <= i < |snapshots| && snapshots[i].account == a ==> snapshots[i].day <= last
    ensures |RecentBalances(snapshots, a, since)| <= Money.Max(0, last - since)
  {
    if snapshots == [] {
    } else {
      var latest := snapshots[|snapshots| - 1];
      var takes := latest.account == a && latest.day > since;
      RecentAtMost(snapshots[..|snapshots| - 1], a, since, if takes then latest.day - 1 else last);
    }
  }

  // So a tier is decided on at most one balance for each of the last 90 days.
  lemma AtMostNinetyBalances(start: Clock, evs: seq<Event>, a: nat)
    ensures var s := Run(start, evs);
            |RecentBalances(s.snapshots, a, s.Today() - EVALUATION_PERIOD_DAYS)| <= EVALUATION_PERIOD_DAYS
  {
    var s := Run(start, evs);
    SnapshotsAreDaily(start, evs);
    RecentAtMost(s.snapshots, a, s.Today() - EVALUATION_PERIOD_DAYS, s.Today());
  }
}
