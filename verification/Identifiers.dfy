// Account numbers, loan numbers and transaction references of the rows a run creates.
module Identifiers {
  import opened Calendar
  import Sums
  import opened Model
  import Invariants
  import opened Runs
  import opened History
  import opened Scenarios
  import Numbers
  import References

  // ---- Numbers ----------------------------------------------------------------------

  // The years in which the rows of a numbered table were created, oldest row first.
  function CreationYears(s: Books, k: Numbers.Series): seq<nat> {
    match k
    case Savings => seq(|s.savings|, i requires 0 <= i < |s.savings| => s.savings[i].openedAt.date.month / 12)
    case Credit => seq(|s.credit|, i requires 0 <= i < |s.credit| => s.credit[i].openedAt.date.month / 12)
    case Loans => seq(|s.loans|, i requires 0 <= i < |s.loans| => s.loans[i].requested.month / 12)
  }

  function NumbersOf(s: Books, k: Numbers.Series): seq<string> {
    Numbers.Issued(k, CreationYears(s, k))
  }

  lemma {:induction false} IssuedPrefix(k: Numbers.Series, years: seq<nat>, n: nat)
    requires n <= |years|
    ensures Numbers.Issued(k, years[..n]) <= Numbers.Issued(k, years)
  {
    hide Numbers.Print, Numbers.NextSequence;
    if n == |years| {
      assert years[..n] == years;
    } else {
      var prefix := years[..|years| - 1];
      IssuedPrefix(k, prefix, n);
      assert prefix[..n] == years[..n];
    }
  }

  lemma {:induction false} IssuedLength(k: Numbers.Series, years: seq<nat>)
    ensures |Numbers.Issued(k, years)| == |years|
  {
    hide Numbers.Print, Numbers.NextSequence;
    if years == [] {
    } else {
      IssuedLength(k, years[..|years| - 1]);
    }
  }

  lemma YearsStay(s: Books, s': Books, k: Numbers.Series)
    requires Evolves(s, s')
    ensures var (years, years') := (CreationYears(s, k), CreationYears(s', k));
            |years| <= |years'| && years'[..|years|] == years
  {
    hide DefaultersBarred;
    if k == Numbers.Series.Loans {
      assert forall l :: 0 <= l < |s.loans| ==> LoanEvolves(s.loans[l], s'.loans[l]);
    }
  }

  // In every run the savings, credit and loan numbers are pairwise distinct, and the number a row
  // got stays its number whatever follows.
  lemma NumbersOfRunsAreUnique(start: Clock, evs: seq<Event>, more: seq<Event>, k: Numbers.Series)
    ensures var (s, s') := (Run(start, evs), Continue(Run(start, evs), more));
            && |NumbersOf(s, k)| == |CreationYears(s, k)| && NumbersOf(s, k) <= NumbersOf(s', k)
            && (forall i, j :: 0 <= i < j < |NumbersOf(s, k)| ==> NumbersOf(s, k)[i] != NumbersOf(s, k)[j])
  {
    var (s, s') := (Run(start, evs), Continue(Run(start, evs), more));
    RunKeepsInv(start, evs);
    ContinueEvolves(s, more);
    var (years, years') := (CreationYears(s, k), CreationYears(s', k));
    YearsStay(s, s', k);
    hide Run, Invariants.Inv, Evolves, CreationYears;
    IssuedPrefix(k, years', |years|);
    IssuedLength(k, years);
    forall i, j | 0 <= i < j < |years| ensures NumbersOf(s, k)[i] != NumbersOf(s, k)[j] {
      Numbers.NumbersAreUnique(k, years, i, j);
    }
  }

  // ---- References -------------------------------------------------------------------

  // The times at which the entries were created, read in UTC by a process whose own clock is
  // offset from it.
  ghost predicate ReadInUtc(ledger: seq<Txn>, utc: seq<Clock>, offset: int) {
    && |utc| == |ledger|
    && forall i :: 0 <= i < |utc| ==>
         Instant(ledger[i].created) == Instant(utc[i]) + offset && utc[i].date.month <= References.LAST_MONTH
  }

  const SMALL_DEPOSIT: Event := DoDeposit(0, 0, 100)

  function TwoDeposits(later: Clock): seq<Event> {
    [DoRegister(MIN_CREDIT_LIMIT), SMALL_DEPOSIT, DoAdvance(later), SMALL_DEPOSIT]
  }

  lemma DepositEntry(s: Books, balance: int)
    requires OneCustomer(s, s.now, balance, false)
    requires PeriodTotal(s.ledger, 0, Deposit, OnDay(s.now.date)) <= 100
    ensures var s' := Step(s, SMALL_DEPOSIT);
            && OneCustomer(s', s.now, balance + 100, false) && |s'.ledger| == |s.ledger| + 1 && s.ledger <= s'.ledger
            && s'.ledger[|s.ledger|].created == s.now && s'.ledger[|s.ledger|].amount == 100
  {
    hide PeriodTotal;
  }

  lemma OneSmallEntry(ledger: seq<Txn>, day: Date)
    requires |ledger| == 1 && ledger[0].amount == 100
    ensures PeriodTotal(ledger, 0, Deposit, OnDay(day)) <= 100
  {
    assert ledger == [] + [ledger[0]];
    Sums.SumAppend([], ledger[0], PeriodFlow(0, Deposit, OnDay(day)));
  }

  lemma TwoEntries(start: Clock, later: Clock)
    requires NotBefore(later, start)
    ensures var ledger := Run(start, TwoDeposits(later)).ledger;
            |ledger| == 2 && ledger[0].created == start && ledger[1].created == later
  {
    hide NotBefore;
    var s0 := EmptyBooks(start);
    var e := TwoDeposits(later);
    Registered(start);
    var s1 := Step(s0, e[0]);
    assert s1.ledger == [];
    DepositEntry(s1, 0);
    var s2 := Step(s1, e[1]);
    var s3 := Step(s2, e[2]);
    assert s3 == s2.(now := later);
    OneSmallEntry(s3.ledger, later.date);
    hide Step, OneCustomer;
    DepositEntry(s3, 100);
    ContinueFour(s0, e[0], e[1], e[2], e[3]);
  }

  lemma DayBefore(m: nat)
    requires m > 0 && DaysInMonth(m - 1) == 31
    ensures Serial(CivilDate(m, 1)) == Serial(CivilDate(m - 1, 31)) + 1
    ensures Serial(CivilDate(m, 2)) == Serial(CivilDate(m, 1)) + 1
  {
  }

  // What the process clock shows at the two edges of a UTC day that starts a month.
  lemma LocalEdges(m: nat, offset: int) returns (first: Clock, last: Clock)
    requires m > 0 && DaysInMonth(m - 1) == 31
    requires -(MS_PER_DAY as int) < offset < MS_PER_DAY && offset != 0
    ensures Instant(first) == Instant(Reading(CivilDate(m, 1), 0)) + offset
    ensures Instant(last) == Instant(Reading(CivilDate(m, 1), MS_PER_DAY - 1)) + offset
    ensures NotBefore(last, first)
  {
    DayBefore(m);
    hide Serial;
    if offset > 0 {
      first, last := Reading(CivilDate(m, 1), offset), Reading(CivilDate(m, 2), offset - 1);
    } else {
      first := Reading(CivilDate(m - 1, 31), MS_PER_DAY + offset);
      last := Reading(CivilDate(m, 1), MS_PER_DAY - 1 + offset);
    }
  }

  lemma SomeRunCollides(offset: int) returns (start: Clock, evs: seq<Event>)
    requires -(MS_PER_DAY as int) < offset < MS_PER_DAY && offset != 0
    ensures ReadInUtc(Run(start, evs).ledger, References.DAY_EDGES, offset)
    ensures !References.Distinct(References.DAY_EDGES, offset)
  {
    hide Serial, MonthStart, Instant, NotBefore, Run, References.Distinct;
    var later;
    start, later := LocalEdges(References.SOME_DAY.month, offset);
    evs := TwoDeposits(later);
    TwoEntries(start, later);
    References.OffUtcReferencesCollide(offset);
  }

  lemma UtcDistinct(ledger: seq<Txn>, utc: seq<Clock>)
    requires ReadInUtc(ledger, utc, 0)
    ensures References.Distinct(utc, 0)
  {
    forall i, j | 0 <= i < j < |utc| ensures References.ReferenceAt(utc, i, 0) != References.ReferenceAt(utc, j, 0) {
      References.UtcReferencesDiffer(utc, i, j);
    }
  }

  // In every run of the bank no two entries share a reference, if and only if the process clock is
  // kept in UTC. (Years have four digits.)
  lemma LedgerReferencesUniqueIffUtc(offset: int)
    requires -(MS_PER_DAY as int) < offset < MS_PER_DAY
    ensures (forall start, evs, utc ::
               ReadInUtc(Run(start, evs).ledger, utc, offset) ==> References.Distinct(utc, offset))
       <==> offset == 0
  {
    hide Run, ReadInUtc;
    if offset == 0 {
      forall start, evs, utc | ReadInUtc(Run(start, evs).ledger, utc, 0) ensures References.Distinct(utc, 0) {
        UtcDistinct(Run(start, evs).ledger, utc);
      }
    } else {
      var start, evs := SomeRunCollides(offset);
    }
  }
}
