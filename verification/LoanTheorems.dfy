// The main results about loans: what their status fields mean, when they can be paid, when
// they default, and what is final.
module LoanTheorems {
  import opened Calendar
  import opened Money
  import opened Sums
  import opened Model
  import opened Operations
  import opened Invariants
  import opened Preservation
  import opened Rules
  import opened Runs
  import opened History

  // ---- Status fields ----------------------------------------------------------------

  // Outstanding amount and payments always make up the total, and the status says how much
  // of it is paid.
  lemma StatusTellsWhatIsPaid(start: Clock, evs: seq<Event>, l: nat)
    requires l < |Run(start, evs).loans|
    ensures var loan := Run(start, evs).loans[l];
            && loan.outstanding + Sum(loan.rows, PaidOf()) == loan.total
            && 0 <= loan.outstanding
            && (loan.status in {Pending, Approved, Rejected, Disbursed} ==> loan.outstanding == loan.total)
            && (loan.status == Active ==> 0 < loan.outstanding < loan.total)
            && (loan.status == FullyPaid ==> loan.outstanding == 0)
  {
    RunKeepsInv(start, evs);
    assert LoanOk(Run(start, evs).loans[l], Run(start, evs).Today());
  }

  // The reachable combinations of the two status fields and the schedule.
  lemma ReachableStatusPairs(start: Clock, evs: seq<Event>, l: nat)
    requires l < |Run(start, evs).loans|
    ensures var loan := Run(start, evs).loans[l];
            match loan.approval
            case AutoApproved =>
              loan.status in {Disbursed, Active, FullyPaid, Defaulted} && |loan.rows| == loan.tenor
              && loan.principal <= 50_000_00
            case ManualApproved => loan.status in {Approved, Disbursed} && loan.rows == []
            case PendingReview => loan.status == Pending && loan.rows == []
            case ReviewRejected => loan.status == Rejected && loan.rows == []
  {
    RunKeepsInv(start, evs);
    assert LoanOk(Run(start, evs).loans[l], Run(start, evs).Today());
  }

  function Favour(a: Approval): int {
    match a
    case ReviewRejected => 0
    case PendingReview => 1
    case ManualApproved => 2
    case AutoApproved => 2
  }

  // A smaller amount, a better score or a verified identity never makes the decision worse.
  lemma ApprovalIsMonotone(amount: int, amount': int, score: int, score': int, verified: bool, verified': bool)
    requires amount' <= amount && score <= score' && (verified ==> verified')
    ensures Favour(DetermineApproval(amount, score, verified, false))
         <= Favour(DetermineApproval(amount', score', verified', false))
  {
  }

  // What was agreed holds for ever: the flat rate of the tenor on the principal, in equal parts.
  lemma TermsInEveryState(start: Clock, evs: seq<Event>, l: nat)
    requires l < |Run(start, evs).loans|
    ensures var loan := Run(start, evs).loans[l];
            && loan.tenor in {3, 6, 12, 24} && 1_00 <= loan.principal
            && IsTotal(loan.total, loan.principal, loan.tenor)
            && forall i :: 0 <= i < |loan.rows| ==> IsInstallment(loan.rows[i].amount, loan.principal, loan.tenor)
  {
    RunKeepsInv(start, evs);
    var loan := Run(start, evs).loans[l];
    assert LoanOk(loan, Run(start, evs).Today());
    TermsInNumbers(loan.principal, loan.tenor);
    hide Run, Inv, RowsOk, StatusMeaning, IsTotal, IsInstallment, TotalAmount, Installment;
  }

  // A row's status is decided by its amounts, its fee is none or the one capped fee.
  lemma RowStatusTellsWhatIsPaid(start: Clock, evs: seq<Event>, l: nat, i: nat)
    requires l < |Run(start, evs).loans| && i < |Run(start, evs).loans[l].rows|
    ensures var loan := Run(start, evs).loans[l]; var r := loan.rows[i];
            && (r.status in {Scheduled, Overdue} <==> r.paid == 0)
            && (r.status == Paid <==> 0 < r.paid && r.amount + r.fee <= r.paid)
            && (r.status == PartiallyPaid <==> 0 < r.paid < r.amount + r.fee)
            && (r.fee == 0 || IsLateFee(r.fee, r.amount, loan.principal))
  {
    RunKeepsInv(start, evs);
    assert LoanOk(Run(start, evs).loans[l], Run(start, evs).Today());
    assert RowOk(Run(start, evs).loans[l].rows[i], Run(start, evs).loans[l].principal, Run(start, evs).Today());
    FeeInNumbers(Run(start, evs).loans[l].rows[i].amount, Run(start, evs).loans[l].principal);
    hide IsLateFee, SavedFee;
  }

  lemma ScheduledRowsAreASuffix(start: Clock, evs: seq<Event>, l: nat)
    requires l < |Run(start, evs).loans|
    ensures ScheduledSuffix(Run(start, evs).loans[l].rows)
  {
    RunKeepsInv(start, evs);
    assert LoanOk(Run(start, evs).loans[l], Run(start, evs).Today());
  }

  // ---- Repayment --------------------------------------------------------------------

  lemma AcceptedRepayment(s: Books, u: nat, l: nat, amount: int, specified: Option<nat>)
    requires RepayLoan(s, u, l, amount, specified).outcome == Done
    ensures l < |s.loans| && (s.loans[l].status == Active || s.loans[l].status == Disbursed)
    ensures 0 < amount <= s.loans[l].outstanding && TargetRow(s.loans[l].rows) < |s.loans[l].rows|
    ensures |RepayLoan(s, u, l, amount, specified).books.loans| == |s.loans|
    ensures RepayLoan(s, u, l, amount, specified).books.loans[l]
         == PayLoan(s.loans[l], TargetRow(s.loans[l].rows), amount)
  {
  }

  // A successful repayment settles exactly one row, for good.
  lemma RepaymentSettlesOneRow(start: Clock, evs: seq<Event>, u: nat, l: nat, amount: int, specified: Option<nat>)
    requires l < |Run(start, evs).loans|
    requires RepayLoan(Run(start, evs), u, l, amount, specified).outcome == Done
    ensures var s := Run(start, evs);
            var loan' := RepayLoan(s, u, l, amount, specified).books.loans[l];
            && Sum(loan'.rows, UnpaidOf()) == Sum(s.loans[l].rows, UnpaidOf()) - 1
            && loan'.outstanding == s.loans[l].outstanding - amount
            && (loan'.status == FullyPaid <==> amount == s.loans[l].outstanding)
            && LoanEvolves(s.loans[l], loan')
  {
    var s := Run(start, evs);
    RunKeepsInv(start, evs);
    assert LoanOk(s.loans[l], s.Today());
    AcceptedRepayment(s, u, l, amount, specified);
    hide Inv, LoanOk, LoanEvolves, RepayLoan, TargetRow;
    PayLoanOk(s.loans[l], amount, s.Today());
    PayLoanEvolves(s.loans[l], amount, s.Today());
  }

  lemma SettledAtMost(rows: seq<Row>)
    ensures 0 <= Sum(rows, SettledOf()) <= |rows|
    ensures Sum(rows, SettledOf()) + Sum(rows, UnpaidOf()) == |rows|
  {
  }

  // So over any run a loan accepts at most one repayment per installment.
  lemma AtMostTenorRepayments(start: Clock, evs: seq<Event>, l: nat)
    requires l < |Run(start, evs).loans|
    ensures var s := Run(start, evs);
            && Sum(s.ledger, LoanCount(l, LoanRepayment)) == |s.loans[l].rows| - Sum(s.loans[l].rows, UnpaidOf())
            && Sum(s.ledger, LoanCount(l, LoanRepayment)) <= s.loans[l].tenor
  {
    var s := Run(start, evs);
    RunKeepsInv(start, evs);
    assert LoanOk(s.loans[l], s.Today()) && LoanBook(l, s.loans[l], s.ledger);
    SettledAtMost(s.loans[l].rows);
  }

  // The account a repayment is taken from.
  function SourceOf(loan: Loan, specified: Option<nat>): nat {
    if specified.Some? then specified.value else loan.account
  }

  lemma ResolvesToSource(s: Books, l: nat, specified: Option<nat>)
    requires LinksOk(s.loans, s.savings, |s.credit|) && l < |s.loans| && Live(s.loans[l].status)
    ensures var source := ResolveAccount(s, s.loans[l].user, specified, Some(s.loans[l].account));
            && (source.Resolved? <==> specified.Some? ==>
                  s.Owns(s.loans[l].user, specified.value) && s.savings[specified.value].status == AccountActive)
            && (source.Resolved? ==> source.account == SourceOf(s.loans[l], specified))
  {
  }

  lemma AcceptedOnceResolved(s: Books, u: nat, l: nat, amount: int, specified: Option<nat>)
    requires l < |s.loans| && s.loans[l].user == u && s.loans[l].status in {Active, Disbursed}
    requires u < |s.customers| == |s.credit|
    ensures var source := ResolveAccount(s, u, specified, Some(s.loans[l].account));
            RepayLoan(s, u, l, amount, specified).outcome == Done <==>
              && MIN_AMOUNT <= amount <= s.loans[l].outstanding && TargetRow(s.loans[l].rows) < |s.loans[l].rows|
              && source.Resolved? && amount <= s.savings[source.account].balance
  {
    hide ResolveAccount, TargetRow, Repayment, Entry;
  }

  // Exactly the repayments that are accepted, in any reachable state. The account the loan is
  // linked to is always the customer's own and active; a named one is checked.
  lemma RepaymentAcceptedIff(start: Clock, evs: seq<Event>, u: nat, l: nat, amount: int, specified: Option<nat>)
    ensures var s := Run(start, evs);
            RepayLoan(s, u, l, amount, specified).outcome == Done <==>
              && l < |s.loans| && s.loans[l].user == u && s.loans[l].status in {Active, Disbursed}
              && 1_00 <= amount <= s.loans[l].outstanding
              && (exists i :: 0 <= i < |s.loans[l].rows| && s.loans[l].rows[i].Unpaid())
              && (specified.Some? ==>
                    s.Owns(u, specified.value) && s.savings[specified.value].status == AccountActive)
              && SourceOf(s.loans[l], specified) < |s.savings|
              && amount <= s.savings[SourceOf(s.loans[l], specified)].balance
  {
    var s := Run(start, evs);
    RunKeepsInv(start, evs);
    LinksHold(s);
    hide Run, Inv, LinksOk;
    if l < |s.loans| && s.loans[l].user == u && s.loans[l].status in {Active, Disbursed} {
      ResolvesToSource(s, l, specified);
      AcceptedOnceResolved(s, u, l, amount, specified);
      if i :| 0 <= i < |s.loans[l].rows| && s.loans[l].rows[i].Unpaid() {
        assert TargetRow(s.loans[l].rows) < |s.loans[l].rows|;
      }
      hide ResolveAccount, TargetRow, RepayLoan;
    }
  }

  lemma TargetIsEarliest(loan: Loan, today: int)
    requires LoanOk(loan, today) && TargetRow(loan.rows) < |loan.rows|
    ensures var (rows, k) := (loan.rows, TargetRow(loan.rows));
            && rows[k].Unpaid() && rows[k].paid == 0
            && (rows[k].status == Overdue <==> forall j :: 0 <= j < |rows| ==> rows[j].status != Scheduled)
            && (forall j :: 0 <= j < |rows| && rows[j].status == rows[k].status ==> rows[k].due <= rows[j].due)
  {
    assert IsTenor(loan.tenor) && IsScheduleOf(loan.rows, loan);
    hide TermsOk, IsTenor, IsScheduleOf, SavedFee, StatusMeaning;
    var (rows, k) := (loan.rows, TargetRow(loan.rows));
    assert RowOk(rows[k], loan.principal, today);
    forall j | 0 <= j < |rows| && rows[j].status == rows[k].status ensures rows[k].due <= rows[j].due {
      if j > k {
        ScheduleIncreases(loan, k, j);
      }
    }
  }

  lemma StoredLoanOk(s: Books, l: nat)
    requires Inv(s) && l < |s.loans|
    ensures LoanOk(s.loans[l], s.Today())
  {
    hide LoanOk;
  }

  // The one row an accepted repayment reaches: the earliest scheduled row, or the earliest
  // overdue one if and only if no row is scheduled any more.
  lemma RepaymentTargets(start: Clock, evs: seq<Event>, u: nat, l: nat, amount: int, specified: Option<nat>)
    requires RepayLoan(Run(start, evs), u, l, amount, specified).outcome == Done
    ensures l < |Run(start, evs).loans|
    ensures var rows := Run(start, evs).loans[l].rows;
            var rows' := RepayLoan(Run(start, evs), u, l, amount, specified).books.loans[l].rows;
            exists k :: 0 <= k < |rows| == |rows'|
              && rows[k].Unpaid() && !rows'[k].Unpaid() && rows'[k].paid == amount
              && (forall j :: 0 <= j < |rows| && j != k ==> rows'[j] == rows[j])
              && (rows[k].status == Overdue <==> forall j :: 0 <= j < |rows| ==> rows[j].status != Scheduled)
              && (forall j :: 0 <= j < |rows| && rows[j].status == rows[k].status ==> rows[k].due <= rows[j].due)
  {
    hide Run, Inv, LoanOk, RepayLoan, TargetRow;
    var s := Run(start, evs);
    RunKeepsInv(start, evs);
    AcceptedRepayment(s, u, l, amount, specified);
    StoredLoanOk(s, l);
    TargetIsEarliest(s.loans[l], s.Today());
    var k := TargetRow(s.loans[l].rows);
    assert k < |s.loans[l].rows|;
  }

  // Payments go to rows not yet due first: while one is scheduled, no payment reaches an
  // overdue row, so it cannot be cured.
  lemma RepaymentPassesOverOverdueRows(s: Books, u: nat, l: nat, amount: int, specified: Option<nat>, i: nat)
    requires l < |s.loans| && i < |s.loans[l].rows| && s.loans[l].rows[i].status == Overdue
    requires exists j :: 0 <= j < |s.loans[l].rows| && s.loans[l].rows[j].status == Scheduled
    ensures RepayLoan(s, u, l, amount, specified).books.loans[l].rows[i] == s.loans[l].rows[i]
  {
  }

  lemma PaidFacts(s: Books, l: nat)
    requires Inv(s) && l < |s.loans|
    ensures s.loans[l].status == FullyPaid ==> s.loans[l].outstanding == 0
    ensures s.loans[l].status == Active ==> s.loans[l].outstanding > 0
    ensures s.loans[l].status == Disbursed ==> s.loans[l].outstanding > 0
  {
    assert LoanOk(s.loans[l], s.Today());
    TotalCoversPrincipal(s.loans[l].principal, s.loans[l].tenor);
    hide TotalAmount;
  }

  // Rows that are all settled are final, and such a loan owes the same for ever.
  lemma SettledLoanIsFrozen(s: Books, more: seq<Event>, l: nat)
    requires Inv(s) && l < |s.loans|
    requires forall i :: 0 <= i < |s.loans[l].rows| ==> !s.loans[l].rows[i].Unpaid()
    ensures var s' := Continue(s, more);
            && l < |s'.loans| && s'.loans[l].rows == s.loans[l].rows
            && s'.loans[l].outstanding == s.loans[l].outstanding
            && CanBecome(s.loans[l].status, s'.loans[l].status) && s'.loans[l].status != Defaulted
            && (s'.loans[l].status == FullyPaid ==> s'.loans[l].outstanding == 0)
            && (s'.loans[l].status == Active ==> s'.loans[l].outstanding > 0)
  {
    var s' := Continue(s, more);
    ContinueKeepsInv(s, more);
    ContinueEvolves(s, more);
    var (loan, loan') := (s.loans[l], s'.loans[l]);
    assert LoanEvolves(loan, loan') && LoanOk(loan, s.Today()) && LoanOk(loan', s'.Today());
    hide Inv, Evolves, Continue, TermsOk, RowsOk;
    forall i | 0 <= i < |loan.rows| ensures loan'.rows[i] == loan.rows[i] {
      assert RowEvolves(loan.rows[i], loan'.rows[i]);
    }
    assert loan'.rows == loan.rows;
    assert !LongOverdue(loan', s'.Today());
  }

  // A partially paid row is never offered again. Once no row is open while money is still
  // outstanding, the loan is stuck: whatever follows, it stays active and owes the same.
  lemma StuckLoanStaysActive(start: Clock, evs: seq<Event>, more: seq<Event>, l: nat)
    requires l < |Run(start, evs).loans| && Run(start, evs).loans[l].status == Active
    requires forall i :: 0 <= i < |Run(start, evs).loans[l].rows| ==> !Run(start, evs).loans[l].rows[i].Unpaid()
    ensures var s := Run(start, evs); var s' := Continue(s, more);
            && l < |s'.loans| && s'.loans[l].status == Active
            && s'.loans[l].outstanding == s.loans[l].outstanding > 0
            && s'.loans[l].rows == s.loans[l].rows
  {
    var s := Run(start, evs);
    RunKeepsInv(start, evs);
    PaidFacts(s, l);
    SettledLoanIsFrozen(s, more, l);
    hide Run, Continue, Inv;
  }

  // A manually approved loan has no schedule, so no repayment of it is ever accepted, and
  // the attempt changes nothing.
  lemma ManualLoansCannotBeRepaid(start: Clock, evs: seq<Event>, u: nat, l: nat, amount: int, specified: Option<nat>)
    requires l < |Run(start, evs).loans| && Run(start, evs).loans[l].approval == ManualApproved
    ensures var r := RepayLoan(Run(start, evs), u, l, amount, specified);
            r.outcome.Refused? && r.books == Run(start, evs)
  {
    ReachableStatusPairs(start, evs, l);
  }

  lemma PendingWeighsNothing(ledger: seq<Txn>, t: Txn)
    requires t.status == TxnPending
    ensures forall a, k, p :: PeriodTotal(ledger + [t], a, k, p) == PeriodTotal(ledger, a, k, p)
    ensures forall a :: Sum(ledger + [t], BalanceFlow(a)) == Sum(ledger, BalanceFlow(a))
    ensures forall v, k :: Sum(ledger + [t], UserFlow(v, k)) == Sum(ledger, UserFlow(v, k))
    ensures forall m, k :: Sum(ledger + [t], LoanFlow(m, k)) == Sum(ledger, LoanFlow(m, k))
  {
    forall a, k, p ensures PeriodTotal(ledger + [t], a, k, p) == PeriodTotal(ledger, a, k, p) {
      SumAppend(ledger, t, PeriodFlow(a, k, p));
    }
    forall a ensures Sum(ledger + [t], BalanceFlow(a)) == Sum(ledger, BalanceFlow(a)) {
      SumAppend(ledger, t, BalanceFlow(a));
    }
    forall v, k ensures Sum(ledger + [t], UserFlow(v, k)) == Sum(ledger, UserFlow(v, k)) {
      SumAppend(ledger, t, UserFlow(v, k));
    }
    forall m, k ensures Sum(ledger + [t], LoanFlow(m, k)) == Sum(ledger, LoanFlow(m, k)) {
      SumAppend(ledger, t, LoanFlow(m, k));
    }
  }

  // A repayment the account cannot cover leaves one pending entry and nothing else: no
  // balance, loan, credit account, period total or replay notices it.
  lemma FailedRepaymentFrame(s: Books, u: nat, l: nat, amount: int, specified: Option<nat>)
    requires RepayLoan(s, u, l, amount, specified).outcome == Refused(InsufficientBalance)
    ensures var s' := RepayLoan(s, u, l, amount, specified).books;
            && |s'.ledger| == |s.ledger| + 1 && s.ledger <= s'.ledger
            && s' == s.(ledger := s'.ledger)
            && s'.ledger[|s.ledger|].status == TxnPending
            && (forall a, k, p :: PeriodTotal(s'.ledger, a, k, p) == PeriodTotal(s.ledger, a, k, p))
            && (forall a :: Sum(s'.ledger, BalanceFlow(a)) == Sum(s.ledger, BalanceFlow(a)))
            && (forall v, k :: Sum(s'.ledger, UserFlow(v, k)) == Sum(s.ledger, UserFlow(v, k)))
            && (forall m, k :: Sum(s'.ledger, LoanFlow(m, k)) == Sum(s.ledger, LoanFlow(m, k)))
  {
    var s' := RepayLoan(s, u, l, amount, specified).books;
    var t := s'.ledger[|s.ledger|];
    assert s'.ledger == s.ledger + [t] && t.status == TxnPending;
    hide RepayLoan;
    PendingWeighsNothing(s.ledger, t);
  }

  // And it stays pending: the ledger is only ever appended to.
  lemma LedgerIsAppendOnly(start: Clock, evs: seq<Event>, more: seq<Event>)
    ensures Run(start, evs).ledger <= Continue(Run(start, evs), more).ledger
  {
    RunKeepsInv(start, evs);
    ContinueEvolves(Run(start, evs), more);
  }

  // ---- Default ----------------------------------------------------------------------

  // Right after the default job of any run, exactly the loans with a row overdue by 31 days
  // or more are in default.
  lemma DefaultIsExact(start: Clock, evs: seq<Event>, shared: bool, l: nat)
    requires l < |Run(start, evs).loans|
    ensures var s := Run(start, evs); var loan' := DefaultLoans(s, shared).loans[l];
            loan'.status == Defaulted <==>
            exists i :: 0 <= i < |loan'.rows| && loan'.rows[i].status == Overdue
                        && s.Today() - loan'.rows[i].due >= 31
  {
    var s := Run(start, evs);
    RunKeepsInv(start, evs);
    assert LoanOk(s.loans[l], s.Today());
  }

  // Loans of customer u that were not in default before and are after.
  ghost function NewDefaults(before: seq<Loan>, after: seq<Loan>, u: nat): nat
    requires |before| == |after|
  {
    if before == [] then 0
    else
      var n := |before| - 1;
      NewDefaults(before[..n], after[..n], u)
      + (if before[n].user == u && before[n].status != Defaulted && after[n].status == Defaulted then 1 else 0)
  }

  lemma {:induction false} NewDefaultsCounted(before: seq<Loan>, after: seq<Loan>, u: nat, today: int)
    requires |before| == |after| && forall l :: 0 <= l < |before| ==> after[l] == DefaultLoan(before[l], today)
    ensures Sum(before, NewlyDefaultedOf(u, today)) == NewDefaults(before, after, u)
  {
    hide LongOverdue;
    if before == [] {
    } else {
      NewDefaultsCounted(before[..|before| - 1], after[..|before| - 1], u, today);
    }
  }

  lemma PenaltyOf(s: Books, u: nat, shared: bool)
    requires u < |s.customers|
    ensures var r := DefaultLoans(s, shared);
            && |r.customers| == |s.customers| && |r.loans| == |s.loans|
            && (forall l :: 0 <= l < |s.loans| ==> r.loans[l] == DefaultLoan(s.loans[l], s.Today()))
            && r.customers[u] == Penalised(s.customers[u], Sum(s.loans, NewlyDefaultedOf(u, s.Today())), shared)
  {
    hide Penalised, DefaultLoan, Sum, Serial;
  }

  lemma PenaltyInNumbers(c: Customer, n: nat, shared: bool)
    requires 0 <= c.score
    ensures var c' := Penalised(c, n, shared);
            && c'.verified == c.verified && 0 <= c'.score <= c.score
            && (c'.score < c.score <==> n > 0 && c.score > 0)
            && c'.score == Max(0, c.score - 50 * (if shared || n == 0 then n else 1))
            && (Penalised(c, n, true) != Penalised(c, n, false) <==> n > 1 && c.score > 50)
  {
  }

  lemma ScoreInRange(s: Books, u: nat)
    requires Inv(s) && u < |s.customers|
    ensures 0 <= s.customers[u].score <= 850
  {
    hide LoansOk, SavingsOk, LinksOk, LedgerOk, LoanBooksOk, CreditOk, NoneInFlight;
  }

  // Scores stay within 0 to 850. The job lowers a positive score exactly when it newly defaults a
  // loan of the customer; whether the customer's loans share one user object makes a difference
  // exactly when two or more of them default at once and the score is above one penalty.
  lemma PenaltyIff(start: Clock, evs: seq<Event>, u: nat, shared: bool)
    requires u < |Run(start, evs).customers|
    ensures var s := Run(start, evs);
            var n := NewDefaults(s.loans, DefaultLoans(s, shared).loans, u);
            var (score, score') := (s.customers[u].score, DefaultLoans(s, shared).customers[u].score);
            && 0 <= score' <= score <= 850
            && (score' < score <==> n > 0 && score > 0)
            && score' == Max(0, score - 50 * (if shared || n == 0 then n else 1))
            && DefaultLoans(s, shared).customers[u].verified == s.customers[u].verified
            && (DefaultLoans(s, true).customers[u] != DefaultLoans(s, false).customers[u] <==>
                  n > 1 && score > 50)
  {
    hide Run, Inv, NewDefaults, NewlyDefaulted, Sum, DefaultLoans, DefaultLoan, Serial, Penalised;
    var s := Run(start, evs);
    RunKeepsInv(start, evs);
    ScoreInRange(s, u);
    PenaltyOf(s, u, shared);
    PenaltyOf(s, u, true);
    PenaltyOf(s, u, false);
    NewDefaultsCounted(s.loans, DefaultLoans(s, shared).loans, u, s.Today());
    PenaltyInNumbers(s.customers[u], NewDefaults(s.loans, DefaultLoans(s, shared).loans, u), shared);
  }

  // Default is final: whatever follows, the loan stays in default with its rows frozen out of
  // repayment, and its customer gets no further loan.
  lemma DefaultIsFinal(start: Clock, evs: seq<Event>, more: seq<Event>, l: nat)
    requires l < |Run(start, evs).loans| && Run(start, evs).loans[l].status == Defaulted
    ensures var s := Run(start, evs); var s' := Continue(s, more);
            && |s.loans| <= |s'.loans| && s'.loans[l].status == Defaulted
            && Sum(s'.loans, OfUser(s.loans[l].user)) == Sum(s.loans, OfUser(s.loans[l].user))
  {
    var s := Run(start, evs);
    RunKeepsInv(start, evs);
    ContinueEvolves(s, more);
    assert LoanEvolves(s.loans[l], Continue(s, more).loans[l]);
    assert HasDefaulted(s.loans, s.loans[l].user);
  }

  // Tonight's three jobs on one loan.
  function Night(loan: Loan, today: int): Loan {
    DefaultLoan(ChargeLoan(MarkLoan(loan, today), today), today)
  }

  // Whatever nights were skipped before, one night puts a loan into default exactly when a
  // row without a payment is 31 or more days late. Being fully paid is no protection.
  lemma OneNightDefaultsIff(loan: Loan, today: int)
    requires LoanOk(loan, today)
    ensures Night(loan, today).status == Defaulted <==>
            exists i :: 0 <= i < |loan.rows| && loan.rows[i].Unpaid()
                        && today - loan.rows[i].due >= 31
  {
    var marked := MarkLoan(loan, today);
    var charged := ChargeLoan(marked, today);
    assert forall i :: 0 <= i < |loan.rows| ==>
      charged.rows[i].due == loan.rows[i].due
      && (today - loan.rows[i].due >= 31 ==>
            (charged.rows[i].status == Overdue <==> loan.rows[i].Unpaid()));
    hide MarkLoan, ChargeLoan;
    if LongOverdue(charged, today) {
      var i :| 0 <= i < |charged.rows| && charged.rows[i].status == Overdue
               && today - charged.rows[i].due >= 31;
      assert loan.rows[i].Unpaid();
    }
  }

  // ---- Closing accounts -------------------------------------------------------------

  // A loan in progress always points at an active account of its own borrower, so paying it
  // out never re-links it.
  lemma ClosureSafety(start: Clock, evs: seq<Event>, l: nat)
    requires l < |Run(start, evs).loans| && Live(Run(start, evs).loans[l].status)
    ensures var s := Run(start, evs); var loan := s.loans[l];
            && loan.account < |s.savings|
            && s.savings[loan.account].owner == loan.user && s.savings[loan.account].status == AccountActive
            && ResolveAccount(s, loan.user, None, Some(loan.account)) == Resolved(loan.account)
  {
    RunKeepsInv(start, evs);
    NoRelink(Run(start, evs), l);
  }

  // A closed account is empty and stays as it is for ever.
  lemma ClosedAccountsStayClosed(start: Clock, evs: seq<Event>, more: seq<Event>, a: nat)
    requires a < |Run(start, evs).savings| && Run(start, evs).savings[a].status == AccountClosed
    ensures var s := Run(start, evs);
            && s.savings[a].balance == 0
            && a < |Continue(s, more).savings| && Continue(s, more).savings[a] == s.savings[a]
  {
    RunKeepsInv(start, evs);
    ContinueEvolves(Run(start, evs), more);
  }

  // Every customer always keeps an active savings account.
  lemma AlwaysAnActiveAccount(start: Clock, evs: seq<Event>, u: nat)
    requires u < |Run(start, evs).credit|
    ensures var savings := Run(start, evs).savings;
            exists a :: 0 <= a < |savings| && savings[a].owner == u && savings[a].status == AccountActive
  {
    RunKeepsInv(start, evs);
    var a := SumWitness(Run(start, evs).savings, ActiveOf(u));
  }

  // ---- Schedules --------------------------------------------------------------------

  ghost function AmountOf(): Row -> int { (r: Row) => r.amount }

  lemma InstallmentDrift(principal: int, tenor: nat)
    requires IsTenor(tenor)
    ensures var exact := principal * (100 + InterestPercent(tenor));
            -100 * tenor <= 2 * (100 * (tenor * Installment(principal, tenor)) - exact) <= 100 * tenor
  {
  }

  // The rounded installments add up to the unrounded total within half a cent per row.
  lemma ScheduleAddsUp(loan: Loan)
    requires IsTenor(loan.tenor)
    ensures var exact := loan.principal * (100 + InterestPercent(loan.tenor));
            -100 * loan.tenor <= 2 * (100 * Sum(Schedule(loan), AmountOf()) - exact) <= 100 * loan.tenor
  {
    SumConstant(Schedule(loan), AmountOf(), Installment(loan.principal, loan.tenor));
    InstallmentDrift(loan.principal, loan.tenor);
    hide Installment, Schedule, InterestPercent, IsTenor;
  }

  // A principal in whole francs has an exact total, so the schedule misses it by at most half
  // a cent per row.
  lemma WholeFrancSchedule(loan: Loan)
    requires IsTenor(loan.tenor) && loan.principal % RWF == 0
    ensures loan.principal * (100 + InterestPercent(loan.tenor)) == 100 * TotalAmount(loan.principal, loan.tenor)
    ensures var drift := Sum(Schedule(loan), AmountOf()) - TotalAmount(loan.principal, loan.tenor);
            2 * drift <= loan.tenor && -2 * drift <= loan.tenor
  {
    var k := loan.principal / RWF * (100 + InterestPercent(loan.tenor));
    RoundExact(k, 100);
    assert loan.principal * (100 + InterestPercent(loan.tenor)) == k * 100;
    ScheduleAddsUp(loan);
  }

  lemma DatesOf(loan: Loan, i: nat)
    requires IsTenor(loan.tenor) && IsScheduleOf(loan.rows, loan) && i < |loan.rows| == loan.tenor
    requires loan.due == Serial(AddMonths(loan.requested, loan.tenor))
    ensures i + 1 < |loan.rows| ==> 28 <= loan.rows[i + 1].due - loan.rows[i].due <= 31
    ensures i + 1 == |loan.rows| ==> loan.rows[i].due == loan.due
    ensures 28 <= loan.rows[0].due - Serial(loan.requested) <= 31
  {
    assert loan.rows[i].due == ScheduleRow(loan, i).due;
    assert loan.rows[0].due == ScheduleRow(loan, 0).due;
    AddZeroMonths(loan.requested);
    MonthlyGap(loan.requested, 0);
    MonthlyGap(loan.requested, i + 1);
    hide AddMonths, Serial, Installment;
  }

  // Every stored schedule: rows 28 to 31 days apart, the last on the loan's own due date.
  lemma ScheduleDates(start: Clock, evs: seq<Event>, l: nat, i: nat)
    requires l < |Run(start, evs).loans| && i < |Run(start, evs).loans[l].rows|
    ensures var loan := Run(start, evs).loans[l];
            && (i + 1 < |loan.rows| ==> 28 <= loan.rows[i + 1].due - loan.rows[i].due <= 31)
            && (i + 1 == |loan.rows| ==> loan.rows[i].due == loan.due)
            && 28 <= loan.rows[0].due - Serial(loan.requested) <= 31
  {
    RunKeepsInv(start, evs);
    assert LoanOk(Run(start, evs).loans[l], Run(start, evs).Today());
    DatesOf(Run(start, evs).loans[l], i);
  }
}
