// Paying exactly what is billed. One might expect a customer who pays every installment as
// scheduled to end with a fully paid loan; that depends on how the installment was rounded.
module Billing {
  import Calendar
  import Money
  import opened Sums
  import opened Model
  import opened Operations
  import opened Invariants
  import opened Rules
  import Preservation
  import opened Runs
  import LoanTheorems
  import opened Scenarios

  // The amount of every row. (Each stored loan has one of the four tenors.)
  function Billed(loan: Loan): int {
    if IsTenor(loan.tenor) then Installment(loan.principal, loan.tenor) else 0
  }

  // The schedule misses the stored total by less than a payment's minimum.
  lemma ScheduleDrift(principal: int, tenor: nat)
    requires IsTenor(tenor)
    ensures var drift := tenor * Installment(principal, tenor) - TotalAmount(principal, tenor);
            2 * drift <= tenor + 1 && -2 * drift <= tenor + 1
    ensures tenor <= 24
  {
    LoanTheorems.InstallmentDrift(principal, tenor);
    Money.RoundBounds(principal * (100 + InterestPercent(tenor)), 100);
    hide Installment, TotalAmount, InterestPercent;
  }

  // ---- Over every run ---------------------------------------------------------------

  // Every completed repayment of loan l was of the amount billed for one row.
  ghost predicate PaysAsBilled(ledger: seq<Txn>, l: nat, installment: int) {
    forall i :: 0 <= i < |ledger| && LoanCount(l, LoanRepayment)(ledger[i]) == 1 ==> ledger[i].amount == installment
  }

  lemma {:induction false} BilledTotal(ledger: seq<Txn>, l: nat, installment: int)
    requires PaysAsBilled(ledger, l, installment)
    ensures Sum(ledger, LoanFlow(l, LoanRepayment)) == Sum(ledger, LoanCount(l, LoanRepayment)) * installment
  {
    if ledger == [] {
    } else {
      var n := |ledger| - 1;
      assert forall i :: 0 <= i < n ==> ledger[..n][i] == ledger[i];
      BilledTotal(ledger[..n], l, installment);
      var (count, t) := (Sum(ledger[..n], LoanCount(l, LoanRepayment)), ledger[n]);
      assert (count + 1) * installment == count * installment + installment;
      assert LoanCount(l, LoanRepayment)(t) == 1 ==> LoanFlow(l, LoanRepayment)(t) == installment;
    }
  }

  lemma {:induction false} RepaymentsAtLeast(ledger: seq<Txn>, l: nat)
    requires forall i :: 0 <= i < |ledger| && ledger[i].kind == LoanRepayment ==> MIN_AMOUNT <= ledger[i].amount
    ensures Sum(ledger, LoanFlow(l, LoanRepayment)) >= MIN_AMOUNT * Sum(ledger, LoanCount(l, LoanRepayment)) >= 0
  {
    if ledger == [] {
    } else {
      var n := |ledger| - 1;
      assert forall i :: 0 <= i < n ==> ledger[..n][i] == ledger[i];
      RepaymentsAtLeast(ledger[..n], l);
    }
  }

  lemma AtLeastOneMore(k: nat, installment: int)
    requires k > 0 && 0 <= installment
    ensures k * installment >= installment
  {
    assert k * installment == installment + (k - 1) * installment;
  }

  // What n payments of one installment each leave of a total the schedule nearly meets.
  lemma Remainder(total: int, installment: int, tenor: nat, n: nat)
    requires n <= tenor <= 24 && (n > 0 ==> MIN_AMOUNT <= installment) && n * installment <= total && 0 < total
    requires 2 * (tenor * installment - total) <= tenor + 1
    ensures total == n * installment <==> n == tenor && tenor * installment == total
    ensures n == tenor ==> tenor * installment <= total
  {
    if 0 < n < tenor {
      assert tenor * installment == n * installment + (tenor - n) * installment;
      AtLeastOneMore(tenor - n, installment);
    }
  }

  lemma InstallmentBound(paid: int, installment: int)
    requires 0 <= MIN_AMOUNT * paid <= paid * installment
    ensures 0 <= paid && (paid > 0 ==> MIN_AMOUNT <= installment)
  {
    assert 0 <= paid;
    if paid > 0 {
      assert paid * (installment - MIN_AMOUNT) == paid * installment - MIN_AMOUNT * paid;
      Money.FactorSign(paid, installment - MIN_AMOUNT);
    }
  }

  lemma ScheduledLoan(loan: Loan, today: int)
    requires LoanOk(loan, today) && loan.approval == AutoApproved
    ensures loan.total == TotalAmount(loan.principal, loan.tenor) && 0 < loan.total && IsTenor(loan.tenor)
    ensures Sum(loan.rows, SettledOf()) + Sum(loan.rows, UnpaidOf()) == loan.tenor
    ensures 0 <= Sum(loan.rows, UnpaidOf())
    ensures Sum(loan.rows, UnpaidOf()) == 0 ==> loan.status != Defaulted
  {
    Preservation.TotalCoversPrincipal(loan.principal, loan.tenor);
    LoanTheorems.SettledAtMost(loan.rows);
    SumNonNegative(loan.rows, UnpaidOf());
    hide TotalAmount, RowsOk;
    if loan.status == Defaulted {
      var i :| 0 <= i < |loan.rows| && loan.rows[i].status == Overdue
               && today - loan.rows[i].due >= DEFAULT_THRESHOLD_DAYS;
      SumAtLeastOne(loan.rows, UnpaidOf(), i);
    }
  }

  lemma LedgerAmounts(s: Books)
    requires Inv(s)
    ensures forall i :: 0 <= i < |s.ledger| && s.ledger[i].kind == LoanRepayment ==> MIN_AMOUNT <= s.ledger[i].amount
  {
    hide LoansOk, SavingsOk, LinksOk, LoanBooksOk, CreditOk, NoneInFlight, CustomersOk;
    forall i | 0 <= i < |s.ledger| && s.ledger[i].kind == LoanRepayment ensures MIN_AMOUNT <= s.ledger[i].amount {
      assert TxnOk(s.ledger[i], s.savings, s.ledger[..i]);
    }
  }

  // What the invariant says about a scheduled loan and its ledger entries.
  lemma LoanFacts(s: Books, l: nat)
    requires Inv(s) && l < |s.loans| && s.loans[l].approval == AutoApproved
    ensures var loan := s.loans[l];
            var paid := Sum(s.ledger, LoanCount(l, LoanRepayment));
            && loan.total == TotalAmount(loan.principal, loan.tenor) && 0 < loan.total
            && Sum(s.ledger, LoanFlow(l, LoanRepayment)) == loan.total - loan.outstanding
            && 0 <= loan.outstanding && paid == loan.tenor - Sum(loan.rows, UnpaidOf())
            && 0 <= Sum(loan.rows, UnpaidOf())
            && (loan.status == FullyPaid ==> loan.outstanding == 0)
            && (loan.status == Active ==> 0 < loan.outstanding)
            && (loan.status == Disbursed ==> loan.outstanding == loan.total)
            && (Sum(loan.rows, UnpaidOf()) == 0 ==> loan.status != Defaulted)
            && loan.status in {Disbursed, Active, FullyPaid, Defaulted}
            && IsTenor(loan.tenor)
    ensures forall i :: 0 <= i < |s.ledger| && s.ledger[i].kind == LoanRepayment ==> MIN_AMOUNT <= s.ledger[i].amount
  {
    assert LoanOk(s.loans[l], s.Today()) && LoanBook(l, s.loans[l], s.ledger);
    LedgerAmounts(s);
    hide Core, LoanBook, Sum;
    ScheduledLoan(s.loans[l], s.Today());
  }

  // In every reachable state, whatever else happened: a loan of which every repayment so far was
  // exactly one installment is fully paid if and only if all its rows were paid and the
  // installments add up to the total. If they add up to less, the loan stays active once all
  // rows are paid; if to more, the last row is never paid.
  lemma FullyPaidAsBilledIff(start: Calendar.Clock, evs: seq<Event>, l: nat)
    requires var s := Run(start, evs);
             && l < |s.loans| && s.loans[l].approval == AutoApproved
             && PaysAsBilled(s.ledger, l, Billed(s.loans[l]))
    ensures var loan := Run(start, evs).loans[l];
            var paid := Sum(Run(start, evs).ledger, LoanCount(l, LoanRepayment));
            && loan.total == TotalAmount(loan.principal, loan.tenor)
            && 0 <= paid == loan.tenor - Sum(loan.rows, UnpaidOf())
            && loan.outstanding == loan.total - paid * Billed(loan)
            && (loan.status == FullyPaid <==> paid == loan.tenor && loan.tenor * Billed(loan) == loan.total)
            && (loan.tenor * Billed(loan) > loan.total ==> paid < loan.tenor)
            && (paid == loan.tenor && loan.tenor * Billed(loan) < loan.total ==> loan.status == Active)
  {
    var s := Run(start, evs);
    var loan := s.loans[l];
    RunKeepsInv(start, evs);
    LoanFacts(s, l);
    ScheduleDrift(loan.principal, loan.tenor);
    BilledTotal(s.ledger, l, Billed(loan));
    RepaymentsAtLeast(s.ledger, l);
    hide Run, Inv, Installment, TotalAmount, UnpaidOf, LoanOk, IsTenor, Sum;
    var paid := Sum(s.ledger, LoanCount(l, LoanRepayment));
    InstallmentBound(paid, Billed(loan));
    Remainder(loan.total, Billed(loan), loan.tenor, paid);
  }

  // ---- From a fresh loan ------------------------------------------------------------

  // n payments of one installment each, out of the account the loan was paid into.
  function Payments(loan: Loan, l: nat, n: nat): seq<Event> {
    seq(n, _ => DoRepayLoan(loan.user, l, Billed(loan), None))
  }

  // Loan l of s, after n payments: the first n rows are settled.
  ghost predicate LoanAfter(loan: Loan, loan': Loan, n: nat) {
    && loan'.user == loan.user && loan'.account == loan.account && |loan'.rows| == |loan.rows|
    && loan'.outstanding == loan.total - n * Billed(loan)
    && loan'.status == (if n == 0 then Disbursed else if loan'.outstanding <= 0 then FullyPaid else Active)
    && (forall i :: 0 <= i < |loan.rows| ==>
          if i < n then !loan'.rows[i].Unpaid() else loan'.rows[i].status == Scheduled)
  }

  ghost predicate After(s: Books, s': Books, l: nat, n: nat)
    requires l < |s.loans|
  {
    var loan := s.loans[l];
    && l < |s'.loans| && LoanAfter(loan, s'.loans[l], n)
    && loan.account < |s.savings| == |s'.savings|
    && s'.savings[loan.account].owner == loan.user && s'.savings[loan.account].status == AccountActive
    && s'.savings[loan.account].balance == s.savings[loan.account].balance - n * Billed(loan)
    && loan.user < |s'.customers| && loan.user < |s'.credit|
  }

  lemma NextRow(rows: seq<Row>, n: nat)
    requires n < |rows|
    requires forall i :: 0 <= i < |rows| ==> if i < n then !rows[i].Unpaid() else rows[i].status == Scheduled
    ensures TargetRow(rows) == n
  {
    var k := FirstRow(rows, Scheduled, 0);
    assert rows[n].status == Scheduled;
    assert k == n;
  }

  lemma NextPayment(s: Books, s': Books, l: nat, n: nat)
    requires l < |s.loans| && After(s, s', l, n) && n < |s.loans[l].rows|
    requires var loan := s.loans[l];
             && MIN_AMOUNT <= Billed(loan) && (n + 1) * Billed(loan) <= loan.total
             && (n + 1) * Billed(loan) <= s.savings[loan.account].balance
    ensures After(s, Step(s', DoRepayLoan(s.loans[l].user, l, Billed(s.loans[l]), None)), l, n + 1)
  {
    hide TargetRow, Installment, Entry;
    NextRow(s'.loans[l].rows, n);
    assert (n + 1) * Billed(s.loans[l]) == n * Billed(s.loans[l]) + Billed(s.loans[l]);
  }

  lemma LastOfThem(s: Books, l: nat, n: nat)
    requires l < |s.loans|
    ensures Continue(s, Payments(s.loans[l], l, n + 1))
         == Step(Continue(s, Payments(s.loans[l], l, n)), DoRepayLoan(s.loans[l].user, l, Billed(s.loans[l]), None))
  {
    hide Step, Billed;
    var loan := s.loans[l];
    var last := DoRepayLoan(loan.user, l, Billed(loan), None);
    assert Payments(loan, l, n + 1) == Payments(loan, l, n) + [last];
    ContinueOne(s, Payments(loan, l, n), last);
  }

  lemma {:induction false} AfterPayments(s: Books, l: nat, n: nat)
    requires l < |s.loans| && After(s, s, l, 0) && n <= |s.loans[l].rows|
    requires var loan := s.loans[l];
             && MIN_AMOUNT <= Billed(loan) && n * Billed(loan) <= loan.total
             && n * Billed(loan) <= s.savings[loan.account].balance
    ensures After(s, Continue(s, Payments(s.loans[l], l, n)), l, n)
  {
    hide After, Step, Billed;
    if n == 0 {
    } else {
      var loan := s.loans[l];
      assert n * Billed(loan) == (n - 1) * Billed(loan) + Billed(loan);
      AfterPayments(s, l, n - 1);
      LastOfThem(s, l, n - 1);
      NextPayment(s, Continue(s, Payments(loan, l, n - 1)), l, n - 1);
    }
  }

  lemma FreshStart(s: Books, l: nat)
    requires Inv(s) && l < |s.loans| && FreshLoan(s.loans[l])
    ensures After(s, s, l, 0) && |s.loans[l].rows| == s.loans[l].tenor
  {
    assert LoanOk(s.loans[l], s.Today());
  }

  // A payment of more than is outstanding changes nothing.
  lemma TooMuch(loan: Loan, s: Books, l: nat)
    requires l < |s.loans| && s.loans[l].user == loan.user
    requires MIN_AMOUNT <= Billed(loan) && s.loans[l].outstanding < Billed(loan)
    requires s.loans[l].status == Active || s.loans[l].status == Disbursed
    ensures RepayLoan(s, loan.user, l, Billed(loan), None) == Refuse(s, AmountExceedsOutstanding)
  {
  }

  lemma {:induction false} TooSmall(s: Books, l: nat, n: nat)
    requires l < |s.loans| && Billed(s.loans[l]) < MIN_AMOUNT
    ensures Continue(s, Payments(s.loans[l], l, n)) == s
  {
    if n == 0 {
    } else {
      var (prefix, e) := (Payments(s.loans[l], l, n - 1), Payments(s.loans[l], l, n)[n - 1]);
      assert Payments(s.loans[l], l, n) == prefix + [e];
      TooSmall(s, l, n - 1);
      ContinueOne(s, prefix, e);
    }
  }

  lemma RowsLeft(rows: seq<Row>, n: nat)
    requires n <= |rows| <= n + 1
    requires forall i :: 0 <= i < |rows| ==> if i < n then !rows[i].Unpaid() else rows[i].status == Scheduled
    ensures Sum(rows, UnpaidOf()) == |rows| - n
  {
    assert forall i :: 0 <= i < n ==> rows[..n][i] == rows[i];
    SumZero(rows[..n], UnpaidOf());
    if n == |rows| {
      assert rows[..n] == rows;
    } else {
      assert rows[n].Unpaid();
      assert rows == rows[..n] + [rows[n]];
      hide Sum;
      SumAppend(rows[..n], rows[n], UnpaidOf());
    }
  }

  lemma AllRowsPaid(s: Books, l: nat)
    requires l < |s.loans| && After(s, s, l, 0) && 0 < |s.loans[l].rows| == s.loans[l].tenor
    requires var (loan, scheduled) := (s.loans[l], s.loans[l].tenor * Billed(s.loans[l]));
             && MIN_AMOUNT <= Billed(loan) && scheduled <= loan.total && scheduled <= s.savings[loan.account].balance
    ensures var (loan, scheduled) := (s.loans[l], s.loans[l].tenor * Billed(s.loans[l]));
            var s' := Continue(s, Payments(loan, l, loan.tenor));
            && l < |s'.loans| && s'.loans[l].outstanding == loan.total - scheduled
            && s'.loans[l].status == (if scheduled == loan.total then FullyPaid else Active)
            && Sum(s'.loans[l].rows, UnpaidOf()) == 0
  {
    hide Billed, Payments, Continue;
    AfterPayments(s, l, s.loans[l].tenor);
    RowsLeft(Continue(s, Payments(s.loans[l], l, s.loans[l].tenor)).loans[l].rows, s.loans[l].tenor);
  }

  lemma AlmostAll(loan: Loan)
    requires IsTenor(loan.tenor) && loan.total == TotalAmount(loan.principal, loan.tenor) && MIN_AMOUNT <= Billed(loan)
    ensures (loan.tenor - 1) * Billed(loan) + Billed(loan) == loan.tenor * Billed(loan)
    ensures (loan.tenor - 1) * Billed(loan) < loan.total
  {
    ScheduleDrift(loan.principal, loan.tenor);
    hide TotalAmount, Installment;
  }

  lemma AfterLoan(s: Books, s': Books, l: nat, n: nat)
    requires l < |s.loans| && After(s, s', l, n)
    ensures l < |s'.loans| && LoanAfter(s.loans[l], s'.loans[l], n)
  {
  }

  lemma LastRowOpen(s: Books, l: nat)
    requires l < |s.loans| && After(s, s, l, 0) && 1 < |s.loans[l].rows| == s.loans[l].tenor
    requires var (loan, scheduled) := (s.loans[l], s.loans[l].tenor * Billed(s.loans[l]));
             && IsTenor(loan.tenor) && loan.total == TotalAmount(loan.principal, loan.tenor)
             && MIN_AMOUNT <= Billed(loan) && scheduled > loan.total && scheduled <= s.savings[loan.account].balance
    ensures var loan := s.loans[l];
            var s' := Continue(s, Payments(loan, l, loan.tenor));
            && l < |s'.loans| && s'.loans[l].status == Active && Sum(s'.loans[l].rows, UnpaidOf()) == 1
            && RepayLoan(s', loan.user, l, Billed(loan), None) == Refuse(s', AmountExceedsOutstanding)
  {
    hide Billed, TotalAmount, Installment, Payments, Continue, RepayLoan, IsTenor, After;
    var loan := s.loans[l];
    var n := loan.tenor - 1;
    AlmostAll(loan);
    AfterPayments(s, l, n);
    LastOfThem(s, l, n);
    var s' := Continue(s, Payments(loan, l, n));
    AfterLoan(s, s', l, n);
    TooMuch(loan, s', l);
    RowsLeft(s'.loans[l].rows, n);
  }

  lemma TermsOfLoan(s: Books, l: nat)
    requires Inv(s) && l < |s.loans|
    ensures IsTotal(s.loans[l].total, s.loans[l].principal, s.loans[l].tenor)
    ensures IsInstallment(Billed(s.loans[l]), s.loans[l].principal, s.loans[l].tenor)
  {
    assert LoanOk(s.loans[l], s.Today());
    hide Inv, Installment, TotalAmount;
    TermsInNumbers(s.loans[l].principal, s.loans[l].tenor);
  }

  // From any reachable state: the customer of a fresh loan, whose account holds enough, pays each
  // row as billed. The loan ends fully paid if and only if the installment can be paid at all and
  // the installments add up to the total; both depend on nothing but principal and tenor. When
  // they add up to less, all rows are settled and the
  // difference stays owed; when to more, the last payment is refused and its row stays open.
  lemma PayingAsBilledIff(start: Calendar.Clock, evs: seq<Event>, l: nat)
    requires var s := Run(start, evs);
             && l < |s.loans| && FreshLoan(s.loans[l]) && s.loans[l].account < |s.savings|
             && s.loans[l].tenor * Billed(s.loans[l]) <= s.savings[s.loans[l].account].balance
    ensures var s := Run(start, evs); var loan := s.loans[l];
            var (billed, scheduled) := (Billed(loan), loan.tenor * Billed(loan));
            var s' := Continue(s, Payments(loan, l, loan.tenor));
            && l < |s'.loans| && IsTotal(loan.total, loan.principal, loan.tenor)
            && IsInstallment(billed, loan.principal, loan.tenor)
            && (s'.loans[l].status == FullyPaid <==> MIN_AMOUNT <= billed && scheduled == loan.total)
            && (MIN_AMOUNT <= billed && scheduled < loan.total ==>
                  && s'.loans[l].status == Active && s'.loans[l].outstanding == loan.total - scheduled
                  && Sum(s'.loans[l].rows, UnpaidOf()) == 0)
            && (MIN_AMOUNT <= billed && scheduled > loan.total ==>
                  && s'.loans[l].status == Active && Sum(s'.loans[l].rows, UnpaidOf()) == 1
                  && RepayLoan(s', loan.user, l, billed, None) == Refuse(s', AmountExceedsOutstanding))
            && (billed < MIN_AMOUNT ==> s' == s)
  {
    var s := Run(start, evs);
    RunKeepsInv(start, evs);
    LoanFacts(s, l);
    FreshStart(s, l);
    TermsOfLoan(s, l);
    hide Run, Inv, After, FreshLoan, Payments, Billed, LoanFlow, RepayLoan, TotalAmount, IsTotal, IsInstallment;
    if Billed(s.loans[l]) < MIN_AMOUNT {
      TooSmall(s, l, s.loans[l].tenor);
    } else if s.loans[l].tenor * Billed(s.loans[l]) <= s.loans[l].total {
      AllRowsPaid(s, l);
    } else {
      LastRowOpen(s, l);
    }
  }

  // A customer borrows and pays every row as billed.
  function BorrowAndPay(deposit: int, principal: int, tenor: nat, amount: int): seq<Event> {
    Borrowing(deposit, principal, tenor) + seq(tenor, _ => DoRepayLoan(0, 0, amount, None))
  }

  lemma OneAccount(s: Books, balance: int)
    requires OneCustomer(s, DAY_ONE, balance, true)
    ensures |s.savings| == 1 && s.savings[0].balance == balance
  {
  }

  lemma BorrowedAndPaid(deposit: int, principal: int, tenor: nat, amount: int)
    requires MIN_AMOUNT <= deposit <= DailyDepositLimit(Basic)
    requires MIN_AMOUNT <= principal <= AUTO_APPROVAL_THRESHOLD && IsTenor(tenor)
    requires MIN_AMOUNT <= amount == Installment(principal, tenor) && tenor * amount <= deposit + principal
    requires tenor * amount != TotalAmount(principal, tenor)
    ensures var s := Run(DAY_ONE, BorrowAndPay(deposit, principal, tenor, amount));
            && |s.loans| >= 1 && s.loans[0].status == Active
            && (tenor * amount < TotalAmount(principal, tenor) ==>
                  && s.loans[0].outstanding == TotalAmount(principal, tenor) - tenor * amount
                  && Sum(s.loans[0].rows, UnpaidOf()) == 0)
            && (tenor * amount > TotalAmount(principal, tenor) ==>
                  && Sum(s.loans[0].rows, UnpaidOf()) == 1
                  && RepayLoan(s, 0, 0, amount, None) == Refuse(s, AmountExceedsOutstanding))
  {
    hide Run, Borrowing, OneCustomer, TotalAmount, Installment, RepayLoan, FreshLoan;
    var evs := Borrowing(deposit, principal, tenor);
    LoanGranted(deposit, principal, tenor);
    var s := Run(DAY_ONE, evs);
    OneAccount(s, deposit + principal);
    PayingAsBilledIff(DAY_ONE, evs, 0);
    RunContinues(DAY_ONE, evs, Payments(s.loans[0], 0, tenor));
    assert Payments(s.loans[0], 0, tenor) == seq(tenor, _ => DoRepayLoan(0, 0, amount, None));
  }

  // 1,000 francs: 12 rows of 93.33 make 1,119.96 of 1,120.00; 24 of 49.17 make 1,180.08 of 1,180.00.
  lemma ThousandFrancs()
    ensures Installment(100_000, 12) == 9_333 && TotalAmount(100_000, 12) == 112_000
    ensures Installment(100_000, 24) == 4_917 && TotalAmount(100_000, 24) == 118_000
  {
  }

  lemma NoneOpen(rows: seq<Row>)
    requires Sum(rows, UnpaidOf()) == 0
    ensures forall i :: 0 <= i < |rows| ==> !rows[i].Unpaid()
  {
    forall i | 0 <= i < |rows| ensures !rows[i].Unpaid() {
      SumAtLeastOne(rows, UnpaidOf(), i);
    }
  }

  // Every row was paid as billed, and four cents stay owed for ever.
  lemma FourCentsStayOwed(more: seq<Event>)
    ensures var s := Continue(Run(DAY_ONE, BorrowAndPay(12_000, 100_000, 12, 9_333)), more);
            && |s.loans| >= 1 && s.loans[0].status == Active && s.loans[0].outstanding == 4
            && Sum(s.loans[0].rows, UnpaidOf()) == 0
  {
    hide Run, Continue, BorrowAndPay, TotalAmount, Installment;
    var evs := BorrowAndPay(12_000, 100_000, 12, 9_333);
    ThousandFrancs();
    BorrowedAndPaid(12_000, 100_000, 12, 9_333);
    NoneOpen(Run(DAY_ONE, evs).loans[0].rows);
    LoanTheorems.StuckLoanStaysActive(DAY_ONE, evs, more, 0);
  }

  // 23 rows were paid as billed; the last billed payment exceeds what is outstanding.
  lemma LastBilledPaymentIsRefused()
    ensures var s := Run(DAY_ONE, BorrowAndPay(20_000, 100_000, 24, 4_917));
            && |s.loans| >= 1 && s.loans[0].status == Active && Sum(s.loans[0].rows, UnpaidOf()) == 1
            && RepayLoan(s, 0, 0, 4_917, None) == Refuse(s, AmountExceedsOutstanding)
  {
    hide Run, BorrowAndPay, TotalAmount, Installment, RepayLoan;
    ThousandFrancs();
    BorrowedAndPaid(20_000, 100_000, 24, 4_917);
  }
}
