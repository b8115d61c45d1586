// Exactly which requests are accepted in a reachable state, and everything an accepted one changes:
// which account, by how much, with which entry. Stated over the tables themselves.
module Effects {
  import opened Calendar
  import opened Sums
  import opened Model
  import opened Operations
  import opened Invariants
  import opened Preservation
  import opened Rules
  import opened Runs
  import opened Limits
  import LoanTheorems

  // Every row's customer exists, with a credit account.
  lemma OwnersExist(s: Books)
    requires Inv(s)
    ensures |s.customers| == |s.credit|
    ensures forall a :: 0 <= a < |s.savings| ==> s.savings[a].owner < |s.customers| && 0 <= s.savings[a].balance
    ensures forall a :: 0 <= a < |s.savings| && s.savings[a].status == AccountClosed ==> s.savings[a].balance == 0
    ensures forall l :: 0 <= l < |s.loans| ==> s.loans[l].user < |s.customers| && s.loans[l].account < |s.savings|
  {
    hide LoansOk, LedgerOk, LoanBooksOk, CreditOk, NoneInFlight;
  }

  // The savings table after account a moved by an amount.
  ghost function Moved(savings: seq<Savings>, a: nat, amount: int): seq<Savings>
    requires a < |savings|
  {
    savings[a := savings[a].(balance := savings[a].balance + amount)]
  }

  // ---- Deposits and withdrawals -----------------------------------------------------

  ghost predicate CanDeposit(s: Books, u: nat, a: nat, amount: int) {
    && 1_00 <= amount && a < |s.savings| && s.savings[a].owner == u && s.savings[a].status == AccountActive
    && Booked(s.ledger, a, Deposit, OnDay(s.now.date)) + amount <= DAILY_DEPOSITS[Rank(s.savings[a].tier)]
  }

  ghost predicate CanWithdraw(s: Books, u: nat, a: nat, amount: int) {
    && 1_00 <= amount && a < |s.savings| && s.savings[a].owner == u && s.savings[a].status == AccountActive
    && amount <= s.savings[a].balance
    && Booked(s.ledger, a, Withdrawal, OnDay(s.now.date)) + amount <= DAILY_WITHDRAWALS[Rank(s.savings[a].tier)]
    && Booked(s.ledger, a, Withdrawal, InMonth(s.now.date.month)) + amount
       <= MONTHLY_WITHDRAWALS[Rank(s.savings[a].tier)]
  }

  // The balance of a moved, a completed entry says so, and nothing else changed.
  ghost predicate OnlyMoved(s: Books, s': Books, u: nat, a: nat, kind: Kind, amount: int, change: int)
    requires a < |s.savings|
  {
    var before := s.savings[a].balance;
    s' == s.(savings := Moved(s.savings, a, change),
             ledger := s.ledger + [Txn(u, Some(a), kind, amount, before, before + change, TxnCompleted, s.now, None)])
  }

  lemma DepositOf(s: Books, u: nat, a: nat, amount: int)
    requires |s.savings| > a ==> s.savings[a].owner < |s.customers|
    ensures var r := MakeDeposit(s, u, a, amount);
            if CanDeposit(s, u, a, amount)
            then r.outcome == Done && OnlyMoved(s, r.books, u, a, Deposit, amount, amount)
            else r.outcome != Done && r.books == s
  {
    if a < |s.savings| {
      TierTable(s.savings[a].tier);
      PeriodTotalIsBooked(s.ledger, a, Deposit, OnDay(s.now.date));
    }
    hide PeriodTotal, Booked, DailyDepositLimit, Rank;
  }

  lemma WithdrawalOf(s: Books, u: nat, a: nat, amount: int)
    requires |s.savings| > a ==> s.savings[a].owner < |s.customers|
    ensures var r := Withdraw(s, u, a, amount);
            if CanWithdraw(s, u, a, amount)
            then r.outcome == Done && OnlyMoved(s, r.books, u, a, Withdrawal, amount, -amount)
            else r.outcome != Done && r.books == s
  {
    if a < |s.savings| {
      TierTable(s.savings[a].tier);
      PeriodTotalIsBooked(s.ledger, a, Withdrawal, OnDay(s.now.date));
      PeriodTotalIsBooked(s.ledger, a, Withdrawal, InMonth(s.now.date.month));
    }
    hide PeriodTotal, Booked, DailyWithdrawalLimit, MonthlyWithdrawalLimit, Rank;
  }

  // A deposit is accepted exactly on an active account of the customer, within what the account's
  // tier may take in that day, everything deposited on it so far included.
  lemma DepositIff(start: Clock, evs: seq<Event>, u: nat, a: nat, amount: int)
    ensures var s := Run(start, evs);
            var r := MakeDeposit(s, u, a, amount);
            if CanDeposit(s, u, a, amount)
            then r.outcome == Done && OnlyMoved(s, r.books, u, a, Deposit, amount, amount)
            else r.outcome != Done && r.books == s
  {
    var s := Run(start, evs);
    RunKeepsInv(start, evs);
    OwnersExist(s);
    hide Run, Inv, MakeDeposit, CanDeposit, OnlyMoved;
    DepositOf(s, u, a, amount);
  }

  // A withdrawal is accepted exactly on an active account of the customer that holds the amount,
  // within what the account's tier may pay out that day and that month.
  lemma WithdrawIff(start: Clock, evs: seq<Event>, u: nat, a: nat, amount: int)
    ensures var s := Run(start, evs);
            var r := Withdraw(s, u, a, amount);
            if CanWithdraw(s, u, a, amount)
            then r.outcome == Done && OnlyMoved(s, r.books, u, a, Withdrawal, amount, -amount)
            else r.outcome != Done && r.books == s
  {
    var s := Run(start, evs);
    RunKeepsInv(start, evs);
    OwnersExist(s);
    hide Run, Inv, Withdraw, CanWithdraw, OnlyMoved;
    WithdrawalOf(s, u, a, amount);
  }

  // ---- Closing an account -----------------------------------------------------------

  // Two different active accounts of the customer.
  ghost predicate HasTwoActive(savings: seq<Savings>, u: nat) {
    exists b, c :: 0 <= b < c < |savings|
      && savings[b].owner == u && savings[b].status == AccountActive
      && savings[c].owner == u && savings[c].status == AccountActive
  }

  lemma TwoActiveIff(savings: seq<Savings>, u: nat)
    ensures Sum(savings, ActiveOf(u)) > 1 <==> HasTwoActive(savings, u)
  {
    if Sum(savings, ActiveOf(u)) > 1 {
      var c := SumWitness(savings, ActiveOf(u));
      OthersActive(savings, u, c);
    } else if b, c :| 0 <= b < c < |savings|
                      && savings[b].owner == u && savings[b].status == AccountActive
                      && savings[c].owner == u && savings[c].status == AccountActive {
      OthersActive(savings, u, c);
      var closed := savings[c].(status := AccountClosed);
      SumAtLeastOne(savings[c := closed], ActiveOf(u), b);
      SumUpdate(savings, c, closed, ActiveOf(u));
    }
  }

  // Without account c, the customer has one active account less.
  lemma OthersActive(savings: seq<Savings>, u: nat, c: nat)
    requires c < |savings| && savings[c].owner == u && savings[c].status == AccountActive
    ensures Sum(savings, ActiveOf(u)) > 1 ==> HasTwoActive(savings, u)
  {
    var closed := savings[c].(status := AccountClosed);
    SumUpdate(savings, c, closed, ActiveOf(u));
    if Sum(savings, ActiveOf(u)) > 1 {
      var b := SumWitness(savings[c := closed], ActiveOf(u));
      assert b != c;
    }
  }

  // Every loan linked to the account has come to an end.
  ghost predicate NoneInProgress(loans: seq<Loan>, a: nat) {
    forall l :: 0 <= l < |loans| && loans[l].account == a ==> loans[l].status in {FullyPaid, Defaulted, Rejected}
  }

  lemma NoneInProgressIff(loans: seq<Loan>, a: nat)
    ensures NoneInProgress(loans, a) <==> !HasLiveLoan(loans, a)
  {
  }

  // An account is closed exactly if its customer has two active accounts, no loan in progress is
  // linked to it, and it is empty. Nothing else changes.
  lemma CloseIff(start: Clock, evs: seq<Event>, u: nat, a: nat)
    ensures var s := Run(start, evs);
            var r := CloseSavings(s, u, a);
            && (r.outcome == Done <==>
                  && a < |s.savings| && s.savings[a].owner == u && s.savings[a].balance == 0
                  && HasTwoActive(s.savings, u) && NoneInProgress(s.loans, a))
            && (r.outcome == Done ==>
                  r.books == s.(savings := s.savings[a := s.savings[a].(status := AccountClosed)]))
            && (r.outcome != Done ==> r.books == s)
  {
    var s := Run(start, evs);
    RunKeepsInv(start, evs);
    OwnersExist(s);
    TwoActiveIff(s.savings, u);
    NoneInProgressIff(s.loans, a);
    hide Run, Inv, HasTwoActive, ActiveOf, Sum, HasLiveLoan;
  }

  // ---- Credit -----------------------------------------------------------------------

  // A new customer starts unverified with score 300, an empty BASIC account and a credit line: the
  // admissible limit nearest to the one asked for, all of it available.
  lemma RegistrationOpens(start: Clock, evs: seq<Event>, asked: int)
    ensures var s := Run(start, evs);
            var r := Register(s, asked);
            var u := |s.customers|;
            && r.outcome == Done && |r.books.customers| == |r.books.credit| == u + 1
            && var limit := r.books.credit[u].limit;
            && IsNearestLimit(limit, asked)
            && r.books == s.(customers := s.customers + [Customer(300, false)],
                             credit := s.credit + [Credit(s.now, limit, limit, 0, 0, 0)],
                             savings := s.savings + [Savings(u, s.now, Basic, 5_00, 0, 0, AccountActive)])
  {
    RunKeepsInv(start, evs);
    OwnersExist(Run(start, evs));
    ClampIsNearest(asked);
    hide Run, Inv, IsNearestLimit;
  }

  // What else is done for a customer touches that customer alone: a score of 300 to 850 is set, the
  // identity is verified, an empty BASIC account is opened.
  lemma CustomerIff(start: Clock, evs: seq<Event>, u: nat, score: int)
    ensures var s := Run(start, evs);
            var (scored, checked, added) := (SetCreditScore(s, u, score), VerifyCustomer(s, u), OpenSavings(s, u));
            && (scored.outcome == Done <==> u < |s.customers| && 300 <= score <= 850)
            && (checked.outcome == Done <==> u < |s.customers|)
            && (added.outcome == Done <==> u < |s.customers|)
            && (if scored.outcome == Done
                then scored.books == s.(customers := s.customers[u := Customer(score, s.customers[u].verified)])
                else scored.books == s)
            && (if checked.outcome == Done
                then checked.books == s.(customers := s.customers[u := Customer(s.customers[u].score, true)])
                else checked.books == s)
            && (if added.outcome == Done
                then added.books == s.(savings := s.savings + [Savings(u, s.now, Basic, 5_00, 0, 0, AccountActive)])
                else added.books == s)
  {
    hide Run;
  }

  // A limit is set exactly if it covers what is borrowed, to the admissible limit nearest to it;
  // what is borrowed stays unavailable.
  lemma LimitIff(start: Clock, evs: seq<Event>, u: nat, asked: int)
    ensures var s := Run(start, evs);
            var r := SetCreditLimit(s, u, asked);
            && (r.outcome == Done <==>
                  0 <= asked && u < |s.credit| && s.credit[u].borrowed - s.credit[u].repaid <= asked)
            && (r.outcome == Done ==>
                  var (c, c') := (s.credit[u], r.books.credit[u]);
                  && IsNearestLimit(c'.limit, asked)
                  && c' == c.(limit := c'.limit, available := c'.limit - (c.borrowed - c.repaid))
                  && r.books == s.(credit := s.credit[u := c']))
            && (r.outcome != Done ==> r.books == s)
  {
    RunKeepsInv(start, evs);
    OwnersExist(Run(start, evs));
    ClampIsNearest(asked);
    hide Run, Inv, IsNearestLimit, ClampLimit;
  }

  // ---- Requesting a loan ------------------------------------------------------------

  // The account of a request: the named one, or else the customer's earliest active one.
  ghost predicate AccountOfRequest(s: Books, u: nat, specified: Option<nat>, a: nat) {
    && a < |s.savings| && s.savings[a].owner == u && s.savings[a].status == AccountActive
    && (specified.Some? ==> a == specified.value)
    && (specified.None? ==>
          forall b :: 0 <= b < a ==> s.savings[b].owner != u || s.savings[b].status != AccountActive)
  }

  ghost predicate CanRequest(s: Books, u: nat, principal: int, tenor: nat, specified: Option<nat>) {
    && 1_00 <= principal && tenor in {3, 6, 12, 24} && u < |s.customers| && u < |s.credit|
    && principal <= s.credit[u].available
    && (forall l :: 0 <= l < |s.loans| && s.loans[l].user == u ==> s.loans[l].status != Defaulted)
    && (specified.Some? ==> specified.value < |s.savings| && s.savings[specified.value].owner == u
                            && s.savings[specified.value].status == AccountActive)
  }

  ghost predicate AutoApproves(c: Customer, principal: int) {
    principal <= 50_000_00 && c.score >= 300 && c.verified
  }

  // The loan a request stores: total and rows by the flat rate of the tenor, rows due a month apart.
  ghost predicate IsNewLoan(s: Books, loan: Loan, u: nat, a: nat, principal: int, tenor: nat) {
    && u < |s.customers|
    && loan.user == u && loan.account == a && loan.principal == principal && loan.tenor == tenor
    && loan.requested == s.now.date && loan.due == Serial(AddMonths(s.now.date, tenor))
    && loan.outstanding == loan.total && IsTotal(loan.total, principal, tenor)
    && if AutoApproves(s.customers[u], principal) then
         && loan.approval == AutoApproved && loan.status == Disbursed && |loan.rows| == tenor
         && forall i :: 0 <= i < tenor ==>
              var row := loan.rows[i];
              && row == Row(Serial(AddMonths(s.now.date, i + 1)), row.amount, 0, Scheduled, 0)
              && IsInstallment(row.amount, principal, tenor)
       else
         && loan.rows == []
         && loan.approval == (if s.customers[u].score < 200 then ReviewRejected else PendingReview)
         && loan.status == (if s.customers[u].score < 200 then Rejected else Pending)
  }

  // The books after a request: the loan is stored, and if it was approved at once, paid out.
  ghost predicate AfterRequest(s: Books, s': Books, u: nat, a: nat, principal: int, loan: Loan)
    requires u < |s.customers| && u < |s.credit| && a < |s.savings|
  {
    var c := s.credit[u];
    var before := s.savings[a].balance;
    if AutoApproves(s.customers[u], principal) then
      s' == s.(loans := s.loans + [loan],
               savings := Moved(s.savings, a, principal),
               credit := s.credit[u := c.(available := c.available - principal, borrowed := c.borrowed + principal,
                                          outstanding := c.outstanding + principal)],
               ledger := s.ledger + [Txn(u, Some(a), LoanDisbursement, principal, before, before + principal,
                                         TxnCompleted, s.now, Some(|s.loans|))])
    else s' == s.(loans := s.loans + [loan])
  }

  // The account resolved for a request.
  lemma ResolvedForRequest(s: Books, u: nat, specified: Option<nat>)
    requires u < |s.credit| && SavingsOk(s.savings, |s.credit|)
    ensures var target := ResolveAccount(s, u, specified, None);
            && (target.Resolved? <==> specified.Some? ==>
                  specified.value < |s.savings| && s.savings[specified.value].owner == u
                  && s.savings[specified.value].status == AccountActive)
            && (target.Resolved? ==> AccountOfRequest(s, u, specified, target.account))
  {
    if specified.None? {
      var a := SumWitness(s.savings, ActiveOf(u));
    }
  }

  lemma SavingsHold(s: Books)
    requires Inv(s)
    ensures SavingsOk(s.savings, |s.credit|)
  {
  }

  lemma NewRowsInNumbers(loan: Loan, principal: int, tenor: nat)
    requires IsTenor(tenor) && loan.tenor == tenor && loan.principal == principal && 0 <= principal
    ensures var rows := Schedule(loan);
            && |rows| == tenor
            && forall i :: 0 <= i < tenor ==>
                 && rows[i] == Row(Serial(AddMonths(loan.requested, i + 1)), rows[i].amount, 0, Scheduled, 0)
                 && IsInstallment(rows[i].amount, principal, tenor)
  {
    TermsInNumbers(principal, tenor);
    hide Installment, IsInstallment, IsTenor, Serial, AddMonths;
  }

  lemma DecisionInNumbers(c: Customer, principal: int)
    ensures DetermineApproval(principal, c.score, c.verified, false)
         == if AutoApproves(c, principal) then AutoApproved else if c.score < 200 then ReviewRejected else PendingReview
  {
  }

  lemma StoredLoan(s: Books, u: nat, a: nat, principal: int, tenor: nat)
    requires u < |s.customers| && IsTenor(tenor) && 0 <= principal
    ensures var approval := DetermineApproval(principal, s.customers[u].score, s.customers[u].verified, false);
            var loan := RequestedLoan(s, u, a, principal, tenor, approval);
            && (approval == AutoApproved <==> AutoApproves(s.customers[u], principal))
            && loan.user == u && loan.account == a && loan.principal == principal
            && loan.status == InitialStatus(approval)
            && var stored := if approval == AutoApproved then loan.(status := Disbursed) else loan;
               IsNewLoan(s, stored, u, a, principal, tenor)
  {
    DecisionInNumbers(s.customers[u], principal);
    TermsInNumbers(principal, tenor);
    NewRowsInNumbers(NewLoan(s, u, a, principal, tenor, AutoApproved), principal, tenor);
    hide TotalAmount, Schedule, IsTotal, IsInstallment, DetermineApproval, Serial, AddMonths, IsTenor;
  }

  // Money goes out to the linked account.
  lemma PaidOut(s: Books, l: nat)
    requires l < |s.loans| && s.loans[l].status == Approved
    requires s.loans[l].user < |s.customers| && s.loans[l].user < |s.credit| && s.loans[l].account < |s.savings|
    requires s.savings[s.loans[l].account].status == AccountActive
    ensures var (loan, r) := (s.loans[l], DisburseLoan(s, l));
            var (c, before) := (s.credit[loan.user], s.savings[loan.account].balance);
            && r.outcome == Done
            && r.books == s.(loans := s.loans[l := loan.(status := Disbursed)],
                             savings := Moved(s.savings, loan.account, loan.principal),
                             credit := s.credit[loan.user := c.(available := c.available - loan.principal,
                                                                borrowed := c.borrowed + loan.principal,
                                                                outstanding := c.outstanding + loan.principal)],
                             ledger := s.ledger + [Txn(loan.user, Some(loan.account), LoanDisbursement, loan.principal,
                                                       before, before + loan.principal, TxnCompleted, s.now, Some(l))])
  {
    var loan := s.loans[l];
    assert ResolveAccount(s, loan.user, None, Some(loan.account)) == Resolved(loan.account);
    assert loan.(account := loan.account, status := Disbursed) == loan.(status := Disbursed);
    hide ResolveAccount;
  }

  // The request up to the disbursement.
  lemma RequestStores(s: Books, u: nat, principal: int, tenor: nat, specified: Option<nat>)
    requires Inv(s) && CanRequest(s, u, principal, tenor, specified)
    ensures var target := ResolveAccount(s, u, specified, None);
            && target.Resolved? && AccountOfRequest(s, u, specified, target.account)
            && var approval := DetermineApproval(principal, s.customers[u].score, s.customers[u].verified, false);
               var s' := s.(loans := s.loans + [RequestedLoan(s, u, target.account, principal, tenor, approval)]);
               RequestLoan(s, u, principal, tenor, specified)
               == if approval == AutoApproved then DisburseLoan(s', |s.loans|) else Result(s', Done)
  {
    SavingsHold(s);
    ResolvedForRequest(s, u, specified);
    assert !HasDefaulted(s.loans, u);
    hide Inv, SavingsOk, ResolveAccount, RequestedLoan, DetermineApproval, AccountOfRequest, HasDefaulted, DisburseLoan;
  }

  // A loan just stored is paid out.
  lemma StoredAndPaid(s: Books, loan: Loan)
    requires loan.user < |s.customers| && loan.user < |s.credit| && loan.account < |s.savings|
    requires loan.status == Approved && s.savings[loan.account].status == AccountActive
    requires AutoApproves(s.customers[loan.user], loan.principal)
    ensures var r := DisburseLoan(s.(loans := s.loans + [loan]), |s.loans|);
            && r.outcome == Done && |r.books.loans| == |s.loans| + 1
            && r.books.loans[|s.loans|] == loan.(status := Disbursed)
            && AfterRequest(s, r.books, loan.user, loan.account, loan.principal, loan.(status := Disbursed))
  {
    PaidOut(s.(loans := s.loans + [loan]), |s.loans|);
    assert (s.loans + [loan])[|s.loans| := loan.(status := Disbursed)] == s.loans + [loan.(status := Disbursed)];
    hide DisburseLoan, AutoApproves;
  }

  lemma AcceptedRequest(s: Books, u: nat, principal: int, tenor: nat, specified: Option<nat>)
    requires Inv(s) && CanRequest(s, u, principal, tenor, specified)
    ensures var r := RequestLoan(s, u, principal, tenor, specified);
            && r.outcome == Done && |r.books.loans| == |s.loans| + 1
            && exists a :: AccountOfRequest(s, u, specified, a)
                 && IsNewLoan(s, r.books.loans[|s.loans|], u, a, principal, tenor)
                 && AfterRequest(s, r.books, u, a, principal, r.books.loans[|s.loans|])
  {
    RequestStores(s, u, principal, tenor, specified);
    var a := ResolveAccount(s, u, specified, None).account;
    StoredLoan(s, u, a, principal, tenor);
    var approval := DetermineApproval(principal, s.customers[u].score, s.customers[u].verified, false);
    var loan := RequestedLoan(s, u, a, principal, tenor, approval);
    hide Inv, ResolveAccount, RequestedLoan, DetermineApproval, IsNewLoan, AutoApproves, DisburseLoan, RequestLoan;
    if approval == AutoApproved {
      StoredAndPaid(s, loan);
    }
    hide Moved;
  }

  lemma RefusedRequest(s: Books, u: nat, principal: int, tenor: nat, specified: Option<nat>)
    requires Inv(s) && !CanRequest(s, u, principal, tenor, specified)
    ensures RequestLoan(s, u, principal, tenor, specified).outcome != Done
    ensures RequestLoan(s, u, principal, tenor, specified).books == s
  {
    hide Inv, SavingsOk, ResolveAccount, RequestedLoan, DetermineApproval, DisburseLoan, AccountOfRequest;
    SavingsHold(s);
    if u < |s.credit| {
      ResolvedForRequest(s, u, specified);
    }
  }

  // A request is accepted exactly within the available credit of a customer without a defaulted loan,
  // for an offered tenor, naming no account or an active one of the customer's own. It stores the
  // loan on the named or else the earliest active account; at once approved, it is paid into that
  // account, and only there.
  lemma RequestIff(start: Clock, evs: seq<Event>, u: nat, principal: int, tenor: nat, specified: Option<nat>)
    ensures var s := Run(start, evs);
            var r := RequestLoan(s, u, principal, tenor, specified);
            && (r.outcome == Done <==> CanRequest(s, u, principal, tenor, specified))
            && (r.outcome == Done ==>
                  && |r.books.loans| == |s.loans| + 1
                  && exists a :: AccountOfRequest(s, u, specified, a)
                       && IsNewLoan(s, r.books.loans[|s.loans|], u, a, principal, tenor)
                       && AfterRequest(s, r.books, u, a, principal, r.books.loans[|s.loans|]))
            && (r.outcome != Done ==> r.books == s)
  {
    var s := Run(start, evs);
    RunKeepsInv(start, evs);
    hide Run, Inv, RequestLoan, IsNewLoan, AfterRequest, AccountOfRequest;
    if CanRequest(s, u, principal, tenor, specified) {
      AcceptedRequest(s, u, principal, tenor, specified);
    } else {
      RefusedRequest(s, u, principal, tenor, specified);
    }
  }

  // ---- Review and disbursement ------------------------------------------------------

  // A review is accepted exactly while the loan waits for one, and changes nothing but its two
  // status fields.
  lemma ReviewIff(start: Clock, evs: seq<Event>, l: nat)
    ensures var s := Run(start, evs);
            var (approved, rejected) := (ApproveLoan(s, l), RejectLoan(s, l));
            if l < |s.loans| && s.loans[l].status == Pending then
              && var yes := s.loans[l].(approval := ManualApproved, status := Approved);
                 var no := s.loans[l].(approval := ReviewRejected, status := Rejected);
              && approved == Result(s.(loans := s.loans[l := yes]), Done)
              && rejected == Result(s.(loans := s.loans[l := no]), Done)
            else
              approved.outcome != Done && rejected.outcome != Done && approved.books == s && rejected.books == s
  {
    var s := Run(start, evs);
    RunKeepsInv(start, evs);
    if l < |s.loans| {
      assert LoanOk(s.loans[l], s.Today());
    }
    hide Run, Inv, TermsOk, RowsOk, StatusMeaning;
  }

  // The books after a loan was paid out to its linked account.
  ghost predicate AfterDisbursement(s: Books, s': Books, l: nat)
    requires l < |s.loans| && s.loans[l].user < |s.credit| && s.loans[l].account < |s.savings|
  {
    var loan := s.loans[l];
    var (c, before) := (s.credit[loan.user], s.savings[loan.account].balance);
    s' == s.(loans := s.loans[l := loan.(status := Disbursed)],
             savings := Moved(s.savings, loan.account, loan.principal),
             credit := s.credit[loan.user := c.(available := c.available - loan.principal,
                                                borrowed := c.borrowed + loan.principal,
                                                outstanding := c.outstanding + loan.principal)],
             ledger := s.ledger + [Txn(loan.user, Some(loan.account), LoanDisbursement, loan.principal,
                                       before, before + loan.principal, TxnCompleted, s.now, Some(l))])
  }

  // An approved loan in store was approved by hand, and its account can take the money.
  lemma ApprovedByHand(s: Books, l: nat)
    requires Inv(s) && l < |s.loans| && s.loans[l].status == Approved
    ensures s.loans[l].approval == ManualApproved
    ensures s.loans[l].user < |s.customers| && s.loans[l].user < |s.credit| && s.loans[l].account < |s.savings|
    ensures s.savings[s.loans[l].account].status == AccountActive
  {
    assert LoanOk(s.loans[l], s.Today());
    LinksHold(s);
    hide LoansOk, SavingsOk, LedgerOk, LoanBooksOk, CreditOk, CustomersOk, TermsOk, RowsOk, StatusMeaning;
  }

  lemma DisbursementOf(s: Books, l: nat)
    requires Inv(s)
    ensures var r := DisburseLoan(s, l);
            if l < |s.loans| && s.loans[l].approval == ManualApproved && s.loans[l].status == Approved then
              && s.loans[l].user < |s.credit| && s.loans[l].account < |s.savings|
              && r.outcome == Done && AfterDisbursement(s, r.books, l)
            else r.outcome != Done && r.books == s
  {
    hide Inv, Moved, ResolveAccount, Disbursement;
    if l < |s.loans| && s.loans[l].status == Approved {
      ApprovedByHand(s, l);
      PaidOut(s, l);
      hide DisburseLoan;
    }
  }

  // A loan is paid out exactly once it was approved by hand and before it was paid out; the whole
  // principal goes to the account it is linked to.
  lemma DisburseIff(start: Clock, evs: seq<Event>, l: nat)
    ensures var s := Run(start, evs);
            var r := DisburseLoan(s, l);
            if l < |s.loans| && s.loans[l].approval == ManualApproved && s.loans[l].status == Approved then
              && s.loans[l].user < |s.credit| && s.loans[l].account < |s.savings|
              && r.outcome == Done && AfterDisbursement(s, r.books, l)
            else r.outcome != Done && r.books == s
  {
    var s := Run(start, evs);
    RunKeepsInv(start, evs);
    hide Run, AfterDisbursement;
    DisbursementOf(s, l);
  }

  // ---- Repayment --------------------------------------------------------------------

  // The entry of a repayment of loan l out of account a. It records the balance before twice.
  ghost function RepaymentEntry(s: Books, l: nat, a: nat, amount: int, status: TxnStatus): Txn
    requires l < |s.loans| && a < |s.savings|
  {
    var before := s.savings[a].balance;
    Txn(s.loans[l].user, Some(a), LoanRepayment, amount, before, before, status, s.now, Some(l))
  }

  // The books after a repayment out of account a: that account alone pays, and the customer's
  // credit line alone gains.
  ghost predicate AfterRepayment(s: Books, s': Books, l: nat, a: nat, amount: int)
    requires l < |s.loans| && s.loans[l].user < |s.credit| && a < |s.savings|
  {
    var (u, c) := (s.loans[l].user, s.credit[s.loans[l].user]);
    && |s'.loans| == |s.loans| && s'.loans[l].outstanding == s.loans[l].outstanding - amount
    && s'.loans[l].status == (if amount == s.loans[l].outstanding then FullyPaid else Active)
    && s'.loans[l] == s.loans[l].(rows := s'.loans[l].rows, status := s'.loans[l].status,
                                  outstanding := s'.loans[l].outstanding)
    && s' == s.(loans := s.loans[l := s'.loans[l]],
                savings := Moved(s.savings, a, -amount),
                credit := s.credit[u := c.(available := c.available + amount, repaid := c.repaid + amount,
                                           outstanding := c.outstanding - amount)],
                ledger := s.ledger + [RepaymentEntry(s, l, a, amount, TxnCompleted)])
  }

  // All that is asked of a repayment, except that the money is there.
  ghost predicate MayRepay(s: Books, u: nat, l: nat, amount: int, specified: Option<nat>) {
    && l < |s.loans| && s.loans[l].user == u && s.loans[l].status in {Active, Disbursed}
    && 1_00 <= amount <= s.loans[l].outstanding
    && (exists i :: 0 <= i < |s.loans[l].rows| && s.loans[l].rows[i].Unpaid())
    && (specified.Some? ==> specified.value < |s.savings| && s.savings[specified.value].owner == u
                            && s.savings[specified.value].status == AccountActive)
  }

  lemma Repaid(s: Books, u: nat, l: nat, amount: int, specified: Option<nat>)
    requires MayRepay(s, u, l, amount, specified) && u < |s.customers| && u < |s.credit|
    requires ResolveAccount(s, u, specified, Some(s.loans[l].account))
          == Resolved(LoanTheorems.SourceOf(s.loans[l], specified))
    requires TargetRow(s.loans[l].rows) < |s.loans[l].rows|
    ensures var (r, a) := (RepayLoan(s, u, l, amount, specified), LoanTheorems.SourceOf(s.loans[l], specified));
            if amount <= s.savings[a].balance then r.outcome == Done && AfterRepayment(s, r.books, l, a, amount)
            else
              && r.outcome == Refused(InsufficientBalance)
              && r.books == s.(ledger := s.ledger + [RepaymentEntry(s, l, a, amount, TxnPending)])
  {
    hide ResolveAccount, TargetRow, PayRow;
  }

  lemma RepaymentOf(s: Books, u: nat, l: nat, amount: int, specified: Option<nat>)
    requires Inv(s)
    ensures var r := RepayLoan(s, u, l, amount, specified);
            if MayRepay(s, u, l, amount, specified) then
              var a := LoanTheorems.SourceOf(s.loans[l], specified);
              && u < |s.credit| && a < |s.savings|
              && if amount <= s.savings[a].balance then r.outcome == Done && AfterRepayment(s, r.books, l, a, amount)
                 else
                   && r.outcome == Refused(InsufficientBalance)
                   && r.books == s.(ledger := s.ledger + [RepaymentEntry(s, l, a, amount, TxnPending)])
            else r.outcome != Done && r.books == s
  {
    LinksHold(s);
    OwnersExist(s);
    hide Inv;
    if l < |s.loans| && s.loans[l].user == u && s.loans[l].status in {Active, Disbursed} {
      LoanTheorems.ResolvesToSource(s, l, specified);
      if i :| 0 <= i < |s.loans[l].rows| && s.loans[l].rows[i].Unpaid() {
        assert TargetRow(s.loans[l].rows) < |s.loans[l].rows|;
      }
      if MayRepay(s, u, l, amount, specified) {
        Repaid(s, u, l, amount, specified);
      } else {
        hide ResolveAccount, TargetRow, Repayment, Entry, LinksOk;
      }
    }
  }

  // A repayment takes the money from the named account, or else from the loan's own; if that account
  // does not hold it, one pending entry for that account is all that remains; any other refusal
  // leaves nothing.
  lemma RepayIff(start: Clock, evs: seq<Event>, u: nat, l: nat, amount: int, specified: Option<nat>)
    ensures var s := Run(start, evs);
            var r := RepayLoan(s, u, l, amount, specified);
            if MayRepay(s, u, l, amount, specified) then
              var a := LoanTheorems.SourceOf(s.loans[l], specified);
              && u < |s.credit| && a < |s.savings|
              && if amount <= s.savings[a].balance then r.outcome == Done && AfterRepayment(s, r.books, l, a, amount)
                 else
                   && r.outcome == Refused(InsufficientBalance)
                   && r.books == s.(ledger := s.ledger + [RepaymentEntry(s, l, a, amount, TxnPending)])
            else r.outcome != Done && r.books == s
  {
    var s := Run(start, evs);
    RunKeepsInv(start, evs);
    hide Run, AfterRepayment, MayRepay, RepayLoan;
    RepaymentOf(s, u, l, amount, specified);
  }

  // ---- The clock --------------------------------------------------------------------

  // The clock moves to any reading that is no earlier, to the millisecond.
  lemma AdvanceIff(s: Books, to: Clock)
    ensures Advance(s, to) == if Instant(s.now) <= Instant(to) then Result(s.(now := to), Done)
                              else Refuse(s, ClockMovedBack)
  {
    hide Serial;
  }
}
