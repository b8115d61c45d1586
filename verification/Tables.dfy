// How each table's invariant survives one elementary write.
module Tables {
  import Calendar
  import opened Sums
  import opened Model
  import opened Operations
  import opened Invariants

  // ---- Savings ----------------------------------------------------------------------

  lemma SavingsUpdated(savings: seq<Savings>, users: nat, a: nat, acc: Savings)
    requires SavingsOk(savings, users) && a < |savings|
    requires acc.owner == savings[a].owner && acc.status == savings[a].status
    requires 0 <= acc.balance && 0 <= acc.accrued && acc.rate == TierRate(acc.tier)
    requires acc.status == AccountClosed ==> acc.balance == 0
    ensures SavingsOk(savings[a := acc], users)
  {
    forall u | 0 <= u < users ensures Sum(savings[a := acc], ActiveOf(u)) >= 1 {
      SumUpdate(savings, a, acc, ActiveOf(u));
    }
  }

  lemma SavingsOpened(savings: seq<Savings>, users: nat, u: nat, at: Calendar.Clock)
    requires SavingsOk(savings, users) && u < users
    ensures SavingsOk(savings + [NewSavings(u, at)], users)
  {
  }

  lemma SavingsClosed(savings: seq<Savings>, users: nat, a: nat)
    requires SavingsOk(savings, users) && a < |savings|
    requires Sum(savings, ActiveOf(savings[a].owner)) > 1 && savings[a].balance <= 0
    ensures SavingsOk(savings[a := savings[a].(status := AccountClosed)], users)
  {
    var closed := savings[a].(status := AccountClosed);
    forall u | 0 <= u < users ensures Sum(savings[a := closed], ActiveOf(u)) >= 1 {
      SumUpdate(savings, a, closed, ActiveOf(u));
    }
  }

  lemma SavingsRegistered(savings: seq<Savings>, users: nat, at: Calendar.Clock)
    requires SavingsOk(savings, users)
    ensures SavingsOk(savings + [NewSavings(users, at)], users + 1)
  {
    var acc := NewSavings(users, at);
    forall u | 0 <= u < users + 1 ensures Sum(savings + [acc], ActiveOf(u)) >= 1 {
      SumAppend(savings, acc, ActiveOf(u));
      if u == users {
        SumZero(savings, ActiveOf(u));
      }
    }
  }

  // ---- Ledger -----------------------------------------------------------------------

  lemma LedgerSameBalances(savings: seq<Savings>, savings': seq<Savings>, ledger: seq<Txn>)
    requires LedgerOk(savings, ledger) && |savings| == |savings'|
    requires forall a :: 0 <= a < |savings| ==>
               savings'[a].balance == savings[a].balance && savings'[a].owner == savings[a].owner
    ensures LedgerOk(savings', ledger)
  {
  }

  lemma LedgerAccountOpened(savings: seq<Savings>, ledger: seq<Txn>, u: nat, at: Calendar.Clock)
    requires LedgerOk(savings, ledger)
    ensures LedgerOk(savings + [NewSavings(u, at)], ledger)
  {
    SumZero(ledger, BalanceFlow(|savings|));
  }

  lemma LedgerExtended(savings: seq<Savings>, savings': seq<Savings>, ledger: seq<Txn>, t: Txn)
    requires LedgerOk(savings, ledger) && |savings| == |savings'|
    requires TxnOk(t, savings, ledger)
    requires forall a :: 0 <= a < |savings| ==>
               savings'[a].balance == savings[a].balance + BalanceFlow(a)(t)
               && savings'[a].owner == savings[a].owner
    ensures LedgerOk(savings', ledger + [t])
  {
    forall a | 0 <= a < |savings'| ensures savings'[a].balance == Sum(ledger + [t], BalanceFlow(a)) {
      SumAppend(ledger, t, BalanceFlow(a));
    }
    forall i | 0 <= i < |ledger + [t]| ensures TxnOk((ledger + [t])[i], savings', (ledger + [t])[..i]) {
      assert (ledger + [t])[..i] == ledger[..i];
      assert i == |ledger| ==> ledger[..i] == ledger;
    }
  }

  // ---- Loan and credit books --------------------------------------------------------

  ghost predicate Neutral(t: Txn) {
    t.status != TxnCompleted || (t.kind != LoanDisbursement && t.kind != LoanRepayment)
  }

  // A transaction that moves no loan money changes no loan's and no credit account's book.
  lemma BooksIgnoreNeutral(credit: seq<Credit>, loans: seq<Loan>, ledger: seq<Txn>, t: Txn)
    requires LoanBooksOk(loans, ledger) && CreditOk(credit, loans, ledger)
    requires Neutral(t) && TagOk(t, loans)
    ensures LoanBooksOk(loans, ledger + [t]) && CreditOk(credit, loans, ledger + [t])
  {
    forall l | 0 <= l < |loans| ensures LoanBook(l, loans[l], ledger + [t]) {
      LoanTotalsAfter(l, ledger, t);
    }
    forall u | 0 <= u < |credit| ensures CreditBook(u, credit[u], loans, ledger + [t]) {
      UserTotalsAfter(u, ledger, t);
    }
  }

  lemma LoanTotalsAfter(l: nat, ledger: seq<Txn>, t: Txn)
    ensures forall k :: Sum(ledger + [t], LoanFlow(l, k)) == Sum(ledger, LoanFlow(l, k)) + LoanFlow(l, k)(t)
    ensures forall k :: Sum(ledger + [t], LoanCount(l, k)) == Sum(ledger, LoanCount(l, k)) + LoanCount(l, k)(t)
  {
  }

  lemma UserTotalsAfter(u: nat, ledger: seq<Txn>, t: Txn)
    ensures forall k :: Sum(ledger + [t], UserFlow(u, k)) == Sum(ledger, UserFlow(u, k)) + UserFlow(u, k)(t)
  {
  }

  // The customer's totals over the loan table after one loan is replaced.
  lemma LoanTableTotals(loans: seq<Loan>, l: nat, loan: Loan, u: nat)
    requires l < |loans|
    ensures Sum(loans[l := loan], BorrowedBy(u))
         == Sum(loans, BorrowedBy(u)) - BorrowedBy(u)(loans[l]) + BorrowedBy(u)(loan)
    ensures Sum(loans[l := loan], RepaidBy(u))
         == Sum(loans, RepaidBy(u)) - RepaidBy(u)(loans[l]) + RepaidBy(u)(loan)
    ensures Sum(loans[l := loan], ManuallyLentTo(u))
         == Sum(loans, ManuallyLentTo(u)) - ManuallyLentTo(u)(loans[l]) + ManuallyLentTo(u)(loan)
  {
    SumUpdate(loans, l, loan, BorrowedBy(u));
    SumUpdate(loans, l, loan, RepaidBy(u));
    SumUpdate(loans, l, loan, ManuallyLentTo(u));
  }

  // Rewriting loans without changing what they owe, what they lent, or how they were
  // approved leaves every book as it was.
  ghost predicate SameDebt(loan: Loan, loan': Loan) {
    && loan'.user == loan.user && loan'.principal == loan.principal
    && loan'.total == loan.total && loan'.outstanding == loan.outstanding
    && Lent(loan'.status) == Lent(loan.status)
    && (Lent(loan.status) ==> loan'.approval == loan.approval)
    && |loan'.rows| == |loan.rows|
    && forall i :: 0 <= i < |loan.rows| ==> loan'.rows[i].Unpaid() == loan.rows[i].Unpaid()
  }

  lemma BooksIgnoreSameDebt(credit: seq<Credit>, loans: seq<Loan>, loans': seq<Loan>, ledger: seq<Txn>)
    requires LoanBooksOk(loans, ledger) && CreditOk(credit, loans, ledger) && |loans'| == |loans|
    requires forall l :: 0 <= l < |loans| ==> SameDebt(loans[l], loans'[l])
    ensures LoanBooksOk(loans', ledger) && CreditOk(credit, loans', ledger)
  {
    forall l | 0 <= l < |loans'| ensures LoanBook(l, loans'[l], ledger) {
      SumSame(loans[l].rows, loans'[l].rows, SettledOf(), SettledOf());
    }
    forall u | 0 <= u < |credit| ensures CreditBook(u, credit[u], loans', ledger) {
      SumSame(loans, loans', BorrowedBy(u), BorrowedBy(u));
      SumSame(loans, loans', RepaidBy(u), RepaidBy(u));
      SumSame(loans, loans', ManuallyLentTo(u), ManuallyLentTo(u));
    }
  }
}
