// One identity across every table: all the money in savings came from deposits, interest and
// loans still owed.
module Conservation {
  import Calendar
  import opened Sums
  import opened Model
  import opened Invariants
  import opened Runs

  ghost function BalanceOf(): Savings -> int { (acc: Savings) => acc.balance }

  ghost function OwedOf(): Credit -> int { (c: Credit) => c.outstanding }

  // Completed amounts of one kind, over the whole ledger.
  ghost function KindFlow(k: Kind): Txn -> int {
    (t: Txn) => if t.kind == k && t.status == TxnCompleted then t.amount else 0
  }

  // Signed flow of the accounts before n, and net lending to the customers before n.
  ghost function FlowBelow(n: nat): Txn -> int {
    (t: Txn) =>
      if t.account.Some? && t.account.value < n && t.status == TxnCompleted then SignedAmount(t.kind, t.amount) else 0
  }

  // What a transaction adds to the debt of its customer.
  ghost function Lending(t: Txn): int {
    if t.status != TxnCompleted then 0
    else if t.kind == LoanDisbursement then t.amount
    else if t.kind == LoanRepayment then -t.amount
    else 0
  }

  ghost function NetLending(): Txn -> int { (t: Txn) => Lending(t) }

  ghost function NetLendingBelow(n: nat): Txn -> int { (t: Txn) => if t.user < n then Lending(t) else 0 }

  ghost function NetLendingTo(u: nat): Txn -> int { (t: Txn) => if t.user == u then Lending(t) else 0 }

  lemma {:induction false} BalancesAddUp(savings: seq<Savings>, ledger: seq<Txn>, n: nat)
    requires n <= |savings|
    requires forall a :: 0 <= a < |savings| ==> savings[a].balance == Sum(ledger, BalanceFlow(a))
    ensures Sum(savings[..n], BalanceOf()) == Sum(ledger, FlowBelow(n))
  {
    if n == 0 {
      SumZero(ledger, FlowBelow(0));
    } else {
      BalancesAddUp(savings, ledger, n - 1);
      assert savings[..n] == savings[..n - 1] + [savings[n - 1]];
      SumAppend(savings[..n - 1], savings[n - 1], BalanceOf());
      SumAdd(ledger, FlowBelow(n - 1), BalanceFlow(n - 1), FlowBelow(n));
    }
  }

  // What the ledger lent to one customer, net.
  ghost function NetLentTo(ledger: seq<Txn>, u: nat): int {
    Sum(ledger, UserFlow(u, LoanDisbursement)) - Sum(ledger, UserFlow(u, LoanRepayment))
  }

  lemma OneCustomerMore(ledger: seq<Txn>, n: nat)
    ensures Sum(ledger, NetLendingBelow(n + 1)) == Sum(ledger, NetLendingBelow(n)) + NetLentTo(ledger, n)
  {
    SumAdd(ledger, NetLendingTo(n), UserFlow(n, LoanRepayment), UserFlow(n, LoanDisbursement));
    SumAdd(ledger, NetLendingBelow(n), NetLendingTo(n), NetLendingBelow(n + 1));
  }

  lemma {:induction false} DebtsAddUp(credit: seq<Credit>, ledger: seq<Txn>, n: nat)
    requires n <= |credit|
    requires forall u :: 0 <= u < |credit| ==> credit[u].outstanding == NetLentTo(ledger, u)
    ensures Sum(credit[..n], OwedOf()) == Sum(ledger, NetLendingBelow(n))
  {
    hide NetLentTo;
    if n == 0 {
      SumZero(ledger, NetLendingBelow(0));
    } else {
      hide NetLendingBelow;
      DebtsAddUp(credit, ledger, n - 1);
      OneCustomerMore(ledger, n - 1);
      assert credit[..n] == credit[..n - 1] + [credit[n - 1]];
      SumAppend(credit[..n - 1], credit[n - 1], OwedOf());
      assert OwedOf()(credit[n - 1]) == NetLentTo(ledger, n - 1);
      hide Sum, OwedOf;
    }
  }

  ghost function InMinusOut(): Txn -> int {
    (t: Txn) =>
      if t.status != TxnCompleted then 0
      else if t.kind == Deposit then t.amount
      else if t.kind == Withdrawal then -t.amount
      else 0
  }

  ghost function WithInterest(): Txn -> int {
    (t: Txn) => InMinusOut()(t) + KindFlow(InterestCredit)(t)
  }

  lemma LedgerByKind(ledger: seq<Txn>, n: nat)
    requires forall i :: 0 <= i < |ledger| ==>
               ledger[i].account.Some? && ledger[i].account.value < n
               && ledger[i].kind != FeeCharge && ledger[i].kind != LateFeeCharge
    ensures Sum(ledger, FlowBelow(n))
         == Sum(ledger, KindFlow(Deposit)) - Sum(ledger, KindFlow(Withdrawal))
            + Sum(ledger, KindFlow(InterestCredit)) + Sum(ledger, NetLending())
  {
    SumAdd(ledger, InMinusOut(), KindFlow(Withdrawal), KindFlow(Deposit));
    SumAdd(ledger, InMinusOut(), KindFlow(InterestCredit), WithInterest());
    SumAdd(ledger, WithInterest(), NetLending(), FlowBelow(n));
  }

  // In every reachable state: the savings of all customers together are all deposits less all
  // withdrawals, plus all interest credited, plus what all customers still owe on their
  // credit accounts. (A customer who repaid interest owes a negative amount there.)
  lemma MoneyIsConserved(start: Calendar.Clock, evs: seq<Event>)
    ensures var s := Run(start, evs);
            Sum(s.savings, BalanceOf())
            == Sum(s.ledger, KindFlow(Deposit)) - Sum(s.ledger, KindFlow(Withdrawal))
               + Sum(s.ledger, KindFlow(InterestCredit)) + Sum(s.credit, OwedOf())
  {
    var s := Run(start, evs);
    RunKeepsInv(start, evs);
    assert forall u :: 0 <= u < |s.credit| ==> CreditBook(u, s.credit[u], s.loans, s.ledger);
    assert forall i :: 0 <= i < |s.ledger| ==> TxnOk(s.ledger[i], s.savings, s.ledger[..i]);
    hide LoanOk, LoanBook;
    BalancesAddUp(s.savings, s.ledger, |s.savings|);
    DebtsAddUp(s.credit, s.ledger, |s.credit|);
    LedgerByKind(s.ledger, |s.savings|);
    SumSame(s.ledger, s.ledger, NetLending(), NetLendingBelow(|s.credit|));
    assert s.savings[..|s.savings|] == s.savings && s.credit[..|s.credit|] == s.credit;
  }
}
