// Runs: any finite sequence of requests, clock readings and nightly jobs, in any order.
module Runs {
  import Calendar
  import opened Model
  import opened Operations
  import opened Invariants
  import opened Preservation

  // The interest job carries the order in which its query returns the accounts, the default job
  // how the ORM hands out user objects: one for all the rows of a customer, or one for each row.
  datatype Event =
    | DoRegister(initialLimit: int)
    | DoVerifyCustomer(user: nat)
    | DoSetCreditScore(user: nat, score: int)
    | DoOpenSavings(user: nat)
    | DoDeposit(user: nat, account: nat, amount: int)
    | DoWithdraw(user: nat, account: nat, amount: int)
    | DoCloseSavings(user: nat, account: nat)
    | DoSetCreditLimit(user: nat, newLimit: int)
    | DoRequestLoan(user: nat, principal: int, tenor: nat, specified: Option<nat>)
    | DoApproveLoan(loan: nat)
    | DoRejectLoan(loan: nat)
    | DoDisburseLoan(loan: nat)
    | DoRepayLoan(user: nat, loan: nat, amount: int, specified: Option<nat>)
    | DoAdvance(to: Calendar.Clock)
    | DoAccrueInterest(order: seq<nat>)
    | DoMarkOverdue
    | DoApplyLateFees
    | DoDefaultLoans(shared: bool)
    | DoEvaluateTiers

  function Apply(s: Books, e: Event): Result {
    match e
    case DoRegister(limit) => Register(s, limit)
    case DoVerifyCustomer(u) => VerifyCustomer(s, u)
    case DoSetCreditScore(u, score) => SetCreditScore(s, u, score)
    case DoOpenSavings(u) => OpenSavings(s, u)
    case DoDeposit(u, a, amount) => MakeDeposit(s, u, a, amount)
    case DoWithdraw(u, a, amount) => Withdraw(s, u, a, amount)
    case DoCloseSavings(u, a) => CloseSavings(s, u, a)
    case DoSetCreditLimit(u, limit) => SetCreditLimit(s, u, limit)
    case DoRequestLoan(u, p, tenor, a) => RequestLoan(s, u, p, tenor, a)
    case DoApproveLoan(l) => ApproveLoan(s, l)
    case DoRejectLoan(l) => RejectLoan(s, l)
    case DoDisburseLoan(l) => DisburseLoan(s, l)
    case DoRepayLoan(u, l, amount, a) => RepayLoan(s, u, l, amount, a)
    case DoAdvance(to) => Advance(s, to)
    case DoAccrueInterest(order) => AccrueInterest(s, order)
    case DoMarkOverdue => Result(MarkOverdue(s), Done)
    case DoApplyLateFees => Result(ApplyLateFees(s), Done)
    case DoDefaultLoans(shared) => Result(DefaultLoans(s, shared), Done)
    case DoEvaluateTiers => Result(EvaluateTiers(s), Done)
  }

  function Step(s: Books, e: Event): Books {
    Apply(s, e).books
  }

  function Continue(s: Books, evs: seq<Event>): Books {
    if evs == [] then s else Step(Continue(s, evs[..|evs| - 1]), evs[|evs| - 1])
  }

  function Run(start: Calendar.Clock, evs: seq<Event>): Books {
    Continue(EmptyBooks(start), evs)
  }

  lemma StepKeepsInv(s: Books, e: Event)
    requires Inv(s)
    ensures Inv(Step(s, e))
  {
    hide Inv, Register, OpenSavings, MakeDeposit, Withdraw, CloseSavings, SetCreditLimit, RequestLoan, ApproveLoan,
      RejectLoan, DisburseLoan, RepayLoan, Advance, AccrueInterest, MarkOverdue, ApplyLateFees, DefaultLoans,
      EvaluateTiers;
    match e
    case DoRegister(limit) => RegisterKeeps(s, limit);
    case DoVerifyCustomer(u) => CustomersKeep(s, u, 0);
    case DoSetCreditScore(u, score) => CustomersKeep(s, u, score);
    case DoOpenSavings(u) => OpenSavingsKeeps(s, u);
    case DoDeposit(u, a, amount) => MakeDepositKeeps(s, u, a, amount);
    case DoWithdraw(u, a, amount) => WithdrawKeeps(s, u, a, amount);
    case DoCloseSavings(u, a) => CloseSavingsKeeps(s, u, a);
    case DoSetCreditLimit(u, limit) => SetCreditLimitKeeps(s, u, limit);
    case DoRequestLoan(u, p, tenor, a) => RequestLoanKeeps(s, u, p, tenor, a);
    case DoApproveLoan(l) => ApproveLoanKeeps(s, l);
    case DoRejectLoan(l) => RejectLoanKeeps(s, l);
    case DoDisburseLoan(l) => DisburseLoanKeeps(s, l);
    case DoRepayLoan(u, l, amount, a) => RepayLoanKeeps(s, u, l, amount, a);
    case DoAdvance(to) => AdvanceKeeps(s, to);
    case DoAccrueInterest(order) => AccrueInterestKeeps(s, order);
    case DoMarkOverdue => MarkOverdueKeeps(s);
    case DoApplyLateFees => ApplyLateFeesKeeps(s);
    case DoDefaultLoans(shared) => DefaultLoansKeeps(s, shared);
    case DoEvaluateTiers => EvaluateTiersKeeps(s);
  }

  lemma {:induction false} ContinueKeepsInv(s: Books, evs: seq<Event>)
    requires Inv(s)
    ensures Inv(Continue(s, evs))
  {
    hide Inv;
    if evs == [] {
    } else {
      ContinueKeepsInv(s, evs[..|evs| - 1]);
      StepKeepsInv(Continue(s, evs[..|evs| - 1]), evs[|evs| - 1]);
    }
  }

  // Every reachable state satisfies the whole invariant.
  lemma RunKeepsInv(start: Calendar.Clock, evs: seq<Event>)
    ensures Inv(Run(start, evs))
  {
    ContinueKeepsInv(EmptyBooks(start), evs);
  }
}
