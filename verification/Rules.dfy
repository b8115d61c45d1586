// The rules of the bank in plain numbers. Theorems about whole runs use these, so that what the
// tables and rates compute is compared with what the bank's documents promise.
module Rules {
  import opened Model
  import Calendar
  import Money

  // ---- Tiers ------------------------------------------------------------------------

  function Rank(t: Tier): (r: nat)
    ensures r < 4
  {
    match t
    case Basic => 0
    case Silver => 1
    case Gold => 2
    case Platinum => 3
  }

  // BASIC, SILVER, GOLD and PLATINUM, in cents.
  const DAILY_DEPOSITS: seq<int> := [100_000_00, 500_000_00, 2_000_000_00, 10_000_000_00]
  const DAILY_WITHDRAWALS: seq<int> := [50_000_00, 200_000_00, 1_000_000_00, 5_000_000_00]
  const MONTHLY_WITHDRAWALS: seq<int> := [500_000_00, 2_000_000_00, 10_000_000_00, 50_000_000_00]

  // In hundredths of a percent a year.
  const RATES: seq<int> := [5_00, 5_50, 6_00, 7_00]

  lemma TierTable(t: Tier)
    ensures DailyDepositLimit(t) == DAILY_DEPOSITS[Rank(t)]
    ensures DailyWithdrawalLimit(t) == DAILY_WITHDRAWALS[Rank(t)]
    ensures MonthlyWithdrawalLimit(t) == MONTHLY_WITHDRAWALS[Rank(t)]
    ensures TierRate(t) == RATES[Rank(t)]
  {
  }

  // ---- Rounding ---------------------------------------------------------------------

  // r is the whole number nearest to num / den, a half rounded up.
  predicate Rounds(r: int, num: int, den: int) {
    -den < 2 * (den * r - num) <= den
  }

  lemma RoundRounds(num: int, den: int)
    requires den > 0 && num >= 0
    ensures Rounds(Money.Round(num, den), num, den)
  {
    Money.DivBounds(2 * num + den, 2 * den);
    var q := (2 * num + den) / (2 * den);
    assert 2 * den * q == 2 * (den * q);
  }

  lemma OnlyOneRounds(r: int, r': int, num: int, den: int)
    requires den > 0 && Rounds(r, num, den) && Rounds(r', num, den)
    ensures r == r'
  {
    assert den * (r - r') == den * r - den * r';
    assert den * (r' - r) == den * r' - den * r;
    Money.FactorSign(den, r - r');
    Money.FactorSign(den, r' - r);
  }

  // ---- Loans ------------------------------------------------------------------------

  // 5%, 8%, 12% or 18% on the principal, for the whole tenor.
  predicate IsTotal(total: int, principal: int, tenor: nat) {
    && (tenor == 3 ==> Rounds(total, 105 * principal, 100))
    && (tenor == 6 ==> Rounds(total, 108 * principal, 100))
    && (tenor == 12 ==> Rounds(total, 112 * principal, 100))
    && (tenor == 24 ==> Rounds(total, 118 * principal, 100))
  }

  // The same amount, in equal parts, one a month.
  predicate IsInstallment(amount: int, principal: int, tenor: nat) {
    && (tenor == 3 ==> Rounds(amount, 105 * principal, 3 * 100))
    && (tenor == 6 ==> Rounds(amount, 108 * principal, 6 * 100))
    && (tenor == 12 ==> Rounds(amount, 112 * principal, 12 * 100))
    && (tenor == 24 ==> Rounds(amount, 118 * principal, 24 * 100))
  }

  lemma TermsInNumbers(principal: int, tenor: nat)
    requires 0 <= principal && IsTenor(tenor)
    ensures tenor in {3, 6, 12, 24}
    ensures IsTotal(TotalAmount(principal, tenor), principal, tenor)
    ensures IsInstallment(Installment(principal, tenor), principal, tenor)
  {
    var owed := principal * (100 + InterestPercent(tenor));
    RoundRounds(owed, 100);
    RoundRounds(owed, 100 * tenor);
    hide Money.Round;
  }

  // 1,000 francs or 2% of the installment, whichever is more, but no more than 5% of the principal.
  predicate IsLateFee(fee: int, installment: int, principal: int) {
    if 5 * principal <= 100 * 1_000_00 || 5 * principal <= 2 * installment then Rounds(fee, 5 * principal, 100)
    else if 2 * installment <= 100 * 1_000_00 then fee == 1_000_00
    else Rounds(fee, 2 * installment, 100)
  }

  lemma FeeInNumbers(installment: int, principal: int)
    requires 1_00 <= principal
    ensures IsLateFee(SavedFee(installment, principal), installment, principal)
    ensures 0 < SavedFee(installment, principal) && 100 * SavedFee(installment, principal) <= 5 * principal + 50
  {
    var fee := CappedFee(installment, principal);
    assert 0 < fee <= 5 * principal;
    RoundRounds(fee, 100);
    Money.RoundAtLeast(fee, 100, 1);
    if fee == 100 * 1_000_00 {
      Money.RoundExact(1_000_00, 100);
    }
    hide Money.Round;
  }

  // ---- Limits of credit -------------------------------------------------------------

  // The admissible limit nearest to the one asked for.
  predicate IsNearestLimit(limit: int, asked: int) {
    && 50_000_00 <= limit <= 10_000_000_00
    && (limit < asked ==> limit == 10_000_000_00)
    && (asked < limit ==> limit == 50_000_00)
  }

  lemma ClampIsNearest(asked: int)
    ensures IsNearestLimit(ClampLimit(asked), asked)
  {
  }

  // ---- The calendar -----------------------------------------------------------------

  // The last day of a month is the one whose number is the length of the month.
  lemma LastDayIff(d: Calendar.Date)
    ensures Calendar.IsLastDayOfMonth(d) <==> d.day == Calendar.DaysInMonth(d.month)
  {
  }

  const MONTH_LENGTHS: seq<int> := [31, 28, 31, 30, 31, 30, 31, 31, 30, 31, 30, 31]

  lemma Quarter(m: nat)
    ensures Calendar.MonthStart(m + 3)
         == Calendar.MonthStart(m)
            + Calendar.DaysInMonth(m) + Calendar.DaysInMonth(m + 1) + Calendar.DaysInMonth(m + 2)
  {
    hide Calendar.DaysInMonth;
    assert Calendar.MonthStart(m + 2) == Calendar.MonthStart(m + 1) + Calendar.DaysInMonth(m + 1);
  }

  // The length of every month, with one day more in the February of a leap year.
  lemma MonthOfYear(y: nat, k: nat)
    requires k < 12
    ensures Calendar.DaysInMonth(12 * y + k) == MONTH_LENGTHS[k] + (if k == 1 && Calendar.IsLeapYear(y) then 1 else 0)
  {
    assert (12 * y + k) % 12 == k && (12 * y + k) / 12 == y;
    hide Calendar.IsLeapYear;
  }

  lemma OneYear(y: nat)
    ensures Calendar.MonthStart(12 * (y + 1))
         == Calendar.MonthStart(12 * y) + (if Calendar.IsLeapYear(y) then 366 else 365)
  {
    hide Calendar.MonthStart, Calendar.DaysInMonth, Calendar.IsLeapYear;
    var m := 12 * y;
    Quarter(m);
    Quarter(m + 3);
    Quarter(m + 6);
    Quarter(m + 9);
    MonthOfYear(y, 0);
    MonthOfYear(y, 1);
    MonthOfYear(y, 2);
    MonthOfYear(y, 3);
    MonthOfYear(y, 4);
    MonthOfYear(y, 5);
    MonthOfYear(y, 6);
    MonthOfYear(y, 7);
    MonthOfYear(y, 8);
    MonthOfYear(y, 9);
    MonthOfYear(y, 10);
    MonthOfYear(y, 11);
  }

  lemma EveryKth(n: nat, k: nat)
    requires k > 0
    ensures (n + k) / k == (n + k - 1) / k + (if n % k == 0 then 1 else 0)
  {
    var (q, r) := (n / k, n % k);
    assert n == k * q + r && k * q == q * k;
    Quotient(n + k, k, q + 1, r);
    if r == 0 {
      Quotient(n + k - 1, k, q, k - 1);
    } else {
      Quotient(n + k - 1, k, q + 1, r - 1);
    }
  }

  lemma Quotient(x: int, k: nat, q: int, r: nat)
    requires k > r && x == k * q + r
    ensures x / k == q
  {
    Money.DivBounds(x, k);
    var e := x / k - q;
    assert k * e == k * (x / k) - k * q;
    Money.FactorSign(k, e);
  }

  // Every fourth year, but not every hundredth, and yet every four hundredth, before year y.
  function LeapYearsBefore(y: nat): int {
    (y + 3) / 4 - (y + 99) / 100 + (y + 399) / 400
  }

  lemma Multiple(y: nat, k: nat, n: nat)
    requires k > 0 && n > 0 && y % (k * n) == 0
    ensures y % k == 0
  {
    var q := y / (k * n);
    assert y == k * n * q == k * (n * q);
    Quotient(y, k, n * q, 0);
    assert y == k * (y / k) + y % k;
  }

  lemma OneYearLater(y: nat)
    ensures LeapYearsBefore(y + 1) == LeapYearsBefore(y) + (if Calendar.IsLeapYear(y) then 1 else 0)
  {
    EveryKth(y, 4);
    EveryKth(y, 100);
    EveryKth(y, 400);
    if y % 400 == 0 {
      Multiple(y, 100, 4);
    }
    if y % 100 == 0 {
      Multiple(y, 4, 25);
    }
  }

  // The day count of a new year, without any table.
  lemma {:induction false} YearStart(y: nat)
    ensures Calendar.MonthStart(12 * y) == 365 * y + LeapYearsBefore(y)
  {
    if y == 0 {
    } else {
      YearStart(y - 1);
      OneYear(y - 1);
      OneYearLater(y - 1);
      assert 12 * (y - 1 + 1) == 12 * y;
      hide Calendar.MonthStart, LeapYearsBefore, Calendar.IsLeapYear;
    }
  }
}
