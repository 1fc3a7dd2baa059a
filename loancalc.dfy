/** The per-loan engine: interest capitalised between accrual start and the
    first payment, the amortised monthly payment, and the month-by-month
    repayment simulation that yields the interest actually paid and the
    payoff date. Money is exact `real`; no floating-point rounding error is
    modelled. */
module LoanCalc {
  import opened Numbers
  import opened DateMath

  /** The arguments of `calculateSingleLoanSummary`: one validated loan and
      the form's graduation date. */
  datatype LoanInput = LoanInput(
    balance: real,
    aprPct: real,
    termYears: int,
    graceMonths: int,
    originationDate: Date,
    graduationDate: Date,
    subsidized: bool)

  /** What the calculation needs of a loan, and what validation guarantees:
      a term of at least one year and a non-negative rate. */
  predicate Computable(loan: LoanInput) {
    loan.termYears > 0 && loan.aprPct >= 0.0
  }

  /** The summary of one loan; every amount is rounded to cents. */
  datatype LoanResult = LoanResult(
    principal: real,
    capitalizedInterest: real,
    startingBalance: real,
    monthlyPayment: real,
    totalInterest: real,
    totalPaid: real,
    payoffDate: Date,
    paymentStartDate: Date)

  /** The state the repayment loop ends in. */
  datatype Repayment = Repayment(remaining: real, interestPaid: real, months: nat)

  /** A balance at or below this is treated as paid off. */
  const PayoffTolerance: real := 0.01

  /** Months the simulation may run past the nominal term. */
  const SafetyMonths: nat := 360

  // ----------------------------------------------------------- loan inputs

  function AprOf(loan: LoanInput): real { loan.aprPct / 100.0 }

  /** `Math.round(termYears * 12)`; the term is read as a whole number of
      years, so the rounding is exact. */
  function TermMonths(loan: LoanInput): nat
    requires Computable(loan)
  {
    12 * loan.termYears
  }

  /** Repayment starts `graceMonths` calendar months after graduation. */
  function PaymentStart(loan: LoanInput): Date {
    AddMonths(loan.graduationDate, loan.graceMonths)
  }

  /** A subsidized loan accrues no interest before graduation. */
  function AccrualStart(loan: LoanInput): Date {
    if loan.subsidized then loan.graduationDate else loan.originationDate
  }

  // ------------------------------------------------- capitalised interest

  /** Interest compounded daily at `apr / 365` from `accrualStart` to
      `paymentStart`; none when the rate is zero or the accrual window is
      empty. */
  function CapitalizedInterest(principal: real, apr: real, accrualStart: Date, paymentStart: Date): (c: real)
    ensures c >= 0.0
    ensures !(apr > 0.0 && Lte(accrualStart, paymentStart)) ==> c == 0.0
  {
    if apr > 0.0 && Lte(accrualStart, paymentStart) then
      Accrued(principal, apr, DiffDays(accrualStart, paymentStart))
    else
      0.0
  }

  /** Daily compounding of `principal` at `apr / 365` over `days` days, less
      the principal, floored at zero. */
  function Accrued(principal: real, apr: real, days: int): (c: real)
    ensures c >= 0.0
  {
    var dailyRate := apr / 365.0;
    MaxReal(0.0, principal * Pow(1.0 + dailyRate, Max(0, days)) - principal)
  }

  /** Over a non-empty window the accrual runs over the calendar days from
      the accrual start to the payment start. */
  lemma CapitalizedInterestOverDays(principal: real, apr: real, accrualStart: Date, paymentStart: Date)
    requires apr > 0.0 && Lte(accrualStart, paymentStart)
    ensures EpochDay(accrualStart) <= EpochDay(paymentStart)
    ensures CapitalizedInterest(principal, apr, accrualStart, paymentStart)
         == Accrued(principal, apr, EpochDay(paymentStart) - EpochDay(accrualStart))
  {
    var d := DiffDays(accrualStart, paymentStart);
    assert d == EpochDay(paymentStart) - EpochDay(accrualStart);
  }

  /** The accrued interest on a non-negative principal at a positive rate is
      exactly the compound growth, at least simple interest over the same
      days, and positive exactly when the principal is positive and at
      least one day passes. */
  lemma AccruedCompounds(principal: real, apr: real, days: nat)
    requires principal >= 0.0 && apr > 0.0
    ensures Accrued(principal, apr, days) == principal * Pow(1.0 + apr / 365.0, days) - principal
    ensures Accrued(principal, apr, days) >= principal * (apr / 365.0) * days as real
    ensures Accrued(principal, apr, days) > 0.0 <==> principal > 0.0 && days > 0
  {
    var a := apr / 365.0;
    var g := Pow(1.0 + a, days);
    PowAtLeastSimple(a, days);
    MulMonotone(principal, 1.0 + days as real * a, g);
    if principal > 0.0 && days > 0 {
      MulNonNegative(days as real, a);
      assert days as real * a > 0.0;
      assert principal * (days as real * a) > 0.0;
    }
  }

  // ------------------------------------------------------- monthly payment

  /** The unrounded payment that clears `balance` in exactly `n` months:
      the balance spread evenly at a zero rate, the annuity payment
      otherwise. */
  function IdealPayment(balance: real, apr: real, n: nat): real
    requires apr >= 0.0 && n >= 1
  {
    if apr == 0.0 then
      balance / n as real
    else
      var r := apr / 12.0;
      PowAboveOne(r, n);
      Annuity(balance, r, Pow(1.0 + r, n))
  }

  /** The annuity payment for monthly rate `r`, where `growth` is the
      growth factor over the whole term: `balance * r / (1 - growth^-1)`. */
  function Annuity(balance: real, r: real, growth: real): real
    requires growth > 1.0
  {
    balance * r / (1.0 - 1.0 / growth)
  }

  /** The quoted monthly payment: the ideal payment rounded to cents. */
  function MonthlyPayment(balance: real, apr: real, n: nat): (p: real)
    requires apr >= 0.0 && n >= 1
    ensures IsWholeCents(p)
    ensures IdealPayment(balance, apr, n) - 0.005 < p <= IdealPayment(balance, apr, n) + 0.005
  {
    Round2(IdealPayment(balance, apr, n))
  }

  // ---------------------------------------------------- repayment schedule

  /** The interest charged for one month on `remaining`. */
  function MonthInterest(apr: real, remaining: real): real {
    if apr == 0.0 then 0.0 else remaining * (apr / 12.0)
  }

  /** The repayment loop from a given state: each month charges interest,
      applies the payment (capped at what is owed), and stops once at most
      a cent is left, which is then written off, or when `bound` months have
      passed, whatever is still owed. */
  function Simulate(apr: real, payment: real, bound: nat, remaining: real, interestPaid: real, months: nat): Repayment
    decreases bound - months
  {
    if !(remaining > 0.0 && months < bound) then
      Repayment(remaining, interestPaid, months)
    else
      var interest := MonthInterest(apr, remaining);
      var principalPaid := if payment - interest > remaining then remaining else payment - interest;
      var left := remaining - principalPaid;
      if left <= PayoffTolerance then
        Repayment(0.0, interestPaid + interest, months + 1)
      else
        Simulate(apr, payment, bound, left, interestPaid + interest, months + 1)
  }

  /** One turn of the loop: from a state where the loop continues, the
      outcome is that of the state one month later, or the paid-off state
      when at most the tolerance is left. */
  lemma SimulateStep(apr: real, payment: real, bound: nat, remaining: real, interestPaid: real, months: nat)
    requires remaining > 0.0 && months < bound
    ensures var interest := MonthInterest(apr, remaining);
      var left := remaining - (if payment - interest > remaining then remaining else payment - interest);
      Simulate(apr, payment, bound, remaining, interestPaid, months) ==
        if left <= PayoffTolerance then Repayment(0.0, interestPaid + interest, months + 1)
        else Simulate(apr, payment, bound, left, interestPaid + interest, months + 1)
  {
  }

  /** From a non-negative balance at a non-negative rate: the loop never
      runs past its bound; it runs at least once when
      something is owed; it ends either with the debt written off or at the
      bound; what is owed never turns negative; and the interest paid only
      grows, and not at all at a zero rate. */
  lemma {:induction false} SimulateOutcome(apr: real, payment: real, bound: nat, remaining: real, interestPaid: real, months: nat)
    requires apr >= 0.0 && remaining >= 0.0 && months <= bound
    ensures var o := Simulate(apr, payment, bound, remaining, interestPaid, months);
      && months <= o.months <= bound
      && (remaining > 0.0 && months < bound ==> o.months >= months + 1)
      && (o.remaining == 0.0 || o.months == bound)
      && o.remaining >= 0.0
      && o.interestPaid >= interestPaid
      && (apr == 0.0 ==> o.interestPaid == interestPaid)
    decreases bound - months
  {
    if remaining > 0.0 && months < bound {
      var interest := MonthInterest(apr, remaining);
      MulNonNegative(remaining, apr / 12.0);
      var principalPaid := if payment - interest > remaining then remaining else payment - interest;
      var left := remaining - principalPaid;
      if left > PayoffTolerance {
        SimulateOutcome(apr, payment, bound, left, interestPaid + interest, months + 1);
      }
    }
  }

  /** The balance after `k` months of the schedule with neither the cap on
      the last payment nor the one-cent write-off. */
  function BalanceAfter(apr: real, payment: real, balance: real, k: nat): real
    decreases k
  {
    if k == 0 then balance
    else BalanceAfter(apr, payment, balance + MonthInterest(apr, balance) - payment, k - 1)
  }

  /** `1 + q + ... + q^(k-1)`. */
  function GrowthSum(q: real, k: nat): real {
    if k == 0 then 0.0 else GrowthSum(q, k - 1) + Pow(q, k - 1)
  }

  /** If something is owed and the uncapped schedule is down to a cent
      within `k >= 1` months, and the bound leaves room for them, the loop
      pays the loan off within those `k` months. */
  lemma {:induction false} SimulatePaysOffWithin(apr: real, payment: real, bound: nat, remaining: real, interestPaid: real, months: nat, k: nat)
    requires remaining > 0.0 && 1 <= k && months + k <= bound
    requires BalanceAfter(apr, payment, remaining, k) <= PayoffTolerance
    ensures var o := Simulate(apr, payment, bound, remaining, interestPaid, months);
      o.remaining == 0.0 && o.months <= months + k
    decreases k
  {
    var interest := MonthInterest(apr, remaining);
    var principalPaid := if payment - interest > remaining then remaining else payment - interest;
    var left := remaining - principalPaid;
    if left > PayoffTolerance {
      assert left == remaining + interest - payment;
      assert BalanceAfter(apr, payment, left, k - 1) == BalanceAfter(apr, payment, remaining, k);
      assert k - 1 != 0;
      SimulatePaysOffWithin(apr, payment, bound, left, interestPaid + interest, months + 1, k - 1);
    }
  }

  /** From a balance above a cent, a payment that does not cover the
      month's interest never reduces the debt: the loop runs to its bound
      and ends owing at least what it started with. */
  lemma {:induction false} SimulateHitsBound(apr: real, payment: real, bound: nat, remaining: real, interestPaid: real, months: nat)
    requires apr >= 0.0 && remaining > PayoffTolerance && months <= bound
    requires payment <= MonthInterest(apr, remaining)
    ensures var o := Simulate(apr, payment, bound, remaining, interestPaid, months);
      o.months == bound && o.remaining >= remaining
    decreases bound - months
  {
    if months < bound {
      var interest := MonthInterest(apr, remaining);
      var left := remaining + interest - payment;
      assert left >= remaining;
      if apr != 0.0 {
        MulMonotone(apr / 12.0, remaining, left);
      }
      SimulateHitsBound(apr, payment, bound, left, interestPaid + interest, months + 1);
    }
  }

  /** The repayment loop for a balance repaid over an `n`-month term at the
      quoted payment, bounded at the term plus the safety margin. */
  function Schedule(apr: real, n: nat, balance: real): Repayment
    requires apr >= 0.0 && n >= 1
  {
    Simulate(apr, MonthlyPayment(balance, apr, n), n + SafetyMonths, balance, 0.0, 0)
  }

  /** For a positive balance the loop runs between one month and the term
      plus the safety margin, ends paid off or at that bound, and pays
      non-negative interest, none at a zero rate. */
  lemma ScheduleOutcome(apr: real, n: nat, balance: real)
    requires apr >= 0.0 && n >= 1 && balance > 0.0
    ensures var rep := Schedule(apr, n, balance);
      && 1 <= rep.months <= n + SafetyMonths
      && (rep.remaining == 0.0 || rep.months == n + SafetyMonths)
      && rep.remaining >= 0.0
      && rep.interestPaid >= 0.0
      && (apr == 0.0 ==> rep.interestPaid == 0.0)
  {
    SimulateOutcome(apr, MonthlyPayment(balance, apr, n), n + SafetyMonths, balance, 0.0, 0);
  }

  /** When rounding does not take the quoted payment below the ideal
      payment, the loan is paid off within its nominal term. */
  lemma SchedulePaidOffWithinTerm(apr: real, n: nat, balance: real)
    requires apr >= 0.0 && n >= 1 && balance > 0.0
    requires MonthlyPayment(balance, apr, n) >= IdealPayment(balance, apr, n)
    ensures Schedule(apr, n, balance).remaining == 0.0
    ensures Schedule(apr, n, balance).months <= n
  {
    var payment := MonthlyPayment(balance, apr, n);
    IdealPaymentClearsBalance(balance, apr, n);
    BalanceAfterAntitone(apr, IdealPayment(balance, apr, n), payment, balance, n);
    SimulatePaysOffWithin(apr, payment, n + SafetyMonths, balance, 0.0, 0, n);
  }

  /** When the balance is above a cent and the quoted payment does not
      cover the first month's interest (a few cents over a long term, whose
      payment rounds to zero, say), the loop runs all its months and ends
      owing at least the starting balance; nothing in the result says so.
      A balance of at most a cent is written off in the first month. */
  lemma ScheduleRunsToBound(apr: real, n: nat, balance: real)
    requires apr >= 0.0 && n >= 1 && balance > PayoffTolerance
    requires MonthlyPayment(balance, apr, n) <= MonthInterest(apr, balance)
    ensures Schedule(apr, n, balance).months == n + SafetyMonths
    ensures Schedule(apr, n, balance).remaining >= balance
  {
    SimulateHitsBound(apr, MonthlyPayment(balance, apr, n), n + SafetyMonths, balance, 0.0, 0);
  }

  // ------------------------------------------------------------ closed form

  lemma PowOne(n: nat)
    ensures Pow(1.0, n) == 1.0
  {
  }

  lemma {:induction false} GrowthSumOfOne(k: nat)
    ensures GrowthSum(1.0, k) == k as real
  {
    if k > 0 {
      GrowthSumOfOne(k - 1);
      PowOne(k - 1);
    }
  }

  lemma {:induction false} PowPositive(q: real, k: nat)
    requires q > 0.0
    ensures Pow(q, k) > 0.0
  {
    if k > 0 {
      PowPositive(q, k - 1);
      MulNonNegative(q, Pow(q, k - 1));
      assert q * Pow(q, k - 1) != 0.0;
    }
  }

  lemma {:induction false} GrowthSumNonNegative(q: real, k: nat)
    requires q > 0.0
    ensures GrowthSum(q, k) >= 0.0
  {
    if k > 0 {
      GrowthSumNonNegative(q, k - 1);
      PowPositive(q, k - 1);
    }
  }

  /** The geometric series: `r * (1 + q + ... + q^(k-1)) == q^k - 1` for
      `q == 1 + r`. */
  lemma {:induction false} GrowthSumTimesRate(r: real, k: nat)
    ensures r * GrowthSum(1.0 + r, k) == Pow(1.0 + r, k) - 1.0
  {
    if k > 0 {
      GrowthSumTimesRate(r, k - 1);
      var p := Pow(1.0 + r, k - 1);
      assert r * GrowthSum(1.0 + r, k) == r * GrowthSum(1.0 + r, k - 1) + r * p;
      assert Pow(1.0 + r, k) == (1.0 + r) * p;
    }
  }

  /** The uncapped schedule in closed form: the balance grows by `q^k` and
      each payment by the growth of the months after it. */
  lemma {:induction false} BalanceAfterClosedForm(apr: real, payment: real, balance: real, k: nat)
    ensures var q := 1.0 + apr / 12.0;
      BalanceAfter(apr, payment, balance, k) == balance * Pow(q, k) - payment * GrowthSum(q, k)
    decreases k
  {
    var q := 1.0 + apr / 12.0;
    if k > 0 {
      var next := balance + MonthInterest(apr, balance) - payment;
      assert next == balance * q - payment;
      BalanceAfterClosedForm(apr, payment, next, k - 1);
      var p := Pow(q, k - 1);
      assert next * p == balance * (q * p) - payment * p;
      assert Pow(q, k) == q * p;
      assert GrowthSum(q, k) == GrowthSum(q, k - 1) + p;
    }
  }

  /** The ideal payment clears the balance in exactly `n` months. */
  lemma IdealPaymentClearsBalance(balance: real, apr: real, n: nat)
    requires apr >= 0.0 && n >= 1
    ensures BalanceAfter(apr, IdealPayment(balance, apr, n), balance, n) == 0.0
  {
    if apr == 0.0 {
      EvenPaymentsClearBalance(balance, n);
    } else {
      AnnuityClearsBalance(balance, apr, n);
    }
  }

  /** At a zero rate, `n` payments of `balance / n` clear the balance. */
  lemma EvenPaymentsClearBalance(balance: real, n: nat)
    requires n >= 1
    ensures BalanceAfter(0.0, balance / n as real, balance, n) == 0.0
  {
    BalanceAfterClosedForm(0.0, balance / n as real, balance, n);
    PowOne(n);
    GrowthSumOfOne(n);
  }

  /** At a positive rate, `n` annuity payments clear the balance. */
  lemma AnnuityClearsBalance(balance: real, apr: real, n: nat)
    requires apr > 0.0 && n >= 1
    ensures BalanceAfter(apr, IdealPayment(balance, apr, n), balance, n) == 0.0
  {
    var r := apr / 12.0;
    var p := Pow(1.0 + r, n);
    var g := GrowthSum(1.0 + r, n);
    PowAboveOne(r, n);
    var a := Annuity(balance, r, p);
    assert IdealPayment(balance, apr, n) == a;
    GrowthSumTimesRate(r, n);
    AnnuityIdentity(balance, r, p, g);
    BalanceAfterClosedForm(apr, a, balance, n);
    assert BalanceAfter(apr, a, balance, n) == balance * p - a * g;
  }

  /** The algebra behind the annuity formula: with `r * g == growth - 1`,
      the annuity payment times `g` is `balance * growth`. */
  lemma AnnuityIdentity(balance: real, r: real, growth: real, g: real)
    requires r > 0.0 && growth > 1.0 && r * g == growth - 1.0
    ensures balance * growth - Annuity(balance, r, growth) * g == 0.0
  {
    var d := 1.0 - 1.0 / growth;
    assert d * growth == growth - 1.0;
    assert d > 0.0;
    var a := balance * r / d;
    assert a * d == balance * r;
    assert a * g * d == balance * (r * g);
    assert (a * g - balance * growth) * d == 0.0;
  }

  /** A larger payment leaves a smaller balance. */
  lemma BalanceAfterAntitone(apr: real, low: real, high: real, balance: real, k: nat)
    requires apr >= 0.0 && low <= high
    ensures BalanceAfter(apr, high, balance, k) <= BalanceAfter(apr, low, balance, k)
  {
    var q := 1.0 + apr / 12.0;
    BalanceAfterClosedForm(apr, low, balance, k);
    BalanceAfterClosedForm(apr, high, balance, k);
    GrowthSumNonNegative(q, k);
    MulMonotone(GrowthSum(q, k), low, high);
  }

  // ------------------------------------------------------------- the loan

  function StartingBalance(loan: LoanInput): real {
    loan.balance + CapitalizedInterest(loan.balance, AprOf(loan), AccrualStart(loan), PaymentStart(loan))
  }

  function Payment(loan: LoanInput): real
    requires Computable(loan)
  {
    MonthlyPayment(StartingBalance(loan), AprOf(loan), TermMonths(loan))
  }

  /** The repayment loop run for the loan from its starting balance. */
  function Repay(loan: LoanInput): Repayment
    requires Computable(loan)
  {
    Schedule(AprOf(loan), TermMonths(loan), StartingBalance(loan))
  }

  /** The object `calculateSingleLoanSummary` returns, built from the
      set-up values and the state the repayment loop ended in. */
  function Summarize(principal: real, capitalized: real, startingBalance: real, payment: real, rep: Repayment, paymentStart: Date): LoanResult {
    LoanResult(
      Round2(principal),
      Round2(capitalized),
      Round2(startingBalance),
      Round2(payment),
      Round2(rep.interestPaid),
      Round2(principal + rep.interestPaid),
      AddMonths(paymentStart, rep.months),
      paymentStart)
  }

  /** The summary of a loan. */
  function LoanSummary(loan: LoanInput): LoanResult
    requires Computable(loan)
  {
    var cap := CapitalizedInterest(loan.balance, AprOf(loan), AccrualStart(loan), PaymentStart(loan));
    Summarize(loan.balance, cap, StartingBalance(loan), Payment(loan), Repay(loan), PaymentStart(loan))
  }

  /** `calculateSingleLoanSummary`: the straight-line set-up followed by the
      repayment loop, which breaks out as soon as at most a cent is left. */
  method CalculateSingleLoanSummary(loan: LoanInput) returns (result: LoanResult)
    requires Computable(loan)
    ensures result == LoanSummary(loan)
  {
    var principal := loan.balance;
    var apr := AprOf(loan);
    var nMonths := TermMonths(loan);
    var paymentStartDate := PaymentStart(loan);
    var accrualStart := AccrualStart(loan);
    var capitalizedInterest := 0.0;
    if apr > 0.0 && Lte(accrualStart, paymentStartDate) {
      var days := DiffDays(accrualStart, paymentStartDate);
      capitalizedInterest := Accrued(principal, apr, days);
    }
    assert capitalizedInterest == CapitalizedInterest(principal, apr, accrualStart, paymentStartDate);
    var startingBalance := principal + capitalizedInterest;
    assert startingBalance == StartingBalance(loan);
    var monthlyPayment := 0.0;
    if apr == 0.0 {
      monthlyPayment := Round2(startingBalance / nMonths as real);
    } else {
      var r := apr / 12.0;
      PowAboveOne(r, nMonths);
      monthlyPayment := Round2(Annuity(startingBalance, r, Pow(1.0 + r, nMonths)));
    }
    assert monthlyPayment == MonthlyPayment(startingBalance, apr, nMonths);
    ghost var outcome := Repay(loan);
    var remaining := startingBalance;
    var totalInterestPaid := 0.0;
    var months := 0;
    var bound := nMonths + SafetyMonths;
    while remaining > 0.0 && months < bound
      invariant months <= bound
      invariant Simulate(apr, monthlyPayment, bound, remaining, totalInterestPaid, months) == outcome
      decreases bound - months
    {
      SimulateStep(apr, monthlyPayment, bound, remaining, totalInterestPaid, months);
      var interest := MonthInterest(apr, remaining);
      var principalPaid := monthlyPayment - interest;
      if principalPaid > remaining {
        principalPaid := remaining;
      }
      totalInterestPaid := totalInterestPaid + interest;
      remaining := remaining - principalPaid;
      months := months + 1;
      if remaining <= PayoffTolerance {
        remaining := 0.0;
        assert Repayment(remaining, totalInterestPaid, months) == outcome;
        break;
      }
    }
    assert Repayment(remaining, totalInterestPaid, months) == outcome;
    result := Summarize(principal, capitalizedInterest, startingBalance, monthlyPayment,
                        Repayment(remaining, totalInterestPaid, months), paymentStartDate);
  }

  // -------------------------------------------------------- loan properties

  /** The loop for a loan with a positive balance runs between one month and
      the term plus the safety margin, ends paid off or at that bound, and
      the payoff date is that many months after the payment start, which is
      the grace period after graduation. */
  lemma LoanSchedule(loan: LoanInput)
    requires Computable(loan) && loan.balance > 0.0
    ensures var rep := Repay(loan);
      && 1 <= rep.months <= TermMonths(loan) + SafetyMonths
      && (rep.remaining == 0.0 || rep.months == TermMonths(loan) + SafetyMonths)
      && LoanSummary(loan).paymentStartDate == AddMonths(loan.graduationDate, loan.graceMonths)
      && LoanSummary(loan).payoffDate == AddMonths(LoanSummary(loan).paymentStartDate, rep.months)
  {
    ScheduleOutcome(AprOf(loan), TermMonths(loan), StartingBalance(loan));
  }

  /** Capitalising interest never lowers the balance: the reported starting
      balance is at least the reported principal, which is not negative. */
  lemma LoanStartingBalance(loan: LoanInput)
    requires Computable(loan) && loan.balance >= 0.0
    ensures var s := LoanSummary(loan);
      s.startingBalance >= s.principal >= 0.0
  {
    assert StartingBalance(loan) >= loan.balance;
    Round2NonNegative(loan.balance);
    Round2Monotone(loan.balance, StartingBalance(loan));
  }

  /** Neither the capitalised interest nor the interest paid over the
      schedule is negative. */
  lemma LoanInterestAmounts(loan: LoanInput)
    requires Computable(loan) && loan.balance > 0.0
    ensures var s := LoanSummary(loan);
      s.capitalizedInterest >= 0.0 && s.totalInterest >= 0.0
  {
    var cap := CapitalizedInterest(loan.balance, AprOf(loan), AccrualStart(loan), PaymentStart(loan));
    var paid := Repay(loan).interestPaid;
    ScheduleOutcome(AprOf(loan), TermMonths(loan), StartingBalance(loan));
    assert paid >= 0.0;
    Round2NonNegative(cap);
    Round2NonNegative(paid);
  }

  /** The total paid is at least the principal, and differs from principal
      plus interest by at most a cent, since each of the three amounts is
      rounded on its own. */
  lemma LoanTotalPaid(loan: LoanInput)
    requires Computable(loan) && loan.balance > 0.0
    ensures var s := LoanSummary(loan);
      && s.totalPaid >= s.principal
      && -0.01 <= s.principal + s.totalInterest - s.totalPaid <= 0.01
  {
    var cap := CapitalizedInterest(loan.balance, AprOf(loan), AccrualStart(loan), PaymentStart(loan));
    ScheduleOutcome(AprOf(loan), TermMonths(loan), StartingBalance(loan));
    SummaryTotals(loan.balance, cap, StartingBalance(loan), Payment(loan), Repay(loan), PaymentStart(loan));
  }

  /** For any loop outcome with interest paid, the rounded total paid is at
      least the rounded principal and within a cent of principal plus
      interest. */
  lemma SummaryTotals(principal: real, capitalized: real, startingBalance: real, payment: real, rep: Repayment, paymentStart: Date)
    requires rep.interestPaid >= 0.0
    ensures var s := Summarize(principal, capitalized, startingBalance, payment, rep, paymentStart);
      && s.totalPaid >= s.principal
      && -0.01 <= s.principal + s.totalInterest - s.totalPaid <= 0.01
  {
    Round2Monotone(principal, principal + rep.interestPaid);
    Round2SumWithinCent(principal, rep.interestPaid);
  }

  /** The payment reported is the quoted monthly payment: rounding it to
      cents again changes nothing. */
  lemma LoanPayment(loan: LoanInput)
    requires Computable(loan)
    ensures LoanSummary(loan).monthlyPayment == Payment(loan)
  {
    Round2Exact(Payment(loan));
  }

  /** At a zero rate nothing is capitalised, no interest is paid, and the
      total paid is the principal. */
  lemma ZeroRateLoan(loan: LoanInput)
    requires Computable(loan) && loan.balance > 0.0 && loan.aprPct == 0.0
    ensures var s := LoanSummary(loan);
      s.capitalizedInterest == 0.0 && s.totalInterest == 0.0 && s.totalPaid == s.principal
  {
    ScheduleOutcome(AprOf(loan), TermMonths(loan), StartingBalance(loan));
    Round2Exact(0.0);
  }
}
