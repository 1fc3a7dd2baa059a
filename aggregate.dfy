/** The summary over all loans of a valid form: each loan summarised in
    form order, the money columns summed, and the latest payoff date. */
module Aggregate {
  import opened Options
  import opened Numbers
  import opened DateMath
  import opened Validation
  import opened LoanCalc

  /** The object `calculateAggregateSummary` returns. `finalPayoffDate` is
      `None` where the source yields `null` (a form with no loans). */
  datatype AggregateResult = AggregateResult(
    totalMonthlyPayment: real,
    totalPrincipal: real,
    totalInterest: real,
    totalPaid: real,
    finalPayoffDate: Option<Date>,
    loans: seq<LoanResult>)

  /** The money columns of the loan summaries that are summed. */
  datatype Amount = MonthlyPaymentAmount | PrincipalAmount | InterestAmount | PaidAmount

  function AmountOf(r: LoanResult, a: Amount): real {
    match a
    case MonthlyPaymentAmount => r.monthlyPayment
    case PrincipalAmount => r.principal
    case InterestAmount => r.totalInterest
    case PaidAmount => r.totalPaid
  }

  /** `loansOut.map((l) => l.<amount>)`. */
  function Column(rs: seq<LoanResult>, a: Amount): (xs: seq<real>)
    ensures |xs| == |rs|
  {
    seq(|rs|, i requires 0 <= i < |rs| => AmountOf(rs[i], a))
  }

  /** The arguments passed to `calculateSingleLoanSummary` for loan `i`: its
      own fields and the form's graduation date. Validation guarantees every
      field is present and in range. */
  function LoanInputOf(state: FormState, i: nat): (loan: LoanInput)
    requires FormIsValid(state) && i < |state.loans|
    ensures Computable(loan) && loan.balance > 0.0 && loan.graceMonths >= 0
    ensures Lte(loan.originationDate, loan.graduationDate)
  {
    var ln := state.loans[i];
    LoanInput(
      ln.balance.value,
      ln.aprPct.value,
      ln.termYears.value,
      ln.graceMonths.value,
      ln.originationDate.value,
      state.graduationDate.value,
      ln.subsidized)
  }

  /** `loansOut.reduce(...)`: folding from the first loan, a later payoff
      date replaces the one kept so far. The result is absent exactly when
      there are no loans; otherwise it is one of the payoff dates and no
      payoff date is later. */
  function LatestPayoff(rs: seq<LoanResult>): (latest: Option<Date>)
    ensures latest.None? <==> |rs| == 0
    ensures latest.Some? ==> exists i :: 0 <= i < |rs| && rs[i].payoffDate == latest.value
    ensures latest.Some? ==> forall i :: 0 <= i < |rs| ==> Lte(rs[i].payoffDate, latest.value)
  {
    if |rs| == 0 then None
    else
      var sofar := LatestPayoff(rs[..|rs| - 1]);
      var p := rs[|rs| - 1].payoffDate;
      if sofar.None? then Some(p)
      else if Gt(p, sofar.value) then Some(p)
      else sofar
  }

  /** `state.loans.map(...)`: one summary per loan, in form order. */
  function Summaries(state: FormState): (rs: seq<LoanResult>)
    requires FormIsValid(state)
    ensures |rs| == |state.loans|
    ensures forall i :: 0 <= i < |rs| ==> rs[i] == LoanSummary(LoanInputOf(state, i))
  {
    seq(|state.loans|, i requires 0 <= i < |state.loans| => LoanSummary(LoanInputOf(state, i)))
  }

  /** The totals and the final payoff date over a list of loan summaries,
      which are returned unchanged. */
  function Combine(loansOut: seq<LoanResult>): (r: AggregateResult)
    ensures r.loans == loansOut
    ensures r.totalMonthlyPayment == Sum(Column(loansOut, MonthlyPaymentAmount))
    ensures r.totalPrincipal == Sum(Column(loansOut, PrincipalAmount))
    ensures r.totalInterest == Sum(Column(loansOut, InterestAmount))
    ensures r.totalPaid == r.totalPrincipal + r.totalInterest
    ensures r.finalPayoffDate.None? <==> |loansOut| == 0
    ensures r.finalPayoffDate.Some? ==>
      exists i :: 0 <= i < |loansOut| && loansOut[i].payoffDate == r.finalPayoffDate.value
    ensures r.finalPayoffDate.Some? ==>
      forall i :: 0 <= i < |loansOut| ==> Lte(loansOut[i].payoffDate, r.finalPayoffDate.value)
  {
    var totalPrincipal := Sum(Column(loansOut, PrincipalAmount));
    var totalInterest := Sum(Column(loansOut, InterestAmount));
    AggregateResult(
      Sum(Column(loansOut, MonthlyPaymentAmount)),
      totalPrincipal,
      totalInterest,
      totalPrincipal + totalInterest,
      LatestPayoff(loansOut),
      loansOut)
  }

  /** `calculateAggregateSummary(state)`, called only once `validate` has
      found nothing wrong. The loan summaries keep the order and number of
      the form's loans and each is the summary of that loan; the totals are
      the column sums; the final payoff date is the latest of theirs. */
  function CalculateAggregateSummary(state: FormState): (r: AggregateResult)
    requires FormIsValid(state)
    ensures |r.loans| == |state.loans|
    ensures forall i :: 0 <= i < |r.loans| ==> r.loans[i] == LoanSummary(LoanInputOf(state, i))
    ensures r.totalMonthlyPayment == Sum(Column(r.loans, MonthlyPaymentAmount))
    ensures r.totalPrincipal == Sum(Column(r.loans, PrincipalAmount))
    ensures r.totalInterest == Sum(Column(r.loans, InterestAmount))
    ensures r.totalPaid == r.totalPrincipal + r.totalInterest
    ensures r.finalPayoffDate.None? <==> |state.loans| == 0
    ensures r.finalPayoffDate.Some? ==>
      exists i :: 0 <= i < |r.loans| && r.loans[i].payoffDate == r.finalPayoffDate.value
    ensures r.finalPayoffDate.Some? ==>
      forall i :: 0 <= i < |r.loans| ==> Lte(r.loans[i].payoffDate, r.finalPayoffDate.value)
  {
    Combine(Summaries(state))
  }

  /** What every loan summary of a valid form satisfies. */
  predicate SummaryAmountsHold(r: LoanResult) {
    && r.principal >= 0.0
    && r.totalInterest >= 0.0
    && -0.01 <= r.principal + r.totalInterest - r.totalPaid <= 0.01
  }

  lemma SummariesHold(state: FormState)
    requires FormIsValid(state)
    ensures forall i :: 0 <= i < |state.loans| ==>
      SummaryAmountsHold(LoanSummary(LoanInputOf(state, i)))
  {
    forall i | 0 <= i < |state.loans|
      ensures SummaryAmountsHold(LoanSummary(LoanInputOf(state, i)))
    {
      var loan := LoanInputOf(state, i);
      LoanStartingBalance(loan);
      LoanInterestAmounts(loan);
      LoanTotalPaid(loan);
    }
  }

  /** Column sums over summaries that each satisfy `SummaryAmountsHold`:
      neither the principal nor the interest column sums below zero, and
      their sum is within a cent per loan of the sum of the loans' own
      totals paid. */
  lemma ColumnSums(rs: seq<LoanResult>)
    requires forall i :: 0 <= i < |rs| ==> SummaryAmountsHold(rs[i])
    ensures var ps, interests, tps := Column(rs, PrincipalAmount), Column(rs, InterestAmount), Column(rs, PaidAmount);
      && Sum(ps) >= 0.0
      && Sum(interests) >= 0.0
      && var cents := 0.01 * |rs| as real;
         -cents <= Sum(ps) + Sum(interests) - Sum(tps) <= cents
  {
    var ps, interests, tps := Column(rs, PrincipalAmount), Column(rs, InterestAmount), Column(rs, PaidAmount);
    SumNonNegative(ps);
    SumNonNegative(interests);
    SumsWithin(ps, interests, tps, 0.01);
  }

  /** The totals over summaries that each satisfy `SummaryAmountsHold`:
      the total paid is principal plus interest, nothing is negative, and
      the total paid differs from the sum of the loans' own totals paid by
      at most a cent per loan. */
  lemma CombineTotals(rs: seq<LoanResult>)
    requires forall i :: 0 <= i < |rs| ==> SummaryAmountsHold(rs[i])
    ensures var r := Combine(rs);
      && r.totalPrincipal >= 0.0
      && r.totalInterest >= 0.0
      && r.totalPaid >= r.totalPrincipal
      && var cents := 0.01 * |rs| as real;
         -cents <= r.totalPaid - Sum(Column(rs, PaidAmount)) <= cents
  {
    ColumnSums(rs);
  }

  /** The totals of a valid form, by `CombineTotals`. */
  lemma AggregateTotals(state: FormState)
    requires FormIsValid(state)
    ensures var r := CalculateAggregateSummary(state);
      && r.totalPrincipal >= 0.0
      && r.totalInterest >= 0.0
      && r.totalPaid >= r.totalPrincipal
      && var cents := 0.01 * |r.loans| as real;
         -cents <= r.totalPaid - Sum(Column(r.loans, PaidAmount)) <= cents
  {
    SummariesHold(state);
    CombineTotals(Summaries(state));
  }

  /** Summaries without interest total no interest, and their total paid is
      their total principal. */
  lemma CombineWithoutInterest(rs: seq<LoanResult>)
    requires forall i :: 0 <= i < |rs| ==> rs[i].totalInterest == 0.0
    ensures var r := Combine(rs);
      r.totalInterest == 0.0 && r.totalPaid == r.totalPrincipal
  {
    SumOfZeros(Column(rs, InterestAmount));
  }

  /** When every loan is at a zero rate, no interest is paid in total and
      the total paid is the total principal. */
  lemma AggregateZeroRate(state: FormState)
    requires FormIsValid(state)
    requires forall i :: 0 <= i < |state.loans| ==> state.loans[i].aprPct == Some(0.0)
    ensures var r := CalculateAggregateSummary(state);
      r.totalInterest == 0.0 && r.totalPaid == r.totalPrincipal
  {
    var rs := Summaries(state);
    forall i | 0 <= i < |rs|
      ensures rs[i].totalInterest == 0.0
    {
      ZeroRateLoan(LoanInputOf(state, i));
    }
    CombineWithoutInterest(rs);
  }
}
