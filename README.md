# Student loan payoff calculator — verified model

This project models the calculation core of a one-page student loan
calculator, `index.js`. The calculator reads a form with a "today" date, a
graduation date and one or more loans. Each loan has a balance, an APR in
percent, a term in whole years, a grace period in months, an origination
date, and a flag saying whether it is subsidized. The core:

- validates the form into a map from field key (`global||<field>` or
  `loan|<i>|<field>`) to message;
- summarises each loan:
  - Payments start at graduation plus the grace months.
  - Interest accrues by daily compounding from the accrual start to the
    payment start and is capitalised. The accrual start is graduation for a
    subsidized loan and origination otherwise.
  - The level monthly payment comes from the annuity formula, rounded to
    cents.
  - A month-by-month repayment loop, bounded by the term plus 360 months,
    yields the interest paid and the payoff date.
- aggregates the summaries: column totals and the latest payoff date.

Modules, one per file:

| file | module | what it models |
|---|---|---|
| `options.dfy` | `Options` | `Option`, standing for `null`/`NaN` |
| `numbers.dfy` | `Numbers` | `Math.round`, `round2`, `Math.pow` to a whole power, `sum` |
| `text.dfy` | `Text` | the `String`, `padStart`, `split` and `parseInt` behaviour the date helpers use |
| `datemath.dfy` | `DateMath` | UTC calendar dates, `Date.UTC` normalisation, `parseDate`, `toInputValue`, `addMonths`, `daysInMonth`, `diffDays`, `lt`, `lte`, `gt` |
| `validation.dfy` | `Validation` | `validate`, with the `forEach` over loans as a method |
| `loancalc.dfy` | `LoanCalc` | `calculateSingleLoanSummary`: a specification function plus a method holding the repayment `while` loop |
| `aggregate.dfy` | `Aggregate` | `calculateAggregateSummary` as map, sums and a fold |

Modelling choices:

- **Dates.** A date is a Gregorian (year, month, day) triple. Every date in
  the calculator is UTC midnight, so `getTime()` is modelled as whole days
  since 1970-01-01 times 86 400 000.
- **`Date.UTC`.** Its normalisation is modelled: an out-of-range month
  carries into the year, and an out-of-range day carries into neighbouring
  months. So is its rule that a year from 0 to 99 means 1900 to 1999.
- **Money and rates** are exact `real`s. `round2` is `Math.round(100x)/100`,
  and `Math.round` rounds half up, that is `floor(y + 1/2)`.
- **Whole years.** The term is read with `parseInt`, so `Math.round(termYears
  * 12)` is `12 * termYears`.
- **Whole powers.** Both powers in the formulas have whole exponents.
  - The daily compounding exponent is a whole number of days.
  - `(1 + r)^-n` is written `1 / (1 + r)^n`.
- **Specification and method.** `LoanCalc.LoanSummary` states what
  `calculateSingleLoanSummary` returns. Its repayment loop is the recursive
  function `LoanCalc.Simulate`. The method `LoanCalc.CalculateSingleLoanSummary`
  runs the source's `while` loop with its `break`, and is proved equal to that
  specification.
- **The aggregate** takes a validated form. `handleCalculate` calls
  `calculateAggregateSummary` only when `validate` returned no errors.

## Model

| member | source | states |
|---|---|---|
| Numbers.Round | index.js:490 | `Math.round` is the integer within half of its argument, halves rounding up |
| Numbers.Round2 | index.js:489-491 | `round2` yields whole cents within half a cent of its argument (`x - 0.005 < y <= x + 0.005`) |
| Numbers.Round2Exact | index.js:489-491 | an amount already in whole cents is unchanged by `round2` |
| Numbers.Round2Idempotent | index.js:489-491 | rounding to cents twice is rounding once |
| Numbers.Round2NonNegative | index.js:489-491 | a non-negative amount rounds to a non-negative amount |
| Numbers.Round2Monotone | index.js:489-491 | `round2` preserves order |
| Numbers.Round2SumWithinCent | index.js:489-491 | rounding two amounts separately and adding differs from rounding their sum by at most a cent |
| Numbers.Pow | index.js:370 | `Math.pow` to a whole power, repeated multiplication; its meaning is stated by `Numbers.PowAtLeastSimple` and `Numbers.PowAboveOne` |
| Numbers.PowAtLeastSimple | index.js:370 | compound growth is at least simple growth, `(1+a)^n >= 1 + n*a` for `a >= 0` |
| Numbers.PowAboveOne | index.js:383 | a positive rate compounded at least once gives a factor above one, so the annuity denominator is positive |
| Numbers.Sum | index.js:485-487 | `sum` as the left fold from 0; its meaning is stated by `Numbers.SumAppend`, `Numbers.SumNonNegative`, `Numbers.SumsWithin` and `Numbers.SumOfZeros` |
| Numbers.SumAppend | index.js:485-487 | `sum` of a concatenation is the sum of the sums |
| Numbers.SumNonNegative | index.js:485-487 | `sum` of non-negative amounts is non-negative |
| Numbers.SumsWithin | index.js:485-487 | column sums inherit a per-row tolerance, scaled by the row count |
| Numbers.SumOfZeros | index.js:485-487 | `sum` of zeros is zero |
| Text.NatToString | index.js:437-439 | `String(n)` is a non-empty run of digits with no leading zero |
| Text.PadStart2 | index.js:437-438 | `padStart(2, "0")` gives length two, or the original length if longer |
| Text.PadStart2Pads | index.js:437-438 | the padded string is the input with zeros in front |
| Text.Split | index.js:429 | `split` always yields at least one piece |
| Text.SplitWithoutSeparator | index.js:429 | a string without the separator splits into the single piece that is itself |
| Text.SplitAtSeparator | index.js:429 | a separator-free piece followed by the separator splits off as the first piece, ahead of the pieces of the rest |
| Text.DigitPrefixLength | index.js:429 | `parseInt` reads exactly the longest run of leading digits |
| Text.ParseInt | index.js:429 | `parseInt(s, 10)`: an optional sign and the leading digits, `NaN` (`None`) when there are none; its meaning is stated by `Text.DigitPrefixLength`, `Text.ParseIntOfDigits` and `Text.ParseIntPadded` |
| Text.DigitsValueOfNatToString | index.js:429 | reading back the digits of `String(n)` gives `n` |
| Text.ParseIntOfDigits | index.js:429 | `parseInt` of a non-empty digit string is its value |
| Text.ParseIntPadded | index.js:429 | `parseInt` of a zero-padded month or day gives back the number |
| Text.SplitThree | index.js:429 | splitting `a-b-c` whose parts hold no `-` gives exactly `[a, b, c]` |
| DateMath.MonthLength | index.js:453-455 | a Gregorian month has 28 to 31 days |
| DateMath.GetTime | index.js:466-474 | `getTime()` of a UTC-midnight date, the day count since 1970-01-01 times 86 400 000; its meaning is stated by `DateMath.EpochDayOrder` |
| DateMath.Lt | index.js:466-468 | `lt` compares `getTime()`; `DateMath.ComparisonsAreCalendarOrder` states it is strict calendar order |
| DateMath.Lte | index.js:469-471 | `lte` compares `getTime()`; `DateMath.ComparisonsAreCalendarOrder` states it is calendar order |
| DateMath.Gt | index.js:472-474 | `gt` compares `getTime()`; `DateMath.ComparisonsAreCalendarOrder` states it is strict reverse calendar order |
| DateMath.EpochDayOrder | index.js:466-474 | the day count orders dates as the calendar does and is one-to-one |
| DateMath.ComparisonsAreCalendarOrder | index.js:466-474 | `lt`, `lte` and `gt` on `getTime()` are the calendar order (both directions) |
| DateMath.MakeDate | index.js:446-454 | `Date.UTC` day normalisation, an out-of-range day carried into neighbouring months; its meaning is stated by `DateMath.MakeDateCountsDays` |
| DateMath.DateUtc | index.js:431 | `Date.UTC(y, m0, d)`: the two-digit year rule, the month carried into the year, then day normalisation; its meaning is stated by `DateMath.DateUtcOfCalendarDate` and `DateMath.MakeDateCountsDays` |
| DateMath.MakeDateCountsDays | index.js:431 | `Date.UTC` day normalisation lands exactly `d - 1` days after the first of the month |
| DateMath.DaysInMonth | index.js:453-455 | `daysInMonth` is the length of the month in the year `Date.UTC` reads (0 to 99 as 1900 to 1999): 28 to 31, and 29 exactly for February of a leap year so read |
| DateMath.UtcYearMonthLength | index.js:453-455 | the 1900s year shift changes no month length except for year 0 |
| DateMath.AddMonths | index.js:442-451 | `addMonths` lands in month `(m + n) mod 12`, the year carried by floor division from the year `Date.UTC` reads (0 to 99 as 1900 to 1999), the day clamped to the target month's length |
| DateMath.AddMonthsGregorian | index.js:442-451 | from year 100 on and for forward shifts (`months >= 0`), `addMonths` is plain Gregorian month arithmetic with clamping |
| DateMath.AddMonthsZero | index.js:442-451 | adding zero months returns the same date |
| DateMath.AddMonthsClampsToMonthEnd | index.js:447-449 | outside years 0 to 99, January 31 plus one month is February 29 in a leap year and February 28 otherwise |
| DateMath.AddMonthsNotEarlier | index.js:442-451 | adding months never moves a date earlier, and adding one or more moves it strictly later |
| DateMath.DiffDays | index.js:457-460 | `diffDays` is the day-count difference when `a <= b` and 0 otherwise |
| DateMath.DiffDaysCountsCalendarDays | index.js:457-460 | `diffDays` is never negative, is 0 from a date to itself and from a later date, and stepping that many days from `a` reaches `b` |
| DateMath.ParseDate | index.js:427-432 | `parseDate`; its meaning is stated by `DateMath.ParseDateFields`, `DateMath.ParseInputValueFields` and `DateMath.ParseDateOfInputValue` |
| DateMath.ToInputValue | index.js:434-440 | `toInputValue`, `YYYY-MM-DD` with month and day padded; its meaning is stated by `DateMath.ParseInputValueFields` and `DateMath.ParseDateOfInputValue` |
| DateMath.ParseDateOfInputValue | index.js:427-440 | `parseDate(toInputValue(d))` is `d` from year 100 on; years 1 to 99 come back in the 1900s; years up to 0 give `null` |
| DateMath.DateUtcOfCalendarDate | index.js:431 | for any year but 0, `Date.UTC` of a calendar date keeps month and day and applies only the two-digit year rule |
| DateMath.ParseInputValueFields | index.js:429-431 | the three fields of `toInputValue` parse back to year, month and day |
| DateMath.ParseDateFields | index.js:427-432 | `parseDate` is `null` for the empty string, for one field and for two fields; for three fields it is a date exactly when every field parses to a non-zero number |
| Validation.Validate | index.js:271-308 | a key is in the map exactly when its rule fails, its value is that rule's message, and the map is empty exactly when the form is valid |
| Validation.CheckLoan | index.js:280-305 | one loan's rules add exactly that loan's failing keys with their messages; the ordering message replaces the origination message when both dates parsed |
| Validation.CheckStep | index.js:280-305 | applying one more loan rule extends the set of checked fields by that rule |
| Validation.NoFailureMeansValid | index.js:271-308 | the form is valid exactly when no rule fails |
| Validation.KeyTextInjective | index.js:274-302 | distinct fields get distinct key strings, so no rule overwrites another's entry |
| Validation.KeyParts | index.js:274-302 | a key string splits at the bar character into kind, loan index and field name |
| LoanCalc.CapitalizedInterest | index.js:363-372 | capitalised interest is non-negative, and 0 when the rate is 0 or accrual starts after payments start |
| LoanCalc.Accrued | index.js:370-371 | interest accrued, floored at 0 |
| LoanCalc.CapitalizedInterestOverDays | index.js:366-371 | with a positive rate and accrual before payment start, capitalised interest is daily compounding over the calendar days between them |
| LoanCalc.AccruedCompounds | index.js:368-371 | daily-compounded interest is at least simple interest and positive exactly when principal and days are positive |
| LoanCalc.IdealPayment | index.js:377-385 | the unrounded level payment: the even split at rate 0, the annuity otherwise; its meaning is stated by `LoanCalc.IdealPaymentClearsBalance` |
| LoanCalc.Annuity | index.js:383 | `B r / (1 - (1+r)^-n)` with the growth factor as argument; its meaning is stated by `LoanCalc.AnnuityIdentity` and `LoanCalc.AnnuityClearsBalance` |
| LoanCalc.MonthlyPayment | index.js:376-385 | the payment is in whole cents and within half a cent of the exact level payment (even split at rate 0, annuity otherwise) |
| LoanCalc.Simulate | index.js:393-410 | the repayment `while` loop as a recursion from any state; its meaning is stated by `LoanCalc.SimulateOutcome`, `LoanCalc.SimulatePaysOffWithin` and `LoanCalc.SimulateHitsBound` |
| LoanCalc.SimulateOutcome | index.js:393-410 | from any state with a non-negative balance and rate, the loop stops within its bound and makes progress; it ends with the balance 0 or at the bound; the final balance is non-negative; the final interest paid is at least the starting one, and equal to it at rate 0 |
| LoanCalc.SimulatePaysOffWithin | index.js:393-410 | if something is owed and the uncapped balance after `k >= 1` payments is within the tolerance, the loop pays off within `k` more months |
| LoanCalc.SimulateHitsBound | index.js:393-410 | from a balance above one cent, a payment not above the first month's interest never pays off: the loop runs to the bound |
| LoanCalc.ScheduleOutcome | index.js:388-410 | for a positive balance: `1 <= months <= nMonths + 360`, ends paid off or at the bound, balance and interest non-negative, no interest at rate 0 |
| LoanCalc.SchedulePaidOffWithinTerm | index.js:377-410 | for any positive balance, when rounding did not lower the payment, the loan is paid off within its term |
| LoanCalc.ScheduleRunsToBound | index.js:393-410 | for a balance above one cent, when the payment does not cover the interest, the loop reaches `nMonths + 360` without paying off |
| LoanCalc.BalanceAfterClosedForm | index.js:393-404 | the uncapped balance after `k` payments is `B q^k - P (q^k - 1)/(q - 1)` |
| LoanCalc.IdealPaymentClearsBalance | index.js:377-385 | the unrounded level payment clears the balance in exactly `nMonths` payments |
| LoanCalc.EvenPaymentsClearBalance | index.js:378-379 | at rate 0, `nMonths` payments of `balance / nMonths` clear the balance |
| LoanCalc.AnnuityClearsBalance | index.js:380-384 | at a positive rate, `nMonths` annuity payments clear the balance |
| LoanCalc.AnnuityIdentity | index.js:383 | the algebraic identity behind the annuity formula |
| LoanCalc.BalanceAfterAntitone | index.js:393-404 | a larger payment leaves a smaller balance |
| LoanCalc.CalculateSingleLoanSummary | index.js:344-424 | the method, with its `while` loop and `break`, returns exactly the specified loan summary |
| LoanCalc.LoanSummary | index.js:344-424 | what `calculateSingleLoanSummary` returns; the method `LoanCalc.CalculateSingleLoanSummary` is proved equal to it, and its meaning is stated by `LoanCalc.LoanSchedule`, `LoanCalc.LoanStartingBalance`, `LoanCalc.LoanInterestAmounts`, `LoanCalc.LoanTotalPaid`, `LoanCalc.LoanPayment` and `LoanCalc.ZeroRateLoan` |
| LoanCalc.LoanSchedule | index.js:358-412 | payment start is graduation plus grace; payoff is `addMonths(paymentStart, months)` with `1 <= months <= nMonths + 360`, ending paid off or at the bound |
| LoanCalc.LoanStartingBalance | index.js:374-417 | the reported starting balance is at least the reported principal, which is non-negative |
| LoanCalc.LoanInterestAmounts | index.js:364-419 | reported capitalised interest and total interest are non-negative |
| LoanCalc.LoanTotalPaid | index.js:415-420 | total paid is at least the principal and within a cent of principal plus total interest |
| LoanCalc.SummaryTotals | index.js:414-420 | for any loop outcome, the rounded totals satisfy the same two bounds |
| LoanCalc.LoanPayment | index.js:418 | the reported payment equals the quoted payment |
| LoanCalc.ZeroRateLoan | index.js:366-420 | at rate 0 nothing is capitalised, no interest is paid, and total paid equals principal |
| Aggregate.LoanInputOf | index.js:312-321 | each loan of a valid form gives a computable input with a positive balance whose origination is not after graduation |
| Aggregate.LatestPayoff | index.js:328-332 | the fold is `null` exactly for no loans; otherwise it is one of the payoff dates and no payoff date is later |
| Aggregate.Summaries | index.js:312-322 | one summary per loan, in form order, each the summary of that loan |
| Aggregate.Combine | index.js:324-341 | totals are the sums of the per-loan columns, total paid is principal plus interest, the loans are returned unchanged; the final payoff date is `null` exactly for no loans, otherwise one of the loans' payoff dates and no earlier than any of them |
| Aggregate.CalculateAggregateSummary | index.js:311-342 | same length and order as the form's loans, each the loan's own summary; totals are the column sums with total paid principal plus interest; final payoff date `null` exactly when there are no loans, otherwise one of the loans' payoff dates and never earlier than any of them |
| Aggregate.SummariesHold | index.js:312-322 | every summary of a valid form has non-negative principal and interest and a total paid within a cent of their sum |
| Aggregate.ColumnSums | index.js:324-327 | principal and interest column sums are non-negative and within a cent per loan of the paid column |
| Aggregate.CombineTotals | index.js:324-327 | total principal and interest are non-negative, total paid is at least total principal and within a cent per loan of the sum of the loans' totals paid |
| Aggregate.AggregateTotals | index.js:311-342 | the same bounds for the summary of any valid form |
| Aggregate.CombineWithoutInterest | index.js:326-327 | summaries without interest give total interest 0 and total paid equal to total principal |
| Aggregate.AggregateZeroRate | index.js:311-342 | when every loan's rate is 0, total interest is 0 and total paid is total principal |

## Left out

- DOM work is not part of this model: event wiring, loan widgets, `displayResults`, `displayErrors`, `clearErrors`, `setLoading`.
- `setDefaultDates` is not part of this model: it reads the wall clock.
- `readFormState`, `toNumber` and `toInt` are not part of this model. They read widgets and apply JavaScript number parsing. The model takes typed fields, with `None` for `NaN` or an unparsable date.
- `formatCurrency` is not part of this model: it wraps `Intl.NumberFormat`.
- The `try`/`catch` in `handleCalculate` is not part of this model: it is presentation-level handling.
- IEEE-754 doubles are not modelled. Money is exact, so neither the `Number.EPSILON` nudge in `round2` nor the representation error of `Math.pow` and of the loop's running sums is captured.
- JavaScript's "Invalid Date" is not modelled. A `Date.UTC` result outside the ±8.64e15 ms range never arises, because dates are unbounded triples.
- `parseInt`'s skipping of leading whitespace is not modelled. Neither is its reading of a `0x` prefix, which cannot occur in base 10.
- The form's "today" date is validated and otherwise unused, as in the source.
- The loop bound carries no failure flag, as in the source. `LoanCalc.ScheduleRunsToBound` states when the bound is reached.
- LoanCalc.SchedulePaidOffWithinTerm: requires that rounding the payment to cents did not lower it. A payment rounded down can leave a residue above the one-cent tolerance after `nMonths` payments, so the loan is then only known to end by `nMonths + 360`.
- LoanCalc.SimulateHitsBound: stated only from a balance above one cent. A smaller balance is written off in the first month even when the payment is 0, as the source does.
- LoanCalc.ScheduleRunsToBound: stated only for a balance above one cent, for the same reason as LoanCalc.SimulateHitsBound.
- DateMath.AddMonthsGregorian: stated only for forward shifts from year 100 on. A backward shift can land in years 0 to 99, where the clamp reads the month length of the 1900s year.
- DateMath.DateUtcOfCalendarDate: stated for every year but 0. February 29 of year 0 is read as a day of 1900, which has no February 29, so it becomes March 1.
- DateMath.AddMonthsClampsToMonthEnd: holds only outside years 0 to 99, for the same reason as DateMath.AddMonthsZero.
- DateMath.AddMonthsZero: holds only outside years 0 to 99. There `Date.UTC` moves the year into the 1900s, as the source does.
- DateMath.ParseDateOfInputValue: the round trip is exact only from year 100 on, for the same two-digit-year rule of `Date.UTC`.
