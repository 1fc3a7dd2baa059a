/** Input validation: the rules the form must pass before anything is
    calculated, collected (not fail-fast) into a map from field key to
    message. */
module Validation {
  import opened Options
  import opened Text
  import opened DateMath

  /** One loan section as read from the form. A number field that read as
      `NaN` and a date field that did not parse are `None`. */
  datatype LoanForm = LoanForm(
    balance: Option<real>,
    aprPct: Option<real>,
    termYears: Option<int>,
    graceMonths: Option<int>,
    originationDate: Option<Date>,
    subsidized: bool)

  datatype FormState = FormState(today: Option<Date>, graduationDate: Option<Date>, loans: seq<LoanForm>)

  datatype GlobalField = Today | GraduationDate
  datatype LoanField = Balance | Apr | TermYears | GraceMonths | OriginationDate

  /** A key of the error map, written `global||<field>` or `loan|<i>|<field>`. */
  datatype ErrorKey = GlobalKey(global: GlobalField) | LoanKey(index: nat, field: LoanField)

  function GlobalFieldName(f: GlobalField): string {
    match f
    case Today => "today"
    case GraduationDate => "graduationDate"
  }

  function LoanFieldName(f: LoanField): string {
    match f
    case Balance => "balance"
    case Apr => "apr"
    case TermYears => "termYears"
    case GraceMonths => "graceMonths"
    case OriginationDate => "originationDate"
  }

  /** The key as the error map spells it. */
  function KeyText(k: ErrorKey): string {
    match k
    case GlobalKey(f) => "global||" + GlobalFieldName(f)
    case LoanKey(i, f) => "loan|" + NatToString(i) + "|" + LoanFieldName(f)
  }

  const TodayMessage := "Please enter a valid today's date."
  const GraduationMessage := "Please enter a valid graduation date."
  const BalanceMessage := "Balance must be greater than 0."
  const AprMessage := "APR must be 0 or greater."
  const TermMessage := "Term must be at least 1 year."
  const GraceMessage := "Grace period cannot be negative."
  const OriginationMessage := "Enter a valid origination date."
  const OriginationOrderMessage := "Origination must be on or before graduation."

  /** Whether field `f` of a loan passes its rule. A comparison with `NaN`
      is false, so a number that did not read fails; the origination date
      must parse and, when the graduation date parsed too, must not be
      after it. */
  predicate FieldPasses(ln: LoanForm, f: LoanField, graduation: Option<Date>) {
    match f
    case Balance => ln.balance.Some? && ln.balance.value > 0.0
    case Apr => ln.aprPct.Some? && ln.aprPct.value >= 0.0
    case TermYears => ln.termYears.Some? && ln.termYears.value > 0
    case GraceMonths => ln.graceMonths.Some? && ln.graceMonths.value >= 0
    case OriginationDate =>
      ln.originationDate.Some? && !(graduation.Some? && Lt(graduation.value, ln.originationDate.value))
  }

  /** Whether the form holds an error under key `k`. */
  predicate Fails(state: FormState, k: ErrorKey) {
    match k
    case GlobalKey(Today) => state.today.None?
    case GlobalKey(GraduationDate) => state.graduationDate.None?
    case LoanKey(i, f) => i < |state.loans| && !FieldPasses(state.loans[i], f, state.graduationDate)
  }

  /** The message stored under a failing key: for the origination date, the
      ordering message only when the date itself parsed. */
  function Message(state: FormState, k: ErrorKey): string {
    match k
    case GlobalKey(Today) => TodayMessage
    case GlobalKey(GraduationDate) => GraduationMessage
    case LoanKey(i, Balance) => BalanceMessage
    case LoanKey(i, Apr) => AprMessage
    case LoanKey(i, TermYears) => TermMessage
    case LoanKey(i, GraceMonths) => GraceMessage
    case LoanKey(i, OriginationDate) =>
      if i < |state.loans| && state.loans[i].originationDate.None? then OriginationMessage
      else OriginationOrderMessage
  }

  /** A loan the calculation accepts. */
  predicate LoanIsValid(ln: LoanForm, graduation: Date) {
    && ln.balance.Some? && ln.balance.value > 0.0
    && ln.aprPct.Some? && ln.aprPct.value >= 0.0
    && ln.termYears.Some? && ln.termYears.value > 0
    && ln.graceMonths.Some? && ln.graceMonths.value >= 0
    && ln.originationDate.Some? && Lte(ln.originationDate.value, graduation)
  }

  /** A form the calculation accepts: both global dates valid and every
      loan valid, its origination on or before graduation. */
  predicate FormIsValid(state: FormState) {
    && state.today.Some?
    && state.graduationDate.Some?
    && forall i :: 0 <= i < |state.loans| ==> LoanIsValid(state.loans[i], state.graduationDate.value)
  }

  /** `validate(state)`: one entry per broken rule, keyed by the field. The
      map is empty exactly when the form is valid. */
  method Validate(state: FormState) returns (errors: map<ErrorKey, string>)
    ensures forall k :: k in errors <==> Fails(state, k)
    ensures forall k :: k in errors ==> errors[k] == Message(state, k)
    ensures errors == map[] <==> FormIsValid(state)
  {
    errors := map[];
    if state.today.None? {
      errors := errors[GlobalKey(Today) := TodayMessage];
    }
    if state.graduationDate.None? {
      errors := errors[GlobalKey(GraduationDate) := GraduationMessage];
    }
    var i := 0;
    while i < |state.loans|
      invariant 0 <= i <= |state.loans|
      invariant forall k :: k in errors <==> Fails(state, k) && (k.LoanKey? ==> k.index < i)
      invariant forall k :: k in errors ==> errors[k] == Message(state, k)
    {
      errors := CheckLoan(state, i, errors);
      i := i + 1;
    }
    NoFailureMeansValid(state);
    if FormIsValid(state) {
      assert forall k :: k !in errors;
      assert errors.Keys == {};
    }
  }

  /** The `forEach` callback for loan `i`: adds an entry for each of that
      loan's broken rules and leaves every other entry alone. */
  method CheckLoan(state: FormState, i: nat, errors: map<ErrorKey, string>) returns (updated: map<ErrorKey, string>)
    requires i < |state.loans|
    requires forall k :: k in errors ==> !(k.LoanKey? && k.index == i)
    ensures Checked(state, i, errors, updated, 5)
  {
    var ln := state.loans[i];
    updated := errors;
    ghost var before := updated;
    if !(ln.balance.Some? && ln.balance.value > 0.0) {
      updated := updated[LoanKey(i, Balance) := BalanceMessage];
    }
    CheckStep(state, i, errors, before, updated, Balance);
    before := updated;
    if !(ln.aprPct.Some? && ln.aprPct.value >= 0.0) {
      updated := updated[LoanKey(i, Apr) := AprMessage];
    }
    CheckStep(state, i, errors, before, updated, Apr);
    before := updated;
    if !(ln.termYears.Some? && ln.termYears.value > 0) {
      updated := updated[LoanKey(i, TermYears) := TermMessage];
    }
    CheckStep(state, i, errors, before, updated, TermYears);
    before := updated;
    if !(ln.graceMonths.Some? && ln.graceMonths.value >= 0) {
      updated := updated[LoanKey(i, GraceMonths) := GraceMessage];
    }
    CheckStep(state, i, errors, before, updated, GraceMonths);
    before := updated;
    if ln.originationDate.None? {
      updated := updated[LoanKey(i, OriginationDate) := OriginationMessage];
    }
    if ln.originationDate.Some? && state.graduationDate.Some? && Lt(state.graduationDate.value, ln.originationDate.value) {
      updated := updated[LoanKey(i, OriginationDate) := OriginationOrderMessage];
    }
    CheckStep(state, i, errors, before, updated, OriginationDate);
  }

  /** One rule of the callback: the entry for field `f` is added, with its
      message, exactly when that rule fails. */
  lemma CheckStep(state: FormState, i: nat, errors: map<ErrorKey, string>, before: map<ErrorKey, string>, after: map<ErrorKey, string>, f: LoanField)
    requires i < |state.loans|
    requires forall k :: k in errors ==> !(k.LoanKey? && k.index == i)
    requires Checked(state, i, errors, before, FieldRank(f))
    requires after == if Fails(state, LoanKey(i, f)) then before[LoanKey(i, f) := Message(state, LoanKey(i, f))] else before
    ensures Checked(state, i, errors, after, FieldRank(f) + 1)
  {
  }

  /** The order in which the callback checks the fields. */
  function FieldRank(f: LoanField): nat {
    match f
    case Balance => 0
    case Apr => 1
    case TermYears => 2
    case GraceMonths => 3
    case OriginationDate => 4
  }

  /** `updated` is `errors` plus an entry, with its message, for each rule
      among the first `n` that loan `i` breaks. */
  ghost predicate Checked(state: FormState, i: nat, errors: map<ErrorKey, string>, updated: map<ErrorKey, string>, n: nat) {
    && (forall k :: k in updated <==> k in errors || (k.LoanKey? && k.index == i && FieldRank(k.field) < n && Fails(state, k)))
    && (forall k :: k in updated ==> updated[k] == if k in errors then errors[k] else Message(state, k))
  }

  lemma NoFailureMeansValid(state: FormState)
    ensures FormIsValid(state) <==> forall k :: !Fails(state, k)
  {
    if forall k :: !Fails(state, k) {
      assert !Fails(state, GlobalKey(Today)) && !Fails(state, GlobalKey(GraduationDate));
      forall i | 0 <= i < |state.loans|
        ensures LoanIsValid(state.loans[i], state.graduationDate.value)
      {
        assert !Fails(state, LoanKey(i, Balance)) && !Fails(state, LoanKey(i, Apr));
        assert !Fails(state, LoanKey(i, TermYears)) && !Fails(state, LoanKey(i, GraceMonths));
        assert !Fails(state, LoanKey(i, OriginationDate));
      }
    }
  }

  /** Distinct keys are spelled differently, so no rule's message lands on
      another's entry: splitting the text on `|` gives back scope, index
      and field. */
  lemma KeyTextInjective(k1: ErrorKey, k2: ErrorKey)
    requires KeyText(k1) == KeyText(k2)
    ensures k1 == k2
  {
    KeyParts(k1);
    KeyParts(k2);
    if k1.LoanKey? && k2.LoanKey? {
      DigitsValueOfNatToString(k1.index);
      DigitsValueOfNatToString(k2.index);
    }
  }

  /** The three `|`-separated parts of a key. */
  lemma KeyParts(k: ErrorKey)
    ensures k.GlobalKey? ==> Split(KeyText(k), '|') == ["global", "", GlobalFieldName(k.global)]
    ensures k.LoanKey? ==> Split(KeyText(k), '|') == ["loan", NatToString(k.index), LoanFieldName(k.field)]
  {
    match k
    case GlobalKey(f) =>
      assert KeyText(k) == "global" + ['|'] + "" + ['|'] + GlobalFieldName(f);
      SplitThree("global", "", GlobalFieldName(f), '|');
    case LoanKey(i, f) =>
      var digits := NatToString(i);
      assert '|' !in digits by {
        assert forall j :: 0 <= j < |digits| ==> IsDigit(digits[j]);
      }
      assert KeyText(k) == "loan" + ['|'] + digits + ['|'] + LoanFieldName(f);
      SplitThree("loan", digits, LoanFieldName(f), '|');
  }
}
