/**
 The kernel in the decimal context of its request: every arithmetic result is rounded by a function `fl`.
 Whenever `fl` leaves alone what the context can hold, nothing but the division per unit depends on it.
 */
module KernelContext {
  import opened Base
  import opened Rounding
  import opened Values
  import opened Kernel
  import opened KernelTheorems
  import opened KernelPrecision
  import opened KernelOracle
  import Oracle
  import Precision

  // ----- The operations in a context

  /** The value of one arithmetic operation, rounded. */
  function Rounded(v: Value, fl: real -> real): Value {
    if v.Valid? && v.scalar.Num? then Valid(Num(fl(v.scalar.n)), v.sig, v.sources) else v
  }

  /** `_money_sum`: every step of the sum is rounded. */
  function MoneySumIn(terms: seq<Term>, currency: string, fl: real -> real): Value {
    var sum := MoneySum(terms, currency);
    if sum.Valid? then Valid(Num(SumIn(terms, fl)), sum.sig, sum.sources) else sum
  }

  /** An amount in money is used as it is; an amount per item has been multiplied. */
  function AmountIn(amount: Value, given: Input, fl: real -> real): Value {
    if given.sig.unit == "MONEY" then amount else Rounded(amount, fl)
  }

  function AmountsIn(r: Request, terms: seq<Term>, fl: real -> real): seq<Term>
    requires |terms| == |r.expenses|
  {
    seq(|terms|, i requires 0 <= i < |terms| => Term(terms[i].sign, AmountIn(terms[i].value, r.expenses[i].value, fl)))
  }

  function OtherExpenseIn(r: Request, net: Value, fl: real -> real): Result<Value, KernelError> {
    if r.expenses == [] then
      OtherExpense(r, net)
    else
      var expenses :- ExpensesUpTo(r, net, |r.expenses|);
      match expenses
      case Stopped(value) => Ok(value)
      case Terms(terms) =>
        OneTermEach(r, net, |r.expenses|);
        Ok(MoneySumIn(AmountsIn(r, terms, fl), r.currency, fl))
  }

  function IncomeIn(inputs: Inputs, currency: string, fl: real -> real): Value {
    var compensation := Compensation(inputs, currency);
    if compensation.NonValid? then PrimaryReason(compensation, Money(currency))
    else MoneySumIn(IncomeTerms(inputs, compensation, currency), currency, fl)
  }

  /** The metrics before the final rounding, as the context computes them. */
  function RawIn(r: Request, fl: real -> real): Result<Results, KernelError> {
    var inputs :- AdmitInputs(r);
    var gross, returned := Expect(inputs, GrossSalesUnits, ITEMS), Expect(inputs, ReturnedUnits, ITEMS);
    var resalable, compensated := Expect(inputs, ResalableReturnedUnits, ITEMS),
      Expect(inputs, CompensatedReturnedUnits, ITEMS);
    var net := NetUnits(gross, returned);
    var units := CostUnits(gross, returned, resalable, compensated);
    var _ :- Need(Explained(units), Rejected(ValueReasonInvalid));
    var perUnit :- Lift(Admit(Binding(Given("cost_per_unit"), r.costPerUnit), r.policy));
    var cost := Rounded(ProductCost(units, perUnit, r.currency), fl);
    var other :- OtherExpenseIn(r, net, fl);
    var income := IncomeIn(inputs, r.currency, fl);
    var _ :- Need(Explained(income), Rejected(ValueReasonInvalid));
    var rate :- Lift(Admit(Binding(Given("tax_rate"), r.taxRate), r.policy));
    var tax := Rounded(Tax(Bases(inputs, income, cost, other), r.taxBase, rate, r.currency), fl);
    var profit := MoneySumIn(ProfitTermsOf(income, cost, other, tax), r.currency, fl);
    Ok(Results(net, cost, other, tax, income, profit,
               Rounded(ProfitPerUnit(profit, net, r.currency), fl), PROFITABILITY))
  }

  function ProfitTermsOf(income: Value, cost: Value, other: Value, tax: Value): seq<Term> {
    [Term(1, income), Term(-1, cost), Term(-1, other), Term(-1, tax)]
  }

  /** `calculate`, in the context. */
  function CalculatedIn(r: Request, fl: real -> real): Result<Results, KernelError> {
    var _ :- Need(IsCurrency(r.currency), CurrencyInvalid);
    var _ :- Need(r.inputs.Keys <= UNIT_INPUTS + MONEY_INPUTS, InputsInvalid);
    var _ :- Need(|r.expenses| <= MAX_EXPENSES, ExpensesInvalid);
    var raw :- RawIn(r, fl);
    Reported(raw, r.policy)
  }

  lemma {:induction false} OneTermEach(r: Request, net: Value, n: nat)
    requires n <= |r.expenses| && ExpensesUpTo(r, net, n).Ok? && ExpensesUpTo(r, net, n).value.Terms?
    ensures |ExpensesUpTo(r, net, n).value.terms| == n
  {
    hide Admit, ExpenseAmount, ExpenseSig;
    if n > 0 {
      OneTermEach(r, net, n - 1);
    }
  }

  // ----- What the context leaves alone

  /** The function rounds no result that fits the context of the request. */
  ghost predicate Holds(r: Request, fl: real -> real) {
    Precision.ExactUpTo(fl, Precision.ContextPrecision(r.policy, Operations(r)))
  }

  lemma RoundedIsSame(v: Value, fl: real -> real)
    requires fl(NumOf(v)) == NumOf(v)
    ensures Rounded(v, fl) == v
  {
  }

  lemma SumIsSame(terms: seq<Term>, currency: string, fl: real -> real)
    requires SumIn(terms, fl) == SignedTotal(terms)
    ensures MoneySumIn(terms, currency, fl) == MoneySum(terms, currency)
  {
    hide SumIn, SignedTotal;
    if MoneySum(terms, currency).Valid? {
      SumValid(terms, currency);
    }
    hide MoneySum;
  }

  lemma AmountsAreSame(r: Request, terms: seq<Term>, fl: real -> real)
    requires |terms| == |r.expenses| && forall t <- terms :: fl(NumOf(t.value)) == NumOf(t.value)
    ensures AmountsIn(r, terms, fl) == terms
  {
    hide NumOf, Rounded;
    forall i | 0 <= i < |terms|
      ensures AmountsIn(r, terms, fl)[i] == terms[i]
    {
      assert terms[i] in terms;
      RoundedIsSame(terms[i].value, fl);
    }
  }

  lemma OtherIsSame(r: Request, net: Value, fl: real -> real)
    requires Modest(net, r.policy) && |r.expenses| <= MAX_EXPENSES && Holds(r, fl)
    ensures OtherExpenseIn(r, net, fl) == OtherExpense(r, net)
  {
    hide Modest, ExpensesUpTo, MoneySum, MoneySumIn, AmountsIn, SumIn, SignedTotal, NumOf;
    if r.expenses != [] {
      var expenses := ExpensesUpTo(r, net, |r.expenses|);
      if expenses.Ok? && expenses.value.Terms? {
        var terms := expenses.value.terms;
        OneTermEach(r, net, |r.expenses|);
        ExpensesAreExact(r, net, fl);
        AmountsAreSame(r, terms, fl);
        SumIsSame(terms, r.currency, fl);
      }
    }
  }

  lemma IncomeIsSame(r: Request, fl: real -> real)
    requires AdmitInputs(r).Ok? && Holds(r, fl)
    ensures IncomeIn(AdmitInputs(r).value, r.currency, fl) == Income(AdmitInputs(r).value, r.currency)
  {
    hide AdmitInputs, Compensation, IncomeTerms, MoneySum, MoneySumIn, SumIn, SignedTotal, StripPrefix;
    var inputs := AdmitInputs(r).value;
    IncomeIsExact(r, fl);
    SumIsSame(IncomeTerms(inputs, Compensation(inputs, r.currency), r.currency), r.currency, fl);
  }

  lemma UnitsOfRequest(r: Request)
    requires AdmitInputs(r).Ok?
    ensures
      var inputs := AdmitInputs(r).value;
      Modest(NetUnits(Expect(inputs, GrossSalesUnits, ITEMS), Expect(inputs, ReturnedUnits, ITEMS)), r.policy)
  {
    hide AdmitInputs, Expect, NetUnits, Modest;
    var inputs := AdmitInputs(r).value;
    ExpectedIsModest(r, GrossSalesUnits, ITEMS);
    ExpectedIsModest(r, ReturnedUnits, ITEMS);
    NetIsModest(Expect(inputs, GrossSalesUnits, ITEMS), Expect(inputs, ReturnedUnits, ITEMS), r.policy);
  }

  /** The calculation with its division per unit rounded, and nothing else. */
  function DivisionRounded(raw: Results, fl: real -> real): Results {
    raw.(perUnit := Rounded(raw.perUnit, fl))
  }

  /**
   In the context of its request the kernel computes the exact metrics, with the same refusals; only
   the quotient of profit and units is rounded.
   */
  lemma RawInContext(r: Request, fl: real -> real)
    requires |r.expenses| <= MAX_EXPENSES && Holds(r, fl)
    ensures RawIn(r, fl) ==
      match Raw(r) case Err(e) => Err(e) case Ok(raw) => Ok(DivisionRounded(raw, fl))
  {
    hide AdmitInputs, Admit, Expect, NetUnits, CostUnits, ProductCost, OtherExpense, OtherExpenseIn, Income, IncomeIn,
      Tax, Bases, ProfitPerUnit, Rounded, MoneySum, MoneySumIn, Explained, Holds, Modest, SumIn, SignedTotal, NumOf;
    if AdmitInputs(r).Ok? {
      var inputs := AdmitInputs(r).value;
      UnitsOfRequest(r);
      IncomeIsSame(r, fl);
      OtherIsSame(r, NetUnits(Expect(inputs, GrossSalesUnits, ITEMS), Expect(inputs, ReturnedUnits, ITEMS)), fl);
      if Raw(r).Ok? {
        RawIsSame(r, fl);
      }
    }
  }

  lemma RawIsSame(r: Request, fl: real -> real)
    requires Raw(r).Ok? && |r.expenses| <= MAX_EXPENSES && Holds(r, fl)
    ensures
      var raw := Raw(r).value;
      && Rounded(raw.productCost, fl) == raw.productCost && Rounded(raw.tax, fl) == raw.tax
      && MoneySumIn(ProfitTermsOf(raw.income, raw.productCost, raw.otherExpense, raw.tax), r.currency, fl) ==
         MoneySum(ProfitTermsOf(raw.income, raw.productCost, raw.otherExpense, raw.tax), r.currency)
  {
    hide Raw, Rounded, NumOf, SumIn, SignedTotal, MoneySum, MoneySumIn;
    var raw := Raw(r).value;
    KernelIsExact(r, fl);
    RoundedIsSame(raw.productCost, fl);
    RoundedIsSame(raw.tax, fl);
    SumIsSame(ProfitTerms(raw), r.currency, fl);
  }

  // ----- The reported metrics

  lemma RoundedReports(v: Value, p: Policy, fl: real -> real)
    ensures Metric(Rounded(v, fl), p).Ok? == Metric(v, p).Ok?
    ensures Metric(v, p).Err? ==> Metric(Rounded(v, fl), p) == Metric(v, p)
  {
  }

  /** Every reported metric but the one per unit is the exact one, and so is every refusal. */
  lemma CalculatedInContext(r: Request, fl: real -> real)
    requires Holds(r, fl)
    ensures
      var calculated := CalculatedIn(r, fl);
      match Calculated(r)
      case Err(e) => calculated == Err(e)
      case Ok(exact) =>
        && Raw(r).Ok? && calculated.Ok? && calculated.value == exact.(perUnit := calculated.value.perUnit)
        && Metric(Rounded(Raw(r).value.perUnit, fl), r.policy) == Ok(calculated.value.perUnit)
  {
    hide Raw, RawIn, Metric, Rounded, Holds, IsCurrency;
    if |r.expenses| <= MAX_EXPENSES {
      RawInContext(r, fl);
      if Raw(r).Ok? {
        RoundedReports(Raw(r).value.perUnit, r.policy, fl);
      }
    }
  }

  // ----- The division, rounded twice

  /** Rounding keeps the order of numbers. */
  ghost predicate Monotone(fl: real -> real) {
    forall x, y | x <= y :: fl(x) <= fl(y)
  }

  /** The multiples of the last place on either side of a number. */
  function GridAt(k: int, scale: nat): real {
    k as real / Pow10(scale) as real
  }

  /** Numbers between two neighbours of the grid are rounded to one of the two. */
  lemma NeighboursClose(x: real, y: real, k: int, scale: nat, mode: RoundingMode)
    requires GridAt(k, scale) <= x <= GridAt(k + 1, scale) && GridAt(k, scale) <= y <= GridAt(k + 1, scale)
    ensures -Quantum(scale) <= RoundTo(y, scale, mode) - RoundTo(x, scale, mode) <= Quantum(scale)
  {
    hide RoundTo;
    GridIsFixed(k, scale, mode);
    GridIsFixed(k + 1, scale, mode);
    RoundToMonotone(GridAt(k, scale), x, scale, mode);
    RoundToMonotone(x, GridAt(k + 1, scale), scale, mode);
    RoundToMonotone(GridAt(k, scale), y, scale, mode);
    RoundToMonotone(y, GridAt(k + 1, scale), scale, mode);
    GridStep(k, scale);
  }

  lemma GridIsFixed(k: int, scale: nat, mode: RoundingMode)
    ensures RoundTo(GridAt(k, scale), scale, mode) == GridAt(k, scale)
  {
    hide RoundTo, Pow10;
    ScaledOfQuotient(k, scale);
    assert IsWhole(Scaled(GridAt(k, scale), scale), k);
    RoundToFixes(GridAt(k, scale), scale, mode);
  }

  lemma GridStep(k: int, scale: nat)
    ensures GridAt(k + 1, scale) == GridAt(k, scale) + Quantum(scale)
  {
    hide Pow10;
  }

  /** A number below a power of ten lies between two neighbours that a wide enough context leaves alone. */
  lemma BetweenNeighbours(x: real, a: nat, scale: nat, fl: real -> real, limit: nat) returns (k: int)
    requires -(Pow10(a) as real) < x < Pow10(a) as real
    requires Precision.ExactUpTo(fl, limit) && a + scale + 1 <= limit && Monotone(fl)
    ensures GridAt(k, scale) <= x <= GridAt(k + 1, scale)
    ensures GridAt(k, scale) <= fl(x) <= GridAt(k + 1, scale)
  {
    hide Pow10, Precision.ExactUpTo;
    k := Scaled(x, scale).Floor;
    FloorIsBelow(x, k, Pow10(scale));
    FloorIsSmall(x, k, Pow10(a), Pow10(scale));
    Pow10Adds(a, scale);
    GridIsLeftAlone(k, a + scale, scale, fl, limit);
    GridIsLeftAlone(k + 1, a + scale, scale, fl, limit);
  }

  lemma FloorIsBelow(x: real, k: int, p: int)
    requires p >= 1 && k == (x * p as real).Floor
    ensures k as real / p as real <= x <= (k + 1) as real / p as real
  {
    DivideMonotone(k as real, x * p as real, p as real);
    DivideMonotone(x * p as real, (k + 1) as real, p as real);
    assert x * p as real / p as real == x;
  }

  lemma FloorIsSmall(x: real, k: int, b: int, p: int)
    requires -(b as real) < x < b as real && p >= 1 && k == (x * p as real).Floor
    ensures -(b * p) <= k < b * p
  {
    assert (b * p) as real == b as real * p as real;
    assert x * p as real < b as real * p as real;
    assert -(b as real) * p as real < x * p as real;
  }

  lemma GridIsLeftAlone(k: int, digits: nat, scale: nat, fl: real -> real, limit: nat)
    requires -Pow10(digits) <= k <= Pow10(digits) && digits + 1 <= limit && Precision.ExactUpTo(fl, limit)
    ensures fl(GridAt(k, scale)) == GridAt(k, scale)
  {
    assert Pow10(digits + 1) == 10 * Pow10(digits);
    Pow10Grows(digits + 1, limit);
    hide Pow10;
    ScaledOfQuotient(k, scale);
    assert Abs(k) < Pow10(limit) && IsWhole(Scaled(GridAt(k, scale), scale), k);
    assert Precision.Representable(GridAt(k, scale), limit);
  }

  /** The exact quotient is no larger than the profit. */
  lemma QuotientIsSmall(raw: Results, currency: string, n: nat)
    requires Small(raw.profit, 3 * n + 4, 2 * n)
    requires raw.perUnit == ProfitPerUnit(raw.profit, raw.netUnits, currency)
    ensures
      var b := Pow10(3 * n + 4) as real;
      -b < NumOf(raw.perUnit) < b
  {
    hide Propagate, Pow10, Rounding.Fits;
    PropagatedIsNonValid([raw.profit, raw.netUnits], PerItem(currency));
    if raw.perUnit.Valid? {
      SmallerQuotient(NumOf(raw.profit), IntOf(raw.netUnits), Pow10(3 * n + 4) as real);
    }
  }

  lemma SmallerQuotient(x: real, n: int, b: real)
    requires n >= 1 && -b < x < b
    ensures -b < x / n as real < b
  {
    var q := x / n as real;
    assert q * n as real == x;
  }

  lemma ProfitIsSmall(r: Request)
    requires Raw(r).Ok? && |r.expenses| <= MAX_EXPENSES
    ensures Small(Raw(r).value.profit, 3 * r.policy.maxInputPrecision + 4, 2 * r.policy.maxInputPrecision)
    ensures
      var raw := Raw(r).value;
      raw.perUnit == ProfitPerUnit(raw.profit, raw.netUnits, r.currency)
  {
    hide Raw, Small, SmallTerms, MoneySum, ProfitPerUnit, AdmitInputs, Admit, Tax, Bases, ProductCost, CostUnits,
      NetUnits, OtherExpense, Income, Expect;
    var raw, n := Raw(r).value, r.policy.maxInputPrecision;
    RawParts(r);
    RawIsSmall(r);
    ProfitTermsAreSmall(raw, n);
    SumValueSpans(ProfitTerms(raw), r.currency, 3 * n + 2, 2 * n);
  }

  lemma QuotientIsClose(r: Request, fl: real -> real)
    requires Raw(r).Ok? && |r.expenses| <= MAX_EXPENSES && Holds(r, fl) && Monotone(fl)
    ensures
      var q, scale, mode := NumOf(Raw(r).value.perUnit), r.policy.moneyScale, r.policy.calculationMode;
      -Quantum(scale) <= RoundTo(fl(q), scale, mode) - RoundTo(q, scale, mode) <= Quantum(scale)
  {
    hide Raw, Small, ProfitPerUnit, Precision.ExactUpTo, RoundTo, NumOf, Pow10, Monotone;
    var raw, n, scale := Raw(r).value, r.policy.maxInputPrecision, r.policy.moneyScale;
    ProfitIsSmall(r);
    QuotientIsSmall(raw, r.currency, n);
    RoomForGrid(r);
    var limit := Precision.ContextPrecision(r.policy, Operations(r));
    var k := BetweenNeighbours(NumOf(raw.perUnit), 3 * n + 4, scale, fl, limit);
    NeighboursClose(NumOf(raw.perUnit), fl(NumOf(raw.perUnit)), k, scale, r.policy.calculationMode);
  }

  lemma RoomForGrid(r: Request)
    ensures
      var n := r.policy.maxInputPrecision;
      3 * n + 4 + r.policy.moneyScale + 1 <= Precision.ContextPrecision(r.policy, Operations(r))
  {
    var n := r.policy.maxInputPrecision;
    Precision.ProductGrows(8, Operations(r), n);
  }

  /** The value a metric reports for a number, and what it reports when the number was rounded before. */
  lemma MetricOfQuotient(v: Value, p: Policy, fl: real -> real)
    requires Metric(v, p).Ok? && Metric(Rounded(v, fl), p).Ok?
    requires v.Valid? ==> v.scalar.Num? && v.sig.valueType == MONEY
    ensures
      var exact, twice := Metric(v, p).value, Metric(Rounded(v, fl), p).value;
      if v.NonValid? then exact == v && twice == v
      else
        && exact == Valid(Num(RoundTo(v.scalar.n, p.moneyScale, p.calculationMode)), v.sig, v.sources)
        && twice == Valid(Num(RoundTo(fl(v.scalar.n), p.moneyScale, p.calculationMode)), v.sig, v.sources)
  {
    hide RoundTo;
  }

  lemma QuotientIsMoney(profit: Value, net: Value, currency: string)
    ensures
      var q := ProfitPerUnit(profit, net, currency);
      q.Valid? ==> q.scalar.Num? && q.sig.valueType == MONEY
  {
    hide Propagate;
    PropagatedIsNonValid([profit, net], PerItem(currency));
  }

  /** The same value, or the same but for one unit in the last place. */
  predicate OneUnitApart(exact: Value, twice: Value, scale: nat) {
    if exact.Valid? && exact.scalar.Num? then
      && twice.Valid? && twice.scalar.Num? && twice.sig == exact.sig && twice.sources == exact.sources
      && -Quantum(scale) <= twice.scalar.n - exact.scalar.n <= Quantum(scale)
    else
      twice == exact
  }

  /** Profit per unit, rounded in the context and finally, is off by one unit in the last place at most. */
  lemma PerUnitIsClose(r: Request, fl: real -> real)
    requires Holds(r, fl) && Monotone(fl) && Calculated(r).Ok?
    ensures CalculatedIn(r, fl).Ok?
    ensures OneUnitApart(Calculated(r).value.perUnit, CalculatedIn(r, fl).value.perUnit, r.policy.moneyScale)
  {
    hide Raw, CalculatedIn, Metric, Rounded, Holds, Monotone, RoundTo, ProfitPerUnit, Small, Pow10, Quantum;
    CalculatedInContext(r, fl);
    var v := Raw(r).value.perUnit;
    ReportedPerUnit(Raw(r).value, r.policy);
    ProfitIsSmall(r);
    QuotientIsMoney(Raw(r).value.profit, Raw(r).value.netUnits, r.currency);
    MetricOfQuotient(v, r.policy, fl);
    QuotientIsClose(r, fl);
  }

  lemma ReportedPerUnit(raw: Results, p: Policy)
    requires Reported(raw, p).Ok?
    ensures Metric(raw.perUnit, p) == Ok(Reported(raw, p).value.perUnit)
  {
    hide Metric;
  }

  // ----- The reference

  /** What the reference expects, but for the metric per unit. */
  predicate MeetsButPerUnit(results: Results, a: Oracle.Answer) {
    && Meets(results.netUnits, a.netUnits) && Meets(results.productCost, a.productCost)
    && Meets(results.otherExpense, a.otherExpense) && Meets(results.tax, a.tax)
    && Meets(results.income, a.income) && Meets(results.profit, a.profit)
    && Meets(results.profitability, a.profitability)
  }

  /** In its context, too, the kernel meets the reference in every metric that is not divided. */
  lemma ContextMeetsReference(r: Request, fl: real -> real)
    requires CompleteRequest(r) && CalculatedIn(r, fl).Ok? && Oracle.Reference(CaseOf(r)).Ok? && Holds(r, fl)
    ensures
      var c := Normalised(CaseOf(r), r.policy);
      c.taxBase in Oracle.BasesOf(c) && MeetsButPerUnit(CalculatedIn(r, fl).value, Oracle.AnswerOf(c))
  {
    hide CalculatedIn, Calculated, Raw, Rounded, Metric, Meets, CompleteRequest, CaseOf, Normalised, Oracle.AnswerOf,
      Oracle.BasesOf, Oracle.Reference;
    CalculatedInContext(r, fl);
    KernelMeetsReference(r);
  }

  /** In its context, too, the profit is VALID exactly when the reference does not refuse. */
  lemma ContextProfitIff(r: Request, fl: real -> real)
    requires CompleteRequest(r) && CalculatedIn(r, fl).Ok? && Holds(r, fl)
    ensures CalculatedIn(r, fl).value.profit.Valid? <==> Oracle.Reference(CaseOf(r)).Ok?
  {
    hide CalculatedIn, Calculated, Raw, Rounded, Metric, CompleteRequest, CaseOf, Oracle.Reference;
    CalculatedInContext(r, fl);
    ProfitValidIffReferenceAccepts(r);
  }
}
