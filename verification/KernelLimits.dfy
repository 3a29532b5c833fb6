/** Which complete requests the kernel computes at all: those within the limits of the policy and the request format. */
module KernelLimits {
  import opened Base
  import opened Rounding
  import opened Values
  import opened Kernel
  import opened KernelTheorems
  import opened KernelOracle
  import Oracle

  // ----- Limits

  /** The digits of a number with a point are within the policy's limits, which are within the format's. */
  predicate DigitsFit(text: Values.Literal, p: Policy) {
    && text.Digits?
    && DigitCount(text.coefficient, text.scale) <= p.maxInputPrecision && text.scale <= p.maxInputScale
    && DigitCount(text.coefficient, text.scale) <= MAX_INPUT_PRECISION && text.scale <= MAX_INPUT_SCALE
  }

  predicate CountFits(text: Values.Literal, p: Policy) {
    && text.Digits? && text.scale == 0
    && NumDigits(Abs(text.coefficient)) <= p.maxInputPrecision
    && NumDigits(Abs(text.coefficient)) <= MAX_INPUT_PRECISION
  }

  predicate InputFits(i: Input, p: Policy) {
    && i.Present? && GoodSig(i.sig)
    && if i.sig.valueType == INTEGER then CountFits(i.text, p)
       else DigitsFit(i.text, p) && RuleInputNormalization in p.points
  }

  predicate ComponentFits(r: Request, k: nat)
    requires k < |r.expenses|
  {
    && r.expenses[k].id != "" && InputFits(r.expenses[k].value, r.policy)
    && forall j | 0 <= j < k :: r.expenses[j].id != r.expenses[k].id
  }

  /** Everything a caller can look up before the call. */
  predicate WithinPolicy(r: Request) {
    && IsCurrency(r.currency) && r.inputs.Keys <= UNIT_INPUTS + MONEY_INPUTS && |r.expenses| <= MAX_EXPENSES
    && (forall m | m in r.inputs :: InputFits(r.inputs[m], r.policy))
    && InputFits(r.costPerUnit, r.policy) && InputFits(r.taxRate, r.policy)
    && (forall k | 0 <= k < |r.expenses| :: ComponentFits(r, k))
    && MetricFinalAccounting in r.policy.points
  }

  // ----- Inputs

  lemma SigExact(sig: Sig)
    ensures CheckSig(sig).Ok? <==> GoodSig(sig)
  {
  }

  lemma AdmittedExactly(b: Binding, p: Policy)
    requires b.input.Present? && b.input.sig.valueType != BOOLEAN
    ensures Admit(b, p).Ok? <==> InputFits(b.input, p)
  {
    SigExact(b.input.sig);
    hide CheckSig, GoodSig, RoundTo, NumDigits;
  }

  /** A compensation that is refused before rounding is refused by the reference. */
  lemma ContradictionIsRefused(r: Request)
    requires CompleteRequest(r) && CompensationContradicts(r.inputs, r.currency)
    ensures !Oracle.CompensationAccepted(CaseOf(r))
  {
    hide Written;
    assert IsGiven(r, ReturnCompensation, Money(r.currency)) && IsGiven(r, CompensatedReturnedUnits, ITEMS);
  }

  lemma InputExact(r: Request, m: MetricId)
    requires CompleteRequest(r) && m in r.inputs && m in UNIT_INPUTS + MONEY_INPUTS
    requires !CompensationContradicts(r.inputs, r.currency)
    ensures AdmitInput(m, r).Ok? <==> InputFits(r.inputs[m], r.policy)
  {
    hide Admit, InputFits, CompensationContradicts, CompensationSources, CheckText;
    assert m in UNIT_INPUTS ==> IsGiven(r, m, ITEMS);
    assert m in MONEY_INPUTS ==> IsGiven(r, m, Money(r.currency));
    AdmittedExactly(BindingOf(m, r.inputs), r.policy);
  }

  lemma InputsExact(r: Request)
    requires CompleteRequest(r) && Oracle.Reference(CaseOf(r)).Ok? && r.inputs.Keys <= UNIT_INPUTS + MONEY_INPUTS
    ensures AdmitInputs(r).Ok? <==> forall m | m in r.inputs :: InputFits(r.inputs[m], r.policy)
  {
    hide CompleteRequest, InputFits, AdmitInput, CompensationContradicts, CaseOf;
    if CompensationContradicts(r.inputs, r.currency) {
      ContradictionIsRefused(r);
    }
    forall m | m in r.inputs
      ensures AdmitInput(m, r).Ok? <==> InputFits(r.inputs[m], r.policy)
    {
      assert m in r.inputs.Keys;
      InputExact(r, m);
    }
  }

  // ----- Expenses

  lemma {:induction false} ExpensesExact(r: Request, net: Value, n: nat)
    requires n <= |r.expenses| && CompleteRequest(r)
    ensures ExpensesUpTo(r, net, n).Ok? <==> forall k | 0 <= k < n :: ComponentFits(r, k)
    ensures ExpensesUpTo(r, net, n).Ok? ==> ExpensesUpTo(r, net, n).value.Terms?
  {
    hide InputFits, Admit, ExpenseAmount, ExpenseSig, CompleteRequest;
    if n > 0 {
      ExpensesExact(r, net, n - 1);
      var item := r.expenses[n - 1];
      ComponentIsNumber(r, n - 1);
      AdmittedExactly(Binding(ExpenseName(item.id), item.value), r.policy);
      AdmittedSig(Binding(ExpenseName(item.id), item.value), r.policy);
      var ids := set k | 0 <= k < n - 1 :: r.expenses[k].id;
      assert (forall j | 0 <= j < n - 1 :: r.expenses[j].id != item.id) <==> item.id !in ids by {
        forall j | 0 <= j < n - 1
          ensures r.expenses[j].id in ids
        {
        }
      }
      assert ComponentFits(r, n - 1) <==> item.id != "" && item.id !in ids && InputFits(item.value, r.policy);
      hide ComponentFits;
    }
  }

  lemma ComponentIsNumber(r: Request, k: nat)
    requires k < |r.expenses| && CompleteRequest(r)
    ensures
      var i := r.expenses[k].value;
      i.Present? && ExpenseSig(i.sig, r.currency) && i.sig.valueType != BOOLEAN
  {
  }

  lemma AdmittedSig(b: Binding, p: Policy)
    ensures Admit(b, p).Ok? ==> Admit(b, p).value.sig == b.input.sig
  {
    hide CheckSig, AdmitScalar;
  }

  lemma OtherExact(r: Request, net: Value)
    requires CompleteRequest(r)
    ensures OtherExpense(r, net).Ok? <==> forall k | 0 <= k < |r.expenses| :: ComponentFits(r, k)
  {
    ExpensesExact(r, net, |r.expenses|);
    assert r.expenses != [];
    hide ExpensesUpTo, ComponentFits, MoneySum, CompleteRequest;
  }

  // ----- Reasons and reports

  lemma PricedUnitsAreExplained(units: Value, perUnit: Value, currency: string)
    requires ProductCost(units, perUnit, currency).Valid?
    ensures Explained(units)
  {
    hide Propagate;
  }

  lemma IsNumIsValid(v: Value, sig: Sig, x: real)
    requires IsNum(v, sig, x)
    ensures v.Valid? && Explained(v)
  {
  }

  /** The units whose cost was spent, in a request. */
  function SpentUnits(inputs: Inputs): Value {
    CostUnits(Expect(inputs, GrossSalesUnits, ITEMS), Expect(inputs, ReturnedUnits, ITEMS),
              Expect(inputs, ResalableReturnedUnits, ITEMS), Expect(inputs, CompensatedReturnedUnits, ITEMS))
  }

  /** In a complete request that the reference accepts, units and income keep no empty reason: both are VALID. */
  lemma AcceptedIsExplained(r: Request, perUnit: Value)
    requires AdmitInputs(r).Ok? && CompleteRequest(r) && Oracle.Reference(CaseOf(r)).Ok?
    requires Admit(Binding(Given("cost_per_unit"), r.costPerUnit), r.policy) == Ok(perUnit)
    ensures Explained(SpentUnits(AdmitInputs(r).value)) && Explained(Income(AdmitInputs(r).value, r.currency))
  {
    hide IsNum, Admit, AdmitInputs, Expect, NetUnits, CostUnits, ProductCost, Income, CaseOf, Normalised,
      CompleteRequest, Explained;
    hide Oracle.Reference, Oracle.MarketplaceOf, Oracle.CostOf, Oracle.Net, IsWholeNumber;
    var inputs, c := AdmitInputs(r).value, Normalised(CaseOf(r), r.policy);
    IncomeOf(r);
    IsNumIsValid(Income(inputs, r.currency), Money(r.currency), Oracle.MarketplaceOf(c));
    CostAndNet(r, perUnit);
    IsNumIsValid(ProductCost(SpentUnits(inputs), perUnit, r.currency), Money(r.currency), Oracle.CostOf(c));
    PricedUnitsAreExplained(SpentUnits(inputs), perUnit, r.currency);
  }

  lemma AnyReport(raw: Results, p: Policy)
    requires MetricFinalAccounting in p.points
    ensures Reported(raw, p).Ok?
  {
    MetricOk(raw.productCost, p);
    MetricOk(raw.otherExpense, p);
    MetricOk(raw.tax, p);
    MetricOk(raw.income, p);
    MetricOk(raw.profit, p);
    MetricOk(raw.perUnit, p);
    MetricOk(raw.profitability, p);
    hide Metric;
  }

  lemma MetricOk(v: Value, p: Policy)
    requires MetricFinalAccounting in p.points
    ensures Metric(v, p).Ok?
  {
    hide RoundTo;
  }

  lemma ReportNeedsPoint(raw: Results, p: Policy)
    requires raw.income.Valid? && raw.income.scalar.Num? && Reported(raw, p).Ok?
    ensures MetricFinalAccounting in p.points
  {
    ReportedParts(raw, p);
    hide Reported, RoundTo;
  }

  // ----- The theorem

  lemma RatesExact(r: Request)
    requires CompleteRequest(r)
    ensures Admit(Binding(Given("cost_per_unit"), r.costPerUnit), r.policy).Ok? <==> InputFits(r.costPerUnit, r.policy)
    ensures Admit(Binding(Given("tax_rate"), r.taxRate), r.policy).Ok? <==> InputFits(r.taxRate, r.policy)
  {
    AdmittedExactly(Binding(Given("cost_per_unit"), r.costPerUnit), r.policy);
    AdmittedExactly(Binding(Given("tax_rate"), r.taxRate), r.policy);
    hide Admit, InputFits;
  }

  lemma RawExact(r: Request)
    requires CompleteRequest(r) && Oracle.Reference(CaseOf(r)).Ok? && r.inputs.Keys <= UNIT_INPUTS + MONEY_INPUTS
    ensures Raw(r).Ok? <==>
      && (forall m | m in r.inputs :: InputFits(r.inputs[m], r.policy))
      && InputFits(r.costPerUnit, r.policy) && InputFits(r.taxRate, r.policy)
      && (forall k | 0 <= k < |r.expenses| :: ComponentFits(r, k))
  {
    InputsExact(r);
    RatesExact(r);
    hide AdmitInputs, Admit, Expect, NetUnits, CostUnits, ProductCost, OtherExpense, Income, Tax, Bases, Profit,
      ProfitPerUnit, Explained, CompleteRequest, CaseOf, Oracle.Reference, InputFits, ComponentFits;
    if AdmitInputs(r).Ok? {
      var inputs := AdmitInputs(r).value;
      OtherExact(r, NetUnits(Expect(inputs, GrossSalesUnits, ITEMS), Expect(inputs, ReturnedUnits, ITEMS)));
      var perUnit := Admit(Binding(Given("cost_per_unit"), r.costPerUnit), r.policy);
      if perUnit.Ok? {
        AcceptedIsExplained(r, perUnit.value);
      }
    }
  }

  /** A complete request that the reference accepts is computed by the kernel exactly when it is within the limits. */
  lemma ComputedExactly(r: Request)
    requires CompleteRequest(r) && Oracle.Reference(CaseOf(r)).Ok?
    ensures Calculated(r).Ok? <==> WithinPolicy(r)
  {
    hide Raw, Reported, IsCurrency, CompleteRequest, CaseOf, Oracle.Reference, InputFits, ComponentFits, Normalised;
    if r.inputs.Keys <= UNIT_INPUTS + MONEY_INPUTS {
      RawExact(r);
      if Raw(r).Ok? {
        if MetricFinalAccounting in r.policy.points {
          AnyReport(Raw(r).value, r.policy);
        }
        RawAgrees(r);
        IncomeIsThere(r);
        if Reported(Raw(r).value, r.policy).Ok? {
          ReportNeedsPoint(Raw(r).value, r.policy);
        }
      }
    }
  }

  lemma IncomeIsThere(r: Request)
    requires CompleteRequest(r) && Raw(r).Ok? && Oracle.Reference(CaseOf(r)).Ok?
    ensures Raw(r).value.income.Valid? && Raw(r).value.income.scalar.Num?
  {
    hide Raw, CompleteRequest, CaseOf, Normalised, Oracle.Reference, Oracle.MarketplaceOf, Oracle.CostOf,
      Oracle.OtherOf, Oracle.BasesOf;
    RawAgrees(r);
  }

  /** Within the limits, fractions included, the kernel gives the reference's answer in all eight metrics. */
  lemma WithinPolicyMeetsReference(r: Request)
    requires CompleteRequest(r) && Oracle.Reference(CaseOf(r)).Ok? && WithinPolicy(r) && FractionsFit(r)
    ensures Calculated(r).Ok?
    ensures MeetsAll(Calculated(r).value, Oracle.Reference(CaseOf(r)).value)
  {
    hide Calculated, WithinPolicy, CompleteRequest, FractionsFit, CaseOf, MeetsAll;
    ComputedExactly(r);
    CleanInputsMeetReference(r);
  }
}
