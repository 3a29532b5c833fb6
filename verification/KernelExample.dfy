/** One sale of ten, with a unit cost of three and an expense of one: a complete request that the reference accepts. */
module KernelExample {
  import opened Rounding
  import opened Values
  import opened Kernel
  import opened KernelTheorems
  import opened KernelOracle
  import opened KernelLimits
  import Oracle

  const CURRENCY := "EUR"

  function Whole(n: nat, sig: Sig): Input {
    Present(Digits(n, 0), sig, {})
  }

  function Example(p: Policy): Request {
    var zero := Whole(0, Money(CURRENCY));
    Request(
      p, CURRENCY,
      map[GrossSalesUnits := Whole(1, ITEMS), ReturnedUnits := Whole(0, ITEMS),
          ResalableReturnedUnits := Whole(0, ITEMS), CompensatedReturnedUnits := Whole(0, ITEMS),
          ReturnCompensation := zero, GrossSales := Whole(9, Money(CURRENCY)), Discounts := zero, Subsidies := zero,
          Commission := zero, ForwardLogistics := zero, ReverseLogistics := zero, Storage := zero,
          Advertising := zero, Fines := zero],
      Whole(3, PerItem(CURRENCY)), [Component("rent", Whole(1, Money(CURRENCY)))], Whole(0, RATES), GrossSales)
  }

  /** The policy admits one digit and rounds where the kernel asks it to. */
  predicate Usable(p: Policy) {
    p.maxInputPrecision >= 1 && RuleInputNormalization in p.points && MetricFinalAccounting in p.points
  }

  /** A one-digit number. */
  predicate OneDigit(i: Input) {
    i.Present? && i.text.Digits? && 0 <= i.text.coefficient < 10 && i.text.scale == 0 && i.sig.valueType != BOOLEAN &&
      GoodSig(i.sig)
  }

  lemma OneDigitFits(i: Input, p: Policy)
    requires OneDigit(i) && Usable(p)
    ensures InputFits(i, p)
  {
    assert NumDigits(Abs(i.text.coefficient)) == 1;
    hide GoodSig, NumDigits;
  }

  lemma ExampleDigits(p: Policy)
    ensures
      var r := Example(p);
      && (forall m | m in r.inputs :: OneDigit(r.inputs[m]))
      && OneDigit(r.costPerUnit) && OneDigit(r.taxRate) && OneDigit(r.expenses[0].value)
  {
    assert IsCurrency(CURRENCY);
    hide IsCurrency;
  }

  lemma ExampleIsComplete(p: Policy)
    ensures CompleteRequest(Example(p)) && Example(p).inputs.Keys == UNIT_INPUTS + MONEY_INPUTS
  {
  }

  lemma ExampleAt(p: Policy)
    ensures
      var r := Example(p);
      && InputAt(r, GrossSalesUnits) == Whole(1, ITEMS) && InputAt(r, ReturnedUnits) == Whole(0, ITEMS)
      && InputAt(r, ResalableReturnedUnits) == Whole(0, ITEMS) &&
        InputAt(r, CompensatedReturnedUnits) == Whole(0, ITEMS)
      && InputAt(r, ReturnCompensation) == Whole(0, Money(CURRENCY)) && r.taxBase == GrossSales
  {
  }

  lemma ExampleCase(p: Policy)
    ensures
      var c := CaseOf(Example(p));
      && c.gross == 1 && c.returned == 0 && c.resalable == 0 && c.compensated == 0 && c.taxBase == GrossSales
      && c.inputs[ReturnCompensation] == 0.0
  {
    ExampleAt(p);
    hide Example, InputAt, ExpenseIn;
    assert NumberIn(Whole(0, Money(CURRENCY))) == 0.0;
  }

  lemma ExampleReference(p: Policy)
    ensures Oracle.Reference(CaseOf(Example(p))).Ok?
  {
    ExampleCase(p);
    hide CaseOf, Example, Oracle.MarketplaceOf, Oracle.CostOf, Oracle.OtherOf;
    assert GrossSales in Oracle.BasesOf(CaseOf(Example(p)));
  }

  lemma ExampleCurrency(p: Policy)
    ensures Example(p).currency == CURRENCY && Example(p).policy == p && |Example(p).expenses| == 1 &&
      Example(p).expenses[0].id == "rent"
  {
  }

  lemma ExampleWithinPolicy(p: Policy)
    requires Usable(p)
    ensures WithinPolicy(Example(p))
  {
    var r := Example(p);
    ExampleDigits(p);
    ExampleIsComplete(p);
    ExampleCurrency(p);
    assert IsCurrency(CURRENCY);
    hide Example, OneDigit, InputFits, IsCurrency;
    forall m | m in r.inputs
      ensures InputFits(r.inputs[m], p)
    {
      OneDigitFits(r.inputs[m], p);
    }
    OneDigitFits(r.costPerUnit, p);
    OneDigitFits(r.taxRate, p);
    OneDigitFits(r.expenses[0].value, p);
    assert r.expenses[0].id != "";
  }

  /** The theorems about the kernel and its reference speak of real requests. */
  lemma ExampleIsCalculated(p: Policy)
    requires Usable(p)
    ensures CompleteRequest(Example(p)) && FractionsFit(Example(p))
    ensures Calculated(Example(p)).Ok? && Calculated(Example(p)).value.profit.Valid?
  {
    hide Example, Usable, Calculated, CompleteRequest, FractionsFit, WithinPolicy, Oracle.Reference, CaseOf;
    var r := Example(p);
    ExampleIsComplete(p);
    ExampleReference(p);
    ExampleFractions(p);
    ExampleWithinPolicy(p);
    ComputedExactly(r);
    ProfitValidIffReferenceAccepts(r);
  }

  lemma ExampleFractions(p: Policy)
    ensures FractionsFit(Example(p))
  {
  }
}
