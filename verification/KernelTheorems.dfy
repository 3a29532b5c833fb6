/** The kernel against its reference, and what a VALID profit stands for. */
module KernelTheorems {
  import opened Base
  import opened Rounding
  import opened Values
  import opened Kernel

  // ----- What a VALID result needs

  lemma PropagatedIsNonValid(values: seq<Value>, sig: Sig)
    ensures Propagate(values, sig).Some? ==> Propagate(values, sig).value.NonValid?
    ensures Propagate(values, sig).None? <==> AllValid(values)
  {
    hide LeastReason, AllSources, Matching;
  }

  lemma ExpectedValid(inputs: Inputs, m: MetricId, sig: Sig)
    requires Expect(inputs, m, sig).Valid?
    ensures m in inputs && inputs[m] == Expect(inputs, m, sig) && inputs[m].sig == sig
  {
  }

  lemma SumValid(terms: seq<Term>, currency: string)
    requires MoneySum(terms, currency).Valid?
    ensures forall i | 0 <= i < |terms| :: terms[i].value.Valid?
    ensures AllMoney(terms, currency)
    ensures MoneySum(terms, currency) == Valid(Num(SignedTotal(terms)), Money(currency), AllSources(ValuesOf(terms)))
  {
    hide Propagate, IsMoney, AllSources, SourcesToMismatch, SignedTotal, AllValid, ValuesOf;
    PropagatedIsNonValid(ValuesOf(terms), Money(currency));
    ValidTerms(terms);
  }

  lemma ValidTerms(terms: seq<Term>)
    ensures AllValid(ValuesOf(terms)) <==> forall i | 0 <= i < |terms| :: terms[i].value.Valid?
  {
    forall i | 0 <= i < |terms|
      ensures terms[i].value in ValuesOf(terms)
    {
      assert ValuesOf(terms)[i] == terms[i].value;
    }
  }

  lemma SumOfValid(terms: seq<Term>, currency: string)
    requires forall i | 0 <= i < |terms| :: terms[i].value.Valid?
    requires AllMoney(terms, currency)
    ensures MoneySum(terms, currency) == Valid(Num(SignedTotal(terms)), Money(currency), AllSources(ValuesOf(terms)))
  {
    hide Propagate, IsMoney, AllSources, SignedTotal;
    PropagatedIsNonValid(ValuesOf(terms), Money(currency));
  }

  lemma ProfitNeeds(income: Value, cost: Value, other: Value, tax: Value, currency: string)
    requires Profit(income, cost, other, tax, currency).Valid?
    ensures income.Valid? && cost.Valid? && other.Valid? && tax.Valid?
  {
    hide MoneySum;
    var terms := [Term(1, income), Term(-1, cost), Term(-1, other), Term(-1, tax)];
    SumValid(terms, currency);
    assert terms[0].value == income && terms[1].value == cost && terms[2].value == other && terms[3].value == tax;
  }

  lemma CostNeeds(gross: Value, returned: Value, resalable: Value, compensated: Value, perUnit: Value, currency: string)
    requires ProductCost(CostUnits(gross, returned, resalable, compensated), perUnit, currency).Valid?
    ensures gross.Valid? && returned.Valid? && resalable.Valid? && compensated.Valid?
    ensures UnitsConsistent(IntOf(gross), IntOf(returned), IntOf(resalable), IntOf(compensated))
    ensures perUnit.Valid? && perUnit.sig == PerItem(currency)
  {
    hide Propagate, IntOf, StripPrefix;
    var four := [gross, returned, resalable, compensated];
    PropagatedIsNonValid(four, ITEMS);
    PropagatedIsNonValid([perUnit], Money(currency));
    assert perUnit in [perUnit];
    assert four[0] == gross && four[1] == returned && four[2] == resalable && four[3] == compensated;
  }

  /** The money inputs of the marketplace income, other than the compensation. */
  const SETTLED := [GrossSales, Discounts, Subsidies, Commission, ForwardLogistics, ReverseLogistics, Storage,
                    Advertising, Fines]

  lemma CompensationNeeds(inputs: Inputs, currency: string)
    requires Compensation(inputs, currency).Valid?
    ensures Expect(inputs, CompensatedReturnedUnits, ITEMS).Valid? &&
      Expect(inputs, ReturnCompensation, Money(currency)).Valid?
    ensures Compensation(inputs, currency) == Expect(inputs, ReturnCompensation, Money(currency))
  {
    hide Propagate, Expect, IntOf, NumOf;
    var units, amount := Expect(inputs, CompensatedReturnedUnits, ITEMS),
      Expect(inputs, ReturnCompensation, Money(currency));
    PropagatedIsNonValid([units, amount], Money(currency));
    assert [units, amount][0] == units && [units, amount][1] == amount;
  }

  lemma IncomeNeeds(inputs: Inputs, currency: string)
    requires Income(inputs, currency).Valid?
    ensures Compensation(inputs, currency).Valid?
    ensures forall m | m in SETTLED :: Expect(inputs, m, Money(currency)).Valid?
  {
    hide Expect, MoneySum, Compensation, StripPrefix;
    var compensation := Compensation(inputs, currency);
    var terms := IncomeTerms(inputs, compensation, currency);
    SumValid(terms, currency);
    assert terms[0].value.Valid? && terms[1].value.Valid? && terms[2].value.Valid? && terms[4].value.Valid? &&
      terms[5].value.Valid?;
    assert terms[6].value.Valid? && terms[7].value.Valid? && terms[8].value.Valid? && terms[9].value.Valid?;
  }

  lemma TaxNeeds(bases: Inputs, base: MetricId, rate: Value, currency: string)
    requires Tax(bases, base, rate, currency).Valid?
    ensures base in bases && rate.Valid? && rate.sig == RATES && bases[base].Valid? &&
      bases[base].sig == Money(currency)
  {
    hide Propagate, NumOf;
    PropagatedIsNonValid([rate, bases[base]], Money(currency));
    assert [rate, bases[base]][0] == rate && [rate, bases[base]][1] == bases[base];
  }

  lemma ExpenseNeeds(value: Value, net: Value, currency: string)
    requires ExpenseAmount(value, net, currency).Valid?
    ensures value.Valid?
  {
    hide Propagate, IntOf, NumOf;
    PropagatedIsNonValid([net, value], Money(currency));
    assert [net, value][1] == value;
  }

  /** The components that were worked off all have terms, and a VALID term has a VALID component. */
  lemma {:induction false} TermsNeed(r: Request, net: Value, n: nat)
    requires n <= |r.expenses| && ExpensesUpTo(r, net, n).Ok? && ExpensesUpTo(r, net, n).value.Terms?
    requires forall i | 0 <= i < |ExpensesUpTo(r, net, n).value.terms| ::
      ExpensesUpTo(r, net, n).value.terms[i].value.Valid?
    ensures |ExpensesUpTo(r, net, n).value.terms| == n
    ensures forall k | 0 <= k < n :: ValidExpense(r, k)
  {
    hide ExpenseAmount, ExpenseSig, Admit;
    if n > 0 {
      var terms := ExpensesUpTo(r, net, n).value.terms;
      var before := ExpensesUpTo(r, net, n - 1).value.terms;
      assert terms[..|terms| - 1] == before;
      TermsNeed(r, net, n - 1);
      var item := r.expenses[n - 1];
      var value := Admit(Binding(ExpenseName(item.id), item.value), r.policy).value;
      assert terms[n - 1].value == ExpenseAmount(value, net, r.currency);
      ExpenseNeeds(value, net, r.currency);
    }
  }

  /** The component is admitted, VALID, and in money of the request's currency. */
  predicate ValidExpense(r: Request, k: nat)
    requires k < |r.expenses|
  {
    var v := Admit(Binding(ExpenseName(r.expenses[k].id), r.expenses[k].value), r.policy);
    v.Ok? && v.value.Valid? && ExpenseSig(v.value.sig, r.currency)
  }

  lemma OtherNeeds(r: Request, net: Value)
    requires OtherExpense(r, net).Ok? && OtherExpense(r, net).value.Valid?
    ensures r.expenses != [] && forall k | 0 <= k < |r.expenses| :: ValidExpense(r, k)
  {
    hide ExpenseAmount, ExpenseSig, Admit, MoneySum;
    var n := |r.expenses|;
    StoppedIsBlocked(r, net, n);
    var terms := ExpensesUpTo(r, net, n).value.terms;
    SumValid(terms, r.currency);
    TermsNeed(r, net, n);
  }

  lemma {:induction false} StoppedIsBlocked(r: Request, net: Value, n: nat)
    requires n <= |r.expenses| && ExpensesUpTo(r, net, n).Ok?
    ensures ExpensesUpTo(r, net, n).value.Stopped? ==> ExpensesUpTo(r, net, n).value.value.NonValid?
  {
    hide ExpenseAmount, ExpenseSig, Admit;
    if n > 0 {
      StoppedIsBlocked(r, net, n - 1);
    }
  }

  lemma ReportedValid(raw: Results, p: Policy)
    requires Reported(raw, p).Ok?
    ensures Reported(raw, p).value.profit.Valid? <==> raw.profit.Valid?
  {
    hide Quantize;
  }

  // ----- Profit is VALID only on complete data

  /** The input is given as VALID, with this signature. */
  predicate IsGiven(r: Request, m: MetricId, sig: Sig) {
    m in r.inputs && r.inputs[m].Present? && r.inputs[m].sig == sig
  }

  lemma AdmittedIsGiven(b: Binding, p: Policy)
    requires Admit(b, p).Ok? && Admit(b, p).value.Valid?
    ensures b.input.Present? && b.input.sig == Admit(b, p).value.sig
  {
    hide CheckSig, AdmitScalar;
  }

  lemma InputIsGiven(r: Request, m: MetricId, sig: Sig)
    requires AdmitInputs(r).Ok? && Expect(AdmitInputs(r).value, m, sig).Valid?
    ensures IsGiven(r, m, sig)
    ensures m != ReturnCompensation ==> AdmitInput(m, r) == Admit(BindingOf(m, r.inputs), r.policy)
    ensures m == ReturnCompensation ==> !CompensationContradicts(r.inputs, r.currency)
  {
    hide CheckText, CheckSig, Admit, CompensationContradicts, CompensationSources;
    ExpectedValid(AdmitInputs(r).value, m, sig);
    assert AdmitInput(m, r).value.Valid?;
    if m != ReturnCompensation || !CompensationContradicts(r.inputs, r.currency) {
      AdmittedIsGiven(BindingOf(m, r.inputs), r.policy);
    }
  }

  /** All data a profit is made from. */
  predicate CompleteRequest(r: Request) {
    && (forall m | m in UNIT_INPUTS :: IsGiven(r, m, ITEMS))
    && (forall m | m in MONEY_INPUTS :: IsGiven(r, m, Money(r.currency)))
    && r.costPerUnit.Present? && r.costPerUnit.sig == PerItem(r.currency)
    && r.taxRate.Present? && r.taxRate.sig == RATES
    && r.expenses != []
    && forall k | 0 <= k < |r.expenses| ::
      r.expenses[k].value.Present? && ExpenseSig(r.expenses[k].value.sig, r.currency)
  }

  lemma UnitsGiven(r: Request)
    requires AdmitInputs(r).Ok?
    requires forall m | m in UNIT_INPUTS :: Expect(AdmitInputs(r).value, m, ITEMS).Valid?
    ensures forall m | m in UNIT_INPUTS :: IsGiven(r, m, ITEMS)
  {
    hide AdmitInputs, Expect, IsGiven;
    InputIsGiven(r, GrossSalesUnits, ITEMS);
    InputIsGiven(r, ReturnedUnits, ITEMS);
    InputIsGiven(r, ResalableReturnedUnits, ITEMS);
    InputIsGiven(r, CompensatedReturnedUnits, ITEMS);
  }

  lemma MoneyGiven(r: Request)
    requires AdmitInputs(r).Ok? && Income(AdmitInputs(r).value, r.currency).Valid?
    ensures forall m | m in MONEY_INPUTS :: IsGiven(r, m, Money(r.currency))
  {
    hide AdmitInputs, Expect, IsGiven, Income, Compensation;
    var inputs := AdmitInputs(r).value;
    IncomeNeeds(inputs, r.currency);
    CompensationNeeds(inputs, r.currency);
    forall m | m in MONEY_INPUTS
      ensures IsGiven(r, m, Money(r.currency))
    {
      assert m == ReturnCompensation || m in SETTLED by {
        assert SETTLED[0] == GrossSales && SETTLED[1] == Discounts && SETTLED[2] == Subsidies &&
          SETTLED[3] == Commission;
        assert SETTLED[4] == ForwardLogistics && SETTLED[5] == ReverseLogistics && SETTLED[6] == Storage;
        assert SETTLED[7] == Advertising && SETTLED[8] == Fines;
      }
      InputIsGiven(r, m, Money(r.currency));
    }
  }

  lemma ExpensesGiven(r: Request)
    requires forall k | 0 <= k < |r.expenses| :: ValidExpense(r, k)
    ensures forall k | 0 <= k < |r.expenses| ::
      r.expenses[k].value.Present? && ExpenseSig(r.expenses[k].value.sig, r.currency)
  {
    hide Admit, ExpenseSig;
    forall k | 0 <= k < |r.expenses|
      ensures r.expenses[k].value.Present? && ExpenseSig(r.expenses[k].value.sig, r.currency)
    {
      assert ValidExpense(r, k);
      AdmittedIsGiven(Binding(ExpenseName(r.expenses[k].id), r.expenses[k].value), r.policy);
    }
  }

  /** The parts a profit is computed from. */
  lemma RawParts(r: Request)
    requires Raw(r).Ok?
    ensures AdmitInputs(r).Ok?
    ensures
      var inputs := AdmitInputs(r).value;
      var perUnit, rate := Admit(Binding(Given("cost_per_unit"), r.costPerUnit), r.policy),
        Admit(Binding(Given("tax_rate"), r.taxRate), r.policy);
      var gross, returned := Expect(inputs, GrossSalesUnits, ITEMS), Expect(inputs, ReturnedUnits, ITEMS);
      var resalable, compensated := Expect(inputs, ResalableReturnedUnits, ITEMS),
        Expect(inputs, CompensatedReturnedUnits, ITEMS);
      var raw := Raw(r).value;
      && perUnit.Ok? && rate.Ok? && OtherExpense(r, NetUnits(gross, returned)) == Ok(raw.otherExpense)
      && raw.netUnits == NetUnits(gross, returned)
      && raw.productCost == ProductCost(CostUnits(gross, returned, resalable, compensated), perUnit.value, r.currency)
      && raw.income == Income(inputs, r.currency)
      && raw.tax == Tax(Bases(inputs, raw.income, raw.productCost, raw.otherExpense), r.taxBase, rate.value, r.currency)
      && raw.profit == Profit(raw.income, raw.productCost, raw.otherExpense, raw.tax, r.currency)
      && raw.perUnit == ProfitPerUnit(raw.profit, raw.netUnits, r.currency)
      && raw.profitability == PROFITABILITY
  {
    hide AdmitInputs, Expect, NetUnits, CostUnits, ProductCost, OtherExpense, Income, Tax, Bases, Profit,
      ProfitPerUnit, Admit;
  }

  /** A VALID net profit means that every input, the unit cost, the tax rate and every expense was VALID. */
  lemma ValidProfitNeedsEverything(r: Request)
    requires Calculated(r).Ok? && Calculated(r).value.profit.Valid?
    ensures CompleteRequest(r)
  {
    hide Raw, Reported, AdmitInputs, Expect, NetUnits, CostUnits, ProductCost, OtherExpense, Income, Tax, Bases, Profit,
      ProfitPerUnit, Admit, UnitsConsistent, ValidExpense, IsGiven, ExpenseSig;
    var raw := Raw(r).value;
    ReportedValid(raw, r.policy);
    RawParts(r);
    var inputs := AdmitInputs(r).value;
    ProfitNeeds(raw.income, raw.productCost, raw.otherExpense, raw.tax, r.currency);
    var perUnit := Admit(Binding(Given("cost_per_unit"), r.costPerUnit), r.policy).value;
    var rate := Admit(Binding(Given("tax_rate"), r.taxRate), r.policy).value;
    CostNeeds(Expect(inputs, GrossSalesUnits, ITEMS), Expect(inputs, ReturnedUnits, ITEMS),
              Expect(inputs, ResalableReturnedUnits, ITEMS), Expect(inputs, CompensatedReturnedUnits, ITEMS), perUnit,
                r.currency);
    UnitsGiven(r);
    MoneyGiven(r);
    TaxNeeds(Bases(inputs, raw.income, raw.productCost, raw.otherExpense), r.taxBase, rate, r.currency);
    AdmittedIsGiven(Binding(Given("cost_per_unit"), r.costPerUnit), r.policy);
    AdmittedIsGiven(Binding(Given("tax_rate"), r.taxRate), r.policy);
    OtherNeeds(r, raw.netUnits);
    ExpensesGiven(r);
  }

  // ----- Reported profit and reported parts

  /** Units in the last place between a rounded difference and the difference of rounded parts. */
  function Gap(a: real, b: real, c: real, d: real, scale: nat, mode: RoundingMode): int {
    RoundInt(Scaled(a - b - c - d, scale), mode)
    - (RoundInt(Scaled(a, scale), mode) - RoundInt(Scaled(b, scale), mode)
       - RoundInt(Scaled(c, scale), mode) - RoundInt(Scaled(d, scale), mode))
  }

  lemma GapIsSmall(a: real, b: real, c: real, d: real, scale: nat, mode: RoundingMode)
    ensures -4 <= Gap(a, b, c, d, scale, mode) <= 4
    ensures IsHalf(mode) ==> -2 <= Gap(a, b, c, d, scale, mode) <= 2
  {
    hide RoundInt, IsHalf, Pow10;
    RoundIntError(Scaled(a, scale), mode);
    RoundIntError(Scaled(b, scale), mode);
    RoundIntError(Scaled(c, scale), mode);
    RoundIntError(Scaled(d, scale), mode);
    RoundIntError(Scaled(a - b - c - d, scale), mode);
    ScaledDifference(a, b, c, d, scale);
    hide Scaled;
    var k := Gap(a, b, c, d, scale, mode);
    assert -5.0 < k as real < 5.0;
    assert IsHalf(mode) ==> -2.5 <= k as real <= 2.5;
  }

  lemma ScaledDifference(a: real, b: real, c: real, d: real, scale: nat)
    ensures Scaled(a - b - c - d, scale) == Scaled(a, scale) - Scaled(b, scale) - Scaled(c, scale) - Scaled(d, scale)
  {
    hide Pow10;
  }

  lemma QuotientDifference(p: int, i: int, c: int, o: int, t: int, q: int)
    requires q >= 1
    ensures p as real / q as real -
      (i as real / q as real - c as real / q as real - o as real / q as real - t as real / q as real)
      == (p - (i - c - o - t)) as real / q as real
  {
  }

  lemma RoundedDifference(a: real, b: real, c: real, d: real, scale: nat, mode: RoundingMode)
    ensures RoundTo(a - b - c - d, scale, mode)
      == RoundTo(a, scale, mode) - RoundTo(b, scale, mode) - RoundTo(c, scale, mode) - RoundTo(d, scale, mode)
         + Gap(a, b, c, d, scale, mode) as real * Quantum(scale)
  {
    hide RoundInt, Scaled, Pow10;
    QuotientDifference(
      RoundInt(Scaled(a - b - c - d, scale), mode), RoundInt(Scaled(a, scale), mode), RoundInt(Scaled(b, scale), mode),
      RoundInt(Scaled(c, scale), mode), RoundInt(Scaled(d, scale), mode), Pow10(scale));
    QuotientIsProduct(Gap(a, b, c, d, scale, mode), Pow10(scale));
  }

  lemma QuotientIsProduct(k: int, q: int)
    requires q >= 1
    ensures k as real / q as real == k as real * (1.0 / q as real)
  {
  }

  lemma ProfitIsDifference(income: Value, cost: Value, other: Value, tax: Value, currency: string)
    requires Profit(income, cost, other, tax, currency).Valid?
    ensures Profit(income, cost, other, tax, currency).sig == Money(currency)
    ensures Profit(income, cost, other, tax, currency).scalar ==
      Num(NumOf(income) - NumOf(cost) - NumOf(other) - NumOf(tax))
    ensures IsMoney(income, currency) && IsMoney(cost, currency) && IsMoney(other, currency) && IsMoney(tax, currency)
  {
    var t := [Term(1, income), Term(-1, cost), Term(-1, other), Term(-1, tax)];
    SumValid(t, currency);
    assert IsMoney(t[0].value, currency) && IsMoney(t[1].value, currency) && IsMoney(t[2].value, currency) &&
      IsMoney(t[3].value, currency);
    hide MoneySum, NumOf, AllSources;
    var a, b, c := t[..3], t[..2], t[..1];
    assert t == a + [t[3]] && a == b + [t[2]] && b == c + [t[1]] && c == [] + [t[0]];
    SignedLast([], t[0]);
    SignedLast(c, t[1]);
    SignedLast(b, t[2]);
    SignedLast(a, t[3]);
    hide SignedTotal;
    assert SignedTotal([]) == 0.0 by { NoTerms(); }
  }

  lemma NoTerms()
    ensures SignedTotal([]) == 0.0
  {
  }

  lemma MetricOfMoney(v: Value, currency: string, p: Policy)
    requires v.Valid? && IsMoney(v, currency) && v.scalar.Num? && Metric(v, p).Ok?
    ensures NumOf(Metric(v, p).value) == RoundTo(NumOf(v), p.moneyScale, p.calculationMode)
  {
    hide RoundTo;
  }

  /**
   The reported profit differs from the reported income less the reported cost, other expense and
   tax by a whole number of units in the last place: at most two in the HALF modes, four otherwise.
   */
  lemma ReportedProfitError(raw: Results, p: Policy, currency: string)
    requires raw.profit == Profit(raw.income, raw.productCost, raw.otherExpense, raw.tax, currency) && raw.profit.Valid?
    requires raw.income.Valid? && raw.income.scalar.Num? && raw.productCost.Valid? && raw.productCost.scalar.Num?
    requires raw.otherExpense.Valid? && raw.otherExpense.scalar.Num? && raw.tax.Valid? && raw.tax.scalar.Num?
    requires Reported(raw, p).Ok?
    ensures
      var r := Reported(raw, p).value;
      var k := Gap(NumOf(raw.income), NumOf(raw.productCost), NumOf(raw.otherExpense), NumOf(raw.tax), p.moneyScale,
                   p.calculationMode);
      && NumOf(r.profit) == NumOf(r.income) - NumOf(r.productCost) - NumOf(r.otherExpense) - NumOf(r.tax) +
        k as real * Quantum(p.moneyScale)
      && -4 <= k <= 4
      && (IsHalf(p.calculationMode) ==> -2 <= k <= 2)
  {
    hide Metric, NumOf, RoundTo, Gap, IsMoney, Profit, Quantum, Reported, IsHalf;
    ProfitIsDifference(raw.income, raw.productCost, raw.otherExpense, raw.tax, currency);
    IsMoneyOfMoney(raw.profit, currency);
    NumOfNum(raw.profit);
    ReportedParts(raw, p);
    MetricOfMoney(raw.income, currency, p);
    MetricOfMoney(raw.productCost, currency, p);
    MetricOfMoney(raw.otherExpense, currency, p);
    MetricOfMoney(raw.tax, currency, p);
    MetricOfMoney(raw.profit, currency, p);
    var i, c, o, t := NumOf(raw.income), NumOf(raw.productCost), NumOf(raw.otherExpense), NumOf(raw.tax);
    GapIsSmall(i, c, o, t, p.moneyScale, p.calculationMode);
    RoundedDifference(i, c, o, t, p.moneyScale, p.calculationMode);
    var r := Reported(raw, p).value;
    assert NumOf(r.profit) == RoundTo(i - c - o - t, p.moneyScale, p.calculationMode);
  }

  lemma IsMoneyOfMoney(v: Value, currency: string)
    requires v.sig == Money(currency)
    ensures IsMoney(v, currency)
  {
  }

  lemma ReportedParts(raw: Results, p: Policy)
    requires Reported(raw, p).Ok?
    ensures
      var r := Reported(raw, p).value;
      && Metric(raw.income, p) == Ok(r.income) && Metric(raw.productCost, p) == Ok(r.productCost)
      && Metric(raw.otherExpense, p) == Ok(r.otherExpense) && Metric(raw.tax, p) == Ok(r.tax) &&
        Metric(raw.profit, p) == Ok(r.profit)
  {
    hide Metric;
  }

  lemma NumOfNum(v: Value)
    requires v.Valid? && v.scalar.Num?
    ensures NumOf(v) == v.scalar.n
  {
  }

  /** Profit is `k` units in the last place away from income less cost, other expense and tax. */
  predicate OffBy(r: Results, k: int, scale: nat) {
    NumOf(r.profit) == NumOf(r.income) - NumOf(r.productCost) - NumOf(r.otherExpense) - NumOf(r.tax) +
      k as real * Quantum(scale)
  }

  predicate IsNumber(v: Value) {
    v.Valid? && v.scalar.Num?
  }

  lemma SumIsNumber(terms: seq<Term>, currency: string)
    requires MoneySum(terms, currency).Valid?
    ensures IsNumber(MoneySum(terms, currency))
  {
    SumValid(terms, currency);
    hide MoneySum, SignedTotal, AllSources;
  }

  lemma PartsAreNumbers(r: Request)
    requires Raw(r).Ok? && Raw(r).value.profit.Valid?
    ensures
      var raw := Raw(r).value;
      IsNumber(raw.income) && IsNumber(raw.productCost) && IsNumber(raw.otherExpense) && IsNumber(raw.tax)
  {
    hide Raw, AdmitInputs, Expect, NetUnits, CostUnits, ProductCost, OtherExpense, Income, Tax, Bases, Profit,
      ProfitPerUnit, Admit, IsNumber;
    RawParts(r);
    var inputs, raw := AdmitInputs(r).value, Raw(r).value;
    ProfitNeeds(raw.income, raw.productCost, raw.otherExpense, raw.tax, r.currency);
    IncomeIsNumber(inputs, r.currency);
    CostIsNumber(CostUnits(Expect(inputs, GrossSalesUnits, ITEMS), Expect(inputs, ReturnedUnits, ITEMS),
                           Expect(inputs, ResalableReturnedUnits, ITEMS),
                             Expect(inputs, CompensatedReturnedUnits, ITEMS)),
                 Admit(Binding(Given("cost_per_unit"), r.costPerUnit), r.policy).value, r.currency);
    OtherIsNumber(r, raw.netUnits);
    TaxIsNumber(Bases(inputs, raw.income, raw.productCost, raw.otherExpense), r.taxBase,
                Admit(Binding(Given("tax_rate"), r.taxRate), r.policy).value, r.currency);
  }

  lemma IncomeIsNumber(inputs: Inputs, currency: string)
    requires Income(inputs, currency).Valid?
    ensures IsNumber(Income(inputs, currency))
  {
    hide MoneySum, Compensation, StripPrefix, Expect, IsNumber;
    SumIsNumber(IncomeTerms(inputs, Compensation(inputs, currency), currency), currency);
  }

  lemma CostIsNumber(units: Value, perUnit: Value, currency: string)
    requires ProductCost(units, perUnit, currency).Valid?
    ensures IsNumber(ProductCost(units, perUnit, currency))
  {
    hide Propagate;
    PropagatedIsNonValid([perUnit], Money(currency));
  }

  lemma OtherIsNumber(r: Request, net: Value)
    requires OtherExpense(r, net).Ok? && OtherExpense(r, net).value.Valid?
    ensures IsNumber(OtherExpense(r, net).value)
  {
    hide ExpensesUpTo, MoneySum, IsNumber;
    StoppedIsBlocked(r, net, |r.expenses|);
    SumIsNumber(ExpensesUpTo(r, net, |r.expenses|).value.terms, r.currency);
  }

  lemma TaxIsNumber(bases: Inputs, base: MetricId, rate: Value, currency: string)
    requires Tax(bases, base, rate, currency).Valid?
    ensures IsNumber(Tax(bases, base, rate, currency))
  {
    hide Propagate;
    PropagatedIsNonValid([rate, bases[base]], Money(currency));
  }

  /** What a reader of the report may rely on. */
  lemma ReportedProfitIsClose(r: Request)
    requires Calculated(r).Ok? && Calculated(r).value.profit.Valid?
    ensures exists k ::
      && OffBy(Calculated(r).value, k, r.policy.moneyScale)
      && -4 <= k <= 4 && (IsHalf(r.policy.calculationMode) ==> -2 <= k <= 2)
  {
    hide Raw, Reported, Profit, NumOf, Gap, Quantum, IsHalf;
    var raw := Raw(r).value;
    ReportedValid(raw, r.policy);
    RawProfit(r);
    PartsAreNumbers(r);
    ReportedProfitError(raw, r.policy, r.currency);
    var k := Gap(NumOf(raw.income), NumOf(raw.productCost), NumOf(raw.otherExpense), NumOf(raw.tax),
                 r.policy.moneyScale, r.policy.calculationMode);
    assert OffBy(Calculated(r).value, k, r.policy.moneyScale);
  }

  lemma RawProfit(r: Request)
    requires Raw(r).Ok?
    ensures
      var raw := Raw(r).value;
      raw.profit == Profit(raw.income, raw.productCost, raw.otherExpense, raw.tax, r.currency)
  {
    hide Raw, AdmitInputs, Expect, NetUnits, CostUnits, ProductCost, OtherExpense, Income, Tax, Bases, Profit,
      ProfitPerUnit, Admit;
    RawParts(r);
  }
}
