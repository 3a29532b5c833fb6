/** The kernel's decimal context is wide enough to make every sum and product of a calculation exact. */
module KernelPrecision {
  import opened Rounding
  import opened Values
  import opened Kernel
  import opened KernelTheorems
  import Precision

  /** The operations `calculate` sets its context for. */
  function Operations(r: Request): nat {
    Max(2, |r.inputs| + |r.expenses| + 8)
  }

  ghost predicate Small(v: Value, a: nat, f: nat) {
    Precision.Spans(NumOf(v), a, f)
  }

  // ----- Numbers

  lemma SpansMore(x: real, a: nat, f: nat, b: nat, g: nat)
    requires Precision.Spans(x, a, f) && a <= b && f <= g
    ensures Precision.Spans(x, b, g)
  {
    FitsMore(x, f, g);
    Pow10Grows(a, b);
    hide Pow10, Rounding.Fits;
  }

  lemma ZeroSpans(a: nat, f: nat)
    ensures Precision.Spans(0.0, a, f)
  {
    assert IsWhole(Scaled(0.0, f), 0);
  }

  lemma SpansProduct(z: real, x: real, a: nat, f: nat, y: real, b: nat, g: nat, c: nat, h: nat)
    requires Precision.Spans(x, a, f) && Precision.Spans(y, b, g) && z == x * y && c == a + b && h == f + g
    ensures Precision.Spans(z, c, h)
  {
    hide Pow10, Rounding.Fits;
    Precision.ProductFits(x, y, f, g);
    Pow10Adds(a, b);
    Precision.ProductBelow(x, y, Pow10(a) as real, Pow10(b) as real);
    assert (Pow10(a) * Pow10(b)) as real == Pow10(a) as real * Pow10(b) as real;
  }

  lemma SpansWhole(n: int, a: nat)
    requires Abs(n) < Pow10(a)
    ensures Precision.Spans(n as real, a, 0)
  {
    assert IsWhole(Scaled(n as real, 0), n);
  }

  lemma SpansNegate(x: real, a: nat, f: nat)
    requires Precision.Spans(x, a, f)
    ensures Precision.Spans(-x, a, f)
  {
    hide Pow10;
    var c: int :| IsWhole(Scaled(x, f), c);
    assert IsWhole(Scaled(-x, f), -c);
  }

  /** A context of enough precision leaves the number alone. */
  lemma Untouched(x: real, a: nat, f: nat, fl: real -> real, limit: nat)
    requires Precision.Spans(x, a, f) && a + f <= limit && Precision.ExactUpTo(fl, limit)
    ensures fl(x) == x
  {
    Precision.SpansRepresentable(x, a, f, limit);
    hide Precision.Spans, Precision.Representable;
  }

  // ----- Sums

  ghost predicate SmallTerm(t: Term, a: nat, f: nat) {
    (t.sign == 1 || t.sign == -1) && Small(t.value, a, f)
  }

  ghost predicate SmallTerms(terms: seq<Term>, a: nat, f: nat) {
    forall i | 0 <= i < |terms| :: SmallTerm(terms[i], a, f)
  }

  /** `_money_sum` in a context: every product with a sign and every addition is rounded by it. */
  function SumIn(terms: seq<Term>, fl: real -> real): real {
    if terms == [] then
      0.0
    else
      var last := terms[|terms| - 1];
      fl(SumIn(terms[..|terms| - 1], fl) + fl(Part(last)))
  }

  lemma PartSpans(t: Term, a: nat, f: nat)
    requires SmallTerm(t, a, f)
    ensures Precision.Spans(Part(t), a, f)
  {
    SpansNegate(NumOf(t.value), a, f);
    assert Part(t) == NumOf(t.value) || Part(t) == -NumOf(t.value);
    hide Precision.Spans;
  }

  /** The total of `n` terms below a bound is below `n` times the bound. */
  lemma {:induction false} TotalBound(terms: seq<Term>, a: nat, f: nat)
    requires SmallTerms(terms, a, f)
    ensures Rounding.Fits(SignedTotal(terms), f)
    ensures
      var n, m := |terms| as real, Pow10(a) as real;
      -(n * m) <= SignedTotal(terms) <= n * m
  {
    hide Pow10, SmallTerm, Rounding.Fits;
    if terms == [] {
      ZeroSpans(a, f);
    } else {
      var before, last := terms[..|terms| - 1], terms[|terms| - 1];
      TotalBound(before, a, f);
      PartSpans(last, a, f);
      Precision.SumFits(SignedTotal(before), Part(last), f);
      var n, m := |before| as real, Pow10(a) as real;
      assert |terms| as real == n + 1.0 && (n + 1.0) * m == n * m + m;
    }
  }

  /** Fewer than a hundred terms need two more digits before the point. */
  lemma TotalSpans(terms: seq<Term>, a: nat, f: nat)
    requires SmallTerms(terms, a, f) && |terms| < 100
    ensures Precision.Spans(SignedTotal(terms), a + 2, f)
  {
    hide SmallTerms, Rounding.Fits, SignedTotal, Pow10;
    TotalBound(terms, a, f);
    HundredFold(a);
    FewTimes(|terms| as real, Pow10(a) as real);
  }

  lemma HundredFold(a: nat)
    ensures Pow10(a + 2) as real == 100.0 * Pow10(a) as real && Pow10(a) as real >= 1.0
  {
    assert Pow10(a + 2) == 10 * Pow10(a + 1) == 100 * Pow10(a);
  }

  lemma FewTimes(n: real, m: real)
    requires 0.0 <= n < 100.0 && m >= 1.0
    ensures n * m < 100.0 * m
  {
  }

  lemma {:induction false} SumIsExact(terms: seq<Term>, a: nat, f: nat, fl: real -> real, limit: nat)
    requires SmallTerms(terms, a, f) && |terms| < 100
    requires a + 2 + f <= limit && Precision.ExactUpTo(fl, limit)
    ensures SumIn(terms, fl) == SignedTotal(terms)
  {
    hide Precision.ExactUpTo, Precision.Spans, SmallTerm;
    if terms == [] {
    } else {
      var before, last := terms[..|terms| - 1], terms[|terms| - 1];
      SumIsExact(before, a, f, fl, limit);
      PartSpans(last, a, f);
      Untouched(Part(last), a, f, fl, limit);
      TotalSpans(terms, a, f);
      Untouched(SignedTotal(terms), a + 2, f, fl, limit);
    }
  }

  // ----- Inputs

  /** What an admitted value of the request may need. */
  ghost predicate Modest(v: Value, p: Policy) {
    Small(v, p.maxInputPrecision, p.maxInputPrecision) && Abs(IntOf(v)) < Pow10(p.maxInputPrecision)
  }

  lemma UnusableIsModest(v: Value, p: Policy)
    requires v.NonValid?
    ensures Modest(v, p)
  {
    ZeroSpans(p.maxInputPrecision, p.maxInputPrecision);
  }

  lemma AdmittedIsModest(b: Binding, p: Policy)
    requires Admit(b, p).Ok?
    ensures Modest(Admit(b, p).value, p)
  {
    var v, n := Admit(b, p).value, p.maxInputPrecision;
    ZeroSpans(n, n);
    Precision.AdmittedSize(b, p);
    if v.Valid? && v.scalar.Num? {
      SizedSpans(v.scalar.n, n);
    }
    if v.Valid? && v.scalar.Whole? {
      AdmittedWhole(b, p);
    }
    hide Admit, Precision.Spans, Precision.Sized;
  }

  lemma SizedSpans(x: real, n: nat)
    requires Precision.Sized(x, n)
    ensures Precision.Spans(x, n, n)
  {
    hide Precision.Spans;
    var a: nat, f: nat :| a >= 1 && a + f <= n && Precision.Spans(x, a, f);
    SpansMore(x, a, f, n, n);
  }

  lemma AdmittedWhole(b: Binding, p: Policy)
    requires Admit(b, p).Ok? && Admit(b, p).value.Valid? && Admit(b, p).value.scalar.Whole?
    ensures Abs(Admit(b, p).value.scalar.i) < Pow10(p.maxInputPrecision)
  {
    var n := Admit(b, p).value.scalar.i;
    assert NumDigits(Abs(n)) <= p.maxInputPrecision by { hide RoundTo, ParseDecimal, CheckSig; }
    DigitsBound(Abs(n));
    Pow10Grows(NumDigits(Abs(n)), p.maxInputPrecision);
    hide *;
  }

  lemma ExpectedIsModest(r: Request, m: MetricId, sig: Sig)
    requires AdmitInputs(r).Ok?
    ensures Modest(Expect(AdmitInputs(r).value, m, sig), r.policy)
  {
    hide Admit, Modest, CompensationContradicts, CheckSig, CheckText;
    var v := Expect(AdmitInputs(r).value, m, sig);
    if v.NonValid? {
      UnusableIsModest(v, r.policy);
    } else {
      assert AdmitInput(m, r).Ok? && v == AdmitInput(m, r).value;
      AdmittedIsModest(BindingOf(m, r.inputs), r.policy);
    }
  }

  // ----- The parts of a calculation

  lemma NetIsModest(gross: Value, returned: Value, p: Policy)
    requires Modest(gross, p) && Modest(returned, p)
    ensures Modest(NetUnits(gross, returned), p)
  {
    ZeroSpans(p.maxInputPrecision, p.maxInputPrecision);
    Pow10Grows(0, p.maxInputPrecision);
    hide Propagate, Precision.Spans, Pow10;
  }

  lemma UnitsAreModest(gross: Value, returned: Value, resalable: Value, compensated: Value, p: Policy)
    requires Modest(gross, p) && Modest(resalable, p)
    ensures Modest(CostUnits(gross, returned, resalable, compensated), p)
  {
    ZeroSpans(p.maxInputPrecision, p.maxInputPrecision);
    Pow10Grows(0, p.maxInputPrecision);
    hide Propagate, Precision.Spans, Pow10, StripPrefix;
  }

  /** Units times an amount: the units have no fraction. */
  lemma UnitsTimesAmount(z: real, units: Value, amount: Value, p: Policy)
    requires Modest(units, p) && Modest(amount, p) && z == IntOf(units) as real * NumOf(amount)
    ensures Precision.Spans(z, 2 * p.maxInputPrecision, p.maxInputPrecision)
  {
    hide Precision.Spans, Pow10, NumOf, IntOf;
    var n := p.maxInputPrecision;
    SpansWhole(IntOf(units), n);
    SpansProduct(z, IntOf(units) as real, n, 0, NumOf(amount), n, n, 2 * n, n);
  }

  lemma CostIsSmall(units: Value, perUnit: Value, currency: string, p: Policy)
    requires Modest(units, p) && Modest(perUnit, p)
    ensures Small(ProductCost(units, perUnit, currency), 2 * p.maxInputPrecision, p.maxInputPrecision)
  {
    hide Precision.Spans, Propagate, Modest;
    ZeroSpans(2 * p.maxInputPrecision, p.maxInputPrecision);
    PropagatedIsNonValid([perUnit], Money(currency));
    if ProductCost(units, perUnit, currency).Valid? {
      UnitsTimesAmount(NumOf(ProductCost(units, perUnit, currency)), units, perUnit, p);
    }
  }

  lemma AmountIsSmall(value: Value, net: Value, currency: string, p: Policy)
    requires Modest(value, p) && Modest(net, p)
    ensures Small(ExpenseAmount(value, net, currency), 2 * p.maxInputPrecision, p.maxInputPrecision)
  {
    hide Precision.Spans, Propagate;
    ZeroSpans(2 * p.maxInputPrecision, p.maxInputPrecision);
    SpansMore(NumOf(value), p.maxInputPrecision, p.maxInputPrecision, 2 * p.maxInputPrecision, p.maxInputPrecision);
    PropagatedIsNonValid([net, value], Money(currency));
    if value.sig.unit != "MONEY" && ExpenseAmount(value, net, currency).Valid? {
      UnitsTimesAmount(NumOf(ExpenseAmount(value, net, currency)), net, value, p);
    }
  }

  lemma {:induction false} ExpenseTermsAreSmall(r: Request, net: Value, n: nat)
    requires n <= |r.expenses| && Modest(net, r.policy)
    requires ExpensesUpTo(r, net, n).Ok? && ExpensesUpTo(r, net, n).value.Terms?
    ensures
      var terms := ExpensesUpTo(r, net, n).value.terms;
      |terms| == n && SmallTerms(terms, 2 * r.policy.maxInputPrecision, r.policy.maxInputPrecision)
  {
    hide Admit, Modest, Small, ExpenseAmount, ExpenseSig;
    if n > 0 {
      ExpenseTermsAreSmall(r, net, n - 1);
      var item := r.expenses[n - 1];
      AdmittedIsModest(Binding(ExpenseName(item.id), item.value), r.policy);
      AmountIsSmall(Admit(Binding(ExpenseName(item.id), item.value), r.policy).value, net, r.currency, r.policy);
    }
  }

  lemma SumValueSpans(terms: seq<Term>, currency: string, a: nat, f: nat)
    requires SmallTerms(terms, a, f) && |terms| < 100
    ensures Small(MoneySum(terms, currency), a + 2, f)
  {
    hide Precision.Spans, Propagate, SmallTerms, SignedTotal, AllMoney;
    ZeroSpans(a + 2, f);
    TotalSpans(terms, a, f);
    PropagatedIsNonValid(ValuesOf(terms), Money(currency));
  }

  lemma OtherIsSmall(r: Request, net: Value)
    requires OtherExpense(r, net).Ok? && Modest(net, r.policy) && |r.expenses| <= MAX_EXPENSES
    ensures Small(OtherExpense(r, net).value, 2 * r.policy.maxInputPrecision + 2, r.policy.maxInputPrecision)
  {
    hide Precision.Spans, Modest, MoneySum, ExpensesUpTo, SmallTerms, Propagate;
    var n := r.policy.maxInputPrecision;
    ZeroSpans(2 * n + 2, n);
    if r.expenses != [] {
      StoppedIsBlocked(r, net, |r.expenses|);
      if ExpensesUpTo(r, net, |r.expenses|).value.Terms? {
        ExpenseTermsAreSmall(r, net, |r.expenses|);
        SumValueSpans(ExpensesUpTo(r, net, |r.expenses|).value.terms, r.currency, 2 * n, n);
      }
    }
  }

  lemma CompensationIsModest(r: Request)
    requires AdmitInputs(r).Ok?
    ensures Modest(Compensation(AdmitInputs(r).value, r.currency), r.policy)
  {
    hide Propagate, Expect, Modest, AdmitInputs, IntOf, NumOf;
    var v := Compensation(AdmitInputs(r).value, r.currency);
    ExpectedIsModest(r, ReturnCompensation, Money(r.currency));
    if v.NonValid? {
      UnusableIsModest(v, r.policy);
    } else {
      CompensationNeeds(AdmitInputs(r).value, r.currency);
    }
  }

  lemma IncomeTermsAreSmall(r: Request)
    requires AdmitInputs(r).Ok?
    ensures
      var inputs := AdmitInputs(r).value;
      SmallTerms(IncomeTerms(inputs, Compensation(inputs, r.currency), r.currency),
                 r.policy.maxInputPrecision, r.policy.maxInputPrecision)
  {
    hide Expect, AdmitInputs, Compensation, Small, Pow10, IntOf;
    CompensationIsModest(r);
    forall m
      ensures Small(Expect(AdmitInputs(r).value, m, Money(r.currency)), r.policy.maxInputPrecision,
                    r.policy.maxInputPrecision)
    {
      ExpectedIsModest(r, m, Money(r.currency));
    }
    hide Modest;
  }

  lemma IncomeIsSmall(r: Request)
    requires AdmitInputs(r).Ok?
    ensures Small(Income(AdmitInputs(r).value, r.currency), r.policy.maxInputPrecision + 2, r.policy.maxInputPrecision)
  {
    hide Precision.Spans, Compensation, Expect, MoneySum, SmallTerms, AdmitInputs, StripPrefix;
    var inputs, n := AdmitInputs(r).value, r.policy.maxInputPrecision;
    var terms := IncomeTerms(inputs, Compensation(inputs, r.currency), r.currency);
    assert |terms| == 10;
    hide IncomeTerms;
    ZeroSpans(n + 2, n);
    IncomeTermsAreSmall(r);
    SumValueSpans(terms, r.currency, n, n);
  }

  lemma SmallMore(v: Value, a: nat, f: nat, b: nat, g: nat)
    requires Small(v, a, f) && a <= b && f <= g
    ensures Small(v, b, g)
  {
    SpansMore(NumOf(v), a, f, b, g);
  }

  lemma TaxIsSmall(bases: Inputs, base: MetricId, rate: Value, currency: string, n: nat)
    requires base in bases ==> Small(bases[base], 2 * n + 2, n)
    requires Small(rate, n, n)
    ensures Small(Tax(bases, base, rate, currency), 3 * n + 2, 2 * n)
  {
    hide Precision.Spans, Propagate;
    ZeroSpans(3 * n + 2, 2 * n);
    if base in bases {
      var tax, x, y := Tax(bases, base, rate, currency), NumOf(bases[base]), NumOf(rate);
      PropagatedIsNonValid([rate, bases[base]], Money(currency));
      if tax.Valid? {
        SpansProduct(NumOf(tax), x, 2 * n + 2, n, y, n, n, 3 * n + 2, 2 * n);
      }
    }
  }

  lemma BaseIsSmall(r: Request, income: Value, cost: Value, other: Value)
    requires AdmitInputs(r).Ok?
    requires
      var n := r.policy.maxInputPrecision;
      Small(income, n + 2, n) && Small(cost, 2 * n, n) && Small(other, 2 * n + 2, n)
    ensures
      var bases, n := Bases(AdmitInputs(r).value, income, cost, other), r.policy.maxInputPrecision;
      r.taxBase in bases ==> Small(bases[r.taxBase], 2 * n + 2, n)
  {
    hide Small, AdmitInputs, Pow10;
    var inputs, n := AdmitInputs(r).value, r.policy.maxInputPrecision;
    SmallMore(income, n + 2, n, 2 * n + 2, n);
    SmallMore(cost, 2 * n, n, 2 * n + 2, n);
    if r.taxBase in inputs {
      var v := inputs[r.taxBase];
      assert v == Expect(inputs, r.taxBase, v.sig);
      hide Expect;
      ExpectedIsModest(r, r.taxBase, v.sig);
      SmallMore(v, n, n, 2 * n + 2, n);
    }
  }

  function ProfitTerms(raw: Results): seq<Term> {
    [Term(1, raw.income), Term(-1, raw.productCost), Term(-1, raw.otherExpense), Term(-1, raw.tax)]
  }

  /** How large the parts of the result before the final rounding can be. */
  ghost predicate PartsAreSmall(raw: Results, n: nat) {
    && Small(raw.productCost, 2 * n, n) && Small(raw.otherExpense, 2 * n + 2, n)
    && Small(raw.income, n + 2, n) && Small(raw.tax, 3 * n + 2, 2 * n)
  }

  lemma RawIsSmall(r: Request)
    requires Raw(r).Ok? && |r.expenses| <= MAX_EXPENSES
    ensures PartsAreSmall(Raw(r).value, r.policy.maxInputPrecision)
  {
    hide Raw, AdmitInputs, Expect, NetUnits, CostUnits, ProductCost, OtherExpense, Income, Tax, Bases, Admit, Small,
      Modest,
      Profit, ProfitPerUnit;
    RawParts(r);
    var raw, inputs, p := Raw(r).value, AdmitInputs(r).value, r.policy;
    var perUnit, rate := Binding(Given("cost_per_unit"), r.costPerUnit), Binding(Given("tax_rate"), r.taxRate);
    var gross, returned := Expect(inputs, GrossSalesUnits, ITEMS), Expect(inputs, ReturnedUnits, ITEMS);
    var resalable, compensated := Expect(inputs, ResalableReturnedUnits, ITEMS),
      Expect(inputs, CompensatedReturnedUnits, ITEMS);
    ExpectedIsModest(r, GrossSalesUnits, ITEMS);
    ExpectedIsModest(r, ReturnedUnits, ITEMS);
    ExpectedIsModest(r, ResalableReturnedUnits, ITEMS);
    AdmittedIsModest(perUnit, p);
    AdmittedIsModest(rate, p);
    NetIsModest(gross, returned, p);
    UnitsAreModest(gross, returned, resalable, compensated, p);
    CostIsSmall(CostUnits(gross, returned, resalable, compensated), Admit(perUnit, p).value, r.currency, p);
    OtherIsSmall(r, NetUnits(gross, returned));
    IncomeIsSmall(r);
    BaseIsSmall(r, raw.income, raw.productCost, raw.otherExpense);
    ModestIsSmall(Admit(rate, p).value, p);
    TaxIsSmall(Bases(inputs, raw.income, raw.productCost, raw.otherExpense), r.taxBase, Admit(rate, p).value,
               r.currency, p.maxInputPrecision);
  }

  lemma ModestIsSmall(v: Value, p: Policy)
    requires Modest(v, p)
    ensures Small(v, p.maxInputPrecision, p.maxInputPrecision)
  {
  }

  lemma ProfitTermsAreSmall(raw: Results, n: nat)
    requires PartsAreSmall(raw, n)
    ensures SmallTerms(ProfitTerms(raw), 3 * n + 2, 2 * n)
  {
    hide Small;
    SmallMore(raw.income, n + 2, n, 3 * n + 2, 2 * n);
    SmallMore(raw.productCost, 2 * n, n, 3 * n + 2, 2 * n);
    SmallMore(raw.otherExpense, 2 * n + 2, n, 3 * n + 2, 2 * n);
  }

  /** The largest intermediate result, in digits, is within the context of the smallest request. */
  lemma RoomForAll(r: Request)
    ensures
      var n := r.policy.maxInputPrecision;
      5 * n + 4 <= Precision.ContextPrecision(r.policy, Operations(r))
  {
    var n := r.policy.maxInputPrecision;
    Precision.ProductGrows(8, Operations(r), n);
    hide Precision.WorkScale;
  }

  /**
   The sums and products of a calculation are the same in its context as without rounding: the
   cost, the expense amounts and their sum, the income, the tax and the profit.
   */
  lemma KernelIsExact(r: Request, fl: real -> real)
    requires Raw(r).Ok? && |r.expenses| <= MAX_EXPENSES
    requires Precision.ExactUpTo(fl, Precision.ContextPrecision(r.policy, Operations(r)))
    ensures
      var raw := Raw(r).value;
      && fl(NumOf(raw.productCost)) == NumOf(raw.productCost)
      && fl(NumOf(raw.tax)) == NumOf(raw.tax)
      && SumIn(ProfitTerms(raw), fl) == SignedTotal(ProfitTerms(raw))
  {
    hide Raw, Precision.ExactUpTo, Precision.ContextPrecision, Precision.Spans, SumIn, SignedTotal, SmallTerms,
      ProfitTerms;
    var raw, n, limit := Raw(r).value, r.policy.maxInputPrecision, Precision.ContextPrecision(r.policy, Operations(r));
    RoomForAll(r);
    RawIsSmall(r);
    ProfitTermsAreSmall(raw, n);
    ProfitTermsCount(raw);
    Untouched(NumOf(raw.productCost), 2 * n, n, fl, limit);
    Untouched(NumOf(raw.tax), 3 * n + 2, 2 * n, fl, limit);
    SumIsExact(ProfitTerms(raw), 3 * n + 2, 2 * n, fl, limit);
  }

  lemma ProfitTermsCount(raw: Results)
    ensures |ProfitTerms(raw)| == 4
  {
  }

  lemma IncomeIsExact(r: Request, fl: real -> real)
    requires AdmitInputs(r).Ok?
    requires Precision.ExactUpTo(fl, Precision.ContextPrecision(r.policy, Operations(r)))
    ensures
      var inputs := AdmitInputs(r).value;
      var terms := IncomeTerms(inputs, Compensation(inputs, r.currency), r.currency);
      SumIn(terms, fl) == SignedTotal(terms)
  {
    var inputs, n, limit := AdmitInputs(r).value, r.policy.maxInputPrecision,
      Precision.ContextPrecision(r.policy, Operations(r));
    var terms := IncomeTerms(inputs, Compensation(inputs, r.currency), r.currency);
    assert |terms| == 10;
    hide AdmitInputs, Compensation, IncomeTerms, Precision.ExactUpTo, Precision.ContextPrecision, SumIn, SignedTotal,
      SmallTerms;
    RoomForAll(r);
    IncomeTermsAreSmall(r);
    SumIsExact(terms, n, n, fl, limit);
  }

  /** Every expense amount that is computed, and their sum. */
  lemma ExpensesAreExact(r: Request, net: Value, fl: real -> real)
    requires Modest(net, r.policy) && |r.expenses| <= MAX_EXPENSES
    requires ExpensesUpTo(r, net, |r.expenses|).Ok? && ExpensesUpTo(r, net, |r.expenses|).value.Terms?
    requires Precision.ExactUpTo(fl, Precision.ContextPrecision(r.policy, Operations(r)))
    ensures
      var terms := ExpensesUpTo(r, net, |r.expenses|).value.terms;
      && (forall t <- terms :: fl(NumOf(t.value)) == NumOf(t.value))
      && SumIn(terms, fl) == SignedTotal(terms)
  {
    hide ExpensesUpTo, Modest, Precision.ExactUpTo, Precision.ContextPrecision, Precision.Spans, SumIn, SignedTotal;
    var terms, n, limit := ExpensesUpTo(r, net, |r.expenses|).value.terms, r.policy.maxInputPrecision,
      Precision.ContextPrecision(r.policy, Operations(r));
    RoomForAll(r);
    ExpenseTermsAreSmall(r, net, |r.expenses|);
    forall t <- terms
      ensures fl(NumOf(t.value)) == NumOf(t.value)
    {
      Untouched(NumOf(t.value), 2 * n, n, fl, limit);
    }
    SumIsExact(terms, 2 * n, n, fl, limit);
  }
}
