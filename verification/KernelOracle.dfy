/** The kernel agrees with its reference. */
module KernelOracle {
  import opened Base
  import opened Rounding
  import opened Values
  import opened Kernel
  import opened KernelTheorems
  import Oracle

  // ----- The case a request stands for

  /** The number written in an input. */
  function NumberIn(i: Input): real {
    if i.Present? && i.text.Digits? then Written(i.text) else 0.0
  }

  function CountIn(i: Input): int {
    if i.Present? && i.text.Digits? then i.text.coefficient else 0
  }

  function InputAt(r: Request, m: MetricId): Input {
    if m in r.inputs then r.inputs[m] else Missing(EMPTY, ITEMS, "", {})
  }

  function ExpenseIn(item: Component, currency: string): Oracle.Expense {
    if item.value.sig == PerItem(currency) then Oracle.PerItemExpense(NumberIn(item.value))
    else Oracle.TotalExpense(NumberIn(item.value))
  }

  function CaseOf(r: Request): (c: Oracle.Case)
    ensures Oracle.Complete(c)
  {
    Oracle.Case(
      r.policy.moneyScale, r.policy.calculationMode,
      CountIn(InputAt(r, GrossSalesUnits)), CountIn(InputAt(r, ReturnedUnits)),
      CountIn(InputAt(r, ResalableReturnedUnits)), CountIn(InputAt(r, CompensatedReturnedUnits)),
      map m | m in MONEY_INPUTS :: NumberIn(InputAt(r, m)),
      NumberIn(r.costPerUnit), seq(|r.expenses|,
                                   i requires 0 <= i < |r.expenses| => ExpenseIn(r.expenses[i], r.currency)),
      NumberIn(r.taxRate), r.taxBase)
  }

  /** A number as the policy normalises it. */
  function Norm(x: real, p: Policy): real {
    RoundTo(x, p.calculationScale, p.calculationMode)
  }

  function NormExpense(e: Oracle.Expense, p: Policy): Oracle.Expense {
    match e
    case PerItemExpense(x) => Oracle.PerItemExpense(Norm(x, p))
    case TotalExpense(x) => Oracle.TotalExpense(Norm(x, p))
  }

  /** The case with every number normalised, as the kernel sees it. */
  function Normalised(c: Oracle.Case, p: Policy): (n: Oracle.Case)
    requires Oracle.Complete(c)
    ensures Oracle.Complete(n)
  {
    Oracle.Case(
      c.scale, c.mode, c.gross, c.returned, c.resalable, c.compensated,
      map m | m in c.inputs :: Norm(c.inputs[m], p), Norm(c.costPerUnit, p),
      seq(|c.expenses|, i requires 0 <= i < |c.expenses| => NormExpense(c.expenses[i], p)), Norm(c.taxRate, p),
        c.taxBase)
  }

  // ----- Admitted inputs

  lemma AdmittedNumber(b: Binding, p: Policy)
    requires Admit(b, p).Ok? && b.input.Present? && IsDecimalType(b.input.sig.valueType)
    ensures b.input.text.Digits?
    ensures Admit(b, p).value.Valid? && Admit(b, p).value.sig == b.input.sig
    ensures Admit(b, p).value.scalar == Num(Norm(NumberIn(b.input), p))
  {
    hide RoundTo, CheckSig, NumDigits, Pow10;
  }

  lemma AdmittedCount(b: Binding, p: Policy)
    requires Admit(b, p).Ok? && b.input.Present? && b.input.sig == ITEMS
    ensures b.input.text.Digits? && b.input.text.scale == 0
    ensures Admit(b, p).value.Valid? && Admit(b, p).value.sig == ITEMS
    ensures Admit(b, p).value.scalar == Whole(CountIn(b.input))
  {
    hide RoundTo, CheckSig, NumDigits, Pow10;
  }

  /** A VALID number with this signature and value. */
  predicate IsNum(v: Value, sig: Sig, x: real) {
    v.Valid? && v.sig == sig && v.scalar == Num(x)
  }

  predicate IsWholeNumber(v: Value, sig: Sig, n: int) {
    v.Valid? && v.sig == sig && v.scalar == Whole(n)
  }

  lemma MoneyInput(r: Request, m: MetricId)
    requires AdmitInputs(r).Ok? && m in MONEY_INPUTS && IsGiven(r, m, Money(r.currency))
    requires m == ReturnCompensation ==> !CompensationContradicts(r.inputs, r.currency)
    ensures IsNum(Expect(AdmitInputs(r).value, m, Money(r.currency)), Money(r.currency),
                  Norm(NumberIn(InputAt(r, m)), r.policy))
  {
    hide Admit, CompensationContradicts, CompensationSources, CheckText, CheckSig, Norm, NumberIn;
    assert AdmitInput(m, r).Ok?;
    AdmittedNumber(BindingOf(m, r.inputs), r.policy);
  }

  lemma UnitInput(r: Request, m: MetricId)
    requires AdmitInputs(r).Ok? && m in UNIT_INPUTS && IsGiven(r, m, ITEMS)
    ensures IsWholeNumber(Expect(AdmitInputs(r).value, m, ITEMS), ITEMS, CountIn(InputAt(r, m)))
    ensures r.inputs[m].text.Digits?
  {
    hide Admit, CompensationContradicts, CompensationSources, CheckText, CheckSig, CountIn;
    assert AdmitInput(m, r).Ok?;
    AdmittedCount(BindingOf(m, r.inputs), r.policy);
  }

  // ----- The checks of kernel and reference

  lemma CompensationTextIsNumber(r: Request)
    requires AdmitInputs(r).Ok? && IsGiven(r, ReturnCompensation, Money(r.currency))
    ensures r.inputs[ReturnCompensation].text.Digits?
  {
    hide Admit, CompensationSources, CheckSig;
    assert AdmitInput(ReturnCompensation, r).Ok?;
    if !CompensationContradicts(r.inputs, r.currency) {
      AdmittedNumber(BindingOf(ReturnCompensation, r.inputs), r.policy);
    }
  }

  /** The check before rounding is the reference's check. */
  lemma CompensationChecksAgree(r: Request)
    requires AdmitInputs(r).Ok? && CompleteRequest(r)
    ensures CompensationContradicts(r.inputs, r.currency) <==> !Oracle.CompensationAccepted(CaseOf(r))
  {
    hide AdmitInputs, Written;
    CompensationTextIsNumber(r);
    UnitInput(r, CompensatedReturnedUnits);
    assert IsGiven(r, ReturnCompensation, Money(r.currency)) && IsGiven(r, CompensatedReturnedUnits, ITEMS);
  }

  // ----- The parts of an accepted request

  lemma UnitsAgree(r: Request)
    requires AdmitInputs(r).Ok? && CompleteRequest(r)
    ensures
      var inputs, c := AdmitInputs(r).value, CaseOf(r);
      && IsWholeNumber(Expect(inputs, GrossSalesUnits, ITEMS), ITEMS, c.gross)
      && IsWholeNumber(Expect(inputs, ReturnedUnits, ITEMS), ITEMS, c.returned)
      && IsWholeNumber(Expect(inputs, ResalableReturnedUnits, ITEMS), ITEMS, c.resalable)
      && IsWholeNumber(Expect(inputs, CompensatedReturnedUnits, ITEMS), ITEMS, c.compensated)
  {
    hide AdmitInputs, Expect, IsGiven, IsWholeNumber;
    assert IsGiven(r, GrossSalesUnits, ITEMS) && IsGiven(r, ReturnedUnits, ITEMS);
    assert IsGiven(r, ResalableReturnedUnits, ITEMS) && IsGiven(r, CompensatedReturnedUnits, ITEMS);
    UnitInput(r, GrossSalesUnits);
    UnitInput(r, ReturnedUnits);
    UnitInput(r, ResalableReturnedUnits);
    UnitInput(r, CompensatedReturnedUnits);
  }

  lemma NetAgrees(gross: Value, returned: Value, g: int, t: int)
    requires IsWholeNumber(gross, ITEMS, g) && IsWholeNumber(returned, ITEMS, t) && g >= 0 && t >= 0 && t <= g
    ensures IsWholeNumber(NetUnits(gross, returned), ITEMS, g - t)
  {
    hide Propagate;
    PropagatedIsNonValid([gross, returned], ITEMS);
  }

  lemma CostAgrees(gross: Value, returned: Value, resalable: Value, compensated: Value, perUnit: Value,
                   c: Oracle.Case, currency: string)
    requires IsWholeNumber(gross, ITEMS, c.gross) && IsWholeNumber(returned, ITEMS, c.returned)
    requires IsWholeNumber(resalable, ITEMS, c.resalable) && IsWholeNumber(compensated, ITEMS, c.compensated)
    requires Oracle.UnitsAccepted(c) && IsNum(perUnit, PerItem(currency), c.costPerUnit)
    ensures IsNum(ProductCost(CostUnits(gross, returned, resalable, compensated), perUnit, currency), Money(currency),
                  Oracle.CostOf(c))
  {
    hide Propagate;
    PropagatedIsNonValid([gross, returned, resalable, compensated], ITEMS);
    PropagatedIsNonValid([perUnit], Money(currency));
  }

  lemma CompensationAgrees(inputs: Inputs, currency: string, units: int, x: real)
    requires IsWholeNumber(Expect(inputs, CompensatedReturnedUnits, ITEMS), ITEMS, units)
    requires IsNum(Expect(inputs, ReturnCompensation, Money(currency)), Money(currency), x)
    requires units >= 0 && x >= 0.0 && (units == 0 ==> x == 0.0)
    ensures IsNum(Compensation(inputs, currency), Money(currency), x)
  {
    hide Propagate, Expect;
    PropagatedIsNonValid([Expect(inputs, CompensatedReturnedUnits, ITEMS),
                          Expect(inputs, ReturnCompensation, Money(currency))], Money(currency));
  }

  /** Normalising keeps the sign of a compensation, and zero. */
  lemma NormSign(x: real, p: Policy)
    ensures x >= 0.0 ==> Norm(x, p) >= 0.0
    ensures x == 0.0 ==> Norm(x, p) == 0.0
  {
    assert IsWhole(Scaled(0.0, p.calculationScale), 0);
    RoundToFixes(0.0, p.calculationScale, p.calculationMode);
    if x >= 0.0 {
      RoundToMonotone(0.0, x, p.calculationScale, p.calculationMode);
    }
  }

  lemma FourTerms(a: Term, b: Term, c: Term, d: Term)
    ensures SignedTotal([a, b, c, d]) ==
      a.sign as real * NumOf(a.value) + b.sign as real * NumOf(b.value) + c.sign as real * NumOf(c.value) +
        d.sign as real * NumOf(d.value)
  {
    assert [a, b, c, d] == [a, b, c] + [d] && [a, b, c] == [a, b] + [c] && [a, b] == [a] + [b] && [a] == [] + [a];
    SignedLast([], a);
    SignedLast([a], b);
    SignedLast([a, b], c);
    SignedLast([a, b, c], d);
  }

  lemma {:induction false} TotalConcat(a: seq<Term>, b: seq<Term>)
    ensures SignedTotal(a + b) == SignedTotal(a) + SignedTotal(b)
  {
    if b == [] {
      assert a + b == a;
    } else {
      var init, last := b[..|b| - 1], b[|b| - 1];
      TotalConcat(a, init);
      assert a + b == (a + init) + [last] && b == init + [last];
      SignedLast(a + init, last);
      SignedLast(init, last);
    }
  }

  lemma TenTerms(t: seq<Term>)
    requires |t| == 10
    ensures SignedTotal(t) ==
      Part(t[0]) + Part(t[1]) + Part(t[2]) + Part(t[3]) + Part(t[4]) + Part(t[5]) + Part(t[6]) + Part(t[7]) +
        Part(t[8]) + Part(t[9])
  {
    hide NumOf, SignedTotal;
    assert t == [t[0], t[1], t[2], t[3]] + ([t[4], t[5], t[6], t[7]] + [t[8], t[9]]);
    TotalConcat([t[0], t[1], t[2], t[3]], [t[4], t[5], t[6], t[7]] + [t[8], t[9]]);
    TotalConcat([t[4], t[5], t[6], t[7]], [t[8], t[9]]);
    FourTerms(t[0], t[1], t[2], t[3]);
    FourTerms(t[4], t[5], t[6], t[7]);
    TwoTerms(t[8], t[9]);
  }

  lemma MoneyTerm(sign: int, v: Value, currency: string, x: real)
    requires IsNum(v, Money(currency), x)
    ensures v.Valid? && IsMoney(v, currency)
    ensures sign == 1 ==> Part(Term(sign, v)) == x
    ensures sign == -1 ==> Part(Term(sign, v)) == -x
  {
  }

  lemma IncomeAgrees(inputs: Inputs, currency: string, c: Oracle.Case)
    requires Oracle.Complete(c)
    requires IsNum(Compensation(inputs, currency), Money(currency), c.inputs[ReturnCompensation])
    requires forall m | m in SETTLED ::
      m in c.inputs && IsNum(Expect(inputs, m, Money(currency)), Money(currency), c.inputs[m])
    ensures IsNum(Income(inputs, currency), Money(currency), Oracle.MarketplaceOf(c))
  {
    hide Expect, Compensation, MoneySum, IsNum, Part, SignedTotal, IsMoney;
    var sig, compensation := Money(currency), Compensation(inputs, currency);
    var t := IncomeTerms(inputs, compensation, currency);
    MoneyTerm(1, compensation, currency, c.inputs[ReturnCompensation]);
    MoneyTerm(1, Expect(inputs, SETTLED[0], sig), currency, c.inputs[SETTLED[0]]);
    MoneyTerm(-1, Expect(inputs, SETTLED[1], sig), currency, c.inputs[SETTLED[1]]);
    MoneyTerm(1, Expect(inputs, SETTLED[2], sig), currency, c.inputs[SETTLED[2]]);
    MoneyTerm(-1, Expect(inputs, SETTLED[3], sig), currency, c.inputs[SETTLED[3]]);
    MoneyTerm(-1, Expect(inputs, SETTLED[4], sig), currency, c.inputs[SETTLED[4]]);
    MoneyTerm(-1, Expect(inputs, SETTLED[5], sig), currency, c.inputs[SETTLED[5]]);
    MoneyTerm(-1, Expect(inputs, SETTLED[6], sig), currency, c.inputs[SETTLED[6]]);
    MoneyTerm(-1, Expect(inputs, SETTLED[7], sig), currency, c.inputs[SETTLED[7]]);
    MoneyTerm(-1, Expect(inputs, SETTLED[8], sig), currency, c.inputs[SETTLED[8]]);
    SumOfValid(t, currency);
    TenTerms(t);
    SumIsNum(t, currency);
  }

  lemma SumIsNum(terms: seq<Term>, currency: string)
    requires MoneySum(terms, currency) == Valid(Num(SignedTotal(terms)), Money(currency), AllSources(ValuesOf(terms)))
    ensures IsNum(MoneySum(terms, currency), Money(currency), SignedTotal(terms))
  {
    hide MoneySum, SignedTotal, AllSources;
  }

  lemma TwoTerms(a: Term, b: Term)
    ensures SignedTotal([a, b]) == a.sign as real * NumOf(a.value) + b.sign as real * NumOf(b.value)
  {
    assert [a, b] == [a] + [b] && [a] == [] + [a];
    SignedLast([], a);
    SignedLast([a], b);
  }

  // ----- Other expense

  predicate ExpenseIs(r: Request, k: nat)
    requires k < |r.expenses|
  {
    r.expenses[k].value.Present? && ExpenseSig(r.expenses[k].value.sig, r.currency)
  }

  lemma AmountIs(value: Value, sig: Sig, x: real, net: Value, n: int, currency: string)
    requires IsNum(value, sig, x) && ExpenseSig(sig, currency) && IsWholeNumber(net, ITEMS, n)
    ensures IsNum(ExpenseAmount(value, net, currency), Money(currency),
                  if sig == PerItem(currency) then n as real * x else x)
  {
    hide Propagate;
    PropagatedIsNonValid([net, value], Money(currency));
  }

  lemma AmountAgrees(item: Component, value: Value, net: Value, n: int, r: Request)
    requires Admit(Binding(ExpenseName(item.id), item.value), r.policy) == Ok(value)
    requires item.value.Present? && ExpenseSig(item.value.sig, r.currency) && IsWholeNumber(net, ITEMS, n)
    ensures value.sig == item.value.sig
    ensures IsNum(ExpenseAmount(value, net, r.currency), Money(r.currency),
                  Oracle.ExpenseOf(NormExpense(ExpenseIn(item, r.currency), r.policy), n))
  {
    hide Admit, Norm, ExpenseAmount, NumberIn;
    AdmittedNumber(Binding(ExpenseName(item.id), item.value), r.policy);
    AmountIs(value, item.value.sig, Norm(NumberIn(item.value), r.policy), net, n, r.currency);
  }

  /** Terms that are all VALID money, and their sum. */
  predicate AddsUp(terms: seq<Term>, currency: string, x: real) {
    (forall i | 0 <= i < |terms| :: terms[i].value.Valid?) && AllMoney(terms, currency) && SignedTotal(terms) == x
  }

  lemma AddsUpStep(terms: seq<Term>, v: Value, currency: string, x: real, y: real)
    requires AddsUp(terms, currency, x) && IsNum(v, Money(currency), y)
    ensures AddsUp(terms + [Term(1, v)], currency, x + y)
  {
    SignedLast(terms, Term(1, v));
    hide SignedTotal;
  }

  lemma ExpenseAt(r: Request, n: nat)
    requires 0 < n <= |r.expenses|
    ensures
      var c := Normalised(CaseOf(r), r.policy);
      Oracle.OtherOf(c.expenses[..n], Oracle.Net(c)) == Oracle.OtherOf(c.expenses[..n - 1], Oracle.Net(c))
        + Oracle.ExpenseOf(NormExpense(ExpenseIn(r.expenses[n - 1], r.currency), r.policy), Oracle.Net(c))
  {
    hide NormExpense, ExpenseIn, Oracle.ExpenseOf;
    var c := Normalised(CaseOf(r), r.policy);
    assert c.expenses[..n][..n - 1] == c.expenses[..n - 1];
    assert c.expenses[n - 1] == NormExpense(CaseOf(r).expenses[n - 1], r.policy);
  }

  function AmountAt(r: Request, net: Value, k: nat): Value
    requires k < |r.expenses| && Admit(Binding(ExpenseName(r.expenses[k].id), r.expenses[k].value), r.policy).Ok?
  {
    ExpenseAmount(Admit(Binding(ExpenseName(r.expenses[k].id), r.expenses[k].value), r.policy).value, net, r.currency)
  }

  lemma ExpensesNext(r: Request, net: Value, n: nat)
    requires 0 < n <= |r.expenses| && ExpensesUpTo(r, net, n).Ok? && ExpenseIs(r, n - 1)
    requires ExpensesUpTo(r, net, n - 1).Ok? && ExpensesUpTo(r, net, n - 1).value.Terms?
    requires IsWholeNumber(net, ITEMS, Oracle.Net(CaseOf(r)))
    ensures Admit(Binding(ExpenseName(r.expenses[n - 1].id), r.expenses[n - 1].value), r.policy).Ok?
    ensures ExpensesUpTo(r, net, n) ==
      Ok(Terms(ExpensesUpTo(r, net, n - 1).value.terms + [Term(1, AmountAt(r, net, n - 1))]))
    ensures IsNum(AmountAt(r, net, n - 1), Money(r.currency),
                  Oracle.ExpenseOf(NormExpense(ExpenseIn(r.expenses[n - 1], r.currency), r.policy),
                                   Oracle.Net(CaseOf(r))))
  {
    hide Admit, ExpenseAmount, ExpenseSig, NormExpense, ExpenseIn, Oracle.ExpenseOf, CaseOf, IsNum;
    var item := r.expenses[n - 1];
    AmountAgrees(item, Admit(Binding(ExpenseName(item.id), item.value), r.policy).value, net, Oracle.Net(CaseOf(r)), r);
  }

  lemma {:induction false} ExpensesAgree(r: Request, net: Value, n: nat)
    requires n <= |r.expenses| && ExpensesUpTo(r, net, n).Ok?
    requires forall k | 0 <= k < |r.expenses| :: ExpenseIs(r, k)
    requires IsWholeNumber(net, ITEMS, Oracle.Net(CaseOf(r)))
    ensures ExpensesUpTo(r, net, n).value.Terms?
    ensures
      var c := Normalised(CaseOf(r), r.policy);
      AddsUp(ExpensesUpTo(r, net, n).value.terms, r.currency, Oracle.OtherOf(c.expenses[..n], Oracle.Net(c)))
  {
    var c := Normalised(CaseOf(r), r.policy);
    hide Admit, ExpenseAmount, AddsUp, Normalised, CaseOf, Oracle.ExpenseOf, Oracle.Net, IsNum, ExpenseIs;
    if n > 0 {
      hide Oracle.OtherOf, IsWholeNumber;
      assert ExpensesUpTo(r, net, n - 1).Ok?;
      ExpensesAgree(r, net, n - 1);
      hide ExpensesUpTo;
      OneMoreExpense(r, net, n);
    } else {
      assert c.expenses[..0] == [];
      NothingAddsUp(r.currency);
    }
  }

  lemma OneMoreExpense(r: Request, net: Value, n: nat)
    requires 0 < n <= |r.expenses| && ExpensesUpTo(r, net, n).Ok? && ExpensesUpTo(r, net, n - 1).Ok?
    requires ExpensesUpTo(r, net, n - 1).value.Terms? && ExpenseIs(r, n - 1)
    requires IsWholeNumber(net, ITEMS, Oracle.Net(CaseOf(r)))
    requires
      var c := Normalised(CaseOf(r), r.policy);
      AddsUp(ExpensesUpTo(r, net, n - 1).value.terms, r.currency, Oracle.OtherOf(c.expenses[..n - 1], Oracle.Net(c)))
    ensures ExpensesUpTo(r, net, n).value.Terms?
    ensures
      var c := Normalised(CaseOf(r), r.policy);
      AddsUp(ExpensesUpTo(r, net, n).value.terms, r.currency, Oracle.OtherOf(c.expenses[..n], Oracle.Net(c)))
  {
    var c := Normalised(CaseOf(r), r.policy);
    assert Oracle.Net(c) == Oracle.Net(CaseOf(r));
    hide Admit, ExpenseAmount, ExpenseSig, NormExpense, ExpenseIn, AddsUp, Normalised, CaseOf, Oracle.ExpenseOf,
      Oracle.Net, Oracle.OtherOf, IsNum, ExpenseIs, ExpensesUpTo, IsWholeNumber;
    ExpenseAt(r, n);
    ExpensesNext(r, net, n);
    AddsUpStep(ExpensesUpTo(r, net, n - 1).value.terms, AmountAt(r, net, n - 1), r.currency,
               Oracle.OtherOf(c.expenses[..n - 1], Oracle.Net(c)),
               Oracle.ExpenseOf(NormExpense(ExpenseIn(r.expenses[n - 1], r.currency), r.policy), Oracle.Net(c)));
  }

  lemma NothingAddsUp(currency: string)
    ensures AddsUp([], currency, 0.0)
  {
  }

  lemma OtherAgrees(r: Request, net: Value)
    requires OtherExpense(r, net).Ok? && r.expenses != []
    requires forall k | 0 <= k < |r.expenses| :: ExpenseIs(r, k)
    requires IsWholeNumber(net, ITEMS, Oracle.Net(CaseOf(r)))
    ensures
      var c := Normalised(CaseOf(r), r.policy);
      IsNum(OtherExpense(r, net).value, Money(r.currency), Oracle.OtherOf(c.expenses, Oracle.Net(c)))
  {
    var c := Normalised(CaseOf(r), r.policy);
    ExpensesAgree(r, net, |r.expenses|);
    assert c.expenses[..|r.expenses|] == c.expenses;
    hide ExpensesUpTo, MoneySum, CaseOf, Normalised;
    var terms := ExpensesUpTo(r, net, |r.expenses|).value.terms;
    SumOfValid(terms, r.currency);
    SumIsNum(terms, r.currency);
  }

  // ----- Tax, profit and the rest

  /** The three metrics the kernel computes before the tax. */
  predicate PartsAre(income: Value, cost: Value, other: Value, c: Oracle.Case, currency: string)
    requires Oracle.Complete(c)
  {
    && IsNum(income, Money(currency), Oracle.MarketplaceOf(c))
    && IsNum(cost, Money(currency), Oracle.CostOf(c))
    && IsNum(other, Money(currency), Oracle.OtherOf(c.expenses, Oracle.Net(c)))
  }

  lemma TaxAgrees(inputs: Inputs, income: Value, cost: Value, other: Value, rate: Value, c: Oracle.Case,
                  currency: string)
    requires Oracle.Complete(c) && c.taxBase in Oracle.BasesOf(c)
    requires PartsAre(income, cost, other, c, currency) && IsNum(rate, RATES, c.taxRate)
    requires forall m | m in MONEY_INPUTS :: IsNum(Expect(inputs, m, Money(currency)), Money(currency), c.inputs[m])
    ensures IsNum(Tax(Bases(inputs, income, cost, other), c.taxBase, rate, currency), Money(currency),
                  Oracle.TaxOf(c))
  {
    var bases := Bases(inputs, income, cost, other);
    if c.taxBase in MONEY_INPUTS {
      assert IsNum(Expect(inputs, c.taxBase, Money(currency)), Money(currency), c.inputs[c.taxBase]);
      ExpectedValid(inputs, c.taxBase, Money(currency));
    }
    hide Propagate, Oracle.MarketplaceOf, Oracle.CostOf, Oracle.OtherOf, Expect;
    assert c.taxBase in bases && IsNum(bases[c.taxBase], Money(currency), Oracle.BasesOf(c)[c.taxBase]);
    PropagatedIsNonValid([rate, bases[c.taxBase]], Money(currency));
  }

  lemma ProfitAgrees(income: Value, cost: Value, other: Value, tax: Value, currency: string, a: real, b: real,
                     c: real, d: real)
    requires IsNum(income, Money(currency), a) && IsNum(cost, Money(currency), b)
    requires IsNum(other, Money(currency), c) && IsNum(tax, Money(currency), d)
    ensures IsNum(Profit(income, cost, other, tax, currency), Money(currency), a - b - c - d)
  {
    hide MoneySum;
    var t := [Term(1, income), Term(-1, cost), Term(-1, other), Term(-1, tax)];
    SumOfValid(t, currency);
    FourTerms(t[0], t[1], t[2], t[3]);
    hide SignedTotal;
    SumIsNum(t, currency);
  }

  lemma PerUnitAgrees(profit: Value, net: Value, currency: string, x: real, n: int)
    requires IsNum(profit, Money(currency), x) && IsWholeNumber(net, ITEMS, n)
    ensures n > 0 ==> IsNum(ProfitPerUnit(profit, net, currency), PerItem(currency), x / n as real)
    ensures n <= 0 ==>
      && ProfitPerUnit(profit, net, currency).NonValid?
      && ProfitPerUnit(profit, net, currency).state == BLOCKED
  {
    hide Propagate;
    PropagatedIsNonValid([profit, net], PerItem(currency));
  }

  // ----- The whole calculation

  lemma SettledAgree(r: Request)
    requires AdmitInputs(r).Ok? && CompleteRequest(r) && Oracle.CompensationAccepted(CaseOf(r))
    ensures
      var c := Normalised(CaseOf(r), r.policy);
      forall m | m in MONEY_INPUTS :: IsNum(Expect(AdmitInputs(r).value, m, Money(r.currency)), Money(r.currency),
                                            c.inputs[m])
  {
    CompensationChecksAgree(r);
    var c := Normalised(CaseOf(r), r.policy);
    hide AdmitInputs, Expect, IsNum, CompensationContradicts, Norm;
    forall m | m in MONEY_INPUTS
      ensures IsNum(Expect(AdmitInputs(r).value, m, Money(r.currency)), Money(r.currency), c.inputs[m])
    {
      assert IsGiven(r, m, Money(r.currency));
      MoneyInput(r, m);
      assert c.inputs[m] == Norm(NumberIn(InputAt(r, m)), r.policy);
    }
  }

  lemma SettledAreMoney()
    ensures forall m | m in SETTLED :: m in MONEY_INPUTS
  {
    assert SETTLED[0] == GrossSales && SETTLED[1] == Discounts && SETTLED[2] == Subsidies && SETTLED[3] == Commission;
    assert SETTLED[4] == ForwardLogistics && SETTLED[5] == ReverseLogistics && SETTLED[6] == Storage;
    assert SETTLED[7] == Advertising && SETTLED[8] == Fines;
  }

  lemma CompensationValue(r: Request)
    requires AdmitInputs(r).Ok? && CompleteRequest(r) && Oracle.Reference(CaseOf(r)).Ok?
    ensures IsNum(Compensation(AdmitInputs(r).value, r.currency), Money(r.currency),
                  Normalised(CaseOf(r), r.policy).inputs[ReturnCompensation])
  {
    var c := CaseOf(r);
    var written := c.inputs[ReturnCompensation];
    assert Oracle.CompensationAccepted(c) && Oracle.UnitsAccepted(c);
    SettledAgree(r);
    UnitsAgree(r);
    NormSign(written, r.policy);
    assert Normalised(c, r.policy).inputs[ReturnCompensation] == Norm(written, r.policy);
    hide AdmitInputs, Expect, IsNum, IsWholeNumber, Norm, Normalised, CaseOf;
    CompensationAgrees(AdmitInputs(r).value, r.currency, c.compensated, Norm(written, r.policy));
  }

  lemma IncomeOf(r: Request)
    requires AdmitInputs(r).Ok? && CompleteRequest(r) && Oracle.Reference(CaseOf(r)).Ok?
    ensures IsNum(Income(AdmitInputs(r).value, r.currency), Money(r.currency),
                  Oracle.MarketplaceOf(Normalised(CaseOf(r), r.policy)))
  {
    var c := Normalised(CaseOf(r), r.policy);
    assert Oracle.CompensationAccepted(CaseOf(r));
    SettledAgree(r);
    SettledAreMoney();
    CompensationValue(r);
    hide AdmitInputs, Expect, IsNum, Compensation, Income, CaseOf, Normalised;
    IncomeAgrees(AdmitInputs(r).value, r.currency, c);
  }

  lemma UnitsOfCase(r: Request)
    requires Oracle.Reference(CaseOf(r)).Ok?
    ensures
      var c, n := CaseOf(r), Normalised(CaseOf(r), r.policy);
      && n.gross == c.gross && n.returned == c.returned && n.resalable == c.resalable && n.compensated == c.compensated
      && n.costPerUnit == Norm(NumberIn(r.costPerUnit), r.policy) && Oracle.UnitsAccepted(n)
  {
    hide Norm, NumberIn, CountIn, ExpenseIn, NormExpense;
  }

  lemma UnitCostAgrees(r: Request, perUnit: Value)
    requires CompleteRequest(r) && Admit(Binding(Given("cost_per_unit"), r.costPerUnit), r.policy) == Ok(perUnit)
    ensures IsNum(perUnit, PerItem(r.currency), Norm(NumberIn(r.costPerUnit), r.policy))
  {
    hide Admit, Norm, NumberIn;
    AdmittedNumber(Binding(Given("cost_per_unit"), r.costPerUnit), r.policy);
  }

  lemma CostAndNet(r: Request, perUnit: Value)
    requires AdmitInputs(r).Ok? && CompleteRequest(r) && Oracle.Reference(CaseOf(r)).Ok?
    requires Admit(Binding(Given("cost_per_unit"), r.costPerUnit), r.policy) == Ok(perUnit)
    ensures
      var inputs, c := AdmitInputs(r).value, Normalised(CaseOf(r), r.policy);
      var gross, returned := Expect(inputs, GrossSalesUnits, ITEMS), Expect(inputs, ReturnedUnits, ITEMS);
      var resalable, compensated := Expect(inputs, ResalableReturnedUnits, ITEMS),
        Expect(inputs, CompensatedReturnedUnits, ITEMS);
      && IsWholeNumber(NetUnits(gross, returned), ITEMS, Oracle.Net(c))
      && IsNum(ProductCost(CostUnits(gross, returned, resalable, compensated), perUnit, r.currency), Money(r.currency),
               Oracle.CostOf(c))
  {
    hide AdmitInputs, Expect, IsNum, IsWholeNumber, NetUnits, CostUnits, ProductCost, Admit, Norm, NumberIn,
      CompleteRequest, CaseOf, Normalised, Oracle.Reference;
    var inputs, c := AdmitInputs(r).value, Normalised(CaseOf(r), r.policy);
    UnitsAgree(r);
    UnitsOfCase(r);
    UnitCostAgrees(r, perUnit);
    NetAgrees(Expect(inputs, GrossSalesUnits, ITEMS), Expect(inputs, ReturnedUnits, ITEMS), c.gross, c.returned);
    CostAgrees(Expect(inputs, GrossSalesUnits, ITEMS), Expect(inputs, ReturnedUnits, ITEMS),
               Expect(inputs, ResalableReturnedUnits, ITEMS), Expect(inputs, CompensatedReturnedUnits, ITEMS), perUnit,
                 c, r.currency);
  }

  /** The metrics before the final rounding, for a case. */
  predicate RawIs(raw: Results, c: Oracle.Case, currency: string)
    requires Oracle.Complete(c) && c.taxBase in Oracle.BasesOf(c)
  {
    && IsWholeNumber(raw.netUnits, ITEMS, Oracle.Net(c))
    && PartsAre(raw.income, raw.productCost, raw.otherExpense, c, currency)
    && IsNum(raw.tax, Money(currency), Oracle.TaxOf(c))
    && IsNum(raw.profit, Money(currency), Oracle.ProfitOf(c))
    && raw.perUnit == ProfitPerUnit(raw.profit, raw.netUnits, currency)
    && raw.profitability == PROFITABILITY
  }

  lemma NormalisedFacts(r: Request)
    requires Oracle.Reference(CaseOf(r)).Ok?
    ensures
      var c := Normalised(CaseOf(r), r.policy);
      && c.taxBase == r.taxBase && c.taxBase in Oracle.BasesOf(c) && Oracle.Net(c) == Oracle.Net(CaseOf(r))
      && c.taxRate == Norm(NumberIn(r.taxRate), r.policy)
      && Oracle.CompensationAccepted(CaseOf(r))
  {
    hide Norm, NumberIn, CountIn, ExpenseIn, NormExpense;
  }

  lemma RateAgrees(r: Request)
    requires CompleteRequest(r) && Admit(Binding(Given("tax_rate"), r.taxRate), r.policy).Ok?
    ensures IsNum(Admit(Binding(Given("tax_rate"), r.taxRate), r.policy).value, RATES,
                  Norm(NumberIn(r.taxRate), r.policy))
  {
    hide Admit, Norm, NumberIn;
    AdmittedNumber(Binding(Given("tax_rate"), r.taxRate), r.policy);
  }

  lemma PartsAgree(r: Request)
    requires CompleteRequest(r) && Raw(r).Ok? && Oracle.Reference(CaseOf(r)).Ok?
    ensures
      var raw, c := Raw(r).value, Normalised(CaseOf(r), r.policy);
      && IsWholeNumber(raw.netUnits, ITEMS, Oracle.Net(c))
      && PartsAre(raw.income, raw.productCost, raw.otherExpense, c, r.currency)
  {
    assert r.expenses != [] && forall k | 0 <= k < |r.expenses| :: ExpenseIs(r, k);
    hide Raw, AdmitInputs, Expect, NetUnits, CostUnits, ProductCost, OtherExpense, Income, Tax, Bases, Profit,
      ProfitPerUnit, Admit,
      Oracle.MarketplaceOf, Oracle.CostOf, Oracle.OtherOf, Normalised, CaseOf, Oracle.Net, CompleteRequest,
        Oracle.Reference,
      IsWholeNumber, IsNum, ExpenseIs;
    NormalisedFacts(r);
    RawParts(r);
    CostAndNet(r, Admit(Binding(Given("cost_per_unit"), r.costPerUnit), r.policy).value);
    IncomeOf(r);
    OtherAgrees(r, Raw(r).value.netUnits);
  }

  lemma RawAgrees(r: Request)
    requires CompleteRequest(r) && Raw(r).Ok? && Oracle.Reference(CaseOf(r)).Ok?
    ensures
      var c := Normalised(CaseOf(r), r.policy);
      c.taxBase in Oracle.BasesOf(c) && RawIs(Raw(r).value, c, r.currency)
  {
    hide Raw, AdmitInputs, Expect, NetUnits, CostUnits, ProductCost, OtherExpense, Income, Tax, Bases, Profit,
      ProfitPerUnit, Admit,
      Oracle.MarketplaceOf, Oracle.CostOf, Oracle.OtherOf, Oracle.BasesOf, Normalised, CaseOf, Oracle.Net,
        CompleteRequest,
      Oracle.Reference, Norm, NumberIn;
    var c := Normalised(CaseOf(r), r.policy);
    NormalisedFacts(r);
    PartsAgree(r);
    RawParts(r);
    RateAgrees(r);
    SettledAgree(r);
    var raw := Raw(r).value;
    var rate := Admit(Binding(Given("tax_rate"), r.taxRate), r.policy).value;
    TaxAgrees(AdmitInputs(r).value, raw.income, raw.productCost, raw.otherExpense, rate, c, r.currency);
    ProfitAgrees(raw.income, raw.productCost, raw.otherExpense, raw.tax, r.currency, Oracle.MarketplaceOf(c),
                 Oracle.CostOf(c),
                 Oracle.OtherOf(c.expenses, Oracle.Net(c)), Oracle.TaxOf(c));
  }

  // ----- The theorems

  /** The reported metric is what the reference expects. */
  predicate Meets(v: Value, e: Oracle.Expected) {
    match e
    case Money(x) => v.Valid? && v.scalar == Num(x)
    case Units(n) => v.Valid? && v.scalar == Whole(n)
    case Blocked => v.NonValid? && v.state == BLOCKED
  }

  predicate MeetsAll(results: Results, a: Oracle.Answer) {
    && Meets(results.netUnits, a.netUnits) && Meets(results.productCost, a.productCost)
    && Meets(results.otherExpense, a.otherExpense) && Meets(results.tax, a.tax)
    && Meets(results.income, a.income) && Meets(results.profit, a.profit)
    && Meets(results.perUnit, a.perUnit) && Meets(results.profitability, a.profitability)
  }

  lemma MetricMeets(v: Value, sig: Sig, x: real, p: Policy)
    requires IsNum(v, sig, x) && sig.valueType == MONEY && Metric(v, p).Ok?
    ensures Meets(Metric(v, p).value, Oracle.Expected.Money(RoundTo(x, p.moneyScale, p.calculationMode)))
  {
    hide RoundTo;
  }

  lemma MetricKeepsBlocked(v: Value, p: Policy)
    requires v.NonValid?
    ensures Metric(v, p) == Ok(v)
  {
  }

  lemma ReportedMeets(raw: Results, c: Oracle.Case, p: Policy, currency: string)
    requires Oracle.Complete(c) && c.taxBase in Oracle.BasesOf(c) && RawIs(raw, c, currency)
    requires c.scale == p.moneyScale && c.mode == p.calculationMode && Reported(raw, p).Ok?
    ensures MeetsAll(Reported(raw, p).value, Oracle.AnswerOf(c))
  {
    hide Metric, ProfitPerUnit, Oracle.MarketplaceOf, Oracle.CostOf, Oracle.OtherOf, Oracle.BasesOf, RoundTo,
      Oracle.ProfitOf, Oracle.TaxOf, Meets, IsNum, Oracle.Net;
    MetricMeets(raw.productCost, Money(currency), Oracle.CostOf(c), p);
    MetricMeets(raw.otherExpense, Money(currency), Oracle.OtherOf(c.expenses, Oracle.Net(c)), p);
    MetricMeets(raw.tax, Money(currency), Oracle.TaxOf(c), p);
    MetricMeets(raw.income, Money(currency), Oracle.MarketplaceOf(c), p);
    MetricMeets(raw.profit, Money(currency), Oracle.ProfitOf(c), p);
    MetricKeepsBlocked(raw.profitability, p);
    UndividedMeets(raw.netUnits, Oracle.Net(c));
    PerUnitMeets(raw, c, p, currency);
  }

  lemma UndividedMeets(net: Value, n: int)
    requires IsWholeNumber(net, ITEMS, n)
    ensures Meets(net, Oracle.Expected.Units(n))
    ensures Meets(PROFITABILITY, Oracle.Expected.Blocked)
  {
  }

  lemma PerUnitMeets(raw: Results, c: Oracle.Case, p: Policy, currency: string)
    requires Oracle.Complete(c) && c.taxBase in Oracle.BasesOf(c) && RawIs(raw, c, currency)
    requires c.scale == p.moneyScale && c.mode == p.calculationMode && Metric(raw.perUnit, p).Ok?
    ensures Meets(Metric(raw.perUnit, p).value, Oracle.AnswerOf(c).perUnit)
  {
    hide Metric, ProfitPerUnit, Oracle.MarketplaceOf, Oracle.CostOf, Oracle.OtherOf, Oracle.BasesOf, RoundTo,
      Oracle.ProfitOf, Oracle.TaxOf, IsNum, Oracle.Net;
    PerUnitAgrees(raw.profit, raw.netUnits, currency, Oracle.ProfitOf(c), Oracle.Net(c));
    if Oracle.Net(c) > 0 {
      MetricMeets(raw.perUnit, PerItem(currency), Oracle.ProfitOf(c) / Oracle.Net(c) as real, p);
    } else {
      MetricKeepsBlocked(raw.perUnit, p);
    }
  }

  /** On a complete request the reference accepts, all eight metrics are the reference's for the normalised numbers. */
  lemma KernelMeetsReference(r: Request)
    requires CompleteRequest(r) && Calculated(r).Ok? && Oracle.Reference(CaseOf(r)).Ok?
    ensures
      var c := Normalised(CaseOf(r), r.policy);
      c.taxBase in Oracle.BasesOf(c) && MeetsAll(Calculated(r).value, Oracle.AnswerOf(c))
  {
    var c := Normalised(CaseOf(r), r.policy);
    assert c.scale == r.policy.moneyScale && c.mode == r.policy.calculationMode;
    hide Raw, Reported, CaseOf, Normalised, RawIs, MeetsAll, Oracle.AnswerOf;
    RawAgrees(r);
    ReportedMeets(Raw(r).value, c, r.policy, r.currency);
  }

  /** Every number of the request has at most as many fractional digits as the policy keeps. */
  predicate FractionsFit(r: Request) {
    && (forall m | m in MONEY_INPUTS && m in r.inputs :: FractionFits(r.inputs[m], r.policy))
    && FractionFits(r.costPerUnit, r.policy) && FractionFits(r.taxRate, r.policy)
    && forall k | 0 <= k < |r.expenses| :: FractionFits(r.expenses[k].value, r.policy)
  }

  predicate FractionFits(i: Input, p: Policy) {
    i.Present? && i.text.Digits? ==> i.text.scale <= p.calculationScale
  }

  lemma NumberFits(i: Input, p: Policy)
    requires FractionFits(i, p)
    ensures Norm(NumberIn(i), p) == NumberIn(i)
  {
    if i.Present? && i.text.Digits? {
      ScaledOfQuotient(i.text.coefficient, i.text.scale);
      assert IsWhole(Scaled(Written(i.text), i.text.scale), i.text.coefficient);
      FitsMore(Written(i.text), i.text.scale, p.calculationScale);
    } else {
      NormSign(0.0, p);
    }
    assert Norm(0.0, p) == 0.0 by { NormSign(0.0, p); }
    hide Pow10, RoundTo;
    if i.Present? && i.text.Digits? {
      RoundToFixes(Written(i.text), p.calculationScale, p.calculationMode);
    }
  }

  lemma CaseIsNormal(r: Request)
    requires CompleteRequest(r) && FractionsFit(r)
    ensures Normalised(CaseOf(r), r.policy) == CaseOf(r)
  {
    var c := CaseOf(r);
    var n := Normalised(c, r.policy);
    hide NumberIn, Norm, FractionFits, ExpenseSig;
    NumberFits(r.costPerUnit, r.policy);
    NumberFits(r.taxRate, r.policy);
    forall m | m in MONEY_INPUTS
      ensures n.inputs[m] == c.inputs[m]
    {
      assert IsGiven(r, m, Money(r.currency));
      NumberFits(r.inputs[m], r.policy);
    }
    assert n.inputs == c.inputs;
    forall k | 0 <= k < |r.expenses|
      ensures n.expenses[k] == c.expenses[k]
    {
      NumberFits(r.expenses[k].value, r.policy);
    }
    assert n.expenses == c.expenses;
  }

  /** On clean inputs all eight metrics are exactly the reference's. */
  lemma CleanInputsMeetReference(r: Request)
    requires CompleteRequest(r) && FractionsFit(r) && Calculated(r).Ok? && Oracle.Reference(CaseOf(r)).Ok?
    ensures MeetsAll(Calculated(r).value, Oracle.Reference(CaseOf(r)).value)
  {
    hide Calculated, MeetsAll, CaseOf, Normalised, CompleteRequest, FractionsFit;
    CaseIsNormal(r);
    KernelMeetsReference(r);
  }

  /** The kernel reports a VALID profit exactly when the reference does not refuse the case. */
  lemma ProfitValidIffReferenceAccepts(r: Request)
    requires CompleteRequest(r) && Calculated(r).Ok?
    ensures Calculated(r).value.profit.Valid? <==> Oracle.Reference(CaseOf(r)).Ok?
  {
    if Oracle.Reference(CaseOf(r)).Ok? {
      KernelMeetsReference(r);
    }
    hide Raw, Reported, MeetsAll, Normalised, CompleteRequest, Oracle.Reference;
    if Calculated(r).value.profit.Valid? {
      ReportedValid(Raw(r).value, r.policy);
      ValidProfitIsAccepted(r);
    }
  }

  lemma ValidProfitIsAccepted(r: Request)
    requires CompleteRequest(r) && r.inputs.Keys <= UNIT_INPUTS + MONEY_INPUTS
    requires Raw(r).Ok? && Raw(r).value.profit.Valid?
    ensures Oracle.Reference(CaseOf(r)).Ok?
  {
    assert CaseOf(r).taxBase == r.taxBase;
    hide Raw, AdmitInputs, Expect, NetUnits, CostUnits, ProductCost, OtherExpense, Income, Tax, Bases, Profit,
      ProfitPerUnit, Admit,
      CompleteRequest, CaseOf, Oracle.CompensationAccepted, CompensationContradicts, IntOf, Oracle.BasesOf;
    RawParts(r);
    UnitsAgree(r);
    var raw := Raw(r).value;
    ProfitNeeds(raw.income, raw.productCost, raw.otherExpense, raw.tax, r.currency);
    AcceptedUnits(r);
    AcceptedCompensation(r);
    TaxBaseIsKnown(r);
  }

  lemma AcceptedUnits(r: Request)
    requires CompleteRequest(r) && Raw(r).Ok? && Raw(r).value.productCost.Valid?
    ensures Oracle.UnitsAccepted(CaseOf(r))
  {
    hide Raw, AdmitInputs, Expect, NetUnits, CostUnits, ProductCost, OtherExpense, Income, Tax, Bases, Profit,
      ProfitPerUnit, Admit,
      CompleteRequest, CaseOf;
    RawParts(r);
    UnitsAgree(r);
    var inputs := AdmitInputs(r).value;
    CostNeeds(Expect(inputs, GrossSalesUnits, ITEMS), Expect(inputs, ReturnedUnits, ITEMS),
              Expect(inputs, ResalableReturnedUnits, ITEMS), Expect(inputs, CompensatedReturnedUnits, ITEMS),
              Admit(Binding(Given("cost_per_unit"), r.costPerUnit), r.policy).value, r.currency);
  }

  lemma AcceptedCompensation(r: Request)
    requires CompleteRequest(r) && Raw(r).Ok? && Raw(r).value.income.Valid?
    ensures Oracle.CompensationAccepted(CaseOf(r))
  {
    hide Raw, AdmitInputs, Expect, NetUnits, CostUnits, ProductCost, OtherExpense, Income, Tax, Bases, Profit,
      ProfitPerUnit, Admit,
      CompleteRequest, CaseOf, Compensation, CompensationContradicts, Oracle.CompensationAccepted;
    RawParts(r);
    CompensationChecksAgree(r);
    IncomeNeeds(AdmitInputs(r).value, r.currency);
    CompensationNeeds(AdmitInputs(r).value, r.currency);
    InputIsGiven(r, ReturnCompensation, Money(r.currency));
  }

  lemma BaseIsMoney(inputs: Inputs, income: Value, cost: Value, other: Value, base: MetricId, currency: string)
    requires base in Bases(inputs, income, cost, other) &&
      Bases(inputs, income, cost, other)[base].sig == Money(currency)
    requires inputs.Keys <= UNIT_INPUTS + MONEY_INPUTS
    requires forall m | m in UNIT_INPUTS && m in inputs :: inputs[m].sig == ITEMS
    ensures base in MONEY_INPUTS + {NetMarketplaceIncome, ProductCostAmount, OtherExpenseAmount}
  {
  }

  lemma UnitSig(r: Request, m: MetricId)
    requires CompleteRequest(r) && AdmitInputs(r).Ok? && m in UNIT_INPUTS
    ensures m in AdmitInputs(r).value && AdmitInputs(r).value[m].sig == ITEMS
  {
    assert IsGiven(r, m, ITEMS);
    hide CompleteRequest, Admit, CompensationContradicts, CheckText, CheckSig;
    assert AdmitInput(m, r).Ok?;
    AdmittedCount(BindingOf(m, r.inputs), r.policy);
  }

  lemma AdmittedKeys(r: Request)
    requires AdmitInputs(r).Ok?
    ensures AdmitInputs(r).value.Keys == r.inputs.Keys
  {
    hide AdmitInput;
  }

  lemma UnitSigs(r: Request)
    requires CompleteRequest(r) && AdmitInputs(r).Ok?
    ensures forall m | m in UNIT_INPUTS && m in AdmitInputs(r).value :: AdmitInputs(r).value[m].sig == ITEMS
    ensures AdmitInputs(r).value.Keys == r.inputs.Keys
  {
    hide CompleteRequest, AdmitInputs;
    AdmittedKeys(r);
    forall m | m in UNIT_INPUTS
      ensures m in AdmitInputs(r).value && AdmitInputs(r).value[m].sig == ITEMS
    {
      UnitSig(r, m);
    }
  }

  lemma BaseKeys(c: Oracle.Case)
    requires Oracle.Complete(c)
    ensures Oracle.BasesOf(c).Keys == MONEY_INPUTS + {NetMarketplaceIncome, ProductCostAmount, OtherExpenseAmount}
  {
    hide Oracle.MarketplaceOf, Oracle.CostOf, Oracle.OtherOf, Oracle.Net;
  }

  lemma CaseIsComplete(r: Request)
    requires CompleteRequest(r)
    ensures Oracle.Complete(CaseOf(r))
  {
    hide NumberIn, ExpenseIn, CountIn;
  }

  lemma TaxBaseIsKnown(r: Request)
    requires CompleteRequest(r) && r.inputs.Keys <= UNIT_INPUTS + MONEY_INPUTS
    requires Raw(r).Ok? && Raw(r).value.tax.Valid?
    ensures r.taxBase in Oracle.BasesOf(CaseOf(r))
  {
    hide Raw, AdmitInputs, Expect, NetUnits, CostUnits, ProductCost, OtherExpense, Income, Tax, Bases, Profit,
      ProfitPerUnit, Admit,
      CompleteRequest, CaseOf, Oracle.BasesOf, Oracle.Complete;
    CaseIsComplete(r);
    BaseKeys(CaseOf(r));
    RawParts(r);
    UnitSigs(r);
    var inputs, raw := AdmitInputs(r).value, Raw(r).value;
    TaxNeeds(Bases(inputs, raw.income, raw.productCost, raw.otherExpense), r.taxBase,
             Admit(Binding(Given("tax_rate"), r.taxRate), r.policy).value, r.currency);
    BaseIsMoney(inputs, raw.income, raw.productCost, raw.otherExpense, r.taxBase, r.currency);
  }
}
