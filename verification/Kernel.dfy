/** The financial kernel: units, product cost, other expense, settlement, tax and profit. */
module Kernel {
  import opened Base
  import opened Rounding
  import opened Values

  // ----- Requests

  datatype MetricId =
    | GrossSalesUnits | ReturnedUnits | ResalableReturnedUnits | CompensatedReturnedUnits
    | ReturnCompensation | GrossSales | Discounts | Subsidies | Commission
    | ForwardLogistics | ReverseLogistics | Storage | Advertising | Fines
    | NetMarketplaceIncome | ProductCostAmount | OtherExpenseAmount
    | UnknownMetric(text: string)

  function Text(m: MetricId): string {
    match m
    case GrossSalesUnits => "gross_sales_units"
    case ReturnedUnits => "returned_units"
    case ResalableReturnedUnits => "resalable_returned_units"
    case CompensatedReturnedUnits => "compensated_returned_units"
    case ReturnCompensation => "return_compensation_amount"
    case GrossSales => "gross_sales_amount"
    case Discounts => "discounts_amount"
    case Subsidies => "subsidies_excluding_return_compensation_amount"
    case Commission => "marketplace_commission_amount"
    case ForwardLogistics => "forward_logistics_amount"
    case ReverseLogistics => "reverse_logistics_amount"
    case Storage => "storage_amount"
    case Advertising => "advertising_amount"
    case Fines => "fines_withholdings_amount"
    case NetMarketplaceIncome => "net_marketplace_income_amount"
    case ProductCostAmount => "product_cost_amount"
    case OtherExpenseAmount => "other_expense_amount"
    case UnknownMetric(text) => text
  }

  const UNIT_INPUTS := {GrossSalesUnits, ReturnedUnits, ResalableReturnedUnits, CompensatedReturnedUnits}

  const MONEY_INPUTS := {
    ReturnCompensation, GrossSales, Discounts, Subsidies, Commission,
    ForwardLogistics, ReverseLogistics, Storage, Advertising, Fines
  }

  const MAX_EXPENSES := 64

  datatype Component = Component(id: string, value: Input)

  datatype Request = Request(
    policy: Policy, currency: string, inputs: map<MetricId, Input>, costPerUnit: Input,
    expenses: seq<Component>, taxRate: Input, taxBase: MetricId)

  datatype KernelError =
    | CurrencyInvalid | InputsInvalid | ExpensesInvalid | InputRejected | Rejected(error: FinanceError)

  type Inputs = map<MetricId, Value>

  const ITEMS := Sig(INTEGER, "ITEM", None)
  const RATES := Sig(RATE, "RATE", None)

  function Money(currency: string): Sig {
    Sig(MONEY, "MONEY", Some(currency))
  }

  function PerItem(currency: string): Sig {
    Sig(MONEY, "MONEY_PER_ITEM", Some(currency))
  }

  /** The integer an INTEGER value holds. */
  function IntOf(v: Value): int {
    if v.Valid? && v.scalar.Whole? then v.scalar.i else 0
  }

  /** The number a MONEY, DECIMAL or RATE value holds. */
  function NumOf(v: Value): real {
    if v.Valid? && v.scalar.Num? then v.scalar.n else 0.0
  }

  function Blocked(sig: Sig, reason: string, sources: set<Name>): Value {
    NonValid(BLOCKED, sig, reason, sources)
  }

  function Lift<T>(r: Result<T, FinanceError>): Result<T, KernelError> {
    match r
    case Ok(v) => Ok(v)
    case Err(e) => Err(Rejected(e))
  }

  // ----- Inputs

  function BindingOf(m: MetricId, inputs: map<MetricId, Input>): Binding
    requires m in inputs
  {
    Binding(Given(Text(m)), inputs[m])
  }

  /** The number written in an input, before it is normalised. */
  function Written(text: Values.Literal): real
    requires text.Digits?
  {
    text.coefficient as real / Pow10(text.scale) as real
  }

  const COMPENSATION_INVALID := "RETURN_COMPENSATION_SEMANTICS_INVALID"
  const UNITS_INVALID := "RETURN_UNIT_SEMANTICS_INVALID"

  /** The units of compensated returns, when the request gives them as a number of items. */
  function CompensatedUnits(inputs: map<MetricId, Input>): Option<int> {
    if CompensatedReturnedUnits in inputs then
      var u := inputs[CompensatedReturnedUnits];
      if u.Present? && u.sig == ITEMS && u.text.Digits? then Some(u.text.coefficient) else None
    else
      None
  }

  /** `_prevalidate_return_compensation`: an amount that contradicts the units, before any rounding. */
  predicate CompensationContradicts(inputs: map<MetricId, Input>, currency: string) {
    ReturnCompensation in inputs &&
    var a := inputs[ReturnCompensation];
    && a.Present? && a.sig == Money(currency) && a.text.Digits?
    && var amount, units := Written(a.text), CompensatedUnits(inputs);
       || amount < 0.0
       || (units.Some? && ((units.value == 0 && amount != 0.0) || (units.value > 0 && amount <= 0.0)))
  }

  function CompensationSources(inputs: map<MetricId, Input>): set<Name>
    requires ReturnCompensation in inputs
  {
    SourceNames(inputs[ReturnCompensation].sources) + {Given(Text(ReturnCompensation))}
    + if CompensatedUnits(inputs).Some? then
        SourceNames(inputs[CompensatedReturnedUnits].sources) + {Given(Text(CompensatedReturnedUnits))}
      else {}
  }

  /** `_value_from_dict` alone: the static limits of a text. */
  function CheckText(text: Values.Literal, t: ValueType): Result<(), FinanceError> {
    match t
    case BOOLEAN => Need(text.Flag?, ValueTypeInvalid)
    case INTEGER =>
      var _ :- ParseInteger(text, ValueTypeInvalid, MAX_INPUT_PRECISION);
      Ok(())
    case _ =>
      var _ :- ParseDecimal(text, ValueDecimalInvalid, MAX_INPUT_PRECISION, MAX_INPUT_SCALE);
      Ok(())
  }

  /** One input as the calculation sees it. */
  function AdmitInput(m: MetricId, r: Request): Result<Value, FinanceError>
    requires m in r.inputs
  {
    if m == ReturnCompensation && CompensationContradicts(r.inputs, r.currency) then
      var _ :- CheckSig(r.inputs[m].sig);
      var _ :- CheckText(r.inputs[m].text, MONEY);
      Ok(Blocked(Money(r.currency), COMPENSATION_INVALID, CompensationSources(r.inputs)))
    else
      Admit(BindingOf(m, r.inputs), r.policy)
  }

  /** The inputs, if every one is admitted. */
  function AdmitInputs(r: Request): Result<Inputs, KernelError> {
    if forall m | m in r.inputs :: AdmitInput(m, r).Ok? then
      Ok(map m | m in r.inputs :: AdmitInput(m, r).value)
    else
      Err(InputRejected)
  }

  /** `_expect`: the input, or why it cannot be used. */
  function Expect(inputs: Inputs, m: MetricId, sig: Sig): Value {
    if m !in inputs then
      Blocked(sig, "INPUT_REQUIRED_MISSING:" + Text(m), {Given(Text(m))})
    else
      var v := inputs[m];
      if v.sig.valueType != sig.valueType || v.sig.unit != sig.unit then
        Blocked(sig, "INPUT_SIGNATURE_MISMATCH:" + Text(m), v.sources)
      else if v.sig.currency != sig.currency then
        Blocked(sig, "CURRENCY_MISMATCH:" + Text(m), v.sources)
      else
        v
  }

  // ----- Sums of money

  datatype Term = Term(sign: int, value: Value)

  function ValuesOf(terms: seq<Term>): (r: seq<Value>) {
    seq(|terms|, i requires 0 <= i < |terms| => terms[i].value)
  }

  predicate IsMoney(v: Value, currency: string) {
    v.sig.valueType == MONEY && v.sig.currency == Some(currency)
  }

  predicate AllMoney(terms: seq<Term>, currency: string) {
    forall i | 0 <= i < |terms| :: IsMoney(terms[i].value, currency)
  }

  function SignedTotal(terms: seq<Term>): real {
    if terms == [] then 0.0
    else SignedTotal(terms[..|terms| - 1]) + terms[|terms| - 1].sign as real * NumOf(terms[|terms| - 1].value)
  }

  /** What one term adds to a total. */
  function Part(term: Term): real {
    term.sign as real * NumOf(term.value)
  }

  /** The sources up to and including the first term that is not money of this currency. */
  function SourcesToMismatch(terms: seq<Term>, currency: string): set<Name> {
    if terms == [] then {}
    else terms[0].value.sources + if IsMoney(terms[0].value, currency) then SourcesToMismatch(terms[1..], currency)
    else {}
  }

  const TERM_MISMATCH := "CURRENCY_OR_TYPE_MISMATCH"

  function MoneySum(terms: seq<Term>, currency: string): Value {
    var propagated := Propagate(ValuesOf(terms), Money(currency));
    if propagated.Some? then propagated.value
    else if AllMoney(terms, currency) then Valid(Num(SignedTotal(terms)), Money(currency), AllSources(ValuesOf(terms)))
    else Blocked(Money(currency), TERM_MISMATCH, SourcesToMismatch(terms, currency))
  }

  // ----- Units and product cost

  function NetUnits(gross: Value, returned: Value): Value {
    var propagated := Propagate([gross, returned], ITEMS);
    if propagated.Some? then propagated.value
    else if IntOf(gross) < 0 || IntOf(returned) < 0 || IntOf(returned) > IntOf(gross) then
      Blocked(ITEMS, UNITS_INVALID, gross.sources + returned.sources)
    else
      Valid(Whole(IntOf(gross) - IntOf(returned)), ITEMS, gross.sources + returned.sources)
  }

  /** `n` copies of a text, one after another. */
  function Copies(text: string, n: nat): string {
    if n == 0 then "" else text + Copies(text, n - 1)
  }

  ghost predicate WithCopies(reason: string, prefix: string, r: string) {
    exists n: nat :: reason == Copies(prefix, n) + r
  }

  lemma OneMoreCopy(reason: string, prefix: string, r: string)
    requires prefix <= reason && WithCopies(reason[|prefix|..], prefix, r)
    ensures WithCopies(reason, prefix, r)
  {
    var n: nat :| reason[|prefix|..] == Copies(prefix, n) + r;
    calc {
      reason;
      prefix + reason[|prefix|..];
      prefix + (Copies(prefix, n) + r);
      (prefix + Copies(prefix, n)) + r;
      Copies(prefix, n + 1) + r;
    }
  }

  lemma NoCopies(reason: string, prefix: string)
    ensures WithCopies(reason, prefix, reason)
  {
    assert reason == Copies(prefix, 0) + reason;
  }

  /** The reason with every leading copy of the prefix removed, and nothing else. */
  function StripPrefix(reason: string, prefix: string): (r: string)
    requires prefix != []
    ensures !(prefix <= r)
    ensures WithCopies(reason, prefix, r)
  {
    if prefix <= reason then
      var r := StripPrefix(reason[|prefix|..], prefix);
      OneMoreCopy(reason, prefix, r);
      r
    else
      NoCopies(reason, prefix);
      reason
  }

  /** Any number of prefixes is stripped; a reason that is nothing but prefixes is stripped to nothing. */
  lemma {:induction false} CopiesStripped(prefix: string, n: nat, r: string)
    requires prefix != [] && !(prefix <= r)
    ensures StripPrefix(Copies(prefix, n) + r, prefix) == r
  {
    if n == 0 {
      assert Copies(prefix, 0) + r == r;
    } else {
      var reason := Copies(prefix, n) + r;
      assert reason == prefix + (Copies(prefix, n - 1) + r);
      assert reason[|prefix|..] == Copies(prefix, n - 1) + r;
      CopiesStripped(prefix, n - 1, r);
    }
  }

  function StatePrefix(s: Absence): (r: string)
    ensures r != []
  {
    "DEPENDENCY_" + StateText(s) + ":"
  }

  function PrimaryReason(v: Value, sig: Sig): Value
    requires v.NonValid?
  {
    NonValid(v.state, sig, StripPrefix(v.reason, StatePrefix(v.state)), v.sources)
  }

  /** A value that is not VALID has a reason left; `_make_nonvalid` refuses an empty one. */
  predicate Explained(v: Value) {
    v.NonValid? ==> v.reason != ""
  }

  predicate UnitsConsistent(gross: int, returned: int, resalable: int, compensated: int) {
    gross >= 0 && returned >= 0 && resalable >= 0 && compensated >= 0 && returned <= gross &&
      resalable + compensated <= returned
  }

  /** Units whose cost was spent: all but the ones that can be sold again. */
  function CostUnits(gross: Value, returned: Value, resalable: Value, compensated: Value): Value {
    var propagated := Propagate([gross, returned, resalable, compensated], ITEMS);
    var sources := gross.sources + returned.sources + resalable.sources + compensated.sources;
    if propagated.Some? then
      if propagated.value.NonValid? then PrimaryReason(propagated.value, ITEMS) else propagated.value
    else if UnitsConsistent(IntOf(gross), IntOf(returned), IntOf(resalable), IntOf(compensated)) then
      Valid(Whole(IntOf(gross) - IntOf(resalable)), ITEMS, sources)
    else
      Blocked(ITEMS, UNITS_INVALID, sources)
  }

  function ProductCost(costUnits: Value, perUnit: Value, currency: string): Value {
    if costUnits.NonValid? then NonValid(costUnits.state, Money(currency), costUnits.reason, costUnits.sources)
    else if perUnit.sig != PerItem(currency) then
      Blocked(Money(currency), "COST_RULE_SIGNATURE_MISMATCH", perUnit.sources)
    else
      var propagated := Propagate([perUnit], Money(currency));
      if propagated.Some? then propagated.value
      else Valid(Num(IntOf(costUnits) as real * NumOf(perUnit)), Money(currency), costUnits.sources + perUnit.sources)
  }

  // ----- Other expense

  function ExpenseName(id: string): Name {
    Given("other_expense:" + id)
  }

  /** One component in money: amounts per item are multiplied by the net units. */
  function ExpenseAmount(value: Value, net: Value, currency: string): Value {
    if value.sig.unit == "MONEY" then value
    else
      var propagated := Propagate([net, value], Money(currency));
      if propagated.Some? then propagated.value
      else Valid(Num(IntOf(net) as real * NumOf(value)), Money(currency), net.sources + value.sources)
  }

  predicate ExpenseSig(sig: Sig, currency: string) {
    sig == Money(currency) || sig == PerItem(currency)
  }

  /** How far the components have been worked off: the terms so far, or a final answer. */
  datatype Expenses = Terms(terms: seq<Term>) | Stopped(value: Value)

  /** The components up to `n`. */
  function ExpensesUpTo(r: Request, net: Value, n: nat): Result<Expenses, KernelError>
    requires n <= |r.expenses|
  {
    if n == 0 then
      Ok(Terms([]))
    else
      var sofar :- ExpensesUpTo(r, net, n - 1);
      if sofar.Stopped? then
        Ok(sofar)
      else
        var item := r.expenses[n - 1];
        var _ :- Need(item.id != "" && item.id !in (set k | 0 <= k < n - 1 :: r.expenses[k].id), ExpensesInvalid);
        var value :- Lift(Admit(Binding(ExpenseName(item.id), item.value), r.policy));
        if !ExpenseSig(value.sig, r.currency) then
          Ok(Stopped(Blocked(Money(r.currency), "OTHER_EXPENSE_SIGNATURE_MISMATCH", value.sources)))
        else
          Ok(Terms(sofar.terms + [Term(1, ExpenseAmount(value, net, r.currency))]))
  }

  function OtherExpense(r: Request, net: Value): Result<Value, KernelError> {
    if r.expenses == [] then
      Ok(Blocked(Money(r.currency), "OTHER_EXPENSE_RULE_REQUIRED_MISSING", {}))
    else
      var expenses :- ExpensesUpTo(r, net, |r.expenses|);
      match expenses
      case Stopped(value) => Ok(value)
      case Terms(terms) => Ok(MoneySum(terms, r.currency))
  }

  // ----- Settlement, tax and profit

  function Compensation(inputs: Inputs, currency: string): Value {
    var units, amount := Expect(inputs, CompensatedReturnedUnits, ITEMS),
      Expect(inputs, ReturnCompensation, Money(currency));
    var propagated := Propagate([units, amount], Money(currency));
    if propagated.Some? then propagated.value
    else if IntOf(units) < 0 || NumOf(amount) < 0.0 || (IntOf(units) == 0 && NumOf(amount) != 0.0) then
      Blocked(Money(currency), COMPENSATION_INVALID, units.sources + amount.sources)
    else
      amount
  }

  function IncomeTerms(inputs: Inputs, compensation: Value, currency: string): seq<Term> {
    var sig := Money(currency);
    [Term(1, Expect(inputs, GrossSales, sig)), Term(-1, Expect(inputs, Discounts, sig)),
     Term(1, Expect(inputs, Subsidies, sig)), Term(1, compensation),
     Term(-1, Expect(inputs, Commission, sig)), Term(-1, Expect(inputs, ForwardLogistics, sig)),
     Term(-1, Expect(inputs, ReverseLogistics, sig)), Term(-1, Expect(inputs, Storage, sig)),
     Term(-1, Expect(inputs, Advertising, sig)), Term(-1, Expect(inputs, Fines, sig))]
  }

  function Income(inputs: Inputs, currency: string): Value {
    var compensation := Compensation(inputs, currency);
    if compensation.NonValid? then PrimaryReason(compensation, Money(currency))
    else MoneySum(IncomeTerms(inputs, compensation, currency), currency)
  }

  /** The metrics a tax may be based on. */
  function Bases(inputs: Inputs, income: Value, cost: Value, other: Value): Inputs {
    inputs[NetMarketplaceIncome := income][ProductCostAmount := cost][OtherExpenseAmount := other]
  }

  function Tax(bases: Inputs, base: MetricId, rate: Value, currency: string): Value {
    if base !in bases then
      Blocked(Money(currency), "TAX_BASE_MISSING:" + Text(base), {Given(Text(base))})
    else if rate.sig != RATES || bases[base].sig != Money(currency) then
      Blocked(Money(currency), "TAX_RULE_SIGNATURE_MISMATCH", rate.sources + bases[base].sources)
    else
      var propagated := Propagate([rate, bases[base]], Money(currency));
      if propagated.Some? then propagated.value
      else Valid(Num(NumOf(bases[base]) * NumOf(rate)), Money(currency), rate.sources + bases[base].sources)
  }

  function Profit(income: Value, cost: Value, other: Value, tax: Value, currency: string): Value {
    MoneySum([Term(1, income), Term(-1, cost), Term(-1, other), Term(-1, tax)], currency)
  }

  function ProfitPerUnit(profit: Value, net: Value, currency: string): Value {
    var propagated := Propagate([profit, net], PerItem(currency));
    if propagated.Some? then propagated.value
    else if IntOf(net) <= 0 then
      Blocked(PerItem(currency),
              if IntOf(net) == 0 then "ZERO_DENOMINATOR" else "NON_POSITIVE_DENOMINATOR",
              profit.sources + net.sources)
    else
      Valid(Num(NumOf(profit) / IntOf(net) as real), PerItem(currency), profit.sources + net.sources)
  }

  const PROFITABILITY := Blocked(Sig(RATE, "PERCENT", None), "COST_DENOMINATOR_NOT_APPROVED", {})

  // ----- The eight metrics

  datatype Results = Results(
    netUnits: Value, productCost: Value, otherExpense: Value, tax: Value,
    income: Value, profit: Value, perUnit: Value, profitability: Value)

  /** The metrics before the final rounding. */
  function Raw(r: Request): Result<Results, KernelError> {
    var inputs :- AdmitInputs(r);
    var gross, returned := Expect(inputs, GrossSalesUnits, ITEMS), Expect(inputs, ReturnedUnits, ITEMS);
    var resalable, compensated := Expect(inputs, ResalableReturnedUnits, ITEMS),
      Expect(inputs, CompensatedReturnedUnits, ITEMS);
    var net := NetUnits(gross, returned);
    var units := CostUnits(gross, returned, resalable, compensated);
    var _ :- Need(Explained(units), Rejected(ValueReasonInvalid));
    var perUnit :- Lift(Admit(Binding(Given("cost_per_unit"), r.costPerUnit), r.policy));
    var cost := ProductCost(units, perUnit, r.currency);
    var other :- OtherExpense(r, net);
    var income := Income(inputs, r.currency);
    var _ :- Need(Explained(income), Rejected(ValueReasonInvalid));
    var rate :- Lift(Admit(Binding(Given("tax_rate"), r.taxRate), r.policy));
    var tax := Tax(Bases(inputs, income, cost, other), r.taxBase, rate, r.currency);
    var profit := Profit(income, cost, other, tax, r.currency);
    Ok(Results(net, cost, other, tax, income, profit, ProfitPerUnit(profit, net, r.currency), PROFITABILITY))
  }

  /** `_metric`: the final rounding of a VALID amount. */
  function Metric(v: Value, p: Policy): Result<Value, KernelError> {
    if v.Valid? && v.scalar.Num? then
      var rounded :- Lift(Quantize(v.scalar.n, p, MetricFinalAccounting, v.sig.valueType));
      Ok(Valid(Num(rounded.0), v.sig, v.sources))
    else
      Ok(v)
  }

  function Reported(raw: Results, p: Policy): Result<Results, KernelError> {
    var cost :- Metric(raw.productCost, p);
    var other :- Metric(raw.otherExpense, p);
    var tax :- Metric(raw.tax, p);
    var income :- Metric(raw.income, p);
    var profit :- Metric(raw.profit, p);
    var perUnit :- Metric(raw.perUnit, p);
    var profitability :- Metric(raw.profitability, p);
    Ok(Results(raw.netUnits, cost, other, tax, income, profit, perUnit, profitability))
  }

  /** `calculate`. */
  function Calculated(r: Request): Result<Results, KernelError> {
    var _ :- Need(IsCurrency(r.currency), CurrencyInvalid);
    var _ :- Need(r.inputs.Keys <= UNIT_INPUTS + MONEY_INPUTS, InputsInvalid);
    var _ :- Need(|r.expenses| <= MAX_EXPENSES, ExpensesInvalid);
    var raw :- Raw(r);
    Reported(raw, r.policy)
  }

  // ----- The loops

  /** `_money_sum`. */
  method SumMoney(terms: seq<Term>, currency: string) returns (sum: Value)
    ensures sum == MoneySum(terms, currency)
  {
    var values := ValuesOf(terms);
    var propagated := Propagate(values, Money(currency));
    if propagated.Some? {
      return propagated.value;
    }
    hide Propagate, Summed, IsMoney, NumOf;
    var total, sources := 0.0, {};
    SummedStart(terms, currency);
    for n := 0 to |terms|
      invariant Summed(terms, n, total, sources, currency)
    {
      var term := terms[n];
      SummedNext(terms, n, total, sources, currency);
      if !IsMoney(term.value, currency) {
        return Blocked(Money(currency), TERM_MISMATCH, sources + term.value.sources);
      }
      total := total + term.sign as real * NumOf(term.value);
      sources := sources + term.value.sources;
    }
    SummedAll(terms, total, sources, currency);
    sum := Valid(Num(total), Money(currency), sources);
  }

  /** What the loop has added up after `n` terms. */
  ghost predicate Summed(terms: seq<Term>, n: nat, total: real, sources: set<Name>, currency: string)
    requires n <= |terms|
  {
    && total == SignedTotal(terms[..n])
    && sources == AllSources(ValuesOf(terms[..n]))
    && AllMoney(terms[..n], currency)
    && SourcesToMismatch(terms, currency) == sources + SourcesToMismatch(terms[n..], currency)
  }

  lemma SummedStart(terms: seq<Term>, currency: string)
    ensures Summed(terms, 0, 0.0, {}, currency)
  {
    assert terms[..0] == [] && terms[0..] == terms && ValuesOf(terms[..0]) == [];
  }

  lemma SummedNext(terms: seq<Term>, n: nat, total: real, sources: set<Name>, currency: string)
    requires n < |terms| && Summed(terms, n, total, sources, currency)
    ensures
      var v := terms[n].value;
      if IsMoney(v, currency) then
        Summed(terms, n + 1, total + terms[n].sign as real * NumOf(v), sources + v.sources, currency)
      else
        !AllMoney(terms, currency) && SourcesToMismatch(terms, currency) == sources + v.sources
  {
    hide IsMoney, NumOf, AllSources, SignedTotal;
    var done, v := terms[..n], terms[n].value;
    assert terms[..n + 1] == done + [terms[n]];
    assert terms[n..][0] == terms[n] && terms[n..][1..] == terms[n + 1..];
    assert ValuesOf(done + [terms[n]]) == ValuesOf(done) + [v];
    SourcesOfLast(ValuesOf(done), v);
    SignedLast(done, terms[n]);
  }

  lemma SignedLast(terms: seq<Term>, term: Term)
    ensures SignedTotal(terms + [term]) == SignedTotal(terms) + term.sign as real * NumOf(term.value)
  {
    assert (terms + [term])[..|terms|] == terms;
  }

  lemma SummedAll(terms: seq<Term>, total: real, sources: set<Name>, currency: string)
    requires Summed(terms, |terms|, total, sources, currency)
    ensures AllMoney(terms, currency) && total == SignedTotal(terms) && sources == AllSources(ValuesOf(terms))
  {
    assert terms[..|terms|] == terms;
  }

  lemma {:induction false} SourcesOfLast(values: seq<Value>, v: Value)
    ensures AllSources(values + [v]) == AllSources(values) + v.sources
  {
    forall n
      ensures n in AllSources(values + [v]) <==> n in AllSources(values) + v.sources
    {
      assert v in values + [v] && forall x :: x in values ==> x in values + [v];
    }
  }

  /** `calculate_other_expense`. */
  method CalculateOtherExpense(r: Request, net: Value) returns (result: Result<Value, KernelError>)
    ensures result == OtherExpense(r, net)
  {
    if r.expenses == [] {
      return Ok(Blocked(Money(r.currency), "OTHER_EXPENSE_RULE_REQUIRED_MISSING", {}));
    }
    var terms: seq<Term>, seen: set<string> := [], {};
    for n := 0 to |r.expenses|
      invariant ExpensesUpTo(r, net, n) == Ok(Terms(terms))
      invariant seen == set k | 0 <= k < n :: r.expenses[k].id
    {
      hide ExpenseAmount, ExpenseSig;
      var item := r.expenses[n];
      ExpensesAfter(r, net, n);
      if item.id == "" || item.id in seen {
        return Err(ExpensesInvalid);
      }
      seen := seen + {item.id};
      var admitted := Lift(Admit(Binding(ExpenseName(item.id), item.value), r.policy));
      if admitted.Err? {
        return Err(admitted.error);
      }
      var value := admitted.value;
      if !ExpenseSig(value.sig, r.currency) {
        return Ok(Blocked(Money(r.currency), "OTHER_EXPENSE_SIGNATURE_MISMATCH", value.sources));
      }
      terms := terms + [Term(1, ExpenseAmount(value, net, r.currency))];
    }
    var sum := SumMoney(terms, r.currency);
    result := Ok(sum);
  }

  /** A final answer stays final. */
  lemma {:induction false} ExpensesAfter(r: Request, net: Value, n: nat)
    requires n < |r.expenses|
    ensures
      var next := ExpensesUpTo(r, net, n + 1);
      next.Err? || next.value.Stopped? ==> ExpensesUpTo(r, net, |r.expenses|) == next
    decreases |r.expenses| - n
  {
    if n + 1 < |r.expenses| {
      var next := ExpensesUpTo(r, net, n + 1);
      if next.Err? || next.value.Stopped? {
        ExpensesAfter(r, net, n + 1);
      }
    }
  }
}
