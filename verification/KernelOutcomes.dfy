/**
 What each figure of the kernel is, and what it reports when it is not VALID: from the numbers, states, words
 and sources of the values it is made of.
 */
module KernelOutcomes {
  import opened Base
  import opened Rounding
  import opened Values
  import opened ValueLaws
  import opened Kernel

  /** Values are whole numbers of items. */
  predicate Items(values: seq<Value>) {
    forall v <- values :: v.Valid? && v.scalar.Whole? && v.sig == Sig(INTEGER, "ITEM", None)
  }

  /** A value without a number, with this state and word. */
  predicate Says(v: Value, state: Absence, sig: Sig, reason: string) {
    v.NonValid? && v.state == state && v.sig == sig && v.reason == reason
  }

  /** It stands for values that are not all VALID: the state that goes first, the least reason in it, its sources. */
  ghost predicate StandsFor(v: Value, values: seq<Value>, sig: Sig) {
    && v.NonValid? && v.sig == sig && SomeIn(values, v.state)
    && (v.state != CONFLICT ==> !SomeIn(values, CONFLICT))
    && (v.state in {UNAVAILABLE, EMPTY} ==> !SomeIn(values, BLOCKED))
    && (v.state == EMPTY ==> !SomeIn(values, UNAVAILABLE))
    && (exists least :: IsLeastReason(values, v.state, least) && v.reason == Prefix(v.state) + least)
    && (forall n :: n in v.sources <==> exists x :: x in values && x.NonValid? && x.state == v.state && n in x.sources)
  }

  function Prefix(s: Absence): string {
    match s
    case CONFLICT => "DEPENDENCY_CONFLICT:"
    case BLOCKED => "DEPENDENCY_BLOCKED:"
    case UNAVAILABLE => "DEPENDENCY_UNAVAILABLE:"
    case EMPTY => "DEPENDENCY_EMPTY:"
  }

  lemma PropagatedStandsFor(values: seq<Value>, sig: Sig)
    ensures Propagate(values, sig) == None <==> forall v <- values :: v.Valid?
    ensures Propagate(values, sig).Some? ==> StandsFor(Propagate(values, sig).value, values, sig)
  {
    hide Propagate, IsLeastReason;
    PropagationLaw(values, sig);
    if Propagate(values, sig).Some? {
      var least := ReportLaw(values, sig);
      LeastIsThere(values, Propagate(values, sig).value.state, least);
    }
  }

  lemma LeastIsThere(values: seq<Value>, state: Absence, least: string)
    requires IsLeastReason(values, state, least)
    ensures SomeIn(values, state)
  {
  }

  // ----- Inputs

  predicate Late(e: KernelError) {
    e != CurrencyInvalid && e != InputsInvalid
  }

  lemma {:induction false} ExpensesFailLate(r: Request, net: Value, n: nat)
    requires n <= |r.expenses|
    ensures ExpensesUpTo(r, net, n).Err? ==> Late(ExpensesUpTo(r, net, n).error)
  {
    hide Admit, ExpenseSig, ExpenseAmount;
    if n > 0 {
      ExpensesFailLate(r, net, n - 1);
    }
  }

  lemma FailsLate(r: Request)
    ensures Raw(r).Err? ==> Late(Raw(r).error)
    ensures Raw(r).Ok? && Reported(Raw(r).value, r.policy).Err? ==> Late(Reported(Raw(r).value, r.policy).error)
  {
    hide Admit, AdmitInput, Expect, ExpensesUpTo, MoneySum, Income, CostUnits, ProductCost, NetUnits, Tax, Profit,
      ProfitPerUnit, Quantize;
    forall net {
      ExpensesFailLate(r, net, |r.expenses|);
    }
  }

  /** Only the fourteen inputs are taken, at most 64 expenses, and a currency of three capital letters. */
  lemma RequestLaw(r: Request)
    ensures Calculated(r) == Err(CurrencyInvalid) <==>
      !(|r.currency| == 3 && forall c <- r.currency :: c in "ABCDEFGHIJKLMNOPQRSTUVWXYZ")
    ensures IsCurrency(r.currency) ==>
      (Calculated(r) == Err(InputsInvalid) <==>
       exists m :: m in r.inputs && (m.UnknownMetric? || m in {NetMarketplaceIncome, ProductCostAmount,
                                                               OtherExpenseAmount}))
    ensures IsCurrency(r.currency) && |r.expenses| >= 65 && Calculated(r) != Err(InputsInvalid) ==>
      Calculated(r) == Err(ExpensesInvalid)
  {
    CurrencyExact(r.currency);
    InputsExact(r.inputs.Keys);
    hide Raw, Reported, IsCurrency, UNIT_INPUTS, MONEY_INPUTS;
    FailsLate(r);
  }

  lemma InputsExact(keys: set<MetricId>)
    ensures keys <= UNIT_INPUTS + MONEY_INPUTS <==>
      forall m <- keys :: !m.UnknownMetric? && m !in {NetMarketplaceIncome, ProductCostAmount, OtherExpenseAmount}
  {
  }

  /** An input is used as it is, or the figure says which input is missing, of another kind or in another currency. */
  lemma InputLaw(inputs: Inputs, m: MetricId, sig: Sig)
    ensures
      var v := Expect(inputs, m, sig);
      if m !in inputs then
        Says(v, BLOCKED, sig, "INPUT_REQUIRED_MISSING:" + Text(m)) && v.sources == {Given(Text(m))}
      else if inputs[m].sig == sig then
        v == inputs[m]
      else
        && v.sources == inputs[m].sources
        && Says(v, BLOCKED, sig,
                (if (inputs[m].sig.valueType, inputs[m].sig.unit) != (sig.valueType, sig.unit)
                 then "INPUT_SIGNATURE_MISMATCH:" else "CURRENCY_MISMATCH:") + Text(m))
  {
  }

  // ----- Units and product cost

  /** Net units plus returned units are the units sold, if no more came back than went out. */
  lemma NetUnitsLaw(gross: Value, returned: Value)
    ensures
      var v, items := NetUnits(gross, returned), Sig(INTEGER, "ITEM", None);
      if Items([gross, returned]) then
        var g, b := gross.scalar.i, returned.scalar.i;
        && v.sources == gross.sources + returned.sources
        && (if 0 <= b <= g then v.Valid? && v.sig == items && v.scalar.Whole? && v.scalar.i + b == g
            else Says(v, BLOCKED, items, "RETURN_UNIT_SEMANTICS_INVALID"))
      else !(gross.Valid? && returned.Valid?) ==> StandsFor(v, [gross, returned], items)
  {
    var values := [gross, returned];
    assert values[0] == gross && values[1] == returned;
    PropagatedStandsFor(values, ITEMS);
    hide Propagate, StandsFor;
  }

  /** Units whose cost was spent, with the resalable ones, are the units sold. */
  lemma CostUnitsLaw(gross: Value, returned: Value, resalable: Value, compensated: Value)
    requires Items([gross, returned, resalable, compensated])
    ensures
      var v, items := CostUnits(gross, returned, resalable, compensated), Sig(INTEGER, "ITEM", None);
      var g, b, s, c := gross.scalar.i, returned.scalar.i, resalable.scalar.i, compensated.scalar.i;
      && v.sources == gross.sources + returned.sources + resalable.sources + compensated.sources
      && (if 0 <= b <= g && s >= 0 && c >= 0 && s + c <= b then
            v.Valid? && v.sig == items && v.scalar.Whole? && v.scalar.i + s == g
          else
            Says(v, BLOCKED, items, "RETURN_UNIT_SEMANTICS_INVALID"))
  {
    var values := [gross, returned, resalable, compensated];
    assert values[0] == gross && values[1] == returned && values[2] == resalable && values[3] == compensated;
    PropagatedStandsFor(values, ITEMS);
    hide Propagate, StandsFor;
  }

  /** Values that are not VALID are reported without the words that reporting puts in front. */
  lemma CostUnitsReportLaw(gross: Value, returned: Value, resalable: Value, compensated: Value)
    requires !(gross.Valid? && returned.Valid? && resalable.Valid? && compensated.Valid?)
    ensures
      var v := CostUnits(gross, returned, resalable, compensated);
      && v.NonValid? && !(Prefix(v.state) <= v.reason)
      && exists whole: Value, n: nat ::
           && StandsFor(whole, [gross, returned, resalable, compensated], Sig(INTEGER, "ITEM", None))
           && v.state == whole.state && v.sources == whole.sources && v.sig == whole.sig
           && whole.reason == Copies(Prefix(v.state), n) + v.reason
  {
    var values := [gross, returned, resalable, compensated];
    assert values[0] == gross && values[1] == returned && values[2] == resalable && values[3] == compensated;
    PropagatedStandsFor(values, ITEMS);
    hide Propagate, StandsFor;
    var whole := Propagate(values, ITEMS).value;
    PrimaryLaw(whole, ITEMS);
    assert WithCopies(whole.reason, Prefix(whole.state), PrimaryReason(whole, ITEMS).reason);
  }

  lemma PrimaryLaw(v: Value, sig: Sig)
    requires v.NonValid?
    ensures
      var r := PrimaryReason(v, sig);
      && r.NonValid? && r.state == v.state && r.sig == sig && r.sources == v.sources
      && !(Prefix(v.state) <= r.reason) && WithCopies(v.reason, Prefix(v.state), r.reason)
  {
    ReasonText(v.state, "");
    assert StatePrefix(v.state) == Prefix(v.state);
    hide StripPrefix;
  }

  /** Cost is the number of units times the cost of one; a figure without units keeps their state and word. */
  lemma ProductCostLaw(units: Value, perUnit: Value, currency: string)
    ensures
      var v, money := ProductCost(units, perUnit, currency), Sig(MONEY, "MONEY", Some(currency));
      if units.NonValid? then
        Says(v, units.state, money, units.reason) && v.sources == units.sources
      else if perUnit.sig != Sig(MONEY, "MONEY_PER_ITEM", Some(currency)) then
        Says(v, BLOCKED, money, "COST_RULE_SIGNATURE_MISMATCH") && v.sources == perUnit.sources
      else if perUnit.NonValid? then
        StandsFor(v, [perUnit], money)
      else
        && v.Valid? && v.sig == money && v.sources == units.sources + perUnit.sources
        && (units.scalar.Whole? && perUnit.scalar.Num? ==>
              v.scalar == Num(units.scalar.i as real * perUnit.scalar.n))
  {
    assert [perUnit][0] == perUnit;
    PropagatedStandsFor([perUnit], Money(currency));
    hide Propagate, StandsFor;
  }

  // ----- Compensation, tax and profit per unit

  /** Compensation that no unit stands for, or that is negative, blocks the figure; any other is taken as it is. */
  lemma CompensationLaw(inputs: Inputs, currency: string, units: Value, amount: Value)
    requires units == Expect(inputs, CompensatedReturnedUnits, Sig(INTEGER, "ITEM", None))
    requires amount == Expect(inputs, ReturnCompensation, Sig(MONEY, "MONEY", Some(currency)))
    ensures
      var v, money := Compensation(inputs, currency), Sig(MONEY, "MONEY", Some(currency));
      if !(units.Valid? && amount.Valid?) then
        StandsFor(v, [units, amount], money)
      else units.scalar.Whole? && amount.scalar.Num? ==>
        var u, a := units.scalar.i, amount.scalar.n;
        if u >= 0 && a >= 0.0 && (u > 0 || a == 0.0) then v == amount
        else Says(v, BLOCKED, money, "RETURN_COMPENSATION_SEMANTICS_INVALID")
             && v.sources == units.sources + amount.sources
  {
    var values := [units, amount];
    assert values[0] == units && values[1] == amount;
    PropagatedStandsFor(values, Money(currency));
    hide Propagate, StandsFor, Expect;
  }

  /** A tax may be based on an input, the income, the cost or the other expense. */
  function BaseOf(inputs: Inputs, income: Value, cost: Value, other: Value, base: MetricId): Option<Value> {
    match base
    case NetMarketplaceIncome => Some(income)
    case ProductCostAmount => Some(cost)
    case OtherExpenseAmount => Some(other)
    case _ => if base in inputs then Some(inputs[base]) else None
  }

  lemma BasesLaw(inputs: Inputs, income: Value, cost: Value, other: Value, base: MetricId)
    ensures
      var bases := Bases(inputs, income, cost, other);
      BaseOf(inputs, income, cost, other, base) == if base in bases then Some(bases[base]) else None
  {
  }

  /** Tax is the rate times its base, if that is there and both are of the right kind. */
  lemma TaxLaw(inputs: Inputs, income: Value, cost: Value, other: Value, base: MetricId, rate: Value, currency: string)
    ensures
      var v := Tax(Bases(inputs, income, cost, other), base, rate, currency);
      var money := Sig(MONEY, "MONEY", Some(currency));
      match BaseOf(inputs, income, cost, other, base)
      case None => Says(v, BLOCKED, money, "TAX_BASE_MISSING:" + Text(base)) && v.sources == {Given(Text(base))}
      case Some(b) => TaxOn(v, b, rate, money)
  {
    BasesLaw(inputs, income, cost, other, base);
    var bases := Bases(inputs, income, cost, other);
    hide Bases, BaseOf, Propagate, StandsFor, Text;
    if base in bases {
      var values := [rate, bases[base]];
      assert values[0] == rate && values[1] == bases[base];
      PropagatedStandsFor(values, Money(currency));
    }
  }

  ghost predicate TaxOn(v: Value, base: Value, rate: Value, money: Sig) {
    if rate.sig != Sig(RATE, "RATE", None) || base.sig != money then
      Says(v, BLOCKED, money, "TAX_RULE_SIGNATURE_MISMATCH") && v.sources == rate.sources + base.sources
    else if !(rate.Valid? && base.Valid?) then
      StandsFor(v, [rate, base], money)
    else
      && v.Valid? && v.sig == money && v.sources == rate.sources + base.sources
      && (rate.scalar.Num? && base.scalar.Num? ==> v.scalar == Num(base.scalar.n * rate.scalar.n))
  }

  /** Profit per unit, times the units, is the profit; there is none for no units or fewer. */
  lemma PerUnitLaw(profit: Value, net: Value, currency: string)
    ensures
      var v, sig := ProfitPerUnit(profit, net, currency), Sig(MONEY, "MONEY_PER_ITEM", Some(currency));
      if !(profit.Valid? && net.Valid?) then
        StandsFor(v, [profit, net], sig)
      else profit.scalar.Num? && net.scalar.Whole? ==>
        && v.sources == profit.sources + net.sources
        && (if net.scalar.i == 0 then Says(v, BLOCKED, sig, "ZERO_DENOMINATOR")
            else if net.scalar.i < 0 then Says(v, BLOCKED, sig, "NON_POSITIVE_DENOMINATOR")
            else v.Valid? && v.sig == sig && v.scalar.Num? && v.scalar.n * net.scalar.i as real == profit.scalar.n)
  {
    var values := [profit, net];
    assert values[0] == profit && values[1] == net;
    PropagatedStandsFor(values, PerItem(currency));
    hide Propagate, StandsFor;
  }

  // ----- Other expense

  /** One component: an amount of money counts once, an amount per item counts for every net unit. */
  lemma ComponentLaw(value: Value, net: Value, currency: string)
    requires value.sig in {Sig(MONEY, "MONEY", Some(currency)), Sig(MONEY, "MONEY_PER_ITEM", Some(currency))}
    ensures
      var v, money := ExpenseAmount(value, net, currency), Sig(MONEY, "MONEY", Some(currency));
      if value.sig == money then v == value
      else if !(net.Valid? && value.Valid?) then StandsFor(v, [net, value], money)
      else
        && v.Valid? && v.sig == money && v.sources == net.sources + value.sources
        && (net.scalar.Whole? && value.scalar.Num? ==> v.scalar == Num(net.scalar.i as real * value.scalar.n))
  {
    var values := [net, value];
    assert values[0] == net && values[1] == value;
    PropagatedStandsFor(values, Money(currency));
    hide Propagate, StandsFor;
  }

  /** A component as the calculation sees it, traced to `other_expense:` and its identifier. */
  function Component(r: Request, k: nat): Result<Value, FinanceError>
    requires k < |r.expenses|
  {
    Admit(Binding(Given("other_expense:" + r.expenses[k].id), r.expenses[k].value), r.policy)
  }

  predicate OwnId(r: Request, k: nat)
    requires k < |r.expenses|
  {
    r.expenses[k].id != "" && forall j :: 0 <= j < k ==> r.expenses[j].id != r.expenses[k].id
  }

  /** The component has an identifier of its own, is admitted, and is an amount or an amount per item. */
  predicate ComponentFine(r: Request, k: nat)
    requires k < |r.expenses|
  {
    && OwnId(r, k) && Component(r, k).Ok?
    && Component(r, k).value.sig in
       {Sig(MONEY, "MONEY", Some(r.currency)), Sig(MONEY, "MONEY_PER_ITEM", Some(r.currency))}
  }

  /** The term is what this component adds. */
  predicate TermOf(r: Request, net: Value, k: nat, term: Term)
    requires k < |r.expenses|
  {
    Component(r, k).Ok? && term == Term(1, ExpenseAmount(Component(r, k).value, net, r.currency))
  }

  lemma {:induction false} FineSoFar(r: Request, net: Value, n: nat)
    requires n <= |r.expenses| && forall k: nat :: k < n ==> ComponentFine(r, k)
    ensures
      var sofar := ExpensesUpTo(r, net, n);
      && sofar.Ok? && sofar.value.Terms? && |sofar.value.terms| == n
      && forall k: nat :: k < n ==> TermOf(r, net, k, sofar.value.terms[k])
  {
    hide Admit, ExpenseAmount;
    if n > 0 {
      FineSoFar(r, net, n - 1);
      assert ComponentFine(r, n - 1);
    }
  }

  /** The other expense is the sum of what its components add; the first that is not fine decides otherwise. */
  lemma OtherExpenseLaw(r: Request, net: Value, k: nat)
    requires k <= |r.expenses| && forall j: nat :: j < k ==> ComponentFine(r, j)
    requires k < |r.expenses| ==> !ComponentFine(r, k)
    ensures
      var result, money := OtherExpense(r, net), Sig(MONEY, "MONEY", Some(r.currency));
      if r.expenses == [] then
        result.Ok? && result.value == NonValid(BLOCKED, money, "OTHER_EXPENSE_RULE_REQUIRED_MISSING", {})
      else if k == |r.expenses| then
        result.Ok? && exists terms: seq<Term> ::
          |terms| == k && result.value == MoneySum(terms, r.currency) && forall j: nat :: j < k ==>
            TermOf(r, net, j, terms[j])
      else if !OwnId(r, k) then
        result == Err(ExpensesInvalid)
      else if Component(r, k).Err? then
        result == Err(Rejected(Component(r, k).error))
      else
        && result.Ok?
        && result.value ==
           NonValid(BLOCKED, money, "OTHER_EXPENSE_SIGNATURE_MISMATCH", Component(r, k).value.sources)
  {
    hide Admit, ExpenseAmount, MoneySum;
    FineSoFar(r, net, k);
    if k < |r.expenses| {
      ExpensesAfter(r, net, k);
    }
  }

  // ----- Sums of money

  /** A sum needs every term VALID and in money of the currency; the first other one decides what is said. */
  lemma MoneySumLaw(terms: seq<Term>, currency: string, k: nat)
    requires k <= |terms| && forall i: nat :: i < k ==> InMoney(terms[i].value, currency)
    requires k < |terms| ==> !InMoney(terms[k].value, currency)
    ensures
      var v, money := MoneySum(terms, currency), Sig(MONEY, "MONEY", Some(currency));
      if exists i :: 0 <= i < |terms| && terms[i].value.NonValid? then
        StandsFor(v, ValuesOf(terms), money)
      else if k == |terms| then
        && v.Valid? && v.sig == money && v.scalar == Num(SignedTotal(terms))
        && forall n :: n in v.sources <==> exists i :: 0 <= i < |terms| && n in terms[i].value.sources
      else
        && Says(v, BLOCKED, money, "CURRENCY_OR_TYPE_MISMATCH")
        && forall n :: n in v.sources <==> exists i :: 0 <= i <= k && n in terms[i].value.sources
  {
    hide IsMoney, InMoney, SignedTotal, StandsFor, Propagate;
    PropagatedStandsFor(ValuesOf(terms), Money(currency));
    TermsAreValues(terms);
    forall v {
      MoneyExact(v, currency);
    }
    SourcesUpTo(terms, currency, k);
  }

  predicate InMoney(v: Value, currency: string) {
    v.sig.valueType == MONEY && v.sig.currency == Some(currency)
  }

  lemma MoneyExact(v: Value, currency: string)
    ensures IsMoney(v, currency) <==> InMoney(v, currency)
  {
  }

  lemma TermsAreValues(terms: seq<Term>)
    ensures (forall v <- ValuesOf(terms) :: v.Valid?) <==> !exists i :: 0 <= i < |terms| && terms[i].value.NonValid?
  {
    forall i | 0 <= i < |terms|
      ensures terms[i].value in ValuesOf(terms)
    {
      assert ValuesOf(terms)[i] == terms[i].value;
    }
  }

  lemma {:induction false} SourcesUpTo(terms: seq<Term>, currency: string, k: nat)
    requires k <= |terms| && forall i: nat :: i < k ==> IsMoney(terms[i].value, currency)
    requires k < |terms| ==> !IsMoney(terms[k].value, currency)
    ensures k < |terms| ==> forall n :: n in SourcesToMismatch(terms, currency) <==>
      exists i :: 0 <= i <= k && n in terms[i].value.sources
    decreases |terms|
  {
    hide IsMoney;
    if 0 < k < |terms| {
      SourcesUpTo(terms[1..], currency, k - 1);
      forall n
        ensures n in SourcesToMismatch(terms, currency) <==> exists i :: 0 <= i <= k && n in terms[i].value.sources
      {
        if i :| 0 <= i <= k && n in terms[i].value.sources {
          assert i > 0 ==> terms[1..][i - 1] == terms[i];
        }
        if i :| 0 <= i <= k - 1 && n in terms[1..][i].value.sources {
          assert terms[i + 1] == terms[1..][i];
        }
      }
    }
  }

  /** A total starts with its first term. */
  lemma {:induction false} TotalFromFront(term: Term, rest: seq<Term>)
    ensures SignedTotal([]) == 0.0
    ensures term.value.Valid? && term.value.scalar.Num? ==>
      SignedTotal([term] + rest) ==
      (if term.sign == 1 then term.value.scalar.n else if term.sign == -1 then -term.value.scalar.n
       else term.sign as real * term.value.scalar.n) + SignedTotal(rest)
  {
    if rest == [] {
      assert [term] + rest == [term] && [term][..0] == [];
    } else {
      var before := rest[..|rest| - 1];
      TotalFromFront(term, before);
      assert ([term] + rest)[..|rest|] == [term] + before;
    }
  }

  /** An input of this many units of money. */
  predicate Amount(inputs: Inputs, m: MetricId, currency: string, x: real) {
    m in inputs && IsAmount(inputs[m], currency, x)
  }

  predicate IsAmount(v: Value, currency: string, x: real) {
    v.Valid? && v.scalar == Num(x) && v.sig == Sig(MONEY, "MONEY", Some(currency))
  }

  lemma TotalOf(terms: seq<Term>, amounts: seq<real>, currency: string)
    requires |terms| == |amounts|
    requires forall i :: 0 <= i < |terms| ==> IsAmount(terms[i].value, currency, amounts[i])
    ensures MoneySum(terms, currency).Valid? && MoneySum(terms, currency).sig == Sig(MONEY, "MONEY", Some(currency))
    ensures MoneySum(terms, currency).scalar == Num(SignedTotal(terms))
  {
    PropagatedStandsFor(ValuesOf(terms), Money(currency));
    TermsAreValues(terms);
    hide StandsFor, SignedTotal, Propagate;
  }

  lemma TotalFrom(terms: seq<Term>, amounts: seq<real>, currency: string, k: nat)
    requires k < |terms| == |amounts| && IsAmount(terms[k].value, currency, amounts[k]) && terms[k].sign in {1, -1}
    ensures SignedTotal(terms[k..]) ==
      (if terms[k].sign == 1 then amounts[k] else -amounts[k]) + SignedTotal(terms[k + 1..])
    ensures SignedTotal(terms[|terms|..]) == 0.0
  {
    TotalFromFront(terms[k], terms[k + 1..]);
    assert terms[k..] == [terms[k]] + terms[k + 1..];
    hide SignedTotal;
    assert terms[|terms|..] == [];
  }

  /** Profit is the income less cost, other expense and tax. */
  lemma ProfitLaw(income: Value, cost: Value, other: Value, tax: Value, currency: string,
                  i: real, c: real, o: real, t: real)
    requires IsAmount(income, currency, i) && IsAmount(cost, currency, c)
    requires IsAmount(other, currency, o) && IsAmount(tax, currency, t)
    ensures IsAmount(Profit(income, cost, other, tax, currency), currency, i - c - o - t)
  {
    hide SignedTotal, MoneySum;
    var terms, amounts := [Term(1, income), Term(-1, cost), Term(-1, other), Term(-1, tax)], [i, c, o, t];
    TotalOf(terms, amounts, currency);
    forall k: nat | k < 4 && IsAmount(terms[k].value, currency, amounts[k]) {
      TotalFrom(terms, amounts, currency, k);
    }
    assert terms[0..] == terms;
  }

  /** Ten amounts with the signs of the income. */
  lemma TenTerms(terms: seq<Term>, amounts: seq<real>, currency: string)
    requires |terms| == |amounts| == 10
    requires forall k :: 0 <= k < 10 ==> IsAmount(terms[k].value, currency, amounts[k])
    requires forall k :: 0 <= k < 10 ==> terms[k].sign == if k in {0, 2, 3} then 1 else -1
    ensures SignedTotal(terms) ==
      amounts[0] - amounts[1] + amounts[2] + amounts[3] - amounts[4] - amounts[5]
      - amounts[6] - amounts[7] - amounts[8] - amounts[9]
  {
    hide SignedTotal;
    forall k: nat | k < 10 && IsAmount(terms[k].value, currency, amounts[k]) {
      TotalFrom(terms, amounts, currency, k);
    }
    hide IsAmount;
    assert terms[0..] == terms;
    assert SignedTotal(terms[9..]) == -amounts[9];
    assert SignedTotal(terms[6..]) == -amounts[6] - amounts[7] - amounts[8] - amounts[9];
    assert SignedTotal(terms[3..]) == amounts[3] - amounts[4] - amounts[5] + SignedTotal(terms[6..]);
  }

  /** The ten inputs of the income are there, and the compensation stands for units that came back. */
  predicate IncomeInputs(inputs: Inputs, currency: string, x: MetricId -> real, units: int) {
    && Amount(inputs, GrossSales, currency, x(GrossSales)) && Amount(inputs, Discounts, currency, x(Discounts))
    && Amount(inputs, Subsidies, currency, x(Subsidies)) && Amount(inputs, Commission, currency, x(Commission))
    && Amount(inputs, ForwardLogistics, currency, x(ForwardLogistics))
    && Amount(inputs, ReverseLogistics, currency, x(ReverseLogistics))
    && Amount(inputs, Storage, currency, x(Storage)) && Amount(inputs, Advertising, currency, x(Advertising))
    && Amount(inputs, Fines, currency, x(Fines))
    && Amount(inputs, ReturnCompensation, currency, x(ReturnCompensation))
    && x(ReturnCompensation) >= 0.0 && (units == 0 ==> x(ReturnCompensation) == 0.0) && units >= 0
    && CompensatedReturnedUnits in inputs && inputs[CompensatedReturnedUnits].Valid?
    && inputs[CompensatedReturnedUnits].scalar == Whole(units)
    && inputs[CompensatedReturnedUnits].sig == Sig(INTEGER, "ITEM", None)
  }

  lemma CompensationStands(inputs: Inputs, currency: string, x: MetricId -> real, units: int)
    requires IncomeInputs(inputs, currency, x, units)
    ensures Compensation(inputs, currency) == inputs[ReturnCompensation]
  {
    hide Compensation, StandsFor;
    CompensationLaw(inputs, currency, inputs[CompensatedReturnedUnits], inputs[ReturnCompensation]);
  }

  /** Income is what was sold, less discounts, with subsidies and compensation, less what the marketplace keeps. */
  lemma IncomeLaw(inputs: Inputs, currency: string, x: MetricId -> real, units: int)
    requires IncomeInputs(inputs, currency, x, units)
    ensures IsAmount(Income(inputs, currency), currency,
      x(GrossSales) - x(Discounts) + x(Subsidies) + x(ReturnCompensation) - x(Commission) - x(ForwardLogistics)
      - x(ReverseLogistics) - x(Storage) - x(Advertising) - x(Fines))
  {
    hide SignedTotal, MoneySum, Compensation;
    CompensationStands(inputs, currency, x, units);
    var terms := IncomeTerms(inputs, inputs[ReturnCompensation], currency);
    var amounts := [
      x(GrossSales), x(Discounts), x(Subsidies), x(ReturnCompensation), x(Commission), x(ForwardLogistics),
      x(ReverseLogistics), x(Storage), x(Advertising), x(Fines)
    ];
    TotalOf(terms, amounts, currency);
    TenTerms(terms, amounts, currency);
  }
}
