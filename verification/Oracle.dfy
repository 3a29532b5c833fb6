/** The independent reference calculation, on exact numbers. */
module Oracle {
  import opened Base
  import opened Rounding
  import opened Kernel

  datatype Expense = PerItemExpense(amount: real) | TotalExpense(amount: real)

  datatype Case = Case(
    scale: nat, mode: RoundingMode, gross: int, returned: int, resalable: int, compensated: int,
    inputs: map<MetricId, real>, costPerUnit: real, expenses: seq<Expense>, taxRate: real, taxBase: MetricId)

  datatype OracleError = ReturnUnitSemanticsInvalid | ReturnCompensationSemanticsInvalid | UnknownBase

  datatype Expected = Money(amount: real) | Units(count: int) | Blocked

  datatype Answer = Answer(
    netUnits: Expected, productCost: Expected, otherExpense: Expected, tax: Expected,
    income: Expected, profit: Expected, perUnit: Expected, profitability: Expected)

  predicate UnitsAccepted(c: Case) {
    !(|| c.gross < 0 || c.returned < 0 || c.resalable < 0 || c.compensated < 0
      || c.returned > c.gross
      || c.resalable + c.compensated > c.returned)
  }

  predicate CompensationAccepted(c: Case)
    requires ReturnCompensation in c.inputs
  {
    var amount := c.inputs[ReturnCompensation];
    !(|| amount < 0.0
      || (c.compensated == 0 && amount != 0.0)
      || (c.compensated > 0 && amount <= 0.0))
  }

  function Net(c: Case): int {
    c.gross - c.returned
  }

  function CostOf(c: Case): real {
    c.costPerUnit * (c.gross - c.resalable) as real
  }

  function ExpenseOf(e: Expense, net: int): real {
    match e
    case PerItemExpense(amount) => amount * net as real
    case TotalExpense(amount) => amount
  }

  function OtherOf(expenses: seq<Expense>, net: int): real {
    if expenses == [] then 0.0
    else OtherOf(expenses[..|expenses| - 1], net) + ExpenseOf(expenses[|expenses| - 1], net)
  }

  predicate Complete(c: Case) {
    c.inputs.Keys == MONEY_INPUTS
  }

  function MarketplaceOf(c: Case): real
    requires Complete(c)
  {
    c.inputs[GrossSales] - c.inputs[Discounts] + c.inputs[Subsidies] + c.inputs[ReturnCompensation]
    - c.inputs[Commission] - c.inputs[ForwardLogistics] - c.inputs[ReverseLogistics]
    - c.inputs[Storage] - c.inputs[Advertising] - c.inputs[Fines]
  }

  function BasesOf(c: Case): map<MetricId, real>
    requires Complete(c)
  {
    c.inputs[NetMarketplaceIncome := MarketplaceOf(c)][ProductCostAmount := CostOf(c)]
      [OtherExpenseAmount := OtherOf(c.expenses, Net(c))]
  }

  function TaxOf(c: Case): real
    requires Complete(c) && c.taxBase in BasesOf(c)
  {
    BasesOf(c)[c.taxBase] * c.taxRate
  }

  function ProfitOf(c: Case): real
    requires Complete(c) && c.taxBase in BasesOf(c)
  {
    MarketplaceOf(c) - CostOf(c) - OtherOf(c.expenses, Net(c)) - TaxOf(c)
  }

  function Rounded(x: real, c: Case): Expected {
    Money(RoundTo(x, c.scale, c.mode))
  }

  /** The answer for a case that is accepted. */
  function AnswerOf(c: Case): Answer
    requires Complete(c) && c.taxBase in BasesOf(c)
  {
    Answer(
      Units(Net(c)), Rounded(CostOf(c), c), Rounded(OtherOf(c.expenses, Net(c)), c),
      Rounded(TaxOf(c), c), Rounded(MarketplaceOf(c), c), Rounded(ProfitOf(c), c),
      if Net(c) <= 0 then Blocked else Rounded(ProfitOf(c) / Net(c) as real, c),
      Blocked)
  }

  /** `reference_calculate`. */
  function Reference(c: Case): Result<Answer, OracleError>
    requires Complete(c)
  {
    var _ :- Need(UnitsAccepted(c), ReturnUnitSemanticsInvalid);
    var _ :- Need(CompensationAccepted(c), ReturnCompensationSemanticsInvalid);
    var _ :- Need(c.taxBase in BasesOf(c), UnknownBase);
    Ok(AnswerOf(c))
  }
}
