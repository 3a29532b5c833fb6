/** The safe expression language: its static checker, its typing rules and the eager evaluator. */
module Expression {
  import opened Base
  import opened Rounding
  import opened Values

  const MAX_NODES := 128
  const MAX_DEPTH := 24
  const MAX_ARGUMENTS := 16
  const MAX_DEPENDENCIES := 128

  datatype Operator =
    | ADD | SUBTRACT | MULTIPLY | DIVIDE | NEGATE | ABS | MIN | MAX | IF
    | EQUAL | LESS_THAN | LESS_OR_EQUAL | GREATER_THAN | GREATER_OR_EQUAL
    | UNKNOWN

  datatype Node =
    | Literal(text: Values.Literal, sig: Sig)
    | Variable(name: Name, sig: Sig)
    | Operation(op: Operator, sig: Sig, args: seq<Node>)

  // ----- Size

  function Size(node: Node): (n: nat)
    ensures n >= 1
  {
    if node.Operation? then 1 + Sizes(node.args) else 1
  }

  function Sizes(nodes: seq<Node>): nat {
    if nodes == [] then 0 else Size(nodes[0]) + Sizes(nodes[1..])
  }

  function Height(node: Node): (n: nat)
    ensures n >= 1
  {
    if node.Operation? then 1 + Heights(node.args) else 1
  }

  function Heights(nodes: seq<Node>): nat {
    if nodes == [] then 0 else Max(Height(nodes[0]), Heights(nodes[1..]))
  }

  // ----- Operation signatures

  predicate ArityFits(op: Operator, n: nat) {
    match op
    case ADD | MIN | MAX => n >= 2
    case NEGATE | ABS => n == 1
    case IF => n == 3
    case UNKNOWN => false
    case _ => n == 2
  }

  /** `_require_compatible`: every signature equals the first. */
  function CheckCompatible(sigs: seq<Sig>): Result<(), FinanceError> {
    if sigs == [] then
      Err(ExpressionArityInvalid)
    else if |sigs| == 1 then
      Ok(())
    else
      var _ :- CheckCompatible(sigs[..|sigs| - 1]);
      var last := sigs[|sigs| - 1];
      var _ :- Need(last.valueType == sigs[0].valueType, ExpressionTypeMismatch);
      var _ :- Need(last.unit == sigs[0].unit, ExpressionUnitMismatch);
      Need(last.currency == sigs[0].currency, ExpressionCurrencyMismatch)
  }

  function MultiplySig(left: Sig, right: Sig): Result<Sig, FinanceError> {
    match (left.valueType, right.valueType)
    case (MONEY, RATE) =>
      var _ :- Need(right.unit == "RATE", ExpressionUnitMismatch);
      Ok(Sig(MONEY, left.unit, left.currency))
    case (RATE, MONEY) =>
      var _ :- Need(left.unit == "RATE", ExpressionUnitMismatch);
      Ok(Sig(MONEY, right.unit, right.currency))
    case (MONEY, DECIMAL) =>
      var _ :- Need(right.unit == "DIMENSIONLESS", ExpressionUnitMismatch);
      Ok(Sig(MONEY, left.unit, left.currency))
    case (DECIMAL, MONEY) =>
      var _ :- Need(left.unit == "DIMENSIONLESS", ExpressionUnitMismatch);
      Ok(Sig(MONEY, right.unit, right.currency))
    case (DECIMAL, DECIMAL) =>
      var _ :- Need(left.unit == "DIMENSIONLESS" && right.unit == "DIMENSIONLESS", ExpressionUnitMismatch);
      Ok(Sig(DECIMAL, "DIMENSIONLESS", None))
    case _ => Err(ExpressionTypeMismatch)
  }

  function DivideSig(left: Sig, right: Sig): Result<Sig, FinanceError> {
    match (left.valueType, right.valueType)
    case (MONEY, MONEY) =>
      var _ :- Need(left.currency == right.currency, ExpressionCurrencyMismatch);
      var _ :- Need(left.unit == right.unit, ExpressionUnitMismatch);
      Ok(Sig(DECIMAL, "DIMENSIONLESS", None))
    case (MONEY, DECIMAL) =>
      var _ :- Need(right.unit == "DIMENSIONLESS", ExpressionUnitMismatch);
      Ok(Sig(MONEY, left.unit, left.currency))
    case (DECIMAL, DECIMAL) =>
      var _ :- Need(left.unit == "DIMENSIONLESS" && right.unit == "DIMENSIONLESS", ExpressionUnitMismatch);
      Ok(Sig(DECIMAL, "DIMENSIONLESS", None))
    case _ => Err(ExpressionTypeMismatch)
  }

  /** `_validate_operation_signature`: it looks at the signatures of the arguments only. */
  function CheckOperation(op: Operator, sigs: seq<Sig>, declared: Sig): Result<(), FinanceError>
    requires ArityFits(op, |sigs|)
  {
    match op
    case ADD | SUBTRACT | MIN | MAX =>
      var _ :- CheckCompatible(sigs);
      Need(sigs[0].valueType != BOOLEAN && sigs[0] == declared, ExpressionTypeMismatch)
    case NEGATE | ABS =>
      Need(sigs[0].valueType != BOOLEAN && sigs[0] == declared, ExpressionTypeMismatch)
    case MULTIPLY =>
      var product :- MultiplySig(sigs[0], sigs[1]);
      Need(product == declared, ExpressionTypeMismatch)
    case DIVIDE =>
      var quotient :- DivideSig(sigs[0], sigs[1]);
      Need(quotient == declared, ExpressionTypeMismatch)
    case IF =>
      var _ :- Need(sigs[0].valueType == BOOLEAN, ExpressionTypeMismatch);
      var _ :- CheckCompatible(sigs[1..]);
      Need(sigs[1] == declared, ExpressionTypeMismatch)
    case _ =>
      var _ :- CheckCompatible(sigs);
      var _ :- Need(declared == TRUTH, ExpressionTypeMismatch);
      Need(op == EQUAL || sigs[0].valueType != BOOLEAN, ExpressionTypeMismatch)
  }

  // ----- The static checker

  function CheckLiteral(text: Values.Literal, t: ValueType): Result<(), FinanceError> {
    match t
    case BOOLEAN => Need(text.Flag?, ExpressionTypeMismatch)
    case INTEGER =>
      var _ :- ParseInteger(text, ExpressionTypeMismatch, MAX_INPUT_PRECISION);
      Ok(())
    case _ =>
      var _ :- ParseDecimal(text, ExpressionNonFiniteLiteral, MAX_INPUT_PRECISION, MAX_INPUT_SCALE);
      Ok(())
  }

  function NodeSigs(nodes: seq<Node>): (r: seq<Sig>) {
    seq(|nodes|, i requires 0 <= i < |nodes| => nodes[i].sig)
  }

  function CheckHead(op: Operator, n: nat, sig: Sig): Result<(), FinanceError> {
    var _ :- Need(n <= MAX_ARGUMENTS, ExpressionLimitExceeded);
    var _ :- Need(op != UNKNOWN, ExpressionOperatorForbidden);
    var _ :- Need(ArityFits(op, n), ExpressionArityInvalid);
    CheckSig(sig)
  }

  /** `walk` of `validate_expression_ast`: the result is the node counter after the subtree. */
  function Check(node: Node, depth: nat, count: nat, deps: set<Name>): Result<nat, FinanceError>
    decreases node
  {
    var _ :- Need(count + 1 <= MAX_NODES && depth <= MAX_DEPTH, ExpressionLimitExceeded);
    match node
    case Literal(text, sig) =>
      var _ :- CheckSig(sig);
      var _ :- CheckLiteral(text, sig.valueType);
      Ok(count + 1)
    case Variable(name, sig) =>
      var _ :- Need(name in deps, ExpressionDependencyUndeclared);
      var _ :- CheckSig(sig);
      Ok(count + 1)
    case Operation(op, sig, args) =>
      var _ :- CheckHead(op, |args|, sig);
      var c :- CheckAll(args, depth + 1, count + 1, deps);
      var _ :- CheckOperation(op, NodeSigs(args), sig);
      Ok(c)
  }

  function CheckAll(nodes: seq<Node>, depth: nat, count: nat, deps: set<Name>): Result<nat, FinanceError>
    decreases nodes
  {
    if nodes == [] then
      Ok(count)
    else
      var c :- Check(nodes[0], depth, count, deps);
      CheckAll(nodes[1..], depth, c, deps)
  }

  function Names(deps: seq<Name>): set<Name> {
    set d | d in deps :: d
  }

  function CheckDependencies(deps: seq<Name>): Result<set<Name>, FinanceError> {
    var names := Names(deps);
    var _ :- Need(|deps| <= MAX_DEPENDENCIES && |names| == |deps|, ExpressionDependencyUndeclared);
    Ok(names)
  }

  /** `validate_expression_ast`. */
  function ValidateAst(node: Node, deps: seq<Name>): Result<(), FinanceError> {
    var names :- CheckDependencies(deps);
    var _ :- Check(node, 1, 0, names);
    Ok(())
  }

  // ----- The typing rules

  predicate AllEqual(sigs: seq<Sig>, sig: Sig) {
    forall i | 0 <= i < |sigs| :: sigs[i] == sig
  }

  /** Money may be scaled by a rate or a pure number; pure numbers multiply. */
  predicate Multiplies(left: Sig, right: Sig, result: Sig) {
    || (left == result && result.valueType == MONEY && Scales(right))
    || (right == result && result.valueType == MONEY && Scales(left))
    || (left == right == result == Sig(DECIMAL, "DIMENSIONLESS", None))
  }

  predicate Scales(sig: Sig) {
    sig == Sig(RATE, "RATE", None) || sig == Sig(DECIMAL, "DIMENSIONLESS", None)
  }

  predicate Divides(left: Sig, right: Sig, result: Sig) {
    || (left == right && left.valueType == MONEY && result == Sig(DECIMAL, "DIMENSIONLESS", None))
    || (left == result && left.valueType == MONEY && right == Sig(DECIMAL, "DIMENSIONLESS", None))
    || (left == right == result == Sig(DECIMAL, "DIMENSIONLESS", None))
  }

  predicate Typed(op: Operator, sigs: seq<Sig>, declared: Sig) {
    ArityFits(op, |sigs|) &&
    match op
    case ADD | SUBTRACT | MIN | MAX | NEGATE | ABS => declared.valueType != BOOLEAN && AllEqual(sigs, declared)
    case MULTIPLY => Multiplies(sigs[0], sigs[1], declared)
    case DIVIDE => Divides(sigs[0], sigs[1], declared)
    case IF => sigs[0].valueType == BOOLEAN && sigs[1] == sigs[2] == declared
    case _ => declared == TRUTH && sigs[0] == sigs[1] && (op == EQUAL || sigs[0].valueType != BOOLEAN)
  }

  predicate LiteralFits(text: Values.Literal, t: ValueType) {
    match t
    case BOOLEAN => text.Flag?
    case INTEGER => text.Digits? && text.scale == 0 && NumDigits(Abs(text.coefficient)) <= MAX_INPUT_PRECISION
    case _ =>
      && text.Digits?
      && DigitCount(text.coefficient, text.scale) <= MAX_INPUT_PRECISION
      && text.scale <= MAX_INPUT_SCALE
  }

  /** Every node obeys its typing rule; sizes are not looked at. */
  predicate WellTyped(node: Node, deps: set<Name>)
    decreases node
  {
    && GoodSig(node.sig)
    && match node
       case Literal(text, sig) => LiteralFits(text, sig.valueType)
       case Variable(name, _) => name in deps
       case Operation(op, sig, args) =>
         && |args| <= MAX_ARGUMENTS
         && AllTyped(args, deps)
         && Typed(op, NodeSigs(args), sig)
  }

  predicate AllTyped(nodes: seq<Node>, deps: set<Name>)
    decreases nodes
  {
    nodes == [] || (WellTyped(nodes[0], deps) && AllTyped(nodes[1..], deps))
  }

  predicate WithinLimits(node: Node, depth: nat, count: nat) {
    count + Size(node) <= MAX_NODES && depth + Height(node) <= MAX_DEPTH + 1
  }

  // ----- The checker accepts exactly the well typed expressions within the limits

  lemma {:induction false} CompatibleExact(sigs: seq<Sig>)
    requires sigs != []
    ensures CheckCompatible(sigs).Ok? <==> AllEqual(sigs, sigs[0])
  {
    if |sigs| > 1 {
      var rest := sigs[..|sigs| - 1];
      CompatibleExact(rest);
      assert sigs == rest + [sigs[|sigs| - 1]];
    }
  }

  lemma SigExact(sig: Sig)
    ensures CheckSig(sig).Ok? <==> GoodSig(sig)
  {
    hide IsCurrency;
  }

  lemma OperationExact(op: Operator, sigs: seq<Sig>, declared: Sig)
    requires ArityFits(op, |sigs|) && GoodSig(declared)
    requires forall s | s in sigs :: GoodSig(s)
    ensures CheckOperation(op, sigs, declared).Ok? <==> Typed(op, sigs, declared)
  {
    hide IsCurrency, MultiplySig, DivideSig, Multiplies, Divides;
    match op
    case ADD | SUBTRACT | MIN | MAX =>
      CompatibleExact(sigs);
    case NEGATE | ABS =>
    case MULTIPLY => MultiplyExact(sigs[0], sigs[1], declared);
    case DIVIDE => DivideExact(sigs[0], sigs[1], declared);
    case IF =>
      CompatibleExact(sigs[1..]);
    case EQUAL | LESS_THAN | LESS_OR_EQUAL | GREATER_THAN | GREATER_OR_EQUAL =>
      CompatibleExact(sigs);
    case UNKNOWN =>
  }

  lemma MultiplyExact(left: Sig, right: Sig, declared: Sig)
    requires GoodSig(left) && GoodSig(right)
    ensures MultiplySig(left, right) == Ok(declared) <==> Multiplies(left, right, declared)
  {
    hide IsCurrency;
  }

  lemma DivideExact(left: Sig, right: Sig, declared: Sig)
    requires GoodSig(left) && GoodSig(right)
    ensures DivideSig(left, right) == Ok(declared) <==> Divides(left, right, declared)
  {
    hide IsCurrency;
  }

  lemma LiteralExact(text: Values.Literal, t: ValueType)
    ensures CheckLiteral(text, t).Ok? <==> LiteralFits(text, t)
  {
  }

  lemma {:induction false} CheckExact(node: Node, depth: nat, count: nat, deps: set<Name>)
    ensures Check(node, depth, count, deps).Ok? <==> WellTyped(node, deps) && WithinLimits(node, depth, count)
    ensures Check(node, depth, count, deps).Ok? ==> Check(node, depth, count, deps).value == count + Size(node)
    decreases node
  {
    hide CheckLiteral, LiteralFits, CheckSig, GoodSig, CheckOperation, Typed;
    SigExact(node.sig);
    match node
    case Literal(text, sig) => LiteralExact(text, sig.valueType);
    case Variable(_, _) =>
    case Operation(op, sig, args) =>
      if count + 1 <= MAX_NODES && depth <= MAX_DEPTH {
        CheckAllExact(args, depth + 1, count + 1, deps);
      }
      HeadExact(op, args, sig, deps);
  }

  lemma HeadExact(op: Operator, args: seq<Node>, sig: Sig, deps: set<Name>)
    ensures
      && CheckHead(op, |args|, sig).Ok?
      && AllTyped(args, deps)
      && CheckOperation(op, NodeSigs(args), sig).Ok?
      <==>
      && |args| <= MAX_ARGUMENTS && GoodSig(sig)
      && AllTyped(args, deps)
      && Typed(op, NodeSigs(args), sig)
  {
    hide CheckOperation, CheckSig, GoodSig;
    SigExact(sig);
    if AllTyped(args, deps) && ArityFits(op, |args|) && GoodSig(sig) {
      TypedSigs(args, deps);
      OperationExact(op, NodeSigs(args), sig);
    }
  }

  lemma {:induction false} TypedSigs(nodes: seq<Node>, deps: set<Name>)
    requires AllTyped(nodes, deps)
    ensures forall n | n in nodes :: WellTyped(n, deps) && GoodSig(n.sig)
  {
    if nodes != [] {
      TypedSigs(nodes[1..], deps);
      assert nodes == [nodes[0]] + nodes[1..];
    }
  }

  lemma {:induction false} CheckAllExact(nodes: seq<Node>, depth: nat, count: nat, deps: set<Name>)
    requires depth <= MAX_DEPTH + 1 && count <= MAX_NODES
    ensures CheckAll(nodes, depth, count, deps).Ok? <==>
      && AllTyped(nodes, deps)
      && count + Sizes(nodes) <= MAX_NODES
      && depth + Heights(nodes) <= MAX_DEPTH + 1
    ensures CheckAll(nodes, depth, count, deps).Ok? ==>
      CheckAll(nodes, depth, count, deps).value == count + Sizes(nodes)
    decreases nodes
  {
    if nodes != [] {
      CheckExact(nodes[0], depth, count, deps);
      var c := Check(nodes[0], depth, count, deps);
      if c.Ok? {
        CheckAllExact(nodes[1..], depth, c.value, deps);
      }
    }
  }
}
