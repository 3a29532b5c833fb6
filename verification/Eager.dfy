/** The eager evaluator: every branch is evaluated, counting nodes on the way. */
module Eager {
  import opened Base
  import opened Rounding
  import opened Values
  import opened Expression

  /**
   What an evaluation depends on besides the expression. `fl` is what the decimal context makes of
   the exact result of one arithmetic operation; nothing is assumed about it here.
   */
  datatype World = World(env: Env, deps: set<Name>, policy: Policy, fl: real -> real)

  // ----- Operations on scalars

  function Scalars(values: seq<Value>): (r: seq<Scalar>)
    requires AllValid(values)
  {
    seq(|values|, i requires 0 <= i < |values| => assert values[i] in values; values[i].scalar)
  }

  function Plus(a: Scalar, b: Scalar, fl: real -> real): Result<Scalar, FinanceError> {
    if a.Num? && b.Num? then Ok(Num(fl(a.n + b.n)))
    else if a.Whole? && b.Whole? then Ok(Whole(a.i + b.i))
    else Err(ValueTypeInvalid)
  }

  function Negate(a: Scalar, fl: real -> real): Result<Scalar, FinanceError> {
    match a
    case Num(n) => Ok(Num(fl(-n)))
    case Whole(i) => Ok(Whole(-i))
    case Truth(_) => Err(ValueTypeInvalid)
  }

  function Subtract(a: Scalar, b: Scalar, fl: real -> real): Result<Scalar, FinanceError> {
    if a.Num? && b.Num? then Ok(Num(fl(a.n - b.n)))
    else if a.Whole? && b.Whole? then Ok(Whole(a.i - b.i))
    else Err(ValueTypeInvalid)
  }

  function Times(x: real, y: real): real {
    x * y
  }

  function Multiply(a: Scalar, b: Scalar, fl: real -> real): Result<Scalar, FinanceError> {
    if a.Num? && b.Num? then Ok(Num(fl(Times(a.n, b.n)))) else Err(ExpressionTypeMismatch)
  }

  function Magnitude(a: Scalar, fl: real -> real): Result<Scalar, FinanceError> {
    match a
    case Num(n) => Ok(Num(fl(if n < 0.0 then -n else n)))
    case Whole(i) => Ok(Whole(Abs(i)))
    case Truth(_) => Err(ValueTypeInvalid)
  }

  function Less(a: Scalar, b: Scalar): Result<bool, FinanceError> {
    if a.Num? && b.Num? then Ok(a.n < b.n)
    else if a.Whole? && b.Whole? then Ok(a.i < b.i)
    else Err(ValueTypeInvalid)
  }

  /** The sum from the left. */
  function Total(xs: seq<Scalar>, fl: real -> real): Result<Scalar, FinanceError>
    requires xs != []
  {
    if |xs| == 1 then
      Ok(xs[0])
    else
      var sofar :- Total(xs[..|xs| - 1], fl);
      Plus(sofar, xs[|xs| - 1], fl)
  }

  /** `min` and `max`: the first of the extreme values. */
  function Extreme(xs: seq<Scalar>, least: bool): Result<Scalar, FinanceError>
    requires xs != []
  {
    if |xs| == 1 then
      Ok(xs[0])
    else
      var sofar :- Extreme(xs[..|xs| - 1], least);
      var last := xs[|xs| - 1];
      var better :- if least then Less(last, sofar) else Less(sofar, last);
      Ok(if better then last else sofar)
  }

  function Compare(op: Operator, a: Scalar, b: Scalar): Result<Scalar, FinanceError> {
    if op == EQUAL then
      Ok(Truth(a == b))
    else
      var less :- Less(a, b);
      var more :- Less(b, a);
      Ok(Truth(
           match op
           case LESS_THAN => less
           case LESS_OR_EQUAL => !more
           case GREATER_THAN => more
           case _ => !less))
  }

  function Combine(op: Operator, xs: seq<Scalar>, fl: real -> real): Result<Scalar, FinanceError>
    requires ArityFits(op, |xs|) && op != DIVIDE
  {
    match op
    case ADD => Total(xs, fl)
    case SUBTRACT => Subtract(xs[0], xs[1], fl)
    case MULTIPLY => Multiply(xs[0], xs[1], fl)
    case NEGATE => Negate(xs[0], fl)
    case ABS => Magnitude(xs[0], fl)
    case MIN => Extreme(xs, true)
    case MAX => Extreme(xs, false)
    case IF => if xs[0].Truth? then Ok(if xs[0].b then xs[1] else xs[2]) else Err(ValueTypeInvalid)
    case EQUAL | LESS_THAN | LESS_OR_EQUAL | GREATER_THAN | GREATER_OR_EQUAL => Compare(op, xs[0], xs[1])
  }

  const DIVISION_BY_ZERO := "EXPRESSION_DIVISION_BY_ZERO"

  function Divide(a: Scalar, b: Scalar, sig: Sig, sources: set<Name>, fl: real -> real): Result<Value, FinanceError> {
    if !(a.Num? && b.Num?) then Err(ExpressionTypeMismatch)
    else if b.n == 0.0 then Ok(NonValid(BLOCKED, sig, DIVISION_BY_ZERO, sources))
    else Ok(Valid(Num(fl(a.n / b.n)), sig, sources))
  }

  /** The operation on values that are all VALID. */
  function Compute(op: Operator, sig: Sig, values: seq<Value>, fl: real -> real): Result<Value, FinanceError>
    requires ArityFits(op, |values|) && AllValid(values)
  {
    var xs, sources := Scalars(values), AllSources(values);
    if op == DIVIDE then
      Divide(xs[0], xs[1], sig, sources, fl)
    else
      var x :- Combine(op, xs, fl);
      Ok(Valid(x, sig, sources))
  }

  function Apply(op: Operator, sig: Sig, values: seq<Value>, fl: real -> real): Result<Value, FinanceError>
    requires ArityFits(op, |values|)
  {
    var _ :- CheckOperation(op, Sigs(values), sig);
    var propagated := Propagate(values, sig);
    if propagated.Some? then Ok(propagated.value) else Compute(op, sig, values, fl)
  }

  // ----- Evaluation

  function EvalLiteral(text: Values.Literal, sig: Sig, p: Policy): Result<Value, FinanceError> {
    var _ :- CheckSig(sig);
    match sig.valueType
    case BOOLEAN =>
      var _ :- Need(text.Flag?, ExpressionTypeMismatch);
      Ok(Valid(Truth(text.b), sig, {}))
    case INTEGER =>
      var _ :- Need(text.Digits? && text.scale == 0, ExpressionTypeMismatch);
      Ok(Valid(Whole(text.coefficient), sig, {}))
    case _ =>
      var x :- InputDecimal(text, p, ExpressionNonFiniteLiteral);
      Ok(Valid(Num(x), sig, {}))
  }

  function EvalVariable(name: Name, sig: Sig, w: World): Result<Value, FinanceError> {
    var _ :- Need(name in w.deps, ExpressionDependencyUndeclared);
    var _ :- Need(name in w.env, ExpressionVariableUnknown);
    var _ :- CheckSig(sig);
    var actual := w.env[name].sig;
    var _ :- Need(sig.valueType == actual.valueType, ExpressionTypeMismatch);
    var _ :- Need(sig.unit == actual.unit, ExpressionUnitMismatch);
    var _ :- Need(sig.currency == actual.currency, ExpressionCurrencyMismatch);
    Ok(w.env[name])
  }

  /** `walk` of `evaluate_expression`: the value of the subtree and the node counter after it. */
  function Walk(node: Node, depth: nat, count: nat, w: World): Result<(Value, nat), FinanceError>
    decreases node
  {
    var _ :- Need(count + 1 <= MAX_NODES && depth <= MAX_DEPTH, ExpressionLimitExceeded);
    match node
    case Literal(text, sig) =>
      var v :- EvalLiteral(text, sig, w.policy);
      Ok((v, count + 1))
    case Variable(name, sig) =>
      var v :- EvalVariable(name, sig, w);
      Ok((v, count + 1))
    case Operation(op, sig, args) =>
      var _ :- CheckHead(op, |args|, sig);
      var walked :- WalkAll(args, depth + 1, count + 1, w);
      var v :- Apply(op, sig, walked.0, w.fl);
      Ok((v, walked.1))
  }

  function WalkAll(nodes: seq<Node>, depth: nat, count: nat, w: World): (r: Result<(seq<Value>, nat), FinanceError>)
    ensures r.Ok? ==> |r.value.0| == |nodes|
    decreases nodes
  {
    if nodes == [] then
      Ok(([], count))
    else
      var first :- Walk(nodes[0], depth, count, w);
      var rest :- WalkAll(nodes[1..], depth, first.1, w);
      Ok(([first.0] + rest.0, rest.1))
  }

  function Finish(v: Value, p: Policy): Result<Value, FinanceError> {
    if v.Valid? && v.scalar.Num? then
      var rounded :- Quantize(v.scalar.n, p, RuleComponentResult, v.sig.valueType);
      Ok(Valid(Num(rounded.0), v.sig, v.sources))
    else
      Ok(v)
  }

  function EvaluateIn(node: Node, w: World): Result<Value, FinanceError> {
    var walked :- Walk(node, 1, 0, w);
    Finish(walked.0, w.policy)
  }

  /** The eager `evaluate_expression`. */
  function Evaluate(node: Node, bindings: seq<Binding>, deps: seq<Name>, p: Policy, fl: real -> real)
    : Result<Value, FinanceError>
  {
    var names :- CheckDependencies(deps);
    var _ :- Need(NamesOf(bindings) <= names, ExpressionDependencyUndeclared);
    var env :- AdmitAll(bindings, p);
    EvaluateIn(node, World(env, names, p, fl))
  }

  // ----- The same without the counter

  function Eval(node: Node, w: World): Result<Value, FinanceError>
    decreases node
  {
    match node
    case Literal(text, sig) => EvalLiteral(text, sig, w.policy)
    case Variable(name, sig) => EvalVariable(name, sig, w)
    case Operation(op, sig, args) =>
      var _ :- CheckHead(op, |args|, sig);
      var values :- EvalAll(args, w);
      Apply(op, sig, values, w.fl)
  }

  function EvalAll(nodes: seq<Node>, w: World): (r: Result<seq<Value>, FinanceError>)
    ensures r.Ok? ==> |r.value| == |nodes|
    decreases nodes
  {
    if nodes == [] then
      Ok([])
    else
      var first :- Eval(nodes[0], w);
      var rest :- EvalAll(nodes[1..], w);
      Ok([first] + rest)
  }

  function Counted<T>(r: Result<T, FinanceError>, count: nat): Result<(T, nat), FinanceError> {
    match r
    case Ok(v) => Ok((v, count))
    case Err(e) => Err(e)
  }

  /** The counter never changes a result within the limits, and always refuses outside them. */
  lemma {:induction false} WalkIsEval(node: Node, depth: nat, count: nat, w: World)
    ensures WithinLimits(node, depth, count) ==>
      Walk(node, depth, count, w) == Counted(Eval(node, w), count + Size(node))
    ensures !WithinLimits(node, depth, count) ==> Walk(node, depth, count, w).Err?
    decreases node
  {
    hide EvalLiteral, EvalVariable, CheckHead, Apply, ArityFits;
    match node
    case Literal(_, _) =>
    case Variable(_, _) =>
    case Operation(op, sig, args) =>
      if count + 1 <= MAX_NODES && depth <= MAX_DEPTH {
        WalkAllIsEvalAll(args, depth + 1, count + 1, w);
      }
  }

  lemma {:induction false} WalkAllIsEvalAll(nodes: seq<Node>, depth: nat, count: nat, w: World)
    requires depth <= MAX_DEPTH + 1 && count <= MAX_NODES
    ensures count + Sizes(nodes) <= MAX_NODES && depth + Heights(nodes) <= MAX_DEPTH + 1 ==>
        WalkAll(nodes, depth, count, w) == Counted(EvalAll(nodes, w), count + Sizes(nodes))
    ensures !(count + Sizes(nodes) <= MAX_NODES && depth + Heights(nodes) <= MAX_DEPTH + 1) ==>
        WalkAll(nodes, depth, count, w).Err?
    decreases nodes
  {
    hide EvalLiteral, EvalVariable, CheckHead, Apply, ArityFits;
    if nodes != [] {
      WalkIsEval(nodes[0], depth, count, w);
      if WithinLimits(nodes[0], depth, count) && Eval(nodes[0], w).Ok? {
        WalkAllIsEvalAll(nodes[1..], depth, count + Size(nodes[0]), w);
      }
    }
  }
}
