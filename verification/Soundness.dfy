/** Type soundness: what the static checker accepts, the eager evaluator never rejects for its types. */
module Soundness {
  import opened Base
  import opened Rounding
  import opened Values
  import opened Expression
  import opened Eager

  /** Every variable of the expression is in the environment with the signature it is used at. */
  predicate Bound(node: Node, env: Env)
    decreases node
  {
    match node
    case Literal(_, _) => true
    case Variable(name, sig) => name in env && env[name].sig == sig
    case Operation(_, _, args) => AllBound(args, env)
  }

  predicate AllBound(nodes: seq<Node>, env: Env)
    decreases nodes
  {
    nodes == [] || (Bound(nodes[0], env) && AllBound(nodes[1..], env))
  }

  /** The only errors left to an expression the checker accepted: the policy's own limits and points. */
  predicate PolicyError(e: FinanceError) {
    e == RoundingInputPrecisionExceeded || e == RoundingInputScaleExceeded || e == RoundingPointForbidden
  }

  predicate SoundResult(r: Result<Value, FinanceError>, sig: Sig) {
    match r
    case Ok(v) => v.sig == sig && WellFormed(v)
    case Err(e) => PolicyError(e)
  }

  // ----- Operations

  predicate ScalarsFit(xs: seq<Scalar>, t: ValueType) {
    forall i | 0 <= i < |xs| :: ScalarFits(xs[i], t)
  }

  lemma {:induction false} TotalFits(xs: seq<Scalar>, t: ValueType, fl: real -> real)
    requires xs != [] && ScalarsFit(xs, t) && t != BOOLEAN
    ensures Total(xs, fl).Ok? && ScalarFits(Total(xs, fl).value, t)
  {
    if |xs| > 1 {
      TotalFits(xs[..|xs| - 1], t, fl);
    }
  }

  lemma {:induction false} ExtremeFits(xs: seq<Scalar>, t: ValueType, least: bool)
    requires xs != [] && ScalarsFit(xs, t) && t != BOOLEAN
    ensures Extreme(xs, least).Ok? && ScalarFits(Extreme(xs, least).value, t)
  {
    if |xs| > 1 {
      ExtremeFits(xs[..|xs| - 1], t, least);
    }
  }

  /** `a` is below `b` as a number; truth values are not ordered. */
  predicate Below(a: Scalar, b: Scalar) {
    Less(a, b) == Ok(true)
  }

  /** MIN and MAX return one of the values, and none is below it, or above it. */
  lemma {:induction false} ExtremeIsExtreme(xs: seq<Scalar>, t: ValueType, least: bool)
    requires xs != [] && ScalarsFit(xs, t) && t != BOOLEAN
    ensures Extreme(xs, least).Ok? && Extreme(xs, least).value in xs
    ensures forall x | x in xs ::
      !(if least then Below(x, Extreme(xs, least).value) else Below(Extreme(xs, least).value, x))
  {
    ExtremeFits(xs, t, least);
    if |xs| > 1 {
      var init, last := xs[..|xs| - 1], xs[|xs| - 1];
      assert xs == init + [last];
      ExtremeFits(init, t, least);
      ExtremeIsExtreme(init, t, least);
    }
  }

  lemma CompareFits(op: Operator, a: Scalar, b: Scalar, t: ValueType)
    requires ScalarFits(a, t) && ScalarFits(b, t) && (op == EQUAL || t != BOOLEAN)
    ensures Compare(op, a, b).Ok? && Compare(op, a, b).value.Truth?
  {
  }

  lemma ScalarAt(values: seq<Value>, i: nat)
    requires AllValid(values) && i < |values|
    requires forall v | v in values :: WellFormed(v)
    ensures ScalarFits(Scalars(values)[i], Sigs(values)[i].valueType)
  {
    assert values[i] in values;
  }

  lemma CombineFits(op: Operator, sig: Sig, xs: seq<Scalar>, sigs: seq<Sig>, fl: real -> real)
    requires op != DIVIDE && |xs| == |sigs| && Typed(op, sigs, sig)
    requires forall i | 0 <= i < |xs| :: ScalarFits(xs[i], sigs[i].valueType)
    ensures Combine(op, xs, fl).Ok? && ScalarFits(Combine(op, xs, fl).value, sig.valueType)
  {
    match op
    case ADD => TotalFits(xs, sig.valueType, fl);
    case MIN => ExtremeFits(xs, sig.valueType, true);
    case MAX => ExtremeFits(xs, sig.valueType, false);
    case EQUAL | LESS_THAN | LESS_OR_EQUAL | GREATER_THAN | GREATER_OR_EQUAL =>
      CompareFits(op, xs[0], xs[1], sigs[0].valueType);
    case SUBTRACT =>
    case MULTIPLY =>
    case NEGATE =>
    case ABS =>
    case IF =>
  }

  lemma ComputeSound(op: Operator, sig: Sig, values: seq<Value>, fl: real -> real)
    requires GoodSig(sig) && Typed(op, Sigs(values), sig) && AllValid(values)
    requires forall v | v in values :: WellFormed(v)
    ensures Compute(op, sig, values, fl).Ok?
    ensures SoundResult(Compute(op, sig, values, fl), sig)
  {
    hide GoodSig, Typed, Combine, ScalarFits;
    var xs, sigs := Scalars(values), Sigs(values);
    forall i: nat | i < |xs|
      ensures ScalarFits(xs[i], sigs[i].valueType)
    {
      ScalarAt(values, i);
    }
    if op == DIVIDE {
      TypedHasArity(op, sigs, sig);
      DivideSound(sig, xs, sigs, AllSources(values), fl);
    } else {
      CombineFits(op, sig, xs, sigs, fl);
    }
  }

  lemma DivideSound(sig: Sig, xs: seq<Scalar>, sigs: seq<Sig>, sources: set<Name>, fl: real -> real)
    requires GoodSig(sig) && |xs| == |sigs| == 2 && Typed(DIVIDE, sigs, sig)
    requires forall i | 0 <= i < |xs| :: ScalarFits(xs[i], sigs[i].valueType)
    ensures Divide(xs[0], xs[1], sig, sources, fl).Ok?
    ensures SoundResult(Divide(xs[0], xs[1], sig, sources, fl), sig)
  {
    hide GoodSig;
  }

  lemma ApplySound(op: Operator, sig: Sig, values: seq<Value>, fl: real -> real)
    requires GoodSig(sig) && Typed(op, Sigs(values), sig)
    requires forall v | v in values :: WellFormed(v)
    ensures Apply(op, sig, values, fl).Ok?
    ensures SoundResult(Apply(op, sig, values, fl), sig)
  {
    assert forall s | s in Sigs(values) :: GoodSig(s) by {
      forall s | s in Sigs(values)
        ensures GoodSig(s)
      {
        var i :| 0 <= i < |values| && s == values[i].sig;
        assert values[i] in values;
      }
    }
    OperationExact(op, Sigs(values), sig);
    if Propagate(values, sig).None? {
      ComputeSound(op, sig, values, fl);
    }
  }

  // ----- Leaves

  lemma LiteralSound(text: Values.Literal, sig: Sig, p: Policy)
    requires GoodSig(sig) && LiteralFits(text, sig.valueType)
    ensures SoundResult(EvalLiteral(text, sig, p), sig)
  {
    SigExact(sig);
    hide GoodSig, CheckSig, RoundTo, NumDigits, Pow10;
  }

  lemma VariableSound(name: Name, sig: Sig, w: World)
    requires GoodSig(sig) && name in w.deps && name in w.env && w.env[name].sig == sig && EnvFits(w.env)
    ensures SoundResult(EvalVariable(name, sig, w), sig)
  {
    SigExact(sig);
    hide GoodSig, CheckSig;
  }

  // ----- Expressions

  lemma {:induction false} EvalSound(node: Node, w: World)
    requires WellTyped(node, w.deps) && Bound(node, w.env) && EnvFits(w.env)
    ensures SoundResult(Eval(node, w), node.sig)
    decreases node
  {
    hide GoodSig, LiteralFits, Typed, Apply, EvalLiteral, EvalVariable, EnvFits, WellFormed, CheckSig;
    match node
    case Literal(text, sig) => LiteralSound(text, sig, w.policy);
    case Variable(name, sig) => VariableSound(name, sig, w);
    case Operation(op, sig, args) =>
      SigExact(sig);
      TypedHasArity(op, NodeSigs(args), sig);
      EvalAllSound(args, w);
      var values := EvalAll(args, w);
      if values.Ok? {
        ApplySound(op, sig, values.value, w.fl);
      }
  }

  lemma TypedHasArity(op: Operator, sigs: seq<Sig>, sig: Sig)
    requires Typed(op, sigs, sig)
    ensures ArityFits(op, |sigs|) && op != UNKNOWN
  {
  }

  lemma {:induction false} EvalAllSound(nodes: seq<Node>, w: World)
    requires AllTyped(nodes, w.deps) && AllBound(nodes, w.env) && EnvFits(w.env)
    ensures EvalAll(nodes, w).Ok? ==> Sigs(EvalAll(nodes, w).value) == NodeSigs(nodes)
    ensures EvalAll(nodes, w).Ok? ==> forall v | v in EvalAll(nodes, w).value :: WellFormed(v)
    ensures EvalAll(nodes, w).Err? ==> PolicyError(EvalAll(nodes, w).error)
    decreases nodes
  {
    hide GoodSig, LiteralFits, Typed, Apply, EvalLiteral, EvalVariable, EnvFits, WellFormed;
    if nodes != [] {
      EvalSound(nodes[0], w);
      EvalAllSound(nodes[1..], w);
      assert NodeSigs(nodes) == [nodes[0].sig] + NodeSigs(nodes[1..]);
    }
  }

  function Finished(r: Result<Value, FinanceError>, p: Policy): Result<Value, FinanceError> {
    match r
    case Ok(v) => Finish(v, p)
    case Err(e) => Err(e)
  }

  lemma EvaluateInIsEval(node: Node, w: World)
    requires WithinLimits(node, 1, 0)
    ensures EvaluateIn(node, w) == Finished(Eval(node, w), w.policy)
  {
    hide Walk, Eval, Finish, WithinLimits, Size;
    WalkIsEval(node, 1, 0, w);
  }

  lemma NamesChecked(deps: seq<Name>)
    ensures CheckDependencies(deps).Ok? ==> CheckDependencies(deps).value == Names(deps)
  {
  }

  lemma EvaluateIsEval(node: Node, bindings: seq<Binding>, deps: seq<Name>, p: Policy, fl: real -> real)
    requires CheckDependencies(deps).Ok? && NamesOf(bindings) <= Names(deps)
    requires AdmitAll(bindings, p).Ok? && WithinLimits(node, 1, 0)
    ensures Evaluate(node, bindings, deps, p, fl) ==
      Finished(Eval(node, World(AdmitAll(bindings, p).value, Names(deps), p, fl)), p)
  {
    NamesChecked(deps);
    EvaluateInIsEval(node, World(AdmitAll(bindings, p).value, Names(deps), p, fl));
    hide EvaluateIn, Finished, Eval, WithinLimits, AdmitAll, NamesOf, CheckDependencies, Names;
  }

  lemma FinishedSound(r: Result<Value, FinanceError>, sig: Sig, p: Policy)
    requires SoundResult(r, sig)
    ensures SoundResult(Finished(r, p), sig)
  {
    if r.Ok? {
      FinishSound(r.value, p);
    }
  }

  lemma FinishSound(v: Value, p: Policy)
    requires WellFormed(v)
    ensures SoundResult(Finish(v, p), v.sig)
  {
    hide GoodSig, RoundTo;
  }

  /** An accepted expression whose variables have the signatures they are used at. */
  predicate Admissible(node: Node, bindings: seq<Binding>, deps: seq<Name>, p: Policy) {
    && ValidateAst(node, deps).Ok?
    && NamesOf(bindings) <= Names(deps)
    && AdmitAll(bindings, p).Ok?
    && Bound(node, AdmitAll(bindings, p).value)
  }

  /**
   No type, unit, currency, arity, operator, dependency or size error is left after the static
   check, and the result has the signature the root declares.
   */
  lemma TypeSoundness(node: Node, bindings: seq<Binding>, deps: seq<Name>, p: Policy, fl: real -> real)
    requires Admissible(node, bindings, deps, p)
    ensures SoundResult(Evaluate(node, bindings, deps, p, fl), node.sig)
  {
    var w := World(AdmitAll(bindings, p).value, Names(deps), p, fl);
    CheckExact(node, 1, 0, w.deps);
    EvaluateIsEval(node, bindings, deps, p, fl);
    AdmittedFits(bindings, p);
    EvalSound(node, w);
    hide *;
    FinishedSound(Eval(node, w), node.sig, p);
  }
}
