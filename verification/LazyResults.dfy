/** What callers of the lazy evaluator may rely on. */
module LazyResults {
  import opened Base
  import opened Rounding
  import opened Values
  import opened Expression
  import opened Eager
  import opened Soundness
  import opened Lazy
  import opened LazyShape
  import opened LazyTheorems

  // ----- The lazy evaluator is short-circuit evaluation

  /** Short-circuit evaluation, rounded, with the sources of every condition evaluated. */
  function Semantics(node: Node, w: World): Result<Value, FinanceError> {
    var seen :- Short(node, w);
    var v :- Finish(seen.value, w.policy);
    Ok(WithSources(v, v.sources + seen.conditions))
  }

  /** Callers' names are their own, and the made-up ones leave room under the dependency limit. */
  ghost predicate Roomy(node: Node, deps: seq<Name>) {
    && (forall name | name in Names(deps) :: name.Given?)
    && |deps| + Ifs(node) <= MAX_DEPENDENCIES
  }

  lemma {:induction false} GivenIsGrounded(node: Node, deps: set<Name>, w: World)
    requires WellTyped(node, deps) && forall name | name in deps :: name.Given?
    ensures Grounded(node, w)
    decreases node
  {
    hide GoodSig, LiteralFits, Typed;
    if node.Operation? {
      AllGivenGrounded(node.args, deps, w);
    }
  }

  lemma {:induction false} AllGivenGrounded(nodes: seq<Node>, deps: set<Name>, w: World)
    requires AllTyped(nodes, deps) && forall name | name in deps :: name.Given?
    ensures AllGrounded(nodes, w)
    decreases nodes
  {
    hide GoodSig, LiteralFits, Typed;
    if nodes != [] {
      GivenIsGrounded(nodes[0], deps, w);
      AllGivenGrounded(nodes[1..], deps, w);
    }
  }

  lemma StartIsRefinable(node: Node, bindings: seq<Binding>, deps: seq<Name>, p: Policy, fl: real -> real)
    requires ValidateAst(node, deps).Ok? && Roomy(node, deps)
    requires NamesOf(bindings) <= Names(deps) && AdmitAll(bindings, p).Ok?
    ensures
      var s := Progress(bindings, deps, {}, 0);
      Refinable(node, WorldOf(s, p, fl), s, p, fl)
  {
    var s := Progress(bindings, deps, {}, 0);
    CheckExact(node, 1, 0, Names(deps));
    GivenIsGrounded(node, Names(deps), WorldOf(s, p, fl));
    AdmittedClean(bindings, p);
    hide AdmitAll, WellTyped, Grounded, Check;
  }

  /** The conditions first, then short-circuit evaluation. */
  function LazySemantics(node: Node, w: World): Result<Value, FinanceError> {
    var _ :- Conditions(node, w);
    Semantics(node, w)
  }

  /** The lazy evaluator does just that, down to the error code of every failure. */
  lemma LazyExact(node: Node, bindings: seq<Binding>, deps: seq<Name>, p: Policy, fl: real -> real)
    requires ValidateAst(node, deps).Ok? && Roomy(node, deps)
    requires NamesOf(bindings) <= Names(deps) && AdmitAll(bindings, p).Ok?
    ensures LazyEvaluate(node, bindings, deps, p, fl) ==
      LazySemantics(node, World(AdmitAll(bindings, p).value, Names(deps), p, fl))
  {
    var s := Progress(bindings, deps, {}, 0);
    var w := WorldOf(s, p, fl);
    StartIsRefinable(node, bindings, deps, p, fl);
    Refines(node, w, s, p, fl);
    ConditionEvaluates(node, w, s, p, fl);
    hide Refinable, Short, Conditions, Resolve, Evaluate, Outcome, AdmitAll, Strip, ValidateAst, Finish;
    var r, short := Resolve(node, s, p, fl), Short(node, w);
    if r.Ok? {
      var v := Evaluate(r.value.0, r.value.1.bindings, r.value.1.deps, p, fl);
      if v.Ok? {
        assert {} + short.value.conditions == short.value.conditions;
      }
    }
  }

  /**
   The result of the lazy evaluator is the short-circuit one, in state, value, signature, reason and
   sources, and one fails exactly when the other does. The error codes of a failure agree exactly
   when no condition fails or the first that does has the code of the first failure in the text.
   */
  lemma LazyIsShortCircuit(node: Node, bindings: seq<Binding>, deps: seq<Name>, p: Policy, fl: real -> real)
    requires ValidateAst(node, deps).Ok? && Roomy(node, deps)
    requires NamesOf(bindings) <= Names(deps) && AdmitAll(bindings, p).Ok?
    ensures
      var lazy := LazyEvaluate(node, bindings, deps, p, fl);
      var w := World(AdmitAll(bindings, p).value, Names(deps), p, fl);
      var short, conditions := Semantics(node, w), Conditions(node, w);
      && (lazy.Ok? <==> short.Ok?)
      && (lazy.Ok? ==> lazy == short)
      && (lazy == short <==> conditions.Ok? || short == Err(conditions.error))
  {
    LazyExact(node, bindings, deps, p, fl);
    var w := World(AdmitAll(bindings, p).value, Names(deps), p, fl);
    hide LazyEvaluate, Short, Conditions, AdmitAll, ValidateAst, Finish;
    if Conditions(node, w).Err? {
      ConditionsStop(node, w);
    }
  }

  // ----- Variables that are not admissible

  /** No evaluation with these variables and dependencies succeeds. */
  predicate Hopeless(s: Progress, p: Policy) {
    CheckDependencies(s.deps).Err? || !(NamesOf(s.bindings) <= Names(s.deps)) || AdmitAll(s.bindings, p).Err?
  }

  lemma HopelessFails(node: Node, s: Progress, p: Policy, fl: real -> real)
    requires Hopeless(s, p)
    ensures Evaluate(node, s.bindings, s.deps, p, fl).Err?
  {
    hide EvaluateIn, AdmitAll, NamesOf, Names, CheckDependencies;
    NamesChecked(s.deps);
  }

  lemma {:induction false} HopelessStays(node: Node, s: Progress, p: Policy, fl: real -> real)
    requires Hopeless(s, p)
    ensures Resolve(node, s, p, fl).Ok? ==> Resolve(node, s, p, fl).value.1 == s
    decreases node
  {
    hide Hopeless, Evaluate, Register;
    if node.Operation? {
      if node.op != IF {
        AllHopelessStay(node.args, s, p, fl);
      } else if |node.args| == 3 {
        HopelessStays(node.args[0], s, p, fl);
        var c := Resolve(node.args[0], s, p, fl);
        if c.Ok? {
          HopelessFails(c.value.0, s, p, fl);
        }
      }
    }
  }

  lemma {:induction false} AllHopelessStay(nodes: seq<Node>, s: Progress, p: Policy, fl: real -> real)
    requires Hopeless(s, p)
    ensures ResolveAll(nodes, s, p, fl).Ok? ==> ResolveAll(nodes, s, p, fl).value.1 == s
    decreases nodes
  {
    hide Hopeless;
    if nodes != [] {
      HopelessStays(nodes[0], s, p, fl);
      AllHopelessStay(nodes[1..], s, p, fl);
    }
  }

  /** A variable outside the policy's limits is refused even when no selected branch uses it. */
  lemma EveryVariableIsChecked(node: Node, bindings: seq<Binding>, deps: seq<Name>, p: Policy, fl: real -> real)
    requires !(NamesOf(bindings) <= Names(deps)) || AdmitAll(bindings, p).Err?
    ensures LazyEvaluate(node, bindings, deps, p, fl).Err?
  {
    var s := Progress(bindings, deps, {}, 0);
    HopelessStays(node, s, p, fl);
    var r := Resolve(node, s, p, fl);
    if r.Ok? {
      HopelessFails(r.value.0, s, p, fl);
    }
    hide Resolve, Evaluate, ValidateAst;
  }

  // ----- The eager evaluator, where it gives a value

  /** The same value, with fewer sources. */
  predicate Refined(lazy: Value, eager: Value) {
    lazy.Valid? && eager.Valid? && lazy.scalar == eager.scalar && lazy.sig == eager.sig && lazy.sources <= eager.sources
  }

  predicate AllRefined(lazy: seq<Value>, eager: seq<Value>) {
    |lazy| == |eager| && forall i | 0 <= i < |lazy| :: Refined(lazy[i], eager[i])
  }

  lemma RefinedParts(lazy: seq<Value>, eager: seq<Value>)
    requires AllRefined(lazy, eager)
    ensures AllValid(lazy) && AllValid(eager) && Sigs(lazy) == Sigs(eager) && Scalars(lazy) == Scalars(eager)
    ensures AllSources(lazy) <= AllSources(eager)
  {
    forall v | v in lazy
      ensures v.Valid? && v.sources <= AllSources(eager)
    {
      var i :| 0 <= i < |lazy| && v == lazy[i];
      assert Refined(lazy[i], eager[i]) && eager[i] in eager;
    }
    forall v | v in eager
      ensures v.Valid?
    {
      var i :| 0 <= i < |eager| && v == eager[i];
      assert Refined(lazy[i], eager[i]);
    }
  }

  /** An operation on values with fewer sources gives the same value with fewer sources. */
  lemma ApplyRefined(op: Operator, sig: Sig, lazy: seq<Value>, eager: seq<Value>, fl: real -> real)
    requires AllRefined(lazy, eager) && ArityFits(op, |eager|)
    requires Apply(op, sig, eager, fl).Ok? && Apply(op, sig, eager, fl).value.Valid?
    ensures Apply(op, sig, lazy, fl).Ok? && Refined(Apply(op, sig, lazy, fl).value, Apply(op, sig, eager, fl).value)
  {
    RefinedParts(lazy, eager);
    ComputeRefined(op, sig, lazy, eager, fl);
    hide CheckOperation, Compute, AllRefined, AllSources, Sigs, Scalars, Refined, Report, Matching;
  }

  lemma ComputeRefined(op: Operator, sig: Sig, lazy: seq<Value>, eager: seq<Value>, fl: real -> real)
    requires AllValid(lazy) && AllValid(eager) && Scalars(lazy) == Scalars(eager) &&
      AllSources(lazy) <= AllSources(eager)
    requires |lazy| == |eager| && ArityFits(op, |eager|)
    ensures Compute(op, sig, eager, fl).Ok? && Compute(op, sig, eager, fl).value.Valid? ==>
        Compute(op, sig, lazy, fl).Ok? && Refined(Compute(op, sig, lazy, fl).value, Compute(op, sig, eager, fl).value)
  {
    hide Combine, AllSources, Scalars;
  }

  /** An operation gives a value only when all its arguments have one. */
  lemma ValidArguments(op: Operator, sig: Sig, values: seq<Value>, fl: real -> real)
    requires ArityFits(op, |values|) && Apply(op, sig, values, fl).Ok? && Apply(op, sig, values, fl).value.Valid?
    ensures AllValid(values)
  {
    hide CheckOperation, Compute;
  }

  /** A conditional that gives a value gives the selected argument's. */
  lemma ValidIf(sig: Sig, values: seq<Value>, fl: real -> real)
    requires |values| == 3 && AllValid(values) && Apply(IF, sig, values, fl).Ok? &&
      Apply(IF, sig, values, fl).value.Valid?
    ensures values[0].Valid? && values[0].scalar.Truth? && values[0].sig.valueType == BOOLEAN
    ensures
      var branch, v := if values[0].scalar.b then values[1] else values[2], Apply(IF, sig, values, fl).value;
      branch.Valid? && v.scalar == branch.scalar && v.sig == branch.sig == sig && v.sources == AllSources(values)
  {
    assert values[0] in values && values[1] in values && values[2] in values;
    CompatibleExact(Sigs(values)[1..]);
    assert Sigs(values)[1..][1] == values[2].sig && Sigs(values)[1..][0] == values[1].sig;
  }

  lemma {:induction false} EagerShort(node: Node, w: World)
    requires Eval(node, w).Ok? && Eval(node, w).value.Valid?
    ensures Short(node, w).Ok? && Refined(Short(node, w).value.value, Eval(node, w).value)
    ensures Short(node, w).value.conditions <= Eval(node, w).value.sources
    decreases node, 1
  {
    if node.Operation? {
      var values := EvalAll(node.args, w).value;
      ValidArguments(node.op, node.sig, values, w.fl);
      if node.op == IF {
        EagerShortIf(node, w);
      } else {
        EagerShortAll(node.args, w);
        ApplyRefined(node.op, node.sig, ShortAll(node.args, w).value.0, values, w.fl);
        ApplySources(node.op, node.sig, values, w.fl);
      }
    }
  }

  lemma ApplySources(op: Operator, sig: Sig, values: seq<Value>, fl: real -> real)
    requires ArityFits(op, |values|) && Apply(op, sig, values, fl).Ok? && Apply(op, sig, values, fl).value.Valid?
    ensures Apply(op, sig, values, fl).value.sources == AllSources(values)
  {
    hide CheckOperation, Combine, AllSources;
  }

  lemma EvalAt(nodes: seq<Node>, w: World, i: nat)
    requires EvalAll(nodes, w).Ok? && i < |nodes|
    ensures Eval(nodes[i], w) == Ok(EvalAll(nodes, w).value[i])
  {
    hide Eval;
    if i > 0 {
      EvalAt(nodes[1..], w, i - 1);
    }
  }

  lemma {:induction false} EagerShortIf(node: Node, w: World)
    requires Eval(node, w).Ok? && Eval(node, w).value.Valid? && node.Operation? && node.op == IF
    ensures Short(node, w).Ok? && Refined(Short(node, w).value.value, Eval(node, w).value)
    ensures Short(node, w).value.conditions <= Eval(node, w).value.sources
    decreases node, 0
  {
    var args, values := node.args, EvalAll(node.args, w).value;
    ValidArguments(IF, node.sig, values, w.fl);
    ValidIf(node.sig, values, w.fl);
    var i := if values[0].scalar.b then 1 else 2;
    EvalAt(args, w, 0);
    EvalAt(args, w, i);
    assert args[0] in args && args[i] in args && values[0] in values && values[i] in values;
    EagerShort(args[0], w);
    EagerShort(args[i], w);
    hide Apply, ArityFits, AllValid;
  }

  lemma {:induction false} EagerShortAll(nodes: seq<Node>, w: World)
    requires EvalAll(nodes, w).Ok? && AllValid(EvalAll(nodes, w).value)
    ensures ShortAll(nodes, w).Ok? && AllRefined(ShortAll(nodes, w).value.0, EvalAll(nodes, w).value)
    ensures ShortAll(nodes, w).value.1 <= AllSources(EvalAll(nodes, w).value)
    decreases nodes
  {
    if nodes != [] {
      var all := EvalAll(nodes, w).value;
      assert all[1..] == EvalAll(nodes[1..], w).value && all[0] in all;
      assert forall v | v in all[1..] :: v in all;
      hide Refined;
      EagerShort(nodes[0], w);
      EagerShortAll(nodes[1..], w);
    }
  }

  /** Where the eager evaluator gives a value, the lazy one gives the same with no source added. */
  lemma EagerValueIsLazyValue(node: Node, bindings: seq<Binding>, deps: seq<Name>, p: Policy, fl: real -> real)
    requires ValidateAst(node, deps).Ok? && Roomy(node, deps)
    requires
      var eager := Evaluate(node, bindings, deps, p, fl);
      eager.Ok? && eager.value.Valid?
    ensures
      var lazy := LazyEvaluate(node, bindings, deps, p, fl);
      lazy.Ok? && Refined(lazy.value, Evaluate(node, bindings, deps, p, fl).value)
  {
    if Hopeless(Progress(bindings, deps, {}, 0), p) {
      HopelessFails(node, Progress(bindings, deps, {}, 0), p, fl);
    }
    CheckExact(node, 1, 0, Names(deps));
    EvaluateIsEval(node, bindings, deps, p, fl);
    LazyIsShortCircuit(node, bindings, deps, p, fl);
    var w := World(AdmitAll(bindings, p).value, Names(deps), p, fl);
    hide Evaluate, LazyEvaluate, AdmitAll, ValidateAst, Roomy, Check, Short, Eval, Quantize, WithinLimits, Hopeless;
    EagerShort(node, w);
  }

  // ----- Branches that are not selected

  /** The same expression, except inside branches that evaluation does not select. */
  predicate SameSelected(a: Node, b: Node, w: World)
    decreases a
  {
    if !(a.Operation? && b.Operation?) then
      a == b
    else if a.op != b.op || a.sig != b.sig || |a.args| != |b.args| then
      false
    else if a.op != IF || |a.args| != 3 then
      AllSameSelected(a.args, b.args, w)
    else
      && SameSelected(a.args[0], b.args[0], w)
      && (Selects(a.args[0], w, true) ==> SameSelected(a.args[1], b.args[1], w))
      && (Selects(a.args[0], w, false) ==> SameSelected(a.args[2], b.args[2], w))
  }

  predicate AllSameSelected(a: seq<Node>, b: seq<Node>, w: World)
    requires |a| == |b|
    decreases a
  {
    a == [] || (SameSelected(a[0], b[0], w) && AllSameSelected(a[1..], b[1..], w))
  }

  /** The condition evaluates to `truth`. */
  predicate Selects(condition: Node, w: World, truth: bool) {
    var c := Short(condition, w);
    c.Ok? && c.value.value.Valid? && c.value.value.scalar == Truth(truth)
  }

  lemma {:induction false} SameSelectedShort(a: Node, b: Node, w: World)
    requires SameSelected(a, b, w)
    ensures Short(a, w) == Short(b, w)
    decreases a
  {
    hide CheckHead, Apply, Quantize, ArityFits, DependencyReason;
    if a.Operation? && b.Operation? {
      if a.op != IF || |a.args| != 3 {
        AllSameSelectedShort(a.args, b.args, w);
      } else {
        SameSelectedShort(a.args[0], b.args[0], w);
        if Selects(a.args[0], w, true) {
          SameSelectedShort(a.args[1], b.args[1], w);
        }
        if Selects(a.args[0], w, false) {
          SameSelectedShort(a.args[2], b.args[2], w);
        }
      }
    }
  }

  lemma {:induction false} AllSameSelectedShort(a: seq<Node>, b: seq<Node>, w: World)
    requires |a| == |b| && AllSameSelected(a, b, w)
    ensures ShortAll(a, w) == ShortAll(b, w)
    decreases a
  {
    hide Short;
    if a != [] {
      SameSelectedShort(a[0], b[0], w);
      AllSameSelectedShort(a[1..], b[1..], w);
    }
  }

  lemma {:induction false} SameSelectedConditions(a: Node, b: Node, w: World)
    requires SameSelected(a, b, w)
    ensures Conditions(a, w) == Conditions(b, w)
    decreases a
  {
    hide Short, Finish, SameSelected;
    SelectedParts(a, b, w);
    if a.Operation? && b.Operation? && a.op == b.op {
      if a.op != IF {
        AllSameSelectedConditions(a.args, b.args, w);
      } else if |a.args| == 3 {
        SameSelectedShort(a.args[0], b.args[0], w);
        SameSelectedConditions(a.args[0], b.args[0], w);
        SettledSelects(a.args[0], w);
        if Selects(a.args[0], w, true) {
          SameSelectedConditions(a.args[1], b.args[1], w);
        }
        if Selects(a.args[0], w, false) {
          SameSelectedConditions(a.args[2], b.args[2], w);
        }
      }
    }
  }

  /** What the two nodes share, one level down. */
  lemma SelectedParts(a: Node, b: Node, w: World)
    requires SameSelected(a, b, w)
    ensures !a.Operation? || !b.Operation? ==> !a.Operation? && !b.Operation?
    ensures a.Operation? ==> a.op == b.op && |a.args| == |b.args|
    ensures a.Operation? && (a.op != IF || |a.args| != 3) ==> AllSameSelected(a.args, b.args, w)
    ensures a.Operation? && a.op == IF && |a.args| == 3 ==>
      && SameSelected(a.args[0], b.args[0], w)
      && (Selects(a.args[0], w, true) ==> SameSelected(a.args[1], b.args[1], w))
      && (Selects(a.args[0], w, false) ==> SameSelected(a.args[2], b.args[2], w))
  {
  }

  /** A condition that settles to a truth selects by it. */
  lemma SettledSelects(condition: Node, w: World)
    ensures
      var settled := Settled(Short(condition, w), w.policy);
      settled.Ok? && settled.value.Valid? && settled.value.scalar.Truth? ==>
        Selects(condition, w, settled.value.scalar.b)
  {
    hide Short, Quantize;
  }

  lemma {:induction false} AllSameSelectedConditions(a: seq<Node>, b: seq<Node>, w: World)
    requires |a| == |b| && AllSameSelected(a, b, w)
    ensures AllConditions(a, w) == AllConditions(b, w)
    decreases a
  {
    hide Conditions, SameSelected;
    if a != [] {
      SameSelectedConditions(a[0], b[0], w);
      AllSameSelectedConditions(a[1..], b[1..], w);
    }
  }

  /** Replacing branches not selected by any accepted ones changes nothing in the result, error codes included. */
  lemma UnselectedBranchesDoNotMatter(a: Node, b: Node, bindings: seq<Binding>, deps: seq<Name>, p: Policy,
                                      fl: real -> real)
    requires ValidateAst(a, deps).Ok? && ValidateAst(b, deps).Ok? && Roomy(a, deps) && Roomy(b, deps)
    requires NamesOf(bindings) <= Names(deps) && AdmitAll(bindings, p).Ok?
    requires SameSelected(a, b, World(AdmitAll(bindings, p).value, Names(deps), p, fl))
    ensures LazyEvaluate(a, bindings, deps, p, fl) == LazyEvaluate(b, bindings, deps, p, fl)
  {
    hide LazyEvaluate, AdmitAll, Short, Conditions, Finish, SameSelected;
    LazyExact(a, bindings, deps, p, fl);
    LazyExact(b, bindings, deps, p, fl);
    SameSelectedShort(a, b, World(AdmitAll(bindings, p).value, Names(deps), p, fl));
    SameSelectedConditions(a, b, World(AdmitAll(bindings, p).value, Names(deps), p, fl));
  }

  // ----- Type soundness of the lazy evaluator

  lemma ConditionSound(cond: Node, s: Progress, p: Policy, fl: real -> real)
    requires Startable(cond, s, p, fl) && Small(cond) && Bound(cond, WorldOf(s, p, fl).env)
    ensures
      var c := Resolve(cond, s, p, fl);
      c.Ok? ==> SoundResult(Evaluate(c.value.0, c.value.1.bindings, c.value.1.deps, p, fl), cond.sig)
  {
    var c := Resolve(cond, s, p, fl);
    if c.Ok? {
      var (n, t) := c.value;
      ResolveShape(cond, s, p, fl);
      assert WithinLimits(n, 1, 0);
      EvaluateIsEval(n, t.bindings, t.deps, p, fl);
      AdmittedFits(t.bindings, p);
      hide Evaluate, Resolve, AdmitAll, WithinLimits, Small, WellTyped, Grows, Grounded, SoundResult, Finish;
      EvalSound(n, WorldOf(t, p, fl));
      FinishedSound(Eval(n, WorldOf(t, p, fl)), cond.sig, p);
    }
  }

  /** Where every variable has its declared signature, `resolve` only ever reports the policy's own limits. */
  lemma {:induction false} ResolveSound(node: Node, s: Progress, p: Policy, fl: real -> real)
    requires Startable(node, s, p, fl) && Small(node) && Bound(node, WorldOf(s, p, fl).env)
    ensures Resolve(node, s, p, fl).Err? ==> PolicyError(Resolve(node, s, p, fl).error)
    decreases node, 1
  {
    if node.Operation? {
      if node.op != IF {
        ResolveAllSound(node.args, s, p, fl);
      } else {
        ResolveIfSound(node, s, p, fl);
      }
    }
  }

  lemma {:induction false} ResolveIfSound(node: Node, s: Progress, p: Policy, fl: real -> real)
    requires Startable(node, s, p, fl) && Small(node) && Bound(node, WorldOf(s, p, fl).env)
    requires node.Operation? && node.op == IF
    ensures Resolve(node, s, p, fl).Err? ==> PolicyError(Resolve(node, s, p, fl).error)
    decreases node, 0
  {
    IfParts(node, s, p, fl);
    IfCondition(node, Names(s.deps));
    ReadyLater(s, p, Ifs(node), Ifs(node.args[0]));
    var cond := node.args[0];
    assert Startable(cond, s, p, fl);
    ResolveSound(cond, s, p, fl);
    ConditionSound(cond, s, p, fl);
    ResolveShape(cond, s, p, fl);
    hide Startable, Ready, Grows, AdmitAll, WellTyped, Grounded, GoodSig, Bound, Evaluate, PolicyError;
    var c := Resolve(cond, s, p, fl);
    if c.Ok? {
      var (n, t) := c.value;
      var condition := Evaluate(n, t.bindings, t.deps, p, fl);
      if condition.Ok? && condition.value.Valid? {
        BranchSound(node, s, n, t, condition.value, p, fl);
        var i := if condition.value.scalar.b then 1 else 2;
        ResolveSound(node.args[i], AfterCondition(t, condition.value.sources), p, fl);
      }
    }
  }

  lemma IfCondition(node: Node, deps: set<Name>)
    requires WellTyped(node, deps) && node.Operation? && node.op == IF && |node.args| == 3
    ensures node.args[0].sig.valueType == BOOLEAN
  {
    assert NodeSigs(node.args)[0] == node.args[0].sig;
  }

  lemma BranchSound(node: Node, s: Progress, c: Node, t: Progress, v: Value, p: Policy, fl: real -> real)
    requires Startable(node, s, p, fl) && Small(node) && Bound(node, WorldOf(s, p, fl).env)
    requires node.Operation? && node.op == IF && |node.args| == 3
    requires Shaped(node.args[0], s, c, t, p, fl)
    ensures forall i | 1 <= i < 3 ::
        && Startable(node.args[i], AfterCondition(t, v.sources), p, fl) && Small(node.args[i])
        && Bound(node.args[i], WorldOf(AfterCondition(t, v.sources), p, fl).env)
  {
    hide Shaped, Small, Bound, Startable, Grows, Grounded, WellTyped, AdmitAll;
    var u := AfterCondition(t, v.sources);
    Started(node, s, p, fl);
    SourcesDoNotMatter(node.args[0], s, c, t, v.sources, p, fl);
    ShapedWorlds(node.args[0], s, c, u, p, fl);
    forall i | 1 <= i < 3
      ensures Startable(node.args[i], u, p, fl) && Small(node.args[i])
      ensures Bound(node.args[i], WorldOf(u, p, fl).env)
    {
      BranchParts(node, s, p, fl, i);
      ShapedBranch(node, s, c, u, node.args[i], p, fl);
      BoundStable(node.args[i], WorldOf(s, p, fl), WorldOf(u, p, fl));
    }
  }

  lemma Started(node: Node, s: Progress, p: Policy, fl: real -> real)
    requires Startable(node, s, p, fl)
    ensures AdmitAll(s.bindings, p).Ok?
  {
  }

  lemma ShapedWorlds(node: Node, s: Progress, n: Node, t: Progress, p: Policy, fl: real -> real)
    requires AdmitAll(s.bindings, p).Ok? && Shaped(node, s, n, t, p, fl)
    ensures AdmitAll(t.bindings, p).Ok? && Grows(WorldOf(s, p, fl), WorldOf(t, p, fl))
  {
  }

  lemma BranchParts(node: Node, s: Progress, p: Policy, fl: real -> real, i: nat)
    requires Startable(node, s, p, fl) && Small(node) && Bound(node, WorldOf(s, p, fl).env)
    requires node.Operation? && node.op == IF && |node.args| == 3 && i < 3
    ensures Small(node.args[i]) && Bound(node.args[i], WorldOf(s, p, fl).env)
    ensures Grounded(node.args[i], WorldOf(s, p, fl))
  {
    IfParts(node, s, p, fl);
    hide Bound, Size, Height, WellTyped, Grounded, Ready, AdmitAll;
    assert Part(node.args[i], node, WorldOf(s, p, fl));
  }

  lemma {:induction false} ResolveAllSound(nodes: seq<Node>, s: Progress, p: Policy, fl: real -> real)
    requires AllStartable(nodes, s, p, fl) && Sizes(nodes) <= MAX_NODES && Heights(nodes) <= MAX_DEPTH
    requires AllBound(nodes, WorldOf(s, p, fl).env)
    ensures ResolveAll(nodes, s, p, fl).Err? ==> PolicyError(ResolveAll(nodes, s, p, fl).error)
    decreases nodes
  {
    if nodes != [] {
      ResolveSound(nodes[0], s, p, fl);
      ResolveShape(nodes[0], s, p, fl);
      var first := Resolve(nodes[0], s, p, fl);
      if first.Ok? {
        AllStartableAfter(nodes, s, first.value.0, first.value.1, p, fl);
        AllBoundStable(nodes[1..], WorldOf(s, p, fl), WorldOf(first.value.1, p, fl));
        ResolveAllSound(nodes[1..], first.value.1, p, fl);
      }
    }
  }

  /** Type soundness carries over: IF removal introduces no type, unit, currency, arity or size error. */
  lemma LazyTypeSoundness(node: Node, bindings: seq<Binding>, deps: seq<Name>, p: Policy, fl: real -> real)
    requires Admissible(node, bindings, deps, p) && Roomy(node, deps)
    ensures SoundResult(LazyEvaluate(node, bindings, deps, p, fl), node.sig)
  {
    var s := Progress(bindings, deps, {}, 0);
    StartIsRefinable(node, bindings, deps, p, fl);
    ResolveSound(node, s, p, fl);
    ConditionSound(node, s, p, fl);
    hide Refinable, Startable, Resolve, Evaluate, Roomy, Bound, GoodSig;
  }
}
