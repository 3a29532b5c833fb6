/** The lazy front end: it removes the IF branches that are not selected, then evaluates eagerly. */
module Lazy {
  import opened Base
  import opened Rounding
  import opened Values
  import opened Expression
  import opened Eager

  // ----- The program

  /** What `resolve` updates as it goes. */
  datatype Progress = Progress(bindings: seq<Binding>, deps: seq<Name>, sources: set<Name>, counter: nat)

  /** Sources without the made-up ones. */
  function Strip(names: set<Name>): set<Name> {
    set n | n in names && n.Given?
  }

  function Texts(names: set<Name>): set<string> {
    set n | n in names && n.Given? :: n.text
  }

  /** `register_nonvalid`: a made-up variable stands for an IF whose condition has no value. */
  function Register(s: Progress, sig: Sig, state: Absence, reason: string, sources: set<Name>): (Node, Progress) {
    var name := IfState(s.counter);
    var input := Missing(state, sig, DependencyReason(state, reason), Texts(sources));
    (Variable(name, sig), Progress(s.bindings + [Binding(name, input)], s.deps + [name], s.sources, s.counter + 1))
  }

  function Resolve(node: Node, s: Progress, p: Policy, fl: real -> real): Result<(Node, Progress), FinanceError>
    decreases node
  {
    if !node.Operation? then
      Ok((node, s))
    else if node.op != IF then
      var r :- ResolveAll(node.args, s, p, fl);
      Ok((Operation(node.op, node.sig, r.0), r.1))
    else
      var _ :- Need(|node.args| == 3, ExpressionArityInvalid);
      var c :- Resolve(node.args[0], s, p, fl);
      var condition :- Evaluate(c.0, c.1.bindings, c.1.deps, p, fl);
      var t := c.1.(sources := c.1.sources + Strip(condition.sources));
      if condition.NonValid? then
        Ok(Register(t, node.sig, condition.state, condition.reason, condition.sources))
      else
        var _ :- Need(condition.sig.valueType == BOOLEAN && condition.scalar.Truth?, ExpressionTypeMismatch);
        Resolve(if condition.scalar.b then node.args[1] else node.args[2], t, p, fl)
  }

  function ResolveAll(nodes: seq<Node>, s: Progress, p: Policy, fl: real -> real)
    : (r: Result<(seq<Node>, Progress), FinanceError>)
    ensures r.Ok? ==> |r.value.0| == |nodes|
    decreases nodes
  {
    if nodes == [] then
      Ok(([], s))
    else
      var first :- Resolve(nodes[0], s, p, fl);
      var rest :- ResolveAll(nodes[1..], first.1, p, fl);
      Ok(([first.0] + rest.0, rest.1))
  }

  /** The lazy `evaluate_expression`. */
  function LazyEvaluate(node: Node, bindings: seq<Binding>, deps: seq<Name>, p: Policy, fl: real -> real)
    : Result<Value, FinanceError>
  {
    var _ :- ValidateAst(node, deps);
    var r :- Resolve(node, Progress(bindings, deps, {}, 0), p, fl);
    var v :- Evaluate(r.0, r.1.bindings, r.1.deps, p, fl);
    Ok(WithSources(v, Strip(v.sources) + r.1.sources))
  }

  function WithSources(v: Value, sources: set<Name>): Value {
    match v
    case Valid(x, sig, _) => Valid(x, sig, sources)
    case NonValid(s, sig, reason, _) => NonValid(s, sig, reason, sources)
  }

  // ----- Short-circuit evaluation

  /** A value, and the sources of the conditions that were evaluated to reach it. */
  datatype Seen = Seen(value: Value, conditions: set<Name>)

  /** A conditional evaluates its condition and then the branch it selects, nothing else. */
  function Short(node: Node, w: World): Result<Seen, FinanceError>
    decreases node
  {
    if !node.Operation? then
      var v :- Eval(node, w);
      Ok(Seen(v, {}))
    else if node.op != IF then
      var _ :- CheckHead(node.op, |node.args|, node.sig);
      var r :- ShortAll(node.args, w);
      var v :- Apply(node.op, node.sig, r.0, w.fl);
      Ok(Seen(v, r.1))
    else
      var _ :- Need(|node.args| == 3, ExpressionArityInvalid);
      var c :- Short(node.args[0], w);
      var condition :- Finish(c.value, w.policy);
      var conditions := c.conditions + condition.sources;
      if condition.NonValid? then
        Ok(Seen(NonValid(condition.state, node.sig, DependencyReason(condition.state, condition.reason),
                         condition.sources), conditions))
      else
        var _ :- Need(condition.sig.valueType == BOOLEAN && condition.scalar.Truth?, ExpressionTypeMismatch);
        var branch :- Short(if condition.scalar.b then node.args[1] else node.args[2], w);
        Ok(Seen(branch.value, conditions + branch.conditions))
  }

  function ShortAll(nodes: seq<Node>, w: World): (r: Result<(seq<Value>, set<Name>), FinanceError>)
    ensures r.Ok? ==> |r.value.0| == |nodes|
    decreases nodes
  {
    if nodes == [] then
      Ok(([], {}))
    else
      var first :- Short(nodes[0], w);
      var rest :- ShortAll(nodes[1..], w);
      Ok(([first.value] + rest.0, first.conditions + rest.1))
  }

  /**
   What goes wrong while branches are being removed: the conditions that decide something are
   evaluated first, in order, before any other part of the expression is.
   */
  function Conditions(node: Node, w: World): Result<(), FinanceError>
    decreases node
  {
    if !node.Operation? then
      Ok(())
    else if node.op != IF then
      AllConditions(node.args, w)
    else
      var _ :- Need(|node.args| == 3, ExpressionArityInvalid);
      var _ :- Conditions(node.args[0], w);
      var c :- Short(node.args[0], w);
      var condition :- Finish(c.value, w.policy);
      if condition.NonValid? then
        Ok(())
      else
        var _ :- Need(condition.sig.valueType == BOOLEAN && condition.scalar.Truth?, ExpressionTypeMismatch);
        Conditions(if condition.scalar.b then node.args[1] else node.args[2], w)
  }

  function AllConditions(nodes: seq<Node>, w: World): Result<(), FinanceError>
    decreases nodes
  {
    if nodes == [] then
      Ok(())
    else
      var _ :- Conditions(nodes[0], w);
      AllConditions(nodes[1..], w)
  }

  /** A condition that fails makes short-circuit evaluation fail, if perhaps for an earlier reason. */
  lemma {:induction false} ConditionsStop(node: Node, w: World)
    requires Conditions(node, w).Err?
    ensures Short(node, w).Err?
    decreases node
  {
    hide Apply, Finish, CheckHead;
    if node.op != IF {
      AllConditionsStop(node.args, w);
    } else if |node.args| == 3 {
      if Conditions(node.args[0], w).Err? {
        ConditionsStop(node.args[0], w);
      } else if Short(node.args[0], w).Ok? {
        var condition := Finish(Short(node.args[0], w).value.value, w.policy);
        if condition.Ok? && condition.value.Valid? && condition.value.scalar.Truth? {
          var branch := if condition.value.scalar.b then node.args[1] else node.args[2];
          if Conditions(branch, w).Err? {
            ConditionsStop(branch, w);
          }
        }
      }
    }
  }

  lemma {:induction false} AllConditionsStop(nodes: seq<Node>, w: World)
    requires AllConditions(nodes, w).Err?
    ensures ShortAll(nodes, w).Err?
    decreases nodes
  {
    if Conditions(nodes[0], w).Err? {
      ConditionsStop(nodes[0], w);
    } else {
      AllConditionsStop(nodes[1..], w);
    }
  }

  // ----- Values without made-up sources

  function Bare(v: Value): Value {
    WithSources(v, Strip(v.sources))
  }

  function Bares(values: seq<Value>): (r: seq<Value>) {
    seq(|values|, i requires 0 <= i < |values| => Bare(values[i]))
  }

  lemma BaresTail(values: seq<Value>)
    requires values != []
    ensures Bares(values) == [Bare(values[0])] + Bares(values[1..])
  {
  }

  lemma {:induction false} BareSources(values: seq<Value>)
    ensures AllSources(Bares(values)) == Strip(AllSources(values))
  {
    if values != [] {
      BaresTail(values);
      BareSources(values[1..]);
    }
  }

  lemma {:induction false} BareMatching(values: seq<Value>, s: Absence)
    ensures Matching(Bares(values), s) == Bares(Matching(values, s))
  {
    if values != [] {
      BaresTail(values);
      BareMatching(values[1..], s);
      var rest := Matching(values[1..], s);
      assert ([values[0]] + rest)[1..] == rest;
      BaresTail([values[0]] + rest);
    }
  }

  lemma {:induction false} BareReason(matches: seq<Value>)
    requires matches != []
    requires (forall v :: v in matches ==> v.NonValid?) && (forall v :: v in Bares(matches) ==> v.NonValid?)
    ensures LeastReason(Bares(matches)) == LeastReason(matches)
  {
    var rest := matches[1..];
    assert Bares(matches)[1..] == Bares(rest) && Bares(matches)[0].reason == matches[0].reason;
    if |matches| > 1 {
      hide Bares;
      BareReason(rest);
    }
  }

  lemma BareReport(values: seq<Value>, s: Absence, sig: Sig)
    requires Matching(values, s) != []
    ensures Matching(Bares(values), s) != []
    ensures Report(Bares(values), s, sig) == Bare(Report(values, s, sig))
  {
    BareMatching(values, s);
    BareReason(Matching(values, s));
    BareSources(Matching(values, s));
  }

  lemma BareWinner(values: seq<Value>)
    ensures Winner(Bares(values)) == Winner(values)
  {
    BareMatching(values, CONFLICT);
    BareMatching(values, BLOCKED);
    BareMatching(values, UNAVAILABLE);
    BareMatching(values, EMPTY);
    hide Matching, Precedence;
  }

  lemma BarePropagate(values: seq<Value>, sig: Sig)
    ensures Propagate(values, sig).None? <==> Propagate(Bares(values), sig).None?
    ensures Propagate(values, sig).Some? ==> Propagate(Bares(values), sig) == Some(Bare(Propagate(values, sig).value))
  {
    BareWinner(values);
    if Winner(values).Some? {
      BareReport(values, Winner(values).value, sig);
    }
    hide Report, Winner, Bares;
  }

  function BareResult(r: Result<Value, FinanceError>): Result<Value, FinanceError> {
    match r
    case Ok(v) => Ok(Bare(v))
    case Err(e) => Err(e)
  }

  lemma BareCompute(op: Operator, sig: Sig, values: seq<Value>, fl: real -> real)
    requires ArityFits(op, |values|) && AllValid(values) && AllValid(Bares(values))
    ensures Compute(op, sig, Bares(values), fl) == BareResult(Compute(op, sig, values, fl))
  {
    hide Combine;
    assert Scalars(Bares(values)) == Scalars(values) by {
      forall i | 0 <= i < |values|
        ensures Bares(values)[i].Valid? && Bares(values)[i].scalar == values[i].scalar
      {
        assert values[i] in values;
      }
    }
    BareSources(values);
  }

  /** An operation treats sources as labels: dropping the made-up ones before or after is the same. */
  lemma BareApply(op: Operator, sig: Sig, values: seq<Value>, fl: real -> real)
    requires ArityFits(op, |values|)
    ensures Apply(op, sig, Bares(values), fl) == BareResult(Apply(op, sig, values, fl))
  {
    assert Sigs(Bares(values)) == Sigs(values);
    BarePropagate(values, sig);
    if Propagate(values, sig).None? {
      BareCompute(op, sig, values, fl);
    }
    hide Compute, CheckOperation, Propagate, Bares;
  }
}
