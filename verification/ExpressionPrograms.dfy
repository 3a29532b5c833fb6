/**
 The checker and the evaluators as programs: recursive walks that update a counter, and a front end that updates
 lists.
 */
module ExpressionPrograms {
  import opened Base
  import opened Rounding
  import opened Values
  import opened Expression
  import opened Eager
  import opened Lazy

  // ----- The static checker

  class AstChecker {
    const deps: set<Name>
    var count: nat

    constructor (deps: set<Name>)
      ensures this.deps == deps && count == 0
    {
      this.deps := deps;
      count := 0;
    }

    /** `walk` of `validate_expression_ast`. */
    method Walk(node: Node, depth: nat) returns (result: Result<(), FinanceError>)
      modifies this
      ensures
        match Check(node, depth, old(count), deps)
        case Ok(after) => result.Ok? && count == after
        case Err(e) => result == Err(e)
      decreases node
    {
      hide CheckHead, CheckLiteral, CheckOperation, CheckSig;
      count := count + 1;
      if count > MAX_NODES || depth > MAX_DEPTH {
        return Err(ExpressionLimitExceeded);
      }
      match node {
        case Literal(text, sig) =>
          var signed := CheckSig(sig);
          if signed.Err? {
            return signed;
          }
          return CheckLiteral(text, sig.valueType);
        case Variable(name, sig) =>
          if name !in deps {
            return Err(ExpressionDependencyUndeclared);
          }
          return CheckSig(sig);
        case Operation(op, sig, args) =>
          result := WalkOperation(op, sig, args, depth);
      }
    }

    method WalkOperation(op: Operator, sig: Sig, args: seq<Node>, depth: nat) returns (result: Result<(), FinanceError>)
      modifies this
      ensures
        var head, walked := CheckHead(op, |args|, sig), CheckAll(args, depth + 1, old(count), deps);
        if head.Err? then result == head
        else if walked.Err? then result == Err(walked.error)
        else if result.Ok? then CheckOperation(op, NodeSigs(args), sig).Ok? && count == walked.value
        else result == CheckOperation(op, NodeSigs(args), sig)
      decreases args
    {
      hide CheckOperation, CheckSig;
      var head := CheckHead(op, |args|, sig);
      if head.Err? {
        return head;
      }
      for n := 0 to |args|
        invariant CheckAll(args, depth + 1, old(count), deps) == CheckAll(args[n..], depth + 1, count, deps)
      {
        assert args[n..][0] == args[n] && args[n..][1..] == args[n + 1..];
        var walked := Walk(args[n], depth + 1);
        if walked.Err? {
          return walked;
        }
      }
      assert args[|args|..] == [];
      return CheckOperation(op, NodeSigs(args), sig);
    }
  }

  /** `validate_expression_ast`. */
  method ValidateExpressionAst(node: Node, deps: seq<Name>) returns (result: Result<(), FinanceError>)
    ensures result.Ok? <==> ValidateAst(node, deps).Ok?
    ensures result.Err? ==> result == ValidateAst(node, deps)
  {
    var names := CheckDependencies(deps);
    if names.Err? {
      return Err(names.error);
    }
    var checker := new AstChecker(names.value);
    result := checker.Walk(node, 1);
  }

  // ----- The eager evaluator

  /** The ADD loop. */
  method AddUp(xs: seq<Scalar>, fl: real -> real) returns (sum: Result<Scalar, FinanceError>)
    requires xs != []
    ensures sum == Total(xs, fl)
  {
    var total := xs[0];
    for n := 1 to |xs|
      invariant Total(xs[..n], fl) == Ok(total)
    {
      assert xs[..n + 1][..n] == xs[..n] && xs[..n + 1][n] == xs[n];
      var next := Plus(total, xs[n], fl);
      if next.Err? {
        TotalFails(xs, n + 1, fl);
        return next;
      }
      total := next.value;
    }
    assert xs[..|xs|] == xs;
    return Ok(total);
  }

  lemma {:induction false} TotalFails(xs: seq<Scalar>, n: nat, fl: real -> real)
    requires 0 < n <= |xs| && Total(xs[..n], fl).Err?
    ensures Total(xs, fl) == Total(xs[..n], fl)
    decreases |xs| - n
  {
    if n < |xs| {
      assert xs[..n + 1][..n] == xs[..n];
      TotalFails(xs, n + 1, fl);
    } else {
      assert xs[..n] == xs;
    }
  }

  class EagerEvaluator {
    const world: World
    var count: nat

    constructor (world: World)
      ensures this.world == world && count == 0
    {
      this.world := world;
      count := 0;
    }

    /** `walk` of `evaluate_expression`. */
    method Walk(node: Node, depth: nat) returns (result: Result<Value, FinanceError>)
      modifies this
      ensures
        match Eager.Walk(node, depth, old(count), world)
        case Ok((v, after)) => result == Ok(v) && count == after
        case Err(e) => result == Err(e)
      decreases node
    {
      hide EvalLiteral, EvalVariable, CheckHead, Apply, ArityFits;
      count := count + 1;
      if count > MAX_NODES || depth > MAX_DEPTH {
        return Err(ExpressionLimitExceeded);
      }
      match node {
        case Literal(text, sig) =>
          return EvalLiteral(text, sig, world.policy);
        case Variable(name, sig) =>
          return EvalVariable(name, sig, world);
        case Operation(op, sig, args) =>
          result := WalkOperation(op, sig, args, depth);
      }
    }

    method WalkOperation(op: Operator, sig: Sig, args: seq<Node>, depth: nat)
      returns (result: Result<Value, FinanceError>)
      modifies this
      ensures
        var head, walked := CheckHead(op, |args|, sig), Eager.WalkAll(args, depth + 1, old(count), world);
        if head.Err? then result == Err(head.error)
        else if walked.Err? then result == Err(walked.error)
        else result == Apply(op, sig, walked.value.0, world.fl) && (result.Ok? ==> count == walked.value.1)
      decreases args
    {
      hide Apply, CheckSig;
      var head := CheckHead(op, |args|, sig);
      if head.Err? {
        return Err(head.error);
      }
      var values: seq<Value> := [];
      assert args[0..] == args;
      PrependNothing(Eager.WalkAll(args, depth + 1, count, world));
      for n := 0 to |args|
        invariant |values| == n
        invariant Eager.WalkAll(args, depth + 1, old(count), world)
          == Prepend(values, Eager.WalkAll(args[n..], depth + 1, count, world))
      {
        assert args[n..][0] == args[n] && args[n..][1..] == args[n + 1..];
        var walked := Walk(args[n], depth + 1);
        if walked.Err? {
          return walked;
        }
        PrependOne(values, walked.value, Eager.WalkAll(args[n + 1..], depth + 1, count, world));
        values := values + [walked.value];
      }
      assert args[|args|..] == [] && values + [] == values;
      return Apply(op, sig, values, world.fl);
    }
  }

  function Prepend(values: seq<Value>, r: Result<(seq<Value>, nat), FinanceError>)
    : Result<(seq<Value>, nat), FinanceError>
  {
    match r
    case Ok((rest, count)) => Ok((values + rest, count))
    case Err(e) => Err(e)
  }

  lemma PrependNothing(r: Result<(seq<Value>, nat), FinanceError>)
    ensures Prepend([], r) == r
  {
    if r.Ok? {
      assert [] + r.value.0 == r.value.0;
    }
  }

  lemma PrependOne(values: seq<Value>, v: Value, r: Result<(seq<Value>, nat), FinanceError>)
    ensures Prepend(values + [v], r) == Prepend(values, Prepend([v], r))
  {
    if r.Ok? {
      assert values + [v] + r.value.0 == values + ([v] + r.value.0);
    }
  }

  // ----- The lazy front end

  class LazyEvaluator {
    const policy: Policy
    const fl: real -> real
    var bindings: seq<Binding>
    var deps: seq<Name>
    var sources: set<Name>
    var counter: nat

    function Contents(): Progress
      reads this
    {
      Progress(bindings, deps, sources, counter)
    }

    constructor (bindings: seq<Binding>, deps: seq<Name>, policy: Policy, fl: real -> real)
      ensures this.policy == policy && this.fl == fl && Contents() == Progress(bindings, deps, {}, 0)
    {
      this.policy, this.fl := policy, fl;
      this.bindings, this.deps, this.sources, this.counter := bindings, deps, {}, 0;
    }

    method RegisterNonvalid(sig: Sig, state: Absence, reason: string, from: set<Name>) returns (node: Node)
      modifies this
      ensures (node, Contents()) == Register(old(Contents()), sig, state, reason, from)
    {
      var name := IfState(counter);
      counter := counter + 1;
      deps := deps + [name];
      bindings := bindings + [Binding(name, Missing(state, sig, DependencyReason(state, reason), Texts(from)))];
      return Variable(name, sig);
    }

    method ResolveNode(node: Node) returns (result: Result<Node, FinanceError>)
      modifies this
      ensures
        match Resolve(node, old(Contents()), policy, fl)
        case Ok((n, after)) => result == Ok(n) && Contents() == after
        case Err(e) => result == Err(e)
      decreases node, 1
    {
      if !node.Operation? {
        return Ok(node);
      }
      if node.op != IF {
        var args := ResolveArguments(node.args);
        match args {
          case Ok(resolved) => return Ok(Operation(node.op, node.sig, resolved));
          case Err(e) => return Err(e);
        }
      }
      result := ResolveIf(node);
    }

    method ResolveArguments(args: seq<Node>) returns (result: Result<seq<Node>, FinanceError>)
      modifies this
      ensures
        match ResolveAll(args, old(Contents()), policy, fl)
        case Ok((ns, after)) => result == Ok(ns) && Contents() == after
        case Err(e) => result == Err(e)
      decreases args
    {
      hide Resolve;
      var resolved: seq<Node> := [];
      assert args[0..] == args;
      JoinedNothing(ResolveAll(args, Contents(), policy, fl));
      for n := 0 to |args|
        invariant ResolveAll(args, old(Contents()), policy, fl) ==
          Joined(resolved, ResolveAll(args[n..], Contents(), policy, fl))
      {
        assert args[n..][0] == args[n] && args[n..][1..] == args[n + 1..];
        var one := ResolveNode(args[n]);
        if one.Err? {
          return Err(one.error);
        }
        JoinedOne(resolved, one.value, ResolveAll(args[n + 1..], Contents(), policy, fl));
        resolved := resolved + [one.value];
      }
      assert args[|args|..] == [] && resolved + [] == resolved;
      return Ok(resolved);
    }

    method ResolveIf(node: Node) returns (result: Result<Node, FinanceError>)
      requires node.Operation? && node.op == IF
      modifies this
      ensures
        match Resolve(node, old(Contents()), policy, fl)
        case Ok((n, after)) => result == Ok(n) && Contents() == after
        case Err(e) => result == Err(e)
      decreases node, 0
    {
      hide Evaluate;
      if |node.args| != 3 {
        return Err(ExpressionArityInvalid);
      }
      var resolved := ResolveNode(node.args[0]);
      if resolved.Err? {
        return resolved;
      }
      var condition := Evaluate(resolved.value, bindings, deps, policy, fl);
      if condition.Err? {
        return Err(condition.error);
      }
      var v := condition.value;
      sources := sources + Strip(v.sources);
      if v.NonValid? {
        var made := RegisterNonvalid(node.sig, v.state, v.reason, v.sources);
        return Ok(made);
      }
      if v.sig.valueType != BOOLEAN || !v.scalar.Truth? {
        return Err(ExpressionTypeMismatch);
      }
      if v.scalar.b {
        result := ResolveNode(node.args[1]);
      } else {
        result := ResolveNode(node.args[2]);
      }
    }
  }

  function Joined(before: seq<Node>, r: Result<(seq<Node>, Progress), FinanceError>)
    : Result<(seq<Node>, Progress), FinanceError>
  {
    match r
    case Ok((rest, after)) => Ok((before + rest, after))
    case Err(e) => Err(e)
  }

  lemma JoinedNothing(r: Result<(seq<Node>, Progress), FinanceError>)
    ensures Joined([], r) == r
  {
    if r.Ok? {
      assert [] + r.value.0 == r.value.0;
    }
  }

  lemma JoinedOne(before: seq<Node>, n: Node, r: Result<(seq<Node>, Progress), FinanceError>)
    ensures Joined(before + [n], r) == Joined(before, Joined([n], r))
  {
    if r.Ok? {
      assert before + [n] + r.value.0 == before + ([n] + r.value.0);
    }
  }

  /** The lazy `evaluate_expression`. */
  method EvaluateExpression(node: Node, bindings: seq<Binding>, deps: seq<Name>, p: Policy, fl: real -> real)
    returns (result: Result<Value, FinanceError>)
    ensures result == LazyEvaluate(node, bindings, deps, p, fl)
  {
    var checked := ValidateExpressionAst(node, deps);
    if checked.Err? {
      return Err(checked.error);
    }
    hide ValidateAst, Evaluate, Resolve;
    var lazy := new LazyEvaluator(bindings, deps, p, fl);
    var transformed := lazy.ResolveNode(node);
    if transformed.Err? {
      return Err(transformed.error);
    }
    var v := Evaluate(transformed.value, lazy.bindings, lazy.deps, p, fl);
    if v.Err? {
      return v;
    }
    return Ok(WithSources(v.value, Strip(v.value.sources) + lazy.sources));
  }
}
