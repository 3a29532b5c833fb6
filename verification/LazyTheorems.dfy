/** The lazy evaluator computes the short-circuit semantics. */
module LazyTheorems {
  import opened Base
  import opened Rounding
  import opened Values
  import opened Expression
  import opened Eager
  import opened Soundness
  import opened Lazy
  import opened LazyShape

  // ----- Callers' variables

  /** No name and no source is a made-up one. */
  ghost predicate Clean(env: Env) {
    forall name | name in env :: name.Given? && Bare(env[name]) == env[name]
  }

  lemma {:induction false} AdmittedClean(bindings: seq<Binding>, p: Policy)
    requires AdmitAll(bindings, p).Ok? && forall name | name in NamesOf(bindings) :: name.Given?
    ensures Clean(AdmitAll(bindings, p).value)
  {
    if bindings != [] {
      var init, b := bindings[..|bindings| - 1], bindings[|bindings| - 1];
      assert NamesOf(init) <= NamesOf(bindings);
      AdmittedClean(init, p);
      assert b in bindings && b.name in NamesOf(bindings);
      AdmitClean(b, p);
    }
  }

  lemma AdmitClean(b: Binding, p: Policy)
    requires b.name.Given? && Admit(b, p).Ok?
    ensures Bare(Admit(b, p).value) == Admit(b, p).value
  {
    var v := Admit(b, p).value;
    assert v.sources == SourceNames(b.input.sources) + {b.name} by { hide CheckSig, AdmitScalar; }
    assert Strip(v.sources) == v.sources;
  }

  lemma CleanLeaf(node: Node, w: World)
    requires !node.Operation? && Clean(w.env)
    ensures BareResult(Eval(node, w)) == Eval(node, w)
  {
    hide CheckSig, InputDecimal;
    assert Strip({}) == {};
  }

  lemma BareFinish(v: Value, p: Policy)
    ensures Finish(Bare(v), p) == BareResult(Finish(v, p))
  {
    hide Quantize;
  }

  // ----- Refinement

  /** What evaluating the resolved expression gives, without made-up sources. */
  function Outcome(r: Result<(Node, Progress), FinanceError>, p: Policy, fl: real -> real)
    : Result<Value, FinanceError>
  {
    var resolved :- r;
    var _ :- AdmitAll(resolved.1.bindings, p);
    BareResult(Eval(resolved.0, WorldOf(resolved.1, p, fl)))
  }

  function OutcomeAll(r: Result<(seq<Node>, Progress), FinanceError>, p: Policy, fl: real -> real)
    : Result<seq<Value>, FinanceError>
  {
    var resolved :- r;
    var _ :- AdmitAll(resolved.1.bindings, p);
    var values :- EvalAll(resolved.0, WorldOf(resolved.1, p, fl));
    Ok(Bares(values))
  }

  /**
   Resolving fails exactly when a condition does, with its error. Otherwise evaluating what is left
   gives what short-circuit evaluation gives: the same error, or the same value and the same
   sources of conditions.
   */
  predicate Agrees(conditions: Result<(), FinanceError>, short: Result<Seen, FinanceError>, s: Progress,
                   r: Result<(Node, Progress), FinanceError>, p: Policy, fl: real -> real)
  {
    match r
    case Err(e) => conditions == Err(e)
    case Ok(resolved) =>
      && conditions.Ok?
      && match short
         case Err(e) => Outcome(r, p, fl) == Err(e)
         case Ok(seen) => Outcome(r, p, fl) == Ok(seen.value) && resolved.1.sources == s.sources + seen.conditions
  }

  predicate AllAgree(conditions: Result<(), FinanceError>, short: Result<(seq<Value>, set<Name>), FinanceError>,
                     s: Progress, r: Result<(seq<Node>, Progress), FinanceError>, p: Policy, fl: real -> real)
  {
    match r
    case Err(e) => conditions == Err(e)
    case Ok(resolved) =>
      && conditions.Ok?
      && match short
         case Err(e) => OutcomeAll(r, p, fl) == Err(e)
         case Ok(seen) => OutcomeAll(r, p, fl) == Ok(seen.0) && resolved.1.sources == s.sources + seen.1
  }

  /** `s` has grown out of the world `w` of a caller. */
  ghost predicate From(w: World, s: Progress, p: Policy, fl: real -> real) {
    && AdmitAll(s.bindings, p).Ok?
    && Grows(w, WorldOf(s, p, fl))
    && Clean(w.env)
  }

  lemma RefinesLeaf(node: Node, w: World, s: Progress, p: Policy, fl: real -> real)
    requires !node.Operation? && Grounded(node, w) && From(w, s, p, fl)
    ensures Agrees(Conditions(node, w), Short(node, w), s, Resolve(node, s, p, fl), p, fl)
  {
    EvalStable(node, w, WorldOf(s, p, fl));
    CleanLeaf(node, w);
    hide Eval, Grows, Clean, AdmitAll, BareResult;
    assert s.sources + {} == s.sources;
  }

  lemma RefinesOperation(node: Node, w: World, s: Progress, p: Policy, fl: real -> real)
    requires node.Operation? && node.op != IF && w.fl == fl
    requires AllAgree(AllConditions(node.args, w), ShortAll(node.args, w), s, ResolveAll(node.args, s, p, fl), p, fl)
    requires
      var r := ResolveAll(node.args, s, p, fl);
      r.Ok? ==> AdmitAll(r.value.1.bindings, p).Ok?
    ensures Agrees(Conditions(node, w), Short(node, w), s, Resolve(node, s, p, fl), p, fl)
  {
    hide AdmitAll, Apply, ArityFits, Bares, Bare;
    var r := ResolveAll(node.args, s, p, fl);
    if CheckHead(node.op, |node.args|, node.sig).Ok? && r.Ok? {
      var values := EvalAll(r.value.0, WorldOf(r.value.1, p, fl));
      if values.Ok? {
        BareApply(node.op, node.sig, values.value, fl);
      }
    }
  }

  /** The element resolved first keeps its value while the rest is resolved. */
  lemma RefinesCons(nodes: seq<Node>, w: World, s: Progress, p: Policy, fl: real -> real)
    requires nodes != [] && AllStartable(nodes, s, p, fl)
    requires Agrees(Conditions(nodes[0], w), Short(nodes[0], w), s, Resolve(nodes[0], s, p, fl), p, fl)
    requires
      var first := Resolve(nodes[0], s, p, fl);
      first.Ok? ==>
        AllAgree(AllConditions(nodes[1..], w), ShortAll(nodes[1..], w), first.value.1,
                 ResolveAll(nodes[1..], first.value.1, p, fl), p, fl)
    ensures AllAgree(AllConditions(nodes, w), ShortAll(nodes, w), s, ResolveAll(nodes, s, p, fl), p, fl)
  {
    var first := Resolve(nodes[0], s, p, fl);
    if first.Ok? {
      var (n, t) := first.value;
      ResolveShape(nodes[0], s, p, fl);
      AllStartableAfter(nodes, s, n, t, p, fl);
      ResolveAllShape(nodes[1..], t, p, fl);
      var rest := ResolveAll(nodes[1..], t, p, fl);
      if rest.Ok? {
        hide Startable, AllStartable, Ready, Grows, AdmitAll, Eval, EvalAll, Short, ShortAll, Resolve, ResolveAll,
          Bares, Bare;
        ConsOutcome(n, t, rest.value.0, rest.value.1, p, fl);
      }
    }
  }

  lemma ConsOutcome(n: Node, t: Progress, ns: seq<Node>, u: Progress, p: Policy, fl: real -> real)
    requires AdmitAll(t.bindings, p).Ok? && AdmitAll(u.bindings, p).Ok?
    requires Grounded(n, WorldOf(t, p, fl)) && Grows(WorldOf(t, p, fl), WorldOf(u, p, fl))
    ensures
      var first, rest := Outcome(Ok((n, t)), p, fl), OutcomeAll(Ok((ns, u)), p, fl);
      var all := OutcomeAll(Ok(([n] + ns, u)), p, fl);
      all == if first.Err? then Err(first.error) else if rest.Err? then Err(rest.error)
             else Ok([first.value] + rest.value)
  {
    EvalStable(n, WorldOf(t, p, fl), WorldOf(u, p, fl));
    assert ([n] + ns)[1..] == ns;
    var wu := WorldOf(u, p, fl);
    hide Grows, AdmitAll, Eval, Bare;
    var values := EvalAll([n] + ns, wu);
    if values.Ok? {
      BaresTail(values.value);
      assert values.value[1..] == EvalAll(ns, wu).value;
    }
  }

  predicate Small(node: Node) {
    Size(node) <= MAX_NODES && Height(node) <= MAX_DEPTH
  }

  /** Short-circuit evaluation of a condition, rounded. */
  function Settled(short: Result<Seen, FinanceError>, p: Policy): Result<Value, FinanceError> {
    var seen :- short;
    Finish(seen.value, p)
  }

  /** The eager evaluation of the resolved condition, in terms of the short-circuit one. */
  lemma ConditionEvaluates(cond: Node, w: World, s: Progress, p: Policy, fl: real -> real)
    requires Startable(cond, s, p, fl) && Small(cond) && w.policy == p
    requires Agrees(Conditions(cond, w), Short(cond, w), s, Resolve(cond, s, p, fl), p, fl)
    ensures
      var c := Resolve(cond, s, p, fl);
      c.Ok? ==>
        var v := Evaluate(c.value.0, c.value.1.bindings, c.value.1.deps, p, fl);
        && Settled(Short(cond, w), p) == BareResult(v)
        && (v.Ok? ==> c.value.1.sources == s.sources + Short(cond, w).value.conditions)
  {
    var c := Resolve(cond, s, p, fl);
    if c.Ok? {
      var (n, t) := c.value;
      ResolveShape(cond, s, p, fl);
      assert WithinLimits(n, 1, 0);
      EvaluateIsEval(n, t.bindings, t.deps, p, fl);
      var r := Eval(n, WorldOf(t, p, fl));
      hide Startable, Shaped, Eval, Evaluate, Short, Resolve, AdmitAll, Finish, WithinLimits, Small, Bare;
      if r.Ok? {
        BareFinish(r.value, p);
      }
    }
  }

  lemma RoomForState(node: Node, s: Progress, c: Node, t: Progress, sources: set<Name>, p: Policy, fl: real -> real)
    requires Startable(node, s, p, fl) && node.Operation? && node.op == IF
    requires |node.args| == 3 && Shaped(node.args[0], s, c, t, p, fl)
    ensures Ready(AfterCondition(t, sources), p, 1) && GoodSig(node.sig)
  {
    hide AdmitAll, Grows, WellTyped, Grounded, GoodSig;
    IfParts(node, s, p, fl);
    SourcesDoNotMatter(node.args[0], s, c, t, sources, p, fl);
    ReadyLater(AfterCondition(t, sources), p, 0, 1);
  }

  /** The state after a condition that evaluated to `v`. */
  lemma RefinesNothing(node: Node, s: Progress, c: Node, t: Progress, v: Value, conditions: set<Name>, p: Policy,
                       fl: real -> real)
    requires Startable(node, s, p, fl) && node.Operation? && node.op == IF && |node.args| == 3
    requires Shaped(node.args[0], s, c, t, p, fl) && v.NonValid? && t.sources == s.sources + conditions
    ensures
      var u := AfterCondition(t, v.sources);
      var value := NonValid(v.state, node.sig, DependencyReason(v.state, v.reason), Strip(v.sources));
      Agrees(Ok(()), Ok(Seen(value, conditions + Strip(v.sources))), s,
             Ok(Register(u, node.sig, v.state, v.reason, v.sources)), p, fl)
  {
    hide Startable, Shaped, Eval, Grows, WellTyped, Grounded, GoodSig, DependencyReason;
    var u := AfterCondition(t, v.sources);
    RoomForState(node, s, c, t, v.sources, p, fl);
    RegisterReady(u, node.sig, v.state, v.reason, v.sources, p, fl);
    hide AdmitAll;
    assert Strip(Strip(v.sources) + {IfState(u.counter)}) == Strip(v.sources);
    assert s.sources + conditions + Strip(v.sources) == s.sources + (conditions + Strip(v.sources));
  }

  /** What the induction needs at a node. */
  ghost predicate Refinable(node: Node, w: World, s: Progress, p: Policy, fl: real -> real) {
    Startable(node, s, p, fl) && Small(node) && From(w, s, p, fl) && Grounded(node, w)
  }

  ghost predicate AllRefinable(nodes: seq<Node>, w: World, s: Progress, p: Policy, fl: real -> real) {
    && AllStartable(nodes, s, p, fl) && From(w, s, p, fl) && AllGrounded(nodes, w)
    && Sizes(nodes) <= MAX_NODES && Heights(nodes) <= MAX_DEPTH
  }

  lemma FromLater(w: World, s: Progress, t: Progress, p: Policy, fl: real -> real)
    requires From(w, s, p, fl) && AdmitAll(t.bindings, p).Ok? && Grows(WorldOf(s, p, fl), WorldOf(t, p, fl))
    ensures From(w, t, p, fl)
  {
    GrowsTransitive(w, WorldOf(s, p, fl), WorldOf(t, p, fl));
  }

  lemma RefinablePart(node: Node, i: nat, w: World, s: Progress, p: Policy, fl: real -> real)
    requires Refinable(node, w, s, p, fl) && node.Operation? && node.op == IF
    ensures |node.args| == 3
    ensures i < 3 ==> Small(node.args[i]) && Grounded(node.args[i], w)
    ensures Refinable(node.args[0], w, s, p, fl)
  {
    IfParts(node, s, p, fl);
    GroundedParts(node.args, w);
    assert node.args[0] in node.args && (i < 3 ==> node.args[i] in node.args);
    ReadyLater(s, p, Ifs(node), Ifs(node.args[0]));
    hide WellTyped, Grows, Clean, AdmitAll, Ready, GoodSig, Typed;
  }

  lemma RefinableBranch(node: Node, i: nat, w: World, s: Progress, c: Node, t: Progress, sources: set<Name>,
                        p: Policy, fl: real -> real)
    requires Refinable(node, w, s, p, fl) && node.Operation? && node.op == IF && |node.args| == 3 && 1 <= i < 3
    requires Shaped(node.args[0], s, c, t, p, fl)
    ensures Refinable(node.args[i], w, AfterCondition(t, sources), p, fl)
  {
    RefinablePart(node, i, w, s, p, fl);
    SourcesDoNotMatter(node.args[0], s, c, t, sources, p, fl);
    ShapedBranch(node, s, c, AfterCondition(t, sources), node.args[i], p, fl);
    ReadyAdmits(t, p);
    FromLater(w, s, AfterCondition(t, sources), p, fl);
    hide Startable, From, Grounded, Small;
  }

  lemma RefinableParts(node: Node, w: World, s: Progress, p: Policy, fl: real -> real)
    requires Refinable(node, w, s, p, fl)
    ensures Startable(node, s, p, fl) && Small(node) && From(w, s, p, fl) && Grounded(node, w)
    ensures w.policy == p
  {
  }

  /** Resolving and then evaluating eagerly agrees with short-circuit evaluation. */
  lemma {:induction false} Refines(node: Node, w: World, s: Progress, p: Policy, fl: real -> real)
    requires Refinable(node, w, s, p, fl)
    ensures Agrees(Conditions(node, w), Short(node, w), s, Resolve(node, s, p, fl), p, fl)
    decreases node, 1
  {
    if !node.Operation? {
      RefinesLeaf(node, w, s, p, fl);
    } else if node.op != IF {
      assert AllRefinable(node.args, w, s, p, fl);
      RefinesAll(node.args, w, s, p, fl);
      ResolveAllShape(node.args, s, p, fl);
      RefinesOperation(node, w, s, p, fl);
    } else {
      RefinesIf(node, w, s, p, fl);
    }
  }

  lemma {:induction false} RefinesIf(node: Node, w: World, s: Progress, p: Policy, fl: real -> real)
    requires Refinable(node, w, s, p, fl) && node.Operation? && node.op == IF
    ensures Agrees(Conditions(node, w), Short(node, w), s, Resolve(node, s, p, fl), p, fl)
    decreases node, 0
  {
    hide Refinable, Startable, Small, From, Grounded, Shaped, Evaluate, Outcome, Register, DependencyReason,
      Strip, Finish, Eval;
    RefinablePart(node, 0, w, s, p, fl);
    RefinableParts(node, w, s, p, fl);
    var cond := node.args[0];
    RefinableParts(cond, w, s, p, fl);
    Refines(cond, w, s, p, fl);
    ConditionEvaluates(cond, w, s, p, fl);
    ResolveShape(cond, s, p, fl);
    var c, short := Resolve(cond, s, p, fl), Short(cond, w);
    if c.Ok? {
      var (n, t) := c.value;
      var condition := Evaluate(n, t.bindings, t.deps, p, fl);
      if condition.Ok? {
        var v := condition.value;
        if v.NonValid? {
          RefinesNothing(node, s, n, t, v, short.value.conditions, p, fl);
        } else if v.scalar.Truth? {
          var i := if v.scalar.b then 1 else 2;
          RefinableBranch(node, i, w, s, n, t, v.sources, p, fl);
          Refines(node.args[i], w, AfterCondition(t, v.sources), p, fl);
        }
      }
    }
  }

  lemma {:induction false} RefinesAll(nodes: seq<Node>, w: World, s: Progress, p: Policy, fl: real -> real)
    requires AllRefinable(nodes, w, s, p, fl)
    ensures AllAgree(AllConditions(nodes, w), ShortAll(nodes, w), s, ResolveAll(nodes, s, p, fl), p, fl)
    decreases nodes
  {
    if nodes == [] {
      assert Bares([]) == [] && s.sources + {} == s.sources;
    } else {
      Refines(nodes[0], w, s, p, fl);
      ResolveShape(nodes[0], s, p, fl);
      var first := Resolve(nodes[0], s, p, fl);
      if first.Ok? {
        AllStartableAfter(nodes, s, first.value.0, first.value.1, p, fl);
        FromLater(w, s, first.value.1, p, fl);
        RefinesAll(nodes[1..], w, first.value.1, p, fl);
      }
      RefinesCons(nodes, w, s, p, fl);
    }
  }
}
