/** What `resolve` keeps: worlds only grow, nothing gets larger, and typing is preserved. */
module LazyShape {
  import opened Base
  import opened Rounding
  import opened Values
  import opened Expression
  import opened Eager
  import opened Soundness
  import opened Lazy

  // ----- Growing worlds

  /** The caller's variables are the same in both worlds; made-up ones may have been added. */
  ghost predicate Grows(a: World, b: World) {
    && a.policy == b.policy && a.fl == b.fl
    && a.deps <= b.deps
    && (forall name | name in a.env :: name in b.env && b.env[name] == a.env[name])
    && (forall name: Name | name.Given? && name in b.deps :: name in a.deps)
    && (forall name: Name | name.Given? && name in b.env :: name in a.env)
  }

  lemma GrowsTransitive(a: World, b: World, c: World)
    requires Grows(a, b) && Grows(b, c)
    ensures Grows(a, c)
  {
  }

  /** Every made-up variable of the expression is known. */
  predicate Grounded(node: Node, w: World)
    decreases node
  {
    match node
    case Literal(_, _) => true
    case Variable(name, _) => name.Given? || (name in w.env && name in w.deps)
    case Operation(_, _, args) => AllGrounded(args, w)
  }

  predicate AllGrounded(nodes: seq<Node>, w: World)
    decreases nodes
  {
    nodes == [] || (Grounded(nodes[0], w) && AllGrounded(nodes[1..], w))
  }

  /** Growing the world changes no value. */
  lemma {:induction false} EvalStable(node: Node, a: World, b: World)
    requires Grounded(node, a) && Grows(a, b)
    ensures Grounded(node, b) && Eval(node, a) == Eval(node, b)
    decreases node
  {
    hide EvalLiteral, CheckHead, Apply, CheckSig;
    if node.Operation? {
      EvalAllStable(node.args, a, b);
    }
  }

  lemma {:induction false} EvalAllStable(nodes: seq<Node>, a: World, b: World)
    requires AllGrounded(nodes, a) && Grows(a, b)
    ensures AllGrounded(nodes, b) && EvalAll(nodes, a) == EvalAll(nodes, b)
    decreases nodes
  {
    hide EvalLiteral, EvalVariable, CheckHead, Apply, Grows;
    if nodes != [] {
      EvalStable(nodes[0], a, b);
      EvalAllStable(nodes[1..], a, b);
    }
  }

  lemma {:induction false} TypedStable(node: Node, a: set<Name>, b: set<Name>)
    requires WellTyped(node, a) && a <= b
    ensures WellTyped(node, b)
    decreases node
  {
    hide GoodSig, LiteralFits, Typed;
    if node.Operation? {
      AllTypedStable(node.args, a, b);
    }
  }

  lemma {:induction false} AllTypedStable(nodes: seq<Node>, a: set<Name>, b: set<Name>)
    requires AllTyped(nodes, a) && a <= b
    ensures AllTyped(nodes, b)
    decreases nodes
  {
    hide GoodSig, LiteralFits, Typed;
    if nodes != [] {
      TypedStable(nodes[0], a, b);
      AllTypedStable(nodes[1..], a, b);
    }
  }

  // ----- Progress that can be evaluated

  function Ifs(node: Node): nat
    decreases node
  {
    if node.Operation? then (if node.op == IF then 1 else 0) + AllIfs(node.args) else 0
  }

  function AllIfs(nodes: seq<Node>): nat
    decreases nodes
  {
    if nodes == [] then 0 else Ifs(nodes[0]) + AllIfs(nodes[1..])
  }

  /** The variables are admitted, the dependencies cover them, and there is room for `room` more. */
  ghost predicate Ready(s: Progress, p: Policy, room: nat) {
    && AdmitAll(s.bindings, p).Ok?
    && CheckDependencies(s.deps).Ok?
    && |s.deps| + room <= MAX_DEPENDENCIES
    && NamesOf(s.bindings) <= Names(s.deps)
    && forall k: nat | IfState(k) in Names(s.deps) :: k < s.counter
  }

  function WorldOf(s: Progress, p: Policy, fl: real -> real): World
    requires AdmitAll(s.bindings, p).Ok?
  {
    World(AdmitAll(s.bindings, p).value, Names(s.deps), p, fl)
  }

  function Reported(s: Progress, sig: Sig, state: Absence, reason: string, sources: set<Name>): Value {
    NonValid(state, sig, DependencyReason(state, reason), Strip(sources) + {IfState(s.counter)})
  }

  lemma TextsBack(names: set<Name>)
    ensures SourceNames(Texts(names)) == Strip(names)
  {
    forall n | n in Strip(names)
      ensures n in SourceNames(Texts(names))
    {
      assert n.text in Texts(names) && n == Given(n.text);
    }
  }

  lemma RegisterAdmits(s: Progress, sig: Sig, state: Absence, reason: string, sources: set<Name>, p: Policy)
    requires AdmitAll(s.bindings, p).Ok? && GoodSig(sig)
    ensures
      var r := Register(s, sig, state, reason, sources);
      && AdmitAll(r.1.bindings, p) ==
          Ok(AdmitAll(s.bindings, p).value[IfState(s.counter) := Reported(s, sig, state, reason, sources)])
  {
    var r := Register(s, sig, state, reason, sources);
    var b := r.1.bindings[|s.bindings|];
    assert r.1.bindings[..|s.bindings|] == s.bindings;
    TextsBack(sources);
    SigExact(sig);
    hide GoodSig, CheckSig;
    assert DependencyReason(state, reason)[0] == 'D';
    assert Admit(b, p) == Ok(Reported(s, sig, state, reason, sources));
  }

  lemma RegisterNames(s: Progress, name: Name)
    requires CheckDependencies(s.deps).Ok? && |s.deps| < MAX_DEPENDENCIES && name !in Names(s.deps)
    ensures Names(s.deps + [name]) == Names(s.deps) + {name}
    ensures CheckDependencies(s.deps + [name]).Ok?
  {
    var deps := s.deps + [name];
    forall n
      ensures n in Names(deps) <==> n in Names(s.deps) + {name}
    {
      assert n in deps <==> n in s.deps || n == name;
    }
    assert Names(deps) == Names(s.deps) + {name};
  }

  lemma RegisterBindings(bindings: seq<Binding>, b: Binding)
    ensures NamesOf(bindings + [b]) == NamesOf(bindings) + {b.name}
  {
  }

  lemma EvalRegistered(name: Name, v: Value, w: World)
    requires name in w.env && name in w.deps && w.env[name] == v && GoodSig(v.sig)
    ensures Eval(Variable(name, v.sig), w) == Ok(v)
  {
    SigExact(v.sig);
    hide CheckSig, GoodSig;
  }

  lemma GrowsByOne(w: World, name: Name, v: Value)
    requires name.IfState? && name !in w.env
    ensures Grows(w, World(w.env[name := v], w.deps + {name}, w.policy, w.fl))
  {
  }

  /** A made-up variable is new, fits, and has the value it was made up for. */
  lemma RegisterReady(s: Progress, sig: Sig, state: Absence, reason: string, sources: set<Name>, p: Policy,
                      fl: real -> real)
    requires Ready(s, p, 1) && GoodSig(sig)
    ensures
      var r := Register(s, sig, state, reason, sources);
      && Ready(r.1, p, 0)
      && Grows(WorldOf(s, p, fl), WorldOf(r.1, p, fl))
      && Eval(r.0, WorldOf(r.1, p, fl)) == Ok(Reported(s, sig, state, reason, sources))
      && Grounded(r.0, WorldOf(r.1, p, fl)) && Bound(r.0, WorldOf(r.1, p, fl).env) && WellTyped(r.0, Names(r.1.deps))
      && r.0.sig == sig && r.1.sources == s.sources && |r.1.deps| == |s.deps| + 1
  {
    hide GoodSig, AdmitAll, CheckDependencies, Names, NamesOf, Grows, Eval, DependencyReason, Texts;
    var r := Register(s, sig, state, reason, sources);
    var name, v, w := IfState(s.counter), Reported(s, sig, state, reason, sources), WorldOf(s, p, fl);
    AdmittedFits(s.bindings, p);
    assert name !in Names(s.deps);
    RegisterAdmits(s, sig, state, reason, sources, p);
    RegisterNames(s, name);
    RegisterBindings(s.bindings, r.1.bindings[|s.bindings|]);
    GrowsByOne(w, name, v);
    var w2 := WorldOf(r.1, p, fl);
    assert w2 == World(w.env[name := v], w.deps + {name}, p, fl);
    EvalRegistered(name, v, w2);
  }

  // ----- Resolving keeps the shape

  lemma {:induction false} BoundStable(node: Node, a: World, b: World)
    requires Bound(node, a.env) && Grows(a, b)
    ensures Bound(node, b.env)
    decreases node
  {
    if node.Operation? {
      AllBoundStable(node.args, a, b);
    }
  }

  lemma {:induction false} AllBoundStable(nodes: seq<Node>, a: World, b: World)
    requires AllBound(nodes, a.env) && Grows(a, b)
    ensures AllBound(nodes, b.env)
    decreases nodes
  {
    if nodes != [] {
      BoundStable(nodes[0], a, b);
      AllBoundStable(nodes[1..], a, b);
    }
  }

  lemma {:induction false} GroundedParts(nodes: seq<Node>, w: World)
    requires AllGrounded(nodes, w)
    ensures forall n | n in nodes :: Grounded(n, w)
  {
    if nodes != [] {
      GroundedParts(nodes[1..], w);
      assert nodes == [nodes[0]] + nodes[1..];
    }
  }

  lemma {:induction false} BoundParts(nodes: seq<Node>, env: Env)
    requires AllBound(nodes, env)
    ensures forall n | n in nodes :: Bound(n, env)
  {
    if nodes != [] {
      BoundParts(nodes[1..], env);
      assert nodes == [nodes[0]] + nodes[1..];
    }
  }

  /** The three arguments of a conditional. */
  lemma Three(args: seq<Node>)
    requires |args| == 3
    ensures Sizes(args) == Size(args[0]) + Size(args[1]) + Size(args[2])
    ensures Height(args[0]) <= Heights(args) && Height(args[1]) <= Heights(args) && Height(args[2]) <= Heights(args)
    ensures AllIfs(args) == Ifs(args[0]) + Ifs(args[1]) + Ifs(args[2])
  {
    hide Size, Height, Ifs, WellTyped, Grounded, Bound;
    var b, c := args[1..], args[1..][1..];
    assert b[0] == args[1] && c[0] == args[2] && c[1..] == [];
    assert Sizes(c) == Size(args[2]) && Heights(c) == Max(Height(args[2]), 0) && AllIfs(c) == Ifs(args[2]);
  }

  /** `n` is what `node` became between `s` and `t`. */
  ghost predicate Shaped(node: Node, s: Progress, n: Node, t: Progress, p: Policy, fl: real -> real)
    requires AdmitAll(s.bindings, p).Ok?
  {
    && Ready(t, p, 0)
    && |t.deps| <= |s.deps| + Ifs(node)
    && Grows(WorldOf(s, p, fl), WorldOf(t, p, fl))
    && Grounded(n, WorldOf(t, p, fl))
    && WellTyped(n, Names(t.deps)) && n.sig == node.sig
    && Size(n) <= Size(node) && Height(n) <= Height(node)
    && (Bound(node, WorldOf(s, p, fl).env) ==> Bound(n, WorldOf(t, p, fl).env))
  }

  ghost predicate AllShaped(nodes: seq<Node>, s: Progress, ns: seq<Node>, t: Progress, p: Policy, fl: real -> real)
    requires AdmitAll(s.bindings, p).Ok?
  {
    && Ready(t, p, 0)
    && |t.deps| <= |s.deps| + AllIfs(nodes)
    && Grows(WorldOf(s, p, fl), WorldOf(t, p, fl))
    && AllGrounded(ns, WorldOf(t, p, fl))
    && AllTyped(ns, Names(t.deps)) && NodeSigs(ns) == NodeSigs(nodes)
    && Sizes(ns) <= Sizes(nodes) && Heights(ns) <= Heights(nodes)
    && (AllBound(nodes, WorldOf(s, p, fl).env) ==> AllBound(ns, WorldOf(t, p, fl).env))
  }

  /** What `resolve` needs of the node it starts from. */
  ghost predicate Startable(node: Node, s: Progress, p: Policy, fl: real -> real) {
    && Ready(s, p, Ifs(node))
    && Grounded(node, WorldOf(s, p, fl))
    && WellTyped(node, Names(s.deps))
  }

  ghost predicate AllStartable(nodes: seq<Node>, s: Progress, p: Policy, fl: real -> real) {
    && Ready(s, p, AllIfs(nodes))
    && AllGrounded(nodes, WorldOf(s, p, fl))
    && AllTyped(nodes, Names(s.deps))
  }

  lemma ShapedSelf(node: Node, s: Progress, p: Policy, fl: real -> real)
    requires Startable(node, s, p, fl)
    ensures Shaped(node, s, node, s, p, fl)
  {
  }

  lemma StartableLater(node: Node, s: Progress, t: Progress, p: Policy, fl: real -> real)
    requires AdmitAll(s.bindings, p).Ok? && AdmitAll(t.bindings, p).Ok?
    requires Ready(t, p, Ifs(node)) && Grows(WorldOf(s, p, fl), WorldOf(t, p, fl))
    requires Grounded(node, WorldOf(s, p, fl)) && WellTyped(node, Names(s.deps))
    ensures Startable(node, t, p, fl)
  {
    EvalStable(node, WorldOf(s, p, fl), WorldOf(t, p, fl));
    TypedStable(node, Names(s.deps), Names(t.deps));
  }

  lemma AllStartableLater(nodes: seq<Node>, s: Progress, t: Progress, p: Policy, fl: real -> real)
    requires AdmitAll(s.bindings, p).Ok? && AdmitAll(t.bindings, p).Ok?
    requires Ready(t, p, AllIfs(nodes)) && Grows(WorldOf(s, p, fl), WorldOf(t, p, fl))
    requires AllGrounded(nodes, WorldOf(s, p, fl)) && AllTyped(nodes, Names(s.deps))
    ensures AllStartable(nodes, t, p, fl)
  {
    EvalAllStable(nodes, WorldOf(s, p, fl), WorldOf(t, p, fl));
    AllTypedStable(nodes, Names(s.deps), Names(t.deps));
  }

  /** A subtree resolved first stays as it is while its siblings are resolved. */
  lemma ShapedCons(nodes: seq<Node>, s: Progress, first: Node, t: Progress, rest: seq<Node>, u: Progress, p: Policy,
                   fl: real -> real)
    requires nodes != [] && AdmitAll(s.bindings, p).Ok?
    requires Shaped(nodes[0], s, first, t, p, fl) && AllShaped(nodes[1..], t, rest, u, p, fl)
    ensures AllShaped(nodes, s, [first] + rest, u, p, fl)
  {
    hide Grows, Ready, Eval, Bound, WellTyped, Grounded, Size, Height, Ifs, Names, AdmitAll;
    ReadyAdmits(t, p);
    ReadyAdmits(u, p);
    var ws, wt, wu := WorldOf(s, p, fl), WorldOf(t, p, fl), WorldOf(u, p, fl);
    GrowsTransitive(ws, wt, wu);
    GrowsDeps(wt, wu);
    EvalStable(first, wt, wu);
    TypedStable(first, Names(t.deps), Names(u.deps));
    if AllBound(nodes, ws.env) {
      BoundStable(first, wt, wu);
      AllBoundStable(nodes[1..], ws, wt);
    }
    var all := [first] + rest;
    assert all[0] == first && all[1..] == rest;
    assert NodeSigs(all) == [first.sig] + NodeSigs(rest) && NodeSigs(nodes) == [nodes[0].sig] + NodeSigs(nodes[1..]);
  }

  lemma ShapedOperation(node: Node, s: Progress, ns: seq<Node>, t: Progress, p: Policy, fl: real -> real)
    requires node.Operation? && node.op != IF && WellTyped(node, Names(s.deps))
    requires AdmitAll(s.bindings, p).Ok? && AllShaped(node.args, s, ns, t, p, fl) && |ns| == |node.args|
    ensures Shaped(node, s, Operation(node.op, node.sig, ns), t, p, fl)
  {
    hide Grows, Ready, Names, AdmitAll, Typed, GoodSig;
  }

  /** Going on from a later state to a part of the node. */
  lemma ShapedPart(node: Node, s: Progress, part: Node, t: Progress, n: Node, u: Progress, p: Policy, fl: real -> real)
    requires AdmitAll(s.bindings, p).Ok? && AdmitAll(t.bindings, p).Ok?
    requires Shaped(part, t, n, u, p, fl) && Grows(WorldOf(s, p, fl), WorldOf(t, p, fl))
    requires |t.deps| + Ifs(part) <= |s.deps| + Ifs(node)
    requires part.sig == node.sig && Size(part) <= Size(node) && Height(part) <= Height(node)
    requires Bound(node, WorldOf(s, p, fl).env) ==> Bound(part, WorldOf(s, p, fl).env)
    ensures Shaped(node, s, n, u, p, fl)
  {
    GrowsTransitive(WorldOf(s, p, fl), WorldOf(t, p, fl), WorldOf(u, p, fl));
    if Bound(node, WorldOf(s, p, fl).env) {
      BoundStable(part, WorldOf(s, p, fl), WorldOf(t, p, fl));
    }
    hide Grows, Ready, Names, AdmitAll, WellTyped, Bound, Grounded, Size, Height, Ifs;
  }

  lemma IfTyping(node: Node, deps: set<Name>)
    requires WellTyped(node, deps) && node.Operation? && node.op == IF
    ensures |node.args| == 3 && node.args[1].sig == node.args[2].sig == node.sig && GoodSig(node.sig)
    ensures forall n | n in node.args :: WellTyped(n, deps)
  {
    var args := node.args;
    assert Typed(IF, NodeSigs(args), node.sig);
    assert |args| == 3 && NodeSigs(args)[1] == args[1].sig && NodeSigs(args)[2] == args[2].sig;
    hide GoodSig, Typed;
    TypedSigs(args, deps);
  }

  /** A part of a node, no larger than the node. */
  ghost predicate Part(n: Node, node: Node, w: World) {
    && WellTyped(n, w.deps) && Grounded(n, w)
    && Size(n) <= Size(node) && Height(n) <= Height(node)
    && (Bound(node, w.env) ==> Bound(n, w.env))
  }

  lemma IfPart(node: Node, i: nat, w: World)
    requires WellTyped(node, w.deps) && Grounded(node, w) && node.Operation? && node.op == IF
    requires |node.args| == 3 && i < 3
    ensures Part(node.args[i], node, w)
  {
    var n := node.args[i];
    assert n in node.args;
    IfTyping(node, w.deps);
    GroundedParts(node.args, w);
    Three(node.args);
    if Bound(node, w.env) {
      BoundParts(node.args, w.env);
    }
    hide WellTyped, GoodSig, Typed;
  }

  lemma IfParts(node: Node, s: Progress, p: Policy, fl: real -> real)
    requires Startable(node, s, p, fl) && node.Operation? && node.op == IF
    ensures |node.args| == 3 && node.args[1].sig == node.args[2].sig == node.sig && GoodSig(node.sig)
    ensures forall i | 0 <= i < 3 :: Part(node.args[i], node, WorldOf(s, p, fl))
    ensures Ifs(node) == 1 + Ifs(node.args[0]) + Ifs(node.args[1]) + Ifs(node.args[2])
  {
    IfTyping(node, Names(s.deps));
    Three(node.args);
    hide GoodSig, Names, AdmitAll, Ready, WellTyped, Grounded, Part;
    IfPart(node, 0, WorldOf(s, p, fl));
    IfPart(node, 1, WorldOf(s, p, fl));
    IfPart(node, 2, WorldOf(s, p, fl));
  }

  /** The state after the condition. */
  function AfterCondition(c: Progress, sources: set<Name>): Progress {
    c.(sources := c.sources + Strip(sources))
  }

  lemma ReadyAdmits(t: Progress, p: Policy)
    requires Ready(t, p, 0)
    ensures AdmitAll(t.bindings, p).Ok?
  {
  }

  lemma GrowsDeps(a: World, b: World)
    requires Grows(a, b)
    ensures a.deps <= b.deps
  {
  }

  lemma ReadyLater(t: Progress, p: Policy, room: nat, more: nat)
    requires Ready(t, p, room) && |t.deps| + more <= MAX_DEPENDENCIES
    ensures Ready(t, p, more)
  {
  }

  lemma ShapedNothing(node: Node, s: Progress, c: Node, t: Progress, state: Absence, reason: string,
                      sources: set<Name>, p: Policy, fl: real -> real)
    requires Startable(node, s, p, fl) && node.Operation? && node.op == IF && |node.args| == 3
    requires Shaped(node.args[0], s, c, t, p, fl)
    ensures
      var r := Register(t, node.sig, state, reason, sources);
      Shaped(node, s, r.0, r.1, p, fl)
  {
    IfParts(node, s, p, fl);
    ReadyLater(t, p, 0, 1);
    RegisterReady(t, node.sig, state, reason, sources, p, fl);
    var r := Register(t, node.sig, state, reason, sources);
    GrowsTransitive(WorldOf(s, p, fl), WorldOf(t, p, fl), WorldOf(r.1, p, fl));
    hide Grows, Ready, Names, AdmitAll, WellTyped, Bound, Grounded, GoodSig, Eval;
  }

  lemma ShapedBranch(node: Node, s: Progress, c: Node, t: Progress, branch: Node, p: Policy, fl: real -> real)
    requires Startable(node, s, p, fl) && node.Operation? && node.op == IF && |node.args| == 3
    requires branch == node.args[1] || branch == node.args[2]
    requires Shaped(node.args[0], s, c, t, p, fl)
    ensures Startable(branch, t, p, fl)
    ensures forall n, u | Shaped(branch, t, n, u, p, fl) :: Shaped(node, s, n, u, p, fl)
  {
    IfParts(node, s, p, fl);
    ReadyLater(t, p, 0, Ifs(branch));
    StartableLater(branch, s, t, p, fl);
    hide Grows, Ready, Names, AdmitAll, WellTyped, Bound, Grounded, GoodSig, Size, Height, Ifs;
    forall n, u | Shaped(branch, t, n, u, p, fl)
      ensures Shaped(node, s, n, u, p, fl)
    {
      ShapedPart(node, s, branch, t, n, u, p, fl);
    }
  }

  /** `resolve` keeps types, signatures and limits, and only adds variables it made up. */
  lemma {:induction false} ResolveShape(node: Node, s: Progress, p: Policy, fl: real -> real)
    requires Startable(node, s, p, fl)
    ensures
      var r := Resolve(node, s, p, fl);
      r.Ok? ==> Shaped(node, s, r.value.0, r.value.1, p, fl)
    decreases node, 1
  {
    if !node.Operation? {
      ShapedSelf(node, s, p, fl);
    } else if node.op != IF {
      assert AllStartable(node.args, s, p, fl);
      ResolveAllShape(node.args, s, p, fl);
      hide Shaped, AllShaped, Grows, Ready, Names, AdmitAll, Typed, GoodSig;
      var r := ResolveAll(node.args, s, p, fl);
      if r.Ok? {
        ShapedOperation(node, s, r.value.0, r.value.1, p, fl);
      }
    } else {
      ResolveIfShape(node, s, p, fl);
    }
  }

  lemma {:induction false} ResolveIfShape(node: Node, s: Progress, p: Policy, fl: real -> real)
    requires Startable(node, s, p, fl) && node.Operation? && node.op == IF
    ensures
      var r := Resolve(node, s, p, fl);
      r.Ok? ==> Shaped(node, s, r.value.0, r.value.1, p, fl)
    decreases node, 0
  {
    IfParts(node, s, p, fl);
    ReadyLater(s, p, Ifs(node), Ifs(node.args[0]));
    assert Startable(node.args[0], s, p, fl);
    ResolveShape(node.args[0], s, p, fl);
    hide Ready, Grows, Names, AdmitAll, WellTyped, Grounded, GoodSig, Ifs, Bound, Size, Height, Evaluate, Register,
      Startable;
    var c := Resolve(node.args[0], s, p, fl);
    if c.Ok? {
      var condition := Evaluate(c.value.0, c.value.1.bindings, c.value.1.deps, p, fl);
      if condition.Ok? {
        var v := condition.value;
        var t := AfterCondition(c.value.1, v.sources);
        SourcesDoNotMatter(node.args[0], s, c.value.0, c.value.1, v.sources, p, fl);
        if v.NonValid? {
          ShapedNothing(node, s, c.value.0, t, v.state, v.reason, v.sources, p, fl);
        } else if v.scalar.Truth? {
          var branch := if v.scalar.b then node.args[1] else node.args[2];
          ShapedBranch(node, s, c.value.0, t, branch, p, fl);
          ResolveShape(branch, t, p, fl);
        }
      }
    }
  }

  lemma SourcesDoNotMatter(node: Node, s: Progress, n: Node, t: Progress, sources: set<Name>, p: Policy,
                           fl: real -> real)
    requires AdmitAll(s.bindings, p).Ok? && Shaped(node, s, n, t, p, fl)
    ensures Shaped(node, s, n, AfterCondition(t, sources), p, fl)
  {
    hide Grows, Names, AdmitAll, WellTyped, Bound, Grounded, GoodSig, Size, Height, Ifs;
  }

  lemma {:induction false} ResolveAllShape(nodes: seq<Node>, s: Progress, p: Policy, fl: real -> real)
    requires AllStartable(nodes, s, p, fl)
    ensures
      var r := ResolveAll(nodes, s, p, fl);
      r.Ok? ==> AllShaped(nodes, s, r.value.0, r.value.1, p, fl)
    decreases nodes
  {
    if nodes != [] {
      assert Startable(nodes[0], s, p, fl);
      ResolveShape(nodes[0], s, p, fl);
      var first := Resolve(nodes[0], s, p, fl);
      if first.Ok? {
        AllStartableAfter(nodes, s, first.value.0, first.value.1, p, fl);
        ResolveAllShape(nodes[1..], first.value.1, p, fl);
        hide Shaped, AllShaped, Ready, Grows, Names, AdmitAll, WellTyped, Grounded, Ifs, Startable;
        var rest := ResolveAll(nodes[1..], first.value.1, p, fl);
        if rest.Ok? {
          ShapedCons(nodes, s, first.value.0, first.value.1, rest.value.0, rest.value.1, p, fl);
        }
      }
    }
  }

  lemma AllStartableAfter(nodes: seq<Node>, s: Progress, n: Node, t: Progress, p: Policy, fl: real -> real)
    requires nodes != [] && AllStartable(nodes, s, p, fl) && Shaped(nodes[0], s, n, t, p, fl)
    ensures AllStartable(nodes[1..], t, p, fl)
  {
    ReadyLater(t, p, 0, AllIfs(nodes[1..]));
    AllStartableLater(nodes[1..], s, t, p, fl);
  }
}
