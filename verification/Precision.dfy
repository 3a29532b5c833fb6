/** The decimal context of an expression is wide enough to make every sum, difference and product exact. */
module Precision {
  import opened Rounding
  import opened Values
  import opened Expression
  import opened Eager
  import opened Lazy
  import opened LazyResults

  // ----- Numbers of a size

  /** Fewer than `a` digits before the point (one more where a carry needs it) and at most `f` after it. */
  ghost predicate Spans(x: real, a: nat, f: nat) {
    -(Pow10(a) as real) < x < Pow10(a) as real && Rounding.Fits(x, f)
  }

  /** The number is written with at most `n` digits, at least one of them before the point. */
  ghost predicate Sized(x: real, n: nat) {
    exists a: nat, f: nat :: a >= 1 && a + f <= n && Spans(x, a, f)
  }

  /** The number has at most `digits` significant digits. */
  ghost predicate Representable(x: real, digits: nat) {
    exists c: int, e: nat :: Abs(c) < Pow10(digits) && IsWhole(Scaled(x, e), c)
  }

  /** A context of this precision returns a result unrounded when it has no more digits. */
  ghost predicate ExactUpTo(fl: real -> real, digits: nat) {
    forall x | Representable(x, digits) :: fl(x) == x
  }

  /** Arithmetic without any rounding. */
  function Exactly(x: real): real {
    x
  }

  lemma SizedMore(x: real, m: nat, n: nat)
    requires Sized(x, m) && m <= n
    ensures Sized(x, n)
  {
  }

  lemma SizedIsRepresentable(x: real, n: nat)
    requires Sized(x, n)
    ensures Representable(x, n)
  {
    var a: nat, f: nat :| a >= 1 && a + f <= n && Spans(x, a, f);
    SpansRepresentable(x, a, f, n);
  }

  lemma SpansRepresentable(x: real, a: nat, f: nat, n: nat)
    requires Spans(x, a, f) && a + f <= n
    ensures Representable(x, n)
  {
    hide Pow10;
    var c: int :| IsWhole(Scaled(x, f), c);
    Pow10Adds(a, f);
    Pow10Grows(a + f, n);
    BoundScaled(x, c, Pow10(a), Pow10(f));
    assert Abs(c) < Pow10(n) && IsWhole(Scaled(x, f), c);
  }

  lemma BoundScaled(x: real, c: int, a: int, p: int)
    requires -(a as real) < x < a as real && p >= 1 && x * p as real == c as real
    ensures -(a * p) < c < a * p
  {
    assert (a * p) as real == a as real * p as real;
    assert x * p as real < a as real * p as real;
    assert -(a as real) * p as real < x * p as real;
  }

  lemma PowerPair(a: nat, b: nat)
    requires a >= 1 && b >= 1
    ensures Pow10(a) + Pow10(b) <= Pow10(a + b)
    ensures Pow10(a) * Pow10(b) == Pow10(a + b)
  {
    Pow10Adds(a, b);
    Pow10Grows(1, a);
    Pow10Grows(1, b);
    assert Pow10(1) == 10 * Pow10(0);
    PairBelowProduct(Pow10(a), Pow10(b));
  }

  lemma PairBelowProduct(x: int, y: int)
    requires x >= 2 && y >= 2
    ensures x + y <= x * y
  {
    assert (x - 1) * (y - 1) >= 1;
  }

  lemma SumFits(x: real, y: real, f: nat)
    requires Rounding.Fits(x, f) && Rounding.Fits(y, f)
    ensures Rounding.Fits(x + y, f) && Rounding.Fits(x - y, f)
  {
    var m: int :| IsWhole(Scaled(x, f), m);
    var n: int :| IsWhole(Scaled(y, f), n);
    assert IsWhole(Scaled(x + y, f), m + n);
    assert IsWhole(Scaled(x - y, f), m - n);
  }

  lemma ProductFits(x: real, y: real, f: nat, g: nat)
    requires Rounding.Fits(x, f) && Rounding.Fits(y, g)
    ensures Rounding.Fits(x * y, f + g)
  {
    hide Pow10;
    var m: int :| IsWhole(Scaled(x, f), m);
    var n: int :| IsWhole(Scaled(y, g), n);
    Pow10Adds(f, g);
    RegroupProduct(x, y, Pow10(f), Pow10(g), m, n);
    assert IsWhole(Scaled(x * y, f + g), m * n);
  }

  lemma RegroupProduct(x: real, y: real, p: int, q: int, m: int, n: int)
    requires x * p as real == m as real && y * q as real == n as real
    ensures (x * y) * (p * q) as real == (m * n) as real
  {
    assert (p * q) as real == p as real * q as real;
    assert (m * n) as real == m as real * n as real;
    assert (x * y) * (p as real * q as real) == (x * p as real) * (y * q as real);
  }

  lemma ProductBelow(x: real, y: real, a: real, b: real)
    requires -a < x < a && -b < y < b
    ensures -(a * b) < x * y < a * b
  {
    var u, v := if x < 0.0 then -x else x, if y < 0.0 then -y else y;
    assert 0.0 <= u < a && 0.0 <= v < b;
    assert u * v <= u * b;
    assert u * b < a * b;
    assert x * y == u * v || x * y == -(u * v);
  }

  lemma SpansArithmetic(x: real, a: nat, f: nat, y: real, b: nat, g: nat)
    requires a >= 1 && b >= 1 && Spans(x, a, f) && Spans(y, b, g)
    ensures Spans(x + y, a + b, f + g) && Spans(x - y, a + b, f + g) && Spans(x * y, a + b, f + g)
  {
    hide Pow10, Rounding.Fits;
    FitsMore(x, f, f + g);
    FitsMore(y, g, f + g);
    SumFits(x, y, f + g);
    ProductFits(x, y, f, g);
    PowerPair(a, b);
    ProductBelow(x, y, Pow10(a) as real, Pow10(b) as real);
    assert (Pow10(a) * Pow10(b)) as real == Pow10(a) as real * Pow10(b) as real;
  }

  /** Digits add up under sums, differences and products. */
  lemma SizedArithmetic(x: real, m: nat, y: real, n: nat)
    requires Sized(x, m) && Sized(y, n)
    ensures Sized(x + y, m + n) && Sized(x - y, m + n) && Sized(x * y, m + n)
  {
    hide Spans;
    var a: nat, f: nat :| a >= 1 && a + f <= m && Spans(x, a, f);
    var b: nat, g: nat :| b >= 1 && b + g <= n && Spans(y, b, g);
    SpansArithmetic(x, a, f, y, b, g);
  }

  lemma SizedProduct(x: real, m: nat, y: real, n: nat)
    requires Sized(x, m) && Sized(y, n)
    ensures Sized(Times(x, y), m + n)
  {
    SizedArithmetic(x, m, y, n);
  }

  lemma SizedNegate(x: real, n: nat)
    requires Sized(x, n)
    ensures Sized(-x, n)
  {
    var a: nat, f: nat :| a >= 1 && a + f <= n && Spans(x, a, f);
    var c: int :| IsWhole(Scaled(x, f), c);
    assert IsWhole(Scaled(-x, f), -c);
    assert Spans(-x, a, f);
  }

  // ----- Inputs

  lemma TextSpans(c: int, s: nat)
    ensures
      var d := DigitCount(c, s);
      d > s && Spans(c as real / Pow10(s) as real, d - s, s)
  {
    var d := DigitCount(c, s);
    DigitsBound(Abs(c));
    Pow10Grows(NumDigits(Abs(c)), d);
    Pow10Adds(d - s, s);
    ScaledOfQuotient(c, s);
    assert IsWhole(Scaled(c as real / Pow10(s) as real, s), c);
    QuotientBelow(c, Pow10(d - s), Pow10(s));
  }

  lemma QuotientBelow(c: int, b: int, p: int)
    requires -(b * p) < c < b * p && p >= 1
    ensures -(b as real) < c as real / p as real < b as real
  {
    assert (b * p) as real == b as real * p as real;
    DivideMonotone(c as real, b as real * p as real, p as real);
    DivideMonotone(-(b as real * p as real), c as real, p as real);
    assert b as real * p as real / p as real == b as real;
  }

  /** Normalising a number never needs more digits than its text had, even when it carries. */
  lemma NormalisedSize(c: int, s: nat, scale: nat, mode: RoundingMode)
    ensures Sized(RoundTo(c as real / Pow10(s) as real, scale, mode), DigitCount(c, s))
  {
    var x, d := c as real / Pow10(s) as real, DigitCount(c, s);
    TextSpans(c, s);
    if s <= scale {
      FitsMore(x, s, scale);
      RoundToFixes(x, scale, mode);
    } else {
      CarrySpans(x, d - s, scale, mode);
    }
  }

  lemma CarrySpans(x: real, a: nat, scale: nat, mode: RoundingMode)
    requires -(Pow10(a) as real) < x < Pow10(a) as real
    ensures Spans(RoundTo(x, scale, mode), a + 1, scale)
  {
    RoundToFits(x, scale, mode);
    CoefficientBound(x, a, scale, mode);
    Pow10Adds(a, scale);
    QuotientBound(RoundInt(Scaled(x, scale), mode), Pow10(a), Pow10(scale));
    Pow10Grows(a, a + 1);
    hide RoundInt, Pow10, Rounding.Fits;
  }

  ghost predicate SizedScalar(s: Scalar, n: nat) {
    s.Num? ==> Sized(s.n, n)
  }

  ghost predicate SizedValue(v: Value, n: nat) {
    v.Valid? ==> SizedScalar(v.scalar, n)
  }

  ghost predicate SizedEnv(env: Env, n: nat) {
    forall name | name in env :: SizedValue(env[name], n)
  }

  lemma ParsedSize(text: Values.Literal, code: FinanceError, p: Policy, scale: nat, mode: RoundingMode)
    requires ParseDecimal(text, code, p.maxInputPrecision, p.maxInputScale).Ok?
    ensures Sized(RoundTo(ParseDecimal(text, code, p.maxInputPrecision, p.maxInputScale).value, scale, mode),
                  p.maxInputPrecision)
  {
    NormalisedSize(text.coefficient, text.scale, scale, mode);
    SizedMore(RoundTo(text.coefficient as real / Pow10(text.scale) as real, scale, mode),
              DigitCount(text.coefficient, text.scale), p.maxInputPrecision);
    hide RoundTo, Sized, NumDigits;
  }

  lemma AdmittedSize(b: Binding, p: Policy)
    requires Admit(b, p).Ok?
    ensures SizedValue(Admit(b, p).value, p.maxInputPrecision)
  {
    if b.input.Present? && IsDecimalType(b.input.sig.valueType) {
      ParsedSize(b.input.text, ValueDecimalInvalid, p, PointScale(p, RuleInputNormalization, b.input.sig.valueType),
                 PointMode(p, RuleInputNormalization));
    }
    hide Sized, RoundTo, ParseDecimal, ParseInteger, CheckSig;
  }

  lemma {:induction false} AllAdmittedSize(bindings: seq<Binding>, p: Policy)
    requires AdmitAll(bindings, p).Ok?
    ensures SizedEnv(AdmitAll(bindings, p).value, p.maxInputPrecision)
  {
    if bindings != [] {
      AllAdmittedSize(bindings[..|bindings| - 1], p);
      AdmittedSize(bindings[|bindings| - 1], p);
      hide Admit, SizedValue;
    }
  }

  lemma LiteralSize(text: Values.Literal, sig: Sig, p: Policy)
    requires EvalLiteral(text, sig, p).Ok?
    ensures SizedValue(EvalLiteral(text, sig, p).value, p.maxInputPrecision)
  {
    if IsDecimalType(sig.valueType) {
      ParsedSize(text, ExpressionNonFiniteLiteral, p, PointScale(p, RuleInputNormalization, DECIMAL),
                 PointMode(p, RuleInputNormalization));
    }
    hide Sized, RoundTo, ParseDecimal, CheckSig;
  }

  // ----- Operations

  function SumOf(budgets: seq<nat>): nat {
    if budgets == [] then 0 else SumOf(budgets[..|budgets| - 1]) + budgets[|budgets| - 1]
  }

  ghost predicate AllSized(xs: seq<Scalar>, budgets: seq<nat>) {
    |xs| == |budgets| && forall i | 0 <= i < |xs| :: SizedScalar(xs[i], budgets[i])
  }

  lemma {:induction false} OneBelowSum(budgets: seq<nat>, i: nat)
    requires i < |budgets|
    ensures budgets[i] <= SumOf(budgets)
  {
    if i < |budgets| - 1 {
      OneBelowSum(budgets[..|budgets| - 1], i);
    }
  }

  lemma Unrounded(fl: real -> real, x: real, n: nat, limit: nat)
    requires Sized(x, n) && n <= limit && ExactUpTo(fl, limit)
    ensures fl(x) == x
  {
    hide Sized, Representable;
    SizedMore(x, n, limit);
    SizedIsRepresentable(x, limit);
  }

  lemma {:induction false} TotalExact(xs: seq<Scalar>, budgets: seq<nat>, fl: real -> real, limit: nat)
    requires xs != [] && AllSized(xs, budgets) && SumOf(budgets) <= limit && ExactUpTo(fl, limit)
    ensures Total(xs, fl) == Total(xs, Exactly)
    ensures Total(xs, fl).Ok? ==> SizedScalar(Total(xs, fl).value, SumOf(budgets))
  {
    hide Sized, ExactUpTo;
    var last := |xs| - 1;
    if last > 0 {
      TotalExact(xs[..last], budgets[..last], fl, limit);
      var sofar := Total(xs[..last], fl);
      if sofar.Ok? && sofar.value.Num? && xs[last].Num? {
        SizedArithmetic(sofar.value.n, SumOf(budgets[..last]), xs[last].n, budgets[last]);
        Unrounded(fl, sofar.value.n + xs[last].n, SumOf(budgets), limit);
      }
    } else {
      OneBelowSum(budgets, 0);
      ScalarMore(xs[0], budgets[0], SumOf(budgets));
    }
  }

  lemma ScalarMore(s: Scalar, m: nat, n: nat)
    requires SizedScalar(s, m) && m <= n
    ensures SizedScalar(s, n)
  {
    hide Sized;
    if s.Num? {
      SizedMore(s.n, m, n);
    }
  }

  lemma {:induction false} ExtremeSized(xs: seq<Scalar>, budgets: seq<nat>, least: bool)
    requires xs != [] && AllSized(xs, budgets)
    ensures Extreme(xs, least).Ok? ==> SizedScalar(Extreme(xs, least).value, SumOf(budgets))
  {
    hide SizedScalar;
    var last := |xs| - 1;
    OneBelowSum(budgets, last);
    ScalarMore(xs[last], budgets[last], SumOf(budgets));
    if last > 0 {
      ExtremeSized(xs[..last], budgets[..last], least);
      var sofar := Extreme(xs[..last], least);
      if sofar.Ok? {
        ScalarMore(sofar.value, SumOf(budgets[..last]), SumOf(budgets));
      }
    }
  }

  lemma Pair(budgets: seq<nat>)
    requires |budgets| == 2
    ensures SumOf(budgets) == budgets[0] + budgets[1]
  {
    assert budgets[..1][..0] == [] && SumOf(budgets[..1]) == SumOf(budgets[..1][..0]) + budgets[0];
  }

  lemma SubtractExact(a: Scalar, m: nat, b: Scalar, n: nat, fl: real -> real, limit: nat)
    requires SizedScalar(a, m) && SizedScalar(b, n) && m + n <= limit && ExactUpTo(fl, limit)
    ensures Subtract(a, b, fl) == Subtract(a, b, Exactly)
    ensures Subtract(a, b, fl).Ok? ==> SizedScalar(Subtract(a, b, fl).value, m + n)
  {
    hide Sized, ExactUpTo;
    if a.Num? && b.Num? {
      SizedArithmetic(a.n, m, b.n, n);
      Unrounded(fl, a.n - b.n, m + n, limit);
    }
  }

  lemma MultiplyUnrounded(a: Scalar, m: nat, b: Scalar, n: nat, fl: real -> real, limit: nat)
    requires SizedScalar(a, m) && SizedScalar(b, n) && m + n <= limit && ExactUpTo(fl, limit)
    ensures Multiply(a, b, fl) == Multiply(a, b, Exactly)
    ensures Multiply(a, b, fl).Ok? ==> SizedScalar(Multiply(a, b, fl).value, m + n)
  {
    hide Sized, ExactUpTo;
    if a.Num? && b.Num? {
      SizedProduct(a.n, m, b.n, n);
      Unrounded(fl, Times(a.n, b.n), m + n, limit);
    }
  }

  lemma UnaryExact(op: Operator, a: Scalar, m: nat, fl: real -> real, limit: nat)
    requires op == NEGATE || op == ABS
    requires SizedScalar(a, m) && m <= limit && ExactUpTo(fl, limit)
    ensures Combine(op, [a], fl) == Combine(op, [a], Exactly)
    ensures Combine(op, [a], fl).Ok? ==> SizedScalar(Combine(op, [a], fl).value, m)
  {
    hide Sized, ExactUpTo;
    if a.Num? {
      SizedNegate(a.n, m);
      Unrounded(fl, a.n, m, limit);
      Unrounded(fl, -a.n, m, limit);
    }
  }

  lemma CombineExact(op: Operator, xs: seq<Scalar>, budgets: seq<nat>, fl: real -> real, limit: nat)
    requires op != DIVIDE && ArityFits(op, |xs|)
    requires AllSized(xs, budgets) && SumOf(budgets) <= limit && ExactUpTo(fl, limit)
    ensures Combine(op, xs, fl) == Combine(op, xs, Exactly)
    ensures Combine(op, xs, fl).Ok? ==> SizedScalar(Combine(op, xs, fl).value, SumOf(budgets))
  {
    match op
    case ADD => TotalExact(xs, budgets, fl, limit);
    case MIN => ExtremeSized(xs, budgets, true);
    case MAX => ExtremeSized(xs, budgets, false);
    case SUBTRACT =>
      Pair(budgets);
      SubtractExact(xs[0], budgets[0], xs[1], budgets[1], fl, limit);
    case MULTIPLY =>
      Pair(budgets);
      MultiplyUnrounded(xs[0], budgets[0], xs[1], budgets[1], fl, limit);
    case NEGATE | ABS =>
      assert xs == [xs[0]] && budgets == [budgets[0]] && SumOf(budgets) == SumOf(budgets[..0]) + budgets[0];
      UnaryExact(op, xs[0], budgets[0], fl, limit);
    case IF =>
      OneBelowSum(budgets, 1);
      OneBelowSum(budgets, 2);
      ScalarMore(xs[1], budgets[1], SumOf(budgets));
      ScalarMore(xs[2], budgets[2], SumOf(budgets));
    case EQUAL | LESS_THAN | LESS_OR_EQUAL | GREATER_THAN | GREATER_OR_EQUAL =>
  }

  ghost predicate ValuesSized(values: seq<Value>, budgets: seq<nat>) {
    |values| == |budgets| && forall i | 0 <= i < |values| :: SizedValue(values[i], budgets[i])
  }

  lemma ApplyExact(op: Operator, sig: Sig, values: seq<Value>, budgets: seq<nat>, fl: real -> real, limit: nat)
    requires op != DIVIDE && ArityFits(op, |values|)
    requires ValuesSized(values, budgets) && SumOf(budgets) <= limit && ExactUpTo(fl, limit)
    ensures Apply(op, sig, values, fl) == Apply(op, sig, values, Exactly)
    ensures Apply(op, sig, values, fl).Ok? ==> SizedValue(Apply(op, sig, values, fl).value, SumOf(budgets))
  {
    if AllValid(values) {
      assert AllSized(Scalars(values), budgets) by {
        forall i | 0 <= i < |values|
          ensures SizedScalar(Scalars(values)[i], budgets[i])
        {
          assert values[i] in values && SizedValue(values[i], budgets[i]);
        }
      }
      CombineExact(op, Scalars(values), budgets, fl, limit);
    }
    hide CheckOperation, Combine, SizedScalar, ExactUpTo, Scalars, AllSources, LeastReason;
  }

  // ----- Expressions

  predicate DivisionFree(node: Node)
    decreases node
  {
    node.Operation? ==> node.op != DIVIDE && AllDivisionFree(node.args)
  }

  predicate AllDivisionFree(nodes: seq<Node>)
    decreases nodes
  {
    nodes == [] || (DivisionFree(nodes[0]) && AllDivisionFree(nodes[1..]))
  }

  /** Digits enough for a subtree: those of one input for every node. */
  function Budget(node: Node, p: Policy): nat {
    Size(node) * p.maxInputPrecision
  }

  function Budgets(nodes: seq<Node>, p: Policy): seq<nat> {
    seq(|nodes|, i requires 0 <= i < |nodes| => Budget(nodes[i], p))
  }

  lemma {:induction false} SumFromFront(budgets: seq<nat>)
    requires budgets != []
    ensures SumOf(budgets) == budgets[0] + SumOf(budgets[1..])
  {
    var last := |budgets| - 1;
    if last > 0 {
      SumFromFront(budgets[..last]);
      assert budgets[..last][1..] == budgets[1..][..last - 1];
    } else {
      assert budgets[..0] == [] == budgets[1..];
    }
  }

  lemma {:induction false} BudgetsAdd(nodes: seq<Node>, p: Policy)
    ensures SumOf(Budgets(nodes, p)) == Sizes(nodes) * p.maxInputPrecision
  {
    if nodes != [] {
      SumFromFront(Budgets(nodes, p));
      assert Budgets(nodes, p)[1..] == Budgets(nodes[1..], p);
      BudgetsAdd(nodes[1..], p);
      assert (Size(nodes[0]) + Sizes(nodes[1..])) * p.maxInputPrecision ==
             Size(nodes[0]) * p.maxInputPrecision + Sizes(nodes[1..]) * p.maxInputPrecision;
    }
  }

  lemma BudgetOfOperation(node: Node, p: Policy)
    requires node.Operation?
    ensures SumOf(Budgets(node.args, p)) <= Budget(node, p)
  {
    BudgetsAdd(node.args, p);
    assert (1 + Sizes(node.args)) * p.maxInputPrecision == p.maxInputPrecision + Sizes(node.args) * p.maxInputPrecision;
  }

  function ExactWorld(w: World): World {
    World(w.env, w.deps, w.policy, Exactly)
  }

  lemma ValueMore(v: Value, m: nat, n: nat)
    requires SizedValue(v, m) && m <= n
    ensures SizedValue(v, n)
  {
    hide SizedScalar;
    if v.Valid? {
      ScalarMore(v.scalar, m, n);
    }
  }

  lemma LeafSize(node: Node, w: World)
    requires !node.Operation? && SizedEnv(w.env, w.policy.maxInputPrecision)
    ensures Eval(node, w) == Eval(node, ExactWorld(w))
    ensures Eval(node, w).Ok? ==> SizedValue(Eval(node, w).value, Budget(node, w.policy))
  {
    if node.Literal? && Eval(node, w).Ok? {
      LiteralSize(node.text, node.sig, w.policy);
    }
    assert Budget(node, w.policy) == w.policy.maxInputPrecision;
    hide EvalLiteral, CheckSig, SizedValue;
  }

  /**
   Every value met while a division-free expression is evaluated has at most as many digits as its
   leaves together, so a context with that precision rounds nothing.
   */
  lemma {:induction false} EvalExact(node: Node, w: World, limit: nat)
    requires DivisionFree(node) && SizedEnv(w.env, w.policy.maxInputPrecision)
    requires Budget(node, w.policy) <= limit && ExactUpTo(w.fl, limit)
    ensures Eval(node, w) == Eval(node, ExactWorld(w))
    ensures Eval(node, w).Ok? ==> SizedValue(Eval(node, w).value, Budget(node, w.policy))
    decreases node
  {
    hide SizedEnv, ExactUpTo, Budget, Apply, SizedValue, EvalLiteral, EvalVariable;
    if !node.Operation? {
      LeafSize(node, w);
    } else {
      BudgetOfOperation(node, w.policy);
      EvalAllExact(node.args, w, limit);
      if EvalAll(node.args, w).Ok? && CheckHead(node.op, |node.args|, node.sig).Ok? {
        var values := EvalAll(node.args, w).value;
        ApplyExact(node.op, node.sig, values, Budgets(node.args, w.policy), w.fl, limit);
        if Apply(node.op, node.sig, values, w.fl).Ok? {
          ValueMore(Apply(node.op, node.sig, values, w.fl).value, SumOf(Budgets(node.args, w.policy)),
                    Budget(node, w.policy));
        }
      }
    }
  }

  lemma {:induction false} EvalAllExact(nodes: seq<Node>, w: World, limit: nat)
    requires AllDivisionFree(nodes) && SizedEnv(w.env, w.policy.maxInputPrecision)
    requires SumOf(Budgets(nodes, w.policy)) <= limit && ExactUpTo(w.fl, limit)
    ensures EvalAll(nodes, w) == EvalAll(nodes, ExactWorld(w))
    ensures EvalAll(nodes, w).Ok? ==> ValuesSized(EvalAll(nodes, w).value, Budgets(nodes, w.policy))
    decreases nodes
  {
    hide SizedEnv, ExactUpTo, SizedValue, Eval, Budget, ExactWorld;
    if nodes != [] {
      SumFromFront(Budgets(nodes, w.policy));
      assert Budgets(nodes, w.policy)[1..] == Budgets(nodes[1..], w.policy);
      EvalExact(nodes[0], w, limit);
      EvalAllExact(nodes[1..], w, limit);
    }
  }

  lemma {:induction false} ShortExact(node: Node, w: World, limit: nat)
    requires DivisionFree(node) && SizedEnv(w.env, w.policy.maxInputPrecision)
    requires Budget(node, w.policy) <= limit && ExactUpTo(w.fl, limit)
    ensures Short(node, w) == Short(node, ExactWorld(w))
    ensures Short(node, w).Ok? ==> SizedValue(Short(node, w).value.value, Budget(node, w.policy))
    decreases node, 1
  {
    hide SizedEnv, ExactUpTo, Budget, Apply, SizedValue, Eval, ArityFits;
    if !node.Operation? {
      LeafSize(node, w);
    } else if node.op != IF {
      BudgetOfOperation(node, w.policy);
      ShortAllExact(node.args, w, limit);
      if ShortAll(node.args, w).Ok? && CheckHead(node.op, |node.args|, node.sig).Ok? {
        var values := ShortAll(node.args, w).value.0;
        ApplyExact(node.op, node.sig, values, Budgets(node.args, w.policy), w.fl, limit);
        if Apply(node.op, node.sig, values, w.fl).Ok? {
          ValueMore(Apply(node.op, node.sig, values, w.fl).value, SumOf(Budgets(node.args, w.policy)),
                    Budget(node, w.policy));
        }
      }
    } else if |node.args| == 3 {
      ShortIfExact(node, w, limit);
    }
  }

  lemma {:induction false} DivisionFreeParts(nodes: seq<Node>)
    requires AllDivisionFree(nodes)
    ensures forall n | n in nodes :: DivisionFree(n)
  {
    if nodes != [] {
      DivisionFreeParts(nodes[1..]);
      assert nodes == [nodes[0]] + nodes[1..];
    }
  }

  lemma BudgetOfPart(node: Node, i: nat, p: Policy)
    requires node.Operation? && i < |node.args|
    ensures Budget(node.args[i], p) <= Budget(node, p)
  {
    OneBelowSum(Budgets(node.args, p), i);
    BudgetOfOperation(node, p);
    hide Budget, SumOf;
  }

  lemma {:induction false} ShortIfExact(node: Node, w: World, limit: nat)
    requires DivisionFree(node) && SizedEnv(w.env, w.policy.maxInputPrecision)
    requires Budget(node, w.policy) <= limit && ExactUpTo(w.fl, limit)
    requires node.Operation? && node.op == IF && |node.args| == 3
    ensures Short(node, w) == Short(node, ExactWorld(w))
    ensures Short(node, w).Ok? ==> SizedValue(Short(node, w).value.value, Budget(node, w.policy))
    decreases node, 0
  {
    hide SizedEnv, ExactUpTo, Budget, SizedScalar, Finish, DependencyReason, DivisionFree;
    var args := node.args;
    assert AllDivisionFree(args) by { DivisionFreeArgs(node); }
    DivisionFreeParts(args);
    assert args[0] in args && args[1] in args && args[2] in args;
    BudgetOfPart(node, 0, w.policy);
    ShortExact(args[0], w, limit);
    ShortBranchExact(node, 1, w, limit);
    ShortBranchExact(node, 2, w, limit);
  }

  lemma DivisionFreeArgs(node: Node)
    requires DivisionFree(node) && node.Operation?
    ensures AllDivisionFree(node.args)
  {
  }

  lemma {:induction false} ShortBranchExact(node: Node, i: nat, w: World, limit: nat)
    requires node.Operation? && i < |node.args| && DivisionFree(node.args[i])
    requires SizedEnv(w.env, w.policy.maxInputPrecision)
    requires Budget(node, w.policy) <= limit && ExactUpTo(w.fl, limit)
    ensures Short(node.args[i], w) == Short(node.args[i], ExactWorld(w))
    ensures Short(node.args[i], w).Ok? ==> SizedValue(Short(node.args[i], w).value.value, Budget(node, w.policy))
    decreases node.args[i], 2
  {
    hide SizedEnv, ExactUpTo, Budget, SizedValue, Short, DivisionFree;
    BudgetOfPart(node, i, w.policy);
    ShortExact(node.args[i], w, limit);
    if Short(node.args[i], w).Ok? {
      ValueMore(Short(node.args[i], w).value.value, Budget(node.args[i], w.policy), Budget(node, w.policy));
    }
  }

  lemma {:induction false} ShortAllExact(nodes: seq<Node>, w: World, limit: nat)
    requires AllDivisionFree(nodes) && SizedEnv(w.env, w.policy.maxInputPrecision)
    requires SumOf(Budgets(nodes, w.policy)) <= limit && ExactUpTo(w.fl, limit)
    ensures ShortAll(nodes, w) == ShortAll(nodes, ExactWorld(w))
    ensures ShortAll(nodes, w).Ok? ==> ValuesSized(ShortAll(nodes, w).value.0, Budgets(nodes, w.policy))
    decreases nodes
  {
    hide SizedEnv, ExactUpTo, SizedValue, Short, Budget, ExactWorld;
    if nodes != [] {
      SumFromFront(Budgets(nodes, w.policy));
      assert Budgets(nodes, w.policy)[1..] == Budgets(nodes[1..], w.policy);
      ShortExact(nodes[0], w, limit);
      ShortAllExact(nodes[1..], w, limit);
    }
  }

  // ----- The context the rules and the runtime evaluate in

  function WorkScale(p: Policy): nat {
    Max(p.maxInputScale, Max(p.calculationScale, Max(p.moneyScale, Max(p.rateScale, p.presentationScale))))
  }

  /** The precision `_decimal_context` sets for `operations` operations. */
  function ContextPrecision(p: Policy, operations: nat): nat {
    p.maxInputPrecision * operations + WorkScale(p) + 8
  }

  lemma WithinContext(node: Node, p: Policy)
    requires Size(node) <= MAX_NODES
    ensures Budget(node, p) <= ContextPrecision(p, MAX_NODES)
  {
    hide Size, WorkScale;
    ProductGrows(Size(node), MAX_NODES, p.maxInputPrecision);
  }

  lemma ProductGrows(a: nat, b: nat, c: nat)
    requires a <= b
    ensures a * c <= b * c
  {
  }

  /** In that context a division-free expression evaluates as if numbers were never rounded on the way. */
  lemma ContextIsExact(node: Node, bindings: seq<Binding>, deps: seq<Name>, p: Policy, fl: real -> real)
    requires DivisionFree(node) && Roomy(node, deps) && ExactUpTo(fl, ContextPrecision(p, MAX_NODES))
    ensures
      var run, exact := LazyEvaluate(node, bindings, deps, p, fl), LazyEvaluate(node, bindings, deps, p, Exactly);
      (run.Ok? <==> exact.Ok?) && (run.Ok? ==> run == exact)
  {
    if ValidateAst(node, deps).Ok? {
      if NamesOf(bindings) <= Names(deps) && AdmitAll(bindings, p).Ok? {
        AcceptedIsExact(node, bindings, deps, p, fl);
      } else {
        EveryVariableIsChecked(node, bindings, deps, p, fl);
        EveryVariableIsChecked(node, bindings, deps, p, Exactly);
      }
    }
  }

  lemma AcceptedIsExact(node: Node, bindings: seq<Binding>, deps: seq<Name>, p: Policy, fl: real -> real)
    requires DivisionFree(node) && Roomy(node, deps) && ExactUpTo(fl, ContextPrecision(p, MAX_NODES))
    requires ValidateAst(node, deps).Ok? && NamesOf(bindings) <= Names(deps) && AdmitAll(bindings, p).Ok?
    ensures
      var run, exact := LazyEvaluate(node, bindings, deps, p, fl), LazyEvaluate(node, bindings, deps, p, Exactly);
      (run.Ok? <==> exact.Ok?) && (run.Ok? ==> run == exact)
  {
    CheckExact(node, 1, 0, Names(deps));
    hide DivisionFree, Roomy, ExactUpTo, LazyEvaluate, AdmitAll, Short, Finish, Budget, ContextPrecision, WellTyped,
      Check, Names, NamesOf;
    var w := World(AdmitAll(bindings, p).value, Names(deps), p, fl);
    WithinContext(node, p);
    AllAdmittedSize(bindings, p);
    ShortExact(node, w, ContextPrecision(p, MAX_NODES));
    LazyIsShortCircuit(node, bindings, deps, p, fl);
    LazyIsShortCircuit(node, bindings, deps, p, Exactly);
  }
}
