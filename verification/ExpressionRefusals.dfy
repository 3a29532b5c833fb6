/**
 Why an expression or a variable is refused: the code of the first condition that fails, in a list of
 conditions on signatures, texts, arguments and limits that follows the expression from left to right.
 */
module ExpressionRefusals {
  import opened Base
  import opened Checks
  import opened Rounding
  import opened Values
  import opened Expression
  import opened Eager
  import opened Lazy
  import opened ValueLaws

  type Conditions = seq<Check<FinanceError>>

  // ----- Signatures and texts

  /** Money names a currency of three capitals, nothing else names one. */
  function SigChecks(sig: Sig): (checks: Conditions) {
    [
      Check(sig.unit != "", ValueSignatureInvalid),
      Check(if sig.valueType == MONEY then sig.currency.Some? && ThreeCapitals(sig.currency.value)
            else sig.currency == None, ValueCurrencyInvalid)
    ]
  }

  predicate ThreeCapitals(s: string) {
    |s| == 3 && forall c <- s :: c in "ABCDEFGHIJKLMNOPQRSTUVWXYZ"
  }

  function LiteralChecks(text: Values.Literal, t: ValueType): (checks: Conditions) {
    match t
    case BOOLEAN => [Check(text.Flag?, ExpressionTypeMismatch)]
    case INTEGER => [
      Check(text.Digits? && text.scale == 0, ExpressionTypeMismatch),
      Check(text.Digits? ==> NumDigits(Abs(text.coefficient)) <= 1000, RoundingInputPrecisionExceeded)
    ]
    case _ => NumberChecks(text, ExpressionNonFiniteLiteral, 1000, 1000)
  }

  function NumberChecks(text: Values.Literal, code: FinanceError, precision: nat, scale: nat): (checks: Conditions) {
    [
      Check(text.Digits?, code),
      Check(text.Digits? ==> DigitCount(text.coefficient, text.scale) <= precision, RoundingInputPrecisionExceeded),
      Check(text.Digits? ==> text.scale <= scale, RoundingInputScaleExceeded)
    ]
  }

  // ----- Operations

  function AlikeChecks(first: Sig, other: Sig): (checks: Conditions) {
    [
      Check(other.valueType == first.valueType, ExpressionTypeMismatch),
      Check(other.unit == first.unit, ExpressionUnitMismatch),
      Check(other.currency == first.currency, ExpressionCurrencyMismatch)
    ]
  }

  /** Every signature after the first is compared with it. */
  function AllAlikeChecks(sigs: seq<Sig>): (checks: Conditions) {
    if |sigs| <= 1 then [] else
      AllAlikeChecks(sigs[..|sigs| - 1]) + AlikeChecks(sigs[0], sigs[|sigs| - 1])
  }

  /** A rate is measured in RATE, a pure number in DIMENSIONLESS. */
  predicate FactorUnit(sig: Sig) {
    (sig.valueType == RATE ==> sig.unit == "RATE") && (sig.valueType == DECIMAL ==> sig.unit == "DIMENSIONLESS")
  }

  function MultiplyChecks(left: Sig, right: Sig, declared: Sig): (checks: Conditions) {
    var product :=
      if left.valueType == MONEY then left else if right.valueType == MONEY then right
      else Sig(DECIMAL, "DIMENSIONLESS", None);
    [
      Check((left.valueType, right.valueType) in
            {(MONEY, RATE), (RATE, MONEY), (MONEY, DECIMAL), (DECIMAL, MONEY), (DECIMAL, DECIMAL)},
            ExpressionTypeMismatch),
      Check(FactorUnit(left) && FactorUnit(right), ExpressionUnitMismatch),
      Check(declared == product, ExpressionTypeMismatch)
    ]
  }

  function DivideChecks(left: Sig, right: Sig, declared: Sig): (checks: Conditions) {
    var quotient :=
      if (left.valueType, right.valueType) == (MONEY, DECIMAL) then left else Sig(DECIMAL, "DIMENSIONLESS", None);
    [
      Check((left.valueType, right.valueType) in {(MONEY, MONEY), (MONEY, DECIMAL), (DECIMAL, DECIMAL)},
            ExpressionTypeMismatch),
      Check(right.valueType == MONEY ==> left.currency == right.currency, ExpressionCurrencyMismatch),
      Check(FactorUnit(left) && FactorUnit(right) && (right.valueType == MONEY ==> left.unit == right.unit),
            ExpressionUnitMismatch),
      Check(declared == quotient, ExpressionTypeMismatch)
    ]
  }

  /** How many arguments an operator takes. */
  predicate Takes(op: Operator, n: nat) {
    || (op in {NEGATE, ABS} && n == 1)
    || (op in {SUBTRACT, MULTIPLY, DIVIDE} && n == 2)
    || (op in {EQUAL, LESS_THAN, LESS_OR_EQUAL, GREATER_THAN, GREATER_OR_EQUAL} && n == 2)
    || (op == IF && n == 3)
    || (op in {ADD, MIN, MAX} && n >= 2)
  }

  /** What is asked of the arguments' signatures and of the declared one, once their number is right. */
  function OperationChecks(op: Operator, sigs: seq<Sig>, declared: Sig): (checks: Conditions) {
    if !Takes(op, |sigs|) then [] else
      match op
      case ADD | SUBTRACT | MIN | MAX | NEGATE | ABS =>
        AllAlikeChecks(sigs) + [Check(sigs[0].valueType != BOOLEAN && sigs[0] == declared, ExpressionTypeMismatch)]
      case MULTIPLY => MultiplyChecks(sigs[0], sigs[1], declared)
      case DIVIDE => DivideChecks(sigs[0], sigs[1], declared)
      case IF =>
        [Check(sigs[0].valueType == BOOLEAN, ExpressionTypeMismatch)] +
        (AllAlikeChecks(sigs[1..]) + [Check(sigs[1] == declared, ExpressionTypeMismatch)])
      case _ =>
        AllAlikeChecks(sigs) + [
          Check(declared == Sig(BOOLEAN, "BOOLEAN", None), ExpressionTypeMismatch),
          Check(op == EQUAL || sigs[0].valueType != BOOLEAN, ExpressionTypeMismatch)
        ]
  }

  function HeadChecks(op: Operator, n: nat, sig: Sig): (checks: Conditions) {
    [
      Check(n <= 16, ExpressionLimitExceeded),
      Check(op != UNKNOWN, ExpressionOperatorForbidden),
      Check(Takes(op, n), ExpressionArityInvalid)
    ] + SigChecks(sig)
  }

  // ----- Expressions

  /** Node number `count` stands at this depth. */
  function LimitChecks(depth: nat, count: nat): (checks: Conditions) {
    [Check(count < 128 && depth <= 24, ExpressionLimitExceeded)]
  }

  /** The conditions on a whole expression: a node, its arguments from left to right, then the operation. */
  function NodeChecks(node: Node, depth: nat, count: nat, deps: set<Name>): (checks: Conditions)
    decreases node
  {
    LimitChecks(depth, count) +
    match node
    case Literal(text, sig) => SigChecks(sig) + LiteralChecks(text, sig.valueType)
    case Variable(name, sig) => [Check(name in deps, ExpressionDependencyUndeclared)] + SigChecks(sig)
    case Operation(op, sig, args) =>
      HeadChecks(op, |args|, sig) +
      (AllNodeChecks(args, depth + 1, count + 1, deps) + OperationChecks(op, NodeSigs(args), sig))
  }

  function AllNodeChecks(nodes: seq<Node>, depth: nat, count: nat, deps: set<Name>): (checks: Conditions)
    decreases nodes
  {
    if nodes == [] then [] else
      NodeChecks(nodes[0], depth, count, deps) + AllNodeChecks(nodes[1..], depth, count + Size(nodes[0]), deps)
  }

  /** At most 128 dependencies, each declared once, and then the expression. */
  function ExpressionChecks(node: Node, deps: seq<Name>): (checks: Conditions) {
    [Check(|deps| <= 128 && |set d | d in deps| == |deps|, ExpressionDependencyUndeclared)] +
    NodeChecks(node, 1, 0, set d | d in deps)
  }

  lemma SigAnswer(sig: Sig)
    ensures AnsweredBy(SigChecks(sig), CheckSig(sig))
  {
    if sig.currency.Some? {
      CurrencyExact(sig.currency.value);
    }
    hide IsCurrency, ThreeCapitals;
    var c := SigChecks(sig);
    if AllHold(c) {
      assert c[0].holds && c[1].holds;
    }
    forall n | 0 <= n < |c| && FirstUnmet(c, n) {
      ShortList(c, n);
    }
  }

  lemma LiteralAnswer(text: Values.Literal, t: ValueType)
    ensures AnsweredBy(LiteralChecks(text, t), CheckLiteral(text, t))
  {
    hide NumDigits, DigitCount, Pow10;
    var c := LiteralChecks(text, t);
    if AllHold(c) {
      assert c[0].holds && (|c| > 1 ==> c[1].holds) && (|c| > 2 ==> c[2].holds);
    }
    forall n | 0 <= n < |c| && FirstUnmet(c, n)
      ensures CheckLiteral(text, t) == Err(c[n].code)
    {
      ShortList(c, n);
    }
  }

  lemma {:induction false} AlikeAnswer(sigs: seq<Sig>)
    requires sigs != []
    ensures AnsweredBy(AllAlikeChecks(sigs), CheckCompatible(sigs))
  {
    if |sigs| > 1 {
      var before, first, last := sigs[..|sigs| - 1], sigs[0], sigs[|sigs| - 1];
      AlikeAnswer(before);
      OneAlikeAnswer(first, last);
      hide AnsweredBy, AlikeChecks;
      Then(AllAlikeChecks(before), AlikeChecks(first, last), CheckCompatible(before), Alike(first, last));
    }
  }

  function Alike(first: Sig, other: Sig): Result<(), FinanceError> {
    var _ :- Need(other.valueType == first.valueType, ExpressionTypeMismatch);
    var _ :- Need(other.unit == first.unit, ExpressionUnitMismatch);
    Need(other.currency == first.currency, ExpressionCurrencyMismatch)
  }

  lemma OneAlikeAnswer(first: Sig, other: Sig)
    ensures AnsweredBy(AlikeChecks(first, other), Alike(first, other))
  {
    var c := AlikeChecks(first, other);
    if AllHold(c) {
      assert c[0].holds && c[1].holds && c[2].holds;
    }
    forall n | 0 <= n < |c| && FirstUnmet(c, n) {
      ShortList(c, n);
    }
  }

  /** The result has the type, unit and currency that were declared for it. */
  function Declared(computed: Result<Sig, FinanceError>, declared: Sig): Result<(), FinanceError> {
    var sig :- computed;
    Need(sig == declared, ExpressionTypeMismatch)
  }

  lemma MultiplyAnswer(left: Sig, right: Sig, declared: Sig)
    ensures AnsweredBy(MultiplyChecks(left, right, declared), Declared(MultiplySig(left, right), declared))
  {
    var c := MultiplyChecks(left, right, declared);
    if AllHold(c) {
      assert c[0].holds && c[1].holds && c[2].holds;
    }
    forall n | 0 <= n < |c| && FirstUnmet(c, n)
      ensures Declared(MultiplySig(left, right), declared) == Err(c[n].code)
    {
      ShortList(c, n);
    }
  }

  lemma DivideAnswer(left: Sig, right: Sig, declared: Sig)
    ensures AnsweredBy(DivideChecks(left, right, declared), Declared(DivideSig(left, right), declared))
  {
    var c := DivideChecks(left, right, declared);
    if AllHold(c) {
      assert c[0].holds && c[1].holds && c[2].holds && c[3].holds;
    }
    forall n | 0 <= n < |c| && FirstUnmet(c, n)
      ensures Declared(DivideSig(left, right), declared) == Err(c[n].code)
    {
      ShortList(c, n);
    }
  }

  lemma TakesExact(op: Operator, n: nat)
    ensures Takes(op, n) <==> ArityFits(op, n)
  {
    AritiesExact(op, n);
  }

  lemma OperationAnswer(op: Operator, sigs: seq<Sig>, declared: Sig)
    requires ArityFits(op, |sigs|)
    ensures AnsweredBy(OperationChecks(op, sigs, declared), CheckOperation(op, sigs, declared))
  {
    hide AnsweredBy, OperationChecks, CheckOperation;
    match op
    case ADD | SUBTRACT | MIN | MAX => AlikeOperationAnswer(op, sigs, declared);
    case NEGATE | ABS => AlikeOperationAnswer(op, sigs, declared);
    case MULTIPLY | DIVIDE => FactorsAnswer(op, sigs, declared);
    case IF => ChoiceAnswer(sigs, declared);
    case UNKNOWN =>
    case EQUAL | LESS_THAN | LESS_OR_EQUAL | GREATER_THAN | GREATER_OR_EQUAL =>
      ComparisonAnswer(op, sigs, declared);
  }

  lemma AlikeOperationAnswer(op: Operator, sigs: seq<Sig>, declared: Sig)
    requires ArityFits(op, |sigs|) && op in {ADD, SUBTRACT, MIN, MAX, NEGATE, ABS}
    ensures AnsweredBy(OperationChecks(op, sigs, declared), CheckOperation(op, sigs, declared))
  {
    hide AnsweredBy, AllAlikeChecks, CheckCompatible;
    TakesExact(op, |sigs|);
    if op in {NEGATE, ABS} {
      OneIsAlike(sigs);
    }
    hide ArityFits, Takes;
    AlikeAnswer(sigs);
    AfterAlike(AllAlikeChecks(sigs), CheckCompatible(sigs), sigs[0].valueType != BOOLEAN && sigs[0] == declared);
  }

  lemma FactorsAnswer(op: Operator, sigs: seq<Sig>, declared: Sig)
    requires ArityFits(op, |sigs|) && op in {MULTIPLY, DIVIDE}
    ensures AnsweredBy(OperationChecks(op, sigs, declared), CheckOperation(op, sigs, declared))
  {
    hide AnsweredBy, MultiplyChecks, MultiplySig, DivideChecks, DivideSig;
    TakesExact(op, |sigs|);
    hide ArityFits, Takes;
    MultiplyAnswer(sigs[0], sigs[1], declared);
    DivideAnswer(sigs[0], sigs[1], declared);
  }

  lemma ChoiceAnswer(sigs: seq<Sig>, declared: Sig)
    requires |sigs| == 3
    ensures AnsweredBy(OperationChecks(IF, sigs, declared), CheckOperation(IF, sigs, declared))
  {
    hide AnsweredBy, AllAlikeChecks, CheckCompatible;
    var branches, condition := sigs[1..], sigs[0].valueType == BOOLEAN;
    var compatible := CheckCompatible(branches);
    AlikeAnswer(branches);
    AfterAlike(AllAlikeChecks(branches), compatible, sigs[1] == declared);
    OneAnswer(condition, ExpressionTypeMismatch);
    Then([Check(condition, ExpressionTypeMismatch)],
         AllAlikeChecks(branches) + [Check(sigs[1] == declared, ExpressionTypeMismatch)],
         Need(condition, ExpressionTypeMismatch),
         if compatible.Ok? then Need(sigs[1] == declared, ExpressionTypeMismatch) else Err(compatible.error));
  }

  lemma ComparisonAnswer(op: Operator, sigs: seq<Sig>, declared: Sig)
    requires ArityFits(op, |sigs|) && op in {EQUAL, LESS_THAN, LESS_OR_EQUAL, GREATER_THAN, GREATER_OR_EQUAL}
    ensures AnsweredBy(OperationChecks(op, sigs, declared), CheckOperation(op, sigs, declared))
  {
    hide AnsweredBy, AllAlikeChecks, CheckCompatible;
    TakesExact(op, |sigs|);
    var plain := sigs[0].valueType != BOOLEAN;
    var truth, ordered := declared == TRUTH, op == EQUAL || plain;
    hide ArityFits, Takes;
    AlikeAnswer(sigs);
    TwoAnswers(truth, ordered, ExpressionTypeMismatch);
    Then(AllAlikeChecks(sigs), [Check(truth, ExpressionTypeMismatch), Check(ordered, ExpressionTypeMismatch)],
         CheckCompatible(sigs), Need(truth && ordered, ExpressionTypeMismatch));
  }

  lemma OneIsAlike(sigs: seq<Sig>)
    requires |sigs| == 1
    ensures CheckCompatible(sigs).Ok?
  {
  }

  lemma AfterAlike(alike: Conditions, compatible: Result<(), FinanceError>, holds: bool)
    requires AnsweredBy(alike, compatible)
    ensures AnsweredBy(alike + [Check(holds, ExpressionTypeMismatch)],
      if compatible.Ok? then Need(holds, ExpressionTypeMismatch) else Err(compatible.error))
  {
    OneAnswer(holds, ExpressionTypeMismatch);
    Then(alike, [Check(holds, ExpressionTypeMismatch)], compatible, Need(holds, ExpressionTypeMismatch));
  }

  lemma TwoAnswers(a: bool, b: bool, code: FinanceError)
    ensures AnsweredBy([Check(a, code), Check(b, code)], Need(a && b, code))
  {
    var c := [Check(a, code), Check(b, code)];
    assert AllHold(c) ==> c[0].holds && c[1].holds;
    forall n | 0 <= n < |c| && FirstUnmet(c, n) {
      ShortList(c, n);
    }
  }

  lemma HeadAnswer(op: Operator, n: nat, sig: Sig)
    ensures AnsweredBy(HeadChecks(op, n, sig), CheckHead(op, n, sig))
    ensures CheckHead(op, n, sig).Ok? ==> ArityFits(op, n)
  {
    TakesExact(op, n);
    hide SigChecks, CheckSig, Takes, ArityFits;
    var head := Conditions3(n <= 16, op != UNKNOWN, Takes(op, n));
    SigAnswer(sig);
    ThreeAnswers(n <= 16, op != UNKNOWN, Takes(op, n));
    hide AnsweredBy;
    Then(head, SigChecks(sig), Head3(n <= 16, op != UNKNOWN, Takes(op, n)), CheckSig(sig));
  }

  function Conditions3(few: bool, known: bool, taken: bool): (checks: Conditions) {
    [
      Check(few, ExpressionLimitExceeded),
      Check(known, ExpressionOperatorForbidden),
      Check(taken, ExpressionArityInvalid)
    ]
  }

  function Head3(few: bool, known: bool, taken: bool): Result<(), FinanceError> {
    var _ :- Need(few, ExpressionLimitExceeded);
    var _ :- Need(known, ExpressionOperatorForbidden);
    Need(taken, ExpressionArityInvalid)
  }

  lemma ThreeAnswers(few: bool, known: bool, taken: bool)
    ensures AnsweredBy(Conditions3(few, known, taken), Head3(few, known, taken))
  {
    var c := Conditions3(few, known, taken);
    if AllHold(c) {
      assert c[0].holds && c[1].holds && c[2].holds;
    }
    forall n | 0 <= n < |c| && FirstUnmet(c, n) {
      ShortList(c, n);
    }
  }

  // ----- The checker

  /** The checker gives the code of the first condition on the expression that fails. */
  lemma {:induction false} NodeAnswer(node: Node, depth: nat, count: nat, deps: set<Name>)
    ensures AnsweredBy(NodeChecks(node, depth, count, deps), Expression.Check(node, depth, count, deps))
    decreases node
  {
    hide AnsweredBy, SigChecks, CheckSig, LiteralChecks, CheckLiteral, HeadChecks, CheckHead, OperationChecks,
      CheckOperation, ArityFits, Takes;
    var within := Need(count < 128 && depth <= 24, ExpressionLimitExceeded);
    OneAnswer(count < 128 && depth <= 24, ExpressionLimitExceeded);
    match node
    case Literal(text, sig) =>
      var signed, written := CheckSig(sig), CheckLiteral(text, sig.valueType);
      SigAnswer(sig);
      LiteralAnswer(text, sig.valueType);
      Then(SigChecks(sig), LiteralChecks(text, sig.valueType), signed, written);
      Then(LimitChecks(depth, count), SigChecks(sig) + LiteralChecks(text, sig.valueType), within,
           if signed.Ok? then written else Err(signed.error));
      SameAnswer(NodeChecks(node, depth, count, deps),
                 if within.Ok? then (if signed.Ok? then written else Err(signed.error)) else Err(within.error),
                 Expression.Check(node, depth, count, deps));
    case Variable(name, sig) =>
      var named, signed := Need(name in deps, ExpressionDependencyUndeclared), CheckSig(sig);
      OneAnswer(name in deps, ExpressionDependencyUndeclared);
      SigAnswer(sig);
      Then([Check(name in deps, ExpressionDependencyUndeclared)], SigChecks(sig), named, signed);
      Then(LimitChecks(depth, count), [Check(name in deps, ExpressionDependencyUndeclared)] + SigChecks(sig), within,
           if named.Ok? then signed else Err(named.error));
      SameAnswer(NodeChecks(node, depth, count, deps),
                 if within.Ok? then (if named.Ok? then signed else Err(named.error)) else Err(within.error),
                 Expression.Check(node, depth, count, deps));
    case Operation(op, sig, args) =>
      var head := CheckHead(op, |args|, sig);
      var rest := AllNodeChecks(args, depth + 1, count + 1, deps) + OperationChecks(op, NodeSigs(args), sig);
      HeadAnswer(op, |args|, sig);
      var tail := ArgumentsAnswer(op, sig, args, depth + 1, count + 1, deps);
      Then(HeadChecks(op, |args|, sig), rest, head, tail);
      Then(LimitChecks(depth, count), HeadChecks(op, |args|, sig) + rest, within,
           if head.Ok? then tail else Err(head.error));
      SameAnswer(NodeChecks(node, depth, count, deps),
                 if within.Ok? then (if head.Ok? then tail else Err(head.error)) else Err(within.error),
                 Expression.Check(node, depth, count, deps));
  }

  /** The arguments, and then the operation on their signatures. */
  lemma {:induction false} ArgumentsAnswer(op: Operator, sig: Sig, args: seq<Node>, depth: nat, count: nat,
                                          deps: set<Name>)
    returns (r: Result<nat, FinanceError>)
    ensures AnsweredBy(AllNodeChecks(args, depth, count, deps) + OperationChecks(op, NodeSigs(args), sig), r)
    ensures ArityFits(op, |args|) ==>
      var all := CheckAll(args, depth, count, deps);
      var fits := CheckOperation(op, NodeSigs(args), sig);
      r == if all.Err? then all else if fits.Ok? then Ok(all.value) else Err(fits.error)
    decreases args, 1
  {
    hide AnsweredBy, OperationChecks, CheckOperation;
    var all := CheckAll(args, depth, count, deps);
    AllNodesAnswer(args, depth, count, deps);
    TakesExact(op, |args|);
    if Takes(op, |args|) {
      var fits := CheckOperation(op, NodeSigs(args), sig);
      OperationAnswer(op, NodeSigs(args), sig);
      Then(AllNodeChecks(args, depth, count, deps), OperationChecks(op, NodeSigs(args), sig), all, fits);
      r := if all.Err? then all else if fits.Ok? then Ok(all.value) else Err(fits.error);
      SameAnswer(AllNodeChecks(args, depth, count, deps) + OperationChecks(op, NodeSigs(args), sig),
                 if all.Ok? then fits else Err(all.error), r);
    } else {
      r := all;
      NothingAsked(op, NodeSigs(args), sig);
      assert AllNodeChecks(args, depth, count, deps) + [] == AllNodeChecks(args, depth, count, deps);
    }
  }

  lemma NothingAsked(op: Operator, sigs: seq<Sig>, declared: Sig)
    requires !Takes(op, |sigs|)
    ensures OperationChecks(op, sigs, declared) == []
  {
  }

  lemma {:induction false} AllNodesAnswer(nodes: seq<Node>, depth: nat, count: nat, deps: set<Name>)
    ensures AnsweredBy(AllNodeChecks(nodes, depth, count, deps), CheckAll(nodes, depth, count, deps))
    decreases nodes, 0
  {
    hide NodeChecks, Expression.Check;
    if nodes != [] {
      var first := Expression.Check(nodes[0], depth, count, deps);
      var rest := CheckAll(nodes[1..], depth, count + Size(nodes[0]), deps);
      NodeAnswer(nodes[0], depth, count, deps);
      CheckExact(nodes[0], depth, count, deps);
      AllNodesAnswer(nodes[1..], depth, count + Size(nodes[0]), deps);
      hide AnsweredBy, AllNodeChecks;
      Then(NodeChecks(nodes[0], depth, count, deps), AllNodeChecks(nodes[1..], depth, count + Size(nodes[0]), deps),
           first, rest);
    }
  }

  lemma ExpressionAnswer(node: Node, deps: seq<Name>)
    ensures AnsweredBy(ExpressionChecks(node, deps), ValidateAst(node, deps))
  {
    hide AnsweredBy, NodeChecks, Expression.Check;
    var names := set d | d in deps;
    assert Names(deps) == names;
    var few := |deps| <= 128 && |names| == |deps|;
    OneAnswer(few, ExpressionDependencyUndeclared);
    NodeAnswer(node, 1, 0, names);
    Then([Check(few, ExpressionDependencyUndeclared)], NodeChecks(node, 1, 0, names),
         Need(few, ExpressionDependencyUndeclared), Expression.Check(node, 1, 0, names));
    SameAnswer(ExpressionChecks(node, deps),
               if few then Expression.Check(node, 1, 0, names) else Err(ExpressionDependencyUndeclared),
               ValidateAst(node, deps));
  }

  /** Nothing is evaluated of an expression that fails one of its conditions. */
  lemma ExpressionRefusal(node: Node, bindings: seq<Binding>, deps: seq<Name>, p: Policy, fl: real -> real, n: nat)
    requires n < |ExpressionChecks(node, deps)| && FirstUnmet(ExpressionChecks(node, deps), n)
    ensures LazyEvaluate(node, bindings, deps, p, fl) == Err(ExpressionChecks(node, deps)[n].code)
  {
    hide FirstUnmet, ExpressionChecks, ValidateAst;
    ExpressionAnswer(node, deps);
  }

  // ----- Variables

  function ScalarChecks(text: Values.Literal, t: ValueType, p: Policy): (checks: Conditions) {
    match t
    case BOOLEAN => [Check(text.Flag?, ValueTypeInvalid)]
    case INTEGER => [
      Check(text.Digits? && text.scale == 0, ValueTypeInvalid),
      Check(text.Digits? ==> NumDigits(Abs(text.coefficient)) <= 1000, RoundingInputPrecisionExceeded),
      Check(text.Digits? ==> NumDigits(Abs(text.coefficient)) <= p.maxInputPrecision, RoundingInputPrecisionExceeded)
    ]
    case _ =>
      NumberChecks(text, ValueDecimalInvalid, 1000, 1000) +
      (NumberChecks(text, ValueDecimalInvalid, p.maxInputPrecision, p.maxInputScale) +
       [Check(RuleInputNormalization in p.points, RoundingPointForbidden)])
  }

  /** A value has a text that can be read, anything else a reason. */
  function BindingChecks(b: Binding, p: Policy): (checks: Conditions) {
    SigChecks(b.input.sig) +
    if b.input.Missing? then [Check(b.input.reason != "", TypedValueMalformed)]
    else ScalarChecks(b.input.text, b.input.sig.valueType, p)
  }

  /** A variable is declared, given, and used with the signature of its value. */
  function VariableChecks(name: Name, sig: Sig, w: World): (checks: Conditions) {
    [
      Check(name in w.deps, ExpressionDependencyUndeclared),
      Check(name in w.env, ExpressionVariableUnknown)
    ] + (SigChecks(sig) + if name in w.env then AlikeChecks(w.env[name].sig, sig) else [])
  }

  lemma NumberAnswer(text: Values.Literal, code: FinanceError, precision: nat, scale: nat)
    ensures AnsweredBy(NumberChecks(text, code, precision, scale), ParseDecimal(text, code, precision, scale))
  {
    hide NumDigits, DigitCount, Pow10;
    var c := NumberChecks(text, code, precision, scale);
    if AllHold(c) {
      assert c[0].holds && c[1].holds && c[2].holds;
    }
    forall n | 0 <= n < |c| && FirstUnmet(c, n)
      ensures ParseDecimal(text, code, precision, scale) == Err(c[n].code)
    {
      ShortList(c, n);
    }
  }

  lemma ScalarAnswer(text: Values.Literal, t: ValueType, p: Policy)
    ensures AnsweredBy(ScalarChecks(text, t, p), AdmitScalar(text, t, p))
  {
    hide NumDigits, DigitCount, Pow10, RoundTo;
    if t in {BOOLEAN, INTEGER} {
      var c := ScalarChecks(text, t, p);
      if AllHold(c) {
        assert c[0].holds && (|c| > 1 ==> c[1].holds) && (|c| > 2 ==> c[2].holds);
      }
      forall n | 0 <= n < |c| && FirstUnmet(c, n)
        ensures AdmitScalar(text, t, p) == Err(c[n].code)
      {
        ShortList(c, n);
      }
    } else {
      DecimalAnswer(text, t, p);
    }
  }

  lemma DecimalAnswer(text: Values.Literal, t: ValueType, p: Policy)
    requires t in {MONEY, DECIMAL, RATE}
    ensures AnsweredBy(ScalarChecks(text, t, p), AdmitScalar(text, t, p))
  {
    hide AnsweredBy, NumberChecks, ParseDecimal, RoundTo;
    var allowed := RuleInputNormalization in p.points;
    var point := [Check(allowed, RoundingPointForbidden)];
    var parsed := ParseDecimal(text, ValueDecimalInvalid, MAX_INPUT_PRECISION, MAX_INPUT_SCALE);
    var short := ParseDecimal(text, ValueDecimalInvalid, p.maxInputPrecision, p.maxInputScale);
    NumberAnswer(text, ValueDecimalInvalid, MAX_INPUT_PRECISION, MAX_INPUT_SCALE);
    NumberAnswer(text, ValueDecimalInvalid, p.maxInputPrecision, p.maxInputScale);
    OneAnswer(allowed, RoundingPointForbidden);
    var last := if short.Ok? then Need(allowed, RoundingPointForbidden) else Err(short.error);
    var own := NumberChecks(text, ValueDecimalInvalid, p.maxInputPrecision, p.maxInputScale);
    Then(own, point, short, Need(allowed, RoundingPointForbidden));
    Then(NumberChecks(text, ValueDecimalInvalid, MAX_INPUT_PRECISION, MAX_INPUT_SCALE), own + point, parsed, last);
    SameAnswer(ScalarChecks(text, t, p), if parsed.Ok? then last else Err(parsed.error), AdmitScalar(text, t, p));
  }

  lemma BindingAnswer(b: Binding, p: Policy)
    ensures AnsweredBy(BindingChecks(b, p), Admit(b, p))
  {
    hide AnsweredBy, SigChecks, CheckSig, ScalarChecks, AdmitScalar;
    SigAnswer(b.input.sig);
    match b.input
    case Missing(_, sig, reason, _) =>
      OneAnswer(reason != "", TypedValueMalformed);
      Then(SigChecks(sig), [Check(reason != "", TypedValueMalformed)], CheckSig(sig),
           Need(reason != "", TypedValueMalformed));
      SameAnswer(BindingChecks(b, p),
                 if CheckSig(sig).Ok? then Need(reason != "", TypedValueMalformed) else Err(CheckSig(sig).error),
                 Admit(b, p));
    case Present(text, sig, _) =>
      ScalarAnswer(text, sig.valueType, p);
      Then(SigChecks(sig), ScalarChecks(text, sig.valueType, p), CheckSig(sig), AdmitScalar(text, sig.valueType, p));
      SameAnswer(BindingChecks(b, p),
                 if CheckSig(sig).Ok? then AdmitScalar(text, sig.valueType, p) else Err(CheckSig(sig).error),
                 Admit(b, p));
  }

  lemma VariableAnswer(name: Name, sig: Sig, w: World)
    ensures AnsweredBy(VariableChecks(name, sig, w), EvalVariable(name, sig, w))
  {
    var declared, given := name in w.deps, name in w.env;
    var head := [Check(declared, ExpressionDependencyUndeclared), Check(given, ExpressionVariableUnknown)];
    var known := KnownName(declared, given);
    KnownAnswer(declared, given);
    SigAnswer(sig);
    hide AnsweredBy, SigChecks, CheckSig, AlikeChecks;
    if given {
      var actual := w.env[name].sig;
      OneAlikeAnswer(actual, sig);
      var rest := if CheckSig(sig).Ok? then Alike(actual, sig) else Err(CheckSig(sig).error);
      Then(SigChecks(sig), AlikeChecks(actual, sig), CheckSig(sig), Alike(actual, sig));
      Then(head, SigChecks(sig) + AlikeChecks(actual, sig), known, rest);
      SameAnswer(VariableChecks(name, sig, w), if known.Ok? then rest else Err(known.error),
                 EvalVariable(name, sig, w));
    } else {
      Then(head, SigChecks(sig), known, CheckSig(sig));
      assert SigChecks(sig) + [] == SigChecks(sig);
      SameAnswer(VariableChecks(name, sig, w), if known.Ok? then CheckSig(sig) else Err(known.error),
                 EvalVariable(name, sig, w));
    }
  }

  function KnownName(declared: bool, given: bool): Result<(), FinanceError> {
    var _ :- Need(declared, ExpressionDependencyUndeclared);
    Need(given, ExpressionVariableUnknown)
  }

  lemma KnownAnswer(declared: bool, given: bool)
    ensures AnsweredBy([Check(declared, ExpressionDependencyUndeclared), Check(given, ExpressionVariableUnknown)],
                       KnownName(declared, given))
  {
    var c := [Check(declared, ExpressionDependencyUndeclared), Check(given, ExpressionVariableUnknown)];
    if AllHold(c) {
      assert c[0].holds && c[1].holds;
    }
    forall n | 0 <= n < |c| && FirstUnmet(c, n) {
      ShortList(c, n);
    }
  }

  /** The conditions on all variables, in the order they are given. */
  function BindingsChecks(bindings: seq<Binding>, p: Policy): (checks: Conditions) {
    if bindings == [] then [] else
      BindingsChecks(bindings[..|bindings| - 1], p) + BindingChecks(bindings[|bindings| - 1], p)
  }

  /** The first variable that fails, with the first of its conditions that fails, gives the code. */
  lemma {:induction false} BindingsAnswer(bindings: seq<Binding>, p: Policy)
    ensures AnsweredBy(BindingsChecks(bindings, p), AdmitAll(bindings, p))
  {
    hide BindingChecks, Admit;
    if bindings != [] {
      var before, last := bindings[..|bindings| - 1], bindings[|bindings| - 1];
      BindingsAnswer(before, p);
      BindingAnswer(last, p);
      hide AnsweredBy;
      Then(BindingsChecks(before, p), BindingChecks(last, p), AdmitAll(before, p), Admit(last, p));
      SameAnswer(BindingsChecks(bindings, p),
                 if AdmitAll(before, p).Ok? then Admit(last, p) else Err(AdmitAll(before, p).error),
                 AdmitAll(bindings, p));
    }
  }
}
