/** Lazy evaluation gives more values than eager evaluation: `IF true THEN 1 ELSE 1 / 0`. */
module LazyExample {
  import opened Base
  import opened Rounding
  import opened Values
  import opened Expression
  import opened Eager
  import opened Soundness
  import opened Lazy
  import opened LazyShape
  import opened LazyResults

  const PURE := Sig(DECIMAL, "DIMENSIONLESS", None)

  function Number(n: nat): Node {
    Expression.Literal(Digits(n, 0), PURE)
  }

  const YES := Expression.Literal(Flag(true), TRUTH)
  const DIVISION := Operation(DIVIDE, PURE, [Number(1), Number(0)])
  const CHOICE := Operation(IF, PURE, [YES, Number(1), DIVISION])

  predicate Usable(p: Policy) {
    p.maxInputPrecision >= 1 && RuleInputNormalization in p.points && RuleComponentResult in p.points
  }

  function WorldFor(p: Policy, fl: real -> real): World {
    World(map[], {}, p, fl)
  }

  lemma NumberValue(n: nat, p: Policy, fl: real -> real)
    requires n < 10 && Usable(p)
    ensures Eval(Number(n), WorldFor(p, fl)) == Ok(Valid(Num(n as real), PURE, {}))
  {
    assert NumDigits(Abs(n)) == 1 && Pow10(0) == 1;
    assert n as real / Pow10(0) as real == n as real;
    assert IsWhole(Scaled(n as real, 0), n);
    FitsMore(n as real, 0, p.calculationScale);
    RoundToFixes(n as real, p.calculationScale, p.calculationMode);
    hide RoundTo, NumDigits;
  }

  lemma YesValue(p: Policy, fl: real -> real)
    ensures Eval(YES, WorldFor(p, fl)) == Ok(Valid(Truth(true), TRUTH, {}))
  {
  }

  lemma ChoiceIsAccepted()
    ensures ValidateAst(CHOICE, []).Ok? && Roomy(CHOICE, [])
  {
    DivisionIsTyped();
    assert Names([]) == {};
    assert [YES, Number(1), DIVISION][1..] == [Number(1), DIVISION] && [Number(1), DIVISION][1..] == [DIVISION] &&
      [DIVISION][1..] == [];
    assert AllTyped([DIVISION], {}) && WellTyped(Number(1), {}) && AllTyped([Number(1), DIVISION], {}) &&
      WellTyped(YES, {});
    assert AllTyped([YES, Number(1), DIVISION], {});
    assert NodeSigs(CHOICE.args) == [TRUTH, PURE, PURE];
    ChoiceIsSmall();
    CheckExact(CHOICE, 1, 0, {});
  }

  lemma DivisionIsTyped()
    ensures WellTyped(DIVISION, {})
  {
    assert [Number(1), Number(0)][1..] == [Number(0)] && [Number(0)][1..] == [];
    assert WellTyped(Number(0), {}) && WellTyped(Number(1), {}) && AllTyped([Number(0)], {}) &&
      AllTyped([Number(1), Number(0)], {});
    assert NodeSigs(DIVISION.args) == [PURE, PURE];
  }

  lemma ChoiceIsSmall()
    ensures Size(CHOICE) == 6 && Height(CHOICE) == 3 && Ifs(CHOICE) == 1
  {
    assert [Number(1), Number(0)][1..] == [Number(0)] && [Number(0)][1..] == [];
    assert Sizes([Number(0)]) == 1 && Heights([Number(0)]) == 1 && AllIfs([Number(0)]) == 0;
    assert Size(DIVISION) == 3 && Height(DIVISION) == 2 && Ifs(DIVISION) == 0;
    assert [YES, Number(1), DIVISION][1..] == [Number(1), DIVISION] && [Number(1), DIVISION][1..] == [DIVISION] &&
      [DIVISION][1..] == [];
    assert Sizes([DIVISION]) == 3 && Heights([DIVISION]) == 2 && AllIfs([DIVISION]) == 0;
    assert Sizes([Number(1), DIVISION]) == 4 && Heights([Number(1), DIVISION]) == 2 &&
      AllIfs([Number(1), DIVISION]) == 0;
    var all := [YES, Number(1), DIVISION];
    assert Size(YES) == 1 && Height(YES) == 1 && Ifs(YES) == 0;
    assert Sizes(all) == 5 && Heights(all) == 2 && AllIfs(all) == 0;
  }

  /** Eagerly the division by zero blocks the whole expression; lazily its value is one. */
  lemma LazyGivesMore(p: Policy, fl: real -> real)
    requires Usable(p)
    ensures LazyEvaluate(CHOICE, [], [], p, fl) == Ok(Valid(Num(1.0), PURE, {}))
    ensures Evaluate(CHOICE, [], [], p, fl).Err? || Evaluate(CHOICE, [], [], p, fl).value.NonValid?
  {
    ChoiceIsAccepted();
    LazySide(p, fl);
    EagerSide(p, fl);
  }

  lemma LazySide(p: Policy, fl: real -> real)
    requires Usable(p)
    ensures LazyEvaluate(CHOICE, [], [], p, fl) == Ok(Valid(Num(1.0), PURE, {}))
  {
    ChoiceIsAccepted();
    assert Names([]) == {} && NamesOf([]) == {};
    LazyIsShortCircuit(CHOICE, [], [], p, fl);
    var w := WorldFor(p, fl);
    NumberValue(1, p, fl);
    YesValue(p, fl);
    assert IsWhole(Scaled(1.0, 0), 1);
    FitsMore(1.0, 0, p.calculationScale);
    RoundToFixes(1.0, p.calculationScale, p.calculationMode);
    hide Eval, LazyEvaluate, RoundTo, ValidateAst;
    assert Short(YES, w) == Ok(Seen(Valid(Truth(true), TRUTH, {}), {}));
    assert Short(Number(1), w) == Ok(Seen(Valid(Num(1.0), PURE, {}), {}));
    assert Short(CHOICE, w) == Ok(Seen(Valid(Num(1.0), PURE, {}), {} + {} + {}));
  }

  lemma EagerSide(p: Policy, fl: real -> real)
    requires Usable(p)
    ensures Evaluate(CHOICE, [], [], p, fl).Err? || Evaluate(CHOICE, [], [], p, fl).value.NonValid?
  {
    var w := WorldFor(p, fl);
    assert Names([]) == {} && NamesOf([]) == {};
    ChoiceIsSmall();
    EvaluateIsEval(CHOICE, [], [], p, fl);
    DivisionBlocks(p, fl);
    var values := EvalAll(CHOICE.args, w);
    if values.Ok? && Eval(CHOICE, w).Ok? {
      EvalAt(CHOICE.args, w, 2);
      assert values.value[2] in values.value && values.value[2].NonValid?;
      if Eval(CHOICE, w).value.Valid? {
        ValidArguments(IF, PURE, values.value, fl);
      }
    }
  }

  lemma DivisionBlocks(p: Policy, fl: real -> real)
    requires Usable(p)
    ensures Eval(DIVISION, WorldFor(p, fl)).Err? || Eval(DIVISION, WorldFor(p, fl)).value.NonValid?
  {
    var w := WorldFor(p, fl);
    NumberValue(0, p, fl);
    var values := EvalAll(DIVISION.args, w);
    if values.Ok? {
      EvalAt(DIVISION.args, w, 1);
      assert values.value[1] == Valid(Num(0.0), PURE, {});
    }
    hide EvalLiteral, CheckOperation;
  }

  // ----- Two failures

  /** Five digits, none of them after the point. */
  const NARROW := Policy(HalfEven, 0, 0, 0, HalfEven, 0, {RuleInputNormalization, RuleComponentResult}, 5, 0)

  const TOO_LONG := Expression.Literal(Digits(100000, 0), PURE)
  const TOO_FINE := Expression.Literal(Digits(1, 1), PURE)
  const DOUBT := Operation(EQUAL, TRUTH, [TOO_FINE, TOO_FINE])
  const DOUBTFUL := Operation(IF, PURE, [DOUBT, Number(1), Number(1)])
  const BOTH_FAIL := Operation(ADD, PURE, [TOO_LONG, DOUBTFUL])

  lemma LiteralsFail(fl: real -> real)
    ensures Eval(TOO_LONG, WorldFor(NARROW, fl)) == Err(RoundingInputPrecisionExceeded)
    ensures Eval(TOO_FINE, WorldFor(NARROW, fl)) == Err(RoundingInputScaleExceeded)
  {
    assert NumDigits(100000) == 1 + NumDigits(10000) == 2 + NumDigits(1000) == 3 + NumDigits(100) == 6;
    assert NumDigits(1) == 1;
    hide RoundTo;
  }

  lemma DoubtIsTyped()
    ensures WellTyped(DOUBT, {}) && Size(DOUBT) == 3 && Height(DOUBT) == 2 && Ifs(DOUBT) == 0
  {
    var args := [TOO_FINE, TOO_FINE];
    assert args[1..] == [TOO_FINE] && [TOO_FINE][1..] == [];
    assert WellTyped(TOO_FINE, {}) && AllTyped([TOO_FINE], {}) && AllTyped(args, {});
    assert NodeSigs(args) == [PURE, PURE];
    assert Sizes([TOO_FINE]) == 1 && Heights([TOO_FINE]) == 1 && AllIfs([TOO_FINE]) == 0;
  }

  lemma DoubtfulIsTyped()
    ensures WellTyped(DOUBTFUL, {}) && Size(DOUBTFUL) == 6 && Height(DOUBTFUL) == 3 && Ifs(DOUBTFUL) == 1
  {
    DoubtIsTyped();
    hide Typed;
    var one := Number(1);
    var args := [DOUBT, one, one];
    assert args[1..] == [one, one] && [one, one][1..] == [one] && [one][1..] == [];
    assert WellTyped(one, {}) && AllTyped([one], {}) && AllTyped([one, one], {}) && AllTyped(args, {});
    assert Sizes([one]) == 1 && Heights([one]) == 1 && AllIfs([one]) == 0;
    assert Sizes([one, one]) == 2 && Heights([one, one]) == 1 && AllIfs([one, one]) == 0;
    assert NodeSigs(args) == [TRUTH, PURE, PURE];
    IfIsTyped();
  }

  lemma IfIsTyped()
    ensures Typed(IF, [TRUTH, PURE, PURE], PURE)
  {
  }

  lemma BothAreAccepted()
    ensures ValidateAst(BOTH_FAIL, []).Ok? && Roomy(BOTH_FAIL, [])
  {
    DoubtfulIsTyped();
    hide WellTyped, Size, Height, Ifs;
    BothAreTyped();
    assert Names([]) == {};
    CheckExact(BOTH_FAIL, 1, 0, {});
  }

  lemma BothAreTyped()
    ensures WellTyped(BOTH_FAIL, {}) && Size(BOTH_FAIL) == 8 && Height(BOTH_FAIL) == 4 && Ifs(BOTH_FAIL) == 1
  {
    DoubtfulIsTyped();
    var args := [TOO_LONG, DOUBTFUL];
    assert args[1..] == [DOUBTFUL] && [DOUBTFUL][1..] == [];
    assert WellTyped(TOO_LONG, {}) && AllTyped([DOUBTFUL], {}) && AllTyped(args, {});
    assert NodeSigs(args) == [PURE, PURE];
    hide WellTyped, AllTyped;
    assert Sizes([DOUBTFUL]) == 6 && Heights([DOUBTFUL]) == 3 && AllIfs([DOUBTFUL]) == 1;
    assert Size(TOO_LONG) == 1 && Height(TOO_LONG) == 1 && Ifs(TOO_LONG) == 0;
    assert Sizes(args) == 7 && Heights(args) == 3 && AllIfs(args) == 1;
  }

  lemma TwoConditions(a: Node, b: Node, w: World)
    ensures AllConditions([a, b], w).Ok? <==> Conditions(a, w).Ok? && Conditions(b, w).Ok?
    ensures AllConditions([a, b], w).Err? ==>
      AllConditions([a, b], w) == Err(if Conditions(a, w).Err? then Conditions(a, w).error else Conditions(b, w).error)
  {
    hide Conditions;
    assert [a, b][1..] == [b] && [b][1..] == [];
    assert AllConditions([b], w).Ok? <==> Conditions(b, w).Ok?;
    assert AllConditions([b], w).Err? ==> AllConditions([b], w).error == Conditions(b, w).error;
  }

  lemma DoubtFails(fl: real -> real)
    ensures Conditions(DOUBTFUL, WorldFor(NARROW, fl)) == Err(RoundingInputScaleExceeded)
  {
    LiteralsFail(fl);
    var w := WorldFor(NARROW, fl);
    hide Eval, Finish;
    var args := [TOO_FINE, TOO_FINE];
    assert args[1..] == [TOO_FINE] && [TOO_FINE][1..] == [];
    TwoConditions(TOO_FINE, TOO_FINE, w);
    assert ShortAll(args, w) == Err(RoundingInputScaleExceeded);
    assert Short(DOUBT, w) == Err(RoundingInputScaleExceeded);
  }

  /** An argument that is too long fails first in the text; the lazy evaluator reports the condition after it. */
  lemma CodesMayDiffer(fl: real -> real)
    ensures LazyEvaluate(BOTH_FAIL, [], [], NARROW, fl) == Err(RoundingInputScaleExceeded)
    ensures Semantics(BOTH_FAIL, WorldFor(NARROW, fl)) == Err(RoundingInputPrecisionExceeded)
  {
    var w, args := WorldFor(NARROW, fl), [TOO_LONG, DOUBTFUL];
    BothAreAccepted();
    LiteralsFail(fl);
    DoubtFails(fl);
    assert Names([]) == {} && NamesOf([]) == {};
    LazyExact(BOTH_FAIL, [], [], NARROW, fl);
    hide Eval, LazyEvaluate, Finish, ValidateAst;
    assert args[1..] == [DOUBTFUL];
    TwoConditions(TOO_LONG, DOUBTFUL, w);
    assert ShortAll(args, w) == Err(RoundingInputPrecisionExceeded);
  }
}
