/**
 What texts, variables and results come to, which limits hold, and what stands for values that are not
 all VALID, with every number and every word written out.
 */
module ValueLaws {
  import opened Base
  import opened Rounding
  import opened Sorting
  import opened Values
  import opened Expression
  import opened Eager

  // ----- Limits

  /** Who may stand before how many arguments. */
  lemma AritiesExact(op: Operator, n: nat)
    ensures ArityFits(op, n) <==>
      || (op in {NEGATE, ABS} && n == 1)
      || (op in {SUBTRACT, MULTIPLY, DIVIDE} && n == 2)
      || (op in {EQUAL, LESS_THAN, LESS_OR_EQUAL, GREATER_THAN, GREATER_OR_EQUAL} && n == 2)
      || (op == IF && n == 3)
      || (op in {ADD, MIN, MAX} && n >= 2)
  {
  }

  /** At most 128 nodes, 24 levels, 16 arguments and 128 distinct dependencies. */
  lemma LimitsExact(node: Node, deps: seq<Name>)
    ensures ValidateAst(node, deps).Ok? <==>
      && |deps| <= 128 && (forall i, j :: 0 <= i < j < |deps| ==> deps[i] != deps[j])
      && WellTyped(node, set d | d in deps) && Size(node) <= 128 && Height(node) <= 24
    ensures node.Operation? && WellTyped(node, set d | d in deps) ==> |node.args| <= 16
  {
    hide Check, WellTyped, Size, Height;
    assert Names(deps) == set d | d in deps;
    DistinctExact(deps);
    CheckExact(node, 1, 0, Names(deps));
    ArgumentsExact(node, Names(deps));
  }

  lemma ArgumentsExact(node: Node, deps: set<Name>)
    ensures node.Operation? && WellTyped(node, deps) ==> |node.args| <= 16
  {
  }

  lemma NamesGrow(before: seq<Name>, last: Name)
    ensures Names(before + [last]) == Names(before) + {last}
    ensures last in Names(before) <==> last in before
  {
    forall d
      ensures d in Names(before + [last]) <==> d in Names(before) + {last}
    {
      assert d in before + [last] <==> d in before || d == last;
    }
  }

  lemma {:induction false} DistinctExact(deps: seq<Name>)
    ensures |Names(deps)| <= |deps|
    ensures |Names(deps)| == |deps| <==> forall i, j :: 0 <= i < j < |deps| ==> deps[i] != deps[j]
  {
    if deps != [] {
      var before, last := deps[..|deps| - 1], deps[|deps| - 1];
      DistinctExact(before);
      assert deps == before + [last];
      NamesGrow(before, last);
      hide Names;
      if last in before {
        assert Names(before) + {last} == Names(before);
      }
    }
  }

  /** Three capital letters. */
  lemma CurrencyExact(s: string)
    ensures IsCurrency(s) <==> |s| == 3 && forall c <- s :: c in "ABCDEFGHIJKLMNOPQRSTUVWXYZ"
  {
    forall c: char {
      CapitalExact(c);
    }
    if forall c <- s :: c in "ABCDEFGHIJKLMNOPQRSTUVWXYZ" {
      forall i | 0 <= i < |s|
        ensures 'A' <= s[i] <= 'Z'
      {
        assert s[i] in s;
      }
    }
  }

  lemma CapitalExact(c: char)
    ensures 'A' <= c <= 'Z' <==> c in "ABCDEFGHIJKLMNOPQRSTUVWXYZ"
  {
    var letters := "ABCDEFGHIJKLMNOPQRSTUVWXYZ";
    if 'A' <= c <= 'Z' {
      assert letters[c as int - 'A' as int] == c;
    }
  }

  // ----- Texts

  /** A decimal text is within a precision when coefficient and scale are: `0.05` takes three digits. */
  lemma DigitCountExact(coefficient: int, scale: nat, precision: nat)
    requires precision >= 1
    ensures DigitCount(coefficient, scale) <= precision <==>
      -Pow10(precision) < coefficient < Pow10(precision) && scale < precision
  {
    var n := Abs(coefficient);
    DigitsBound(n);
    if n > 0 {
      DigitsLowerBound(n);
    }
    hide Pow10, NumDigits;
    if NumDigits(n) <= precision {
      Pow10Grows(NumDigits(n), precision);
    } else if n > 0 {
      Pow10Grows(precision, NumDigits(n) - 1);
    }
  }

  /** What a decimal text comes to: its number, rounded to the calculation scale of the policy. */
  lemma DecimalTextLaw(coefficient: int, scale: nat, p: Policy, code: FinanceError, n: int)
    requires p.maxInputPrecision >= 1
    ensures
      var text, r := Digits(coefficient, scale), InputDecimal(Digits(coefficient, scale), p, code);
      var short := -Pow10(p.maxInputPrecision) < coefficient < Pow10(p.maxInputPrecision)
                   && scale < p.maxInputPrecision;
      if !short then r == Err(RoundingInputPrecisionExceeded)
      else if scale > p.maxInputScale then r == Err(RoundingInputScaleExceeded)
      else if RuleInputNormalization !in p.points then r == Err(RoundingPointForbidden)
      else
        r == Ok(n as real / Pow10(p.calculationScale) as real) <==>
        IsRounded(Scaled(coefficient as real / Pow10(scale) as real, p.calculationScale), n, p.calculationMode)
  {
    hide DigitCount, IsRounded, Scaled, Pow10, Quantize;
    DigitCountExact(coefficient, scale, p.maxInputPrecision);
    QuantizeMeaning(coefficient as real / Pow10(scale) as real, p, RuleInputNormalization, DECIMAL, n);
  }

  /** What a literal comes to when its signature is good. */
  lemma LiteralLaw(text: Values.Literal, sig: Sig, p: Policy)
    requires GoodSig(sig)
    ensures sig.valueType == BOOLEAN ==>
      EvalLiteral(text, sig, p) ==
      if text.Flag? then Ok(Valid(Truth(text.b), sig, {})) else Err(ExpressionTypeMismatch)
    ensures sig.valueType == INTEGER ==>
      EvalLiteral(text, sig, p) ==
      if text.Digits? && text.scale == 0 then Ok(Valid(Whole(text.coefficient), sig, {}))
      else Err(ExpressionTypeMismatch)
    ensures sig.valueType in {MONEY, DECIMAL, RATE} ==>
      var x := InputDecimal(text, p, ExpressionNonFiniteLiteral);
      EvalLiteral(text, sig, p) == if x.Ok? then Ok(Valid(Num(x.value), sig, {})) else Err(x.error)
  {
    SigExact(sig);
    hide GoodSig, CheckSig, InputDecimal;
  }

  /** A variable is used at its own signature, and then stands for its value with all its sources. */
  lemma VariableLaw(name: Name, sig: Sig, w: World)
    ensures EvalVariable(name, sig, w).Ok? <==>
      name in w.deps && name in w.env && GoodSig(sig) && w.env[name].sig == sig
    ensures EvalVariable(name, sig, w).Ok? ==> EvalVariable(name, sig, w) == Ok(w.env[name])
    ensures name !in w.deps ==> EvalVariable(name, sig, w) == Err(ExpressionDependencyUndeclared)
    ensures name in w.deps && name !in w.env ==> EvalVariable(name, sig, w) == Err(ExpressionVariableUnknown)
  {
    SigExact(sig);
    hide GoodSig, CheckSig;
  }

  /** The evaluator counts nodes and levels itself. */
  lemma TooLargeLaw(node: Node, depth: nat, count: nat, w: World)
    ensures count >= 128 || depth > 24 ==> Walk(node, depth, count, w) == Err(ExpressionLimitExceeded)
  {
  }

  /** A result that is a number is rounded to the calculation scale; any other is left as it is. */
  lemma ResultLaw(v: Value, p: Policy, n: int)
    ensures !(v.Valid? && v.scalar.Num?) ==> Finish(v, p) == Ok(v)
    ensures v.Valid? && v.scalar.Num? && RuleComponentResult !in p.points ==>
      Finish(v, p) == Err(RoundingPointForbidden)
    ensures v.Valid? && v.scalar.Num? && RuleComponentResult in p.points ==>
      (Finish(v, p) == Ok(Valid(Num(n as real / Pow10(p.calculationScale) as real), v.sig, v.sources)) <==>
       IsRounded(Scaled(v.scalar.n, p.calculationScale), n, p.calculationMode))
  {
    hide Pow10, IsRounded, Scaled, Quantize;
    if v.Valid? && v.scalar.Num? {
      QuantizeMeaning(v.scalar.n, p, RuleComponentResult, v.sig.valueType, n);
    }
  }

  /** A variable is traced to itself besides its own sources; without a value it keeps state and reason. */
  lemma AdmittedLaw(b: Binding, p: Policy)
    requires Admit(b, p).Ok?
    ensures
      var v := Admit(b, p).value;
      && v.sig == b.input.sig && GoodSig(v.sig)
      && (forall s :: s in v.sources <==> s == b.name || (s.Given? && s.text in b.input.sources))
      && (v.Valid? <==> b.input.Present?)
      && (b.input.Missing? ==> v.state == b.input.state && v.reason == b.input.reason && v.reason != "")
      && (b.input.Present? && v.sig.valueType == BOOLEAN ==>
            b.input.text.Flag? && v.scalar == Truth(b.input.text.b))
      && (b.input.Present? && v.sig.valueType == INTEGER ==>
            b.input.text.Digits? && b.input.text.scale == 0 && v.scalar == Whole(b.input.text.coefficient))
  {
    SigExact(b.input.sig);
    hide GoodSig, CheckSig, ParseDecimal, Quantize, NumDigits;
  }

  /** A decimal variable stands for its number, rounded to the calculation scale of the policy. */
  lemma AdmittedDecimalLaw(b: Binding, p: Policy, n: int)
    requires Admit(b, p).Ok? && b.input.Present? && b.input.sig.valueType in {MONEY, DECIMAL, RATE}
    ensures
      var text := b.input.text;
      && text.Digits? && DigitCount(text.coefficient, text.scale) <= 1000 && text.scale <= 1000
      && DigitCount(text.coefficient, text.scale) <= p.maxInputPrecision && text.scale <= p.maxInputScale
      && (Admit(b, p).value.scalar == Num(n as real / Pow10(p.calculationScale) as real) <==>
          IsRounded(Scaled(text.coefficient as real / Pow10(text.scale) as real, p.calculationScale), n,
                    p.calculationMode))
  {
    hide DigitCount, IsRounded, Scaled, Pow10, Quantize, CheckSig;
    var text := b.input.text;
    if text.Digits? {
      QuantizeMeaning(text.coefficient as real / Pow10(text.scale) as real, p, RuleInputNormalization,
                      b.input.sig.valueType, n);
    }
  }

  // ----- Values that are not all VALID

  /** Some value is in this state. */
  ghost predicate SomeIn(values: seq<Value>, state: Absence) {
    exists v <- values :: v.NonValid? && v.state == state
  }

  /** A conflict is reported before a block, a block before unavailability, and that before emptiness. */
  lemma PropagationLaw(values: seq<Value>, sig: Sig)
    ensures Propagate(values, sig) == None <==> forall v <- values :: v.Valid?
    ensures
      var r := Propagate(values, sig);
      r.Some? ==>
        && r.value.NonValid? && r.value.sig == sig
        && (r.value.state == CONFLICT <==> SomeIn(values, CONFLICT))
        && (r.value.state == BLOCKED <==> !SomeIn(values, CONFLICT) && SomeIn(values, BLOCKED))
        && (r.value.state == UNAVAILABLE <==>
              !SomeIn(values, CONFLICT) && !SomeIn(values, BLOCKED) && SomeIn(values, UNAVAILABLE))
  {
  }

  /** The least of the reasons of the values in this state. */
  ghost predicate IsLeastReason(values: seq<Value>, state: Absence, reason: string) {
    && (exists v <- values :: v.NonValid? && v.state == state && v.reason == reason)
    && (forall v <- values :: v.NonValid? && v.state == state ==> InOrder(reason, v.reason, SmallerChar))
  }

  /** The reason names the state and the least reason behind it; the sources are those of all values in that state. */
  lemma ReportLaw(values: seq<Value>, sig: Sig) returns (least: string)
    requires Propagate(values, sig).Some?
    ensures
      var r := Propagate(values, sig).value;
      && r.NonValid? && IsLeastReason(values, r.state, least)
      && (forall n :: n in r.sources <==>
            exists v :: v in values && v.NonValid? && v.state == r.state && n in v.sources)
      && r.reason == (match r.state
                      case CONFLICT => "DEPENDENCY_CONFLICT:"
                      case BLOCKED => "DEPENDENCY_BLOCKED:"
                      case UNAVAILABLE => "DEPENDENCY_UNAVAILABLE:"
                      case EMPTY => "DEPENDENCY_EMPTY:") + least
  {
    var matches := Matching(values, Winner(values).value);
    least := LeastReason(matches);
    forall v <- matches
      ensures InOrder(least, v.reason, SmallerChar)
    {
      TextLeExact(least, v.reason);
    }
    hide InOrder, TextLe, Winner;
    ReasonText(Winner(values).value, least);
    hide DependencyReason;
  }

  lemma ReasonText(s: Absence, reason: string)
    ensures DependencyReason(s, reason) ==
      (match s
       case CONFLICT => "DEPENDENCY_CONFLICT:"
       case BLOCKED => "DEPENDENCY_BLOCKED:"
       case UNAVAILABLE => "DEPENDENCY_UNAVAILABLE:"
       case EMPTY => "DEPENDENCY_EMPTY:") + reason
  {
    assert "DEPENDENCY_" + StateText(s) + ":" ==
      match s
      case CONFLICT => "DEPENDENCY_CONFLICT:"
      case BLOCKED => "DEPENDENCY_BLOCKED:"
      case UNAVAILABLE => "DEPENDENCY_UNAVAILABLE:"
      case EMPTY => "DEPENDENCY_EMPTY:";
  }
}
