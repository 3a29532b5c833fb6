/**
 What each operator gives on well typed values that are all VALID, said of the numbers and truth values
 themselves. A rounded result is `fl` of the exact one; with exact arithmetic `fl` changes nothing.
 */
module OperatorLaws {
  import opened Base
  import opened Rounding
  import opened Values
  import opened Expression
  import opened Eager
  import opened Soundness

  /** Valid, well formed arguments of the types the operator takes. */
  predicate Ready(op: Operator, sig: Sig, values: seq<Value>) {
    GoodSig(sig) && Typed(op, Sigs(values), sig) && forall v <- values :: v.Valid? && WellFormed(v)
  }

  /** A VALID value with this scalar, the declared signature, and the sources of all arguments. */
  ghost predicate Gives(r: Result<Value, FinanceError>, scalar: Scalar, sig: Sig, values: seq<Value>) {
    && r.Ok? && r.value.Valid? && r.value.scalar == scalar && r.value.sig == sig
    && forall n :: n in r.value.sources <==> exists v :: v in values && n in v.sources
  }

  lemma ReadyComputes(op: Operator, sig: Sig, values: seq<Value>, fl: real -> real)
    requires Ready(op, sig, values)
    ensures ArityFits(op, |values|) && AllValid(values)
    ensures Apply(op, sig, values, fl) == Compute(op, sig, values, fl)
    ensures forall i :: 0 <= i < |values| ==>
      Scalars(values)[i] == values[i].scalar && ScalarFits(values[i].scalar, Sigs(values)[i].valueType)
  {
    hide Combine, Divide, IsCurrency;
    TypedHasArity(op, Sigs(values), sig);
    forall s <- Sigs(values)
      ensures GoodSig(s)
    {
      var i :| 0 <= i < |values| && s == values[i].sig;
      assert values[i] in values;
    }
    OperationExact(op, Sigs(values), sig);
    hide Typed, GoodSig, CheckOperation;
    assert AllValid(values);
    forall i: nat | i < |values| {
      ScalarAt(values, i);
    }
  }

  lemma Combined(op: Operator, sig: Sig, values: seq<Value>, fl: real -> real)
    requires Ready(op, sig, values) && op != DIVIDE
    ensures ArityFits(op, |values|) && AllValid(values)
    ensures Combine(op, Scalars(values), fl).Ok?
    ensures Gives(Apply(op, sig, values, fl), Combine(op, Scalars(values), fl).value, sig, values)
  {
    ReadyComputes(op, sig, values, fl);
    CombineFits(op, sig, Scalars(values), Sigs(values), fl);
    hide Combine, Typed, GoodSig, ScalarFits, Apply;
  }

  // ----- Arithmetic

  /** A difference is what added to the right gives the left. */
  lemma SubtractLaw(sig: Sig, values: seq<Value>, fl: real -> real, a: real, b: real, d: real)
    requires Ready(SUBTRACT, sig, values) && |values| == 2
    requires values[0].scalar == Num(a) && values[1].scalar == Num(b) && d + b == a
    ensures Gives(Apply(SUBTRACT, sig, values, fl), Num(fl(d)), sig, values)
  {
    ReadyComputes(SUBTRACT, sig, values, fl);
    Combined(SUBTRACT, sig, values, fl);
    hide Gives, Apply, Ready;
  }

  lemma SubtractWholeLaw(sig: Sig, values: seq<Value>, fl: real -> real, a: int, b: int, d: int)
    requires Ready(SUBTRACT, sig, values) && |values| == 2
    requires values[0].scalar == Whole(a) && values[1].scalar == Whole(b) && d + b == a
    ensures Gives(Apply(SUBTRACT, sig, values, fl), Whole(d), sig, values)
  {
    ReadyComputes(SUBTRACT, sig, values, fl);
    Combined(SUBTRACT, sig, values, fl);
    hide Gives, Apply, Ready;
  }

  lemma MultiplyLaw(sig: Sig, values: seq<Value>, fl: real -> real, a: real, b: real, p: real)
    requires Ready(MULTIPLY, sig, values) && |values| == 2
    requires values[0].scalar == Num(a) && values[1].scalar == Num(b) && p == a * b
    ensures Gives(Apply(MULTIPLY, sig, values, fl), Num(fl(p)), sig, values)
  {
    ReadyComputes(MULTIPLY, sig, values, fl);
    Combined(MULTIPLY, sig, values, fl);
    hide Gives, Apply, Ready;
  }

  /** A quotient is what times the right gives the left. */
  lemma DivideLaw(sig: Sig, values: seq<Value>, fl: real -> real, a: real, b: real, q: real)
    requires Ready(DIVIDE, sig, values) && |values| == 2
    requires values[0].scalar == Num(a) && values[1].scalar == Num(b) && b != 0.0 && q * b == a
    ensures Gives(Apply(DIVIDE, sig, values, fl), Num(fl(q)), sig, values)
  {
    ReadyComputes(DIVIDE, sig, values, fl);
    QuotientIs(a, b, q);
    hide Apply, Ready;
  }

  lemma QuotientIs(a: real, b: real, q: real)
    requires b != 0.0 && q * b == a
    ensures a / b == q
  {
  }

  /** With exact arithmetic, difference plus right is left, and quotient times right is left. */
  lemma InverseLaws(op: Operator, sig: Sig, values: seq<Value>, fl: real -> real)
    requires op in {SUBTRACT, DIVIDE} && Ready(op, sig, values) && |values| == 2 && forall x :: fl(x) == x
    requires values[0].scalar.Num? && values[1].scalar.Num? && (op == DIVIDE ==> values[1].scalar.n != 0.0)
    ensures
      var r, a, b := Apply(op, sig, values, fl), values[0].scalar.n, values[1].scalar.n;
      && r.Ok? && r.value.Valid? && r.value.scalar.Num?
      && (if op == SUBTRACT then r.value.scalar.n + b == a else r.value.scalar.n * b == a)
  {
    var a, b := values[0].scalar.n, values[1].scalar.n;
    hide Apply, Ready;
    if op == SUBTRACT {
      SubtractLaw(sig, values, fl, a, b, a - b);
    } else {
      var q := a / b;
      assert q * b == a;
      DivideLaw(sig, values, fl, a, b, q);
    }
  }

  lemma DivideByZeroLaw(sig: Sig, values: seq<Value>, fl: real -> real, a: real)
    requires Ready(DIVIDE, sig, values) && |values| == 2
    requires values[0].scalar == Num(a) && values[1].scalar == Num(0.0)
    ensures
      var r := Apply(DIVIDE, sig, values, fl);
      && r.Ok? && r.value.NonValid? && r.value.state == BLOCKED && r.value.sig == sig
      && r.value.reason == "EXPRESSION_DIVISION_BY_ZERO"
      && forall n :: n in r.value.sources <==> exists v :: v in values && n in v.sources
  {
    ReadyComputes(DIVIDE, sig, values, fl);
    hide Apply, Ready;
  }

  lemma NegateLaw(sig: Sig, values: seq<Value>, fl: real -> real, a: real, m: real)
    requires Ready(NEGATE, sig, values) && |values| == 1 && values[0].scalar == Num(a) && m + a == 0.0
    ensures Gives(Apply(NEGATE, sig, values, fl), Num(fl(m)), sig, values)
  {
    ReadyComputes(NEGATE, sig, values, fl);
    Combined(NEGATE, sig, values, fl);
    hide Gives, Apply, Ready;
  }

  lemma NegateWholeLaw(sig: Sig, values: seq<Value>, fl: real -> real, a: int, m: int)
    requires Ready(NEGATE, sig, values) && |values| == 1 && values[0].scalar == Whole(a) && m + a == 0
    ensures Gives(Apply(NEGATE, sig, values, fl), Whole(m), sig, values)
  {
    ReadyComputes(NEGATE, sig, values, fl);
    Combined(NEGATE, sig, values, fl);
    hide Gives, Apply, Ready;
  }

  /** The magnitude is the number or its opposite, whichever is not negative. */
  lemma AbsLaw(sig: Sig, values: seq<Value>, fl: real -> real, a: real, m: real)
    requires Ready(ABS, sig, values) && |values| == 1 && values[0].scalar == Num(a)
    requires m >= 0.0 && (m == a || m + a == 0.0)
    ensures Gives(Apply(ABS, sig, values, fl), Num(fl(m)), sig, values)
  {
    ReadyComputes(ABS, sig, values, fl);
    Combined(ABS, sig, values, fl);
    hide Gives, Apply, Ready;
  }

  lemma AbsWholeLaw(sig: Sig, values: seq<Value>, fl: real -> real, a: int, m: int)
    requires Ready(ABS, sig, values) && |values| == 1 && values[0].scalar == Whole(a)
    requires m >= 0 && (m == a || m + a == 0)
    ensures Gives(Apply(ABS, sig, values, fl), Whole(m), sig, values)
  {
    ReadyComputes(ABS, sig, values, fl);
    Combined(ABS, sig, values, fl);
    hide Gives, Apply, Ready;
  }

  // ----- Sums

  /** The running sums of some numbers from the left, each rounded. */
  predicate RunningSums(xs: seq<real>, sums: seq<real>, fl: real -> real) {
    && |sums| == |xs| && (xs != [] ==> sums[0] == xs[0])
    && forall k :: 1 <= k < |xs| ==> sums[k] == fl(sums[k - 1] + xs[k])
  }

  lemma {:induction false} TotalOfNumbers(scalars: seq<Scalar>, xs: seq<real>, sums: seq<real>, fl: real -> real)
    requires scalars != [] && |scalars| == |xs| && forall i :: 0 <= i < |xs| ==> scalars[i] == Num(xs[i])
    requires RunningSums(xs, sums, fl)
    ensures Total(scalars, fl) == Ok(Num(sums[|sums| - 1]))
  {
    var n := |xs| - 1;
    if n > 0 {
      TotalOfNumbers(scalars[..n], xs[..n], sums[..n], fl);
      assert sums[n] == fl(sums[n - 1] + xs[n]);
    }
  }

  /** ADD gives the last of the running sums. */
  lemma AddLaw(sig: Sig, values: seq<Value>, fl: real -> real, xs: seq<real>, sums: seq<real>)
    requires Ready(ADD, sig, values) && |xs| == |values| > 0
    requires (forall i :: 0 <= i < |xs| ==> values[i].scalar == Num(xs[i])) && RunningSums(xs, sums, fl)
    ensures Gives(Apply(ADD, sig, values, fl), Num(sums[|sums| - 1]), sig, values)
  {
    ReadyComputes(ADD, sig, values, fl);
    Combined(ADD, sig, values, fl);
    TotalOfNumbers(Scalars(values), xs, sums, fl);
    hide Gives, Apply, Ready, RunningSums, Total;
  }

  function SumOf(xs: seq<real>): real {
    if xs == [] then 0.0 else xs[0] + SumOf(xs[1..])
  }

  function WholeSumOf(xs: seq<int>): int {
    if xs == [] then 0 else xs[0] + WholeSumOf(xs[1..])
  }

  lemma {:induction false} SumGrows(xs: seq<real>, x: real)
    ensures SumOf(xs + [x]) == SumOf(xs) + x
  {
    if xs == [] {
    } else {
      SumGrows(xs[1..], x);
      assert (xs + [x])[1..] == xs[1..] + [x];
    }
  }

  lemma {:induction false} WholeSumGrows(xs: seq<int>, x: int)
    ensures WholeSumOf(xs + [x]) == WholeSumOf(xs) + x
  {
    if xs == [] {
    } else {
      WholeSumGrows(xs[1..], x);
      assert (xs + [x])[1..] == xs[1..] + [x];
    }
  }

  lemma {:induction false} TotalIsSum(scalars: seq<Scalar>, xs: seq<real>, fl: real -> real)
    requires scalars != [] && |scalars| == |xs| && forall i :: 0 <= i < |xs| ==> scalars[i] == Num(xs[i])
    requires forall x :: fl(x) == x
    ensures Total(scalars, fl) == Ok(Num(SumOf(xs)))
  {
    var n := |xs| - 1;
    SumGrows(xs[..n], xs[n]);
    assert xs == xs[..n] + [xs[n]];
    if n > 0 {
      TotalIsSum(scalars[..n], xs[..n], fl);
    }
  }

  lemma {:induction false} TotalIsWholeSum(scalars: seq<Scalar>, xs: seq<int>, fl: real -> real)
    requires scalars != [] && |scalars| == |xs| && forall i :: 0 <= i < |xs| ==> scalars[i] == Whole(xs[i])
    ensures Total(scalars, fl) == Ok(Whole(WholeSumOf(xs)))
  {
    var n := |xs| - 1;
    WholeSumGrows(xs[..n], xs[n]);
    assert xs == xs[..n] + [xs[n]];
    if n > 0 {
      TotalIsWholeSum(scalars[..n], xs[..n], fl);
    }
  }

  /** With exact arithmetic ADD gives the sum of all arguments. */
  lemma AddExactLaw(sig: Sig, values: seq<Value>, fl: real -> real, xs: seq<real>)
    requires Ready(ADD, sig, values) && |xs| == |values| > 0 && forall x :: fl(x) == x
    requires forall i :: 0 <= i < |xs| ==> values[i].scalar == Num(xs[i])
    ensures Gives(Apply(ADD, sig, values, fl), Num(SumOf(xs)), sig, values)
  {
    ReadyComputes(ADD, sig, values, fl);
    Combined(ADD, sig, values, fl);
    TotalIsSum(Scalars(values), xs, fl);
    hide Gives, Apply, Ready, Total, SumOf;
  }

  lemma AddWholeLaw(sig: Sig, values: seq<Value>, fl: real -> real, xs: seq<int>)
    requires Ready(ADD, sig, values) && |xs| == |values| > 0
    requires forall i :: 0 <= i < |xs| ==> values[i].scalar == Whole(xs[i])
    ensures Gives(Apply(ADD, sig, values, fl), Whole(WholeSumOf(xs)), sig, values)
  {
    ReadyComputes(ADD, sig, values, fl);
    Combined(ADD, sig, values, fl);
    TotalIsWholeSum(Scalars(values), xs, fl);
    hide Gives, Apply, Ready, Total, WholeSumOf;
  }

  // ----- Order

  /** The number a scalar stands for. */
  function NumberOf(s: Scalar): real
    requires !s.Truth?
  {
    match s case Num(n) => n case Whole(i) => i as real
  }

  lemma ExtremeOfNumbers(xs: seq<Scalar>, t: ValueType, least: bool)
    requires xs != [] && t != BOOLEAN && ScalarsFit(xs, t)
    ensures Extreme(xs, least).Ok? && Extreme(xs, least).value in xs
    ensures forall x <- xs :: !x.Truth?
    ensures forall x <- xs ::
      if least then NumberOf(Extreme(xs, least).value) <= NumberOf(x)
      else NumberOf(Extreme(xs, least).value) >= NumberOf(x)
  {
    ExtremeIsExtreme(xs, t, least);
    hide Extreme;
  }

  lemma ScalarsOf(values: seq<Value>)
    requires AllValid(values)
    ensures forall x :: x in Scalars(values) <==> exists v :: v in values && v.Valid? && v.scalar == x
  {
    forall x | x in Scalars(values)
      ensures exists v :: v in values && v.Valid? && v.scalar == x
    {
      var i :| 0 <= i < |values| && Scalars(values)[i] == x;
      assert values[i] in values;
    }
    forall v <- values
      ensures v.Valid? && v.scalar in Scalars(values)
    {
      var i :| 0 <= i < |values| && values[i] == v;
      assert Scalars(values)[i] == v.scalar;
    }
  }

  /** MIN and MAX give an argument, and none is smaller, or larger. */
  lemma ExtremeLaw(op: Operator, sig: Sig, values: seq<Value>, fl: real -> real)
    requires Ready(op, sig, values) && op in {MIN, MAX}
    ensures
      var r := Apply(op, sig, values, fl);
      && r.Ok? && r.value.Valid? && !r.value.scalar.Truth?
      && (exists v :: v in values && v.Valid? && r.value.scalar == v.scalar)
      && (forall v :: v in values ==>
            && v.Valid? && !v.scalar.Truth?
            && (if op == MIN then NumberOf(r.value.scalar) <= NumberOf(v.scalar)
                else NumberOf(r.value.scalar) >= NumberOf(v.scalar)))
  {
    ReadyComputes(op, sig, values, fl);
    Combined(op, sig, values, fl);
    assert ScalarsFit(Scalars(values), sig.valueType) && sig.valueType != BOOLEAN;
    hide Apply, Ready, Extreme, ScalarsFit, Scalars, NumberOf;
    ScalarsOf(values);
    ExtremeOfNumbers(Scalars(values), sig.valueType, op == MIN);
  }

  /** Which numbers a comparison is true of. */
  predicate Holds(op: Operator, a: real, b: real) {
    match op
    case EQUAL => a == b
    case LESS_THAN => a < b
    case LESS_OR_EQUAL => a <= b
    case GREATER_THAN => b < a
    case GREATER_OR_EQUAL => b <= a
    case _ => false
  }

  /** A comparison is true exactly when its relation holds between the numbers. */
  lemma CompareLaw(op: Operator, sig: Sig, values: seq<Value>, fl: real -> real)
    requires Ready(op, sig, values) && |values| == 2 && !values[0].scalar.Truth?
    requires op in {EQUAL, LESS_THAN, LESS_OR_EQUAL, GREATER_THAN, GREATER_OR_EQUAL}
    ensures !values[1].scalar.Truth? && sig == Sig(BOOLEAN, "BOOLEAN", None)
    ensures Gives(Apply(op, sig, values, fl),
                  Truth(Holds(op, NumberOf(values[0].scalar), NumberOf(values[1].scalar))), sig, values)
  {
    ReadyComputes(op, sig, values, fl);
    Combined(op, sig, values, fl);
    hide Gives, Apply, GoodSig;
  }

  lemma EqualTruthLaw(sig: Sig, values: seq<Value>, fl: real -> real, a: bool)
    requires Ready(EQUAL, sig, values) && |values| == 2 && values[0].scalar == Truth(a)
    ensures values[1].scalar.Truth?
    ensures Gives(Apply(EQUAL, sig, values, fl), Truth(a <==> values[1].scalar.b), sig, values)
  {
    ReadyComputes(EQUAL, sig, values, fl);
    Combined(EQUAL, sig, values, fl);
    hide Gives, Apply, GoodSig;
  }

  /** IF gives its second argument when the first is true, and its third when it is false. */
  lemma ChoiceLaw(sig: Sig, values: seq<Value>, fl: real -> real)
    requires Ready(IF, sig, values) && |values| == 3
    ensures values[0].scalar.Truth?
    ensures Gives(Apply(IF, sig, values, fl), if values[0].scalar.b then values[1].scalar else values[2].scalar, sig,
                  values)
  {
    ReadyComputes(IF, sig, values, fl);
    Combined(IF, sig, values, fl);
    hide Gives, Apply, GoodSig;
  }
}
