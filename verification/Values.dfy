/** Typed values with a state, how texts become values, and how unavailable states propagate. */
module Values {
  import opened Base
  import opened Rounding
  import opened Sorting

  // ----- Signatures

  datatype Sig = Sig(valueType: ValueType, unit: string, currency: Option<string>)

  const TRUTH := Sig(BOOLEAN, "BOOLEAN", None)

  predicate IsCurrency(s: string) {
    |s| == 3 && forall i :: 0 <= i < |s| ==> 'A' <= s[i] <= 'Z'
  }

  /** `_validate_signature`. */
  function CheckSig(sig: Sig): Result<(), FinanceError> {
    if sig.unit == "" then
      Err(ValueSignatureInvalid)
    else if sig.valueType == MONEY then
      Need(sig.currency.Some? && IsCurrency(sig.currency.value), ValueCurrencyInvalid)
    else
      Need(sig.currency.None?, ValueCurrencyInvalid)
  }

  predicate GoodSig(sig: Sig) {
    && sig.unit != ""
    && (sig.valueType == MONEY <==> sig.currency.Some?)
    && (sig.currency.Some? ==> IsCurrency(sig.currency.value))
  }

  predicate IsDecimalType(t: ValueType) {
    t == MONEY || t == DECIMAL || t == RATE
  }

  // ----- Values

  /** A name a caller wrote, or one the lazy evaluator makes up for a condition without a value. */
  datatype Name = Given(text: string) | IfState(index: nat)

  datatype Scalar = Num(n: real) | Whole(i: int) | Truth(b: bool)

  /** The states other than VALID. */
  datatype Absence = CONFLICT | BLOCKED | UNAVAILABLE | EMPTY

  datatype Value =
    | Valid(scalar: Scalar, sig: Sig, sources: set<Name>)
    | NonValid(state: Absence, sig: Sig, reason: string, sources: set<Name>)

  predicate ScalarFits(s: Scalar, t: ValueType) {
    match t
    case BOOLEAN => s.Truth?
    case INTEGER => s.Whole?
    case _ => s.Num?
  }

  predicate WellFormed(v: Value) {
    GoodSig(v.sig) && (v.Valid? ==> ScalarFits(v.scalar, v.sig.valueType))
  }

  // ----- Texts

  /** The text of a number with `scale` digits after the point, a JSON boolean, or anything else. */
  datatype Literal = Digits(coefficient: int, scale: nat) | Flag(b: bool) | Garbage

  /** How many digits the text holds: `0.05` holds three. */
  function DigitCount(coefficient: int, scale: nat): nat {
    Max(NumDigits(Abs(coefficient)), scale + 1)
  }

  const MAX_INPUT_PRECISION := 1000
  const MAX_INPUT_SCALE := 1000

  /** `_parse_decimal`. */
  function ParseDecimal(text: Literal, code: FinanceError, maxPrecision: nat, maxScale: nat)
    : Result<real, FinanceError>
  {
    if !text.Digits? then
      Err(code)
    else
      var _ :- Need(DigitCount(text.coefficient, text.scale) <= maxPrecision, RoundingInputPrecisionExceeded);
      var _ :- Need(text.scale <= maxScale, RoundingInputScaleExceeded);
      Ok(text.coefficient as real / Pow10(text.scale) as real)
  }

  /** `_parse_integer`. */
  function ParseInteger(text: Literal, code: FinanceError, maxPrecision: nat): Result<int, FinanceError> {
    if !(text.Digits? && text.scale == 0) then
      Err(code)
    else
      var _ :- Need(NumDigits(Abs(text.coefficient)) <= maxPrecision, RoundingInputPrecisionExceeded);
      Ok(text.coefficient)
  }

  /** `_input_decimal`: parse within the policy's limits, then normalise. */
  function InputDecimal(text: Literal, p: Policy, code: FinanceError): Result<real, FinanceError> {
    var parsed :- ParseDecimal(text, code, p.maxInputPrecision, p.maxInputScale);
    var rounded :- Quantize(parsed, p, RuleInputNormalization, DECIMAL);
    Ok(rounded.0)
  }

  // ----- Variables

  /** A variable as a caller passes it. */
  datatype Input =
    | Present(text: Literal, sig: Sig, sources: set<string>)
    | Missing(state: Absence, sig: Sig, reason: string, sources: set<string>)

  datatype Binding = Binding(name: Name, input: Input)

  function SourceNames(sources: set<string>): set<Name> {
    set s | s in sources :: Given(s)
  }

  /** `_value_from_dict` followed by `_normalize_value`. */
  function Admit(b: Binding, p: Policy): Result<Value, FinanceError> {
    var _ :- CheckSig(b.input.sig);
    var sources := SourceNames(b.input.sources) + {b.name};
    match b.input
    case Missing(state, sig, reason, _) =>
      var _ :- Need(reason != "", TypedValueMalformed);
      Ok(NonValid(state, sig, reason, sources))
    case Present(text, sig, _) =>
      var scalar :- AdmitScalar(text, sig.valueType, p);
      Ok(Valid(scalar, sig, sources))
  }

  function AdmitScalar(text: Literal, t: ValueType, p: Policy): Result<Scalar, FinanceError> {
    match t
    case BOOLEAN =>
      var _ :- Need(text.Flag?, ValueTypeInvalid);
      Ok(Truth(text.b))
    case INTEGER =>
      var n :- ParseInteger(text, ValueTypeInvalid, MAX_INPUT_PRECISION);
      var _ :- Need(NumDigits(Abs(n)) <= p.maxInputPrecision, RoundingInputPrecisionExceeded);
      Ok(Whole(n))
    case _ =>
      var _ :- ParseDecimal(text, ValueDecimalInvalid, MAX_INPUT_PRECISION, MAX_INPUT_SCALE);
      var x :- ParseDecimal(text, ValueDecimalInvalid, p.maxInputPrecision, p.maxInputScale);
      var rounded :- Quantize(x, p, RuleInputNormalization, t);
      Ok(Num(rounded.0))
  }

  type Env = map<Name, Value>

  /** Every variable is normalised before anything is evaluated, used or not. */
  function AdmitAll(bindings: seq<Binding>, p: Policy): Result<Env, FinanceError> {
    if bindings == [] then
      Ok(map[])
    else
      var last := |bindings| - 1;
      var env :- AdmitAll(bindings[..last], p);
      var v :- Admit(bindings[last], p);
      Ok(env[bindings[last].name := v])
  }

  ghost predicate EnvFits(env: Env) {
    forall name | name in env :: WellFormed(env[name])
  }

  function NamesOf(bindings: seq<Binding>): set<Name> {
    set b | b in bindings :: b.name
  }

  lemma {:induction false} AdmittedFits(bindings: seq<Binding>, p: Policy)
    requires AdmitAll(bindings, p).Ok?
    ensures EnvFits(AdmitAll(bindings, p).value)
    ensures AdmitAll(bindings, p).value.Keys == NamesOf(bindings)
  {
    if bindings != [] {
      var last := |bindings| - 1;
      AdmittedFits(bindings[..last], p);
      assert bindings == bindings[..last] + [bindings[last]];
      assert NamesOf(bindings) == NamesOf(bindings[..last]) + {bindings[last].name};
      AdmittedIsWellFormed(bindings[last], p);
    }
  }

  lemma AdmittedIsWellFormed(b: Binding, p: Policy)
    requires Admit(b, p).Ok?
    ensures WellFormed(Admit(b, p).value) && Admit(b, p).value.sig == b.input.sig
  {
    hide ParseDecimal, Quantize, IsCurrency;
  }

  // ----- Propagation

  function Sigs(values: seq<Value>): (r: seq<Sig>) {
    seq(|values|, i requires 0 <= i < |values| => values[i].sig)
  }

  predicate AllValid(values: seq<Value>) {
    forall v | v in values :: v.Valid?
  }

  /** The values in a state, in order. */
  function Matching(values: seq<Value>, s: Absence): (r: seq<Value>)
    ensures forall v :: v in r <==> v in values && v.NonValid? && v.state == s
  {
    if values == [] then []
    else if values[0].NonValid? && values[0].state == s then [values[0]] + Matching(values[1..], s)
    else Matching(values[1..], s)
  }

  /** The first reason in code-point order. */
  function LeastReason(matches: seq<Value>): (r: string)
    requires matches != [] && forall v :: v in matches ==> v.NonValid?
    ensures exists v :: v in matches && v.reason == r
    ensures forall v :: v in matches ==> TextLe(r, v.reason)
  {
    TextTotal(matches[0].reason, matches[0].reason);
    if |matches| == 1 then
      matches[0].reason
    else
      var rest := LeastReason(matches[1..]);
      TextTotal(matches[0].reason, rest);
      if TextLe(matches[0].reason, rest) then
        assert forall v :: v in matches[1..] ==> TextLe(matches[0].reason, v.reason) by {
          forall v | v in matches[1..]
            ensures TextLe(matches[0].reason, v.reason)
          {
            TextTransitive(matches[0].reason, rest, v.reason);
          }
        }
        matches[0].reason
      else
        rest
  }

  function AllSources(values: seq<Value>): (r: set<Name>)
    ensures forall n :: n in r <==> exists v :: v in values && n in v.sources
  {
    if values == [] then {} else values[0].sources + AllSources(values[1..])
  }

  function StateText(s: Absence): string {
    match s
    case CONFLICT => "CONFLICT"
    case BLOCKED => "BLOCKED"
    case UNAVAILABLE => "UNAVAILABLE"
    case EMPTY => "EMPTY"
  }

  /** What an operation reports when a value it needs has state `s`. */
  function DependencyReason(s: Absence, reason: string): string {
    "DEPENDENCY_" + StateText(s) + ":" + reason
  }

  /** CONFLICT wins over BLOCKED, BLOCKED over UNAVAILABLE, UNAVAILABLE over EMPTY. */
  function Precedence(s: Absence): nat {
    match s
    case CONFLICT => 0
    case BLOCKED => 1
    case UNAVAILABLE => 2
    case EMPTY => 3
  }

  lemma SomeMatch(values: seq<Value>)
    ensures
      || AllValid(values)
      || Matching(values, CONFLICT) != [] || Matching(values, BLOCKED) != []
      || Matching(values, UNAVAILABLE) != [] || Matching(values, EMPTY) != []
  {
    if v :| v in values && v.NonValid? {
      assert v in Matching(values, v.state);
    }
  }

  /** The state that wins, if any value is not VALID. */
  function Winner(values: seq<Value>): (w: Option<Absence>)
    ensures w.None? <==> AllValid(values)
    ensures w.Some? ==> Matching(values, w.value) != []
    ensures w.Some? ==> forall v :: v in values && v.NonValid? ==> Precedence(w.value) <= Precedence(v.state)
  {
    if Matching(values, CONFLICT) != [] then
      assert Matching(values, CONFLICT)[0] in Matching(values, CONFLICT);
      Some(CONFLICT)
    else if Matching(values, BLOCKED) != [] then
      assert Matching(values, BLOCKED)[0] in Matching(values, BLOCKED);
      Some(BLOCKED)
    else if Matching(values, UNAVAILABLE) != [] then
      assert Matching(values, UNAVAILABLE)[0] in Matching(values, UNAVAILABLE);
      Some(UNAVAILABLE)
    else if Matching(values, EMPTY) != [] then
      assert Matching(values, EMPTY)[0] in Matching(values, EMPTY);
      Some(EMPTY)
    else
      SomeMatch(values);
      None
  }

  function Report(values: seq<Value>, s: Absence, sig: Sig): Value
    requires Matching(values, s) != []
  {
    var matches := Matching(values, s);
    NonValid(s, sig, DependencyReason(s, LeastReason(matches)), AllSources(matches))
  }

  /** `_propagate`: the value that stands for values that are not all VALID. */
  function Propagate(values: seq<Value>, sig: Sig): Option<Value> {
    match Winner(values)
    case None => None
    case Some(s) => Some(Report(values, s, sig))
  }
}
