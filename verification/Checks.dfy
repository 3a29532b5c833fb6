/** Lists of conditions that are checked in order, each with the code of the refusal when it fails. */
module Checks {
  import opened Base

  /** A condition, and the code of the refusal when it fails. */
  datatype Check<E> = Check(holds: bool, code: E)

  /** Condition number n fails and those before it hold. */
  ghost predicate FirstUnmet<E>(checks: seq<Check<E>>, n: nat)
    requires n < |checks|
  {
    !checks[n].holds && AllHold(checks[..n])
  }

  ghost predicate AllHold<E>(checks: seq<Check<E>>) {
    forall i :: 0 <= i < |checks| ==> checks[i].holds
  }

  /** The answer to these conditions, in their order. */
  ghost predicate AnsweredBy<T, E>(checks: seq<Check<E>>, r: Result<T, E>) {
    && (AllHold(checks) ==> r.Ok?)
    && (forall n :: 0 <= n < |checks| && FirstUnmet(checks, n) ==> r == Err(checks[n].code))
  }

  /** One list of conditions and then another. */
  lemma Then<S, T, E>(a: seq<Check<E>>, b: seq<Check<E>>, ra: Result<S, E>, rb: Result<T, E>)
    requires AnsweredBy(a, ra) && AnsweredBy(b, rb)
    ensures AnsweredBy(a + b, if ra.Ok? then rb else Err(ra.error))
  {
    var both, r := a + b, if ra.Ok? then rb else Err(ra.error);
    AllOfBoth(a, b);
    forall n | 0 <= n < |both| && FirstUnmet(both, n)
      ensures r == Err(both[n].code)
    {
      if n < |a| {
        assert both[..n] == a[..n];
        assert FirstUnmet(a, n);
      } else {
        assert both[..n] == a + b[..n - |a|];
        AllOfBoth(a, b[..n - |a|]);
        assert FirstUnmet(b, n - |a|);
      }
    }
  }

  /** Only whether, and with which code, an answer is a refusal matters. */
  lemma SameAnswer<S, T, E>(checks: seq<Check<E>>, r: Result<S, E>, q: Result<T, E>)
    requires AnsweredBy(checks, r) && r.Ok? == q.Ok? && (r.Err? ==> q.error == r.error)
    ensures AnsweredBy(checks, q)
  {
  }

  lemma AllOfBoth<E>(a: seq<Check<E>>, b: seq<Check<E>>)
    ensures AllHold(a + b) <==> AllHold(a) && AllHold(b)
  {
    var both := a + b;
    if AllHold(both) {
      forall i | 0 <= i < |a|
        ensures a[i].holds
      {
        assert both[i] == a[i];
      }
      forall i | 0 <= i < |b|
        ensures b[i].holds
      {
        assert both[|a| + i] == b[i];
      }
    }
  }

  /** The first of a short list of conditions that fails. */
  lemma ShortList<E>(checks: seq<Check<E>>, n: nat)
    requires n < |checks| <= 8 && FirstUnmet(checks, n)
    ensures 0 < n ==> checks[0].holds
    ensures 1 < n ==> checks[1].holds
    ensures 2 < n ==> checks[2].holds
    ensures 3 < n ==> checks[3].holds
    ensures 4 < n ==> checks[4].holds
    ensures 5 < n ==> checks[5].holds
    ensures 6 < n ==> checks[6].holds
  {
    assert forall i :: 0 <= i < n ==> checks[..n][i] == checks[i];
  }

  /** And of a longer one. */
  lemma LongList<E>(checks: seq<Check<E>>, n: nat)
    requires n < |checks| <= 16 && FirstUnmet(checks, n)
    ensures 0 < n ==> checks[0].holds
    ensures 1 < n ==> checks[1].holds
    ensures 2 < n ==> checks[2].holds
    ensures 3 < n ==> checks[3].holds
    ensures 4 < n ==> checks[4].holds
    ensures 5 < n ==> checks[5].holds
    ensures 6 < n ==> checks[6].holds
    ensures 7 < n ==> checks[7].holds
    ensures 8 < n ==> checks[8].holds
    ensures 9 < n ==> checks[9].holds
    ensures 10 < n ==> checks[10].holds
    ensures 11 < n ==> checks[11].holds
    ensures 12 < n ==> checks[12].holds
    ensures 13 < n ==> checks[13].holds
    ensures 14 < n ==> checks[14].holds
  {
    assert forall i :: 0 <= i < n ==> checks[..n][i] == checks[i];
  }

  lemma OneAnswer<E>(holds: bool, code: E)
    ensures AnsweredBy([Check(holds, code)], Need(holds, code))
  {
    var checks := [Check(holds, code)];
    assert AllHold(checks) ==> checks[0].holds;
  }

  /** Some condition is the first to fail, unless all hold. */
  lemma {:induction false} SomeFirst<E>(checks: seq<Check<E>>) returns (n: nat)
    requires !AllHold(checks)
    ensures n < |checks| && FirstUnmet(checks, n)
  {
    var shorter := checks[..|checks| - 1];
    if AllHold(shorter) {
      n := |checks| - 1;
    } else {
      n := SomeFirst(shorter);
      assert shorter[..n] == checks[..n];
    }
  }

  /** An answer is favourable exactly when every condition holds. */
  lemma AnswerExact<T, E>(checks: seq<Check<E>>, r: Result<T, E>)
    requires AnsweredBy(checks, r)
    ensures r.Ok? <==> AllHold(checks)
  {
    hide AllHold, FirstUnmet;
    if !AllHold(checks) {
      var n := SomeFirst(checks);
    }
  }
}
