/** Which traces the cache still holds, and which envelopes it lets pass, said without the lists it keeps. */
module TraceRecency {
  import opened Base
  import opened Checks
  import opened Rules
  import opened TraceCache

  // ----- Recency

  /** The traces touched after place `n`. */
  function TouchedAfter(touched: seq<Trace>, n: int): set<Trace> {
    set i | 0 <= i < |touched| && n < i :: touched[i]
  }

  lemma {:induction false} LastTouchIsLast(touched: seq<Trace>, i: nat)
    requires i < |touched|
    ensures i <= LastTouch(touched, touched[i])
  {
    var last := |touched| - 1;
    if touched[last] != touched[i] {
      LastTouchIsLast(touched[..last], i);
    }
  }

  function Elements(s: seq<Trace>): set<Trace> {
    set x | x in s
  }

  lemma LaterStandsBehind(r: seq<Trace>, touched: seq<Trace>, k: nat, j: nat)
    requires ByLastTouch(r, touched) && j < |r| && k < |r|
    ensures LastTouch(touched, r[k]) < LastTouch(touched, r[j]) ==> k < j
  {
    hide LastTouch;
  }

  lemma {:induction false} DistinctSize(s: seq<Trace>)
    requires Distinct(s)
    ensures |Elements(s)| == |s|
  {
    if s != [] {
      var before, last := s[..|s| - 1], s[|s| - 1];
      DistinctSize(before);
      assert s == before + [last];
      assert Elements(s) == Elements(before) + {last};
      assert last !in before;
    }
  }

  /** Behind a trace in the list of recent ones stand the traces touched after it. */
  lemma BehindIsAfter(touched: seq<Trace>, k: nat)
    requires k < |Recent(touched)|
    ensures
      var r := Recent(touched);
      TouchedAfter(touched, LastTouch(touched, r[k])) == Elements(r[k + 1..])
  {
    var r := Recent(touched);
    var n := LastTouch(touched, r[k]);
    RecentIsByLastTouch(touched);
    hide Recent, LastTouch;
    forall x | x in r[k + 1..]
      ensures x in TouchedAfter(touched, n)
    {
      var j :| 0 <= j < |r[k + 1..]| && r[k + 1..][j] == x;
      assert r[k + 1 + j] == x && x in r;
      assert LastTouch(touched, r[k]) < LastTouch(touched, r[k + 1 + j]);
      assert touched[LastTouch(touched, x)] == x;
    }
    forall x | x in TouchedAfter(touched, n)
      ensures x in r[k + 1..]
    {
      var i :| 0 <= i < |touched| && n < i && touched[i] == x;
      LastTouchIsLast(touched, i);
      assert x in r;
      var j :| 0 <= j < |r| && r[j] == x;
      LaterStandsBehind(r, touched, k, j);
      assert r[k + 1..][j - k - 1] == x;
    }
  }

  /** A trace is held exactly while fewer than 4096 other traces have been touched since it was touched last. */
  lemma HeldExact(touched: seq<Trace>, n: nat)
    requires n < |touched| && forall i :: n < i < |touched| ==> touched[i] != touched[n]
    ensures touched[n] in Newest(Recent(touched), CACHE_LIMIT) <==> |TouchedAfter(touched, n)| < 4096
  {
    var r, t := Recent(touched), touched[n];
    RecentIsByLastTouch(touched);
    RecentIsDistinct(touched);
    LastTouchIsLast(touched, n);
    hide Recent, LastTouch;
    assert t in touched && t in r;
    var k :| 0 <= k < |r| && r[k] == t;
    BehindIsAfter(touched, k);
    assert LastTouch(touched, t) == n;
    DistinctSize(r[k + 1..]);
    hide TouchedAfter;
    NewestAt(r, k, CACHE_LIMIT);
  }

  lemma NewestAt(r: seq<Trace>, k: nat, n: nat)
    requires Distinct(r) && k < |r|
    ensures r[k] in Newest(r, n) <==> |r| - k <= n
  {
    if |r| > n {
      var kept := r[|r| - n..];
      if |r| - k <= n {
        assert kept[k - (|r| - n)] == r[k];
      }
      if r[k] in kept {
        var j :| 0 <= j < |kept| && kept[j] == r[k];
        assert r[j + |r| - n] == r[k];
      }
    }
  }

  /** A trace that was never touched is not held. */
  lemma OnlyTouchedAreHeld(touched: seq<Trace>, t: Trace)
    requires t in Newest(Recent(touched), CACHE_LIMIT)
    ensures t in touched
  {
    RecentIsByLastTouch(touched);
    hide Recent;
  }

  // ----- Envelopes

  /** The places of the candidates marked as selected. */
  function SelectedPlaces(candidates: seq<Candidate>): set<int> {
    set i | 0 <= i < |candidates| && candidates[i].selected
  }

  lemma {:induction false} SelectedCounted(candidates: seq<Candidate>)
    ensures CountSelected(candidates) == |SelectedPlaces(candidates)|
  {
    if candidates != [] {
      var n := |candidates| - 1;
      SelectedCounted(candidates[..n]);
      if candidates[n].selected {
        assert SelectedPlaces(candidates) == SelectedPlaces(candidates[..n]) + {n};
      } else {
        assert SelectedPlaces(candidates) == SelectedPlaces(candidates[..n]);
      }
    }
  }

  function EnvelopeChecks(r: Resolution): (checks: seq<Check<RuleError>>) {
    var p := r.payload;
    [
      Check(r.trace == TraceOf(p), RuleResolutionTraceMismatch),
      Check(p.state == VALID <==> p.diagnostic == None, RuleResolutionInvalid),
      Check(forall x <- p.candidates :: x.selected ==> x.eligible && x.exclusions == {} && x.order != None,
            RuleResolutionInvalid),
      Check(if p.state == VALID then |SelectedPlaces(p.candidates)| == 1 else SelectedPlaces(p.candidates) == {},
            RuleResolutionInvalid)
    ]
  }

  /** An envelope is refused with the code of the first condition that fails. */
  lemma EnvelopeAnswer(r: Resolution)
    ensures AnsweredBy(EnvelopeChecks(r), CheckEnvelope(r))
  {
    var checks := EnvelopeChecks(r);
    SelectedCounted(r.payload.candidates);
    hide SelectedPlaces, CountSelected;
    if AllHold(checks) {
      assert checks[0].holds && checks[1].holds && checks[2].holds && checks[3].holds;
    }
    forall n | 0 <= n < |checks| && FirstUnmet(checks, n)
      ensures CheckEnvelope(r) == Err(checks[n].code)
    {
      ShortList(checks, n);
    }
  }
}
