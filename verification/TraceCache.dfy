/** The cache of trusted traces, which lets only genuine resolutions be evaluated. */
module TraceCache {
  import opened Base
  import opened Sorting
  import opened Rules
  import opened RuleTheorems

  const CACHE_LIMIT := 4096

  // ----- Recency

  function Without(s: seq<Trace>, t: Trace): (r: seq<Trace>)
    ensures forall x :: x in r <==> x in s && x != t
    ensures |r| <= |s|
  {
    if s == [] then []
    else if s[0] == t then Without(s[1..], t)
    else [s[0]] + Without(s[1..], t)
  }

  function MoveToEnd(s: seq<Trace>, t: Trace): seq<Trace> {
    Without(s, t) + [t]
  }

  /** The distinct traces touched, the one touched last at the end. */
  function Recent(touched: seq<Trace>): seq<Trace> {
    if touched == [] then [] else MoveToEnd(Recent(touched[..|touched| - 1]), touched[|touched| - 1])
  }

  function Newest(s: seq<Trace>, n: nat): (r: seq<Trace>)
    ensures |r| <= n && |r| <= |s|
  {
    if |s| <= n then s else s[|s| - n..]
  }

  predicate Distinct(s: seq<Trace>) {
    forall i, j | 0 <= i < j < |s| :: s[i] != s[j]
  }

  lemma {:induction false} WithoutAbsent(s: seq<Trace>, t: Trace)
    requires t !in s
    ensures Without(s, t) == s
  {
    if s != [] {
      WithoutAbsent(s[1..], t);
    }
  }

  function Kept(x: Trace, t: Trace): seq<Trace> {
    if x == t then [] else [x]
  }

  lemma WithoutCons(x: Trace, s: seq<Trace>, t: Trace)
    ensures Without([x] + s, t) == Kept(x, t) + Without(s, t)
  {
    assert ([x] + s)[1..] == s;
  }

  lemma {:induction false} WithoutConcat(a: seq<Trace>, b: seq<Trace>, t: Trace)
    ensures Without(a + b, t) == Without(a, t) + Without(b, t)
  {
    if a == [] {
      assert a + b == b;
    } else {
      hide Without, Kept;
      var x, rest := a[0], a[1..];
      Regroup([x], rest, b);
      assert [x] + rest == a;
      WithoutConcat(rest, b, t);
      WithoutCons(x, rest + b, t);
      WithoutCons(x, rest, t);
      Regroup(Kept(x, t), Without(rest, t), Without(b, t));
    }
  }

  lemma Regroup(a: seq<Trace>, b: seq<Trace>, c: seq<Trace>)
    ensures a + (b + c) == (a + b) + c
  {
  }

  lemma {:induction false} WithoutDistinct(s: seq<Trace>, t: Trace)
    requires Distinct(s)
    ensures Distinct(Without(s, t))
    ensures t in s ==> |Without(s, t)| == |s| - 1
  {
    if s != [] {
      var rest := s[1..];
      WithoutDistinct(rest, t);
      assert s[0] !in rest;
      if s[0] == t {
        WithoutAbsent(rest, t);
      } else {
        assert s[0] !in Without(rest, t);
      }
    }
  }

  lemma {:induction false} RecentIsDistinct(touched: seq<Trace>)
    ensures Distinct(Recent(touched))
  {
    if touched != [] {
      RecentIsDistinct(touched[..|touched| - 1]);
      WithoutDistinct(Recent(touched[..|touched| - 1]), touched[|touched| - 1]);
    }
  }

  /** When a trace was touched last. */
  function LastTouch(touched: seq<Trace>, t: Trace): (n: int)
    ensures t in touched ==> 0 <= n < |touched| && touched[n] == t
    ensures t !in touched ==> n == -1
  {
    if touched == [] then -1
    else if touched[|touched| - 1] == t then |touched| - 1
    else LastTouch(touched[..|touched| - 1], t)
  }

  predicate ByLastTouch(s: seq<Trace>, touched: seq<Trace>) {
    forall i, j | 0 <= i < j < |s| :: LastTouch(touched, s[i]) < LastTouch(touched, s[j])
  }

  lemma {:induction false} WithoutKeepsOrder(s: seq<Trace>, t: Trace, touched: seq<Trace>)
    requires ByLastTouch(s, touched)
    ensures ByLastTouch(Without(s, t), touched)
  {
    hide LastTouch;
    if s != [] {
      var rest := s[1..];
      WithoutKeepsOrder(rest, t, touched);
      forall x | x in Without(rest, t)
        ensures LastTouch(touched, s[0]) < LastTouch(touched, x)
      {
        var i :| 0 <= i < |rest| && rest[i] == x;
        assert s[i + 1] == x;
      }
    }
  }

  /** The recent traces are exactly the touched ones, in the order in which they were touched last. */
  lemma {:induction false} RecentIsByLastTouch(touched: seq<Trace>)
    ensures forall t :: t in Recent(touched) <==> t in touched
    ensures ByLastTouch(Recent(touched), touched)
  {
    if touched != [] {
      var last := |touched| - 1;
      var before, t := touched[..last], touched[last];
      RecentIsByLastTouch(before);
      assert touched == before + [t];
      var kept := Without(Recent(before), t);
      WithoutKeepsOrder(Recent(before), t, before);
      forall i, j | 0 <= i < j < |kept| + 1
        ensures LastTouch(touched, (kept + [t])[i]) < LastTouch(touched, (kept + [t])[j])
      {
        assert kept[i] in kept && LastTouch(touched, kept[i]) == LastTouch(before, kept[i]);
        if j < |kept| {
          assert kept[j] in kept && LastTouch(touched, kept[j]) == LastTouch(before, kept[j]);
        }
      }
    }
  }

  lemma NewestConcat(a: seq<Trace>, b: seq<Trace>, n: nat)
    requires |b| >= n
    ensures Newest(a + b, n) == Newest(b, n)
  {
  }

  /** Moving a trace to the end and dropping the oldest keeps exactly the newest ones. */
  lemma TouchKeepsNewest(all: seq<Trace>, t: Trace, n: nat)
    requires Distinct(all) && n > 0
    ensures Newest(MoveToEnd(all, t), n) == Newest(MoveToEnd(Newest(all, n), t), n)
  {
    if |all| > n {
      var aged, kept := all[..|all| - n], all[|all| - n..];
      assert all == aged + kept;
      WithoutConcat(aged, kept, t);
      var moved := MoveToEnd(kept, t);
      assert MoveToEnd(all, t) == Without(aged, t) + moved;
      if t in kept {
        WithoutDistinct(kept, t);
      } else {
        WithoutAbsent(kept, t);
      }
      NewestConcat(Without(aged, t), moved, n);
    }
  }

  // ----- Envelopes

  datatype RuleError =
    | RuleResolutionInvalid | RuleResolutionTraceMismatch | RuleResolutionReplayMismatch | RuleNotApprovedError

  predicate CandidateFits(candidate: Candidate) {
    candidate.selected ==> candidate.eligible && candidate.exclusions == {} && candidate.order.Some?
  }

  function CountSelected(candidates: seq<Candidate>): nat {
    if candidates == [] then 0
    else CountSelected(candidates[..|candidates| - 1]) + if candidates[|candidates| - 1].selected then 1 else 0
  }

  /** `_validate_envelope`, on a document of the right shape. */
  function CheckEnvelope(r: Resolution): Result<(), RuleError> {
    var _ :- Need(r.trace == TraceOf(r.payload), RuleResolutionTraceMismatch);
    var _ :- Need((r.payload.state == VALID) == r.payload.diagnostic.None?, RuleResolutionInvalid);
    var _ :- Need(forall candidate | candidate in r.payload.candidates :: CandidateFits(candidate),
                  RuleResolutionInvalid);
    Need(CountSelected(r.payload.candidates) == if r.payload.state == VALID then 1 else 0, RuleResolutionInvalid)
  }

  lemma {:induction false} NoneSelected(candidates: seq<Candidate>)
    requires forall i | 0 <= i < |candidates| :: !candidates[i].selected
    ensures CountSelected(candidates) == 0
  {
    if candidates != [] {
      NoneSelected(candidates[..|candidates| - 1]);
    }
  }

  lemma {:induction false} OneSelected(candidates: seq<Candidate>, k: nat)
    requires k < |candidates| && forall i | 0 <= i < |candidates| :: candidates[i].selected <==> i == k
    ensures CountSelected(candidates) == 1
  {
    var last := |candidates| - 1;
    if k == last {
      NoneSelected(candidates[..last]);
    } else {
      OneSelected(candidates[..last], k);
    }
  }

  lemma SelectedCount(s: seq<Rule>, c: Context, digest: Digest)
    ensures CountSelected(PayloadOf(s, c, digest).candidates) == if StateOf(s, c) == VALID then 1 else 0
  {
    hide Eligible, Order, CountSelected, Overlap, SomeEligible, RefOf, Exclusions, Wins;
    var candidates := PayloadOf(s, c, digest).candidates;
    ValidHasWinner(s, c);
    if StateOf(s, c) == VALID {
      var k :| Selected(s, c, k);
      AtMostOne(s, c, k);
      SelectedPlace(s, c, k);
      OneSelected(candidates, k);
    } else {
      NoneSelected(candidates);
    }
  }

  lemma SelectedPlace(s: seq<Rule>, c: Context, i: int)
    requires Selected(s, c, i)
    ensures 0 <= i < |s| && Eligible(s[i], c)
  {
  }

  lemma ValidHasWinner(s: seq<Rule>, c: Context)
    ensures StateOf(s, c) == VALID <==> exists i :: Selected(s, c, i)
    ensures StateOf(s, c) == VALID <==> DiagnosticOf(s, c) == None
  {
    hide Eligible;
    BlockedExact(s, c);
    if exists i :: Wins(s, c, i) {
      var i :| Wins(s, c, i);
      assert SomeEligible(s, c);
      assert !Overlap(s, c) ==> Selected(s, c, i);
    }
  }

  /** What `resolve_rule` returns always passes. */
  lemma EnvelopeAccepts(rules: seq<Rule>, c: Context, digest: Digest)
    ensures CheckEnvelope(Resolved(rules, c, digest)).Ok?
  {
    hide StateOf, DiagnosticOf, Wins, Overlap, CountSelected, Canonical, Order, RefOf, Exclusions;
    var s := Canonical(rules, digest);
    SelectedCount(s, c, digest);
    ValidHasWinner(s, c);
    forall i | 0 <= i < |s|
      ensures CandidateFits(CandidateOf(s[i], c, digest, Selected(s, c, i)))
    {
      if Selected(s, c, i) {
        SelectedPlace(s, c, i);
      }
    }
  }

  // ----- Traces and rule sets

  lemma {:induction false} RefsDetermineRules(a: seq<Rule>, b: seq<Rule>, digest: Digest)
    requires Injective(digest) && |a| == |b|
    requires forall i | 0 <= i < |a| :: RefOf(a[i], digest) == RefOf(b[i], digest)
    ensures a == b
  {
    forall i | 0 <= i < |a|
      ensures a[i] == b[i]
    {
      assert digest(a[i]) == digest(b[i]);
    }
  }

  /** A trace identifies the rules and the context it was made from. */
  lemma TraceDeterminesRules(a: seq<Rule>, b: seq<Rule>, c: Context, d: Context, digest: Digest)
    requires Injective(digest)
    requires Resolved(a, c, digest).trace == Resolved(b, d, digest).trace
    ensures multiset(a) == multiset(b) && c == d && Canonical(a, digest) == Canonical(b, digest)
  {
    hide StateOf, DiagnosticOf, Eligible, Order, Exclusions, Selected;
    var s, t := Canonical(a, digest), Canonical(b, digest);
    assert PayloadOf(s, c, digest) == PayloadOf(t, d, digest);
    var x, y := PayloadOf(s, c, digest).candidates, PayloadOf(t, d, digest).candidates;
    assert |s| == |x| == |y| == |t|;
    forall i | 0 <= i < |s|
      ensures RefOf(s[i], digest) == RefOf(t[i], digest)
    {
      assert x[i].ref == y[i].ref;
    }
    RefsDetermineRules(s, t, digest);
  }

  // ----- The selected rule

  function FirstSelected(candidates: seq<Candidate>): Option<Ref> {
    if candidates == [] then None
    else if candidates[0].eligible && candidates[0].selected then Some(candidates[0].ref)
    else FirstSelected(candidates[1..])
  }

  function Lookup(s: seq<Rule>, ref: Ref, digest: Digest): Option<Rule> {
    if s == [] then None else if RefOf(s[0], digest) == ref then Some(s[0]) else Lookup(s[1..], ref, digest)
  }

  lemma {:induction false} FirstSelectedIs(candidates: seq<Candidate>, k: nat)
    requires k < |candidates| && candidates[k].eligible
    requires forall i | 0 <= i < |candidates| :: candidates[i].selected <==> i == k
    ensures FirstSelected(candidates) == Some(candidates[k].ref)
  {
    if k > 0 {
      FirstSelectedIs(candidates[1..], k - 1);
    }
  }

  lemma {:induction false} LookupFinds(s: seq<Rule>, k: nat, digest: Digest)
    requires Injective(digest) && k < |s|
    ensures Lookup(s, RefOf(s[k], digest), digest) == Some(s[k])
  {
    if RefOf(s[0], digest) == RefOf(s[k], digest) {
      assert digest(s[0]) == digest(s[k]);
    } else {
      LookupFinds(s[1..], k - 1, digest);
    }
  }

  /** `_selected_rule`. */
  function SelectedRule(r: Resolution, s: seq<Rule>, digest: Digest): Option<Rule> {
    if r.payload.state != VALID then None
    else
      match FirstSelected(r.payload.candidates)
      case None => None
      case Some(ref) => Lookup(s, ref, digest)
  }

  /** For a genuine resolution the rule found is the one resolution picked, and it is approved. */
  lemma GenuineSelection(rules: seq<Rule>, c: Context, digest: Digest)
    requires Injective(digest)
    ensures
      var s, r := Canonical(rules, digest), Resolved(rules, c, digest);
      match SelectedRule(r, s, digest)
      case None => r.payload.state != VALID
      case Some(rule) =>
        r.payload.state == VALID && Picks(rules, c, rule) && rule.status in {SHADOW, PILOT, ACTIVE}
  {
    hide StateOf, DiagnosticOf, Exclusions, Order, FirstSelected, Lookup, Overlap, Wins, Canonical, Picks;
    var s, r := Canonical(rules, digest), Resolved(rules, c, digest);
    ValidHasWinner(s, c);
    if r.payload.state == VALID {
      var k :| Selected(s, c, k);
      SelectedPlace(s, c, k);
      AtMostOne(s, c, k);
      FirstSelectedIs(r.payload.candidates, k);
      LookupFinds(s, k, digest);
      EligibleIsApproved(s[k], c);
      PickedPlace(s, c, k);
      CanonicalSameRules(rules, c, digest);
      ApplyingDecides(s, rules, c);
    }
  }

  lemma PickedPlace(s: seq<Rule>, c: Context, k: nat)
    requires k < |s| && Selected(s, c, k)
    ensures Picks(s, c, s[k])
  {
  }

  lemma EligibleIsApproved(r: Rule, c: Context)
    requires Eligible(r, c)
    ensures Approved(r.status)
  {
    assert !Approved(r.status) ==> RuleNotApproved in Exclusions(r, c);
  }

  function MissingFrom(dependencies: seq<string>, variables: set<string>): (r: seq<string>)
    ensures forall d :: d in r <==> d in dependencies && d !in variables
  {
    if dependencies == [] then []
    else (if dependencies[0] in variables then [] else [dependencies[0]]) + MissingFrom(dependencies[1..], variables)
  }

  // ----- The cache

  /** A call of `resolve_rule`. */
  datatype Call = Call(rules: seq<Rule>, context: Context)

  datatype Entry = Entry(resolution: Resolution, rules: seq<Rule>)

  /** What one call leaves in the cache. */
  ghost function EntryOf(call: Call, digest: Digest): Entry {
    Entry(Resolved(call.rules, call.context, digest), Canonical(call.rules, digest))
  }

  /** The pair is what an earlier call returned and was given. */
  ghost predicate Genuine(e: Entry, calls: set<Call>, digest: Digest) {
    exists call | call in calls :: e == EntryOf(call, digest)
  }

  ghost predicate AllGenuine(stored: map<Trace, Entry>, calls: set<Call>, digest: Digest) {
    forall t | t in stored :: stored[t].resolution.trace == t && Genuine(stored[t], calls, digest)
  }

  /** What a caller of `evaluate_resolved_rule` is let through with. */
  datatype Passage = Proceed(selected: Option<Rule>) | DependencyMissing(rule: Rule, name: string)

  ghost predicate PassageFits(passage: Passage, call: Call, variables: set<string>) {
    match passage
    case Proceed(None) => StateOf(call.rules, call.context) != VALID
    case Proceed(Some(rule)) =>
      && Picks(call.rules, call.context, rule) && Approved(rule.status)
      && forall d | d in rule.dependencies :: d in variables
    case DependencyMissing(rule, name) =>
      && Picks(call.rules, call.context, rule) && name in rule.dependencies && name !in variables
      && forall d | d in rule.dependencies && d !in variables :: TextLe(name, d)
  }

  class TrustedRules {
    const digest: Digest
    /** Keys of the ordered dictionary, the one touched last at the end. */
    var traces: seq<Trace>
    var stored: map<Trace, Entry>
    ghost var touched: seq<Trace>
    ghost var calls: set<Call>

    ghost predicate Valid()
      reads this
    {
      && Injective(digest)
      && traces == Newest(Recent(touched), CACHE_LIMIT)
      && (forall t :: t in traces <==> t in stored)
      && AllGenuine(stored, calls, digest)
    }

    constructor (digest: Digest)
      requires Injective(digest)
      ensures Valid() && this.digest == digest && touched == [] && calls == {}
    {
      this.digest := digest;
      traces, stored, touched, calls := [], map[], [], {};
    }

    /** Drop the oldest traces while there are too many. */
    method Evict()
      requires Distinct(traces) && forall t :: t in traces <==> t in stored
      modifies `traces, `stored
      ensures traces == Newest(old(traces), CACHE_LIMIT)
      ensures forall t :: t in traces <==> t in stored
      ensures Part(stored, old(stored))
    {
      while |traces| > CACHE_LIMIT
        invariant Newest(traces, CACHE_LIMIT) == Newest(old(traces), CACHE_LIMIT)
        invariant Distinct(traces)
        invariant forall t :: t in traces <==> t in stored
        invariant Part(stored, old(stored))
      {
        var oldest := traces[0];
        assert traces == [oldest] + traces[1..];
        stored := stored - {oldest};
        traces := traces[1..];
      }
    }

    /** `_register`. */
    method Register(r: Resolution, rules: seq<Rule>, ghost call: Call)
      requires Valid() && Entry(r, rules) == EntryOf(call, digest)
      modifies this
      ensures Valid() && touched == old(touched) + [r.trace] && calls == old(calls) + {call}
      ensures r.trace in stored && stored[r.trace] == Entry(r, rules)
    {
      hide AllGenuine, EntryOf, MoveToEnd, Recent, Distinct, Newest;
      RecentIsDistinct(touched);
      NewestIsDistinct(Recent(touched), CACHE_LIMIT);
      TouchKeepsNewest(Recent(touched), r.trace, CACHE_LIMIT);
      GenuineLater(stored, calls, call, digest);
      RecentGrows(touched, r.trace);
      MoveFacts(traces, r.trace);
      stored := stored[r.trace := Entry(r, rules)];
      traces := MoveToEnd(traces, r.trace);
      NewestKeepsLast(traces, CACHE_LIMIT);
      PartGenuine(stored, calls + {call}, digest);
      Evict();
      calls := calls + {call};
      touched := touched + [r.trace];
    }

    /** `_trusted`: a trace that is known is touched, whatever the answer. */
    method Trusted(r: Resolution, rules: seq<Rule>) returns (trusted: bool)
      requires Valid()
      modifies `traces, `touched
      ensures Valid()
      ensures touched == old(touched) + if r.trace in old(stored) then [r.trace] else []
      ensures trusted <==> r.trace in old(stored) && old(stored)[r.trace] == Entry(r, rules)
    {
      hide Genuine, EntryOf, MoveToEnd, Recent;
      if r.trace !in stored {
        return false;
      }
      RecentIsDistinct(touched);
      NewestIsDistinct(Recent(touched), CACHE_LIMIT);
      TouchKeepsNewest(Recent(touched), r.trace, CACHE_LIMIT);
      RecentGrows(touched, r.trace);
      MoveFacts(traces, r.trace);
      traces := MoveToEnd(traces, r.trace);
      touched := touched + [r.trace];
      return stored[r.trace] == Entry(r, rules);
    }

    /** `resolve_rule`. */
    method ResolveRule(rules: seq<Rule>, context: Context) returns (r: Resolution)
      requires Valid()
      modifies this
      ensures Valid() && calls == old(calls) + {Call(rules, context)} && touched == old(touched) + [r.trace]
      ensures r == Resolved(rules, context, digest)
      ensures r.trace in stored && stored[r.trace] == Entry(r, Canonical(rules, digest))
    {
      var snapshot := Canonical(rules, digest);
      PermutationDoesNotMatter(snapshot, rules, context, digest);
      r := Rules.ResolveRule(snapshot, context, digest);
      hide AllGenuine, Resolved, Canonical, Recent, Newest;
      Register(r, snapshot, Call(rules, context));
    }

    /** The gate of `evaluate_resolved_rule`: what happens before the rule itself is evaluated. */
    method Pass(r: Resolution, rules: seq<Rule>, variables: set<string>) returns (passage: Result<Passage, RuleError>)
      requires Valid()
      modifies `traces, `touched
      ensures Valid()
      ensures touched == old(touched) + if CheckEnvelope(r).Ok? && r.trace in old(traces) then [r.trace] else []
      ensures passage.Ok? <==>
        r.trace in old(traces) && exists call | call in calls ::
          Entry(r, Canonical(rules, digest)) == EntryOf(call, digest)
      ensures passage.Ok? ==> exists call | call in calls ::
          Entry(r, Canonical(rules, digest)) == EntryOf(call, digest) && PassageFits(passage.value, call, variables)
      ensures passage.Err? ==>
        passage.error == if CheckEnvelope(r).Err? then CheckEnvelope(r).error else RuleResolutionReplayMismatch
    {
      hide EntryOf, CheckEnvelope, Recent, Newest, PassageFits, SelectedRule, Approved, Canonical;
      var s := Canonical(rules, digest);
      GenuinePasses(r, s, stored, calls, digest);
      var envelope := CheckEnvelope(r);
      if envelope.Err? {
        return Err(envelope.error);
      }
      var trusted := Trusted(r, s);
      if !trusted {
        return Err(RuleResolutionReplayMismatch);
      }
      ghost var call :| call in calls && Entry(r, s) == EntryOf(call, digest);
      SelectionOf(call, r, s, digest);
      var selected := SelectedRule(r, s, digest);
      if selected.Some? && !Approved(selected.value.status) {
        // RULE_NOT_APPROVED: a trusted resolution never selects such a rule.
        assert false;
      }
      if selected.Some? {
        var missing := Sort(MissingFrom(selected.value.dependencies, variables), TextLe);
        MissingFacts(selected.value, variables, call);
        if missing != [] {
          return Ok(DependencyMissing(selected.value, missing[0]));
        }
      }
      PassageOf(call, selected, variables);
      return Ok(Proceed(selected));
    }
  }

  lemma SameTraceSameEntry(a: Call, b: Call, digest: Digest)
    requires Injective(digest) && EntryOf(a, digest).resolution.trace == EntryOf(b, digest).resolution.trace
    ensures EntryOf(a, digest) == EntryOf(b, digest)
  {
    TraceDeterminesRules(a.rules, b.rules, a.context, b.context, digest);
    hide Canonical, PayloadOf;
  }

  /** A resolution made earlier from the same rules passes the envelope, and is what the cache holds for its trace. */
  lemma GenuinePasses(r: Resolution, s: seq<Rule>, stored: map<Trace, Entry>, calls: set<Call>, digest: Digest)
    requires Injective(digest)
    requires AllGenuine(stored, calls, digest)
    ensures Genuine(Entry(r, s), calls, digest) ==> CheckEnvelope(r).Ok?
    ensures Genuine(Entry(r, s), calls, digest) && r.trace in stored ==> stored[r.trace] == Entry(r, s)
    ensures r.trace in stored && stored[r.trace] == Entry(r, s) ==> Genuine(Entry(r, s), calls, digest)
  {
    hide EntryOf, CheckEnvelope;
    if Genuine(Entry(r, s), calls, digest) {
      var call :| call in calls && Entry(r, s) == EntryOf(call, digest);
      EntryAccepted(call, digest);
      if r.trace in stored {
        var other :| other in calls && stored[r.trace] == EntryOf(other, digest);
        SameTraceSameEntry(call, other, digest);
      }
    }
  }

  lemma EntryAccepted(call: Call, digest: Digest)
    ensures CheckEnvelope(EntryOf(call, digest).resolution).Ok?
  {
    EnvelopeAccepts(call.rules, call.context, digest);
    hide CheckEnvelope, Resolved, Canonical;
  }

  /** What the selected rule of a genuine resolution is. */
  ghost predicate SelectionFits(selected: Option<Rule>, call: Call) {
    match selected
    case None => StateOf(call.rules, call.context) != VALID
    case Some(rule) => Picks(call.rules, call.context, rule) && Approved(rule.status)
  }

  lemma SelectionOf(call: Call, r: Resolution, s: seq<Rule>, digest: Digest)
    requires Injective(digest) && Entry(r, s) == EntryOf(call, digest)
    ensures SelectionFits(SelectedRule(r, s, digest), call)
    ensures SelectedRule(r, s, digest).Some? ==> Approved(SelectedRule(r, s, digest).value.status)
  {
    hide SelectedRule, Picks, StateOf, Canonical, DiagnosticOf, Selected, CandidateOf;
    GenuineSelection(call.rules, call.context, digest);
    CanonicalSameRules(call.rules, call.context, digest);
    ApplyingDecides(Canonical(call.rules, digest), call.rules, call.context);
  }

  lemma LeastMissing(dependencies: seq<string>, variables: set<string>)
    ensures
      var missing := Sort(MissingFrom(dependencies, variables), TextLe);
      if missing == [] then
        forall d | d in dependencies :: d in variables
      else
        && missing[0] in dependencies && missing[0] !in variables
        && forall d | d in dependencies && d !in variables :: TextLe(missing[0], d)
  {
    hide TextLe;
    var all := MissingFrom(dependencies, variables);
    var missing := Sort(all, TextLe);
    TextLeIsTotal();
    SortMembers(all, TextLe);
    SortSorted(all, TextLe);
    hide Sort;
    if missing != [] {
      assert missing[0] in missing;
      forall d | d in dependencies && d !in variables
        ensures TextLe(missing[0], d)
      {
        FirstIsLeast(missing, d);
      }
    } else {
      forall d | d in dependencies
        ensures d in variables
      {
        assert d in missing <==> d !in variables;
      }
    }
  }

  lemma FirstIsLeast(sorted: seq<string>, d: string)
    requires Sorted(sorted, TextLe) && d in sorted
    ensures TextLe(sorted[0], d)
  {
    hide TextLe;
    var i :| 0 <= i < |sorted| && sorted[i] == d;
    TextTotal(d, d);
  }

  lemma MissingFacts(rule: Rule, variables: set<string>, call: Call)
    requires SelectionFits(Some(rule), call)
    ensures
      var missing := Sort(MissingFrom(rule.dependencies, variables), TextLe);
      && (missing != [] ==> PassageFits(DependencyMissing(rule, missing[0]), call, variables))
      && (missing == [] ==> PassageFits(Proceed(Some(rule)), call, variables))
  {
    hide Picks, Approved, Sort, MissingFrom, TextLe;
    LeastMissing(rule.dependencies, variables);
  }

  lemma TextLeIsTotal()
    ensures Total(TextLe) && Transitive(TextLe)
  {
    forall a, b
      ensures TextLe(a, b) || TextLe(b, a)
    {
      TextTotal(a, b);
    }
    forall a, b, c
      ensures TextLe(a, b) && TextLe(b, c) ==> TextLe(a, c)
    {
      if TextLe(a, b) && TextLe(b, c) {
        TextTransitive(a, b, c);
      }
    }
  }

  lemma PassageOf(call: Call, selected: Option<Rule>, variables: set<string>)
    requires SelectionFits(selected, call)
    requires selected.Some? ==> PassageFits(Proceed(selected), call, variables)
    ensures PassageFits(Proceed(selected), call, variables)
  {
  }

  lemma NewestIsDistinct(s: seq<Trace>, n: nat)
    requires Distinct(s)
    ensures Distinct(Newest(s, n))
  {
  }

  lemma NewestKeepsLast(s: seq<Trace>, n: nat)
    requires s != [] && n > 0
    ensures s[|s| - 1] in Newest(s, n)
  {
    assert Newest(s, n)[|Newest(s, n)| - 1] == s[|s| - 1];
  }

  ghost predicate Part(small: map<Trace, Entry>, big: map<Trace, Entry>) {
    forall t | t in small :: t in big && small[t] == big[t]
  }

  lemma GenuineLater(stored: map<Trace, Entry>, calls: set<Call>, call: Call, digest: Digest)
    requires AllGenuine(stored, calls, digest)
    ensures
      var e := EntryOf(call, digest);
      AllGenuine(stored[e.resolution.trace := e], calls + {call}, digest)
  {
    hide EntryOf;
    assert call in calls + {call};
  }

  lemma PartGenuine(stored: map<Trace, Entry>, calls: set<Call>, digest: Digest)
    requires AllGenuine(stored, calls, digest)
    ensures forall part | Part(part, stored) :: AllGenuine(part, calls, digest)
  {
    hide Genuine;
  }

  lemma RecentGrows(touched: seq<Trace>, t: Trace)
    ensures Recent(touched + [t]) == MoveToEnd(Recent(touched), t)
  {
    assert (touched + [t])[..|touched|] == touched;
  }

  lemma MoveFacts(s: seq<Trace>, t: Trace)
    ensures forall x :: x in MoveToEnd(s, t) <==> x in s || x == t
    ensures MoveToEnd(s, t) != [] && MoveToEnd(s, t)[|MoveToEnd(s, t)| - 1] == t
    ensures Distinct(s) ==> Distinct(MoveToEnd(s, t))
    ensures Distinct(s) && t in s ==> |MoveToEnd(s, t)| == |s|
  {
    if Distinct(s) {
      WithoutDistinct(s, t);
    }
  }
}
