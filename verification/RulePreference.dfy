/** Which rule is selected and why the others are not, in terms of the fields of rules and context. */
module RulePreference {
  import opened Base
  import opened Sorting
  import opened Rules
  import opened RuleTheorems

  // ----- Rules that apply

  /** Approved, in force, and naming nothing that the context does not have. */
  predicate Applies(r: Rule, c: Context) {
    && r.scope.organization == c.organization
    && (r.status == SHADOW || r.status == PILOT || r.status == ACTIVE)
    && r.validFrom <= c.instant && (r.validTo == None || c.instant < r.validTo.value)
    && r.scope.productId in {None, c.productId} && r.scope.productGroup in {None, c.productGroup}
    && r.scope.account in {None, c.account} && r.scope.marketplace in {None, c.marketplace}
    && r.scope.profile in {None, Some(c.profile)}
    && (r.scope.scenario == None || (c.mode == SCENARIO && r.scope.scenario == c.scenario))
  }

  lemma AppliesExact(r: Rule, c: Context)
    ensures Applies(r, c) <==> Eligible(r, c)
  {
    EligibleExact(r, c);
    hide Eligible;
  }

  /** What each reason says of a rule. */
  predicate Excludes(r: Rule, c: Context, e: Exclusion) {
    match e
    case OrganizationMismatch => r.scope.organization != c.organization
    case RuleNotApproved => r.status in {DRAFT, SUSPENDED, RETIRED}
    case RuleOutsideValidity => c.instant < r.validFrom || (r.validTo != None && r.validTo.value <= c.instant)
    case ScenarioRuleExcluded => c.mode == ACTUAL && r.scope.scenario != None
    case ScenarioMismatch => c.mode == SCENARIO && r.scope.scenario !in {None, c.scenario}
    case ProductMismatch => r.scope.productId !in {None, c.productId}
    case ProductGroupMismatch => r.scope.productGroup !in {None, c.productGroup}
    case AccountMismatch => r.scope.account !in {None, c.account}
    case MarketplaceMismatch => r.scope.marketplace !in {None, c.marketplace}
    case ProfileMismatch => r.scope.profile !in {None, Some(c.profile)}
  }

  lemma WhenExact(condition: bool, reason: Exclusion, e: Exclusion)
    ensures e in When(condition, reason) <==> condition && e == reason
  {
  }

  /** A rule is listed with exactly the reasons that it has. */
  lemma ReasonsExact(r: Rule, c: Context, e: Exclusion)
    ensures e in Exclusions(r, c) <==> Excludes(r, c, e)
  {
    forall condition, reason {
      WhenExact(condition, reason, e);
    }
    hide When;
  }

  // ----- Preference

  /**
   At the first of product, product group, account, marketplace, profile and scenario that one scope names and
   the other does not, it is the first that names it.
   */
  predicate TellsMore(a: Scope, b: Scope) {
    if a.productId.Some? != b.productId.Some? then a.productId.Some?
    else if a.productGroup.Some? != b.productGroup.Some? then a.productGroup.Some?
    else if a.account.Some? != b.account.Some? then a.account.Some?
    else if a.marketplace.Some? != b.marketplace.Some? then a.marketplace.Some?
    else if a.profile.Some? != b.profile.Some? then a.profile.Some?
    else a.scenario.Some? && b.scenario.None?
  }

  predicate TellSame(a: Scope, b: Scope) {
    && (a.productId.Some? <==> b.productId.Some?) && (a.productGroup.Some? <==> b.productGroup.Some?)
    && (a.account.Some? <==> b.account.Some?) && (a.marketplace.Some? <==> b.marketplace.Some?)
    && (a.profile.Some? <==> b.profile.Some?) && (a.scenario.Some? <==> b.scenario.Some?)
  }

  /** The more specific rule; of equally specific ones that of higher priority, then later start, then later version. */
  predicate Preferred(a: Rule, b: Rule) {
    || TellsMore(a.scope, b.scope)
    || (TellSame(a.scope, b.scope) && (
          || a.priority > b.priority
          || (a.priority == b.priority && a.validFrom > b.validFrom)
          || (a.priority == b.priority && a.validFrom == b.validFrom && a.version > b.version)))
  }

  lemma LexStep(a: seq<int>, b: seq<int>, k: nat)
    requires |a| == |b| && k < |a|
    ensures LexLe(a[k..], b[k..]) <==> a[k] < b[k] || (a[k] == b[k] && LexLe(a[k + 1..], b[k + 1..]))
  {
    assert a[k..][1..] == a[k + 1..] && b[k..][1..] == b[k + 1..];
  }

  lemma NamesExact(a: Rule, b: Rule)
    ensures Names(a) == Names(b) <==> TellSame(a.scope, b.scope)
    ensures Names(a) != Names(b) ==> (LexLe(Names(a), Names(b)) <==> !TellsMore(a.scope, b.scope))
  {
    var x, y := Names(a), Names(b);
    assert x[0..] == x && y[0..] == y && LexLe(x[6..], y[6..]);
    hide LexLe;
    LexStep(x, y, 0);
    LexStep(x, y, 1);
    LexStep(x, y, 2);
    LexStep(x, y, 3);
    LexStep(x, y, 4);
    LexStep(x, y, 5);
    if x == y {
      assert x[0] == y[0] && x[1] == y[1] && x[2] == y[2] && x[3] == y[3] && x[4] == y[4] && x[5] == y[5];
    }
  }

  lemma TellOnce(a: Scope, b: Scope)
    ensures TellSame(a, b) ==> !TellsMore(a, b)
  {
  }

  /** Preference is by the fields. */
  lemma AboveByFields(a: Rule, b: Rule)
    ensures Above(a, b) <==> Preferred(a, b)
  {
    hide Above, Names, TellsMore, TellSame, LexLe;
    AboveExact(a, b);
    NamesExact(a, b);
    TellOnce(a.scope, b.scope);
  }

  // ----- Resolution

  /** No two rules that apply share an exclusivity group. */
  ghost predicate GroupsApart(rules: seq<Rule>, c: Context) {
    forall i, j :: 0 <= i < j < |rules| && Applies(rules[i], c) && Applies(rules[j], c) ==>
      rules[i].group == None || rules[i].group != rules[j].group
  }

  /** The rule at one place applies and is preferred to every other rule that does. */
  ghost predicate PreferredAt(rules: seq<Rule>, c: Context, i: int) {
    && 0 <= i < |rules| && Applies(rules[i], c)
    && forall j :: 0 <= j < |rules| && j != i && Applies(rules[j], c) ==> Preferred(rules[i], rules[j])
  }

  lemma FieldsDecide(rules: seq<Rule>, c: Context)
    ensures Overlap(rules, c) <==> !GroupsApart(rules, c)
    ensures forall i :: Wins(rules, c, i) <==> PreferredAt(rules, c, i)
    ensures SomeEligible(rules, c) <==> exists i :: 0 <= i < |rules| && Applies(rules[i], c)
  {
    forall r {
      AppliesExact(r, c);
    }
    forall a, b {
      AboveByFields(a, b);
    }
    hide Applies, Eligible, Above, Preferred;
  }

  /** A rule that would apply if it had been approved. */
  predicate OnlyLacksApproval(r: Rule, c: Context) {
    r.status in {DRAFT, SUSPENDED, RETIRED} && Applies(r.(status := ACTIVE), c)
  }

  lemma LacksApprovalExact(r: Rule, c: Context)
    ensures OnlyLacksApproval(r, c) <==> Exclusions(r, c) == {RuleNotApproved}
  {
    hide Exclusions, Applies;
    var approved := r.(status := ACTIVE);
    AppliesExact(approved, c);
    forall e {
      ReasonsExact(r, c, e);
    }
    forall e {
      ReasonsExact(approved, c, e);
    }
    if Exclusions(r, c) == {RuleNotApproved} {
      assert RuleNotApproved in Exclusions(r, c);
      NoReasons(approved, c, r);
    }
    if OnlyLacksApproval(r, c) {
      OneReason(approved, c, r);
    }
  }

  lemma NoReasons(approved: Rule, c: Context, r: Rule)
    requires approved == r.(status := ACTIVE) && forall e :: Excludes(r, c, e) ==> e == RuleNotApproved
    ensures forall e :: !Excludes(approved, c, e)
  {
    forall e
      ensures !Excludes(approved, c, e)
    {
      assert Excludes(r, c, e) ==> e == RuleNotApproved;
    }
  }

  lemma OneReason(approved: Rule, c: Context, r: Rule)
    requires approved == r.(status := ACTIVE) && forall e :: !Excludes(approved, c, e)
    ensures forall e :: Excludes(r, c, e) ==> e == RuleNotApproved
  {
    forall e | Excludes(r, c, e)
      ensures e == RuleNotApproved
    {
      assert !Excludes(approved, c, e);
    }
  }

  /** State and diagnostic, by what is shared, what applies, and what is preferred. */
  ghost predicate EndsAs(r: Resolution, rules: seq<Rule>, c: Context) {
    if !GroupsApart(rules, c) then
      r.payload.state == Outcome.CONFLICT && r.payload.diagnostic == Some(RuleExclusivityOverlap)
    else if forall rule <- rules :: !Applies(rule, c) then
      && r.payload.state == Outcome.BLOCKED
      && r.payload.diagnostic ==
         Some(if exists rule <- rules :: OnlyLacksApproval(rule, c) then RuleNotApprovedOnly else RuleRequiredMissing)
    else if exists i :: PreferredAt(rules, c, i) then
      r.payload.state == VALID && r.payload.diagnostic == None
    else
      r.payload.state == Outcome.CONFLICT && r.payload.diagnostic == Some(RuleResolutionTie)
  }

  /** What decides a resolution does not depend on the order of the rules. */
  lemma SameRulesSameEnding(a: seq<Rule>, b: seq<Rule>, c: Context)
    requires multiset(a) == multiset(b)
    ensures Overlap(a, c) == Overlap(b, c) && SomeEligible(a, c) == SomeEligible(b, c)
    ensures (exists i :: Wins(a, c, i)) == (exists i :: Wins(b, c, i))
    ensures OnlyUnapproved(a, c) == OnlyUnapproved(b, c)
  {
    hide Eligible, Applying, Overlap, SomeEligible, Wins, Clash, Champion, Exclusions;
    SameRulesSameApplying(a, b, c);
    OverlapIsClash(a, c);
    OverlapIsClash(b, c);
    SomeApplies(a, c);
    SomeApplies(b, c);
    WinnerExists(a, c);
    WinnerExists(b, c);
    forall r
      ensures r in a <==> r in b
    {
      assert r in multiset(a) <==> r in multiset(b);
    }
    assert OnlyUnapproved(a, c) <==> exists r :: r in a && Exclusions(r, c) == {RuleNotApproved};
    assert OnlyUnapproved(b, c) <==> exists r :: r in b && Exclusions(r, c) == {RuleNotApproved};
  }

  lemma UnapprovedByFields(rules: seq<Rule>, c: Context)
    ensures OnlyUnapproved(rules, c) <==> exists rule <- rules :: OnlyLacksApproval(rule, c)
  {
    hide OnlyLacksApproval, Exclusions;
    forall r {
      LacksApprovalExact(r, c);
    }
    if OnlyUnapproved(rules, c) {
      var i :| 0 <= i < |rules| && Exclusions(rules[i], c) == {RuleNotApproved};
      assert rules[i] in rules && OnlyLacksApproval(rules[i], c);
    }
    if rule :| rule in rules && OnlyLacksApproval(rule, c) {
      var i :| 0 <= i < |rules| && rules[i] == rule;
    }
  }

  lemma EndingByPredicates(rules: seq<Rule>, c: Context, digest: Digest)
    ensures Resolved(rules, c, digest).payload.state == StateOf(rules, c)
    ensures Resolved(rules, c, digest).payload.diagnostic == DiagnosticOf(rules, c)
  {
    hide Overlap, Wins, SomeEligible, OnlyUnapproved, Canonical, CandidateOf;
    CanonicalSameRules(rules, c, digest);
    SameRulesSameEnding(Canonical(rules, digest), rules, c);
  }

  /** Every resolution ends as its rules say. */
  lemma EndingExact(rules: seq<Rule>, c: Context, digest: Digest)
    ensures EndsAs(Resolved(rules, c, digest), rules, c)
  {
    hide GroupsApart, PreferredAt, Overlap, Wins, SomeEligible, OnlyUnapproved, Applies, Resolved, OnlyLacksApproval;
    EndingByPredicates(rules, c, digest);
    FieldsDecide(rules, c);
    UnapprovedByFields(rules, c);
  }

  /** The resolution selects this rule, and no other. */
  ghost predicate SelectsOnly(r: Resolution, digest: Digest, rule: Rule) {
    r.payload.state == VALID && forall other :: Marks(r, RefOf(other, digest)) <==> other == rule
  }

  lemma PickedIsOnly(rules: seq<Rule>, c: Context, i: nat, rule: Rule)
    requires !Overlap(rules, c) && Wins(rules, c, i)
    ensures Picks(rules, c, rule) <==> rule == rules[i]
  {
    hide Overlap, Eligible, Above;
    if Picks(rules, c, rule) {
      var j :| 0 <= j < |rules| && Selected(rules, c, j) && rules[j] == rule;
      if j != i {
        NotBothAbove(rules[i], rules[j]);
      }
    }
    if rule == rules[i] {
      assert Selected(rules, c, i);
    }
  }

  lemma NotBothAbove(a: Rule, b: Rule)
    ensures !(Above(a, b) && Above(b, a))
  {
    LexTotal(Order(a), Order(b));
  }

  /** Without a shared group, the rule that is preferred to all others is the one that is selected. */
  lemma PreferredIsSelected(rules: seq<Rule>, c: Context, digest: Digest, i: nat)
    requires Injective(digest) && GroupsApart(rules, c) && PreferredAt(rules, c, i)
    ensures SelectsOnly(Resolved(rules, c, digest), digest, rules[i])
  {
    hide GroupsApart, Resolved, Overlap, Wins, SomeEligible, Marks, Picks, RefOf, Canonical, Applies, Preferred;
    FieldsDecide(rules, c);
    ResolutionExact(rules, c, digest);
    forall rule {
      PickedIsOnly(rules, c, i, rule);
    }
  }

  // ----- What is listed of the rules

  /** The rules are listed by identifier, then version, then digest. */
  lemma ListedInOrder(rules: seq<Rule>, digest: Digest, i: nat, j: nat)
    requires Injective(digest) && i < j < |Canonical(rules, digest)|
    ensures
      var a, b := Canonical(rules, digest)[i], Canonical(rules, digest)[j];
      && InOrder(a.id, b.id, SmallerChar)
      && (a.id == b.id ==> a.version <= b.version)
      && (a.id == b.id && a.version == b.version ==> InOrder(digest(a), digest(b), SmallerChar))
  {
    BeforeIsAnOrder(digest);
    SortSorted(rules, Before(digest));
    var a, b := Canonical(rules, digest)[i], Canonical(rules, digest)[j];
    assert RuleLe(a, b, digest);
    TextLeExact(a.id, b.id);
    TextLeExact(digest(a), digest(b));
    hide Total, Transitive, Antisymmetric, Canonical, Sorted, TextLe;
  }

  /** 1 for a field that is named and 0 for one that is not. */
  predicate Flags(flag: int, field: Option<string>) {
    if field == None then flag == 0 else flag == 1
  }

  /** The order of preference as it is listed: six flags, priority, start and version. */
  predicate ListsOrder(order: seq<int>, r: Rule) {
    && |order| == 9
    && Flags(order[0], r.scope.productId) && Flags(order[1], r.scope.productGroup) && Flags(order[2], r.scope.account)
    && Flags(order[3], r.scope.marketplace) && Flags(order[4], r.scope.profile) && Flags(order[5], r.scope.scenario)
    && order[6] == r.priority && order[7] == r.validFrom && order[8] == r.version
  }

  /** What a resolution lists of the rule at one place. */
  lemma ListedAs(rules: seq<Rule>, c: Context, digest: Digest, i: nat)
    requires i < |rules|
    ensures
      var payload, rule := Resolved(rules, c, digest).payload, Canonical(rules, digest)[i];
      && payload.context == c && |payload.candidates| == |rules|
      && var listed := payload.candidates[i];
         && listed.ref.id == rule.id && listed.ref.version == rule.version && listed.ref.hash == digest(rule)
         && (listed.eligible <==> Applies(rule, c))
         && (listed.order.Some? <==> Applies(rule, c))
         && (listed.order.Some? ==> ListsOrder(listed.order.value, rule))
         && (forall e :: e in listed.exclusions <==> Excludes(rule, c, e))
  {
    hide Eligible, Exclusions, Applies, StateOf, DiagnosticOf, Selected, Excludes;
    var rule := Canonical(rules, digest)[i];
    AppliesExact(rule, c);
    forall e {
      ReasonsExact(rule, c, e);
    }
  }
}
