/** What a resolution depends on: the rules that apply, and nothing else. */
module RuleTheorems {
  import opened Base
  import opened Sorting
  import opened Rules

  // ----- Eligibility and preference, spelled out

  /** A scope field that is absent admits everything; one that is named admits only its own value. */
  predicate Admits(scope: Option<string>, context: Option<string>) {
    scope.None? || scope == context
  }

  /** A rule applies exactly when nothing about it excludes the context. */
  lemma EligibleExact(r: Rule, c: Context)
    ensures Eligible(r, c) <==>
      && r.scope.organization == c.organization && r.status in {SHADOW, PILOT, ACTIVE}
      && r.validFrom <= c.instant && (r.validTo.Some? ==> c.instant < r.validTo.value)
      && (if c.mode == ACTUAL then r.scope.scenario.None? else Admits(r.scope.scenario, c.scenario))
      && Admits(r.scope.productId, c.productId) && Admits(r.scope.productGroup, c.productGroup)
      && Admits(r.scope.account, c.account) && Admits(r.scope.marketplace, c.marketplace) &&
        Admits(r.scope.profile, Some(c.profile))
  {
    assert Eligible(r, c) <==> forall e :: e !in Exclusions(r, c);
    if !Eligible(r, c) {
      var e :| e in Exclusions(r, c);
      match e
      case OrganizationMismatch => case RuleNotApproved => case RuleOutsideValidity =>
      case ScenarioRuleExcluded => case ScenarioMismatch => case ProductMismatch =>
      case ProductGroupMismatch => case AccountMismatch => case MarketplaceMismatch => case ProfileMismatch =>
    } else {
      assert OrganizationMismatch !in Exclusions(r, c) && RuleNotApproved !in Exclusions(r, c) &&
        RuleOutsideValidity !in Exclusions(r, c);
      assert ScenarioRuleExcluded !in Exclusions(r, c) && ScenarioMismatch !in Exclusions(r, c) &&
        ProductMismatch !in Exclusions(r, c);
      assert ProductGroupMismatch !in Exclusions(r, c) && AccountMismatch !in Exclusions(r, c);
      assert MarketplaceMismatch !in Exclusions(r, c) && ProfileMismatch !in Exclusions(r, c);
    }
  }

  /** The fields a scope names, the most telling first. */
  function Names(r: Rule): seq<int> {
    [Named(r.scope.productId), Named(r.scope.productGroup), Named(r.scope.account), Named(r.scope.marketplace),
     Named(r.scope.profile), Named(r.scope.scenario)]
  }

  lemma {:induction false} LexConcat(a: seq<int>, b: seq<int>, x: seq<int>, y: seq<int>)
    requires |a| == |b|
    ensures LexLe(a + x, b + y) <==> (a != b && LexLe(a, b)) || (a == b && LexLe(x, y))
  {
    if a == [] {
      assert a + x == x && b + y == y;
    } else {
      LexConcat(a[1..], b[1..], x, y);
      assert (a + x)[1..] == a[1..] + x && (b + y)[1..] == b[1..] + y;
      assert a == [a[0]] + a[1..] && b == [b[0]] + b[1..];
    }
  }

  lemma LexThree(a: seq<int>, b: seq<int>)
    requires |a| == |b| == 3
    ensures LexLe(a, b) <==> a[0] < b[0] || (a[0] == b[0] && (a[1] < b[1] || (a[1] == b[1] && a[2] <= b[2])))
  {
    var p, q := a[1..], b[1..];
    var u, v := p[1..], q[1..];
    assert u[1..] == [] && v[1..] == [] && LexLe(u[1..], v[1..]);
    assert u != [] && v != [] && u[0] == a[2] && v[0] == b[2] && p[0] == a[1] && q[0] == b[1];
    assert LexLe(u, v) <==> u[0] < v[0] || (u[0] == v[0] && LexLe(u[1..], v[1..]));
    assert LexLe(p, q) <==> p[0] < q[0] || (p[0] == q[0] && LexLe(u, v));
  }

  /**
   One rule stands above another by the fields it names, then by priority, then by a later start, then by a later
   version.
   */
  lemma AboveExact(a: Rule, b: Rule)
    ensures Above(a, b) <==>
      if Names(a) != Names(b) then !LexLe(Names(a), Names(b))
      else if a.priority != b.priority then a.priority > b.priority
      else if a.validFrom != b.validFrom then a.validFrom > b.validFrom
      else a.version > b.version
  {
    var x, y := [a.priority, a.validFrom, a.version], [b.priority, b.validFrom, b.version];
    assert Order(a) == Names(a) + x && Order(b) == Names(b) + y;
    LexConcat(Names(a), Names(b), x, y);
    LexThree(x, y);
    hide LexLe, Order, Names;
  }

  // ----- Rules that apply, with how often they are given

  function Applying(s: seq<Rule>, c: Context): seq<Rule> {
    if s == [] then []
    else Applying(s[..|s| - 1], c) + if Eligible(s[|s| - 1], c) then [s[|s| - 1]] else []
  }

  lemma {:induction false} ApplyingCounts(s: seq<Rule>, c: Context, r: Rule)
    ensures multiset(Applying(s, c))[r] == if Eligible(r, c) then multiset(s)[r] else 0
  {
    hide Eligible;
    if s != [] {
      ApplyingCounts(s[..|s| - 1], c, r);
      assert s == s[..|s| - 1] + [s[|s| - 1]];
    }
  }

  lemma SameRulesSameApplying(a: seq<Rule>, b: seq<Rule>, c: Context)
    requires multiset(a) == multiset(b)
    ensures multiset(Applying(a, c)) == multiset(Applying(b, c))
  {
    hide Eligible, Applying;
    forall r
      ensures multiset(Applying(a, c))[r] == multiset(Applying(b, c))[r]
    {
      ApplyingCounts(a, c, r);
      ApplyingCounts(b, c, r);
    }
  }

  /** A rule given at one place is counted; a rule given at two places is counted twice. */
  lemma {:induction false} CountAtPlaces(s: seq<Rule>, i: nat, j: nat)
    requires i < j < |s| && s[i] == s[j]
    ensures multiset(s)[s[i]] >= 2
  {
    assert s == s[..j] + [s[j]] + s[j + 1..];
    assert s[..j][i] == s[i] && s[i] in multiset(s[..j]);
  }

  lemma PlacesOfCount(s: seq<Rule>, r: Rule) returns (i: nat, j: nat)
    requires multiset(s)[r] >= 2
    ensures i < j < |s| && s[i] == s[j] == r
  {
    var k :| 0 <= k < |s| && s[k] == r;
    var rest := s[..k] + s[k + 1..];
    assert s == s[..k] + [s[k]] + s[k + 1..];
    assert multiset(rest)[r] >= 1;
    var m :| 0 <= m < |rest| && rest[m] == r;
    var n := if m < k then m else m + 1;
    assert s[n] == r && n != k;
    if k < n { i, j := k, n; } else { i, j := n, k; }
  }

  predicate ShareGroup(a: Rule, b: Rule) {
    a.group.Some? && a.group == b.group
  }

  ghost predicate Clash(m: multiset<Rule>) {
    exists a, b :: a in m && b in m && ShareGroup(a, b) && (a != b || m[a] >= 2)
  }

  ghost predicate Champion(m: multiset<Rule>, r: Rule) {
    m[r] == 1 && forall other | other in m && other != r :: Above(r, other)
  }

  lemma InApplying(s: seq<Rule>, c: Context, r: Rule)
    ensures r in multiset(Applying(s, c)) <==> Eligible(r, c) && exists i :: 0 <= i < |s| && s[i] == r
  {
    hide Eligible;
    ApplyingCounts(s, c, r);
    assert r in multiset(s) <==> exists i :: 0 <= i < |s| && s[i] == r;
  }

  lemma OverlapIsClash(s: seq<Rule>, c: Context)
    ensures Overlap(s, c) <==> Clash(multiset(Applying(s, c)))
  {
    hide Eligible, Applying;
    var m := multiset(Applying(s, c));
    if Overlap(s, c) {
      var i, j :| 0 <= i < j < |s| && Eligible(s[i], c) && Eligible(s[j], c) && s[i].group.Some? &&
        s[i].group == s[j].group;
      InApplying(s, c, s[i]);
      InApplying(s, c, s[j]);
      if s[i] == s[j] {
        CountAtPlaces(s, i, j);
        ApplyingCounts(s, c, s[i]);
      }
      assert ShareGroup(s[i], s[j]);
    }
    if Clash(m) {
      var a, b :| a in m && b in m && ShareGroup(a, b) && (a != b || m[a] >= 2);
      ClashOverlaps(s, c, a, b);
    }
  }

  lemma ClashOverlaps(s: seq<Rule>, c: Context, a: Rule, b: Rule)
    requires a in multiset(Applying(s, c)) && b in multiset(Applying(s, c)) && ShareGroup(a, b)
    requires a != b || multiset(Applying(s, c))[a] >= 2
    ensures Overlap(s, c)
  {
    hide Eligible, Applying;
    InApplying(s, c, a);
    InApplying(s, c, b);
    if a == b {
      ApplyingCounts(s, c, a);
      var i, j := PlacesOfCount(s, a);
    } else {
      var i :| 0 <= i < |s| && s[i] == a;
      var j :| 0 <= j < |s| && s[j] == b;
      assert i < j || j < i;
    }
  }

  lemma NotAboveItself(r: Rule)
    ensures !Above(r, r)
  {
    LexTotal(Order(r), Order(r));
  }

  lemma WinsIsChampion(s: seq<Rule>, c: Context, i: nat)
    requires i < |s|
    ensures Wins(s, c, i) <==> Champion(multiset(Applying(s, c)), s[i])
  {
    hide Eligible, Applying, Above;
    var r, m := s[i], multiset(Applying(s, c));
    InApplying(s, c, r);
    ApplyingCounts(s, c, r);
    NotAboveItself(r);
    if Wins(s, c, i) {
      if m[r] >= 2 {
        var a, b := PlacesOfCount(s, r);
      }
      forall other | other in m && other != r
        ensures Above(r, other)
      {
        InApplying(s, c, other);
      }
    }
    if Champion(m, r) {
      forall j | 0 <= j < |s| && j != i && Eligible(s[j], c)
        ensures Above(s[i], s[j])
      {
        InApplying(s, c, s[j]);
        if s[j] == r {
          CountAtPlaces(s, if i < j then i else j, if i < j then j else i);
        }
      }
    }
  }

  lemma SomeApplies(s: seq<Rule>, c: Context)
    ensures SomeEligible(s, c) <==> multiset(Applying(s, c)) != multiset{}
  {
    hide Eligible, Applying;
    var m := multiset(Applying(s, c));
    if SomeEligible(s, c) {
      var i :| 0 <= i < |s| && Eligible(s[i], c);
      InApplying(s, c, s[i]);
    }
    if m != multiset{} {
      var r :| r in m;
      InApplying(s, c, r);
    }
  }

  // ----- State and selection

  /** The rule a list of rules selects, if any. */
  ghost predicate Picks(s: seq<Rule>, c: Context, r: Rule) {
    exists i :: 0 <= i < |s| && Selected(s, c, i) && s[i] == r
  }

  lemma PicksChampion(s: seq<Rule>, c: Context, r: Rule)
    ensures Picks(s, c, r) <==> !Clash(multiset(Applying(s, c))) && Champion(multiset(Applying(s, c)), r)
  {
    hide Eligible, Applying, Above, Overlap, Clash, Wins, Champion;
    OverlapIsClash(s, c);
    if Picks(s, c, r) {
      var i :| 0 <= i < |s| && Selected(s, c, i) && s[i] == r;
      WinsIsChampion(s, c, i);
    }
    if Champion(multiset(Applying(s, c)), r) {
      ChampionIsIn(multiset(Applying(s, c)), r);
      InApplying(s, c, r);
      var i :| 0 <= i < |s| && s[i] == r;
      WinsIsChampion(s, c, i);
      assert !Overlap(s, c) ==> Selected(s, c, i);
    }
  }

  lemma ChampionIsIn(m: multiset<Rule>, r: Rule)
    requires Champion(m, r)
    ensures r in m
  {
  }

  lemma WinnerExists(s: seq<Rule>, c: Context)
    ensures (exists i :: Wins(s, c, i)) <==> (exists r :: Champion(multiset(Applying(s, c)), r))
  {
    hide Eligible, Applying, Above, Champion;
    if exists i :: Wins(s, c, i) {
      var i :| Wins(s, c, i);
      WinsIsChampion(s, c, i);
    }
    if exists r :: Champion(multiset(Applying(s, c)), r) {
      var r :| Champion(multiset(Applying(s, c)), r);
      ChampionIsIn(multiset(Applying(s, c)), r);
      InApplying(s, c, r);
      var i :| 0 <= i < |s| && s[i] == r;
      WinsIsChampion(s, c, i);
    }
  }

  /** State and selection are decided by the rules that apply, however they are ordered. */
  lemma ApplyingDecides(a: seq<Rule>, b: seq<Rule>, c: Context)
    requires multiset(Applying(a, c)) == multiset(Applying(b, c))
    ensures StateOf(a, c) == StateOf(b, c)
    ensures forall r :: Picks(a, c, r) <==> Picks(b, c, r)
  {
    hide Eligible, Applying, Above, Overlap, Clash, Wins, Champion, Picks, SomeEligible;
    OverlapIsClash(a, c);
    OverlapIsClash(b, c);
    SomeApplies(a, c);
    SomeApplies(b, c);
    WinnerExists(a, c);
    WinnerExists(b, c);
    forall r
      ensures Picks(a, c, r) <==> Picks(b, c, r)
    {
      PicksChampion(a, c, r);
      PicksChampion(b, c, r);
    }
  }

  // ----- Resolutions

  /** The rules a resolution marks as selected. */
  ghost predicate Marks(r: Resolution, ref: Ref) {
    exists i :: 0 <= i < |r.payload.candidates| && r.payload.candidates[i].selected &&
      r.payload.candidates[i].ref == ref
  }

  lemma MarksWhatIsPicked(rules: seq<Rule>, c: Context, digest: Digest, r: Rule)
    requires Injective(digest)
    ensures Marks(Resolved(rules, c, digest), RefOf(r, digest)) <==> Picks(Canonical(rules, digest), c, r)
  {
    hide Eligible, Order, Selected, Canonical;
    var s := Canonical(rules, digest);
    var resolution := Resolved(rules, c, digest);
    var ref := RefOf(r, digest);
    if Marks(resolution, ref) {
      var i :| 0 <= i < |s| && resolution.payload.candidates[i].selected && resolution.payload.candidates[i].ref == ref;
      assert digest(s[i]) == digest(r);
    }
    if Picks(s, c, r) {
      var i :| 0 <= i < |s| && Selected(s, c, i) && s[i] == r;
      assert resolution.payload.candidates[i].selected;
    }
  }

  lemma CanonicalSameRules(rules: seq<Rule>, c: Context, digest: Digest)
    ensures multiset(Canonical(rules, digest)) == multiset(rules)
    ensures multiset(Applying(Canonical(rules, digest), c)) == multiset(Applying(rules, c))
  {
    hide Eligible, Applying;
    SameRulesSameApplying(Canonical(rules, digest), rules, c);
  }

  /** The whole resolution, trace included, is the same for every order of the rules. */
  lemma PermutationDoesNotMatter(a: seq<Rule>, b: seq<Rule>, c: Context, digest: Digest)
    requires Injective(digest) && multiset(a) == multiset(b)
    ensures Resolved(a, c, digest) == Resolved(b, c, digest)
  {
    BeforeIsAnOrder(digest);
    SortForgetsOrder(a, b, Before(digest));
    hide Total, Transitive, Antisymmetric, PayloadOf;
  }

  /**
   VALID exactly when no exclusivity group has two rules that apply and one rule that applies is
   strictly greatest; that rule, and no other, is then selected.
   */
  lemma ResolutionExact(rules: seq<Rule>, c: Context, digest: Digest)
    requires Injective(digest)
    ensures
      var r := Resolved(rules, c, digest);
      && (r.payload.state == VALID <==> !Overlap(rules, c) && exists i :: Wins(rules, c, i))
      && (r.payload.state == Outcome.BLOCKED <==> !SomeEligible(rules, c))
      && forall rule :: Marks(r, RefOf(rule, digest)) <==> Picks(rules, c, rule)
  {
    hide Eligible, Applying, Above, Overlap, Wins, Picks, Marks, Canonical, SomeEligible, RefOf;
    var s := Canonical(rules, digest);
    CanonicalSameRules(rules, c, digest);
    ApplyingDecides(s, rules, c);
    forall rule
      ensures Marks(Resolved(rules, c, digest), RefOf(rule, digest)) <==> Picks(rules, c, rule)
    {
      MarksWhatIsPicked(rules, c, digest, rule);
    }
    BlockedExact(rules, c);
  }

  lemma BlockedExact(rules: seq<Rule>, c: Context)
    ensures StateOf(rules, c) == Outcome.BLOCKED <==> !SomeEligible(rules, c)
    ensures StateOf(rules, c) == VALID <==> !Overlap(rules, c) && exists i :: Wins(rules, c, i)
  {
    hide Eligible;
    if exists i :: Wins(rules, c, i) {
      assert SomeEligible(rules, c);
    }
  }

  /** Adding or dropping rules that do not apply changes neither the state nor the selection. */
  lemma IneligibleRulesDoNotMatter(a: seq<Rule>, b: seq<Rule>, c: Context, digest: Digest)
    requires Injective(digest)
    requires forall r | Eligible(r, c) :: multiset(a)[r] == multiset(b)[r]
    ensures Resolved(a, c, digest).payload.state == Resolved(b, c, digest).payload.state
    ensures forall r :: Marks(Resolved(a, c, digest), RefOf(r, digest)) <==>
      Marks(Resolved(b, c, digest), RefOf(r, digest))
  {
    hide Eligible, Applying, Picks, Marks, Overlap, SomeEligible, Wins, Canonical, RefOf;
    forall r
      ensures multiset(Applying(a, c))[r] == multiset(Applying(b, c))[r]
    {
      ApplyingCounts(a, c, r);
      ApplyingCounts(b, c, r);
    }
    assert multiset(Applying(a, c)) == multiset(Applying(b, c));
    CanonicalSameRules(a, c, digest);
    CanonicalSameRules(b, c, digest);
    ApplyingDecides(Canonical(a, digest), Canonical(b, digest), c);
    forall r
      ensures Marks(Resolved(a, c, digest), RefOf(r, digest)) <==> Marks(Resolved(b, c, digest), RefOf(r, digest))
    {
      MarksWhatIsPicked(a, c, digest, r);
      MarksWhatIsPicked(b, c, digest, r);
    }
  }

  /** In particular, one rule that does not apply may be dropped. */
  lemma DropIneligible(rules: seq<Rule>, i: nat, c: Context, digest: Digest)
    requires Injective(digest) && i < |rules| && !Eligible(rules[i], c)
    ensures
      var rest := rules[..i] + rules[i + 1..];
      && Resolved(rest, c, digest).payload.state == Resolved(rules, c, digest).payload.state
      && forall r :: Marks(Resolved(rest, c, digest), RefOf(r, digest)) <==>
        Marks(Resolved(rules, c, digest), RefOf(r, digest))
  {
    hide Eligible, Resolved, Marks;
    var rest := rules[..i] + rules[i + 1..];
    assert rules == rules[..i] + [rules[i]] + rules[i + 1..];
    assert forall r | Eligible(r, c) :: multiset(rest)[r] == multiset(rules)[r];
    IneligibleRulesDoNotMatter(rest, rules, c, digest);
  }
}
