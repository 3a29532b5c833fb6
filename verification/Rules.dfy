/** Which rule applies: eligibility, exclusivity groups and the most specific rule. */
module Rules {
  import opened Base
  import opened Values
  import opened Sorting
  import Expression

  datatype Mode = ACTUAL | SCENARIO

  datatype Context = Context(
    organization: string, mode: Mode, scenario: Option<string>, instant: int,
    productId: Option<string>, productGroup: Option<string>, account: Option<string>, marketplace: Option<string>,
    profile: string, resolvedAt: string, actor: string)

  datatype Scope = Scope(
    organization: string,
    productId: Option<string>, productGroup: Option<string>, account: Option<string>, marketplace: Option<string>,
    profile: Option<string>, scenario: Option<string>)

  datatype Status = DRAFT | SHADOW | PILOT | ACTIVE | SUSPENDED | RETIRED

  datatype Method =
    | FixedValue(value: Values.Literal)
    | Rate(rate: Values.Literal)
    | SafeExpression(expression: Expression.Node)

  datatype Rule = Rule(
    id: string, version: nat, scope: Scope, status: Status, validFrom: int, validTo: Option<int>,
    priority: int, group: Option<string>, body: Method, unit: string, currency: Option<string>,
      dependencies: seq<string>)

  /** `content_hash`: a digest of everything a rule says. */
  type Digest = Rule -> string

  ghost predicate Injective(digest: Digest) {
    forall a, b | digest(a) == digest(b) :: a == b
  }

  // ----- Eligibility

  datatype Exclusion =
    | OrganizationMismatch | RuleNotApproved | RuleOutsideValidity | ScenarioRuleExcluded | ScenarioMismatch
    | ProductMismatch | ProductGroupMismatch | AccountMismatch | MarketplaceMismatch | ProfileMismatch

  predicate Approved(status: Status) {
    status == SHADOW || status == PILOT || status == ACTIVE
  }

  /** The scope names a value and the context does not have that one. */
  predicate Misses(scope: Option<string>, context: Option<string>) {
    scope.Some? && scope != context
  }

  function When(condition: bool, e: Exclusion): set<Exclusion> {
    if condition then {e} else {}
  }

  /** Every reason why a rule does not apply. */
  function Exclusions(r: Rule, c: Context): set<Exclusion> {
    When(r.scope.organization != c.organization, OrganizationMismatch)
    + When(!Approved(r.status), RuleNotApproved)
    + When(c.instant < r.validFrom || (r.validTo.Some? && c.instant >= r.validTo.value), RuleOutsideValidity)
    + When(c.mode == ACTUAL && r.scope.scenario.Some?, ScenarioRuleExcluded)
    + When(c.mode == SCENARIO && Misses(r.scope.scenario, c.scenario), ScenarioMismatch)
    + When(Misses(r.scope.productId, c.productId), ProductMismatch)
    + When(Misses(r.scope.productGroup, c.productGroup), ProductGroupMismatch)
    + When(Misses(r.scope.account, c.account), AccountMismatch)
    + When(Misses(r.scope.marketplace, c.marketplace), MarketplaceMismatch)
    + When(Misses(r.scope.profile, Some(c.profile)), ProfileMismatch)
  }

  predicate Eligible(r: Rule, c: Context) {
    Exclusions(r, c) == {}
  }

  // ----- The order of preference

  function Named(field: Option<string>): int {
    if field.Some? then 1 else 0
  }

  /** Specificity first, then priority, then the later start, then the later version. */
  function Order(r: Rule): seq<int> {
    [Named(r.scope.productId), Named(r.scope.productGroup), Named(r.scope.account), Named(r.scope.marketplace),
     Named(r.scope.profile), Named(r.scope.scenario), r.priority, r.validFrom, r.version]
  }

  predicate Above(a: Rule, b: Rule) {
    !LexLe(Order(a), Order(b))
  }

  // ----- The canonical order of the rules

  predicate RuleLe(a: Rule, b: Rule, digest: Digest) {
    if a.id != b.id then TextLe(a.id, b.id)
    else if a.version != b.version then a.version <= b.version
    else TextLe(digest(a), digest(b))
  }

  function Before(digest: Digest): (Rule, Rule) -> bool {
    (a, b) => RuleLe(a, b, digest)
  }

  lemma BeforeIsAnOrder(digest: Digest)
    requires Injective(digest)
    ensures Total(Before(digest)) && Transitive(Before(digest)) && Antisymmetric(Before(digest))
  {
    var le := Before(digest);
    forall a, b
      ensures le(a, b) || le(b, a)
      ensures le(a, b) && le(b, a) ==> a == b
    {
      RuleTotal(a, b, digest);
    }
    forall a, b, c
      ensures le(a, b) && le(b, c) ==> le(a, c)
    {
      if le(a, b) && le(b, c) {
        RuleTransitive(a, b, c, digest);
      }
    }
  }

  lemma RuleTotal(a: Rule, b: Rule, digest: Digest)
    requires Injective(digest)
    ensures RuleLe(a, b, digest) || RuleLe(b, a, digest)
    ensures RuleLe(a, b, digest) && RuleLe(b, a, digest) ==> a == b
  {
    hide TextLe;
    TextTotal(a.id, b.id);
    TextTotal(digest(a), digest(b));
    if TextLe(a.id, b.id) && TextLe(b.id, a.id) {
      TextAntisymmetric(a.id, b.id);
    }
    if TextLe(digest(a), digest(b)) && TextLe(digest(b), digest(a)) {
      TextAntisymmetric(digest(a), digest(b));
    }
  }

  lemma RuleTransitive(a: Rule, b: Rule, c: Rule, digest: Digest)
    requires RuleLe(a, b, digest) && RuleLe(b, c, digest)
    ensures RuleLe(a, c, digest)
  {
    hide TextLe;
    if a.id != b.id && b.id != c.id {
      TextTransitive(a.id, b.id, c.id);
      if a.id == c.id {
        TextAntisymmetric(a.id, b.id);
      }
    } else if a.id == b.id == c.id && a.version == b.version == c.version {
      TextTransitive(digest(a), digest(b), digest(c));
    }
  }

  function Canonical(rules: seq<Rule>, digest: Digest): seq<Rule> {
    Sort(rules, Before(digest))
  }

  // ----- Resolution

  datatype Ref = Ref(id: string, version: nat, hash: string)

  datatype Candidate = Candidate(ref: Ref, eligible: bool, selected: bool, exclusions: set<Exclusion>,
                                 order: Option<seq<int>>)

  datatype Outcome = VALID | CONFLICT | BLOCKED | UNAVAILABLE

  datatype Diagnostic = RuleExclusivityOverlap | RuleNotApprovedOnly | RuleRequiredMissing | RuleResolutionTie

  datatype Payload = Payload(context: Context, state: Outcome, diagnostic: Option<Diagnostic>,
                             candidates: seq<Candidate>)

  /** `trace_id`: a digest of the payload, or any other text a caller may present. */
  datatype Trace = TraceOf(payload: Payload) | OtherText(text: string)

  datatype Resolution = Resolution(payload: Payload, trace: Trace)

  function RefOf(r: Rule, digest: Digest): Ref {
    Ref(r.id, r.version, digest(r))
  }

  function CandidateOf(r: Rule, c: Context, digest: Digest, selected: bool): Candidate {
    Candidate(RefOf(r, digest), Eligible(r, c), selected, Exclusions(r, c),
              if Eligible(r, c) then Some(Order(r)) else None)
  }

  /** Two rules that apply share an exclusivity group. */
  ghost predicate Overlap(s: seq<Rule>, c: Context) {
    exists i, j :: 0 <= i < j < |s| && Eligible(s[i], c) && Eligible(s[j], c) && s[i].group.Some? &&
      s[i].group == s[j].group
  }

  ghost predicate SomeEligible(s: seq<Rule>, c: Context) {
    exists i :: 0 <= i < |s| && Eligible(s[i], c)
  }

  /** The rule at `i` applies and stands strictly above every other rule that applies. */
  ghost predicate Wins(s: seq<Rule>, c: Context, i: int) {
    && 0 <= i < |s| && Eligible(s[i], c)
    && forall j | 0 <= j < |s| && j != i && Eligible(s[j], c) :: Above(s[i], s[j])
  }

  ghost predicate OnlyUnapproved(s: seq<Rule>, c: Context) {
    exists i :: 0 <= i < |s| && Exclusions(s[i], c) == {RuleNotApproved}
  }

  ghost function StateOf(s: seq<Rule>, c: Context): Outcome {
    if Overlap(s, c) then Outcome.CONFLICT
    else if !SomeEligible(s, c) then Outcome.BLOCKED
    else if exists i :: Wins(s, c, i) then VALID
    else Outcome.CONFLICT
  }

  ghost function DiagnosticOf(s: seq<Rule>, c: Context): Option<Diagnostic> {
    if Overlap(s, c) then Some(RuleExclusivityOverlap)
    else if !SomeEligible(s, c) then Some(if OnlyUnapproved(s, c) then RuleNotApprovedOnly else RuleRequiredMissing)
    else if exists i :: Wins(s, c, i) then None
    else Some(RuleResolutionTie)
  }

  ghost predicate Selected(s: seq<Rule>, c: Context, i: int) {
    !Overlap(s, c) && Wins(s, c, i)
  }

  ghost function PayloadOf(s: seq<Rule>, c: Context, digest: Digest): Payload {
    Payload(c, StateOf(s, c), DiagnosticOf(s, c),
            seq(|s|, i requires 0 <= i < |s| => CandidateOf(s[i], c, digest, Selected(s, c, i))))
  }

  /** What `resolve_rule` must return. */
  ghost function Resolved(rules: seq<Rule>, c: Context, digest: Digest): Resolution {
    var payload := PayloadOf(Canonical(rules, digest), c, digest);
    Resolution(payload, TraceOf(payload))
  }

  // ----- The program

  /** A rule that applies: its place among the rules, and its order. */
  datatype Row = Row(order: seq<int>, index: nat)

  function RowGe(a: Row, b: Row): bool {
    LexLe(b.order, a.order)
  }

  predicate Increasing(rows: seq<Row>) {
    forall i, j | 0 <= i < j < |rows| :: rows[i].index < rows[j].index
  }

  function Rows(s: seq<Rule>, c: Context, n: nat): (r: seq<Row>)
    requires n <= |s|
    ensures forall row | row in r :: row.index < n && Eligible(s[row.index], c) && row.order == Order(s[row.index])
    ensures forall i | 0 <= i < n && Eligible(s[i], c) :: Row(Order(s[i]), i) in r
    ensures Increasing(r)
  {
    if n == 0 then []
    else if Eligible(s[n - 1], c) then Rows(s, c, n - 1) + [Row(Order(s[n - 1]), n - 1)]
    else Rows(s, c, n - 1)
  }

  /** First pass: a candidate for every rule, a row for every rule that applies. */
  method Screen(s: seq<Rule>, c: Context, digest: Digest) returns (candidates: seq<Candidate>, rows: seq<Row>)
    ensures |candidates| == |s| && forall i | 0 <= i < |s| :: candidates[i] == CandidateOf(s[i], c, digest, false)
    ensures rows == Rows(s, c, |s|)
  {
    candidates, rows := [], [];
    for index := 0 to |s|
      invariant |candidates| == index
      invariant forall i | 0 <= i < index :: candidates[i] == CandidateOf(s[i], c, digest, false)
      invariant rows == Rows(s, c, index)
    {
      candidates := candidates + [CandidateOf(s[index], c, digest, false)];
      if Eligible(s[index], c) {
        rows := rows + [Row(Order(s[index]), index)];
      }
    }
  }

  function GroupsOf(s: seq<Rule>, rows: seq<Row>): seq<Option<string>>
    requires forall row | row in rows :: row.index < |s|
  {
    seq(|rows|, i requires 0 <= i < |rows| => assert rows[i] in rows; s[rows[i].index].group)
  }

  function Occurrences(names: seq<Option<string>>, name: string): nat {
    if names == [] then 0
    else Occurrences(names[..|names| - 1], name) + if names[|names| - 1] == Some(name) then 1 else 0
  }

  ghost predicate Counted(groups: map<string, nat>, names: seq<Option<string>>) {
    forall g :: if g in groups then groups[g] == Occurrences(names, g) > 0 else Occurrences(names, g) == 0
  }

  lemma CountOne(groups: map<string, nat>, names: seq<Option<string>>, name: Option<string>)
    requires Counted(groups, names)
    ensures name.None? ==> Counted(groups, names + [name])
    ensures name.Some? ==> Counted(groups[name.value := (if name.value in groups then groups[name.value] else 0) + 1],
                                   names + [name])
  {
    assert (names + [name])[..|names|] == names;
  }

  ghost predicate Repeated(names: seq<Option<string>>) {
    exists i, j :: 0 <= i < j < |names| && names[i].Some? && names[i] == names[j]
  }

  lemma {:induction false} OccursTwice(names: seq<Option<string>>, i: nat, j: nat, name: string)
    requires i < j < |names| && names[i] == names[j] == Some(name)
    ensures Occurrences(names, name) >= 2
  {
    var init := names[..|names| - 1];
    if j < |names| - 1 {
      OccursTwice(init, i, j, name);
    } else {
      OccursOnce(init, i, name);
    }
  }

  lemma {:induction false} OccursOnce(names: seq<Option<string>>, i: nat, name: string)
    requires i < |names| && names[i] == Some(name)
    ensures Occurrences(names, name) >= 1
  {
    if i < |names| - 1 {
      OccursOnce(names[..|names| - 1], i, name);
    }
  }

  lemma {:induction false} WhereOnce(names: seq<Option<string>>, name: string) returns (i: nat)
    requires Occurrences(names, name) >= 1
    ensures i < |names| && names[i] == Some(name)
  {
    var last := |names| - 1;
    if names[last] == Some(name) {
      i := last;
    } else {
      i := WhereOnce(names[..last], name);
    }
  }

  lemma {:induction false} WhereTwice(names: seq<Option<string>>, name: string)
    requires Occurrences(names, name) >= 2
    ensures Repeated(names)
  {
    var last := |names| - 1;
    if names[last] == Some(name) {
      var i := WhereOnce(names[..last], name);
      assert names[i] == names[last];
    } else {
      WhereTwice(names[..last], name);
      var i, j :| 0 <= i < j < last && names[..last][i].Some? && names[..last][i] == names[..last][j];
      assert names[i] == names[j];
    }
  }

  /** Second pass: does a group hold more than one rule that applies? */
  method CountGroups(names: seq<Option<string>>) returns (overlap: bool)
    ensures overlap <==> Repeated(names)
  {
    var groups: map<string, nat> := map[];
    for n := 0 to |names|
      invariant Counted(groups, names[..n])
    {
      assert names[..n + 1] == names[..n] + [names[n]];
      CountOne(groups, names[..n], names[n]);
      if names[n].Some? {
        groups := groups[names[n].value := (if names[n].value in groups then groups[names[n].value] else 0) + 1];
      }
    }
    assert names[..|names|] == names;
    overlap := exists g | g in groups :: groups[g] > 1;
    TallyTells(groups, names);
  }

  lemma TallyTells(groups: map<string, nat>, names: seq<Option<string>>)
    requires Counted(groups, names)
    ensures (exists g | g in groups :: groups[g] > 1) <==> Repeated(names)
  {
    if g :| g in groups && groups[g] > 1 {
      WhereTwice(names, g);
    }
    if Repeated(names) {
      var i, j :| 0 <= i < j < |names| && names[i].Some? && names[i] == names[j];
      OccursTwice(names, i, j, names[i].value);
      assert names[i].value in groups;
    }
  }

  // ----- The highest row

  ghost predicate Highest(rows: seq<Row>, row: Row) {
    row in rows && forall other | other in rows :: LexLe(other.order, row.order)
  }

  /** `sort(reverse=True)` and then the first element. */
  method FirstSorted(rows: seq<Row>) returns (row: Row)
    requires rows != []
    ensures Highest(rows, row)
  {
    var sorted := Sort(rows, RowGe);
    RowGeIsTotal();
    SortSorted(rows, RowGe);
    SortMembers(rows, RowGe);
    row := sorted[0];
    assert row in sorted;
    forall other | other in rows
      ensures LexLe(other.order, row.order)
    {
      var i :| 0 <= i < |sorted| && sorted[i] == other;
      LexTotal(row.order, row.order);
      assert i > 0 ==> RowGe(sorted[0], sorted[i]);
    }
  }

  lemma RowGeIsTotal()
    ensures Total(RowGe) && Transitive(RowGe)
  {
    forall a, b
      ensures RowGe(a, b) || RowGe(b, a)
    {
      LexTotal(a.order, b.order);
    }
    forall a, b, c
      ensures RowGe(a, b) && RowGe(b, c) ==> RowGe(a, c)
    {
      if RowGe(a, b) && RowGe(b, c) {
        LexTransitive(c.order, b.order, a.order);
      }
    }
  }

  /** The indices of the rows whose order equals the best one. */
  function Best(rows: seq<Row>, order: seq<int>): seq<nat> {
    if rows == [] then []
    else
      var sofar := Best(rows[..|rows| - 1], order);
      if rows[|rows| - 1].order == order then sofar + [rows[|rows| - 1].index] else sofar
  }

  lemma {:induction false} BestMembers(rows: seq<Row>, order: seq<int>)
    ensures forall i :: i in Best(rows, order) <==> Row(order, i) in rows
  {
    if rows != [] {
      BestMembers(rows[..|rows| - 1], order);
      assert rows == rows[..|rows| - 1] + [rows[|rows| - 1]];
    }
  }

  lemma {:induction false} BestIncreases(rows: seq<Row>, order: seq<int>)
    requires Increasing(rows)
    ensures forall i, j | 0 <= i < j < |Best(rows, order)| :: Best(rows, order)[i] < Best(rows, order)[j]
  {
    if rows != [] {
      var init, last := rows[..|rows| - 1], rows[|rows| - 1];
      BestIncreases(init, order);
      BestMembers(init, order);
      assert forall k | 0 <= k < |Best(init, order)| :: Best(init, order)[k] in Best(init, order);
      assert forall row | row in init :: row.index < last.index;
    }
  }

  /** One best row is the winner; several mean that there is none. */
  lemma BestDecides(s: seq<Rule>, c: Context, top: Row)
    requires Highest(Rows(s, c, |s|), top)
    ensures
      var best := Best(Rows(s, c, |s|), top.order);
      if |best| == 1 then Wins(s, c, best[0]) else !exists i :: Wins(s, c, i)
  {
    hide Eligible, LexLe, Order;
    var rows := Rows(s, c, |s|);
    var best := Best(rows, top.order);
    BestMembers(rows, top.order);
    BestIncreases(rows, top.order);
    hide Best;
    assert top == Row(top.order, top.index) && top.index in best;
    if |best| == 1 {
      forall j | 0 <= j < |s| && j != best[0] && Eligible(s[j], c)
        ensures Above(s[best[0]], s[j])
      {
        OnlyBest(s, c, top, j);
      }
    } else if exists i :: Wins(s, c, i) {
      var i :| Wins(s, c, i);
      var other := if best[0] == i then best[1] else best[0];
      assert other in best && Row(top.order, other) in rows;
      assert Row(Order(s[i]), i) in rows;
      assert !Above(s[i], s[other]);
    }
  }

  lemma OnlyBest(s: seq<Rule>, c: Context, top: Row, j: nat)
    requires Highest(Rows(s, c, |s|), top) && j < |s| && Eligible(s[j], c)
    requires j !in Best(Rows(s, c, |s|), top.order)
    ensures !LexLe(top.order, Order(s[j]))
  {
    hide Eligible, LexLe, Order;
    BestMembers(Rows(s, c, |s|), top.order);
    assert Row(Order(s[j]), j) in Rows(s, c, |s|);
    if LexLe(top.order, Order(s[j])) {
      LexAntisymmetric(top.order, Order(s[j]));
    }
  }

  lemma RepeatedOverlaps(s: seq<Rule>, c: Context)
    requires Repeated(GroupsOf(s, Rows(s, c, |s|)))
    ensures Overlap(s, c)
  {
    hide Eligible, Order, Rows;
    var rows := Rows(s, c, |s|);
    var names := GroupsOf(s, rows);
    var a, b :| 0 <= a < b < |names| && names[a].Some? && names[a] == names[b];
    assert rows[a] in rows && rows[b] in rows;
    assert rows[a].index < rows[b].index;
  }

  lemma OverlapRepeats(s: seq<Rule>, c: Context)
    requires Overlap(s, c)
    ensures Repeated(GroupsOf(s, Rows(s, c, |s|)))
  {
    hide Eligible, Order, Rows;
    var rows := Rows(s, c, |s|);
    var i, j :| 0 <= i < j < |s| && Eligible(s[i], c) && Eligible(s[j], c) && s[i].group.Some? &&
      s[i].group == s[j].group;
    var a :| 0 <= a < |rows| && rows[a] == Row(Order(s[i]), i);
    var b :| 0 <= b < |rows| && rows[b] == Row(Order(s[j]), j);
    var names := GroupsOf(s, rows);
    assert names[a] == s[i].group && names[b] == s[j].group;
    assert a < b;
  }

  method AnyOnlyUnapproved(candidates: seq<Candidate>) returns (found: bool)
    ensures found <==> exists i :: 0 <= i < |candidates| && candidates[i].exclusions == {RuleNotApproved}
  {
    found := false;
    for i := 0 to |candidates|
      invariant found <==> exists j :: 0 <= j < i && candidates[j].exclusions == {RuleNotApproved}
    {
      if candidates[i].exclusions == {RuleNotApproved} {
        found := true;
      }
    }
  }

  /** The decision, from the rows: its state, its diagnostic and the selected place. */
  method Decide(s: seq<Rule>, c: Context, candidates: seq<Candidate>, rows: seq<Row>)
    returns (state: Outcome, diagnostic: Option<Diagnostic>, chosen: Option<nat>)
    requires |candidates| == |s| && forall i | 0 <= i < |s| :: candidates[i].exclusions == Exclusions(s[i], c)
    requires rows == Rows(s, c, |s|)
    ensures state == StateOf(s, c) && diagnostic == DiagnosticOf(s, c)
    ensures chosen.Some? ==> chosen.value < |s| && Selected(s, c, chosen.value)
    ensures chosen.None? ==> forall i :: !Selected(s, c, i)
  {
    hide Eligible, Order, Rows, Exclusions, LexLe, Above, Repeated, Overlap;
    var overlap := CountGroups(GroupsOf(s, rows));
    if overlap {
      RepeatedOverlaps(s, c);
      return Outcome.CONFLICT, Some(RuleExclusivityOverlap), None;
    }
    NoOverlap(s, c);
    if rows == [] {
      NothingEligible(s, c);
      var statusOnly := AnyOnlyUnapproved(candidates);
      return Outcome.BLOCKED, Some(if statusOnly then RuleNotApprovedOnly else RuleRequiredMissing), None;
    }
    assert rows[0] in rows;
    var top := FirstSorted(rows);
    var best := Best(rows, top.order);
    BestDecides(s, c, top);
    if |best| != 1 {
      return Outcome.CONFLICT, Some(RuleResolutionTie), None;
    }
    return VALID, None, Some(best[0]);
  }

  lemma NoOverlap(s: seq<Rule>, c: Context)
    requires !Repeated(GroupsOf(s, Rows(s, c, |s|)))
    ensures !Overlap(s, c)
  {
    hide Repeated, Overlap, Rows;
    if Overlap(s, c) {
      OverlapRepeats(s, c);
    }
  }

  lemma NothingEligible(s: seq<Rule>, c: Context)
    requires Rows(s, c, |s|) == []
    ensures !SomeEligible(s, c) && forall i :: !Wins(s, c, i)
  {
    hide Eligible, Order, Rows;
  }

  /** `resolve_rule`. */
  method ResolveRule(rules: seq<Rule>, c: Context, digest: Digest) returns (r: Resolution)
    ensures r == Resolved(rules, c, digest)
  {
    var s := Canonical(rules, digest);
    var candidates, rows := Screen(s, c, digest);
    hide Canonical, Eligible, Order, Exclusions, Overlap, Wins, Rows, SomeEligible, StateOf, DiagnosticOf, RefOf;
    var state, diagnostic, chosen := Decide(s, c, candidates, rows);
    if chosen.Some? {
      AtMostOne(s, c, chosen.value);
      candidates := candidates[chosen.value := candidates[chosen.value].(selected := true)];
    }
    assert candidates == PayloadOf(s, c, digest).candidates;
    var payload := Payload(c, state, diagnostic, candidates);
    r := Resolution(payload, TraceOf(payload));
  }

  lemma AboveIsAsymmetric(a: Rule, b: Rule)
    ensures !(Above(a, b) && Above(b, a))
  {
    LexTotal(Order(a), Order(b));
  }

  /** Two rules cannot both stand strictly above every other. */
  lemma AtMostOne(s: seq<Rule>, c: Context, i: int)
    requires Selected(s, c, i)
    ensures forall j :: Selected(s, c, j) <==> j == i
  {
    hide Eligible, Order, LexLe;
    forall j | Selected(s, c, j)
      ensures j == i
    {
      if j != i {
        AboveIsAsymmetric(s[i], s[j]);
      }
    }
  }
}
