/** What every plan is, in which order it was made, and what uploading a batch again comes to. */
module IngestTheorems {
  import opened Base
  import opened Sorting
  import opened Sums
  import opened LedgerModel
  import opened LedgerReplay
  import opened IngestModel

  lemma OrderedIsSorted(pending: seq<Candidate>)
    ensures Sorted(Ordered(pending), Order(SupersededTargets(pending)))
  {
    var targets := SupersededTargets(pending);
    var le := Order(targets);
    forall a, b
      ensures le(a, b) || le(b, a)
    {
      TextTotal(a.event.eventId, b.event.eventId);
    }
    forall a, b, c | le(a, b) && le(b, c)
      ensures le(a, c)
    {
      if TextLe(a.event.eventId, b.event.eventId) && TextLe(b.event.eventId, c.event.eventId) {
        TextTransitive(a.event.eventId, b.event.eventId, c.event.eventId);
      }
    }
    SortSorted(pending, le);
  }

  /** A pending candidate supersedes this one. */
  ghost predicate Awaited(pending: seq<Candidate>, c: Candidate) {
    exists d <- pending :: d.event.supersedes == Some(c.event.eventId)
  }

  ghost predicate SameClass(pending: seq<Candidate>, a: Candidate, b: Candidate) {
    && (a.event.supersedes.Some? <==> b.event.supersedes.Some?)
    && (a.event.supersedes.None? ==> (Awaited(pending, a) <==> Awaited(pending, b)))
  }

  /**
   Superseding events are tried first, then those that a pending one supersedes, then the others; within a
   class the earlier recognition time goes first, and at equal times the smaller event id.
   */
  lemma OrderedByRankTimeId(pending: seq<Candidate>, i: nat, j: nat)
    requires i < j < |Ordered(pending)|
    ensures
      var a, b := Ordered(pending)[i], Ordered(pending)[j];
      && (b.event.supersedes != None ==> a.event.supersedes != None)
      && (a.event.supersedes == b.event.supersedes == None && Awaited(pending, b) ==> Awaited(pending, a))
      && (SameClass(pending, a, b) && a.event.recognitionTime.Aware? && b.event.recognitionTime.Aware? ==>
            && a.event.recognitionTime.utc <= b.event.recognitionTime.utc
            && (a.event.recognitionTime.utc == b.event.recognitionTime.utc ==>
                  InOrder(a.event.eventId, b.event.eventId, SmallerChar)))
  {
    OrderedIsSorted(pending);
    var targets := SupersededTargets(pending);
    var a, b := Ordered(pending)[i], Ordered(pending)[j];
    assert TriedBefore(a, b, targets);
    TextLeExact(a.event.eventId, b.event.eventId);
    hide Ordered, TextLe, InOrder;
    AwaitedExact(pending, a);
    AwaitedExact(pending, b);
  }

  lemma AwaitedExact(pending: seq<Candidate>, c: Candidate)
    ensures Awaited(pending, c) <==> c.event.eventId in SupersededTargets(pending)
  {
  }

  // ----- Batches put together

  lemma {:induction false} AppendFirst(s: State, tenant: string, item: Item, rest: seq<Item>)
    requires Append(s, tenant, item.row, item.event).Ok?
    requires AppendAll(Append(s, tenant, item.row, item.event).value.state, tenant, rest).Ok?
    ensures AppendAll(s, tenant, [item] + rest).Ok?
    ensures AppendAll(s, tenant, [item] + rest).value.state ==
      AppendAll(Append(s, tenant, item.row, item.event).value.state, tenant, rest).value.state
  {
    hide Append;
    var items := [item] + rest;
    if rest == [] {
      assert items[..|items| - 1] == [] && items == [item];
    } else {
      var shorter := rest[..|rest| - 1];
      AppendFirst(s, tenant, item, shorter);
      assert items[..|items| - 1] == [item] + shorter;
    }
  }

  lemma {:induction false} AppendBoth(s: State, tenant: string, a: seq<Item>, b: seq<Item>)
    requires AppendAll(s, tenant, a).Ok? && AppendAll(AppendAll(s, tenant, a).value.state, tenant, b).Ok?
    ensures AppendAll(s, tenant, a + b).Ok?
    ensures AppendAll(s, tenant, a + b).value.state ==
      AppendAll(AppendAll(s, tenant, a).value.state, tenant, b).value.state
  {
    hide Append;
    var items := a + b;
    if b == [] {
      assert items == a;
    } else {
      var shorter := b[..|b| - 1];
      AppendBoth(s, tenant, a, shorter);
      assert items[..|items| - 1] == a + shorter;
    }
  }

  // ----- What a plan is

  /** The candidate has to wait: the ledger refuses it for want of an event it names. */
  ghost predicate Waits(s: State, tenant: string, c: Candidate) {
    var r := Append(s, tenant, c.row, Some(c.event));
    r.Err? && r.error in MISSING_DEPENDENCY_CODES
  }

  /** The candidate names a superseded or reversed event that the ledger does not hold. */
  ghost predicate Dangling(s: State, tenant: string, c: Candidate) {
    || (c.event.supersedes.Some? && Key(tenant, c.event.supersedes.value) !in s.byId)
    || (c.event.reversalOf.Some? && Key(tenant, c.event.reversalOf.value) !in s.byId)
  }

  lemma WaitingIsDangling(s: State, tenant: string, c: Candidate)
    requires Waits(s, tenant, c)
    ensures Dangling(s, tenant, c)
  {
    hide Within, TotalsOf, SumOf, CompetingReturns;
  }

  lemma NeverUnresolved(s: State, tenant: string, row: SourceRow, event: Option<Event>)
    ensures Append(s, tenant, row, event) != Err(BatchDependencyUnresolved)
  {
    hide Within, TotalsOf, SumOf, CompetingReturns;
  }

  /**
   What planning makes of a candidate: the candidate itself if the ledger accepts it, otherwise
   its quarantined row, for a reason that quarantines and if the ledger accepts that row.
   */
  lemma AttemptExact(s: State, tenant: string, c: Candidate)
    ensures
      var r := Append(s, tenant, c.row, Some(c.event));
      match Attempted(s, tenant, c)
      case Planned(item) => (
        && !Waits(s, tenant, c)
        && if r.Ok? then item == Item(c.row, Some(c.event))
           else r.error in ROW_QUARANTINE_CODES && item == Item(Quarantine(c.row, r.error), None))
      case Missing => Waits(s, tenant, c) && Dangling(s, tenant, c)
      case Failed(code) => code != BatchDependencyUnresolved && !Waits(s, tenant, c)
  {
    NeverUnresolved(s, tenant, c.row, Some(c.event));
    if Waits(s, tenant, c) {
      WaitingIsDangling(s, tenant, c);
    }
    forall row {
      NeverUnresolved(s, tenant, row, None);
    }
    hide Append, Dangling;
  }

  /** The candidates still pending after some have been dealt with. */
  function Without(pending: seq<Candidate>, taken: seq<Candidate>): seq<Candidate>
    decreases |taken|
  {
    if taken == [] then
      pending
    else
      Without(if taken[0] in pending then RemoveFirst(pending, taken[0]) else pending, taken[1..])
  }

  ghost predicate AllWait(s: State, tenant: string, cs: seq<Candidate>) {
    forall c <- cs :: Waits(s, tenant, c)
  }

  /** The candidate is the first in order that need not wait. */
  ghost predicate FirstReady(s: State, tenant: string, ordered: seq<Candidate>, c: Candidate) {
    !Waits(s, tenant, c) && exists j | 0 <= j < |ordered| :: ordered[j] == c && AllWait(s, tenant, ordered[..j])
  }

  lemma ReadyLater(s: State, tenant: string, ordered: seq<Candidate>, c: Candidate)
    requires ordered != [] && Waits(s, tenant, ordered[0]) && FirstReady(s, tenant, ordered[1..], c)
    ensures FirstReady(s, tenant, ordered, c)
  {
    hide Waits;
    var j :| 0 <= j < |ordered| - 1 && ordered[1..][j] == c && AllWait(s, tenant, ordered[1..][..j]);
    assert ordered[..j + 1] == [ordered[0]] + ordered[1..][..j];
    assert ordered[j + 1] == c;
  }

  /** The first in order that need not wait ends the planning with this code. */
  ghost predicate GivesUp(s: State, tenant: string, ordered: seq<Candidate>, code: Code) {
    exists j | 0 <= j < |ordered| ::
      Attempted(s, tenant, ordered[j]) == Failed(code) && AllWait(s, tenant, ordered[..j])
  }

  lemma GivesUpLater(s: State, tenant: string, ordered: seq<Candidate>, code: Code)
    requires ordered != [] && Waits(s, tenant, ordered[0]) && GivesUp(s, tenant, ordered[1..], code)
    ensures GivesUp(s, tenant, ordered, code)
  {
    hide Waits, Attempted;
    var j :| 0 <= j < |ordered| - 1 && Attempted(s, tenant, ordered[1..][j]) == Failed(code)
      && AllWait(s, tenant, ordered[1..][..j]);
    assert ordered[..j + 1] == [ordered[0]] + ordered[1..][..j];
    assert ordered[j + 1] == ordered[1..][j];
  }

  lemma {:induction false} FirstDealtExact(s: State, tenant: string, ordered: seq<Candidate>)
    ensures match FirstDealt(s, tenant, ordered)
      case Stuck => AllWait(s, tenant, ordered)
      case GaveUp(code) => code != BatchDependencyUnresolved && GivesUp(s, tenant, ordered, code)
      case Progress(c, item) => FirstReady(s, tenant, ordered, c) && Attempted(s, tenant, c) == Planned(item)
  {
    hide Waits, Attempted, Append, Dangling;
    if ordered == [] {
    } else {
      AttemptExact(s, tenant, ordered[0]);
      match Attempted(s, tenant, ordered[0])
      case Failed(code) =>
        assert Attempted(s, tenant, ordered[0]) == Failed(code) && AllWait(s, tenant, ordered[..0]);
      case Planned(_) =>
        assert ordered[0] == ordered[0] && AllWait(s, tenant, ordered[..0]);
      case Missing =>
        FirstDealtExact(s, tenant, ordered[1..]);
        assert ordered == [ordered[0]] + ordered[1..];
        if FirstDealt(s, tenant, ordered[1..]).Progress? {
          ReadyLater(s, tenant, ordered, FirstDealt(s, tenant, ordered[1..]).candidate);
        } else if FirstDealt(s, tenant, ordered[1..]).GaveUp? {
          GivesUpLater(s, tenant, ordered, FirstDealt(s, tenant, ordered[1..]).code);
        }
    }
  }

  /** The item a candidate became: itself with its event, or its quarantined row without one. */
  ghost predicate ItemOf(c: Candidate, item: Item) {
    || item == Item(c.row, Some(c.event))
    || exists code <- ROW_QUARANTINE_CODES :: item == Item(Quarantine(c.row, code), None)
  }

  /** The items are what the candidates became, one each and in the same order. */
  ghost predicate ItemsOf(cs: seq<Candidate>, items: seq<Item>) {
    |items| == |cs| && forall i :: 0 <= i < |cs| ==> ItemOf(cs[i], items[i])
  }

  /** What planning promises of the rest of a batch. */
  ghost predicate PlansWell(s: State, tenant: string, pending: seq<Candidate>, p: Planning) {
    && ItemsOf(p.processed, p.items)
    && multiset(p.processed) + multiset(p.left) == multiset(pending)
    && AppendAll(s, tenant, p.items).Ok? && AppendAll(s, tenant, p.items).value.state == p.state
    && (p.ending.Complete? <==> p.left == [])
    && (p.ending.Unresolved? ==> AllWait(p.state, tenant, p.left))
    && p.ending != Aborted(BatchDependencyUnresolved)
  }

  lemma AttemptIsItem(s: State, tenant: string, c: Candidate)
    ensures Attempted(s, tenant, c).Planned? ==> ItemOf(c, Attempted(s, tenant, c).item)
  {
    AttemptExact(s, tenant, c);
    hide Append, Attempted, Waits, Dangling, Quarantine;
  }

  lemma WellAfter(s: State, tenant: string, pending: seq<Candidate>, c: Candidate, item: Item, p: Planning)
    requires c in pending && Append(s, tenant, item.row, item.event).Ok? && ItemOf(c, item)
    requires PlansWell(Append(s, tenant, item.row, item.event).value.state, tenant, RemoveFirst(pending, c), p)
    ensures PlansWell(s, tenant, pending, p.After(c, item))
  {
    hide Append, AppendAll, AllWait, RemoveFirst, ItemOf;
    AppendFirst(s, tenant, item, p.items);
    assert c in multiset(pending);
    assert multiset(pending) == multiset{c} + multiset(RemoveFirst(pending, c));
    assert multiset([c] + p.processed) == multiset{c} + multiset(p.processed);
  }

  /**
   Planning accounts for every candidate, its items replay on the ledger to the staging state,
   and it only stays unresolved when every candidate left has to wait.
   */
  lemma {:induction false} PlanRestSound(s: State, tenant: string, pending: seq<Candidate>)
    ensures PlansWell(s, tenant, pending, PlanRest(s, tenant, pending))
    decreases |pending|
  {
    hide Append, Waits, Attempted, FirstReady, FirstDealt, Ordered;
    var ordered := Ordered(pending);
    FirstDealtExact(s, tenant, ordered);
    if pending == [] {
    } else {
      match FirstDealt(s, tenant, ordered)
      case Stuck =>
        forall c <- pending
          ensures Waits(s, tenant, c)
        {
          assert c in multiset(ordered);
        }
      case GaveUp(_) =>
      case Progress(c, item) =>
        hide PlansWell;
        var next := Append(s, tenant, item.row, item.event).value.state;
        PlanRestSound(next, tenant, RemoveFirst(pending, c));
        AttemptIsItem(s, tenant, c);
        WellAfter(s, tenant, pending, c, item, PlanRest(next, tenant, RemoveFirst(pending, c)));
    }
  }

  /** How planning ends: nobody is left, everybody left waits, or the first that need not wait fails. */
  lemma {:induction false} PlanRestEnding(s: State, tenant: string, pending: seq<Candidate>)
    ensures
      var p := PlanRest(s, tenant, pending);
      match p.ending
      case Complete => p.left == []
      case Unresolved => p.left != [] && AllWait(p.state, tenant, p.left)
      case Aborted(code) => GivesUp(p.state, tenant, Ordered(p.left), code)
    decreases |pending|
  {
    hide Append, Waits, Attempted, FirstReady, FirstDealt, Ordered, GivesUp;
    PlanRestSound(s, tenant, pending);
    FirstDealtExact(s, tenant, Ordered(pending));
    if pending != [] && FirstDealt(s, tenant, Ordered(pending)).Progress? {
      hide PlansWell, AllWait;
      var c, item := FirstDealt(s, tenant, Ordered(pending)).candidate, FirstDealt(s, tenant, Ordered(pending)).item;
      PlanRestEnding(Append(s, tenant, item.row, item.event).value.state, tenant, RemoveFirst(pending, c));
    }
  }

  /** Where the items before number `i` take the ledger. */
  ghost function StateBefore(s: State, tenant: string, items: seq<Item>, i: nat): State
    requires i <= |items| && AppendAll(s, tenant, items[..i]).Ok?
  {
    AppendAll(s, tenant, items[..i]).value.state
  }

  ghost predicate TakenAt(s: State, tenant: string, pending: seq<Candidate>, p: Planning, i: nat)
    requires i < |p.processed|
  {
    && i < |p.items| && AppendAll(s, tenant, p.items[..i]).Ok?
    && FirstReady(StateBefore(s, tenant, p.items, i), tenant, Ordered(Without(pending, p.processed[..i])),
                  p.processed[i])
    && Attempted(StateBefore(s, tenant, p.items, i), tenant, p.processed[i]) == Planned(p.items[i])
  }

  lemma WithoutLater(pending: seq<Candidate>, c: Candidate, p: Planning, item: Item, i: nat)
    requires c in pending && i < |p.processed|
    ensures Without(pending, p.After(c, item).processed[..i + 1]) == Without(RemoveFirst(pending, c), p.processed[..i])
  {
    var taken := p.After(c, item).processed[..i + 1];
    assert taken[0] == c && taken[1..] == p.processed[..i];
  }

  lemma TakenLater(s: State, tenant: string, pending: seq<Candidate>, c: Candidate, item: Item, p: Planning, i: nat)
    requires c in pending && i < |p.processed| && Append(s, tenant, item.row, item.event).Ok?
    requires TakenAt(Append(s, tenant, item.row, item.event).value.state, tenant, RemoveFirst(pending, c), p, i)
    ensures TakenAt(s, tenant, pending, p.After(c, item), i + 1)
  {
    hide Append, AppendAll, FirstReady, Ordered, Attempted, Without;
    var q := p.After(c, item);
    AppendFirst(s, tenant, item, p.items[..i]);
    assert q.items[..i + 1] == [item] + p.items[..i];
    assert q.processed[i + 1] == p.processed[i] && q.items[i + 1] == p.items[i];
    WithoutLater(pending, c, p, item, i);
  }

  /**
   The candidate dealt with at each step is, among those still pending, the first in the
   prescribed order that need not wait, and it is planned as the ledger answers at that step.
   */
  lemma {:induction false} TakenInOrder(s: State, tenant: string, pending: seq<Candidate>, i: nat)
    requires i < |PlanRest(s, tenant, pending).processed|
    ensures TakenAt(s, tenant, pending, PlanRest(s, tenant, pending), i)
    decreases i
  {
    hide Append, Waits, Attempted, FirstReady, FirstDealt, Ordered;
    PlanRestSound(s, tenant, pending);
    FirstDealtExact(s, tenant, Ordered(pending));
    var p := PlanRest(s, tenant, pending);
    if i == 0 {
      assert p.items[..0] == [] && p.processed[..0] == [];
    } else {
      hide TakenAt, PlansWell;
      var c, item := FirstDealt(s, tenant, Ordered(pending)).candidate, FirstDealt(s, tenant, Ordered(pending)).item;
      var next, rest := Append(s, tenant, item.row, item.event).value.state, RemoveFirst(pending, c);
      TakenInOrder(next, tenant, rest, i - 1);
      TakenLater(s, tenant, pending, c, item, PlanRest(next, tenant, rest), i - 1);
    }
  }

  /** The plan is the immediate rows, then every candidate once as what it became. */
  ghost predicate WholePlan(plan: seq<Item>, immediate: seq<SourceRow>, candidates: seq<Candidate>) {
    exists dealt: seq<Candidate> ::
      && multiset(dealt) == multiset(candidates) && |plan| == |immediate| + |candidates|
      && plan[..|immediate|] == RowItems(immediate) && ItemsOf(dealt, plan[|immediate|..])
  }

  /**
   A whole plan holds every immediate row and every candidate exactly once and is accepted by the
   unchanged ledger. An unresolved one has only candidates left that name an event that is not there.
   */
  lemma PlanBatchSound(s: State, tenant: string, immediate: seq<SourceRow>, candidates: seq<Candidate>)
    ensures
      var r := PlanBatch(s, tenant, immediate, candidates);
      && (r.Ok? ==> WholePlan(r.value, immediate, candidates) && AppendAll(s, tenant, r.value).Ok?)
      && (r == Err(BatchDependencyUnresolved) ==>
            && AppendAll(s, tenant, RowItems(immediate)).Ok?
            && var p := PlanRest(AppendAll(s, tenant, RowItems(immediate)).value.state, tenant, candidates);
               && p.left != [] && (forall c <- p.left :: c in candidates)
               && (forall c <- p.left :: Dangling(p.state, tenant, c)))
  {
    BatchNeverUnresolved(s, tenant, RowItems(immediate));
    hide Append, Dangling, PlanRest, Waits, ItemsOf;
    var staged := AppendAll(s, tenant, RowItems(immediate));
    if staged.Ok? {
      PlanRestSound(staged.value.state, tenant, candidates);
      var p := PlanRest(staged.value.state, tenant, candidates);
      AppendBoth(s, tenant, RowItems(immediate), p.items);
      assert |multiset(p.processed) + multiset(p.left)| == |candidates|;
      if p.ending.Complete? {
        WholePlanHolds(immediate, candidates, p.processed, p.items);
      }
      forall c <- p.left | p.ending.Unresolved?
        ensures c in candidates && Dangling(p.state, tenant, c)
      {
        assert c in multiset(p.left);
        assert c in multiset(candidates);
        WaitingIsDangling(p.state, tenant, c);
      }
    }
  }

  /**
   A batch is planned exactly when its immediate rows are accepted and no candidate is left; it is
   unresolved exactly when all that are left wait; otherwise it fails as the row or candidate it stopped at.
   */
  lemma PlanBatchEnding(s: State, tenant: string, immediate: seq<SourceRow>, candidates: seq<Candidate>)
    ensures
      var r := PlanBatch(s, tenant, immediate, candidates);
      match AppendAll(s, tenant, RowItems(immediate))
      case Err(code) => r == Err(code)
      case Ok(staged) => (
        var p := PlanRest(staged.state, tenant, candidates);
        && (r.Ok? <==> p.left == [])
        && (r == Err(BatchDependencyUnresolved) <==> p.left != [] && AllWait(p.state, tenant, p.left))
        && (r.Err? && r.error != BatchDependencyUnresolved ==>
              GivesUp(p.state, tenant, Ordered(p.left), r.error)))
  {
    hide Append, AppendAll, Waits, PlanRest, GivesUp, Ordered, AllWait, ItemsOf;
    var staged := AppendAll(s, tenant, RowItems(immediate));
    if staged.Ok? {
      PlanRestEnding(staged.value.state, tenant, candidates);
      PlanRestSound(staged.value.state, tenant, candidates);
      var p := PlanRest(staged.value.state, tenant, candidates);
      if p.ending.Aborted? {
        NotAllWait(p.state, tenant, p.left, p.ending.code);
      }
    }
  }

  lemma NotAllWait(s: State, tenant: string, left: seq<Candidate>, code: Code)
    requires GivesUp(s, tenant, Ordered(left), code)
    ensures !AllWait(s, tenant, left)
  {
    hide Append, Attempted, Waits, Ordered;
    var j :| 0 <= j < |Ordered(left)| && Attempted(s, tenant, Ordered(left)[j]) == Failed(code);
    AttemptExact(s, tenant, Ordered(left)[j]);
    assert Ordered(left)[j] in left;
  }

  lemma WholePlanHolds(immediate: seq<SourceRow>, candidates: seq<Candidate>, dealt: seq<Candidate>, items: seq<Item>)
    requires multiset(dealt) == multiset(candidates) && ItemsOf(dealt, items)
    ensures WholePlan(RowItems(immediate) + items, immediate, candidates)
  {
    hide ItemOf;
    var plan := RowItems(immediate) + items;
    assert |multiset(dealt)| == |dealt| && |multiset(candidates)| == |candidates|;
    assert plan[..|immediate|] == RowItems(immediate) && plan[|immediate|..] == items;
  }

  lemma {:induction false} BatchNeverUnresolved(s: State, tenant: string, items: seq<Item>)
    ensures AppendAll(s, tenant, items) != Err(BatchDependencyUnresolved)
  {
    hide Append;
    if items != [] {
      var shorter, last := items[..|items| - 1], items[|items| - 1];
      BatchNeverUnresolved(s, tenant, shorter);
      if AppendAll(s, tenant, shorter).Ok? {
        NeverUnresolved(AppendAll(s, tenant, shorter).value.state, tenant, last.row, last.event);
      }
    }
  }

  // ----- Counts

  lemma {:induction false} CountsAddUp(plan: seq<Item>, results: seq<AppendResult>)
    requires |plan| == |results|
    requires forall i :: 0 <= i < |plan| && results[i].eventInserted ==> plan[i].event.Some?
    ensures
      var pairs := Zip(plan, results);
      && Count(results, EventInserted) + Count(Select(pairs, true), PairEventDuplicate) == |Select(pairs, true)|
      && |Select(pairs, true)| + |Select(pairs, false)| == |plan|
      && |EventIds(plan)| == |Select(pairs, true)|
  {
    if plan != [] {
      var p, r := plan[..|plan| - 1], results[..|results| - 1];
      CountsAddUp(p, r);
      var pairs := Zip(plan, results);
      assert pairs[..|pairs| - 1] == Zip(p, r);
      var last := pairs[|pairs| - 1];
      var selected, before := Select(pairs, true), Select(Zip(p, r), true);
      assert Count(results, EventInserted) == Count(r, EventInserted) + if last.result.eventInserted then 1 else 0;
      if last.item.event.Some? {
        assert selected == before + [last];
        assert selected[..|selected| - 1] == before;
        assert Count(selected, PairEventDuplicate) ==
          Count(before, PairEventDuplicate) + if last.result.eventInserted then 0 else 1;
      } else {
        assert selected == before && !results[|plan| - 1].eventInserted;
      }
    }
  }

  lemma {:induction false} InsertedOnlyWithEvent(s: State, tenant: string, plan: seq<Item>)
    requires AppendAll(s, tenant, plan).Ok?
    ensures
      var results := AppendAll(s, tenant, plan).value.results;
      |results| == |plan| && forall i :: 0 <= i < |plan| && results[i].eventInserted ==> plan[i].event.Some?
  {
    hide CheckAppend;
    if plan != [] {
      InsertedOnlyWithEvent(s, tenant, plan[..|plan| - 1]);
    }
  }

  lemma {:induction false} EventsAfterRows(plan: seq<Item>, n: nat)
    requires n <= |plan|
    requires forall i :: 0 <= i < |plan| ==> (plan[i].event.Some? <==> n <= i)
    ensures |EventIds(plan)| == |plan| - n
  {
    if n < |plan| {
      EventsAfterRows(plan[..|plan| - 1], n);
    } else if n > 0 {
      EventsAfterRows(plan[..n - 1], n - 1);
    }
  }

  lemma {:induction false} QuarantinedAmongInserted(plan: seq<Item>, results: seq<AppendResult>)
    requires |plan| == |results|
    ensures Count(Select(Zip(plan, results), false), PairRowInserted) <= Count(results, RowInserted)
  {
    if plan == [] {
    } else {
      var p, r := plan[..|plan| - 1], results[..|results| - 1];
      QuarantinedAmongInserted(p, r);
      var pairs := Zip(plan, results);
      assert pairs[..|pairs| - 1] == Zip(p, r);
      var before, selected := Select(Zip(p, r), false), Select(pairs, false);
      var last := pairs[|pairs| - 1];
      assert Count(results, RowInserted) == Count(r, RowInserted) + if last.result.rowInserted then 1 else 0;
      if last.item.event.None? {
        assert selected == before + [last];
        assert selected[..|selected| - 1] == before;
      } else {
        assert selected == before;
      }
    }
  }
}
