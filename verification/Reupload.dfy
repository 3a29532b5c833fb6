/** Uploading a batch again: when it comes back as duplicates only, and what happens otherwise. */
module Reupload {
  import opened Base
  import opened Sums
  import opened LedgerModel
  import opened LedgerInvariants
  import opened LedgerTheorems
  import opened LedgerReplay
  import opened IngestModel
  import opened IngestTheorems

  // ----- Batches the ledger knows

  /** The ledger holds a row of this identifier and content, perhaps from another upload. */
  predicate Held(s: State, tenant: string, row: SourceRow) {
    var k := Key(tenant, row.recordId);
    k in s.rows && s.rows[k].Fingerprint() == row.Fingerprint()
  }

  /** The candidate was planned before, but as a quarantined row without its event. */
  predicate SetAside(s: State, tenant: string, c: Candidate) {
    var k := Key(tenant, c.row.recordId);
    && c.row.tenantId == tenant && Lineage(c.row, c.event)
    && k in s.rows && s.rows[k].status == RowStatus.Quarantined
  }

  /** The lines of the batch are free in the ledger or their own, and one line is one record. */
  ghost predicate LinesAgree(s: State, tenant: string, rows: set<SourceRow>) {
    && (forall r <- rows :: LineFits(s, tenant, r))
    && (forall a <- rows, b <- rows :: RowLocator(tenant, a) == RowLocator(tenant, b) ==> a.recordId == b.recordId)
  }

  predicate LineFits(s: State, tenant: string, r: SourceRow) {
    var l := RowLocator(tenant, r);
    l in s.locators ==> s.locators[l] == r.recordId
  }

  function BatchRows(immediate: seq<SourceRow>, candidates: seq<Candidate>): set<SourceRow> {
    (set r | r in immediate) + (set c | c in candidates :: c.row)
  }

  function ItemRows(items: seq<Item>): set<SourceRow> {
    set i | i in items :: i.row
  }

  ghost predicate KnownCandidate(s: State, tenant: string, c: Candidate) {
    Replays(s, tenant, c.row, c.event) || SetAside(s, tenant, c)
  }

  /** Every row and every candidate of the batch has been through the ledger before. */
  ghost predicate Known(s: State, tenant: string, immediate: seq<SourceRow>, candidates: seq<Candidate>) {
    && (forall r <- immediate :: r.status == RowStatus.Quarantined && Held(s, tenant, r))
    && (forall c <- candidates :: KnownCandidate(s, tenant, c))
    && LinesAgree(s, tenant, BatchRows(immediate, candidates))
  }

  /** The candidate's event is stored and, if a correction has superseded it, there is still room for it. */
  ghost predicate Repeatable(s: State, tenant: string, c: Candidate) {
    Replays(s, tenant, c.row, c.event) && !Crowded(s, tenant, c.event)
  }

  // ----- What a repeated item changes

  predicate SameButLines(s: State, t: State) {
    t == s.(locators := t.locators)
  }

  ghost predicate Repeats(s: State, tenant: string, item: Item) {
    if item.event.None? then
      item.row.status == RowStatus.Quarantined && Held(s, tenant, item.row)
    else
      Repeatable(s, tenant, Candidate(item.row, item.event.value))
  }

  lemma CrowdedByEvents(s: State, t: State, tenant: string, e: Event)
    requires SameButLines(s, t)
    ensures Crowded(s, tenant, e) == Crowded(t, tenant, e)
  {
    hide Within, TotalsOf;
    assert SupersededIds(s, tenant) == SupersededIds(t, tenant);
    if e.reversalOf.Some? {
      SameActive(s, t, tenant, e.reversalOf.value);
    }
    hide ActiveReturns, SupersededIds;
  }

  lemma KnownByLines(s: State, t: State, tenant: string, c: Candidate)
    requires SameButLines(s, t) && LineFits(t, tenant, c.row)
    ensures Replays(s, tenant, c.row, c.event) ==> Replays(t, tenant, c.row, c.event)
    ensures SetAside(s, tenant, c) ==> SetAside(t, tenant, c)
    ensures Repeatable(s, tenant, c) ==> Repeatable(t, tenant, c)
    ensures LineFits(s, tenant, c.row) && Repeatable(t, tenant, c) ==> Repeatable(s, tenant, c)
  {
    CrowdedByEvents(s, t, tenant, c.event);
    hide Crowded, Lineage;
  }

  lemma RepeatsByLines(s: State, t: State, tenant: string, item: Item)
    requires SameButLines(s, t) && LineFits(t, tenant, item.row) && Repeats(s, tenant, item)
    ensures Repeats(t, tenant, item)
  {
    hide Replays, Repeatable;
    if item.event.Some? {
      KnownByLines(s, t, tenant, Candidate(item.row, item.event.value));
    }
  }

  lemma HeldAgain(s: State, tenant: string, row: SourceRow)
    requires Inv(s) && row.status == RowStatus.Quarantined && Held(s, tenant, row) && LineFits(s, tenant, row)
    ensures Append(s, tenant, row, None) ==
      Ok(Appended(s.(locators := s.locators[RowLocator(tenant, row) := row.recordId]), false, false))
  {
    hide Inv;
    var k := Key(tenant, row.recordId);
    RowFacts(s, k);
    assert s.rows[k].Fingerprint().tenantId == row.Fingerprint().tenantId;
  }

  /** A repeated item is accepted, inserts nothing, and only records its line. */
  lemma RepeatExact(s: State, tenant: string, item: Item)
    requires Inv(s) && Repeats(s, tenant, item) && LineFits(s, tenant, item.row)
    ensures Append(s, tenant, item.row, item.event) ==
      Ok(Appended(s.(locators := s.locators[RowLocator(tenant, item.row) := item.row.recordId]), false, false))
  {
    hide Inv, Append, Held, LineFits, Replays, Crowded;
    if item.event.None? {
      HeldAgain(s, tenant, item.row);
    } else {
      ReplayExact(s, tenant, item.row, item.event.value);
    }
  }

  /** Only lines were added, namely those of the given rows, each for its own record. */
  ghost predicate OnlyLines(s: State, t: State, tenant: string, rows: set<SourceRow>) {
    && SameButLines(s, t)
    && (forall l <- s.locators :: l in t.locators && t.locators[l] == s.locators[l])
    && (forall r <- rows :: RowLocator(tenant, r) in t.locators && t.locators[RowLocator(tenant, r)] == r.recordId)
    && (forall l <- t.locators :: l in s.locators || exists r <- rows :: l == RowLocator(tenant, r))
  }

  lemma LinesStillFit(s: State, t: State, tenant: string, rows: set<SourceRow>, all: set<SourceRow>, r: SourceRow)
    requires OnlyLines(s, t, tenant, rows) && rows <= all && LinesAgree(s, tenant, all) && r in all
    ensures LineFits(t, tenant, r)
  {
  }

  lemma OneMoreLine(s: State, t: State, tenant: string, rows: set<SourceRow>, row: SourceRow)
    requires OnlyLines(s, t, tenant, rows) && LineFits(t, tenant, row)
    ensures OnlyLines(s, t.(locators := t.locators[RowLocator(tenant, row) := row.recordId]), tenant, rows + {row})
  {
    var l, u := RowLocator(tenant, row), t.(locators := t.locators[RowLocator(tenant, row) := row.recordId]);
    assert row in rows + {row};
    forall m <- u.locators
      ensures m in s.locators || exists r <- rows + {row} :: m == RowLocator(tenant, r)
    {
      if m != l && m !in s.locators {
        var r :| r in rows && m == RowLocator(tenant, r);
        assert r in rows + {row};
      }
    }
  }

  predicate AllDuplicates(results: seq<AppendResult>, n: nat) {
    |results| == n && forall i :: 0 <= i < n ==> results[i] == AppendResult(false, false)
  }

  /** A batch of repeated items is accepted, every result is a duplicate, and only lines are added. */
  lemma {:induction false} RepeatsAddNothing(s: State, tenant: string, items: seq<Item>)
    requires Inv(s) && (forall item <- items :: Repeats(s, tenant, item))
    requires LinesAgree(s, tenant, ItemRows(items))
    ensures AppendAll(s, tenant, items).Ok?
    ensures
      var b := AppendAll(s, tenant, items).value;
      OnlyLines(s, b.state, tenant, ItemRows(items)) && AllDuplicates(b.results, |items|)
  {
    hide Inv, Append, Repeats;
    if items == [] {
      assert ItemRows(items) == {};
    } else {
      var before, last := items[..|items| - 1], items[|items| - 1];
      assert items == before + [last];
      assert ItemRows(items) == ItemRows(before) + {last.row};
      RepeatsAddNothing(s, tenant, before);
      var t := AppendAll(s, tenant, before).value.state;
      BatchKeepsInv(s, tenant, before);
      LinesStillFit(s, t, tenant, ItemRows(before), ItemRows(items), last.row);
      RepeatsByLines(s, t, tenant, last);
      RepeatExact(t, tenant, last);
      OneMoreLine(s, t, tenant, ItemRows(before), last.row);
      hide OnlyLines, LinesAgree, ItemRows;
    }
  }

  // ----- Planning a known batch

  /** A crowded return is refused as exceeding its sale. */
  lemma CrowdedExceeds(s: State, tenant: string, row: SourceRow, e: Event)
    requires Inv(s) && Replays(s, tenant, row, e) && Crowded(s, tenant, e)
    ensures Append(s, tenant, row, Some(e)) == Err(EventReversalExceedsOriginal)
    ensures row.tenantId == tenant && Key(tenant, row.recordId) in s.rows
    ensures s.rows[Key(tenant, row.recordId)].status == RowStatus.Valid
  {
    hide Inv, Within, TotalsOf, SumOf, CompetingReturns, StoredAs, SameTerms, CompareTerms, ValidateLineage, Crowded;
    hide Lineage, RoomFor, Succeeds;
    EventFacts(s, Key(tenant, e.eventId));
    var stored := s.rows[Key(tenant, e.recordId)];
    assert row.tenantId == tenant by {
      RowFacts(s, Key(tenant, e.recordId));
      assert stored.Fingerprint().tenantId == row.Fingerprint().tenantId;
    }
    LineageByFingerprint(stored, row, e);
    LineageExact(row, e);
    StoredIsValid(stored, e);
    CrowdedCheck(s, tenant, e);
  }

  lemma StoredIsValid(row: SourceRow, e: Event)
    requires Lineage(row, e)
    ensures row.status == RowStatus.Valid
  {
  }

  lemma CrowdedCheck(s: State, tenant: string, e: Event)
    requires Inv(s) && Key(tenant, e.eventId) in s.byId && s.byId[Key(tenant, e.eventId)] == e && Crowded(s, tenant, e)
    ensures CheckEvent(s, tenant, e) == Err(EventReversalExceedsOriginal)
  {
    hide Inv, Within, TotalsOf, SumOf, CompetingReturns, SameTerms, CompareTerms, HasRow;
    EventFacts(s, Key(tenant, e.eventId));
    RoomAgain(s, tenant, e);
    assert Crowded(s, tenant, e) ==> e.reversalOf.Some? && Key(tenant, e.reversalOf.value) in s.byId;
    hide Crowded;
    var sale := s.byId[Key(tenant, e.reversalOf.value)];
    TermsExact(sale, e);
  }

  lemma QuarantinedConflicts(s: State, tenant: string, row: SourceRow, code: Code)
    requires row.tenantId == tenant && Key(tenant, row.recordId) in s.rows
    requires s.rows[Key(tenant, row.recordId)].status == RowStatus.Valid
    ensures Append(s, tenant, Quarantine(row, code), None) == Err(SourceRecordConflict)
  {
    var stored := s.rows[Key(tenant, row.recordId)];
    assert stored.Fingerprint().status != Quarantine(row, code).Fingerprint().status;
  }

  lemma SetAsideConflicts(s: State, tenant: string, c: Candidate)
    requires SetAside(s, tenant, c)
    ensures Append(s, tenant, c.row, Some(c.event)) == Err(SourceRecordConflict)
    ensures !Replays(s, tenant, c.row, c.event)
  {
    LineageExact(c.row, c.event);
    StoredIsValid(c.row, c.event);
    hide Lineage, ValidateLineage;
    var stored := s.rows[Key(tenant, c.row.recordId)];
    assert stored.Fingerprint().status != c.row.Fingerprint().status;
  }

  /** A known candidate is planned as it is or ends the plan with a conflict; it never has to wait. */
  lemma KnownAttempt(s: State, tenant: string, c: Candidate)
    requires Inv(s) && KnownCandidate(s, tenant, c) && LineFits(s, tenant, c.row)
    ensures Attempted(s, tenant, c) ==
      if Repeatable(s, tenant, c) then Planned(Item(c.row, Some(c.event))) else Failed(SourceRecordConflict)
  {
    hide Inv, Append, Replays, Crowded, SetAside, LineFits;
    if SetAside(s, tenant, c) {
      SetAsideConflicts(s, tenant, c);
    } else if Repeatable(s, tenant, c) {
      RepeatExact(s, tenant, Item(c.row, Some(c.event)));
    } else {
      CrowdedExceeds(s, tenant, c.row, c.event);
      QuarantinedConflicts(s, tenant, c.row, EventReversalExceedsOriginal);
    }
  }

  ghost predicate AllRepeatable(s: State, tenant: string, cs: seq<Candidate>) {
    forall c <- cs :: Repeatable(s, tenant, c)
  }

  /** All pending candidates are known, and their lines are among rows that agree with the ledger. */
  ghost predicate Pending(s: State, tenant: string, pending: seq<Candidate>, rows: set<SourceRow>) {
    && (forall c <- pending :: KnownCandidate(s, tenant, c) && c.row in rows)
    && LinesAgree(s, tenant, rows)
  }

  function AsIs(cs: seq<Candidate>): (items: seq<Item>) {
    seq(|cs|, i requires 0 <= i < |cs| => Item(cs[i].row, Some(cs[i].event)))
  }

  lemma PendingNext(s: State, tenant: string, pending: seq<Candidate>, rows: set<SourceRow>, c: Candidate)
    requires Inv(s) && Pending(s, tenant, pending, rows) && c in pending && Repeatable(s, tenant, c)
    ensures
      var a := Append(s, tenant, c.row, Some(c.event));
      && a.Ok? && Inv(a.value.state) && Pending(a.value.state, tenant, RemoveFirst(pending, c), rows)
      && AllRepeatable(a.value.state, tenant, RemoveFirst(pending, c)) == AllRepeatable(s, tenant, pending)
  {
    hide Inv, Append, Replays, Crowded, SetAside, RemoveFirst;
    var rest := RemoveFirst(pending, c);
    var item := Item(c.row, Some(c.event));
    RepeatExact(s, tenant, item);
    AppendKeepsInv(s, tenant, c.row, Some(c.event));
    var t := Append(s, tenant, c.row, Some(c.event)).value.state;
    assert SameButLines(s, t);
    assert LinesAgree(t, tenant, rows);
    forall d
      ensures d in pending <==> d == c || d in rest
    {
      assert d in multiset(rest) ==> d in multiset(pending);
      assert d in multiset(pending) ==> d == c || d in multiset(rest);
    }
    hide Repeatable, KnownCandidate;
    forall d <- pending
      ensures KnownCandidate(t, tenant, d) && Repeatable(t, tenant, d) == Repeatable(s, tenant, d)
    {
      KnownAfter(s, t, tenant, d);
    }
  }

  lemma KnownAfter(s: State, t: State, tenant: string, d: Candidate)
    requires SameButLines(s, t) && LineFits(s, tenant, d.row) && LineFits(t, tenant, d.row) &&
      KnownCandidate(s, tenant, d)
    ensures KnownCandidate(t, tenant, d) && Repeatable(t, tenant, d) == Repeatable(s, tenant, d)
  {
    hide Replays, SetAside, Crowded, LineFits;
    KnownByLines(s, t, tenant, d);
  }

  lemma KnownFirst(s: State, tenant: string, pending: seq<Candidate>, rows: set<SourceRow>)
    requires Inv(s) && Pending(s, tenant, pending, rows) && pending != []
    ensures
      var c := Ordered(pending)[0];
      && c in pending
      && FirstDealt(s, tenant, Ordered(pending)) ==
         if Repeatable(s, tenant, c) then Progress(c, Item(c.row, Some(c.event))) else GaveUp(SourceRecordConflict)
  {
    hide Inv, Append, KnownCandidate, Repeatable, Attempted, Ordered;
    var ordered := Ordered(pending);
    assert |multiset(ordered)| == |multiset(pending)|;
    KnownAttempt(s, tenant, ordered[0]);
  }

  /** How planning of known candidates ends. */
  predicate EndsAsKnown(p: Planning, repeatable: bool) {
    if repeatable then p.ending == Complete && p.items == AsIs(p.processed)
    else p.ending == Aborted(SourceRecordConflict)
  }

  lemma KnownEndAfter(p: Planning, repeatable: bool, c: Candidate)
    requires EndsAsKnown(p, repeatable)
    ensures EndsAsKnown(p.After(c, Item(c.row, Some(c.event))), repeatable)
  {
  }

  /** One pass of planning, unfolded. */
  lemma KnownPass(s: State, tenant: string, pending: seq<Candidate>, rows: set<SourceRow>)
    requires Inv(s) && Pending(s, tenant, pending, rows) && pending != []
    ensures
      var c := Ordered(pending)[0];
      && c in pending
      && PlanRest(s, tenant, pending) ==
         if Repeatable(s, tenant, c) && Append(s, tenant, c.row, Some(c.event)).Ok? then
           PlanRest(Append(s, tenant, c.row, Some(c.event)).value.state, tenant, RemoveFirst(pending, c))
             .After(c, Item(c.row, Some(c.event)))
         else
           Planning([], [], pending, s, Aborted(SourceRecordConflict))
  {
    hide Inv, Append, Pending, Repeatable, FirstDealt, Ordered, RemoveFirst;
    KnownFirst(s, tenant, pending, rows);
    var c := Ordered(pending)[0];
    if Repeatable(s, tenant, c) {
      PendingNext(s, tenant, pending, rows, c);
    }
  }

  /** Planning known candidates keeps all of them as they are, or ends with a conflict. */
  lemma {:induction false} KnownRest(s: State, tenant: string, pending: seq<Candidate>, rows: set<SourceRow>)
    requires Inv(s) && Pending(s, tenant, pending, rows)
    ensures EndsAsKnown(PlanRest(s, tenant, pending), AllRepeatable(s, tenant, pending))
    decreases |pending|
  {
    if pending == [] {
      assert AsIs([]) == [];
    } else {
      var c := Ordered(pending)[0];
      hide Inv, Append, Pending, Repeatable, PlanRest, Ordered, RemoveFirst, AsIs;
      KnownPass(s, tenant, pending, rows);
      if Repeatable(s, tenant, c) {
        hide AllRepeatable, EndsAsKnown;
        PendingNext(s, tenant, pending, rows, c);
        var next := Append(s, tenant, c.row, Some(c.event)).value.state;
        KnownRest(next, tenant, RemoveFirst(pending, c), rows);
        KnownEndAfter(PlanRest(next, tenant, RemoveFirst(pending, c)), AllRepeatable(s, tenant, pending), c);
      }
    }
  }

  // ----- The theorem about a known batch

  lemma ImmediateStaged(s: State, tenant: string, immediate: seq<SourceRow>, candidates: seq<Candidate>)
    requires Inv(s) && Known(s, tenant, immediate, candidates)
    ensures AppendAll(s, tenant, RowItems(immediate)).Ok?
    ensures
      var t := AppendAll(s, tenant, RowItems(immediate)).value.state;
      && Inv(t) && Pending(t, tenant, candidates, BatchRows(immediate, candidates))
      && AllRepeatable(t, tenant, candidates) == AllRepeatable(s, tenant, candidates)
  {
    hide Inv, AppendAll, KnownCandidate, Repeatable, Held;
    var items, rows := RowItems(immediate), BatchRows(immediate, candidates);
    forall item <- items
      ensures Repeats(s, tenant, item) && item.row in rows
    {
    }
    assert ItemRows(items) <= rows;
    RepeatsAddNothing(s, tenant, items);
    BatchKeepsInv(s, tenant, items);
    var t := AppendAll(s, tenant, items).value.state;
    forall r <- rows
      ensures LineFits(t, tenant, r)
    {
      LinesStillFit(s, t, tenant, ItemRows(items), rows, r);
    }
    hide LineFits, OnlyLines, ItemRows;
    forall c <- candidates
      ensures KnownCandidate(t, tenant, c) && Repeatable(t, tenant, c) == Repeatable(s, tenant, c)
    {
      assert c.row in rows;
      KnownAfter(s, t, tenant, c);
    }
  }

  /** The plan of a batch as it was given: every row once, every candidate with its event. */
  ghost predicate PlannedAsIs(plan: seq<Item>, immediate: seq<SourceRow>, candidates: seq<Candidate>) {
    exists order: seq<Candidate> :: multiset(order) == multiset(candidates) && plan == RowItems(immediate) + AsIs(order)
  }

  /**
   A batch whose rows and candidates have all been through the ledger before is planned exactly
   as it is if every event of it is repeatable, and otherwise planning ends with a conflict.
   */
  lemma KnownPlan(s: State, tenant: string, immediate: seq<SourceRow>, candidates: seq<Candidate>)
    requires Inv(s) && Known(s, tenant, immediate, candidates)
    ensures
      var r := PlanBatch(s, tenant, immediate, candidates);
      if AllRepeatable(s, tenant, candidates) then r.Ok? && PlannedAsIs(r.value, immediate, candidates)
      else r == Err(SourceRecordConflict)
  {
    hide Inv, AppendAll, Known, AllRepeatable, AsIs;
    ImmediateStaged(s, tenant, immediate, candidates);
    var t := AppendAll(s, tenant, RowItems(immediate)).value.state;
    KnownRest(t, tenant, candidates, BatchRows(immediate, candidates));
    PlanRestSound(t, tenant, candidates);
    assert PlansWell(t, tenant, candidates, PlanRest(t, tenant, candidates));
    hide PlanRest, Pending;
  }

  lemma AsIsRepeats(s: State, tenant: string, immediate: seq<SourceRow>, candidates: seq<Candidate>, plan: seq<Item>)
    requires Known(s, tenant, immediate, candidates) && AllRepeatable(s, tenant, candidates)
    requires PlannedAsIs(plan, immediate, candidates)
    ensures forall item <- plan :: Repeats(s, tenant, item)
    ensures ItemRows(plan) == BatchRows(immediate, candidates)
    ensures |plan| == |immediate| + |candidates|
    ensures forall i :: 0 <= i < |plan| ==> (plan[i].event.Some? <==> |immediate| <= i)
  {
    hide LinesAgree, Held, Repeatable, KnownCandidate;
    var order :| multiset(order) == multiset(candidates) && plan == RowItems(immediate) + AsIs(order);
    assert |order| == |multiset(order)| == |multiset(candidates)| == |candidates|;
    forall c
      ensures c in order <==> c in candidates
    {
      assert c in multiset(order) <==> c in multiset(candidates);
    }
    assert forall i :: |immediate| <= i < |plan| ==> plan[i] == AsIs(order)[i - |immediate|];
    assert forall i :: 0 <= i < |immediate| ==> plan[i] == RowItems(immediate)[i];
    forall c <- candidates
      ensures c.row in ItemRows(plan)
    {
      var j :| 0 <= j < |order| && order[j] == c;
      assert plan[|immediate| + j].row == c.row;
    }
    forall r <- immediate
      ensures r in ItemRows(plan)
    {
      var j :| 0 <= j < |immediate| && immediate[j] == r;
      assert plan[j].row == r;
    }
  }

  /** What a second upload leaves behind: the ledger, with the lines of the batch added. */
  lemma KnownCommit(s: State, tenant: string, immediate: seq<SourceRow>, candidates: seq<Candidate>, plan: seq<Item>)
    requires Inv(s) && Known(s, tenant, immediate, candidates) && AllRepeatable(s, tenant, candidates)
    requires PlannedAsIs(plan, immediate, candidates)
    ensures AppendAll(s, tenant, plan).Ok?
    ensures
      var b := AppendAll(s, tenant, plan).value;
      OnlyLines(s, b.state, tenant, BatchRows(immediate, candidates)) &&
        AllDuplicates(b.results, |immediate| + |candidates|)
  {
    hide Inv, AppendAll, OnlyLines, AllRepeatable;
    AsIsRepeats(s, tenant, immediate, candidates, plan);
    RepeatsAddNothing(s, tenant, plan);
  }

  // ----- A batch that was ingested is known ever after

  /** Nothing was taken away or changed, whatever was added. */
  ghost predicate Grown(s: State, t: State) {
    && Extends(s, t)
    && (forall l <- s.locators :: l in t.locators && t.locators[l] == s.locators[l])
  }

  /** The ledger holds the item's row under its line and, if it has one, its event. */
  ghost predicate HoldsItem(s: State, tenant: string, item: Item) {
    var l := RowLocator(tenant, item.row);
    && item.row.tenantId == tenant && Held(s, tenant, item.row)
    && l in s.locators && s.locators[l] == item.row.recordId
    && (item.event.Some? ==>
          && item.event.value.recordId == item.row.recordId
          && Key(tenant, item.event.value.eventId) in s.byId
          && s.byId[Key(tenant, item.event.value.eventId)] == item.event.value)
  }

  lemma AppendGrows(s: State, tenant: string, item: Item)
    requires Append(s, tenant, item.row, item.event).Ok?
    ensures
      var t := Append(s, tenant, item.row, item.event).value.state;
      Grown(s, t) && HoldsItem(t, tenant, item)
  {
    AppendExact(s, tenant, item.row, item.event);
    hide CheckAppend, SuccessionFits, TargetFits, RoomFor;
  }

  lemma StillHolds(s: State, t: State, tenant: string, item: Item)
    requires Grown(s, t) && HoldsItem(s, tenant, item)
    ensures HoldsItem(t, tenant, item)
  {
  }

  lemma GrownOn(s: State, t: State, u: State)
    requires Grown(s, t) && Grown(t, u)
    ensures Grown(s, u)
  {
  }

  /** A batch takes nothing away, and the ledger holds every item of it from then on. */
  lemma {:induction false} BatchGrows(s: State, tenant: string, items: seq<Item>)
    requires AppendAll(s, tenant, items).Ok?
    ensures Grown(s, AppendAll(s, tenant, items).value.state)
    ensures forall item <- items :: HoldsItem(AppendAll(s, tenant, items).value.state, tenant, item)
  {
    hide Append;
    if items == [] {
    } else {
      var before, last := items[..|items| - 1], items[|items| - 1];
      BatchGrows(s, tenant, before);
      var t := AppendAll(s, tenant, before).value.state;
      AppendGrows(t, tenant, last);
      var u := AppendAll(s, tenant, items).value.state;
      assert items == before + [last];
      GrownOn(s, t, u);
      hide Grown, HoldsItem;
      forall item <- before
        ensures HoldsItem(u, tenant, item)
      {
        StillHolds(t, u, tenant, item);
      }
    }
  }

  /** What became of a candidate: its event was planned, or its row without it, in its place. */
  predicate CameTo(c: Candidate, item: Item) {
    if item.event.Some? then
      item == Item(c.row, Some(c.event))
    else
      && Lineage(c.row, c.event) && item.row.status == RowStatus.Quarantined
      && item.row.recordId == c.row.recordId && item.row.tenantId == c.row.tenantId
      && item.row.rawFileId == c.row.rawFileId && item.row.rowNumber == c.row.rowNumber
  }

  lemma QuarantinedHadLineage(s: State, tenant: string, c: Candidate)
    requires Append(s, tenant, c.row, Some(c.event)).Err?
    requires Append(s, tenant, c.row, Some(c.event)).error in ROW_QUARANTINE_CODES
    ensures Lineage(c.row, c.event)
  {
    LineageExact(c.row, c.event);
    hide Lineage, CheckEvent;
  }

  lemma PlannedCameTo(s: State, tenant: string, c: Candidate)
    ensures Attempted(s, tenant, c).Planned? ==> CameTo(c, Attempted(s, tenant, c).item)
  {
    hide Append, Lineage;
    var r := Append(s, tenant, c.row, Some(c.event));
    if r.Err? && r.error in ROW_QUARANTINE_CODES {
      QuarantinedHadLineage(s, tenant, c);
    }
  }

  /** Each candidate of a planned batch has an item that it came to. */
  lemma EachCandidatePlanned(s: State, tenant: string, immediate: seq<SourceRow>, candidates: seq<Candidate>,
                             c: Candidate)
    requires PlanBatch(s, tenant, immediate, candidates).Ok? && c in candidates
    ensures exists item <- PlanBatch(s, tenant, immediate, candidates).value :: CameTo(c, item)
  {
    hide Append, AppendAll, PlanRest, CameTo, AllWait;
    var t := AppendAll(s, tenant, RowItems(immediate)).value.state;
    var p, plan := PlanRest(t, tenant, candidates), PlanBatch(s, tenant, immediate, candidates).value;
    PlanRestSound(t, tenant, candidates);
    assert multiset(p.processed) == multiset(candidates);
    assert c in multiset(candidates);
    var i :| 0 <= i < |p.processed| && p.processed[i] == c;
    TakenInOrder(t, tenant, candidates, i);
    PlannedCameTo(StateBefore(t, tenant, p.items, i), tenant, c);
    assert plan[|immediate| + i] == p.items[i];
  }

  lemma EachRowPlanned(s: State, tenant: string, immediate: seq<SourceRow>, candidates: seq<Candidate>, r: SourceRow)
    requires PlanBatch(s, tenant, immediate, candidates).Ok? && r in immediate
    ensures Item(r, None) in PlanBatch(s, tenant, immediate, candidates).value
  {
    hide AppendAll, PlanRest;
    var i :| 0 <= i < |immediate| && immediate[i] == r;
    assert PlanBatch(s, tenant, immediate, candidates).value[i] == Item(r, None);
  }

  /** The same line of the same file, uploaded as `raw` and ingested at `at`. */
  function Restamped(row: SourceRow, raw: string, at: int): SourceRow {
    row.(rawFileId := raw, ingestedAt := at)
  }

  function RowsAgain(rows: seq<SourceRow>, raw: string, at: int): seq<SourceRow> {
    seq(|rows|, i requires 0 <= i < |rows| => Restamped(rows[i], raw, at))
  }

  function CandidateAgain(c: Candidate, raw: string, at: int): Candidate {
    c.(row := Restamped(c.row, raw, at))
  }

  function CandidatesAgain(cs: seq<Candidate>, raw: string, at: int): seq<Candidate> {
    seq(|cs|, i requires 0 <= i < |cs| => CandidateAgain(cs[i], raw, at))
  }

  /** The ledger keeps a planned row under its line, in its content or as quarantined. */
  ghost predicate LineKept(t: State, tenant: string, r: SourceRow) {
    RowLocator(tenant, r) in t.locators && t.locators[RowLocator(tenant, r)] == r.recordId
  }

  ghost predicate FreeFile(t: State, tenant: string, raw: string) {
    forall l <- t.locators :: l.tenant != tenant || l.rawFileId != raw
  }

  lemma LineAgain(t: State, tenant: string, rows: set<SourceRow>, first: string, raw: string, at: int,
                  again: set<SourceRow>)
    requires forall r <- rows :: LineKept(t, tenant, r) && r.rawFileId == first
    requires raw == first || FreeFile(t, tenant, raw)
    requires again == set r | r in rows :: Restamped(r, raw, at)
    ensures LinesAgree(t, tenant, again)
  {
    forall a <- again
      ensures LineFits(t, tenant, a)
    {
      var r :| r in rows && a == Restamped(r, raw, at);
      assert LineKept(t, tenant, r);
    }
    forall a <- again, b <- again | RowLocator(tenant, a) == RowLocator(tenant, b)
      ensures a.recordId == b.recordId
    {
      var r :| r in rows && a == Restamped(r, raw, at);
      var q :| q in rows && b == Restamped(q, raw, at);
      assert LineKept(t, tenant, r) && LineKept(t, tenant, q);
      assert RowLocator(tenant, r) == RowLocator(tenant, q);
    }
  }

  lemma CandidateKnownAgain(t: State, tenant: string, c: Candidate, item: Item, raw: string, at: int)
    requires CameTo(c, item) && HoldsItem(t, tenant, item) && LineFits(t, tenant, Restamped(c.row, raw, at))
    ensures KnownCandidate(t, tenant, CandidateAgain(c, raw, at))
    ensures LineKept(t, tenant, c.row)
    ensures Replays(t, tenant, Restamped(c.row, raw, at), c.event) <==> item.event.Some?
  {
    assert Restamped(c.row, raw, at).Fingerprint() == c.row.Fingerprint();
    assert Lineage(Restamped(c.row, raw, at), c.event) == Lineage(c.row, c.event);
    assert t.rows[Key(tenant, item.row.recordId)].Fingerprint().status == item.row.Fingerprint().status;
    if item.event.None? {
      StoredIsValid(c.row, c.event);
      SetAsideConflicts(t, tenant, CandidateAgain(c, raw, at));
    }
    hide Lineage;
  }

  lemma ItemLine(t: State, tenant: string, c: Candidate, item: Item)
    requires CameTo(c, item) && HoldsItem(t, tenant, item)
    ensures LineKept(t, tenant, c.row)
  {
    hide Lineage, Held;
  }

  /** `t` is a ledger in which the plan for the batch was committed, whatever came before or after. */
  ghost predicate Ingested(t: State, tenant: string, immediate: seq<SourceRow>, candidates: seq<Candidate>,
                           plan: seq<Item>)
  {
    && (exists s :: PlanBatch(s, tenant, immediate, candidates) == Ok(plan))
    && (exists u :: AppendAll(u, tenant, plan).Ok? && Grown(AppendAll(u, tenant, plan).value.state, t))
  }

  lemma IngestedItems(t: State, tenant: string, immediate: seq<SourceRow>, candidates: seq<Candidate>, plan: seq<Item>)
    requires Ingested(t, tenant, immediate, candidates, plan)
    ensures forall item <- plan :: HoldsItem(t, tenant, item)
    ensures forall r <- immediate :: Item(r, None) in plan
    ensures forall c <- candidates :: exists item <- plan :: CameTo(c, item)
  {
    hide PlanBatch, AppendAll, CameTo;
    var s :| PlanBatch(s, tenant, immediate, candidates) == Ok(plan);
    forall r <- immediate {
      EachRowPlanned(s, tenant, immediate, candidates, r);
    }
    forall c <- candidates
      ensures exists item <- plan :: CameTo(c, item)
    {
      EachCandidatePlanned(s, tenant, immediate, candidates, c);
    }
    var u :| AppendAll(u, tenant, plan).Ok? && Grown(AppendAll(u, tenant, plan).value.state, t);
    hide Grown, HoldsItem;
    BatchGrows(u, tenant, plan);
    forall item <- plan {
      StillHolds(AppendAll(u, tenant, plan).value.state, t, tenant, item);
    }
  }

  lemma LinesKept(t: State, tenant: string, immediate: seq<SourceRow>, candidates: seq<Candidate>, plan: seq<Item>)
    requires Ingested(t, tenant, immediate, candidates, plan)
    ensures forall r <- BatchRows(immediate, candidates) :: LineKept(t, tenant, r)
  {
    hide Ingested, CameTo, LineKept;
    IngestedItems(t, tenant, immediate, candidates, plan);
    forall r <- immediate
      ensures LineKept(t, tenant, r)
    {
      assert HoldsItem(t, tenant, Item(r, None));
      KeptByRow(t, tenant, r);
    }
    hide HoldsItem;
    forall c <- candidates
      ensures LineKept(t, tenant, c.row)
    {
      var item :| item in plan && CameTo(c, item);
      ItemLine(t, tenant, c, item);
    }
  }

  lemma KeptByRow(t: State, tenant: string, r: SourceRow)
    requires HoldsItem(t, tenant, Item(r, None))
    ensures LineKept(t, tenant, r)
  {
  }

  /** The rows of a batch uploaded again are the restamped rows of the batch. */
  lemma RowsOfAgain(immediate: seq<SourceRow>, candidates: seq<Candidate>, raw: string, at: int)
    ensures BatchRows(RowsAgain(immediate, raw, at), CandidatesAgain(candidates, raw, at)) ==
      set r | r in BatchRows(immediate, candidates) :: Restamped(r, raw, at)
  {
    var again := BatchRows(RowsAgain(immediate, raw, at), CandidatesAgain(candidates, raw, at));
    forall r <- immediate
      ensures Restamped(r, raw, at) in again
    {
      var i :| 0 <= i < |immediate| && immediate[i] == r;
      assert RowsAgain(immediate, raw, at)[i] == Restamped(r, raw, at);
    }
    forall c <- candidates
      ensures Restamped(c.row, raw, at) in again
    {
      var i :| 0 <= i < |candidates| && candidates[i] == c;
      assert CandidatesAgain(candidates, raw, at)[i] == CandidateAgain(c, raw, at);
      assert CandidateAgain(c, raw, at) in CandidatesAgain(candidates, raw, at);
    }
  }

  lemma HeldByItem(t: State, tenant: string, r: SourceRow, raw: string, at: int)
    requires HoldsItem(t, tenant, Item(r, None))
    ensures Held(t, tenant, Restamped(r, raw, at))
  {
    assert Restamped(r, raw, at).Fingerprint() == r.Fingerprint();
  }

  lemma OneKnownAgain(t: State, tenant: string, c: Candidate, plan: seq<Item>, raw: string, at: int)
    requires (forall item <- plan :: HoldsItem(t, tenant, item)) && (exists item <- plan :: CameTo(c, item))
    requires LineFits(t, tenant, Restamped(c.row, raw, at))
    ensures KnownCandidate(t, tenant, CandidateAgain(c, raw, at))
    ensures Replays(t, tenant, Restamped(c.row, raw, at), c.event) <==> Item(c.row, Some(c.event)) in plan
  {
    var whole := Item(c.row, Some(c.event));
    assert CameTo(c, whole);
    var item :| item in plan && CameTo(c, item);
    assert item.event.Some? ==> item == whole;
    hide CameTo, HoldsItem, KnownCandidate, Replays, LineFits;
    CandidateKnownAgain(t, tenant, c, item, raw, at);
    if whole in plan {
      CandidateKnownAgain(t, tenant, c, whole, raw, at);
    }
  }

  /** The candidate is known again, and replays exactly when its event was planned. */
  ghost predicate SeenAgain(t: State, tenant: string, c: Candidate, plan: seq<Item>, raw: string, at: int) {
    && KnownCandidate(t, tenant, CandidateAgain(c, raw, at))
    && (Replays(t, tenant, Restamped(c.row, raw, at), c.event) <==> Item(c.row, Some(c.event)) in plan)
  }

  lemma BatchKnownAgain(t: State, tenant: string, immediate: seq<SourceRow>, candidates: seq<Candidate>,
                        plan: seq<Item>, raw: string, at: int)
    requires Ingested(t, tenant, immediate, candidates, plan)
    requires forall r <- immediate :: r.status == RowStatus.Quarantined
    requires LinesAgree(t, tenant, BatchRows(RowsAgain(immediate, raw, at), CandidatesAgain(candidates, raw, at)))
    ensures forall r <- RowsAgain(immediate, raw, at) :: r.status == RowStatus.Quarantined && Held(t, tenant, r)
    ensures forall i :: 0 <= i < |candidates| ==> SeenAgain(t, tenant, candidates[i], plan, raw, at)
  {
    hide Ingested, CameTo, HoldsItem, Held, Replays, LineFits, KnownCandidate;
    IngestedItems(t, tenant, immediate, candidates, plan);
    forall r <- RowsAgain(immediate, raw, at)
      ensures r.status == RowStatus.Quarantined && Held(t, tenant, r)
    {
      var i :| 0 <= i < |immediate| && r == Restamped(immediate[i], raw, at);
      HeldByItem(t, tenant, immediate[i], raw, at);
    }
    forall i | 0 <= i < |candidates|
      ensures SeenAgain(t, tenant, candidates[i], plan, raw, at)
    {
      assert candidates[i] in candidates;
      var again := CandidatesAgain(candidates, raw, at);
      assert again[i] == CandidateAgain(candidates[i], raw, at);
      assert again[i] in again && again[i].row == Restamped(candidates[i].row, raw, at);
      OneKnownAgain(t, tenant, candidates[i], plan, raw, at);
    }
  }

  lemma RepeatableAgain(t: State, tenant: string, candidates: seq<Candidate>, plan: seq<Item>, raw: string, at: int)
    requires forall i :: 0 <= i < |candidates| ==> SeenAgain(t, tenant, candidates[i], plan, raw, at)
    ensures forall c <- CandidatesAgain(candidates, raw, at) :: KnownCandidate(t, tenant, c)
    ensures AllRepeatable(t, tenant, CandidatesAgain(candidates, raw, at)) <==>
      forall c <- candidates :: Item(c.row, Some(c.event)) in plan && !Crowded(t, tenant, c.event)
  {
    hide KnownCandidate, Replays, Crowded;
    var again := CandidatesAgain(candidates, raw, at);
    forall i | 0 <= i < |candidates|
      ensures again[i] == CandidateAgain(candidates[i], raw, at) && again[i] in again
      ensures Repeatable(t, tenant, again[i]) <==>
        Item(candidates[i].row, Some(candidates[i].event)) in plan && !Crowded(t, tenant, candidates[i].event)
    {
      assert SeenAgain(t, tenant, candidates[i], plan, raw, at);
    }
    hide *;
  }

  /**
   A file ingested once is known when it is uploaded again, under its own or a new raw identifier
   and at any time, whatever else was appended since. It comes back as duplicates exactly when
   no candidate of it was quarantined by the plan and no return of it has been crowded out.
   */
  lemma SecondUpload(t: State, tenant: string, immediate: seq<SourceRow>, candidates: seq<Candidate>, plan: seq<Item>,
                     first: string, raw: string, at: int)
    requires Inv(t) && Ingested(t, tenant, immediate, candidates, plan)
    requires forall r <- immediate :: r.status == RowStatus.Quarantined
    requires forall r <- BatchRows(immediate, candidates) :: r.rawFileId == first
    requires raw == first || FreeFile(t, tenant, raw)
    ensures Known(t, tenant, RowsAgain(immediate, raw, at), CandidatesAgain(candidates, raw, at))
    ensures AllRepeatable(t, tenant, CandidatesAgain(candidates, raw, at)) <==>
      forall c <- candidates :: Item(c.row, Some(c.event)) in plan && !Crowded(t, tenant, c.event)
  {
    hide Inv, Ingested, Crowded, LineKept, LinesAgree, FreeFile, KnownCandidate, SeenAgain, AllRepeatable, BatchRows,
      Held;
    var rows := BatchRows(immediate, candidates);
    LinesKept(t, tenant, immediate, candidates, plan);
    RowsOfAgain(immediate, candidates, raw, at);
    LineAgain(t, tenant, rows, first, raw, at, set r | r in rows :: Restamped(r, raw, at));
    BatchKnownAgain(t, tenant, immediate, candidates, plan, raw, at);
    RepeatableAgain(t, tenant, candidates, plan, raw, at);
  }

  /** Planning a second upload, in terms of the first. */
  lemma SecondPlan(t: State, tenant: string, immediate: seq<SourceRow>, candidates: seq<Candidate>, plan: seq<Item>,
                   first: string, raw: string, at: int)
    requires Inv(t) && Ingested(t, tenant, immediate, candidates, plan)
    requires forall r <- immediate :: r.status == RowStatus.Quarantined
    requires forall r <- BatchRows(immediate, candidates) :: r.rawFileId == first
    requires raw == first || FreeFile(t, tenant, raw)
    ensures
      var rows, again := RowsAgain(immediate, raw, at), CandidatesAgain(candidates, raw, at);
      var second := PlanBatch(t, tenant, rows, again);
      && (second.Ok? <==> forall c <- candidates :: Item(c.row, Some(c.event)) in plan && !Crowded(t, tenant, c.event))
      && (second.Err? ==> second.error == SourceRecordConflict)
      && (second.Ok? ==>
            && AppendAll(t, tenant, second.value).Ok?
            && OnlyLines(t, AppendAll(t, tenant, second.value).value.state, tenant, BatchRows(rows, again)))
  {
    hide Inv, Ingested, Crowded, FreeFile, PlanBatch, AppendAll, Known, AllRepeatable, BatchRows, PlannedAsIs,
      OnlyLines;
    var rows, again := RowsAgain(immediate, raw, at), CandidatesAgain(candidates, raw, at);
    SecondUpload(t, tenant, immediate, candidates, plan, first, raw, at);
    KnownPlan(t, tenant, rows, again);
    if AllRepeatable(t, tenant, again) {
      KnownCommit(t, tenant, rows, again, PlanBatch(t, tenant, rows, again).value);
    }
  }
}
