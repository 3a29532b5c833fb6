/** The ingestor: a plan is worked out on a fork of the ledger and then committed to the ledger. */
module Ingest {
  import opened Base
  import opened LedgerModel
  import opened LedgerInvariants
  import opened LedgerReplay
  import opened Ledger
  import opened IngestModel
  import opened IngestTheorems
  import opened IngestCounts
  import opened Reupload

  /** Where planning goes on after what has been dealt with so far. */
  ghost predicate OnTheWay(start: State, tenant: string, candidates: seq<Candidate>,
                           planned: seq<Item>, now: State, pending: seq<Candidate>) {
    var all, rest := PlanRest(start, tenant, candidates), PlanRest(now, tenant, pending);
    all.items == planned + rest.items && all.ending == rest.ending
  }

  lemma OnePass(start: State, tenant: string, candidates: seq<Candidate>, planned: seq<Item>, now: State,
                pending: seq<Candidate>, c: Candidate, item: Item)
    requires OnTheWay(start, tenant, candidates, planned, now, pending) && pending != []
    requires FirstDealt(now, tenant, Ordered(pending)) == Progress(c, item)
    ensures c in pending && Append(now, tenant, item.row, item.event).Ok?
    ensures OnTheWay(start, tenant, candidates, planned + [item],
                     Append(now, tenant, item.row, item.event).value.state, RemoveFirst(pending, c))
  {
    hide Append, FirstDealt, Ordered, RemoveFirst;
    var rest := PlanRest(Append(now, tenant, item.row, item.event).value.state, tenant, RemoveFirst(pending, c));
    assert planned + ([item] + rest.items) == (planned + [item]) + rest.items;
  }

  lemma FirstPass(start: State, tenant: string, candidates: seq<Candidate>)
    ensures OnTheWay(start, tenant, candidates, [], start, candidates)
  {
  }

  lemma PlanBatchFrom(s: State, tenant: string, immediate: seq<SourceRow>, candidates: seq<Candidate>)
    ensures match AppendAll(s, tenant, RowItems(immediate))
      case Err(code) => PlanBatch(s, tenant, immediate, candidates) == Err(code)
      case Ok(b) => (
        var p := PlanRest(b.state, tenant, candidates);
        PlanBatch(s, tenant, immediate, candidates) ==
        match p.ending
        case Complete => Ok(RowItems(immediate) + p.items)
        case Unresolved => Err(BatchDependencyUnresolved)
        case Aborted(code) => Err(code))
  {
    hide AppendAll, PlanRest;
  }

  /** How planning ends, seen from where the last pass left it. */
  lemma LastPass(start: State, tenant: string, candidates: seq<Candidate>, planned: seq<Item>, now: State,
                 pending: seq<Candidate>)
    requires OnTheWay(start, tenant, candidates, planned, now, pending)
    ensures
      var p := PlanRest(start, tenant, candidates);
      if pending == [] then p.ending == Complete && p.items == planned
      else match FirstDealt(now, tenant, Ordered(pending))
        case Stuck => p.ending == Unresolved
        case GaveUp(code) => p.ending == Aborted(code)
        case Progress(_, _) => true
  {
    hide Append, FirstDealt, Ordered, RemoveFirst;
  }

  class SyntheticCsvCanonicalIngestor {
    const ledger: InMemoryCanonicalLedger

    constructor (ledger: InMemoryCanonicalLedger)
      ensures this.ledger == ledger
    {
      this.ledger := ledger;
    }

    /** The `try` around one candidate: plan it, quarantine it, leave it for later, or give up. */
    method Try(staging: InMemoryCanonicalLedger, tenant: string, c: Candidate) returns (a: Attempt)
      requires staging.Valid()
      modifies staging
      ensures staging.Valid()
      ensures a == Attempted(old(staging.Contents()), tenant, c)
      ensures staging.Contents() ==
        if a.Planned? then Append(old(staging.Contents()), tenant, a.item.row, a.item.event).value.state
        else old(staging.Contents())
    {
      hide Inv, Append;
      var one := staging.AppendLocked(tenant, c.row, Some(c.event));
      if one.Ok? {
        return Planned(Item(c.row, Some(c.event)));
      }
      if one.error in MISSING_DEPENDENCY_CODES {
        return Missing;
      }
      if one.error !in ROW_QUARANTINE_CODES {
        return Failed(one.error);
      }
      var row := Quarantine(c.row, one.error);
      var two := staging.AppendLocked(tenant, row, None);
      if two.Err? {
        return Failed(two.error);
      }
      return Planned(Item(row, None));
    }

    /** The inner loop of `_resolve_batch`: the first candidate, in order, that can be dealt with. */
    method TryInOrder(staging: InMemoryCanonicalLedger, tenant: string, ordered: seq<Candidate>) returns (p: Pass)
      requires staging.Valid()
      modifies staging
      ensures staging.Valid()
      ensures p == FirstDealt(old(staging.Contents()), tenant, ordered)
      ensures staging.Contents() ==
        if p.Progress? then Append(old(staging.Contents()), tenant, p.item.row, p.item.event).value.state
        else old(staging.Contents())
    {
      hide Inv, Append, Attempted;
      for j := 0 to |ordered|
        invariant staging.Valid() && staging.Contents() == old(staging.Contents())
        invariant FirstDealt(staging.Contents(), tenant, ordered[j..]) ==
          FirstDealt(staging.Contents(), tenant, ordered)
      {
        assert ordered[j..][0] == ordered[j] && ordered[j..][1..] == ordered[j + 1..];
        var a := Try(staging, tenant, ordered[j]);
        match a {
          case Missing =>
          case Failed(code) =>
            return GaveUp(code);
          case Planned(item) =>
            return Progress(ordered[j], item);
        }
      }
      return Stuck;
    }

    /** The rows that normalisation refused are staged first. */
    method StageImmediate(staging: InMemoryCanonicalLedger, tenant: string, immediate: seq<SourceRow>)
      returns (r: Result<seq<Item>, Code>)
      requires staging.Valid()
      modifies staging
      ensures staging.Valid()
      ensures match AppendAll(old(staging.Contents()), tenant, RowItems(immediate))
        case Err(code) => r == Err(code)
        case Ok(b) => r == Ok(RowItems(immediate)) && staging.Contents() == b.state
    {
      hide Inv, Append;
      ghost var start, items := staging.Contents(), RowItems(immediate);
      var planned: seq<Item> := [];
      for i := 0 to |immediate|
        invariant staging.Valid() && planned == items[..i]
        invariant AppendAll(start, tenant, items[..i]).Ok?
        invariant AppendAll(start, tenant, items[..i]).value.state == staging.Contents()
      {
        assert items[..i + 1][..i] == items[..i] && items[..i + 1][i] == Item(immediate[i], None);
        var one := staging.AppendLocked(tenant, immediate[i], None);
        if one.Err? {
          FailureSticks(start, tenant, items, i + 1);
          return Err(one.error);
        }
        planned := planned + [Item(immediate[i], None)];
      }
      assert items[..|immediate|] == items;
      return Ok(planned);
    }

    /** `_resolve_batch`: the ledger itself is only read. */
    method ResolveBatch(tenant: string, immediate: seq<SourceRow>, candidates: seq<Candidate>)
      returns (r: Result<seq<Item>, Code>)
      requires ledger.Valid()
      ensures r == PlanBatch(ledger.Contents(), tenant, immediate, candidates)
    {
      hide *;
      var staging := ledger.Fork();
      ghost var before := ledger.Contents();
      var begun := StageImmediate(staging, tenant, immediate);
      PlanBatchFrom(before, tenant, immediate, candidates);
      if begun.Err? {
        return Err(begun.error);
      }
      ghost var start := staging.Contents();
      var planned: seq<Item> := [];
      var pending := candidates;
      FirstPass(start, tenant, candidates);
      while pending != []
        invariant staging.Valid() && fresh(staging)
        invariant OnTheWay(start, tenant, candidates, planned, staging.Contents(), pending)
        decreases |pending|
      {
        ghost var now := staging.Contents();
        var p := TryInOrder(staging, tenant, Ordered(pending));
        LastPass(start, tenant, candidates, planned, now, pending);
        match p {
          case Stuck =>
            return Err(BatchDependencyUnresolved);
          case GaveUp(code) =>
            return Err(code);
          case Progress(candidate, item) =>
            OnePass(start, tenant, candidates, planned, now, pending, candidate, item);
            planned := planned + [item];
            pending := RemoveFirst(pending, candidate);
        }
      }
      LastPass(start, tenant, candidates, planned, staging.Contents(), pending);
      return Ok(begun.value + planned);
    }

    /**
     The commit of `ingest`: the plan goes to the ledger as one batch, whatever other ingests
     have appended since it was made, and the outcome is counted.
     */
    method Commit(tenant: string, plan: seq<Item>) returns (r: Result<ImportResult, Code>)
      requires ledger.Valid()
      modifies ledger
      ensures ledger.Valid()
      ensures match AppendAll(old(ledger.Contents()), tenant, plan)
        case Err(code) => r == Err(code) && ledger.Contents() == old(ledger.Contents())
        case Ok(b) => (
          && r.Ok? && ledger.Contents() == b.state && Balanced(r.value, plan)
          && |b.results| == |plan| && Tallied(r.value, plan, b.results)
          && |b.state.rows| == |old(ledger.Contents()).rows| + r.value.insertedSourceRows
          && |b.state.byId| == |old(ledger.Contents()).byId| + r.value.insertedEvents)
    {
      hide Inv, Append, AppendAll, Count;
      ghost var before := ledger.Contents();
      var appended := ledger.AppendBatch(tenant, plan);
      if appended.Err? {
        return Err(appended.error);
      }
      var results := appended.value;
      BatchGrowth(before, tenant, plan);
      InsertedOnlyWithEvent(before, tenant, plan);
      var pairs := Zip(plan, results);
      var eventPairs, quarantinePairs := Select(pairs, true), Select(pairs, false);
      CountsAddUp(plan, results);
      QuarantinedAmongInserted(plan, results);
      RowsTally(results);
      EventsTally(plan, results);
      QuarantinedTally(plan, results);
      var insertedRows, insertedEvents := Count(results, RowInserted), Count(results, EventInserted);
      var insertedQuarantined := Count(quarantinePairs, PairRowInserted);
      return Ok(ImportResult(
        |plan|, insertedRows, insertedEvents, |results| - insertedRows, Count(eventPairs, PairEventDuplicate),
        |quarantinePairs|, insertedQuarantined, |quarantinePairs| - insertedQuarantined, EventIds(plan)));
    }

    /**
     `ingest`, from the normalised rows on. A batch that has been through the ledger before comes
     back as duplicates if every event of it is repeatable, and is otherwise refused as a conflict.
     */
    method Ingest(tenant: string, prepared: seq<Prepared>) returns (r: Result<ImportResult, Code>)
      requires ledger.Valid()
      modifies ledger
      ensures ledger.Valid()
      ensures match PlanBatch(old(ledger.Contents()), tenant, Immediates(prepared), Candidates(prepared))
        case Err(code) => r == Err(code) && ledger.Contents() == old(ledger.Contents())
        case Ok(plan) => (
          && r.Ok? && Balanced(r.value, plan) && r.value.totalRows == |prepared|
          && AppendAll(old(ledger.Contents()), tenant, plan).Ok?
          && ledger.Contents() == AppendAll(old(ledger.Contents()), tenant, plan).value.state
          && |ledger.Contents().rows| == |old(ledger.Contents()).rows| + r.value.insertedSourceRows
          && |ledger.Contents().byId| == |old(ledger.Contents()).byId| + r.value.insertedEvents)
      ensures Known(old(ledger.Contents()), tenant, Immediates(prepared), Candidates(prepared)) ==>
        if AllRepeatable(old(ledger.Contents()), tenant, Candidates(prepared)) then
          && r.Ok? && OnlyDuplicates(r.value, |Immediates(prepared)|, |Candidates(prepared)|)
          && OnlyLines(old(ledger.Contents()), ledger.Contents(), tenant,
                       BatchRows(Immediates(prepared), Candidates(prepared)))
        else
          r == Err(SourceRecordConflict) && ledger.Contents() == old(ledger.Contents())
    {
      hide Inv, Append, AppendAll, Count, Known, AllRepeatable, PlanBatch, OnlyLines, PlannedAsIs, EventIds, BatchRows;
      var immediate: seq<SourceRow>, candidates: seq<Candidate> := [], [];
      for i := 0 to |prepared|
        invariant immediate == Immediates(prepared[..i]) && candidates == Candidates(prepared[..i])
        invariant |immediate| + |candidates| == i
      {
        assert prepared[..i + 1][..i] == prepared[..i];
        match prepared[i] {
          case Immediate(row) => immediate := immediate + [row];
          case Normalized(c) => candidates := candidates + [c];
        }
      }
      assert prepared[..|prepared|] == prepared;
      hide Immediates, Candidates;
      ghost var before := ledger.Contents();
      var plan := ResolveBatch(tenant, immediate, candidates);
      KnownOutcome(before, tenant, immediate, candidates);
      if plan.Err? {
        return Err(plan.error);
      }
      PlanBatchSound(before, tenant, immediate, candidates);
      r := Commit(tenant, plan.value);
    }
  }

  /** Every count of the import is a count of duplicates. */
  predicate OnlyDuplicates(c: ImportResult, rows: nat, events: nat) {
    && c.insertedSourceRows == 0 && c.insertedEvents == 0 && c.insertedQuarantinedRows == 0
    && c.duplicateSourceRows == c.totalRows == rows + events
    && c.duplicateEvents == events && c.duplicateQuarantinedRows == rows
  }

  /** A known batch, from its plan to the counts of its import. */
  lemma KnownOutcome(s: State, tenant: string, immediate: seq<SourceRow>, candidates: seq<Candidate>)
    requires Inv(s)
    ensures Known(s, tenant, immediate, candidates) ==>
      var plan := PlanBatch(s, tenant, immediate, candidates);
      if AllRepeatable(s, tenant, candidates) then
        && plan.Ok? && |plan.value| == |immediate| + |candidates| && |EventIds(plan.value)| == |candidates|
        && AppendAll(s, tenant, plan.value).Ok?
        && OnlyLines(s, AppendAll(s, tenant, plan.value).value.state, tenant, BatchRows(immediate, candidates))
        && SameButLines(s, AppendAll(s, tenant, plan.value).value.state)
      else
        plan == Err(SourceRecordConflict)
  {
    hide Inv, AppendAll, Known, PlanBatch, PlannedAsIs, EventIds, BatchRows, AllRepeatable;
    if Known(s, tenant, immediate, candidates) {
      KnownPlan(s, tenant, immediate, candidates);
      if AllRepeatable(s, tenant, candidates) {
        var plan := PlanBatch(s, tenant, immediate, candidates).value;
        KnownCommit(s, tenant, immediate, candidates, plan);
        AsIsRepeats(s, tenant, immediate, candidates, plan);
        EventsAfterRows(plan, |immediate|);
      }
    }
  }
}
