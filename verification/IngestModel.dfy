/** Batch ingestion on values: candidates, the order they are tried in, and what planning a batch comes to. */
module IngestModel {
  import opened Base
  import opened Sorting
  import opened LedgerModel

  datatype Candidate = Candidate(row: SourceRow, event: Event)

  /** A CSV row after normalisation: quarantined at once, or a candidate event. */
  datatype Prepared = Immediate(row: SourceRow) | Normalized(candidate: Candidate)

  datatype ImportResult = ImportResult(
    totalRows: nat,
    insertedSourceRows: nat,
    insertedEvents: nat,
    duplicateSourceRows: nat,
    duplicateEvents: nat,
    quarantinedRows: nat,
    insertedQuarantinedRows: nat,
    duplicateQuarantinedRows: nat,
    eventIds: seq<string>)

  const MISSING_DEPENDENCY_CODES := {EventSupersededTargetMissing, EventReversalTargetMissing}
  const ROW_QUARANTINE_CODES := {
    EventSupersessionInvalid, EventReversalInvalid, EventReversalRequired,
    EventReversalExceedsOriginal, EventReversalUnitMismatch
  }

  function Quarantine(row: SourceRow, code: Code): SourceRow {
    row.(status := RowStatus.Quarantined, diagnostics := [Refused(code)])
  }

  // ----- The order in which candidates are tried

  function SupersededTargets(pending: seq<Candidate>): set<string> {
    set c | c in pending && c.event.supersedes.Some? :: c.event.supersedes.value
  }

  function Rank(c: Candidate, targets: set<string>): int {
    if c.event.supersedes.Some? then 0 else if c.event.eventId in targets then 1 else 2
  }

  function Moment(i: Instant): int {
    match i case Aware(t) => t case Naive(t) => t
  }

  /** `_candidate_order`, as a comparison. */
  predicate TriedBefore(a: Candidate, b: Candidate, targets: set<string>) {
    var ra, rb := Rank(a, targets), Rank(b, targets);
    var ta, tb := Moment(a.event.recognitionTime), Moment(b.event.recognitionTime);
    ra < rb || (ra == rb && (ta < tb || (ta == tb && TextLe(a.event.eventId, b.event.eventId))))
  }

  function Ordered(pending: seq<Candidate>): (r: seq<Candidate>)
    ensures multiset(r) == multiset(pending)
    ensures forall c <- r :: c in pending
  {
    SortMembers(pending, Order(SupersededTargets(pending)));
    Sort(pending, Order(SupersededTargets(pending)))
  }

  function Order(targets: set<string>): (Candidate, Candidate) -> bool {
    (a: Candidate, b: Candidate) => TriedBefore(a, b, targets)
  }

  // ----- Planning

  /** What trying one candidate on the staging ledger comes to. */
  datatype Attempt = Planned(item: Item) | Missing | Failed(code: Code)

  ghost function Attempted(s: State, tenant: string, c: Candidate): (a: Attempt)
    ensures a.Planned? ==> Append(s, tenant, a.item.row, a.item.event).Ok?
  {
    match Append(s, tenant, c.row, Some(c.event))
    case Ok(_) => Planned(Item(c.row, Some(c.event)))
    case Err(code) =>
      if code in MISSING_DEPENDENCY_CODES then
        Missing
      else if code !in ROW_QUARANTINE_CODES then
        Failed(code)
      else
        match Append(s, tenant, Quarantine(c.row, code), None)
        case Ok(_) => Planned(Item(Quarantine(c.row, code), None))
        case Err(again) => Failed(again)
  }

  /** What one pass over the pending candidates comes to. */
  datatype Pass = Progress(candidate: Candidate, item: Item) | Stuck | GaveUp(code: Code)

  ghost function FirstDealt(s: State, tenant: string, ordered: seq<Candidate>): (p: Pass)
    ensures p.Progress? ==> p.candidate in ordered && Append(s, tenant, p.item.row, p.item.event).Ok?
  {
    if ordered == [] then
      Stuck
    else
      match Attempted(s, tenant, ordered[0])
      case Missing => FirstDealt(s, tenant, ordered[1..])
      case Failed(code) => GaveUp(code)
      case Planned(item) => Progress(ordered[0], item)
  }

  function RemoveFirst<T(==)>(s: seq<T>, x: T): (r: seq<T>)
    requires x in s
    ensures multiset(r) == multiset(s) - multiset{x} && |r| == |s| - 1
  {
    assert s == [s[0]] + s[1..];
    if s[0] == x then s[1..] else [s[0]] + RemoveFirst(s[1..], x)
  }

  datatype Ending = Complete | Unresolved | Aborted(code: Code)

  /** How far planning gets: who was dealt with, as which items, who is left, and the staging state. */
  datatype Planning = Planning(processed: seq<Candidate>, items: seq<Item>, left: seq<Candidate>, state: State,
                               ending: Ending)
  {
    function After(c: Candidate, item: Item): Planning {
      this.(processed := [c] + processed, items := [item] + items)
    }
  }

  /** The passes of `_resolve_batch` over the candidates still pending. */
  ghost function PlanRest(s: State, tenant: string, pending: seq<Candidate>): Planning
    decreases |pending|
  {
    if pending == [] then
      Planning([], [], [], s, Complete)
    else
      match FirstDealt(s, tenant, Ordered(pending))
      case Stuck => Planning([], [], pending, s, Unresolved)
      case GaveUp(code) => Planning([], [], pending, s, Aborted(code))
      case Progress(c, item) =>
        PlanRest(Append(s, tenant, item.row, item.event).value.state, tenant, RemoveFirst(pending, c)).After(c, item)
  }

  function RowItems(rows: seq<SourceRow>): (r: seq<Item>) {
    seq(|rows|, i requires 0 <= i < |rows| => Item(rows[i], None))
  }

  /** `_resolve_batch`: the rows refused by normalisation first, then the candidates. */
  ghost function PlanBatch(s: State, tenant: string, immediate: seq<SourceRow>, candidates: seq<Candidate>)
    : Result<seq<Item>, Code>
  {
    var staged :- AppendAll(s, tenant, RowItems(immediate));
    var p := PlanRest(staged.state, tenant, candidates);
    match p.ending
    case Complete => Ok(RowItems(immediate) + p.items)
    case Unresolved => Err(BatchDependencyUnresolved)
    case Aborted(code) => Err(code)
  }

  // ----- Counting

  function Immediates(prepared: seq<Prepared>): (r: seq<SourceRow>) {
    if prepared == [] then [] else
      Immediates(prepared[..|prepared| - 1]) +
        match prepared[|prepared| - 1] case Immediate(row) => [row] case Normalized(_) => []
  }

  function Candidates(prepared: seq<Prepared>): (r: seq<Candidate>) {
    if prepared == [] then [] else
      Candidates(prepared[..|prepared| - 1]) +
        match prepared[|prepared| - 1] case Immediate(_) => [] case Normalized(c) => [c]
  }

  datatype Outcome = Outcome(item: Item, result: AppendResult)

  function Zip(plan: seq<Item>, results: seq<AppendResult>): (r: seq<Outcome>)
    requires |plan| == |results|
  {
    seq(|plan|, i requires 0 <= i < |plan| => Outcome(plan[i], results[i]))
  }

  /** The outcomes of items with an event, or of those without. */
  function Select(pairs: seq<Outcome>, withEvent: bool): (r: seq<Outcome>) {
    if pairs == [] then [] else
      Select(pairs[..|pairs| - 1], withEvent) +
      if pairs[|pairs| - 1].item.event.Some? == withEvent then [pairs[|pairs| - 1]] else []
  }

  predicate PairRowInserted(p: Outcome) { p.result.rowInserted }
  predicate PairEventDuplicate(p: Outcome) { !p.result.eventInserted }

  function EventIds(plan: seq<Item>): (r: seq<string>) {
    if plan == [] then [] else
      EventIds(plan[..|plan| - 1]) +
      if plan[|plan| - 1].event.Some? then [plan[|plan| - 1].event.value.eventId] else []
  }

  /** Every row is counted once as inserted or duplicate, and once as inserted event, duplicate event or quarantined. */
  predicate Adds(c: ImportResult) {
    && c.insertedSourceRows + c.duplicateSourceRows == c.totalRows
    && c.insertedEvents + c.duplicateEvents + c.quarantinedRows == c.totalRows
    && c.insertedQuarantinedRows + c.duplicateQuarantinedRows == c.quarantinedRows
    && c.insertedQuarantinedRows <= c.insertedSourceRows
    && |c.eventIds| == c.insertedEvents + c.duplicateEvents
  }

  predicate Balanced(c: ImportResult, plan: seq<Item>) {
    c.totalRows == |plan| && Adds(c) && c.eventIds == EventIds(plan)
  }
}
