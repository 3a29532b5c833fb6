/**
 The canonical ledger on values: source rows, events, the five dictionaries, and the
 effect of one append as a function from state to state.
 */
module LedgerModel {
  import opened Base
  import opened Sums

  datatype Code =
    | SourceRowNotFound
    | ValidSourceRowEventRequired
    | SourceRecordConflict
    | SourceRowLocatorConflict
    | EventSourceRowNotValid
    | EventStatusNotValid
    | EventTimezoneRequired
    | EventIdempotencyKeyInvalid
    | EventSemanticHashMismatch
    | EventTenantMismatch
    | EventSourceRecordMismatch
    | EventSourceRowKeyMismatch
    | EventImportBatchMismatch
    | EventSchemaVersionMismatch
    | EventProvenanceIncomplete
    | EventProvenanceTimeMismatch
    | EventSourceFileMismatch
    | EventAdapterMismatch
    | EventAdapterVersionMismatch
    | EventSourceSchemaMismatch
    | EventIdConflict
    | EventIdempotencyConflict
    | EventRevisionConflict
    | EventSupersessionInvalid
    | EventSupersessionRequired
    | EventSupersededTargetMissing
    | EventReversalRequired
    | EventReversalInvalid
    | EventReversalTargetMissing
    | EventReversalUnitMismatch
    | EventReversalExceedsOriginal
    | EventTypedValueInvalid
    | EventTypedIntegerInvalid
    | EventTypedDecimalInvalid
    | EventTypedStringInvalid
    | EventIdInvalid
    | EventNotFound
    | SourceRecordIdInvalid
    | BatchDependencyUnresolved

  // ----- Source rows

  datatype RowStatus = Valid | Quarantined

  datatype Diagnostic = NormalizationFailed(message: string) | Refused(code: Code)

  /** `contents` stands for the raw payload, its hash and the two schema fingerprints. */
  datatype SourceRow = SourceRow(
    recordId: string,
    tenantId: string,
    rawFileId: string,
    fileSha256: string,
    batchId: string,
    rowNumber: nat,
    rowKey: string,
    contents: string,
    status: RowStatus,
    diagnostics: seq<Diagnostic>,
    adapterId: string,
    adapterVersion: string,
    schemaVersion: string,
    ingestedAt: int)
  {
    /** `content_fingerprint`: everything but the upload it came in and the time of ingestion. */
    function Fingerprint(): SourceRow {
      this.(rawFileId := "", ingestedAt := 0)
    }
  }

  // ----- Events

  datatype EventType = SaleRecognized | ReturnAccepted | OtherType(name: string)

  datatype EventStatus = EventValid | Superseded | Reversed | Conflict | Blocked

  datatype Instant = Aware(utc: int) | Naive(local: int)

  /**
   One field of the payload. `Absent` covers a missing key, a value that is not a mapping
   and a state other than VALID; `Other` a VALID value of another type or Python type; a
   decimal is `None` when its text is not a finite decimal.
   */
  datatype Field =
    | Absent
    | IntegerField(number: int, unit: string)
    | DecimalField(amount: Option<real>, unit: string)
    | StringField(text: string)
    | Other

  datatype Payload = Payload(product: Field, quantity: Field, grossAmount: Field, rest: string)

  /** SHA-256 of canonical JSON, taken to be injective. */
  datatype Digest = DigestOf(payload: Payload)

  datatype Provenance = Provenance(
    fileSha256: string,
    adapterId: string,
    adapterVersion: string,
    schemaId: string,
    ruleVersion: string,
    actor: string,
    createdAt: Option<Instant>,
    traceId: string)

  type Revision = n: int | 1 <= n witness 1

  datatype Event = Event(
    eventId: string,
    organizationId: string,
    accountId: string,
    eventType: EventType,
    eventTime: Instant,
    recognitionTime: Instant,
    businessKey: string,
    rowKey: string,
    revision: Revision,
    idempotencyKey: string,
    semanticHash: Digest,
    batchId: string,
    recordId: string,
    schemaVersion: string,
    payload: Payload,
    provenance: Provenance,
    status: EventStatus,
    createdAt: Instant,
    supersedes: Option<string>,
    reversalOf: Option<string>)

  function TypedInteger(f: Field): Result<(int, string), Code> {
    match f
    case Absent => Err(EventTypedValueInvalid)
    case IntegerField(n, unit) => if n > 0 && unit != "" then Ok((n, unit)) else Err(EventTypedIntegerInvalid)
    case _ => Err(EventTypedIntegerInvalid)
  }

  function TypedDecimal(f: Field): Result<(real, string), Code> {
    match f
    case Absent => Err(EventTypedValueInvalid)
    case DecimalField(Some(x), unit) => if x >= 0.0 && unit != "" then Ok((x, unit)) else Err(EventTypedDecimalInvalid)
    case _ => Err(EventTypedDecimalInvalid)
  }

  function TypedString(f: Field): Result<string, Code> {
    match f
    case Absent => Err(EventTypedValueInvalid)
    case StringField(t) => if t != "" then Ok(t) else Err(EventTypedStringInvalid)
    case _ => Err(EventTypedStringInvalid)
  }

  predicate Complete(p: Provenance) {
    p.fileSha256 != "" && p.adapterId != "" && p.adapterVersion != "" && p.schemaId != "" &&
    p.ruleVersion != "" && p.actor != "" && p.createdAt.Some? && p.traceId != ""
  }

  /** `_validate_lineage`: an event belongs to the row it is appended with. */
  function ValidateLineage(row: SourceRow, event: Event): Result<(), Code> {
    var p := event.provenance;
    var _ :- Need(row.status == Valid, EventSourceRowNotValid);
    var _ :- Need(event.status == EventValid, EventStatusNotValid);
    var _ :- Need(event.eventTime.Aware? && event.recognitionTime.Aware? && event.createdAt.Aware?,
                  EventTimezoneRequired);
    var _ :- Need(IsHex64(event.idempotencyKey), EventIdempotencyKeyInvalid);
    var _ :- Need(DigestOf(event.payload) == event.semanticHash, EventSemanticHashMismatch);
    var _ :- Need(event.organizationId == row.tenantId, EventTenantMismatch);
    var _ :- Need(event.recordId == row.recordId, EventSourceRecordMismatch);
    var _ :- Need(event.rowKey == row.rowKey, EventSourceRowKeyMismatch);
    var _ :- Need(event.batchId == row.batchId, EventImportBatchMismatch);
    var _ :- Need(event.schemaVersion == row.schemaVersion, EventSchemaVersionMismatch);
    var _ :- Need(Complete(p), EventProvenanceIncomplete);
    var _ :- Need(p.createdAt == Some(event.createdAt), EventProvenanceTimeMismatch);
    var _ :- Need(p.fileSha256 == row.fileSha256, EventSourceFileMismatch);
    var _ :- Need(p.adapterId == row.adapterId, EventAdapterMismatch);
    var _ :- Need(p.adapterVersion == row.adapterVersion, EventAdapterVersionMismatch);
    Need(p.schemaId == row.schemaVersion, EventSourceSchemaMismatch)
  }

  // ----- The five dictionaries

  datatype Key = Key(tenant: string, id: string)
  datatype Locator = Locator(tenant: string, rawFileId: string, rowNumber: nat)
  datatype RevisionKey = RevisionKey(tenant: string, accountId: string, businessKey: string, revision: Revision)

  datatype State = State(
    rows: map<Key, SourceRow>,
    locators: map<Locator, string>,
    byId: map<Key, Event>,
    byIdempotency: map<Key, Event>,
    byRevision: map<RevisionKey, Event>)

  const EMPTY := State(map[], map[], map[], map[], map[])

  function RowLocator(tenant: string, row: SourceRow): Locator {
    Locator(tenant, row.rawFileId, row.rowNumber)
  }

  function RevisionOf(tenant: string, e: Event): RevisionKey {
    RevisionKey(tenant, e.accountId, e.businessKey, e.revision)
  }

  /** `_validate_revision`. */
  function ValidateRevision(s: State, tenant: string, event: Event): Result<(), Code> {
    var k := RevisionOf(tenant, event);
    var _ :- Need(k in s.byRevision ==> s.byRevision[k] == event, EventRevisionConflict);
    if event.revision == 1 then
      Need(event.supersedes == None, EventSupersessionInvalid)
    else if event.supersedes == None then
      Err(EventSupersessionRequired)
    else
      var p := Key(tenant, event.supersedes.value);
      if p !in s.byId then
        Err(EventSupersededTargetMissing)
      else
        Need(Succeeds(s.byId[p], event), EventSupersessionInvalid)
  }

  predicate Succeeds(previous: Event, event: Event) {
    && previous.accountId == event.accountId
    && previous.businessKey == event.businessKey
    && previous.eventType == event.eventType
    && previous.revision + 1 == event.revision
  }

  // ----- Returns against a sale

  /** Quantity and amount of an event, zero where its payload does not type-check. */
  function TotalsOf(e: Event): (t: Totals)
    ensures Within(ZERO, t)
  {
    var q := TypedInteger(e.payload.quantity);
    var a := TypedDecimal(e.payload.grossAmount);
    Totals(if q.Ok? then q.value.0 else 0, if a.Ok? then a.value.0 else 0.0)
  }

  ghost function SumOf(es: set<Event>): Totals {
    Sum(es, TotalsOf)
  }

  /** The comparisons of `_validate_reversal` between a return and the event it reverses. */
  function CompareTerms(original: Event, event: Event): Result<(), Code> {
    var originalProduct :- TypedString(original.payload.product);
    var product :- TypedString(event.payload.product);
    var originalQuantity :- TypedInteger(original.payload.quantity);
    var quantity :- TypedInteger(event.payload.quantity);
    var originalAmount :- TypedDecimal(original.payload.grossAmount);
    var amount :- TypedDecimal(event.payload.grossAmount);
    Need(originalProduct == product && originalQuantity.1 == quantity.1 && originalAmount.1 == amount.1,
         EventReversalUnitMismatch)
  }

  /** Ids superseded by an event of the tenant. */
  function SupersededIds(s: State, tenant: string): set<string> {
    set k | k in s.byId && k.tenant == tenant && s.byId[k].supersedes.Some? :: s.byId[k].supersedes.value
  }

  /** Accepted returns of `sale` that no stored event supersedes. */
  function ActiveReturns(s: State, tenant: string, sale: string): set<Event> {
    set k | k in s.byId && k.tenant == tenant
            && s.byId[k].eventId !in SupersededIds(s, tenant)
            && s.byId[k].eventType == ReturnAccepted
            && s.byId[k].reversalOf == Some(sale)
          :: s.byId[k]
  }

  /** `_active_reversals`: those that a candidate return is counted together with. */
  function CompetingReturns(s: State, tenant: string, sale: string, candidate: Event): set<Event> {
    set e | e in ActiveReturns(s, tenant, sale)
            && e.eventId != candidate.eventId
            && Some(e.eventId) != candidate.supersedes
  }

  /** `_validate_reversal`. */
  ghost function ValidateReversal(s: State, tenant: string, event: Event): Result<(), Code> {
    if event.eventType != ReturnAccepted then
      Need(event.reversalOf == None, EventReversalInvalid)
    else if event.reversalOf == None then
      Err(EventReversalRequired)
    else
      var o := Key(tenant, event.reversalOf.value);
      if o !in s.byId then
        Err(EventReversalTargetMissing)
      else
        var original := s.byId[o];
        var _ :- Need(original.accountId == event.accountId && original.eventType == SaleRecognized,
                      EventReversalInvalid);
        var _ :- CompareTerms(original, event);
        Need(Within(Plus(TotalsOf(event), SumOf(CompetingReturns(s, tenant, original.eventId, event))),
                    TotalsOf(original)),
             EventReversalExceedsOriginal)
  }

  // ----- One append

  datatype Appended = Appended(state: State, rowInserted: bool, eventInserted: bool)

  /** The checks of `_append_locked`, in order. */
  ghost function CheckAppend(s: State, tenant: string, row: SourceRow, event: Option<Event>): Result<(), Code> {
    var k, l := Key(tenant, row.recordId), RowLocator(tenant, row);
    var _ :- Need(row.tenantId == tenant, SourceRowNotFound);
    var _ :- Need(event.Some? || row.status != Valid, ValidSourceRowEventRequired);
    var _ :- if event.Some? then ValidateLineage(row, event.value) else Ok(());
    var _ :- Need(k in s.rows ==> s.rows[k].Fingerprint() == row.Fingerprint(), SourceRecordConflict);
    var _ :- Need(l in s.locators ==> s.locators[l] == row.recordId, SourceRowLocatorConflict);
    if event.None? then
      Ok(())
    else
      CheckEvent(s, tenant, event.value)
  }

  ghost function CheckEvent(s: State, tenant: string, e: Event): Result<(), Code> {
    var i, d := Key(tenant, e.eventId), Key(tenant, e.idempotencyKey);
    var _ :- Need(i in s.byId ==> s.byId[i] == e, EventIdConflict);
    var _ :- Need(d in s.byIdempotency ==> s.byIdempotency[d] == e, EventIdempotencyConflict);
    var _ :- ValidateRevision(s, tenant, e);
    ValidateReversal(s, tenant, e)
  }

  function WithRow(s: State, tenant: string, row: SourceRow): State {
    var k := Key(tenant, row.recordId);
    s.(rows := if k in s.rows then s.rows else s.rows[k := row],
       locators := s.locators[RowLocator(tenant, row) := row.recordId])
  }

  function WithEvent(s: State, tenant: string, e: Event): State {
    s.(byId := s.byId[Key(tenant, e.eventId) := e],
       byIdempotency := s.byIdempotency[Key(tenant, e.idempotencyKey) := e],
       byRevision := s.byRevision[RevisionOf(tenant, e) := e])
  }

  ghost function Append(s: State, tenant: string, row: SourceRow, event: Option<Event>): Result<Appended, Code> {
    var _ :- CheckAppend(s, tenant, row, event);
    var r := WithRow(s, tenant, row);
    var isNew := event.Some? && Key(tenant, event.value.eventId) !in s.byId;
    Ok(Appended(if isNew then WithEvent(r, tenant, event.value) else r, Key(tenant, row.recordId) !in s.rows, isNew))
  }

  // ----- Batches

  datatype Item = Item(row: SourceRow, event: Option<Event>)

  datatype AppendResult = AppendResult(rowInserted: bool, eventInserted: bool)

  datatype Batch = Batch(state: State, results: seq<AppendResult>)

  /** One append after another, up to the first refusal. */
  ghost function AppendAll(s: State, tenant: string, items: seq<Item>): Result<Batch, Code> {
    if items == [] then
      Ok(Batch(s, []))
    else
      var before :- AppendAll(s, tenant, items[..|items| - 1]);
      var last := items[|items| - 1];
      var a :- Append(before.state, tenant, last.row, last.event);
      Ok(Batch(a.state, before.results + [AppendResult(a.rowInserted, a.eventInserted)]))
  }
}
