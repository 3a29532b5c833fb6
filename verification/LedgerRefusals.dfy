/**
 Why the ledger refuses an event: every refusal carries the code of the first condition that fails,
 in a list of conditions on the fields of the row, the event, and what is stored.
 */
module LedgerRefusals {
  import opened Base
  import opened Checks
  import opened Sums
  import opened LedgerModel

  // ----- An event and its row

  function EventChecks(row: SourceRow, e: Event): (checks: seq<Check<Code>>) {
    [
      Check(row.status == RowStatus.Valid, EventSourceRowNotValid),
      Check(e.status == EventValid, EventStatusNotValid),
      Check(e.eventTime.Aware? && e.recognitionTime.Aware? && e.createdAt.Aware?, EventTimezoneRequired),
      Check(IsDigest(e.idempotencyKey), EventIdempotencyKeyInvalid),
      Check(e.semanticHash.payload == e.payload, EventSemanticHashMismatch),
      Check(e.organizationId == row.tenantId, EventTenantMismatch),
      Check(e.recordId == row.recordId, EventSourceRecordMismatch),
      Check(e.rowKey == row.rowKey, EventSourceRowKeyMismatch),
      Check(e.batchId == row.batchId, EventImportBatchMismatch),
      Check(e.schemaVersion == row.schemaVersion, EventSchemaVersionMismatch)
    ]
  }

  function ProvenanceChecks(row: SourceRow, e: Event): (checks: seq<Check<Code>>) {
    var p := e.provenance;
    [
      Check("" !in [p.fileSha256, p.adapterId, p.adapterVersion, p.schemaId, p.ruleVersion, p.actor, p.traceId]
            && p.createdAt != None, EventProvenanceIncomplete),
      Check(p.createdAt == Some(e.createdAt), EventProvenanceTimeMismatch),
      Check(p.fileSha256 == row.fileSha256, EventSourceFileMismatch),
      Check(p.adapterId == row.adapterId, EventAdapterMismatch),
      Check(p.adapterVersion == row.adapterVersion, EventAdapterVersionMismatch),
      Check(p.schemaId == row.schemaVersion, EventSourceSchemaMismatch)
    ]
  }

  // ----- An event and what is stored

  /** The same row, whichever upload brought it and whenever it was ingested. */
  predicate SameContent(a: SourceRow, b: SourceRow) {
    && a.recordId == b.recordId && a.tenantId == b.tenantId && a.fileSha256 == b.fileSha256
    && a.batchId == b.batchId && a.rowNumber == b.rowNumber && a.rowKey == b.rowKey && a.contents == b.contents
    && a.status == b.status && a.diagnostics == b.diagnostics && a.adapterId == b.adapterId
    && a.adapterVersion == b.adapterVersion && a.schemaVersion == b.schemaVersion
  }

  function StoredChecks(s: State, tenant: string, row: SourceRow): (checks: seq<Check<Code>>) {
    var k, l := Key(tenant, row.recordId), Locator(tenant, row.rawFileId, row.rowNumber);
    [
      Check(k in s.rows ==> SameContent(s.rows[k], row), SourceRecordConflict),
      Check(l in s.locators ==> s.locators[l] == row.recordId, SourceRowLocatorConflict)
    ]
  }

  function IdentityChecks(s: State, tenant: string, e: Event): (checks: seq<Check<Code>>) {
    var i, d := Key(tenant, e.eventId), Key(tenant, e.idempotencyKey);
    [
      Check(i in s.byId ==> s.byId[i] == e, EventIdConflict),
      Check(d in s.byIdempotency ==> s.byIdempotency[d] == e, EventIdempotencyConflict)
    ]
  }

  /** The stored event that a field of an event names. */
  function Named(s: State, tenant: string, id: Option<string>): Option<Event> {
    if id.Some? && Key(tenant, id.value) in s.byId then Some(s.byId[Key(tenant, id.value)]) else None
  }

  function SuccessionChecks(s: State, tenant: string, e: Event): (checks: seq<Check<Code>>) {
    var r, previous := RevisionKey(tenant, e.accountId, e.businessKey, e.revision), Named(s, tenant, e.supersedes);
    [
      Check(r in s.byRevision ==> s.byRevision[r] == e, EventRevisionConflict),
      Check(e.revision == 1 ==> e.supersedes == None, EventSupersessionInvalid),
      Check(e.revision > 1 ==> e.supersedes != None, EventSupersessionRequired),
      Check(e.supersedes != None ==> previous != None, EventSupersededTargetMissing),
      Check(previous.Some? ==>
              && previous.value.accountId == e.accountId && previous.value.businessKey == e.businessKey
              && previous.value.eventType == e.eventType && previous.value.revision == e.revision - 1,
            EventSupersessionInvalid)
    ]
  }

  function TargetChecks(s: State, tenant: string, e: Event): (checks: seq<Check<Code>>) {
    var sale := Named(s, tenant, e.reversalOf);
    [
      Check(e.eventType != ReturnAccepted ==> e.reversalOf == None, EventReversalInvalid),
      Check(e.eventType == ReturnAccepted ==> e.reversalOf != None, EventReversalRequired),
      Check(e.reversalOf != None ==> sale != None, EventReversalTargetMissing),
      Check(sale.Some? ==> sale.value.eventType == SaleRecognized && sale.value.accountId == e.accountId,
            EventReversalInvalid)
    ]
  }

  // ----- Products, quantities and amounts

  predicate NamesProduct(e: Event) {
    e.payload.product.StringField? && e.payload.product.text != ""
  }

  predicate CountsUnits(e: Event) {
    e.payload.quantity.IntegerField? && e.payload.quantity.number >= 1 && e.payload.quantity.unit != ""
  }

  predicate StatesAmount(e: Event) {
    && e.payload.grossAmount.DecimalField? && e.payload.grossAmount.amount.Some?
    && e.payload.grossAmount.amount.value >= 0.0 && e.payload.grossAmount.unit != ""
  }

  predicate Priced(e: Event) {
    NamesProduct(e) && CountsUnits(e) && StatesAmount(e)
  }

  /** A field that is missing is told apart from one of the wrong kind. */
  function FieldCode(f: Field, wrong: Code): Code {
    if f == Absent then EventTypedValueInvalid else wrong
  }

  function TermChecks(sale: Event, e: Event): (checks: seq<Check<Code>>) {
    [
      Check(NamesProduct(sale), FieldCode(sale.payload.product, EventTypedStringInvalid)),
      Check(NamesProduct(e), FieldCode(e.payload.product, EventTypedStringInvalid)),
      Check(CountsUnits(sale), FieldCode(sale.payload.quantity, EventTypedIntegerInvalid)),
      Check(CountsUnits(e), FieldCode(e.payload.quantity, EventTypedIntegerInvalid)),
      Check(StatesAmount(sale), FieldCode(sale.payload.grossAmount, EventTypedDecimalInvalid)),
      Check(StatesAmount(e), FieldCode(e.payload.grossAmount, EventTypedDecimalInvalid)),
      Check(Priced(sale) && Priced(e) ==>
              && sale.payload.product.text == e.payload.product.text
              && sale.payload.quantity.unit == e.payload.quantity.unit
              && sale.payload.grossAmount.unit == e.payload.grossAmount.unit,
            EventReversalUnitMismatch)
    ]
  }

  /** Product, unit of quantity and currency, all there, and the same for both. */
  predicate SameGoods(sale: Event, e: Event) {
    && Priced(sale) && Priced(e)
    && sale.payload.product.text == e.payload.product.text
    && sale.payload.quantity.unit == e.payload.quantity.unit
    && sale.payload.grossAmount.unit == e.payload.grossAmount.unit
  }

  lemma GoodsExact(sale: Event, e: Event)
    ensures CompareTerms(sale, e).Ok? <==> SameGoods(sale, e)
    ensures CompareTerms(sale, e) == Err(EventReversalUnitMismatch) <==>
      Priced(sale) && Priced(e) && !SameGoods(sale, e)
    ensures CompareTerms(sale, e).Err? && !(Priced(sale) && Priced(e)) ==>
      CompareTerms(sale, e).error in
      {EventTypedValueInvalid, EventTypedStringInvalid, EventTypedIntegerInvalid, EventTypedDecimalInvalid}
  {
  }

  lemma LineageAnswer(row: SourceRow, e: Event)
    ensures AnsweredBy(EventChecks(row, e) + ProvenanceChecks(row, e), ValidateLineage(row, e))
  {
    DigestExact(e.idempotencyKey);
    hide IsDigest, IsHex64;
    var checks := EventChecks(row, e) + ProvenanceChecks(row, e);
    if AllHold(checks) {
      LineageHolds(row, e);
    }
    forall n | 0 <= n < |checks| && FirstUnmet(checks, n)
      ensures ValidateLineage(row, e) == Err(checks[n].code)
    {
      LineageRefusal(row, e, n);
    }
  }

  lemma LineageHolds(row: SourceRow, e: Event)
    requires AllHold(EventChecks(row, e) + ProvenanceChecks(row, e))
    ensures ValidateLineage(row, e).Ok?
  {
    DigestExact(e.idempotencyKey);
    hide IsDigest, IsHex64;
    var c := EventChecks(row, e) + ProvenanceChecks(row, e);
    assert c[0].holds && c[1].holds && c[2].holds && c[3].holds && c[4].holds && c[5].holds && c[6].holds;
    assert c[7].holds && c[8].holds && c[9].holds && c[10].holds && c[11].holds && c[12].holds && c[13].holds;
    assert c[14].holds && c[15].holds;
  }

  lemma LineageRefusal(row: SourceRow, e: Event, n: nat)
    requires n < 16 && FirstUnmet(EventChecks(row, e) + ProvenanceChecks(row, e), n)
    ensures ValidateLineage(row, e) == Err((EventChecks(row, e) + ProvenanceChecks(row, e))[n].code)
  {
    DigestExact(e.idempotencyKey);
    hide IsDigest, IsHex64;
    var c := EventChecks(row, e) + ProvenanceChecks(row, e);
    LongList(c, n);
  }

  lemma StoredAnswer(s: State, tenant: string, row: SourceRow)
    ensures
      var k, l := Key(tenant, row.recordId), RowLocator(tenant, row);
      AnsweredBy(StoredChecks(s, tenant, row),
        if !(k in s.rows ==> s.rows[k].Fingerprint() == row.Fingerprint()) then Err(SourceRecordConflict)
        else Need(l in s.locators ==> s.locators[l] == row.recordId, SourceRowLocatorConflict))
  {
    var k, checks := Key(tenant, row.recordId), StoredChecks(s, tenant, row);
    if k in s.rows {
      FingerprintExact(s.rows[k], row);
    }
    hide SameContent;
    if AllHold(checks) {
      assert checks[0].holds && checks[1].holds;
    }
    forall n | 0 <= n < |checks| && FirstUnmet(checks, n) {
      ShortList(checks, n);
    }
  }

  /** Two rows have one fingerprint exactly when they differ in nothing but upload and time. */
  lemma FingerprintExact(a: SourceRow, b: SourceRow)
    ensures a.Fingerprint() == b.Fingerprint() <==> SameContent(a, b)
  {
    var x, y := a.Fingerprint(), b.Fingerprint();
    if x == y {
      assert x.recordId == y.recordId && x.tenantId == y.tenantId && x.fileSha256 == y.fileSha256;
      assert x.batchId == y.batchId && x.rowNumber == y.rowNumber && x.rowKey == y.rowKey && x.contents == y.contents;
      assert x.status == y.status && x.diagnostics == y.diagnostics && x.adapterId == y.adapterId;
      assert x.adapterVersion == y.adapterVersion && x.schemaVersion == y.schemaVersion;
    }
  }

  lemma IdentityAnswer(s: State, tenant: string, e: Event)
    ensures
      var i, d := Key(tenant, e.eventId), Key(tenant, e.idempotencyKey);
      AnsweredBy(IdentityChecks(s, tenant, e),
        if !(i in s.byId ==> s.byId[i] == e) then Err(EventIdConflict)
        else Need(d in s.byIdempotency ==> s.byIdempotency[d] == e, EventIdempotencyConflict))
  {
    var checks := IdentityChecks(s, tenant, e);
    if AllHold(checks) {
      assert checks[0].holds && checks[1].holds;
    }
    forall n | 0 <= n < |checks| && FirstUnmet(checks, n) {
      ShortList(checks, n);
    }
  }

  lemma SuccessionAnswer(s: State, tenant: string, e: Event)
    ensures AnsweredBy(SuccessionChecks(s, tenant, e), ValidateRevision(s, tenant, e))
  {
    var checks := SuccessionChecks(s, tenant, e);
    if AllHold(checks) {
      assert checks[0].holds && checks[1].holds && checks[2].holds && checks[3].holds && checks[4].holds;
    }
    forall n | 0 <= n < |checks| && FirstUnmet(checks, n)
      ensures ValidateRevision(s, tenant, e) == Err(checks[n].code)
    {
      ShortList(checks, n);
    }
  }

  lemma TermsAnswer(sale: Event, e: Event)
    ensures AnsweredBy(TermChecks(sale, e), CompareTerms(sale, e))
  {
    var checks := TermChecks(sale, e);
    if AllHold(checks) {
      assert checks[0].holds && checks[1].holds && checks[2].holds && checks[3].holds;
      assert checks[4].holds && checks[5].holds && checks[6].holds;
    }
    forall n | 0 <= n < |checks| && FirstUnmet(checks, n)
      ensures CompareTerms(sale, e) == Err(checks[n].code)
    {
      ShortList(checks, n);
    }
  }

  ghost function RoomChecks(s: State, tenant: string, sale: Event, e: Event): (checks: seq<Check<Code>>) {
    var rivals := CompetingReturns(s, tenant, sale.eventId, e);
    [Check(Within(Plus(TotalsOf(e), SumOf(rivals)), TotalsOf(sale)), EventReversalExceedsOriginal)]
  }

  /** What has to hold between an event and the sale it names, if it names one that is stored. */
  ghost function ReversalChecks(s: State, tenant: string, e: Event): (checks: seq<Check<Code>>) {
    var sale := Named(s, tenant, e.reversalOf);
    TargetChecks(s, tenant, e) +
      if sale.None? then [] else TermChecks(sale.value, e) + RoomChecks(s, tenant, sale.value, e)
  }

  function TargetResult(s: State, tenant: string, e: Event): Result<(), Code> {
    if e.eventType != ReturnAccepted then Need(e.reversalOf == None, EventReversalInvalid)
    else if e.reversalOf == None then Err(EventReversalRequired)
    else match Named(s, tenant, e.reversalOf)
      case None => Err(EventReversalTargetMissing)
      case Some(sale) =>
        Need(sale.accountId == e.accountId && sale.eventType == SaleRecognized, EventReversalInvalid)
  }

  lemma TargetAnswer(s: State, tenant: string, e: Event)
    ensures AnsweredBy(TargetChecks(s, tenant, e), TargetResult(s, tenant, e))
  {
    var checks := TargetChecks(s, tenant, e);
    if AllHold(checks) {
      assert checks[0].holds && checks[1].holds && checks[2].holds && checks[3].holds;
    }
    forall n | 0 <= n < |checks| && FirstUnmet(checks, n)
      ensures TargetResult(s, tenant, e) == Err(checks[n].code)
    {
      ShortList(checks, n);
    }
  }

  lemma ReversalAnswer(s: State, tenant: string, e: Event)
    ensures AnsweredBy(ReversalChecks(s, tenant, e), ValidateReversal(s, tenant, e))
  {
    hide AnsweredBy, TermChecks, CompareTerms, TargetChecks, Within, Plus, SumOf, TotalsOf, CompetingReturns;
    TargetAnswer(s, tenant, e);
    match Named(s, tenant, e.reversalOf) {
      case None =>
        assert TargetChecks(s, tenant, e) + [] == TargetChecks(s, tenant, e);
      case Some(sale) =>
        TermsAnswer(sale, e);
        var room := RoomChecks(s, tenant, sale, e)[0];
        OneAnswer(room.holds, room.code);
        Then(TermChecks(sale, e), [room], CompareTerms(sale, e), Need(room.holds, room.code));
        Then(TargetChecks(s, tenant, e), TermChecks(sale, e) + [room], TargetResult(s, tenant, e),
             if CompareTerms(sale, e).Ok? then Need(room.holds, room.code) else CompareTerms(sale, e));
    }
  }

  lemma EventAnswer(s: State, tenant: string, e: Event)
    ensures AnsweredBy(
      IdentityChecks(s, tenant, e) + (SuccessionChecks(s, tenant, e) + ReversalChecks(s, tenant, e)),
      CheckEvent(s, tenant, e))
  {
    hide AnsweredBy, IdentityChecks, SuccessionChecks, ReversalChecks, ValidateRevision, ValidateReversal;
    var i, d := Key(tenant, e.eventId), Key(tenant, e.idempotencyKey);
    var revision, reversal := ValidateRevision(s, tenant, e), ValidateReversal(s, tenant, e);
    var later := if revision.Ok? then reversal else revision;
    IdentityAnswer(s, tenant, e);
    SuccessionAnswer(s, tenant, e);
    ReversalAnswer(s, tenant, e);
    Then(SuccessionChecks(s, tenant, e), ReversalChecks(s, tenant, e), revision, reversal);
    Then(IdentityChecks(s, tenant, e), SuccessionChecks(s, tenant, e) + ReversalChecks(s, tenant, e),
         if !(i in s.byId ==> s.byId[i] == e) then Err(EventIdConflict)
         else Need(d in s.byIdempotency ==> s.byIdempotency[d] == e, EventIdempotencyConflict), later);
  }

  /** Everything an append of a row with its event is checked for, in the order in which it is. */
  ghost function AppendChecks(s: State, tenant: string, row: SourceRow, e: Event): (checks: seq<Check<Code>>) {
    [Check(row.tenantId == tenant, SourceRowNotFound)]
    + ((EventChecks(row, e) + ProvenanceChecks(row, e))
       + (StoredChecks(s, tenant, row)
          + (IdentityChecks(s, tenant, e) + (SuccessionChecks(s, tenant, e) + ReversalChecks(s, tenant, e)))))
  }

  /** Everything an append of a row alone is checked for. */
  function RowChecks(s: State, tenant: string, row: SourceRow): (checks: seq<Check<Code>>) {
    [Check(row.tenantId == tenant, SourceRowNotFound)]
    + ([Check(row.status == RowStatus.Quarantined, ValidSourceRowEventRequired)] + StoredChecks(s, tenant, row))
  }

  lemma AppendAnswer(s: State, tenant: string, row: SourceRow, e: Event)
    ensures AnsweredBy(AppendChecks(s, tenant, row, e), CheckAppend(s, tenant, row, Some(e)))
  {
    hide AnsweredBy, EventChecks, ProvenanceChecks, StoredChecks, IdentityChecks, SuccessionChecks, ReversalChecks;
    hide CheckEvent, ValidateLineage;
    var k, l := Key(tenant, row.recordId), RowLocator(tenant, row);
    var lineage, event, mine := ValidateLineage(row, e), CheckEvent(s, tenant, e), row.tenantId == tenant;
    var stored :=
      if !(k in s.rows ==> s.rows[k].Fingerprint() == row.Fingerprint()) then Err(SourceRecordConflict)
      else Need(l in s.locators ==> s.locators[l] == row.recordId, SourceRowLocatorConflict);
    OneAnswer(mine, SourceRowNotFound);
    LineageAnswer(row, e);
    StoredAnswer(s, tenant, row);
    EventAnswer(s, tenant, e);
    var events := IdentityChecks(s, tenant, e) + (SuccessionChecks(s, tenant, e) + ReversalChecks(s, tenant, e));
    Then(StoredChecks(s, tenant, row), events, stored, event);
    var later := if stored.Ok? then event else stored;
    Then(EventChecks(row, e) + ProvenanceChecks(row, e), StoredChecks(s, tenant, row) + events, lineage, later);
    var all := if lineage.Ok? then later else lineage;
    Then([Check(mine, SourceRowNotFound)],
         (EventChecks(row, e) + ProvenanceChecks(row, e)) + (StoredChecks(s, tenant, row) + events),
         Need(mine, SourceRowNotFound), all);
  }

  lemma RowAnswer(s: State, tenant: string, row: SourceRow)
    ensures AnsweredBy(RowChecks(s, tenant, row), CheckAppend(s, tenant, row, None))
  {
    hide AnsweredBy, StoredChecks;
    var k, l := Key(tenant, row.recordId), RowLocator(tenant, row);
    var mine, alone := row.tenantId == tenant, row.status == RowStatus.Quarantined;
    var stored :=
      if !(k in s.rows ==> s.rows[k].Fingerprint() == row.Fingerprint()) then Err(SourceRecordConflict)
      else Need(l in s.locators ==> s.locators[l] == row.recordId, SourceRowLocatorConflict);
    OneAnswer(mine, SourceRowNotFound);
    OneAnswer(alone, ValidSourceRowEventRequired);
    StoredAnswer(s, tenant, row);
    var two := Need(alone, ValidSourceRowEventRequired);
    Then([Check(alone, ValidSourceRowEventRequired)], StoredChecks(s, tenant, row), two, stored);
    Then([Check(mine, SourceRowNotFound)],
         [Check(alone, ValidSourceRowEventRequired)] + StoredChecks(s, tenant, row),
         Need(mine, SourceRowNotFound), if two.Ok? then stored else two);
  }

  /** The ledger refuses a row with its event with the code of the first condition that fails. */
  lemma RefusalExact(s: State, tenant: string, row: SourceRow, e: Event)
    ensures
      var checks, r := AppendChecks(s, tenant, row, e), Append(s, tenant, row, Some(e));
      && (r.Ok? <==> AllHold(checks))
      && (forall n :: 0 <= n < |checks| && FirstUnmet(checks, n) ==> r == Err(checks[n].code))
  {
    AppendAnswer(s, tenant, row, e);
    hide AppendChecks, CheckAppend, AllHold, FirstUnmet, WithRow, WithEvent;
    AnswerExact(AppendChecks(s, tenant, row, e), CheckAppend(s, tenant, row, Some(e)));
  }

  /** And a row alone likewise. */
  lemma RowRefusalExact(s: State, tenant: string, row: SourceRow)
    ensures
      var checks, r := RowChecks(s, tenant, row), Append(s, tenant, row, None);
      && (r.Ok? <==> AllHold(checks))
      && (forall n :: 0 <= n < |checks| && FirstUnmet(checks, n) ==> r == Err(checks[n].code))
  {
    RowAnswer(s, tenant, row);
    hide RowChecks, CheckAppend, AllHold, FirstUnmet, WithRow, WithEvent;
    AnswerExact(RowChecks(s, tenant, row), CheckAppend(s, tenant, row, None));
  }

  /** What an accepted append stores, under which keys, and what it reports. */
  lemma AcceptedStores(s: State, tenant: string, row: SourceRow, event: Option<Event>)
    requires Append(s, tenant, row, event).Ok?
    ensures
      var a, k := Append(s, tenant, row, event).value, Key(tenant, row.recordId);
      && (a.rowInserted <==> k !in s.rows)
      && a.state.rows == (if k in s.rows then s.rows else s.rows[k := row])
      && a.state.locators == s.locators[Locator(tenant, row.rawFileId, row.rowNumber) := row.recordId]
      && (a.eventInserted <==> event.Some? && Key(tenant, event.value.eventId) !in s.byId)
      && if !a.eventInserted then
           a.state.byId == s.byId && a.state.byIdempotency == s.byIdempotency && a.state.byRevision == s.byRevision
         else
           var e := event.value;
           && a.state.byId == s.byId[Key(tenant, e.eventId) := e]
           && a.state.byIdempotency == s.byIdempotency[Key(tenant, e.idempotencyKey) := e]
           && a.state.byRevision ==
              s.byRevision[RevisionKey(tenant, e.accountId, e.businessKey, e.revision) := e]
  {
    hide CheckAppend;
  }
}
