/**
 Which candidates wait, which are set aside in quarantine, and which end the planning of a batch, in
 terms of the fields of the candidate and the events that are stored.
 */
module IngestRefusals {
  import opened Base
  import opened Sums
  import opened LedgerModel
  import opened LedgerInvariants
  import opened LedgerRefusals
  import opened IngestModel
  import opened IngestTheorems

  /** A first version, or the next version of a stored event of the same account, key and type. */
  predicate Continues(s: State, tenant: string, e: Event) {
    var p := Named(s, tenant, e.supersedes);
    if e.revision == 1 then
      e.supersedes == None
    else
      && p.Some? && p.value.accountId == e.accountId && p.value.businessKey == e.businessKey
      && p.value.eventType == e.eventType && p.value.revision == e.revision - 1
  }

  /** Row and event belong together, and nothing stored contradicts them. */
  ghost predicate Consistent(s: State, tenant: string, row: SourceRow, e: Event) {
    RowFits(s, tenant, row) && Lineage(row, e) && IdentityFits(s, tenant, e)
  }

  lemma ConsistentAppend(s: State, tenant: string, row: SourceRow, e: Event)
    requires Consistent(s, tenant, row, e)
    ensures CheckAppend(s, tenant, row, Some(e)) ==
      if ValidateRevision(s, tenant, e).Err? then ValidateRevision(s, tenant, e) else ValidateReversal(s, tenant, e)
  {
    LineageExact(row, e);
    hide Lineage, ValidateLineage, ValidateRevision, ValidateReversal;
  }

  /** Why an event that is consistent with the ledger is refused as a version. */
  lemma SuccessionRefusals(s: State, tenant: string, row: SourceRow, e: Event)
    requires Consistent(s, tenant, row, e)
    ensures
      var r, p := Append(s, tenant, row, Some(e)), Named(s, tenant, e.supersedes);
      && (r == Err(EventSupersessionRequired) <==> e.revision > 1 && e.supersedes == None)
      && (r == Err(EventSupersededTargetMissing) <==> e.revision > 1 && e.supersedes != None && p == None)
      && (r == Err(EventSupersessionInvalid) <==>
            (e.revision == 1 && e.supersedes != None) || (e.revision > 1 && p != None && !Continues(s, tenant, e)))
  {
    ConsistentAppend(s, tenant, row, e);
    hide Consistent, CheckAppend, WithRow, WithEvent, CompareTerms, Within;
  }

  /** The event it reverses is a stored sale of its account. */
  predicate NamesSale(s: State, tenant: string, e: Event) {
    var sale := Named(s, tenant, e.reversalOf);
    && e.eventType == ReturnAccepted
    && sale.Some? && sale.value.eventType == SaleRecognized && sale.value.accountId == e.accountId
  }

  /** Why an event that is consistent with the ledger, and a right version, is refused as a return. */
  lemma ReversalRefusals(s: State, tenant: string, row: SourceRow, e: Event)
    requires Consistent(s, tenant, row, e) && Continues(s, tenant, e)
    ensures
      var r, sale := Append(s, tenant, row, Some(e)), Named(s, tenant, e.reversalOf);
      && (r == Err(EventReversalRequired) <==> e.eventType == ReturnAccepted && e.reversalOf == None)
      && (r == Err(EventReversalTargetMissing) <==>
            e.eventType == ReturnAccepted && e.reversalOf != None && sale == None)
      && (r == Err(EventReversalInvalid) <==>
            (e.eventType != ReturnAccepted && e.reversalOf != None) ||
            (e.eventType == ReturnAccepted && sale != None && !NamesSale(s, tenant, e)))
      && (r == Err(EventReversalUnitMismatch) <==>
            NamesSale(s, tenant, e) && Priced(sale.value) && Priced(e) && !SameGoods(sale.value, e))
      && (r == Err(EventReversalExceedsOriginal) <==>
            NamesSale(s, tenant, e) && SameGoods(sale.value, e) && !RoomFor(s, tenant, e))
  {
    ConsistentAppend(s, tenant, row, e);
    if Named(s, tenant, e.reversalOf).Some? {
      GoodsExact(Named(s, tenant, e.reversalOf).value, e);
    }
    hide Consistent, CheckAppend, WithRow, WithEvent, CompareTerms, Within, SameGoods, Priced, Plus;
  }

  // ----- What becomes of a candidate

  /** The event names a predecessor, or if it need not wait for one a sale, that the ledger does not hold. */
  predicate NamesAbsent(s: State, tenant: string, e: Event) {
    || (e.revision > 1 && e.supersedes != None && Named(s, tenant, e.supersedes) == None)
    || (Continues(s, tenant, e) && e.eventType == ReturnAccepted && e.reversalOf != None
        && Named(s, tenant, e.reversalOf) == None)
  }

  /** A candidate waits exactly when it names an event that is not there yet. */
  lemma WaitsExact(s: State, tenant: string, c: Candidate)
    requires Consistent(s, tenant, c.row, c.event)
    ensures Waits(s, tenant, c) <==> NamesAbsent(s, tenant, c.event)
    ensures Attempted(s, tenant, c) == Missing <==> NamesAbsent(s, tenant, c.event)
  {
    hide Append, Consistent, NamesSale, SameGoods, Priced, RoomFor, Dangling;
    AttemptExact(s, tenant, c);
    hide Attempted;
    SuccessionRefusals(s, tenant, c.row, c.event);
    if Continues(s, tenant, c.event) {
      ReversalRefusals(s, tenant, c.row, c.event);
    }
  }

  /** What a candidate says of the events stored is wrong, in the way the code says. */
  ghost predicate Contradicts(s: State, tenant: string, e: Event, code: Code) {
    var p, sale := Named(s, tenant, e.supersedes), Named(s, tenant, e.reversalOf);
    match code
    case EventSupersessionInvalid =>
      (e.revision == 1 && e.supersedes != None) || (e.revision > 1 && p != None && !Continues(s, tenant, e))
    case EventReversalRequired =>
      Continues(s, tenant, e) && e.eventType == ReturnAccepted && e.reversalOf == None
    case EventReversalInvalid => (
      && Continues(s, tenant, e)
      && (if e.eventType == ReturnAccepted then sale != None && !NamesSale(s, tenant, e) else e.reversalOf != None))
    case EventReversalUnitMismatch => (
      && Continues(s, tenant, e) && NamesSale(s, tenant, e)
      && Priced(sale.value) && Priced(e) && !SameGoods(sale.value, e))
    case EventReversalExceedsOriginal => (
      && Continues(s, tenant, e) && NamesSale(s, tenant, e)
      && SameGoods(sale.value, e) && !RoomFor(s, tenant, e))
    case _ => false
  }

  lemma RefusedExact(s: State, tenant: string, row: SourceRow, e: Event, code: Code)
    requires Consistent(s, tenant, row, e) && code in ROW_QUARANTINE_CODES
    ensures Append(s, tenant, row, Some(e)) == Err(code) <==> Contradicts(s, tenant, e, code)
  {
    hide Append, Consistent, NamesSale, SameGoods, Priced, RoomFor;
    SuccessionRefusals(s, tenant, row, e);
    if Continues(s, tenant, e) {
      ReversalRefusals(s, tenant, row, e);
    }
  }

  lemma OnlyThoseFive(s: State, tenant: string, e: Event, code: Code)
    requires Contradicts(s, tenant, e, code)
    ensures code in ROW_QUARANTINE_CODES
  {
    hide Continues, NamesSale, Priced, SameGoods, RoomFor, Named;
  }

  lemma RowSetAside(s: State, tenant: string, row: SourceRow, code: Code)
    requires RowFits(s, tenant, row)
    ensures Key(tenant, row.recordId) in s.rows && s.rows[Key(tenant, row.recordId)].status == RowStatus.Valid ==>
      Append(s, tenant, Quarantine(row, code), None) == Err(SourceRecordConflict)
    ensures Key(tenant, row.recordId) !in s.rows ==> Append(s, tenant, Quarantine(row, code), None).Ok?
  {
    var k := Key(tenant, row.recordId);
    if k in s.rows {
      assert s.rows[k].Fingerprint().status == s.rows[k].status;
      assert Quarantine(row, code).Fingerprint().status == RowStatus.Quarantined;
    }
  }

  /** The row of a candidate, set aside under one code. */
  function SetAsideRow(row: SourceRow, code: Code): SourceRow {
    SourceRow(row.recordId, row.tenantId, row.rawFileId, row.fileSha256, row.batchId, row.rowNumber, row.rowKey,
              row.contents, RowStatus.Quarantined, [Refused(code)], row.adapterId, row.adapterVersion,
              row.schemaVersion, row.ingestedAt)
  }

  lemma SetAsideOnce(row: SourceRow, a: Code, b: Code)
    ensures Quarantine(row, a) == SetAsideRow(row, b) <==> a == b
  {
    assert Quarantine(row, a).diagnostics[0] == Refused(a) && SetAsideRow(row, b).diagnostics[0] == Refused(b);
  }

  /**
   A candidate whose row is new is set aside, as that row with the one diagnostic, exactly when it
   contradicts what is stored: as a version, as a return of its sale, in product or unit, or in excess.
   */
  lemma QuarantinedExact(s: State, tenant: string, c: Candidate, code: Code)
    requires Consistent(s, tenant, c.row, c.event) && Key(tenant, c.row.recordId) !in s.rows
    ensures Attempted(s, tenant, c) == Planned(Item(SetAsideRow(c.row, code), None)) <==>
      Contradicts(s, tenant, c.event, code)
  {
    hide Append, Lineage, IdentityFits, NamesSale, SameGoods, Priced, RoomFor, Contradicts, Quarantine, SetAsideRow;
    if Contradicts(s, tenant, c.event, code) {
      OnlyThoseFive(s, tenant, c.event, code);
      RefusedExact(s, tenant, c.row, c.event, code);
      RowSetAside(s, tenant, c.row, code);
      SetAsideOnce(c.row, code, code);
      assert code !in MISSING_DEPENDENCY_CODES;
    } else if Attempted(s, tenant, c) == Planned(Item(SetAsideRow(c.row, code), None)) {
      var r := Append(s, tenant, c.row, Some(c.event));
      SetAsideOnce(c.row, r.error, code);
      RefusedExact(s, tenant, c.row, c.event, r.error);
    }
  }

  /** A candidate that contradicts what is stored, on a row that is stored as VALID, ends the planning. */
  lemma StoredRowConflicts(s: State, tenant: string, c: Candidate, code: Code)
    requires Consistent(s, tenant, c.row, c.event) && Key(tenant, c.row.recordId) in s.rows
    requires Contradicts(s, tenant, c.event, code)
    ensures Attempted(s, tenant, c) == Failed(SourceRecordConflict)
  {
    hide Append, IdentityFits, NamesSale, SameGoods, Priced, RoomFor, Contradicts, Quarantine;
    OnlyThoseFive(s, tenant, c.event, code);
    RefusedExact(s, tenant, c.row, c.event, code);
    RowSetAside(s, tenant, c.row, code);
    var k := Key(tenant, c.row.recordId);
    assert s.rows[k].Fingerprint().status == c.row.Fingerprint().status;
    assert code !in MISSING_DEPENDENCY_CODES;
  }

  /** The event is the version it says it is, and a return within its sale if it is one. */
  ghost predicate Agrees(s: State, tenant: string, e: Event) {
    && Continues(s, tenant, e)
    && (if e.eventType != ReturnAccepted then e.reversalOf == None else
          && NamesSale(s, tenant, e) && SameGoods(Named(s, tenant, e.reversalOf).value, e) && RoomFor(s, tenant, e))
  }

  /** It is a later version of nothing, or product, quantity or amount are not there to be compared. */
  predicate Incomparable(s: State, tenant: string, e: Event) {
    || (e.revision > 1 && e.supersedes == None)
    || (Continues(s, tenant, e) && NamesSale(s, tenant, e)
        && !(Priced(Named(s, tenant, e.reversalOf).value) && Priced(e)))
  }

  lemma AcceptedExact(s: State, tenant: string, row: SourceRow, e: Event)
    requires Consistent(s, tenant, row, e)
    ensures Append(s, tenant, row, Some(e)).Ok? <==> Agrees(s, tenant, e)
  {
    ConsistentAppend(s, tenant, row, e);
    ReversalExact(s, tenant, e);
    if Named(s, tenant, e.reversalOf).Some? {
      GoodsExact(Named(s, tenant, e.reversalOf).value, e);
    }
    hide Consistent, CheckAppend, WithRow, WithEvent, CompareTerms, Within, SameGoods, Priced, Plus;
  }

  /** An event agrees with what is stored, names what is absent, contradicts it, or cannot be compared. */
  lemma FourCases(s: State, tenant: string, e: Event)
    ensures Agrees(s, tenant, e) ==> !NamesAbsent(s, tenant, e) && forall code :: !Contradicts(s, tenant, e, code)
    ensures NamesAbsent(s, tenant, e) ==> forall code :: !Contradicts(s, tenant, e, code)
    ensures Incomparable(s, tenant, e) <==>
      !Agrees(s, tenant, e) && !NamesAbsent(s, tenant, e) && forall code :: !Contradicts(s, tenant, e, code)
  {
    hide Priced, RoomFor;
    if !Agrees(s, tenant, e) && !NamesAbsent(s, tenant, e) && !Incomparable(s, tenant, e) {
      assert Contradicts(s, tenant, e, EventSupersessionInvalid) || Contradicts(s, tenant, e, EventReversalRequired)
        || Contradicts(s, tenant, e, EventReversalInvalid) || Contradicts(s, tenant, e, EventReversalUnitMismatch)
        || Contradicts(s, tenant, e, EventReversalExceedsOriginal);
    }
  }

  /** What becomes of a candidate whose row is new: planned as it is, set aside, left for later, or the end. */
  lemma OutcomeExact(s: State, tenant: string, c: Candidate)
    requires Consistent(s, tenant, c.row, c.event) && Key(tenant, c.row.recordId) !in s.rows
    ensures Attempted(s, tenant, c) == Planned(Item(c.row, Some(c.event))) <==> Agrees(s, tenant, c.event)
    ensures Attempted(s, tenant, c).Failed? <==> Incomparable(s, tenant, c.event)
  {
    hide Append, Lineage, IdentityFits, Agrees, NamesAbsent, Contradicts, Incomparable;
    AcceptedExact(s, tenant, c.row, c.event);
    WaitsExact(s, tenant, c);
    FourCases(s, tenant, c.event);
    var r := Append(s, tenant, c.row, Some(c.event));
    if r.Err? {
      RowSetAside(s, tenant, c.row, r.error);
      if r.error in ROW_QUARANTINE_CODES {
        RefusedExact(s, tenant, c.row, c.event, r.error);
      } else {
        forall code
          ensures !Contradicts(s, tenant, c.event, code)
        {
          NotContradicting(s, tenant, c.row, c.event, code);
        }
      }
    }
  }

  lemma NotContradicting(s: State, tenant: string, row: SourceRow, e: Event, code: Code)
    requires Consistent(s, tenant, row, e)
    requires code in ROW_QUARANTINE_CODES ==> Append(s, tenant, row, Some(e)) != Err(code)
    ensures !Contradicts(s, tenant, e, code)
  {
    hide Append, Consistent, Contradicts;
    if Contradicts(s, tenant, e, code) {
      OnlyThoseFive(s, tenant, e, code);
      RefusedExact(s, tenant, row, e, code);
    }
  }
}
