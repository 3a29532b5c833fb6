/** When the ledger accepts an append, and what every accepted append keeps. */
module LedgerInvariants {
  import opened Base
  import opened Sums
  import opened LedgerModel

  // ----- Acceptance, without the order of the checks

  predicate Lineage(row: SourceRow, e: Event) {
    var p := e.provenance;
    && row.status == Valid && e.status == EventValid
    && e.eventTime.Aware? && e.recognitionTime.Aware? && e.createdAt.Aware?
    && IsHex64(e.idempotencyKey) && DigestOf(e.payload) == e.semanticHash && Complete(p)
    && e.organizationId == row.tenantId && e.recordId == row.recordId && e.rowKey == row.rowKey
    && e.batchId == row.batchId && e.schemaVersion == row.schemaVersion
    && p.createdAt == Some(e.createdAt) && p.fileSha256 == row.fileSha256
    && p.adapterId == row.adapterId && p.adapterVersion == row.adapterVersion && p.schemaId == row.schemaVersion
  }

  /** Product and units of the two events are there and agree. */
  predicate SameTerms(sale: Event, e: Event) {
    && TypedString(sale.payload.product).Ok? && TypedString(sale.payload.product) == TypedString(e.payload.product)
    && TypedInteger(sale.payload.quantity).Ok? && TypedInteger(e.payload.quantity).Ok?
    && TypedDecimal(sale.payload.grossAmount).Ok? && TypedDecimal(e.payload.grossAmount).Ok?
    && TypedInteger(sale.payload.quantity).value.1 == TypedInteger(e.payload.quantity).value.1
    && TypedDecimal(sale.payload.grossAmount).value.1 == TypedDecimal(e.payload.grossAmount).value.1
  }

  predicate RowFits(s: State, tenant: string, row: SourceRow) {
    var k, l := Key(tenant, row.recordId), RowLocator(tenant, row);
    && row.tenantId == tenant
    && (k in s.rows ==> s.rows[k].Fingerprint() == row.Fingerprint())
    && (l in s.locators ==> s.locators[l] == row.recordId)
  }

  predicate IdentityFits(s: State, tenant: string, e: Event) {
    var i, d, r := Key(tenant, e.eventId), Key(tenant, e.idempotencyKey), RevisionOf(tenant, e);
    && (i in s.byId ==> s.byId[i] == e)
    && (d in s.byIdempotency ==> s.byIdempotency[d] == e)
    && (r in s.byRevision ==> s.byRevision[r] == e)
  }

  predicate SuccessionFits(s: State, tenant: string, e: Event) {
    if e.revision == 1 then
      e.supersedes == None
    else
      && e.supersedes.Some?
      && Key(tenant, e.supersedes.value) in s.byId
      && Succeeds(s.byId[Key(tenant, e.supersedes.value)], e)
  }

  predicate TargetFits(s: State, tenant: string, e: Event) {
    && (e.reversalOf.Some? <==> e.eventType == ReturnAccepted)
    && (e.reversalOf.Some? ==>
          && Key(tenant, e.reversalOf.value) in s.byId
          && ReversalTerms(s.byId[Key(tenant, e.reversalOf.value)], e))
  }

  predicate ReversalTerms(sale: Event, e: Event) {
    sale.accountId == e.accountId && sale.eventType == SaleRecognized && SameTerms(sale, e)
  }

  /** The candidate together with the returns it competes with stays within the sale. */
  ghost predicate RoomFor(s: State, tenant: string, e: Event) {
    e.reversalOf.Some? && Key(tenant, e.reversalOf.value) in s.byId ==>
      var sale := s.byId[Key(tenant, e.reversalOf.value)];
      Within(Plus(TotalsOf(e), SumOf(CompetingReturns(s, tenant, sale.eventId, e))), TotalsOf(sale))
  }

  ghost predicate EventFits(s: State, tenant: string, row: SourceRow, e: Event) {
    && Lineage(row, e) && IdentityFits(s, tenant, e) && SuccessionFits(s, tenant, e)
    && TargetFits(s, tenant, e) && RoomFor(s, tenant, e)
  }

  lemma LineageExact(row: SourceRow, e: Event)
    ensures ValidateLineage(row, e).Ok? <==> Lineage(row, e)
  {
  }

  lemma TermsExact(sale: Event, e: Event)
    ensures CompareTerms(sale, e).Ok? <==> SameTerms(sale, e)
  {
  }

  lemma ReversalExact(s: State, tenant: string, e: Event)
    ensures ValidateReversal(s, tenant, e).Ok? <==> TargetFits(s, tenant, e) && RoomFor(s, tenant, e)
  {
    if e.reversalOf.Some? && Key(tenant, e.reversalOf.value) in s.byId {
      TermsExact(s.byId[Key(tenant, e.reversalOf.value)], e);
    }
  }

  lemma EventExact(s: State, tenant: string, e: Event)
    ensures CheckEvent(s, tenant, e).Ok? <==>
      IdentityFits(s, tenant, e) && SuccessionFits(s, tenant, e) && TargetFits(s, tenant, e) && RoomFor(s, tenant, e)
  {
    ReversalExact(s, tenant, e);
  }

  /** The ledger accepts an append exactly when the row and the event fit what is stored. */
  lemma AppendExact(s: State, tenant: string, row: SourceRow, event: Option<Event>)
    ensures Append(s, tenant, row, event).Ok? <==>
      RowFits(s, tenant, row) && (if event.None? then row.status != Valid else EventFits(s, tenant, row, event.value))
  {
    if event.Some? {
      LineageExact(row, event.value);
      EventExact(s, tenant, event.value);
    }
  }

  // ----- The invariant

  predicate StoredAs(s: State, tenant: string, e: Event) {
    var i, d, r := Key(tenant, e.eventId), Key(tenant, e.idempotencyKey), RevisionOf(tenant, e);
    && i in s.byId && s.byId[i] == e
    && d in s.byIdempotency && s.byIdempotency[d] == e
    && r in s.byRevision && s.byRevision[r] == e
  }

  /** The id, idempotency and revision maps hold the same events, each under its own keys. */
  ghost predicate Indexed(s: State) {
    && (forall k <- s.byId :: k.id == s.byId[k].eventId && StoredAs(s, k.tenant, s.byId[k]))
    && (forall d <- s.byIdempotency ::
          d.id == s.byIdempotency[d].idempotencyKey && StoredAs(s, d.tenant, s.byIdempotency[d]))
    && (forall r <- s.byRevision ::
          r == RevisionOf(r.tenant, s.byRevision[r]) && StoredAs(s, r.tenant, s.byRevision[r]))
  }

  /** Rows sit under their own key, and rows and locators name each other. */
  ghost predicate Located(s: State) {
    && (forall k <- s.rows ::
          var r := s.rows[k];
          && k == Key(r.tenantId, r.recordId)
          && RowLocator(k.tenant, r) in s.locators && s.locators[RowLocator(k.tenant, r)] == k.id)
    && (forall l <- s.locators ::
          && Key(l.tenant, s.locators[l]) in s.rows
          && s.rows[Key(l.tenant, s.locators[l])].rowNumber == l.rowNumber)
  }

  predicate HasRow(s: State, tenant: string, e: Event) {
    Key(tenant, e.recordId) in s.rows && Lineage(s.rows[Key(tenant, e.recordId)], e)
  }

  ghost predicate HasEvent(s: State, r: Key) {
    exists k :: k in s.byId && k.tenant == r.tenant && s.byId[k].recordId == r.id
  }

  /** Every event descends from a stored row; every VALID row has an event. */
  ghost predicate Traced(s: State) {
    && (forall k <- s.byId :: HasRow(s, k.tenant, s.byId[k]))
    && (forall r <- s.rows :: s.rows[r].status == Valid ==> HasEvent(s, r))
  }

  /** Revision 1 supersedes nothing; every later revision supersedes its predecessor. */
  ghost predicate Chained(s: State) {
    forall k <- s.byId :: SuccessionFits(s, k.tenant, s.byId[k])
  }

  /** A return reverses a stored sale of its account, in the same product and units. */
  ghost predicate Reversing(s: State) {
    forall k <- s.byId :: TargetFits(s, k.tenant, s.byId[k])
  }

  /** The returns in force against an event never exceed it, in quantity or in amount. */
  ghost predicate Conserved(s: State) {
    forall k <- s.byId :: Within(SumOf(ActiveReturns(s, k.tenant, k.id)), TotalsOf(s.byId[k]))
  }

  ghost predicate Inv(s: State) {
    Indexed(s) && Located(s) && Traced(s) && Chained(s) && Reversing(s) && Conserved(s)
  }

  ghost predicate KeyedById(s: State) {
    forall k <- s.byId :: k.id == s.byId[k].eventId
  }

  /** What the invariant says of one stored event. */
  lemma EventFacts(s: State, k: Key)
    requires Inv(s) && k in s.byId
    ensures KeyedById(s) && s.byId[k].eventId == k.id
    ensures StoredAs(s, k.tenant, s.byId[k])
    ensures SuccessionFits(s, k.tenant, s.byId[k])
    ensures TargetFits(s, k.tenant, s.byId[k])
    ensures HasRow(s, k.tenant, s.byId[k])
    ensures Within(SumOf(ActiveReturns(s, k.tenant, k.id)), TotalsOf(s.byId[k]))
  {
    hide Located, HasEvent, StoredAs, SuccessionFits, TargetFits, HasRow, Within;
  }

  // ----- What storing one new event keeps

  /** An event the ledger has not stored, about to be stored. */
  ghost predicate Fresh(s: State, tenant: string, e: Event) {
    KeyedById(s) && Chained(s) && Key(tenant, e.eventId) !in s.byId && SuccessionFits(s, tenant, e)
  }

  lemma FreshKeys(s: State, tenant: string, e: Event)
    requires Indexed(s) && IdentityFits(s, tenant, e) && Key(tenant, e.eventId) !in s.byId
    ensures Key(tenant, e.idempotencyKey) !in s.byIdempotency && RevisionOf(tenant, e) !in s.byRevision
  {
  }

  lemma StoredStays(s: State, tenant: string, e: Event, scope: string, x: Event)
    requires Indexed(s) && IdentityFits(s, tenant, e) && Key(tenant, e.eventId) !in s.byId
    ensures StoredAs(s, scope, x) ==> StoredAs(WithEvent(s, tenant, e), scope, x)
    ensures StoredAs(WithEvent(s, tenant, e), tenant, e)
  {
    FreshKeys(s, tenant, e);
    hide Indexed;
  }

  lemma IndexedKept(s: State, tenant: string, e: Event)
    requires Indexed(s) && IdentityFits(s, tenant, e) && Key(tenant, e.eventId) !in s.byId
    ensures Indexed(WithEvent(s, tenant, e))
  {
    forall scope, x {
      StoredStays(s, tenant, e, scope, x);
    }
    hide StoredAs, IdentityFits;
  }

  lemma ChainedKept(s: State, tenant: string, e: Event)
    requires Fresh(s, tenant, e)
    ensures Chained(WithEvent(s, tenant, e))
  {
    var t := WithEvent(s, tenant, e);
    forall k <- t.byId
      ensures SuccessionFits(t, k.tenant, t.byId[k])
    {
      assert k in s.byId ==> SuccessionFits(s, k.tenant, s.byId[k]);
    }
  }

  lemma ReversingKept(s: State, tenant: string, e: Event)
    requires Fresh(s, tenant, e) && Reversing(s) && TargetFits(s, tenant, e)
    ensures Reversing(WithEvent(s, tenant, e))
  {
    var t := WithEvent(s, tenant, e);
    forall k <- t.byId
      ensures TargetFits(t, k.tenant, t.byId[k])
    {
      assert k in s.byId ==> TargetFits(s, k.tenant, s.byId[k]);
    }
  }

  /** Membership in the active returns, by key rather than by comprehension. */
  predicate IsActive(s: State, tenant: string, sale: string, x: Event) {
    && Key(tenant, x.eventId) in s.byId && s.byId[Key(tenant, x.eventId)] == x
    && x.eventId !in SupersededIds(s, tenant)
    && x.eventType == ReturnAccepted && x.reversalOf == Some(sale)
  }

  lemma ActiveMember(s: State, tenant: string, sale: string, x: Event)
    requires KeyedById(s)
    ensures x in ActiveReturns(s, tenant, sale) <==> IsActive(s, tenant, sale, x)
  {
    if x in ActiveReturns(s, tenant, sale) {
      var k :| k in s.byId && k.tenant == tenant && s.byId[k] == x;
      assert k == Key(tenant, x.eventId);
    }
  }

  lemma SupersededAfter(s: State, tenant: string, e: Event, scope: string, id: string)
    requires Fresh(s, tenant, e)
    ensures id in SupersededIds(WithEvent(s, tenant, e), scope) <==>
      id in SupersededIds(s, scope) || (scope == tenant && e.supersedes == Some(id))
  {
    var t := WithEvent(s, tenant, e);
    if id in SupersededIds(s, scope) {
      var k :| k in s.byId && k.tenant == scope && s.byId[k].supersedes == Some(id);
      assert k in t.byId && t.byId[k] == s.byId[k];
    }
    if scope == tenant && e.supersedes == Some(id) {
      var i := Key(tenant, e.eventId);
      assert i in t.byId && t.byId[i] == e;
    }
  }

  /** Supersession and reversal only ever point at events that are already there. */
  lemma NewIsUnreferenced(s: State, tenant: string, e: Event)
    requires Fresh(s, tenant, e)
    ensures e.eventId !in SupersededIds(s, tenant) && e.supersedes != Some(e.eventId)
  {
  }

  predicate Reverses(e: Event, sale: string) {
    e.eventType == ReturnAccepted && e.reversalOf == Some(sale)
  }

  lemma ActiveAfterMember(s: State, tenant: string, e: Event, scope: string, sale: string, x: Event)
    requires Fresh(s, tenant, e)
    ensures IsActive(WithEvent(s, tenant, e), scope, sale, x) <==>
      if scope != tenant then IsActive(s, scope, sale, x)
      else (IsActive(s, tenant, sale, x) && e.supersedes != Some(x.eventId)) || (x == e && Reverses(e, sale))
  {
    SupersededAfter(s, tenant, e, scope, x.eventId);
    NewIsUnreferenced(s, tenant, e);
  }

  lemma ActiveAfterOne(s: State, tenant: string, e: Event, scope: string, sale: string, x: Event)
    requires Fresh(s, tenant, e)
    ensures x in ActiveReturns(WithEvent(s, tenant, e), scope, sale) <==>
      if scope != tenant then x in ActiveReturns(s, scope, sale)
      else (x in ActiveReturns(s, tenant, sale) && e.supersedes != Some(x.eventId)) || (x == e && Reverses(e, sale))
  {
    var t := WithEvent(s, tenant, e);
    assert KeyedById(t);
    ActiveMember(s, scope, sale, x);
    ActiveMember(t, scope, sale, x);
    ActiveAfterMember(s, tenant, e, scope, sale, x);
    hide *;
  }

  /** Storing an event retires the return it supersedes and adds itself if it is a return. */
  lemma ActiveAfter(s: State, tenant: string, e: Event, scope: string, sale: string)
    requires Fresh(s, tenant, e)
    ensures scope != tenant ==> ActiveReturns(WithEvent(s, tenant, e), scope, sale) == ActiveReturns(s, scope, sale)
    ensures scope == tenant ==>
      ActiveReturns(WithEvent(s, tenant, e), scope, sale) ==
      CompetingReturns(s, tenant, sale, e) + (if Reverses(e, sale) then {e} else {})
  {
    hide WithEvent, Reverses, ActiveReturns, SupersededIds;
    var t := WithEvent(s, tenant, e);
    forall x
      ensures x in ActiveReturns(t, scope, sale) <==>
        if scope != tenant then x in ActiveReturns(s, scope, sale)
        else (x in ActiveReturns(s, tenant, sale) && e.supersedes != Some(x.eventId)) || (x == e && Reverses(e, sale))
    {
      ActiveAfterOne(s, tenant, e, scope, sale, x);
    }
    forall x <- ActiveReturns(s, tenant, sale)
      ensures x.eventId != e.eventId
    {
      ActiveMember(s, tenant, sale, x);
      assert IsActive(s, tenant, sale, x);
    }
    hide Fresh, IsActive;
  }

  lemma ConservedKept(s: State, tenant: string, e: Event)
    requires Fresh(s, tenant, e) && Conserved(s) && Reversing(s)
    requires TargetFits(s, tenant, e) && RoomFor(s, tenant, e)
    ensures Conserved(WithEvent(s, tenant, e))
  {
    var t := WithEvent(s, tenant, e);
    forall k <- t.byId
      ensures Within(SumOf(ActiveReturns(t, k.tenant, k.id)), TotalsOf(t.byId[k]))
    {
      if k == Key(tenant, e.eventId) {
        NoReturnsYet(s, tenant, e);
      } else {
        ConservedAt(s, tenant, e, k);
      }
    }
  }

  lemma ConservedAt(s: State, tenant: string, e: Event, k: Key)
    requires Fresh(s, tenant, e) && TargetFits(s, tenant, e) && RoomFor(s, tenant, e)
    requires k in s.byId && Within(SumOf(ActiveReturns(s, k.tenant, k.id)), TotalsOf(s.byId[k]))
    ensures Within(SumOf(ActiveReturns(WithEvent(s, tenant, e), k.tenant, k.id)), TotalsOf(s.byId[k]))
  {
    ActiveAfter(s, tenant, e, k.tenant, k.id);
    if k.tenant == tenant {
      var rivals := CompetingReturns(s, tenant, k.id, e);
      SumSubset(rivals, ActiveReturns(s, tenant, k.id), TotalsOf);
      if Reverses(e, k.id) {
        assert k == Key(tenant, e.reversalOf.value) && s.byId[k].eventId == k.id;
        SumInsert(rivals, e, TotalsOf);
      } else {
        assert rivals + {} == rivals;
      }
    }
  }

  /** Nothing can reverse an event before it is stored. */
  lemma NoReturnsYet(s: State, tenant: string, e: Event)
    requires Fresh(s, tenant, e) && Reversing(s) && TargetFits(s, tenant, e)
    ensures ActiveReturns(WithEvent(s, tenant, e), tenant, e.eventId) == {}
  {
    var t := WithEvent(s, tenant, e);
    assert KeyedById(t);
    forall x
      ensures x !in ActiveReturns(t, tenant, e.eventId)
    {
      ActiveMember(t, tenant, e.eventId, x);
      ActiveAfterMember(s, tenant, e, tenant, e.eventId, x);
    }
  }

  // ----- Rows

  /** After a row step the row is there, under its tenant, and both it and its locator are right. */
  lemma RowPlaced(s: State, tenant: string, row: SourceRow)
    requires Located(s) && RowFits(s, tenant, row)
    ensures
      var t, k := WithRow(s, tenant, row), Key(tenant, row.recordId);
      && t.rows[k].rowNumber == row.rowNumber
      && (forall i <- t.rows :: i == Key(t.rows[i].tenantId, t.rows[i].recordId))
  {
    var t, k := WithRow(s, tenant, row), Key(tenant, row.recordId);
    assert t.rows[k].Fingerprint().rowNumber == row.Fingerprint().rowNumber;
  }

  lemma LocatedKept(s: State, tenant: string, row: SourceRow)
    requires Located(s) && RowFits(s, tenant, row)
    ensures Located(WithRow(s, tenant, row))
  {
    var t, k, l := WithRow(s, tenant, row), Key(tenant, row.recordId), RowLocator(tenant, row);
    RowPlaced(s, tenant, row);
    assert l in s.locators ==> s.locators[l] == row.recordId;
    hide RowFits;
    forall i <- t.rows
      ensures RowLocator(i.tenant, t.rows[i]) in t.locators && t.locators[RowLocator(i.tenant, t.rows[i])] == i.id
    {
      assert i in s.rows ==> t.rows[i] == s.rows[i];
      assert i !in s.rows ==> i == k && t.rows[i] == row;
    }
    forall m <- t.locators
      ensures Key(m.tenant, t.locators[m]) in t.rows && t.rows[Key(m.tenant, t.locators[m])].rowNumber == m.rowNumber
    {
      assert m != l ==> m in s.locators && t.locators[m] == s.locators[m];
    }
  }

  lemma LineageByFingerprint(a: SourceRow, b: SourceRow, e: Event)
    requires a.Fingerprint() == b.Fingerprint()
    ensures Lineage(a, e) == Lineage(b, e) && a.status == b.status
  {
    assert a.Fingerprint().status == b.Fingerprint().status && a.Fingerprint().tenantId == b.Fingerprint().tenantId;
    assert a.Fingerprint().recordId == b.Fingerprint().recordId && a.Fingerprint().rowKey == b.Fingerprint().rowKey;
    assert a.Fingerprint().batchId == b.Fingerprint().batchId &&
      a.Fingerprint().fileSha256 == b.Fingerprint().fileSha256;
    assert a.Fingerprint().adapterId == b.Fingerprint().adapterId;
    assert a.Fingerprint().adapterVersion == b.Fingerprint().adapterVersion;
    assert a.Fingerprint().schemaVersion == b.Fingerprint().schemaVersion;
  }

  lemma RowOfNewEvent(s: State, tenant: string, row: SourceRow, e: Event)
    requires RowFits(s, tenant, row) && Lineage(row, e)
    ensures HasRow(WithRow(s, tenant, row), tenant, e)
  {
    var k := Key(tenant, row.recordId);
    if k in s.rows {
      LineageByFingerprint(s.rows[k], row, e);
    }
  }

  ghost predicate Extends(s: State, t: State) {
    && (forall k <- s.rows :: k in t.rows && t.rows[k] == s.rows[k])
    && (forall k <- s.byId :: k in t.byId && t.byId[k] == s.byId[k])
  }

  /** Tracing survives an extension if the new events have rows and the new VALID rows have events. */
  lemma TracedByExtension(s: State, t: State)
    requires Traced(s) && Extends(s, t)
    requires forall k <- t.byId :: k in s.byId || HasRow(t, k.tenant, t.byId[k])
    requires forall k <- t.rows :: k in s.rows || t.rows[k].status != Valid || HasEvent(t, k)
    ensures Traced(t)
  {
    hide Lineage;
    forall k <- t.byId
      ensures HasRow(t, k.tenant, t.byId[k])
    {
      assert k in s.byId ==> HasRow(s, k.tenant, s.byId[k]);
    }
    forall k <- t.rows | t.rows[k].status == Valid
      ensures HasEvent(t, k)
    {
      if k in s.rows {
        var i :| i in s.byId && i.tenant == k.tenant && s.byId[i].recordId == k.id;
        assert i in t.byId;
      }
    }
  }

  lemma TracedByRow(s: State, tenant: string, row: SourceRow)
    requires Traced(s) && RowFits(s, tenant, row) && row.status != Valid
    ensures Traced(WithRow(s, tenant, row))
  {
    TracedByExtension(s, WithRow(s, tenant, row));
  }

  lemma ExtendedBy(s: State, tenant: string, row: SourceRow, e: Event)
    requires Key(tenant, e.eventId) in s.byId ==> s.byId[Key(tenant, e.eventId)] == e
    ensures
      var t := WithEvent(WithRow(s, tenant, row), tenant, e);
      && Extends(s, t)
      && (forall k <- t.byId :: k in s.byId || (k == Key(tenant, e.eventId) && t.byId[k] == e))
      && (forall k <- t.rows :: k in s.rows || k == Key(tenant, row.recordId))
      && Key(tenant, e.eventId) in t.byId && t.byId[Key(tenant, e.eventId)] == e
      && t.rows == WithRow(s, tenant, row).rows
  {
  }

  lemma TracedByEvent(s: State, tenant: string, row: SourceRow, e: Event)
    requires Traced(s) && RowFits(s, tenant, row) && Lineage(row, e) && IdentityFits(s, tenant, e)
    ensures Traced(WithEvent(WithRow(s, tenant, row), tenant, e))
  {
    var t := WithEvent(WithRow(s, tenant, row), tenant, e);
    ExtendedBy(s, tenant, row, e);
    RowOfNewEvent(s, tenant, row, e);
    hide WithRow, WithEvent, RowFits, IdentityFits, Extends, Traced;
    assert e.recordId == row.recordId;
    hide Lineage;
    TracedByExtension(s, t);
  }

  /** Storing an event again changes nothing. */
  lemma Restored(s: State, tenant: string, e: Event)
    requires StoredAs(s, tenant, e)
    ensures WithEvent(s, tenant, e) == s
  {
  }

  predicate SameEvents(s: State, r: State) {
    r.byId == s.byId && r.byIdempotency == s.byIdempotency && r.byRevision == s.byRevision
  }

  lemma SameActive(s: State, r: State, tenant: string, sale: string)
    requires SameEvents(s, r)
    ensures ActiveReturns(r, tenant, sale) == ActiveReturns(s, tenant, sale)
  {
    assert SupersededIds(r, tenant) == SupersededIds(s, tenant);
  }

  /** Rows do not enter into the rules on events. */
  lemma SameFits(s: State, r: State, tenant: string, e: Event)
    requires SameEvents(s, r)
    ensures IdentityFits(r, tenant, e) == IdentityFits(s, tenant, e)
    ensures SuccessionFits(r, tenant, e) == SuccessionFits(s, tenant, e)
    ensures TargetFits(r, tenant, e) == TargetFits(s, tenant, e)
    ensures RoomFor(r, tenant, e) == RoomFor(s, tenant, e)
  {
    hide ReversalTerms, Within, SumOf, TotalsOf, Succeeds;
    forall sale {
      SameActive(s, r, tenant, sale);
    }
  }

  lemma SameEventsKept(s: State, r: State)
    requires SameEvents(s, r) && EventsKept(s)
    ensures EventsKept(r)
  {
    IndexedByRows(s, r);
    assert Chained(r) && Reversing(r) && Conserved(r) by {
      hide Indexed, SuccessionFits, TargetFits, Within;
      forall k <- r.byId
        ensures SuccessionFits(r, k.tenant, r.byId[k]) && TargetFits(r, k.tenant, r.byId[k])
        ensures Within(SumOf(ActiveReturns(r, k.tenant, k.id)), TotalsOf(r.byId[k]))
      {
        assert SuccessionFits(s, k.tenant, s.byId[k]) && TargetFits(s, k.tenant, s.byId[k]);
        SameFits(s, r, k.tenant, s.byId[k]);
        SameActive(s, r, k.tenant, k.id);
      }
    }
  }

  ghost predicate EventsKept(s: State) {
    Indexed(s) && Chained(s) && Reversing(s) && Conserved(s)
  }

  lemma IndexedByRows(s: State, r: State)
    requires Indexed(s) && SameEvents(s, r)
    ensures Indexed(r)
  {
    forall scope, x
      ensures StoredAs(s, scope, x) == StoredAs(r, scope, x)
    {
    }
  }

  lemma EventsKeptByOne(s: State, tenant: string, e: Event)
    requires EventsKept(s)
    requires IdentityFits(s, tenant, e) && SuccessionFits(s, tenant, e) && TargetFits(s, tenant, e) &&
      RoomFor(s, tenant, e)
    ensures EventsKept(WithEvent(s, tenant, e))
  {
    if Key(tenant, e.eventId) in s.byId {
      Restored(s, tenant, e);
    } else {
      assert Fresh(s, tenant, e);
      IndexedKept(s, tenant, e);
      ChainedKept(s, tenant, e);
      ReversingKept(s, tenant, e);
      ConservedKept(s, tenant, e);
    }
  }

  /** An accepted append, as one row step and one event step. */
  lemma AppendSteps(s: State, tenant: string, row: SourceRow, event: Option<Event>)
    requires Indexed(s) && Append(s, tenant, row, event).Ok?
    ensures
      var t := Append(s, tenant, row, event).value.state;
      t == if event.None? then WithRow(s, tenant, row) else WithEvent(WithRow(s, tenant, row), tenant, event.value)
  {
    AppendExact(s, tenant, row, event);
    if event.Some? && Key(tenant, event.value.eventId) in s.byId {
      IndexedByRows(s, WithRow(s, tenant, row));
      Restored(WithRow(s, tenant, row), tenant, event.value);
    }
  }

  /** Every accepted append keeps the whole invariant. */
  lemma AppendKeepsInv(s: State, tenant: string, row: SourceRow, event: Option<Event>)
    requires Inv(s) && Append(s, tenant, row, event).Ok?
    ensures Inv(Append(s, tenant, row, event).value.state)
  {
    hide Append, Indexed, Located, Traced, Chained, Reversing, Conserved;
    hide Lineage, RowFits, IdentityFits, SuccessionFits, TargetFits, RoomFor, WithRow, WithEvent;
    AppendExact(s, tenant, row, event);
    AppendSteps(s, tenant, row, event);
    if event.None? {
      RowKeepsInv(s, tenant, row);
    } else {
      EventKeepsInv(s, tenant, row, event.value);
    }
  }

  lemma RowKeepsInv(s: State, tenant: string, row: SourceRow)
    requires Inv(s) && RowFits(s, tenant, row) && row.status != Valid
    ensures Inv(WithRow(s, tenant, row))
  {
    assert SameEvents(s, WithRow(s, tenant, row));
    hide Indexed, Located, Traced, Chained, Reversing, Conserved, RowFits, WithRow, SameEvents;
    LocatedKept(s, tenant, row);
    TracedByRow(s, tenant, row);
    SameEventsKept(s, WithRow(s, tenant, row));
  }

  lemma EventKeepsInv(s: State, tenant: string, row: SourceRow, e: Event)
    requires Inv(s) && RowFits(s, tenant, row) && EventFits(s, tenant, row, e)
    ensures Inv(WithEvent(WithRow(s, tenant, row), tenant, e))
  {
    hide Indexed, Located, Traced, Chained, Reversing, Conserved, RowFits;
    hide Lineage, IdentityFits, SuccessionFits, TargetFits, RoomFor;
    var r := WithRow(s, tenant, row);
    assert SameEvents(s, r);
    hide WithRow, SameEvents;
    LocatedKept(s, tenant, row);
    LocatedByEvents(r, WithEvent(r, tenant, e));
    hide WithEvent;
    TracedByEvent(s, tenant, row, e);
    SameEventsKept(s, r);
    SameFits(s, r, tenant, e);
    EventsKeptByOne(r, tenant, e);
  }

  lemma LocatedByEvents(r: State, t: State)
    requires Located(r) && t.rows == r.rows && t.locators == r.locators
    ensures Located(t)
  {
  }
}
