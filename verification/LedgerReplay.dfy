/** Replaying what is stored, and what one tenant can see of another. */
module LedgerReplay {
  import opened Base
  import opened Sums
  import opened LedgerModel
  import opened LedgerInvariants
  import opened LedgerTheorems

  /** The events an upload stores again: same row content, possibly from another upload. */
  ghost predicate Replays(s: State, tenant: string, row: SourceRow, e: Event) {
    && Key(tenant, e.eventId) in s.byId && s.byId[Key(tenant, e.eventId)] == e
    && row.recordId == e.recordId && Key(tenant, e.recordId) in s.rows
    && s.rows[Key(tenant, e.recordId)].Fingerprint() == row.Fingerprint()
    && (RowLocator(tenant, row) in s.locators ==> s.locators[RowLocator(tenant, row)] == row.recordId)
  }

  /** A superseded return that no longer fits beside the returns in force. */
  ghost predicate Crowded(s: State, tenant: string, e: Event) {
    && e.eventType == ReturnAccepted && e.reversalOf.Some?
    && e.eventId in SupersededIds(s, tenant)
    && Key(tenant, e.reversalOf.value) in s.byId
    && !Within(Plus(TotalsOf(e), SumOf(ActiveReturns(s, tenant, e.reversalOf.value))),
               TotalsOf(s.byId[Key(tenant, e.reversalOf.value)]))
  }

  lemma CompetingOfStored(s: State, tenant: string, sale: string, e: Event)
    requires KeyedById(s) && Key(tenant, e.eventId) in s.byId && s.byId[Key(tenant, e.eventId)] == e
    requires Reverses(e, sale)
    ensures CompetingReturns(s, tenant, sale, e) == ActiveReturns(s, tenant, sale) - {e}
    ensures e in ActiveReturns(s, tenant, sale) <==> e.eventId !in SupersededIds(s, tenant)
  {
    ActiveMember(s, tenant, sale, e);
    forall x <- ActiveReturns(s, tenant, sale)
      ensures Some(x.eventId) != e.supersedes
      ensures x.eventId == e.eventId ==> x == e
    {
      ActiveMember(s, tenant, sale, x);
    }
  }

  /** A stored event finds room again unless it is a crowded superseded return. */
  lemma RoomAgain(s: State, tenant: string, e: Event)
    requires Inv(s) && Key(tenant, e.eventId) in s.byId && s.byId[Key(tenant, e.eventId)] == e
    ensures RoomFor(s, tenant, e) <==> !Crowded(s, tenant, e)
  {
    hide Inv, SupersededIds, Within, TotalsOf, SameTerms, HasRow, SuccessionFits, StoredAs;
    EventFacts(s, Key(tenant, e.eventId));
    if e.reversalOf.Some? {
      var sale := Key(tenant, e.reversalOf.value);
      EventFacts(s, sale);
      CompetingOfStored(s, tenant, sale.id, e);
      var active := ActiveReturns(s, tenant, sale.id);
      if e in active {
        SumInsert(active - {e}, e, TotalsOf);
        assert (active - {e}) + {e} == active;
      } else {
        assert active - {e} == active;
      }
    }
  }

  /**
   Replaying a stored event is accepted, and then only records where the row was seen again,
   exactly when the event is not a superseded return whose successor has taken its room.
   */
  lemma ReplayExact(s: State, tenant: string, row: SourceRow, e: Event)
    requires Inv(s) && Replays(s, tenant, row, e)
    ensures Append(s, tenant, row, Some(e)).Ok? <==> !Crowded(s, tenant, e)
    ensures !Crowded(s, tenant, e) ==>
      Append(s, tenant, row, Some(e)) ==
      Ok(Appended(s.(locators := s.locators[RowLocator(tenant, row) := row.recordId]), false, false))
  {
    hide Inv, Lineage, TargetFits, SuccessionFits, RoomFor, CheckAppend, Crowded, Within;
    EventFacts(s, Key(tenant, e.eventId));
    var stored := s.rows[Key(tenant, e.recordId)];
    assert row.tenantId == tenant by {
      RowFacts(s, Key(tenant, e.recordId));
      assert stored.Fingerprint().tenantId == row.Fingerprint().tenantId;
    }
    LineageByFingerprint(stored, row, e);
    RoomAgain(s, tenant, e);
    AppendExact(s, tenant, row, Some(e));
  }

  lemma RowFacts(s: State, k: Key)
    requires Inv(s) && k in s.rows
    ensures
      var r := s.rows[k];
      && k == Key(r.tenantId, r.recordId)
      && RowLocator(k.tenant, r) in s.locators && s.locators[RowLocator(k.tenant, r)] == k.id
  {
    hide Indexed, Traced, Chained, Reversing, Conserved;
  }

  /** Appending a stored row with its stored event leaves the ledger exactly as it was. */
  lemma ReplayIsNoOp(s: State, tenant: string, id: string)
    requires Inv(s) && Key(tenant, id) in s.byId && !Crowded(s, tenant, s.byId[Key(tenant, id)])
    ensures
      var e := s.byId[Key(tenant, id)];
      && Key(tenant, e.recordId) in s.rows
      && Append(s, tenant, s.rows[Key(tenant, e.recordId)], Some(e)) == Ok(Appended(s, false, false))
  {
    hide Inv, Lineage, TargetFits, SuccessionFits, CheckAppend, Append, Crowded, Within, StoredAs;
    var e := s.byId[Key(tenant, id)];
    EventFacts(s, Key(tenant, id));
    var k := Key(tenant, e.recordId);
    RowFacts(s, k);
    var row := s.rows[k];
    ReplayExact(s, tenant, row, e);
    assert s.locators[RowLocator(tenant, row) := row.recordId] == s.locators;
  }

  // ----- Tenants

  function Own<K, V>(m: map<K, V>, mine: K -> bool): map<K, V> {
    map k | k in m && mine(k) :: m[k]
  }

  lemma OwnUpdate<K, V>(m: map<K, V>, mine: K -> bool, k: K, v: V)
    ensures Own(m[k := v], mine) == if mine(k) then Own(m, mine)[k := v] else Own(m, mine)
  {
  }

  function KeyOf(tenant: string): Key -> bool { (k: Key) => k.tenant == tenant }
  function LocatorOf(tenant: string): Locator -> bool { (l: Locator) => l.tenant == tenant }
  function RevisionKeyOf(tenant: string): RevisionKey -> bool { (r: RevisionKey) => r.tenant == tenant }

  /** What a ledger holds for one tenant. */
  function View(s: State, tenant: string): State {
    State(
      Own(s.rows, KeyOf(tenant)),
      Own(s.locators, LocatorOf(tenant)),
      Own(s.byId, KeyOf(tenant)),
      Own(s.byIdempotency, KeyOf(tenant)),
      Own(s.byRevision, RevisionKeyOf(tenant)))
  }

  lemma ViewCompetes(s: State, tenant: string, sale: string, e: Event)
    ensures CompetingReturns(View(s, tenant), tenant, sale, e) == CompetingReturns(s, tenant, sale, e)
  {
    var v := View(s, tenant);
    assert SupersededIds(v, tenant) == SupersededIds(s, tenant) by {
      forall id
        ensures id in SupersededIds(v, tenant) <==> id in SupersededIds(s, tenant)
      {
        if id in SupersededIds(s, tenant) {
          var k :| k in s.byId && k.tenant == tenant && s.byId[k].supersedes == Some(id);
          assert k in v.byId && v.byId[k] == s.byId[k];
        }
      }
    }
    hide SupersededIds;
    forall x
      ensures x in ActiveReturns(v, tenant, sale) <==> x in ActiveReturns(s, tenant, sale)
    {
      if x in ActiveReturns(s, tenant, sale) {
        var k :| k in s.byId && k.tenant == tenant && s.byId[k] == x;
        assert k in v.byId && v.byId[k] == s.byId[k];
      }
    }
  }

  lemma ViewDecidesEvent(s: State, tenant: string, e: Event)
    ensures CheckEvent(View(s, tenant), tenant, e) == CheckEvent(s, tenant, e)
  {
    hide CompareTerms, CompetingReturns, Within, SumOf, TotalsOf, Succeeds;
    if e.reversalOf.Some? && Key(tenant, e.reversalOf.value) in s.byId {
      ViewCompetes(s, tenant, s.byId[Key(tenant, e.reversalOf.value)].eventId, e);
    }
  }

  /** Whether and why an append is refused depends on nothing outside the tenant. */
  lemma ViewDecides(s: State, tenant: string, row: SourceRow, event: Option<Event>)
    ensures CheckAppend(View(s, tenant), tenant, row, event) == CheckAppend(s, tenant, row, event)
  {
    hide ValidateLineage, CheckEvent;
    if event.Some? {
      ViewDecidesEvent(s, tenant, event.value);
    }
  }

  lemma ViewOfRow(s: State, tenant: string, row: SourceRow, scope: string)
    ensures View(WithRow(s, tenant, row), scope) == if scope == tenant then WithRow(View(s, tenant), tenant, row)
      else View(s, scope)
  {
    var k, l := Key(tenant, row.recordId), RowLocator(tenant, row);
    OwnUpdate(s.rows, KeyOf(scope), k, row);
    OwnUpdate(s.locators, LocatorOf(scope), l, row.recordId);
    assert k in s.rows <==> k in Own(s.rows, KeyOf(tenant));
    hide Own;
  }

  lemma ViewOfEvent(s: State, tenant: string, e: Event, scope: string)
    ensures View(WithEvent(s, tenant, e), scope) == if scope == tenant then WithEvent(View(s, tenant), tenant, e)
      else View(s, scope)
  {
    OwnUpdate(s.byId, KeyOf(scope), Key(tenant, e.eventId), e);
    OwnUpdate(s.byIdempotency, KeyOf(scope), Key(tenant, e.idempotencyKey), e);
    OwnUpdate(s.byRevision, RevisionKeyOf(scope), RevisionOf(tenant, e), e);
    hide Own;
  }

  /**
   A tenant's appends behave as if the ledger held nothing else, and leave every other
   tenant's part of it as it was.
   */
  lemma TenantsAreIsolated(s: State, tenant: string, row: SourceRow, event: Option<Event>, other: string)
    ensures
      var r, v := Append(s, tenant, row, event), Append(View(s, tenant), tenant, row, event);
      && (r.Ok? <==> v.Ok?)
      && (r.Err? ==> r == v)
      && (r.Ok? ==>
            && View(r.value.state, tenant) == v.value.state
            && r.value.rowInserted == v.value.rowInserted && r.value.eventInserted == v.value.eventInserted
            && (other != tenant ==> View(r.value.state, other) == View(s, other)))
  {
    ViewDecides(s, tenant, row, event);
    assert Key(tenant, row.recordId) in s.rows <==> Key(tenant, row.recordId) in View(s, tenant).rows;
    forall scope {
      ViewOfRow(s, tenant, row, scope);
    }
    if event.Some? {
      var e := event.value;
      assert Key(tenant, e.eventId) in s.byId <==> Key(tenant, e.eventId) in View(s, tenant).byId;
      forall scope {
        ViewOfEvent(WithRow(s, tenant, row), tenant, e, scope);
      }
    }
    hide CheckAppend, View, WithRow, WithEvent;
  }

  lemma {:induction false} BatchesAreIsolated(s: State, tenant: string, items: seq<Item>, other: string)
    ensures
      var r, v := AppendAll(s, tenant, items), AppendAll(View(s, tenant), tenant, items);
      && (r.Err? ==> r == v)
      && (r.Ok? ==> v == Ok(Batch(View(r.value.state, tenant), r.value.results)))
      && (r.Ok? && other != tenant ==> View(r.value.state, other) == View(s, other))
  {
    hide Append, View;
    if items == [] {
    } else {
      var before, last := items[..|items| - 1], items[|items| - 1];
      BatchesAreIsolated(s, tenant, before, other);
      if AppendAll(s, tenant, before).Ok? {
        TenantsAreIsolated(AppendAll(s, tenant, before).value.state, tenant, last.row, last.event, other);
      }
    }
  }

  function CallsOf(calls: seq<Call>, tenant: string): seq<Call> {
    if calls == [] then
      []
    else
      CallsOf(calls[..|calls| - 1], tenant) + if calls[|calls| - 1].tenant == tenant then [calls[|calls| - 1]] else []
  }

  /** What a tenant sees after any run is the ledger that its own calls alone would have built. */
  lemma {:induction false} RunsAreIsolated(calls: seq<Call>, tenant: string)
    ensures View(Run(calls), tenant) == Run(CallsOf(calls, tenant))
  {
    if calls == [] {
      assert View(EMPTY, tenant) == EMPTY;
    } else {
      hide View, AppendAll;
      var before, c := calls[..|calls| - 1], calls[|calls| - 1];
      RunsAreIsolated(before, tenant);
      BatchesAreIsolated(Run(before), c.tenant, c.items, tenant);
      var own := CallsOf(before, tenant);
      if c.tenant == tenant {
        assert (own + [c])[..|own|] == own;
      } else {
        assert CallsOf(calls, tenant) == own;
      }
    }
  }

  // ----- Growth

  function Count<T>(xs: seq<T>, which: T -> bool): (n: nat)
    ensures n <= |xs|
  {
    if xs == [] then 0 else Count(xs[..|xs| - 1], which) + if which(xs[|xs| - 1]) then 1 else 0
  }

  predicate RowInserted(r: AppendResult) { r.rowInserted }
  predicate EventInserted(r: AppendResult) { r.eventInserted }

  lemma AppendGrowth(s: State, tenant: string, row: SourceRow, event: Option<Event>)
    requires Append(s, tenant, row, event).Ok?
    ensures
      var a := Append(s, tenant, row, event).value;
      && |a.state.rows| == |s.rows| + (if a.rowInserted then 1 else 0)
      && |a.state.byId| == |s.byId| + (if a.eventInserted then 1 else 0)
  {
    hide CheckAppend;
  }

  /** A batch reports as inserted exactly as many rows and events as the ledger grows by. */
  lemma {:induction false} BatchGrowth(s: State, tenant: string, items: seq<Item>)
    requires AppendAll(s, tenant, items).Ok?
    ensures
      var b := AppendAll(s, tenant, items).value;
      && |b.results| == |items|
      && |b.state.rows| == |s.rows| + Count(b.results, RowInserted)
      && |b.state.byId| == |s.byId| + Count(b.results, EventInserted)
  {
    hide Append;
    if items != [] {
      var before, last := items[..|items| - 1], items[|items| - 1];
      BatchGrowth(s, tenant, before);
      var b := AppendAll(s, tenant, before).value;
      AppendGrowth(b.state, tenant, last.row, last.event);
      var results := AppendAll(s, tenant, items).value.results;
      assert results[..|results| - 1] == b.results;
    }
  }
}
