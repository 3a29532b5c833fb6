/** The ledger object: five dictionaries updated in place, each public method one atomic step. */
module Ledger {
  import opened Base
  import opened Sums
  import opened LedgerModel
  import opened LedgerInvariants
  import opened LedgerTheorems
  import opened LedgerReplay

  datatype EventTrace = EventTrace(event: Event, row: SourceRow, rawFileId: string, fileSha256: string)

  class InMemoryCanonicalLedger {
    var sourceById: map<Key, SourceRow>
    var sourceByLocator: map<Locator, string>
    var eventById: map<Key, Event>
    var eventByIdempotency: map<Key, Event>
    var eventByRevision: map<RevisionKey, Event>

    function Contents(): State
      reads this
    {
      State(sourceById, sourceByLocator, eventById, eventByIdempotency, eventByRevision)
    }

    ghost predicate Valid()
      reads this
    {
      Inv(Contents())
    }

    constructor ()
      ensures Contents() == EMPTY && Valid()
    {
      sourceById, sourceByLocator := map[], map[];
      eventById, eventByIdempotency, eventByRevision := map[], map[], map[];
      new;
      EmptyInv();
    }

    /** `_active_reversals`. */
    method ActiveReversals(tenant: string, originalId: string, candidate: Event) returns (items: set<Event>)
      ensures items == CompetingReturns(Contents(), tenant, originalId, candidate)
    {
      var superseded := set k | k in eventById && k.tenant == tenant && eventById[k].supersedes.Some?
        :: eventById[k].supersedes.value;
      assert superseded == SupersededIds(Contents(), tenant);
      if candidate.supersedes.Some? {
        superseded := superseded + {candidate.supersedes.value};
      }
      items := set k | k in eventById && k.tenant == tenant
                       && eventById[k].eventId != candidate.eventId
                       && eventById[k].eventId !in superseded
                       && eventById[k].eventType == ReturnAccepted
                       && eventById[k].reversalOf == Some(originalId)
        :: eventById[k];
      hide SupersededIds;
    }

    /**
     The accumulation loop of `_validate_reversal`. Its unit check can never fire: in a valid
     ledger every return of a sale shares the sale's product and units.
     */
    method AddUp(sale: Event, event: Event, existing: set<Event>) returns (quantity: int, amount: real)
      requires SameTerms(sale, event)
      requires forall x <- existing :: SameTerms(sale, x)
      ensures Totals(quantity, amount) == Plus(TotalsOf(event), SumOf(existing))
    {
      quantity, amount := TypedInteger(event.payload.quantity).value.0, TypedDecimal(event.payload.grossAmount).value.0;
      var rest := existing;
      while rest != {}
        invariant rest <= existing
        invariant Plus(Totals(quantity, amount), SumOf(rest)) == Plus(TotalsOf(event), SumOf(existing))
        decreases |rest|
      {
        var x :| x in rest;
        var q, a, p := TypedInteger(x.payload.quantity), TypedDecimal(x.payload.grossAmount),
          TypedString(x.payload.product);
        if q.Err? || a.Err? || p.Err?
          || p != TypedString(sale.payload.product)
          || q.value.1 != TypedInteger(sale.payload.quantity).value.1
          || a.value.1 != TypedDecimal(sale.payload.grossAmount).value.1
        {
          assert false;
        }
        ghost var others := rest - {x};
        SumInsert(others, x, TotalsOf);
        assert others + {x} == rest;
        quantity, amount := quantity + q.value.0, amount + a.value.0;
        rest := rest - {x};
      }
    }

    /** `_validate_reversal`. */
    method CheckReversal(tenant: string, event: Event) returns (r: Result<(), Code>)
      requires Valid()
      ensures r == ValidateReversal(Contents(), tenant, event)
    {
      hide Inv, CompareTerms, TypedInteger, TypedDecimal, TypedString, SumOf, CompetingReturns;
      if event.eventType == ReturnAccepted {
        if event.reversalOf == None {
          return Err(EventReversalRequired);
        }
      } else if event.reversalOf != None {
        return Err(EventReversalInvalid);
      } else {
        return Ok(());
      }
      var o := Key(tenant, event.reversalOf.value);
      if o !in eventById {
        return Err(EventReversalTargetMissing);
      }
      var original := eventById[o];
      if original.accountId != event.accountId || original.eventType != SaleRecognized {
        return Err(EventReversalInvalid);
      }
      var terms := CompareTerms(original, event);
      if terms.Err? {
        return terms;
      }
      var existing := ActiveReversals(tenant, original.eventId, event);
      TermsExact(original, event);
      ReturnsShareTerms(Contents(), tenant, o, event);
      var quantity, amount := AddUp(original, event, existing);
      if quantity > TypedInteger(original.payload.quantity).value.0 ||
        amount > TypedDecimal(original.payload.grossAmount).value.0 {
        return Err(EventReversalExceedsOriginal);
      }
      return Ok(());
    }

    /** `_append_locked`. */
    method AppendLocked(tenant: string, row: SourceRow, event: Option<Event>) returns (r: Result<AppendResult, Code>)
      requires Valid()
      modifies this
      ensures Valid()
      ensures match Append(old(Contents()), tenant, row, event)
        case Err(code) => r == Err(code) && Contents() == old(Contents())
        case Ok(a) => r == Ok(AppendResult(a.rowInserted, a.eventInserted)) && Contents() == a.state
    {
      hide Inv, ValidateLineage, ValidateReversal;
      if row.tenantId != tenant {
        return Err(SourceRowNotFound);
      }
      if event.None? && row.status == RowStatus.Valid {
        return Err(ValidSourceRowEventRequired);
      }
      if event.Some? {
        var lineage := ValidateLineage(row, event.value);
        if lineage.Err? {
          return Err(lineage.error);
        }
      }
      var sourceKey, locatorKey := Key(tenant, row.recordId), RowLocator(tenant, row);
      if sourceKey in sourceById && sourceById[sourceKey].Fingerprint() != row.Fingerprint() {
        return Err(SourceRecordConflict);
      }
      if locatorKey in sourceByLocator && sourceByLocator[locatorKey] != row.recordId {
        return Err(SourceRowLocatorConflict);
      }
      var eventInserted := false;
      if event.Some? {
        var e := event.value;
        var i, d := Key(tenant, e.eventId), Key(tenant, e.idempotencyKey);
        if i in eventById && eventById[i] != e {
          return Err(EventIdConflict);
        }
        if d in eventByIdempotency && eventByIdempotency[d] != e {
          return Err(EventIdempotencyConflict);
        }
        var revision := ValidateRevision(Contents(), tenant, e);
        if revision.Err? {
          return Err(revision.error);
        }
        var reversal := CheckReversal(tenant, e);
        if reversal.Err? {
          return Err(reversal.error);
        }
        eventInserted := i !in eventById;
      }
      AppendKeepsInv(Contents(), tenant, row, event);
      var sourceInserted := sourceKey !in sourceById;
      if sourceInserted {
        sourceById := sourceById[sourceKey := row];
      }
      sourceByLocator := sourceByLocator[locatorKey := row.recordId];
      if event.Some? && eventInserted {
        var e := event.value;
        eventById := eventById[Key(tenant, e.eventId) := e];
        eventByIdempotency := eventByIdempotency[Key(tenant, e.idempotencyKey) := e];
        eventByRevision := eventByRevision[RevisionOf(tenant, e) := e];
      }
      return Ok(AppendResult(sourceInserted, eventInserted));
    }

    /** `append_batch`: all items, or none and the five dictionaries as they were. */
    method AppendBatch(tenant: string, items: seq<Item>) returns (r: Result<seq<AppendResult>, Code>)
      requires Valid()
      modifies this
      ensures Valid()
      ensures match AppendAll(old(Contents()), tenant, items)
        case Err(code) => r == Err(code) && Contents() == old(Contents())
        case Ok(b) => r == Ok(b.results) && Contents() == b.state
    {
      hide Inv, Append;
      var backups := (sourceById, sourceByLocator, eventById, eventByIdempotency, eventByRevision);
      var results: seq<AppendResult> := [];
      for i := 0 to |items|
        invariant Valid()
        invariant backups == (old(sourceById), old(sourceByLocator), old(eventById), old(eventByIdempotency),
                              old(eventByRevision))
        invariant AppendAll(old(Contents()), tenant, items[..i]) == Ok(Batch(Contents(), results))
      {
        var one := AppendLocked(tenant, items[i].row, items[i].event);
        assert items[..i + 1][..i] == items[..i];
        if one.Err? {
          FailureSticks(old(Contents()), tenant, items, i + 1);
          sourceById, sourceByLocator, eventById, eventByIdempotency, eventByRevision :=
            backups.0, backups.1, backups.2, backups.3, backups.4;
          return Err(one.error);
        }
        results := results + [one.value];
      }
      assert items[..|items|] == items;
      return Ok(results);
    }

    /** `fork`: an independent ledger with the same contents. */
    method Fork() returns (clone: InMemoryCanonicalLedger)
      requires Valid()
      ensures fresh(clone) && clone.Valid() && clone.Contents() == Contents()
    {
      hide Inv;
      clone := new InMemoryCanonicalLedger();
      clone.sourceById, clone.sourceByLocator := sourceById, sourceByLocator;
      clone.eventById, clone.eventByIdempotency, clone.eventByRevision :=
        eventById, eventByIdempotency, eventByRevision;
    }

    /** `trace_event` never fails on a stored event, and what it returns belongs together. */
    method TraceEvent(tenant: string, eventId: string) returns (r: Result<EventTrace, Code>)
      requires Valid()
      ensures eventId == "" ==> r == Err(EventIdInvalid)
      ensures eventId != "" ==> (r.Ok? <==> Key(tenant, eventId) in Contents().byId)
      ensures eventId != "" && r.Err? ==> r == Err(EventNotFound)
      ensures r.Ok? ==>
        && r.value.event == Contents().byId[Key(tenant, eventId)]
        && r.value.row.status == RowStatus.Valid && r.value.row.tenantId == tenant
        && Lineage(r.value.row, r.value.event)
        && r.value.rawFileId == r.value.row.rawFileId
        && r.value.fileSha256 == r.value.event.provenance.fileSha256
    {
      if eventId == "" {
        return Err(EventIdInvalid);
      }
      if Key(tenant, eventId) !in eventById {
        return Err(EventNotFound);
      }
      var event := eventById[Key(tenant, eventId)];
      EventFacts(Contents(), Key(tenant, eventId));
      RowFacts(Contents(), Key(tenant, event.recordId));
      hide Inv;
      var row := sourceById[Key(tenant, event.recordId)];
      return Ok(EventTrace(event, row, row.rawFileId, row.fileSha256));
    }
  }

  /** All returns in force against a stored sale share its product and units. */
  lemma ReturnsShareTerms(s: State, tenant: string, o: Key, candidate: Event)
    requires Inv(s) && o in s.byId && o.tenant == tenant
    ensures forall x <- CompetingReturns(s, tenant, s.byId[o].eventId, candidate) :: SameTerms(s.byId[o], x)
  {
    hide Inv, SupersededIds, SameTerms;
    EventFacts(s, o);
    forall x <- CompetingReturns(s, tenant, s.byId[o].eventId, candidate)
      ensures SameTerms(s.byId[o], x)
    {
      ActiveMember(s, tenant, o.id, x);
      EventFacts(s, Key(tenant, x.eventId));
    }
  }

  /** Once an item of a batch is refused, so is the batch, with the same code. */
  lemma {:induction false} FailureSticks(s: State, tenant: string, items: seq<Item>, n: nat)
    requires n <= |items| && AppendAll(s, tenant, items[..n]).Err?
    ensures AppendAll(s, tenant, items) == AppendAll(s, tenant, items[..n])
    decreases |items|
  {
    hide Append;
    if n == |items| {
      assert items[..n] == items;
    } else {
      var shorter := items[..|items| - 1];
      assert shorter[..n] == items[..n];
      FailureSticks(s, tenant, shorter, n);
    }
  }
}
