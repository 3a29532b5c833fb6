/** A sale of one item, its return, and a correction of that return: the first version no longer replays. */
module LedgerExample {
  import opened Base
  import opened Sums
  import opened LedgerModel
  import opened LedgerInvariants
  import opened LedgerTheorems
  import opened LedgerReplay
  import opened IngestModel
  import opened IngestRefusals
  import opened Reupload

  function ExampleRow(id: string, number: nat): SourceRow {
    SourceRow(id, "t", "upload", "file", "batch", number, id, "raw", Valid, [], "adapter", "1", "schema", 0)
  }

  function ExampleEvent(id: string, kind: EventType, key: string, revision: Revision, digit: char,
                        supersedes: Option<string>, reversalOf: Option<string>): Event {
    var payload := Payload(StringField("p"), IntegerField(1, "item"), DecimalField(Some(10.0), "RUB"), id);
    Event(id, "t", "account", kind, Aware(0), Aware(0), key, id, revision, seq(64, _ => digit), DigestOf(payload),
          "batch", id, "schema", payload,
          Provenance("file", "adapter", "1", "schema", "rules", "actor", Some(Aware(0)), "trace"),
          EventValid, Aware(0), supersedes, reversalOf)
  }

  const SALE := ExampleEvent("s", SaleRecognized, "sale", 1, 'a', None, None)
  const FIRST := ExampleEvent("r1", ReturnAccepted, "return", 1, 'b', None, Some("s"))
  const SECOND := ExampleEvent("r2", ReturnAccepted, "return", 2, 'c', Some("r1"), Some("s"))

  function Store(s: State, e: Event, number: nat): State {
    WithEvent(WithRow(s, "t", ExampleRow(e.eventId, number)), "t", e)
  }

  const AFTER_SALE := Store(EMPTY, SALE, 2)
  const AFTER_FIRST := Store(AFTER_SALE, FIRST, 3)
  const AFTER_SECOND := Store(AFTER_FIRST, SECOND, 4)

  const ITEMS := [
    Item(ExampleRow("s", 2), Some(SALE)),
    Item(ExampleRow("r1", 3), Some(FIRST)),
    Item(ExampleRow("r2", 4), Some(SECOND))
  ]

  lemma ExampleLineage(id: string, kind: EventType, key: string, revision: Revision, digit: char,
                       supersedes: Option<string>, reversalOf: Option<string>, number: nat)
    requires digit in "abc"
    ensures Lineage(ExampleRow(id, number), ExampleEvent(id, kind, key, revision, digit, supersedes, reversalOf))
  {
  }

  /** An event new to the ledger in every respect, on a row that is new too. */
  predicate New(s: State, e: Event, number: nat) {
    && Key("t", e.eventId) !in s.rows && RowLocator("t", ExampleRow(e.eventId, number)) !in s.locators
    && Key("t", e.eventId) !in s.byId && Key("t", e.idempotencyKey) !in s.byIdempotency
    && RevisionOf("t", e) !in s.byRevision
  }

  lemma Accepted(s: State, e: Event, number: nat)
    requires New(s, e, number) && Lineage(ExampleRow(e.eventId, number), e)
    requires SuccessionFits(s, "t", e) && TargetFits(s, "t", e) && RoomFor(s, "t", e)
    ensures Append(s, "t", ExampleRow(e.eventId, number), Some(e)) == Ok(Appended(Store(s, e, number), true, true))
  {
    hide Lineage, RoomFor, TargetFits, SuccessionFits, CheckAppend;
    AppendExact(s, "t", ExampleRow(e.eventId, number), Some(e));
  }

  lemma AcceptSale()
    ensures Append(EMPTY, "t", ExampleRow("s", 2), Some(SALE)) == Ok(Appended(AFTER_SALE, true, true))
  {
    ExampleLineage("s", SaleRecognized, "sale", 1, 'a', None, None, 2);
    assert New(EMPTY, SALE, 2);
    hide Append, Lineage;
    Accepted(EMPTY, SALE, 2);
  }

  lemma AcceptFirst()
    ensures Append(AFTER_SALE, "t", ExampleRow("r1", 3), Some(FIRST)) == Ok(Appended(AFTER_FIRST, true, true))
  {
    hide Append;
    ExampleLineage("r1", ReturnAccepted, "return", 1, 'b', None, Some("s"), 3);
    hide Lineage;
    assert New(AFTER_SALE, FIRST, 3) by {
      assert SALE.idempotencyKey[0] != FIRST.idempotencyKey[0];
    }
    assert TargetFits(AFTER_SALE, "t", FIRST);
    assert RoomFor(AFTER_SALE, "t", FIRST) by {
      assert CompetingReturns(AFTER_SALE, "t", "s", FIRST) == {};
    }
    hide New, TargetFits, RoomFor;
    Accepted(AFTER_SALE, FIRST, 3);
  }

  lemma SecondIsNew()
    ensures New(AFTER_FIRST, SECOND, 4)
  {
    assert SALE.idempotencyKey[0] != SECOND.idempotencyKey[0] && FIRST.idempotencyKey[0] != SECOND.idempotencyKey[0];
  }

  lemma ExampleTotals(e: Event)
    requires e in {SALE, FIRST, SECOND}
    ensures TotalsOf(e) == Totals(1, 10.0)
  {
  }

  lemma NoRivals()
    ensures CompetingReturns(AFTER_FIRST, "t", "s", SECOND) == {}
  {
    assert AFTER_FIRST.byId.Keys == {Key("t", "s"), Key("t", "r1")};
    hide SupersededIds;
  }

  lemma SecondHasRoom()
    ensures RoomFor(AFTER_FIRST, "t", SECOND)
  {
    NoRivals();
    ExampleTotals(SALE);
    ExampleTotals(SECOND);
    hide TotalsOf, CompetingReturns;
  }

  lemma SecondFits()
    ensures TargetFits(AFTER_FIRST, "t", SECOND) && SuccessionFits(AFTER_FIRST, "t", SECOND)
  {
  }

  lemma AcceptSecond()
    ensures Append(AFTER_FIRST, "t", ExampleRow("r2", 4), Some(SECOND)) == Ok(Appended(AFTER_SECOND, true, true))
  {
    hide Append, New, TargetFits, RoomFor, SuccessionFits, Lineage;
    ExampleLineage("r2", ReturnAccepted, "return", 2, 'c', Some("r1"), Some("s"), 4);
    SecondIsNew();
    SecondHasRoom();
    SecondFits();
    hide Store;
    Accepted(AFTER_FIRST, SECOND, 4);
  }

  lemma Reached()
    ensures Run([Call("t", ITEMS)]) == AFTER_SECOND
  {
    AcceptSale();
    AcceptFirst();
    AcceptSecond();
    hide Append, Store, ExampleEvent;
    var one, two := ITEMS[..1], ITEMS[..2];
    assert one[..0] == [] && one[0] == ITEMS[0];
    assert AppendAll(EMPTY, "t", []) == Ok(Batch(EMPTY, []));
    assert AppendAll(EMPTY, "t", one).Ok? && AppendAll(EMPTY, "t", one).value.state == AFTER_SALE;
    assert two[..1] == one && two[1] == ITEMS[1];
    assert AppendAll(EMPTY, "t", two).Ok? && AppendAll(EMPTY, "t", two).value.state == AFTER_FIRST;
    assert AppendAll(EMPTY, "t", ITEMS).Ok? && AppendAll(EMPTY, "t", ITEMS).value.state == AFTER_SECOND;
    assert [Call("t", ITEMS)][..0] == [];
  }

  lemma InForce()
    ensures "r1" in SupersededIds(AFTER_SECOND, "t")
    ensures ActiveReturns(AFTER_SECOND, "t", "s") == {SECOND}
  {
    var s := AFTER_SECOND;
    assert Key("t", "r2") in s.byId && s.byId[Key("t", "r2")] == SECOND;
    assert "r1" in SupersededIds(s, "t");
    assert "r2" !in SupersededIds(s, "t");
    hide SupersededIds;
    assert s.byId.Keys == {Key("t", "s"), Key("t", "r1"), Key("t", "r2")};
  }

  lemma FirstIsCrowded()
    ensures Crowded(AFTER_SECOND, "t", FIRST)
  {
    InForce();
    ExampleTotals(SALE);
    ExampleTotals(FIRST);
    ExampleTotals(SECOND);
    hide TotalsOf;
    SumInsert({}, SECOND, TotalsOf);
    assert {} + {SECOND} == {SECOND};
    hide ActiveReturns, SupersededIds;
  }

  /** In a reachable ledger a stored event is refused on replay, because its correction is in force. */
  lemma SupersededReturnIsRefused()
    ensures
      var s := Run([Call("t", ITEMS)]);
      && Replays(s, "t", ExampleRow("r1", 3), FIRST)
      && Append(s, "t", ExampleRow("r1", 3), Some(FIRST)).Err?
  {
    Reached();
    ReachableInv([Call("t", ITEMS)]);
    assert Replays(AFTER_SECOND, "t", ExampleRow("r1", 3), FIRST) by {
      hide Inv;
    }
    FirstIsCrowded();
    hide *;
    ReplayExact(AFTER_SECOND, "t", ExampleRow("r1", 3), FIRST);
  }

  const BATCH := [
    Candidate(ExampleRow("s", 2), SALE),
    Candidate(ExampleRow("r1", 3), FIRST),
    Candidate(ExampleRow("r2", 4), SECOND)
  ]

  lemma HeldEvents()
    ensures forall c <- BATCH ::
      && Key("t", c.event.eventId) in AFTER_SECOND.byId && AFTER_SECOND.byId[Key("t", c.event.eventId)] == c.event
      && c.row.recordId == c.event.recordId == c.event.eventId
  {
  }

  lemma HeldRows()
    ensures forall c <- BATCH ::
      && Key("t", c.row.recordId) in AFTER_SECOND.rows && AFTER_SECOND.rows[Key("t", c.row.recordId)] == c.row
  {
  }

  lemma HeldLines()
    ensures forall c <- BATCH :: LineFits(AFTER_SECOND, "t", c.row)
  {
  }

  lemma BatchLines()
    ensures LinesAgree(AFTER_SECOND, "t", BatchRows([], BATCH))
  {
    HeldLines();
    var rows := BatchRows([], BATCH);
    assert rows == {ExampleRow("s", 2), ExampleRow("r1", 3), ExampleRow("r2", 4)};
    hide LineFits, Store, ExampleEvent, BatchRows;
  }

  lemma BatchIsHeld()
    ensures Known(AFTER_SECOND, "t", [], BATCH)
  {
    HeldEvents();
    HeldRows();
    HeldLines();
    BatchLines();
    hide LinesAgree, SetAside, Store, ExampleEvent, ExampleRow, BatchRows;
  }

  /** The ledger that holds the three rows and events of a file refuses the file: its first return is crowded. */
  lemma CorrectedFileConflicts()
    ensures
      var s := Run([Call("t", ITEMS)]);
      Known(s, "t", [], BATCH) && PlanBatch(s, "t", [], BATCH) == Err(SourceRecordConflict)
  {
    Reached();
    ReachableInv([Call("t", ITEMS)]);
    BatchIsHeld();
    FirstIsCrowded();
    FirstNotRepeatable();
    hide *;
    KnownPlan(AFTER_SECOND, "t", [], BATCH);
  }

  lemma FirstNotRepeatable()
    requires Crowded(AFTER_SECOND, "t", FIRST)
    ensures !AllRepeatable(AFTER_SECOND, "t", BATCH)
  {
    hide Crowded, Replays, ExampleEvent, ExampleRow, Store;
    assert BATCH[1] in BATCH && BATCH[1].event == FIRST;
  }

  // ----- Planning the same file on an empty ledger

  lemma {:induction false} OnlyOneReady(s: State, tenant: string, ordered: seq<Candidate>, c: Candidate, item: Item)
    requires c in ordered && Attempted(s, tenant, c) == Planned(item)
    requires forall d <- ordered :: d == c || Attempted(s, tenant, d) == Missing
    ensures FirstDealt(s, tenant, ordered) == Progress(c, item)
  {
    hide Attempted;
    if ordered[0] != c {
      OnlyOneReady(s, tenant, ordered[1..], c, item);
    }
  }

  function AsIs(c: Candidate): Item {
    Item(c.row, Some(c.event))
  }

  /** One pass, when the first pending candidate can be stored and the others wait. */
  lemma PassTakes(s: State, c: Candidate, rest: seq<Candidate>, t: State)
    requires Append(s, "t", c.row, Some(c.event)) == Ok(Appended(t, true, true))
    requires forall d <- rest :: Attempted(s, "t", d) == Missing
    ensures PlanRest(s, "t", [c] + rest) == PlanRest(t, "t", rest).After(c, AsIs(c))
  {
    hide Append, Ordered;
    var pending := [c] + rest;
    assert c in multiset(pending) && c in multiset(Ordered(pending));
    OnlyOneReady(s, "t", Ordered(pending), c, Item(c.row, Some(c.event)));
    assert RemoveFirst(pending, c) == rest;
  }

  lemma NewWaits(s: State, c: Candidate, number: nat)
    requires c.row == ExampleRow(c.event.eventId, number) && New(s, c.event, number)
    requires Lineage(c.row, c.event) && NamesAbsent(s, "t", c.event)
    ensures Attempted(s, "t", c) == Missing
  {
    assert Consistent(s, "t", c.row, c.event) by {
      hide Lineage;
    }
    hide *;
    WaitsExact(s, "t", c);
  }

  lemma ExampleLineages()
    ensures forall c <- BATCH :: Lineage(c.row, c.event)
  {
    hide Lineage;
    ExampleLineage("s", SaleRecognized, "sale", 1, 'a', None, None, 2);
    ExampleLineage("r1", ReturnAccepted, "return", 1, 'b', None, Some("s"), 3);
    ExampleLineage("r2", ReturnAccepted, "return", 2, 'c', Some("r1"), Some("s"), 4);
  }

  lemma ReturnWaits()
    ensures Attempted(EMPTY, "t", BATCH[1]) == Missing
  {
    ExampleLineages();
    hide Attempted, Lineage;
    assert Continues(EMPTY, "t", FIRST);
    NewWaits(EMPTY, BATCH[1], 3);
  }

  lemma CorrectionWaits()
    ensures Attempted(EMPTY, "t", BATCH[2]) == Missing
    ensures Attempted(AFTER_SALE, "t", BATCH[2]) == Missing
  {
    ExampleLineages();
    hide Attempted, Lineage;
    NewWaits(EMPTY, BATCH[2], 4);
    assert New(AFTER_SALE, SECOND, 4) by {
      assert SALE.idempotencyKey[0] != SECOND.idempotencyKey[0];
    }
    NewWaits(AFTER_SALE, BATCH[2], 4);
  }

  lemma NothingToPlan(s: State)
    ensures PlanRest(s, "t", []) == Planning([], [], [], s, Complete)
  {
  }

  lemma PlannedAlone(s: State, candidates: seq<Candidate>, p: Planning)
    requires p == PlanRest(s, "t", candidates) && p.ending == Complete
    ensures PlanBatch(s, "t", [], candidates) == Ok(p.items)
  {
    hide PlanRest, Append;
    assert RowItems([]) == [] && AppendAll(s, "t", []) == Ok(Batch(s, []));
    assert [] + p.items == p.items;
  }

  /** Three candidates given in an order in which each makes the next one storable. */
  lemma PlannedInThree(s: State, t: State, u: State, v: State, a: Candidate, b: Candidate, c: Candidate)
    requires Append(s, "t", a.row, Some(a.event)) == Ok(Appended(t, true, true))
    requires Append(t, "t", b.row, Some(b.event)) == Ok(Appended(u, true, true))
    requires Append(u, "t", c.row, Some(c.event)) == Ok(Appended(v, true, true))
    requires Attempted(s, "t", b) == Attempted(s, "t", c) == Attempted(t, "t", c) == Missing
    ensures PlanBatch(s, "t", [], [a, b, c]) == Ok([AsIs(a), AsIs(b), AsIs(c)])
  {
    hide Append, PlanRest, PlanBatch, Attempted;
    NothingToPlan(v);
    PassTakes(u, c, [], v);
    PassTakes(t, b, [c], u);
    PassTakes(s, a, [b, c], t);
    assert [a] + [b, c] == [a, b, c] && [b] + [c] == [b, c] && [c] + [] == [c];
    var p := PlanRest(s, "t", [a, b, c]);
    assert p.items == [AsIs(a), AsIs(b), AsIs(c)];
    PlannedAlone(s, [a, b, c], p);
  }

  lemma BatchMembers()
    ensures BATCH == [BATCH[0], BATCH[1], BATCH[2]]
    ensures ITEMS == [AsIs(BATCH[0]), AsIs(BATCH[1]), AsIs(BATCH[2])]
  {
    hide ExampleEvent, ExampleRow;
  }

  /** The return and its correction wait for the sale and for each other: all three are planned, in that order. */
  lemma ExampleIsPlanned()
    ensures PlanBatch(EMPTY, "t", [], BATCH) == Ok(ITEMS)
  {
    AcceptSale();
    AcceptFirst();
    AcceptSecond();
    ReturnWaits();
    CorrectionWaits();
    BatchMembers();
    hide Append, PlanBatch, Attempted, ExampleEvent, ExampleRow, Store;
    PlannedInThree(EMPTY, AFTER_SALE, AFTER_FIRST, AFTER_SECOND, BATCH[0], BATCH[1], BATCH[2]);
  }
}
