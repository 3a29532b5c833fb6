/** Returns and their sale in the numbers of their payloads: units and money added up over a list of returns. */
module LedgerBalance {
  import opened Base
  import opened Sums
  import opened LedgerModel
  import opened LedgerInvariants
  import opened LedgerTheorems
  import opened LedgerRefusals

  function UnitsOf(e: Event): int
    requires Priced(e)
  {
    e.payload.quantity.number
  }

  function MoneyOf(e: Event): real
    requires Priced(e)
  {
    e.payload.grossAmount.amount.value
  }

  /** Units and money of a list of priced events. */
  function Units(es: seq<Event>): int
    requires forall e <- es :: Priced(e)
  {
    if es == [] then 0 else UnitsOf(es[0]) + Units(es[1..])
  }

  function Money(es: seq<Event>): real
    requires forall e <- es :: Priced(e)
  {
    if es == [] then 0.0 else MoneyOf(es[0]) + Money(es[1..])
  }

  predicate NoDuplicates(es: seq<Event>) {
    forall i, j :: 0 <= i < j < |es| ==> es[i] != es[j]
  }

  /** The tenant's ledger holds it as a return of the sale, and no event that supersedes it. */
  predicate InForce(s: State, tenant: string, sale: string, x: Event) {
    && Key(tenant, x.eventId) in s.byId && s.byId[Key(tenant, x.eventId)] == x
    && x.eventType == ReturnAccepted && x.reversalOf == Some(sale)
    && forall k <- s.byId :: k.tenant == tenant ==> s.byId[k].supersedes != Some(x.eventId)
  }

  lemma SupersededExact(s: State, tenant: string, id: string)
    ensures id in SupersededIds(s, tenant) <==>
      exists k :: k in s.byId && k.tenant == tenant && s.byId[k].supersedes == Some(id)
  {
  }

  lemma InForceExact(s: State, tenant: string, sale: string, x: Event)
    requires KeyedById(s)
    ensures x in ActiveReturns(s, tenant, sale) <==> InForce(s, tenant, sale, x)
  {
    ActiveMember(s, tenant, sale, x);
    SupersededExact(s, tenant, x.eventId);
    hide ActiveReturns, KeyedById, SupersededIds;
  }

  lemma PricedTotals(e: Event)
    requires Priced(e)
    ensures TotalsOf(e) == Totals(UnitsOf(e), MoneyOf(e))
  {
  }

  lemma {:induction false} SumInNumbers(es: seq<Event>)
    requires NoDuplicates(es) && forall e <- es :: Priced(e)
    ensures SumOf(set e | e in es) == Totals(Units(es), Money(es))
  {
    hide Priced, Sum;
    if es == [] {
      SumOfNone();
      assert (set e | e in es) == {};
    } else {
      var rest := es[1..];
      SumInNumbers(rest);
      SumInsert((set e | e in rest), es[0], TotalsOf);
      assert (set e | e in es) == (set e | e in rest) + {es[0]};
      PricedTotals(es[0]);
      hide TotalsOf;
    }
  }

  lemma SumOfNone()
    ensures SumOf({}) == Totals(0, 0.0)
  {
  }

  /** The list holds the returns in force against the sale that a candidate is counted together with. */
  ghost predicate ListsRivals(s: State, tenant: string, sale: string, e: Event, rivals: seq<Event>) {
    && NoDuplicates(rivals)
    && forall x :: x in rivals <==>
         InForce(s, tenant, sale, x) && x.eventId != e.eventId && e.supersedes != Some(x.eventId)
  }

  /** A return in force against a stored event is priced, and so is that event, which is a sale. */
  lemma InForceFacts(s: State, tenant: string, sale: string, x: Event)
    requires Inv(s) && InForce(s, tenant, sale, x)
    ensures Key(tenant, sale) in s.byId
    ensures
      var o := s.byId[Key(tenant, sale)];
      o.eventType == SaleRecognized && o.accountId == x.accountId && Priced(o) && Priced(x) && SameGoods(o, x)
  {
    hide Inv, StoredAs, SuccessionFits, HasRow, Within, SameTerms, Priced, CompareTerms;
    EventFacts(s, Key(tenant, x.eventId));
    TermsExact(s.byId[Key(tenant, sale)], x);
    GoodsExact(s.byId[Key(tenant, sale)], x);
  }

  lemma KeyedEvents(s: State)
    requires Inv(s)
    ensures KeyedById(s)
  {
    hide Located, Traced, Chained, Reversing, Conserved, StoredAs;
  }

  lemma RivalsListed(s: State, tenant: string, sale: string, e: Event, rivals: seq<Event>)
    requires Inv(s) && ListsRivals(s, tenant, sale, e, rivals)
    ensures forall x <- rivals :: Priced(x)
    ensures SumOf(CompetingReturns(s, tenant, sale, e)) == Totals(Units(rivals), Money(rivals))
  {
    hide Inv, Priced, TotalsOf, SumOf, Units, Money, SameGoods, KeyedById, InForce;
    KeyedEvents(s);
    forall x <- rivals
      ensures Priced(x)
    {
      InForceFacts(s, tenant, sale, x);
    }
    SumInNumbers(rivals);
    forall x {
      InForceExact(s, tenant, sale, x);
    }
    hide ActiveReturns;
    assert CompetingReturns(s, tenant, sale, e) == set x | x in rivals;
  }

  lemma RoomAsTotals(s: State, tenant: string, e: Event, own: Totals, rivals: Totals, sale: Totals)
    requires e.reversalOf.Some? && Key(tenant, e.reversalOf.value) in s.byId
    requires s.byId[Key(tenant, e.reversalOf.value)].eventId == e.reversalOf.value
    requires own == TotalsOf(e) && sale == TotalsOf(s.byId[Key(tenant, e.reversalOf.value)])
    requires rivals == SumOf(CompetingReturns(s, tenant, e.reversalOf.value, e))
    ensures RoomFor(s, tenant, e) <==>
      own.quantity + rivals.quantity <= sale.quantity && own.amount + rivals.amount <= sale.amount
  {
    hide TotalsOf, SumOf, CompetingReturns;
  }

  /** There is room for a return exactly when it and its rivals, added up, stay within the sale. */
  lemma RoomInNumbers(s: State, tenant: string, e: Event, rivals: seq<Event>)
    requires Inv(s) && e.reversalOf.Some? && Key(tenant, e.reversalOf.value) in s.byId
    requires Priced(e) && Priced(s.byId[Key(tenant, e.reversalOf.value)])
    requires ListsRivals(s, tenant, e.reversalOf.value, e, rivals)
    ensures forall x <- rivals :: Priced(x)
    ensures
      var sale := s.byId[Key(tenant, e.reversalOf.value)];
      RoomFor(s, tenant, e) <==>
        && UnitsOf(e) + Units(rivals) <= UnitsOf(sale) && MoneyOf(e) + Money(rivals) <= MoneyOf(sale)
  {
    var id := e.reversalOf.value;
    hide Inv, Priced, TotalsOf, SumOf, UnitsOf, MoneyOf, Units, Money, ListsRivals, CompetingReturns, RoomFor;
    hide StoredAs, SuccessionFits, TargetFits, HasRow, KeyedById;
    EventFacts(s, Key(tenant, id));
    RivalsListed(s, tenant, id, e, rivals);
    PricedTotals(e);
    PricedTotals(s.byId[Key(tenant, id)]);
    RoomAsTotals(s, tenant, e, TotalsOf(e), SumOf(CompetingReturns(s, tenant, id, e)),
                 TotalsOf(s.byId[Key(tenant, id)]));
  }

  /** In every reachable ledger, returns in force against one sale add up to no more than it, in units and money. */
  lemma ReturnsAddUp(calls: seq<Call>, tenant: string, sale: string, some: seq<Event>)
    requires NoDuplicates(some) && some != []
    requires forall x <- some :: InForce(Run(calls), tenant, sale, x)
    ensures Key(tenant, sale) in Run(calls).byId && Priced(Run(calls).byId[Key(tenant, sale)])
    ensures forall x <- some :: Priced(x)
    ensures
      var sold := Run(calls).byId[Key(tenant, sale)];
      Units(some) <= UnitsOf(sold) && Money(some) <= MoneyOf(sold)
  {
    hide Inv, Run, Priced, TotalsOf, Sum, UnitsOf, MoneyOf, Units, Money, SameGoods, InForce;
    hide StoredAs, SuccessionFits, TargetFits, HasRow, KeyedById, ActiveReturns;
    var s := Run(calls);
    ReachableInv(calls);
    KeyedEvents(s);
    forall x <- some
      ensures Priced(x) && x in ActiveReturns(s, tenant, sale)
    {
      InForceFacts(s, tenant, sale, x);
      InForceExact(s, tenant, sale, x);
    }
    InForceFacts(s, tenant, sale, some[0]);
    EventFacts(s, Key(tenant, sale));
    SumInNumbers(some);
    var all := set x | x in some;
    SumSubset(all, ActiveReturns(s, tenant, sale), TotalsOf);
    PricedTotals(s.byId[Key(tenant, sale)]);
  }
}
