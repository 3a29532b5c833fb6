/** Theorems about whole ledgers and whole runs. */
module LedgerTheorems {
  import opened Base
  import opened Sums
  import opened LedgerModel
  import opened LedgerInvariants

  // ----- Runs

  /** One call of `append_batch`; a call of `append` is a batch of one. */
  datatype Call = Call(tenant: string, items: seq<Item>)

  ghost function Step(s: State, c: Call): State {
    var r := AppendAll(s, c.tenant, c.items);
    if r.Ok? then r.value.state else s
  }

  ghost function Run(calls: seq<Call>): State {
    if calls == [] then EMPTY else Step(Run(calls[..|calls| - 1]), calls[|calls| - 1])
  }

  lemma {:induction false} BatchKeepsInv(s: State, tenant: string, items: seq<Item>)
    requires Inv(s) && AppendAll(s, tenant, items).Ok?
    ensures Inv(AppendAll(s, tenant, items).value.state)
  {
    if items != [] {
      var before := items[..|items| - 1];
      BatchKeepsInv(s, tenant, before);
      var last := items[|items| - 1];
      AppendKeepsInv(AppendAll(s, tenant, before).value.state, tenant, last.row, last.event);
    }
  }

  lemma EmptyInv()
    ensures Inv(EMPTY)
  {
    assert forall tenant, sale :: ActiveReturns(EMPTY, tenant, sale) == {};
  }

  /** The invariant holds in every reachable ledger. */
  lemma {:induction false} ReachableInv(calls: seq<Call>)
    ensures Inv(Run(calls))
  {
    if calls == [] {
      EmptyInv();
    } else {
      var before := calls[..|calls| - 1];
      var c := calls[|calls| - 1];
      ReachableInv(before);
      if AppendAll(Run(before), c.tenant, c.items).Ok? {
        BatchKeepsInv(Run(before), c.tenant, c.items);
      }
    }
  }

  /**
   In every reachable ledger the returns in force against a sale, taken together, stay within
   the sale's quantity and amount, and each is for the sale's product, in its units.
   */
  lemma ReturnsConserved(calls: seq<Call>, tenant: string, sale: string)
    requires Key(tenant, sale) in Run(calls).byId
    ensures Within(SumOf(ActiveReturns(Run(calls), tenant, sale)), TotalsOf(Run(calls).byId[Key(tenant, sale)]))
    ensures forall e <- ActiveReturns(Run(calls), tenant, sale) :: ReversalTerms(Run(calls).byId[Key(tenant, sale)], e)
  {
    ReachableInv(calls);
    var s := Run(calls);
    assert Within(SumOf(ActiveReturns(s, tenant, sale)), TotalsOf(s.byId[Key(tenant, sale)]));
    forall e <- ActiveReturns(s, tenant, sale)
      ensures ReversalTerms(s.byId[Key(tenant, sale)], e)
    {
      ActiveMember(s, tenant, sale, e);
      assert TargetFits(s, tenant, s.byId[Key(tenant, e.eventId)]);
    }
  }

  // ----- Supersession chains

  /** The stored event of a business key with the given revision. */
  predicate HasRevision(s: State, tenant: string, accountId: string, businessKey: string, n: int) {
    1 <= n && RevisionKey(tenant, accountId, businessKey, n) in s.byRevision
  }

  function AtRevision(s: State, tenant: string, accountId: string, businessKey: string, n: int): Event
    requires HasRevision(s, tenant, accountId, businessKey, n)
  {
    s.byRevision[RevisionKey(tenant, accountId, businessKey, n)]
  }

  lemma RevisionFacts(s: State, tenant: string, account: string, key: string, n: int)
    requires Inv(s) && HasRevision(s, tenant, account, key, n)
    ensures
      var e := AtRevision(s, tenant, account, key, n);
      && RevisionOf(tenant, e) == RevisionKey(tenant, account, key, n)
      && StoredAs(s, tenant, e)
      && SuccessionFits(s, tenant, e)
  {
    hide Located, Traced, Reversing, Conserved;
    var e := AtRevision(s, tenant, account, key, n);
    assert StoredAs(s, tenant, e);
  }

  /** A later revision stands on the one before it. */
  lemma Predecessor(s: State, tenant: string, account: string, key: string, n: int)
    requires Inv(s) && 1 < n && HasRevision(s, tenant, account, key, n)
    ensures HasRevision(s, tenant, account, key, n - 1)
    ensures
      var e, p := AtRevision(s, tenant, account, key, n), AtRevision(s, tenant, account, key, n - 1);
      e.supersedes == Some(p.eventId) && p.eventType == e.eventType
  {
    hide Inv;
    RevisionFacts(s, tenant, account, key, n);
    var e := AtRevision(s, tenant, account, key, n);
    EventFacts(s, Key(tenant, e.supersedes.value));
    assert RevisionOf(tenant, s.byId[Key(tenant, e.supersedes.value)]) == RevisionKey(tenant, account, key, n - 1);
  }

  /** No gaps below a stored revision, and one event type all the way down. */
  lemma {:induction false} RevisionsBelow(s: State, tenant: string, account: string, key: string, n: int, m: int)
    requires Inv(s) && 1 <= m <= n && HasRevision(s, tenant, account, key, n)
    ensures HasRevision(s, tenant, account, key, m)
    ensures AtRevision(s, tenant, account, key, m).eventType == AtRevision(s, tenant, account, key, n).eventType
    decreases n
  {
    hide Inv;
    if m < n {
      Predecessor(s, tenant, account, key, n);
      RevisionsBelow(s, tenant, account, key, n - 1, m);
    }
  }

  /** Whoever supersedes an event is the next revision of its business key. */
  lemma Successor(s: State, tenant: string, k: Key, p: Event)
    requires k in s.byId && k.tenant == tenant && s.byId[k].supersedes == Some(p.eventId)
    requires SuccessionFits(s, tenant, s.byId[k]) && StoredAs(s, tenant, s.byId[k])
    requires Key(tenant, p.eventId) in s.byId && s.byId[Key(tenant, p.eventId)] == p
    ensures HasRevision(s, tenant, p.accountId, p.businessKey, p.revision + 1)
    ensures s.byId[k] == AtRevision(s, tenant, p.accountId, p.businessKey, p.revision + 1)
  {
    var e := s.byId[k];
    assert RevisionOf(tenant, e) == RevisionKey(tenant, p.accountId, p.businessKey, p.revision + 1);
  }

  /** At most one event supersedes any event. */
  lemma SupersededOnce(s: State, tenant: string, a: Key, b: Key)
    requires Inv(s) && a in s.byId && b in s.byId && a.tenant == b.tenant == tenant
    requires s.byId[a].supersedes.Some? && s.byId[a].supersedes == s.byId[b].supersedes
    ensures a == b
  {
    hide Inv, AtRevision, StoredAs;
    EventFacts(s, a);
    EventFacts(s, b);
    var target := Key(tenant, s.byId[a].supersedes.value);
    EventFacts(s, target);
    var p := s.byId[target];
    Successor(s, tenant, a, p);
    Successor(s, tenant, b, p);
  }

  /** The revisions stored for one business key. */
  ghost function RevisionsOf(s: State, tenant: string, account: string, key: string): set<RevisionKey> {
    set r | r in s.byRevision && r.tenant == tenant && r.accountId == account && r.businessKey == key
  }

  lemma {:induction false} Latest(keys: set<RevisionKey>) returns (latest: RevisionKey)
    requires keys != {}
    ensures latest in keys && forall r <- keys :: r.revision <= latest.revision
    decreases |keys|
  {
    var r :| r in keys;
    if keys == {r} {
      latest := r;
    } else {
      assert keys == (keys - {r}) + {r};
      var l := Latest(keys - {r});
      latest := if l.revision < r.revision then r else l;
    }
  }

  /** The place of the m-th revision in a chain of n. */
  ghost predicate ChainLink(s: State, tenant: string, account: string, key: string, n: int, m: int)
    requires 1 <= m <= n
    requires forall i: int :: 1 <= i <= n ==> HasRevision(s, tenant, account, key, i)
  {
    assert HasRevision(s, tenant, account, key, m) && HasRevision(s, tenant, account, key, 1);
    assert 1 < m ==> HasRevision(s, tenant, account, key, m - 1);
    var e := AtRevision(s, tenant, account, key, m);
    && e.eventType == AtRevision(s, tenant, account, key, 1).eventType
    && e.supersedes == (if m == 1 then None else Some(AtRevision(s, tenant, account, key, m - 1).eventId))
    && (e.eventId in SupersededIds(s, tenant) <==> m < n)
  }

  /** A single linear chain: the revisions are 1..n, and only the n-th is not superseded. */
  ghost predicate LinearChain(s: State, tenant: string, account: string, key: string, n: nat) {
    && (forall m: int :: HasRevision(s, tenant, account, key, m) <==> 1 <= m <= n)
    && (forall m: int | 1 <= m <= n :: ChainLink(s, tenant, account, key, n, m))
  }

  /** For every tenant, account and business key the stored events form one linear chain. */
  lemma ChainsAreLinear(calls: seq<Call>, tenant: string, account: string, key: string) returns (n: nat)
    ensures LinearChain(Run(calls), tenant, account, key, n)
  {
    hide Inv, Run, AtRevision;
    ReachableInv(calls);
    var s := Run(calls);
    var stored := RevisionsOf(s, tenant, account, key);
    assert forall m: int :: HasRevision(s, tenant, account, key, m) <==>
      1 <= m && RevisionKey(tenant, account, key, m) in stored;
    if stored == {} {
      n := 0;
    } else {
      var latest := Latest(stored);
      n := latest.revision;
      assert latest == RevisionKey(tenant, account, key, n);
      forall m: int | 1 <= m <= n
        ensures HasRevision(s, tenant, account, key, m)
      {
        RevisionsBelow(s, tenant, account, key, n, m);
      }
      forall m: int | 1 <= m <= n
        ensures ChainLink(s, tenant, account, key, n, m)
      {
        ChainLinkHolds(s, tenant, account, key, n, m);
      }
    }
  }

  lemma ChainLinkHolds(s: State, tenant: string, account: string, key: string, n: int, m: int)
    requires Inv(s) && 1 <= m <= n
    requires forall i: int :: HasRevision(s, tenant, account, key, i) <==> 1 <= i <= n
    ensures ChainLink(s, tenant, account, key, n, m)
  {
    hide Inv;
    assert HasRevision(s, tenant, account, key, m);
    RevisionFacts(s, tenant, account, key, m);
    var e := AtRevision(s, tenant, account, key, m);
    RevisionsBelow(s, tenant, account, key, m, 1);
    if m > 1 {
      Predecessor(s, tenant, account, key, m);
    }
    if m < n {
      assert HasRevision(s, tenant, account, key, m + 1);
      Predecessor(s, tenant, account, key, m + 1);
      RevisionFacts(s, tenant, account, key, m + 1);
      var next := AtRevision(s, tenant, account, key, m + 1);
      assert Key(tenant, next.eventId) in s.byId;
    } else if e.eventId in SupersededIds(s, tenant) {
      var k :| k in s.byId && k.tenant == tenant && s.byId[k].supersedes == Some(e.eventId);
      EventFacts(s, k);
      Successor(s, tenant, k, e);
    }
  }
}
