/** What the numbers and lists of an import result count and list, by position in the plan. */
module IngestCounts {
  import opened LedgerModel
  import opened LedgerReplay
  import opened IngestModel

  /** Each number is the number of plan positions it is about. */
  ghost predicate Tallied(c: ImportResult, plan: seq<Item>, results: seq<AppendResult>)
    requires |plan| == |results|
  {
    && c.totalRows == |plan|
    && c.insertedSourceRows == |set i | 0 <= i < |plan| && results[i].rowInserted|
    && c.duplicateSourceRows == |set i | 0 <= i < |plan| && !results[i].rowInserted|
    && c.insertedEvents == |set i | 0 <= i < |plan| && plan[i].event.Some? && results[i].eventInserted|
    && c.duplicateEvents == |set i | 0 <= i < |plan| && plan[i].event.Some? && !results[i].eventInserted|
    && c.quarantinedRows == |set i | 0 <= i < |plan| && plan[i].event.None?|
    && c.insertedQuarantinedRows == |set i | 0 <= i < |plan| && plan[i].event.None? && results[i].rowInserted|
    && c.duplicateQuarantinedRows == |set i | 0 <= i < |plan| && plan[i].event.None? && !results[i].rowInserted|
  }

  /** Positions with a property, and how many there are. */
  function Where(n: nat, which: int -> bool): set<int> {
    set i | 0 <= i < n && which(i)
  }

  lemma OneMore(n: nat, which: int -> bool)
    ensures |Where(n + 1, which)| == |Where(n, which)| + if which(n) then 1 else 0
  {
    if which(n) {
      assert Where(n + 1, which) == Where(n, which) + {n};
    } else {
      assert Where(n + 1, which) == Where(n, which);
    }
  }

  lemma {:induction false} CountedAt<T>(xs: seq<T>, which: T -> bool, at: int -> bool)
    requires forall i :: 0 <= i < |xs| ==> at(i) == which(xs[i])
    ensures Count(xs, which) == |Where(|xs|, at)|
  {
    hide Where;
    if xs == [] {
      WhereNone(at);
    } else {
      CountedAt(xs[..|xs| - 1], which, at);
      OneMore(|xs| - 1, at);
    }
  }

  lemma WhereNone(at: int -> bool)
    ensures |Where(0, at)| == 0
  {
    assert Where(0, at) == {};
  }

  /** The outcomes selected by their event and then counted. */
  lemma {:induction false} SelectedAt(pairs: seq<Outcome>, withEvent: bool, which: Outcome -> bool, at: int -> bool)
    requires forall i :: 0 <= i < |pairs| ==>
      at(i) == (pairs[i].item.event.Some? == withEvent && which(pairs[i]))
    ensures Count(Select(pairs, withEvent), which) == |Where(|pairs|, at)|
  {
    hide Where;
    if pairs == [] {
      WhereNone(at);
    } else {
      var last, before := pairs[|pairs| - 1], Select(pairs[..|pairs| - 1], withEvent);
      SelectedAt(pairs[..|pairs| - 1], withEvent, which, at);
      OneMore(|pairs| - 1, at);
      if last.item.event.Some? == withEvent {
        assert (before + [last])[..|before|] == before;
      } else {
        assert before + [] == before;
      }
    }
  }

  predicate AnyOutcome(p: Outcome) { true }

  lemma {:induction false} CountAll<T>(xs: seq<T>, which: T -> bool)
    requires forall x <- xs :: which(x)
    ensures Count(xs, which) == |xs|
  {
    if xs != [] {
      CountAll(xs[..|xs| - 1], which);
    }
  }

  lemma Others(n: nat, which: int -> bool, other: int -> bool, all: int -> bool)
    requires forall i :: 0 <= i < n ==> !(which(i) && other(i)) && (all(i) == (which(i) || other(i)))
    ensures |Where(n, other)| == |Where(n, all)| - |Where(n, which)|
  {
    assert Where(n, all) == Where(n, which) + Where(n, other);
    assert Where(n, which) !! Where(n, other);
  }

  lemma RowsTally(results: seq<AppendResult>)
    ensures Count(results, RowInserted) == |set i | 0 <= i < |results| && results[i].rowInserted|
    ensures |results| - Count(results, RowInserted) == |set i | 0 <= i < |results| && !results[i].rowInserted|
  {
    hide Count;
    var n := |results|;
    var any := (i: int) => 0 <= i < n;
    var inserted := (i: int) => 0 <= i < n && results[i].rowInserted;
    var duplicate := (i: int) => 0 <= i < n && !results[i].rowInserted;
    CountedAt(results, RowInserted, inserted);
    AllPositions(n, any);
    Others(n, inserted, duplicate, any);
    assert Where(n, inserted) == set i | 0 <= i < n && results[i].rowInserted;
    assert Where(n, duplicate) == set i | 0 <= i < n && !results[i].rowInserted;
  }

  lemma EventsTally(plan: seq<Item>, results: seq<AppendResult>)
    requires |plan| == |results|
    requires forall i :: 0 <= i < |plan| && results[i].eventInserted ==> plan[i].event.Some?
    ensures Count(results, EventInserted) ==
      |set i | 0 <= i < |plan| && plan[i].event.Some? && results[i].eventInserted|
    ensures Count(Select(Zip(plan, results), true), PairEventDuplicate) ==
      |set i | 0 <= i < |plan| && plan[i].event.Some? && !results[i].eventInserted|
  {
    hide Count, Select;
    var n := |plan|;
    var inserted := (i: int) => 0 <= i < n && plan[i].event.Some? && results[i].eventInserted;
    var duplicate := (i: int) => 0 <= i < n && plan[i].event.Some? && !results[i].eventInserted;
    CountedAt(results, EventInserted, inserted);
    SelectedAt(Zip(plan, results), true, PairEventDuplicate, duplicate);
  }

  lemma QuarantinedTally(plan: seq<Item>, results: seq<AppendResult>)
    requires |plan| == |results|
    ensures
      var selected := Select(Zip(plan, results), false);
      && |selected| == |set i | 0 <= i < |plan| && plan[i].event.None?|
      && Count(selected, PairRowInserted) ==
         |set i | 0 <= i < |plan| && plan[i].event.None? && results[i].rowInserted|
      && |selected| - Count(selected, PairRowInserted) ==
         |set i | 0 <= i < |plan| && plan[i].event.None? && !results[i].rowInserted|
  {
    hide Count, Select;
    var n, pairs := |plan|, Zip(plan, results);
    var quarantined := (i: int) => 0 <= i < n && plan[i].event.None?;
    var inserted := (i: int) => 0 <= i < n && plan[i].event.None? && results[i].rowInserted;
    var duplicate := (i: int) => 0 <= i < n && plan[i].event.None? && !results[i].rowInserted;
    SelectedAt(pairs, false, AnyOutcome, quarantined);
    CountAll(Select(pairs, false), AnyOutcome);
    SelectedAt(pairs, false, PairRowInserted, inserted);
    Others(n, inserted, duplicate, quarantined);
    assert Where(n, quarantined) == set i | 0 <= i < n && plan[i].event.None?;
    assert Where(n, inserted) == set i | 0 <= i < n && plan[i].event.None? && results[i].rowInserted;
    assert Where(n, duplicate) == set i | 0 <= i < n && plan[i].event.None? && !results[i].rowInserted;
  }

  lemma {:induction false} AllPositions(n: nat, at: int -> bool)
    requires forall i :: 0 <= i < n ==> at(i)
    ensures |Where(n, at)| == n
  {
    if n == 0 {
      WhereNone(at);
    } else {
      AllPositions(n - 1, at);
      OneMore(n - 1, at);
    }
  }

  // ----- The lists, read from the front

  /** The identifiers reported are those of the events of the plan, in its order. */
  lemma {:induction false} EventIdsFromFront(item: Item, rest: seq<Item>)
    ensures EventIds([]) == []
    ensures EventIds([item] + rest) == if item.event.None? then EventIds(rest) else
      [item.event.value.eventId] + EventIds(rest)
  {
    var plan := [item] + rest;
    if rest == [] {
      assert plan[..0] == [];
    } else {
      EventIdsFromFront(item, rest[..|rest| - 1]);
      assert plan[..|plan| - 1] == [item] + rest[..|rest| - 1];
    }
  }

  /** Every line of the file, in its order, is among the rows set aside or among the candidates. */
  lemma {:induction false} PreparedFromFront(p: Prepared, rest: seq<Prepared>)
    ensures Immediates([]) == [] && Candidates([]) == []
    ensures match p
      case Immediate(row) =>
        Immediates([p] + rest) == [row] + Immediates(rest) && Candidates([p] + rest) == Candidates(rest)
      case Normalized(c) =>
        Immediates([p] + rest) == Immediates(rest) && Candidates([p] + rest) == [c] + Candidates(rest)
  {
    var all := [p] + rest;
    if rest == [] {
      assert all[..0] == [];
    } else {
      PreparedFromFront(p, rest[..|rest| - 1]);
      assert all[..|all| - 1] == [p] + rest[..|rest| - 1];
    }
  }
}
