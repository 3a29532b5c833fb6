/** Who may read a dataset, told from the whole run that led to the registry. */
module AdmissionAccess {
  import opened Base
  import opened AdmissionModel
  import opened AdmissionTheorems

  /** Step `j` of the run is an admission of the dataset by this tenant that the registry accepted. */
  predicate AdmittedBy(steps: seq<Step>, t: Tenant, dataset: string, j: nat) {
    && j < |steps| && steps[j].AdmitStep? && steps[j].t == t && steps[j].dataset == dataset
    && Admit(Run(steps[..j]), t, dataset, steps[j].e, steps[j].g, steps[j].at).1.Ok?
  }

  /** The record that an accepted admission returned. */
  function Admitted(steps: seq<Step>, t: Tenant, dataset: string, j: nat): Record
    requires AdmittedBy(steps, t, dataset, j)
  {
    Admit(Run(steps[..j]), t, dataset, steps[j].e, steps[j].g, steps[j].at).1.value
  }

  predicate RevokedBy(steps: seq<Step>, t: Tenant, dataset: string, i: nat) {
    && i < |steps| && steps[i].RevokeStep? && steps[i].t == t && steps[i].dataset == dataset
    && Revoke(Run(steps[..i]), t, dataset, steps[i].reason, steps[i].at).1.Ok?
  }

  /** Step `j` admitted the dataset and no later step revoked it. */
  ghost predicate InForce(steps: seq<Step>, t: Tenant, dataset: string, j: nat) {
    AdmittedBy(steps, t, dataset, j) && forall i :: j < i < |steps| ==> !RevokedBy(steps, t, dataset, i)
  }

  // ----- One step

  predicate IsAdmitted(s: Registry, k: Key) {
    k in s.records && s.records[k].stage == ADMITTED
  }

  lemma ExamineNeverAdmits(r: Record, workbooks: map<Claim, string>, actor: string, upload: Upload, policy: Policy,
                           at: int)
    requires r.stage == QUARANTINED
    ensures
      var examined := Examine(r, workbooks, actor, upload, policy, at).0;
      examined.Ok? ==> examined.value.stage != ADMITTED
  {
    hide Match, FindingsOf;
  }

  /** Only an accepted admission makes a record ADMITTED. */
  lemma BecomesAdmitted(s: Registry, step: Step, k: Key)
    requires IsAdmitted(After(s, step), k) && !IsAdmitted(s, k)
    ensures step.AdmitStep? && k == Key(step.t.id, step.dataset)
    ensures
      var (n, result) := Admit(s, step.t, step.dataset, step.e, step.g, step.at);
      result.Ok? && n.records[k] == result.value && result.value.declaration.uploader == step.t.account
  {
    hide Examine, CheckTime, CheckBinding, CheckTimes, CheckDeclaration, Free;
    match step
    case DeclareStep(_, _) =>
    case InspectStep(t, dataset, upload, policy, at) =>
      var q := Fetch(s, t, dataset);
      if q.Ok? && Quarantine(q.value, t.account, at, policy).Ok? {
        ExamineNeverAdmits(Quarantine(q.value, t.account, at, policy).value, s.workbooks, t.account, upload, policy,
                           at);
      }
    case AdmitStep(_, _, _, _, _) =>
    case RevokeStep(_, _, _, _) =>
  }

  /** An ADMITTED record stays exactly as it is unless its uploader revokes it. */
  lemma StaysAdmitted(s: Registry, step: Step, k: Key)
    requires IsAdmitted(s, k)
    ensures
      || (k in After(s, step).records && After(s, step).records[k] == s.records[k])
      || (&& step.RevokeStep? && step.t == Tenant(k.tenant, s.records[k].declaration.uploader) &&
          step.dataset == k.dataset
          && Revoke(s, step.t, step.dataset, step.reason, step.at).1.Ok? && !IsAdmitted(After(s, step), k))
  {
    hide Examine, CheckTime, CheckBinding, CheckTimes, Free;
  }

  // ----- Runs

  lemma Shorter(steps: seq<Step>, t: Tenant, dataset: string, i: nat)
    requires i < |steps| - 1
    ensures AdmittedBy(steps[..|steps| - 1], t, dataset, i) == AdmittedBy(steps, t, dataset, i)
    ensures RevokedBy(steps[..|steps| - 1], t, dataset, i) == RevokedBy(steps, t, dataset, i)
    ensures AdmittedBy(steps, t, dataset, i) ==>
      Admitted(steps[..|steps| - 1], t, dataset, i) == Admitted(steps, t, dataset, i)
  {
    hide Run, Admit, Revoke;
    assert steps[..|steps| - 1][..i] == steps[..i];
  }

  /** An admission stays in force over one more step exactly if that step does not revoke it. */
  lemma InForceNext(steps: seq<Step>, t: Tenant, dataset: string, j: nat)
    requires j < |steps| - 1
    ensures InForce(steps, t, dataset, j) <==>
      InForce(steps[..|steps| - 1], t, dataset, j) && !RevokedBy(steps, t, dataset, |steps| - 1)
    ensures InForce(steps, t, dataset, j) ==>
      Admitted(steps[..|steps| - 1], t, dataset, j) == Admitted(steps, t, dataset, j)
  {
    hide AdmittedBy, RevokedBy, Admitted;
    var before := steps[..|steps| - 1];
    Shorter(steps, t, dataset, j);
    forall i | j < i < |steps| - 1
      ensures RevokedBy(before, t, dataset, i) == RevokedBy(steps, t, dataset, i)
    {
      Shorter(steps, t, dataset, i);
    }
    if InForce(before, t, dataset, j) && !RevokedBy(steps, t, dataset, |steps| - 1) {
      forall i | j < i < |steps|
        ensures !RevokedBy(steps, t, dataset, i)
      {
        assert i < |steps| - 1 ==> !RevokedBy(before, t, dataset, i);
      }
    }
  }

  /** The uploader on whose behalf the record is kept. */
  function OwnerOf(k: Key, r: Record): Tenant {
    Tenant(k.tenant, r.declaration.uploader)
  }

  lemma NotRevokedNow(steps: seq<Step>, t: Tenant, k: Key)
    requires steps != [] && IsAdmitted(Run(steps), k) && IsAdmitted(Run(steps[..|steps| - 1]), k)
    requires t == OwnerOf(k, Run(steps[..|steps| - 1]).records[k])
    ensures !RevokedBy(steps, t, k.dataset, |steps| - 1)
  {
    hide CheckTime;
  }

  lemma LastStep(steps: seq<Step>)
    requires steps != []
    ensures Run(steps) == After(Run(steps[..|steps| - 1]), steps[|steps| - 1])
  {
  }

  lemma AdmittedLast(steps: seq<Step>, k: Key)
    requires steps != [] && IsAdmitted(Run(steps), k) && !IsAdmitted(Run(steps[..|steps| - 1]), k)
    ensures
      var t := OwnerOf(k, Run(steps).records[k]);
      InForce(steps, t, k.dataset, |steps| - 1) && Admitted(steps, t, k.dataset, |steps| - 1) == Run(steps).records[k]
  {
    LastStep(steps);
    hide Run, Admit, After, Revoke;
    var before, step := Run(steps[..|steps| - 1]), steps[|steps| - 1];
    BecomesAdmitted(before, step, k);
    AdmitIsAfter(before, step);
  }

  lemma AdmitIsAfter(s: Registry, step: Step)
    requires step.AdmitStep?
    ensures After(s, step) == Admit(s, step.t, step.dataset, step.e, step.g, step.at).0
  {
    hide Admit;
  }

  /** An ADMITTED record is what some admission still in force returned. */
  lemma {:induction false} AdmittedIsInForce(steps: seq<Step>, k: Key) returns (j: nat)
    requires IsAdmitted(Run(steps), k)
    ensures
      var t := OwnerOf(k, Run(steps).records[k]);
      InForce(steps, t, k.dataset, j) && Admitted(steps, t, k.dataset, j) == Run(steps).records[k]
  {
    assert steps != [];
    LastStep(steps);
    hide Run, After, Admit, Revoke, InForce, Admitted;
    var before := steps[..|steps| - 1];
    if IsAdmitted(Run(before), k) {
      StaysAdmitted(Run(before), steps[|steps| - 1], k);
      j := AdmittedIsInForce(before, k);
      var t := OwnerOf(k, Run(before).records[k]);
      NotRevokedNow(steps, t, k);
      InForceBound(before, t, k.dataset, j);
      InForceNext(steps, t, k.dataset, j);
    } else {
      AdmittedLast(steps, k);
      j := |steps| - 1;
    }
  }

  lemma InForceBound(steps: seq<Step>, t: Tenant, dataset: string, j: nat)
    requires InForce(steps, t, dataset, j)
    ensures j < |steps| && steps[j].AdmitStep? && AdmittedBy(steps, t, dataset, j)
  {
  }

  /** The record is what the admission returned, and it belongs to the tenant. */
  ghost predicate StillAsAdmitted(steps: seq<Step>, t: Tenant, dataset: string, j: nat)
    requires AdmittedBy(steps, t, dataset, j)
  {
    var k, r := Key(t.id, dataset), Admitted(steps, t, dataset, j);
    && IsAdmitted(Run(steps), k) && Run(steps).records[k] == r && r.declaration.uploader == t.account
  }

  lemma AdmittedNow(steps: seq<Step>, t: Tenant, dataset: string)
    requires steps != [] && AdmittedBy(steps, t, dataset, |steps| - 1)
    ensures StillAsAdmitted(steps, t, dataset, |steps| - 1)
  {
    LastStep(steps);
    hide Run, After, Admit;
    var before, step := Run(steps[..|steps| - 1]), steps[|steps| - 1];
    AdmitIsAfter(before, step);
    AdmitStores(before, t, dataset, step.e, step.g, step.at);
  }

  lemma NotRevokedThen(s: Registry, step: Step, steps: seq<Step>, k: Key)
    requires steps != [] && s == Run(steps[..|steps| - 1]) && step == steps[|steps| - 1]
    requires IsAdmitted(s, k) && !RevokedBy(steps, OwnerOf(k, s.records[k]), k.dataset, |steps| - 1)
    ensures IsAdmitted(Run(steps), k) && Run(steps).records[k] == s.records[k]
  {
    LastStep(steps);
    hide Run, After, Revoke;
    StaysAdmitted(s, step, k);
  }

  /** What an admission in force returned is the record, untouched. */
  lemma {:induction false} InForceIsAdmitted(steps: seq<Step>, t: Tenant, dataset: string, j: nat)
    requires InForce(steps, t, dataset, j)
    ensures AdmittedBy(steps, t, dataset, j) && StillAsAdmitted(steps, t, dataset, j)
    decreases |steps|
  {
    InForceBound(steps, t, dataset, j);
    if j == |steps| - 1 {
      AdmittedNow(steps, t, dataset);
    } else {
      hide Run, After, Admit, Revoke, InForce, Admitted, RevokedBy, AdmittedBy;
      var before := steps[..|steps| - 1];
      InForceNext(steps, t, dataset, j);
      InForceIsAdmitted(before, t, dataset, j);
      NotRevokedThen(Run(before), steps[|steps| - 1], steps, Key(t.id, dataset));
    }
  }

  lemma AdmitStores(s: Registry, t: Tenant, dataset: string, e: DatasetEvidence, g: StorageEvidence, at: int)
    ensures
      var (n, result) := Admit(s, t, dataset, e, g, at);
      result.Ok? ==>
        && IsAdmitted(n, Key(t.id, dataset)) && n.records[Key(t.id, dataset)] == result.value
        && result.value.declaration.uploader == t.account
  {
    hide CheckTime, CheckBinding, CheckTimes, Free;
  }

  /** Step `j` lets the tenant read the dataset at this time. */
  ghost predicate Grants(steps: seq<Step>, t: Tenant, dataset: string, j: nat, at: int) {
    InForce(steps, t, dataset, j) && steps[j].at <= at < Admitted(steps, t, dataset, j).declaration.retention
  }

  /**
   In every run, a tenant reads a dataset exactly when that tenant itself had it admitted, no
   later step revoked it, and the time lies between that admission and the retention deadline.
   */
  lemma AccessExact(steps: seq<Step>, t: Tenant, dataset: string, at: int)
    ensures RequireAdmitted(Run(steps), t, dataset, at).Ok? <==> exists j: nat :: Grants(steps, t, dataset, j, at)
  {
    hide Run, Admit, InForce, Admitted;
    var s, k := Run(steps), Key(t.id, dataset);
    RequireAdmittedExact(s, t, dataset, at);
    hide RequireAdmitted;
    if RequireAdmitted(s, t, dataset, at).Ok? {
      var j := AdmittedIsInForce(steps, k);
      LatestIsAdmission(steps, t, dataset, j);
      assert Grants(steps, t, dataset, j, at);
    }
    if j: nat :| Grants(steps, t, dataset, j, at) {
      InForceIsAdmitted(steps, t, dataset, j);
      LatestIsAdmission(steps, t, dataset, j);
    }
  }

  lemma LatestIsAdmission(steps: seq<Step>, t: Tenant, dataset: string, j: nat)
    requires InForce(steps, t, dataset, j)
    ensures
      var r := Admitted(steps, t, dataset, j);
      r.decisions != [] && r.decisions[|r.decisions| - 1] ==
        Decision(ADMITTED, t.account, steps[j].at, "DATASET_ADMITTED", {})
  {
    hide Run, RevokedBy, CheckTime, CheckBinding, CheckTimes, Free;
  }

  /** Complete evidence by someone other than the uploader, given between validation and admission. */
  predicate WellFounded(r: Record, tenant: string, e: DatasetEvidence, g: StorageEvidence, at: int) {
    && e.complete && g.complete && e.tenant == g.tenant == tenant
    && e.verifier != r.declaration.uploader && g.verifier != r.declaration.uploader
    && Describes(e, r) && g.dataset == r.declaration.dataset && g.digest == r.declaration.digest
    && r.datasetEvidence == Some(e.id) && r.storageEvidence == Some(g.id) && r.storageKey == Some(g.key)
    && |r.decisions| >= 2
    && r.decisions[|r.decisions| - 2].stage == VALIDATED
    && r.decisions[|r.decisions| - 2].at <= e.verifiedAt <= at
    && r.decisions[|r.decisions| - 2].at <= g.verifiedAt <= at
    && at < r.declaration.retention
  }

  lemma AdmitIsFounded(s: Registry, t: Tenant, dataset: string, e: DatasetEvidence, g: StorageEvidence, at: int)
    requires Inv(s) && Admit(s, t, dataset, e, g, at).1.Ok?
    ensures WellFounded(Admit(s, t, dataset, e, g, at).1.value, t.id, e, g, at)
  {
    AdmitExact(s, t, dataset, e, g, at);
    var k := Key(t.id, dataset);
    assert RecordFits(k, s.records[k]);
    var r, n := s.records[k], Admit(s, t, dataset, e, g, at).1.value;
    assert n == r.(stage := ADMITTED, diagnostics := {}, datasetEvidence := Some(e.id), storageEvidence := Some(g.id),
                   storageKey := Some(g.key),
      decisions := r.decisions + [Decision(ADMITTED, t.account, at, "DATASET_ADMITTED", {})]) by {
      hide CheckTime, CheckBinding, CheckTimes, Free, MayAdmit;
    }
    hide Admit, Inv, Free, EvidenceFits, Matched;
  }

  /** A history that ends in ADMITTED was never revoked. */
  lemma NeverRevoked(r: Record)
    requires HistoryFits(r) && r.stage == ADMITTED
    ensures forall i :: 0 <= i < |r.decisions| ==> r.decisions[i].stage != REVOKED
  {
    forall i | 0 <= i < |r.decisions|
      ensures r.decisions[i].stage != REVOKED
    {
      if i < |r.decisions| - 1 {
        assert Follows(r.decisions[i], r.decisions[i + 1]);
      }
    }
  }

  /**
   Whatever a tenant reads, in any run, was admitted by that tenant in one of the steps on complete
   and independent evidence that describes the record read, given after validation and before
   admission; and the record has no REVOKED decision.
   */
  lemma AccessIsEarned(steps: seq<Step>, t: Tenant, dataset: string, at: int) returns (j: nat)
    requires RequireAdmitted(Run(steps), t, dataset, at).Ok?
    ensures InForce(steps, t, dataset, j) && steps[j].at <= at
    ensures RequireAdmitted(Run(steps), t, dataset, at).value == Admitted(steps, t, dataset, j)
    ensures
      var r := Admitted(steps, t, dataset, j);
      && WellFounded(r, t.id, steps[j].e, steps[j].g, steps[j].at)
      && r.decisions[|r.decisions| - 1].stage == ADMITTED && r.decisions[|r.decisions| - 1].at == steps[j].at
      && forall i :: 0 <= i < |r.decisions| ==> r.decisions[i].stage != REVOKED
  {
    var s, k := Run(steps), Key(t.id, dataset);
    j := AdmittedIsInForce(steps, k);
    ReachableInv(steps[..j]);
    ReachableInv(steps);
    assert RecordFits(k, s.records[k]);
    hide Run, Admit, Inv, HistoryFits, WellFounded, InForce;
    InForceBound(steps, t, dataset, j);
    NeverRevoked(s.records[k]);
    LatestIsAdmission(steps, t, dataset, j);
    AdmitIsFounded(Run(steps[..j]), t, dataset, steps[j].e, steps[j].g, steps[j].at);
  }
}
