/** What every run of the admission registry keeps. */
module AdmissionTheorems {
  import opened Base
  import opened AdmissionModel

  // ----- The invariant

  /** A decision follows another: an allowed transition, or a repeated quarantine, and never earlier. */
  predicate Follows(a: Decision, b: Decision) {
    a.at <= b.at && (Allowed(a.stage, b.stage) || (a.stage == QUARANTINED && b.stage == QUARANTINED))
  }

  predicate HistoryFits(r: Record) {
    && r.decisions != []
    && r.decisions[0].stage == DECLARED && r.decisions[0].at == r.declaration.declaredAt
    && r.decisions[|r.decisions| - 1].stage == r.stage
    && forall i | 0 <= i < |r.decisions| - 1 :: Follows(r.decisions[i], r.decisions[i + 1])
  }

  predicate Passed(stage: Stage) {
    stage == VALIDATED || stage == ADMITTED || stage == REVOKED
  }

  predicate WasAdmitted(stage: Stage) {
    stage == ADMITTED || stage == REVOKED
  }

  predicate EvidenceFits(r: Record) {
    && (Passed(r.stage) ==> r.inspection.Some? && Matched(r.inspection.value) && r.policy.Some?)
    && (WasAdmitted(r.stage) ==> r.datasetEvidence.Some? && r.storageEvidence.Some? && r.storageKey.Some?)
  }

  predicate RecordFits(k: Key, r: Record) {
    KeyOf(r.declaration) == k && HistoryFits(r) && EvidenceFits(r)
  }

  /** Everything a record stands for is registered to its dataset. */
  predicate Owned(s: Registry, k: Key, r: Record) {
    && Owns(s.digests, Claim(k.tenant, r.declaration.digest), k.dataset)
    && Owns(s.sources, SourceOf(r.declaration), k.dataset)
    && (Passed(r.stage) && r.inspection.Some? ==>
        Owns(s.workbooks, Claim(k.tenant, r.inspection.value.workbook), k.dataset))
    && (WasAdmitted(r.stage) && r.datasetEvidence.Some? ==>
        Owns(s.datasetEvidence, Claim(k.tenant, r.datasetEvidence.value), k.dataset))
    && (WasAdmitted(r.stage) && r.storageEvidence.Some? ==>
        Owns(s.storageEvidence, Claim(k.tenant, r.storageEvidence.value), k.dataset))
  }

  predicate Owns<K>(owners: map<K, string>, key: K, dataset: string) {
    key in owners && owners[key] == dataset
  }

  ghost predicate Inv(s: Registry) {
    forall k | k in s.records :: RecordFits(k, s.records[k]) && Owned(s, k, s.records[k])
  }

  lemma EmptyInv()
    ensures Inv(EMPTY)
  {
  }

  // ----- One record

  lemma HistoryGrows(r: Record, d: Decision, n: Record)
    requires HistoryFits(r) && n.declaration == r.declaration && n.stage == d.stage && n.decisions == r.decisions + [d]
    requires Follows(r.decisions[|r.decisions| - 1], d)
    ensures HistoryFits(n)
  {
    hide Allowed;
    forall i | 0 <= i < |n.decisions| - 1
      ensures Follows(n.decisions[i], n.decisions[i + 1])
    {
      if i < |r.decisions| - 1 {
        assert n.decisions[i] == r.decisions[i] && n.decisions[i + 1] == r.decisions[i + 1];
      }
    }
  }

  lemma MoveKeepsHistory(r: Record, stage: Stage, actor: string, at: int, reason: string, diagnostics: set<Diagnostic>)
    requires HistoryFits(r) && CheckTime(r, at).Ok? && Move(r, stage, actor, at, reason, diagnostics).Ok?
    ensures HistoryFits(Move(r, stage, actor, at, reason, diagnostics).value)
  {
    HistoryGrows(r, Decision(stage, actor, at, reason, diagnostics),
                 Move(r, stage, actor, at, reason, diagnostics).value);
  }

  /** The same record with other fields: the history looks at the declaration, the stage and the decisions. */
  lemma SameHistory(r: Record, n: Record)
    requires HistoryFits(r) && n.declaration == r.declaration && n.stage == r.stage && n.decisions == r.decisions
    ensures HistoryFits(n)
  {
  }

  lemma QuarantineFits(k: Key, r: Record, actor: string, at: int, policy: Policy)
    requires RecordFits(k, r) && CheckTime(r, at).Ok? && Quarantine(r, actor, at, policy).Ok?
    ensures
      var q := Quarantine(r, actor, at, policy).value;
      RecordFits(k, q) && q.stage == QUARANTINED && q.declaration == r.declaration && CheckTime(q, at).Ok? &&
        q.policy.Some?
  {
    var q := Quarantine(r, actor, at, policy).value;
    if r.stage == DECLARED {
      var moved := Move(r, QUARANTINED, actor, at, "DATASET_QUARANTINED_FOR_VALIDATION", {});
      MoveKeepsHistory(r, QUARANTINED, actor, at, "DATASET_QUARANTINED_FOR_VALIDATION", {});
      SameHistory(moved.value, q);
    } else {
      SameHistory(r, q);
    }
  }

  lemma RejectFits(k: Key, r: Record, actor: string, at: int, code: string)
    requires RecordFits(k, r) && CheckTime(r, at).Ok? && r.stage == QUARANTINED
    ensures Reject(r, actor, at, code).Ok?
    ensures
      var n := Reject(r, actor, at, code).value;
      RecordFits(k, n) && n.stage == REJECTED && n.declaration == r.declaration
  {
    MoveKeepsHistory(r, REJECTED, actor, at, code, {Refused(code)});
    hide HistoryFits;
  }

  /** No findings means that a schema was matched. */
  lemma NoFindingsMeansMatched(p: Package, policy: Policy, d: Declaration)
    requires FindingsOf(InspectionOf(p, policy), d) == {}
    ensures Matched(InspectionOf(p, policy))
  {
    MatchIsExact(p.shape, policy.schemas);
    hide Match, Recognised;
    assert InspectionOf(p, policy).diagnostics <= FindingsOf(InspectionOf(p, policy), d);
  }

  lemma ExamineFits(k: Key, r: Record, workbooks: map<Claim, string>, actor: string, upload: Upload, policy: Policy,
                    at: int)
    requires RecordFits(k, r) && CheckTime(r, at).Ok? && r.stage == QUARANTINED && r.policy.Some?
    ensures
      var (examined, claimed) := Examine(r, workbooks, actor, upload, policy, at);
      && examined.Ok? && RecordFits(k, examined.value) && examined.value.declaration == r.declaration
      && !WasAdmitted(examined.value.stage)
      && (claimed.Some? ==> Free(workbooks, Claim(k.tenant, claimed.value), k.dataset))
      && (Passed(examined.value.stage) ==>
          examined.value.inspection.Some? && claimed == Some(examined.value.inspection.value.workbook))
  {
    hide Match, FindingsOf, HistoryFits, Matched;
    RejectFits(k, r, actor, at, "DATASET_BYTES_REQUIRED");
    RejectFits(k, r, actor, at, "DATASET_ORIGINAL_FILE_MISMATCH");
    RejectFits(k, r, actor, at, "DATASET_WORKBOOK_REPLAY_DETECTED");
    if upload.contents.Err? {
      RejectFits(k, r, actor, at, upload.contents.error);
    } else {
      var inspection := InspectionOf(upload.contents.value, policy);
      if FindingsOf(inspection, r.declaration) == {} {
        ValidateFits(k, r, upload.contents.value, policy, actor, at);
      } else {
        NoteFits(k, r, actor, at, FindingsOf(inspection, r.declaration), inspection);
      }
    }
  }

  lemma ValidateFits(k: Key, r: Record, p: Package, policy: Policy, actor: string, at: int)
    requires RecordFits(k, r) && CheckTime(r, at).Ok? && r.stage == QUARANTINED && r.policy.Some?
    requires FindingsOf(InspectionOf(p, policy), r.declaration) == {}
    ensures Move(r, VALIDATED, actor, at, "DATASET_VALIDATED", {}).Ok?
    ensures RecordFits(k, Move(r, VALIDATED, actor, at, "DATASET_VALIDATED", {}).value
                            .(inspection := Some(InspectionOf(p, policy))))
  {
    NoFindingsMeansMatched(p, policy, r.declaration);
    MoveKeepsHistory(r, VALIDATED, actor, at, "DATASET_VALIDATED", {});
    var moved := Move(r, VALIDATED, actor, at, "DATASET_VALIDATED", {}).value;
    SameHistory(moved, moved.(inspection := Some(InspectionOf(p, policy))));
    hide HistoryFits, Match, Matched;
  }

  lemma NoteFits(k: Key, r: Record, actor: string, at: int, findings: set<Diagnostic>, i: Inspection)
    requires RecordFits(k, r) && CheckTime(r, at).Ok? && r.stage == QUARANTINED
    ensures RecordFits(k, Note(r, actor, at, "DATASET_VALIDATION_BLOCKED", findings).(inspection := Some(i)))
  {
    var n := Note(r, actor, at, "DATASET_VALIDATION_BLOCKED", findings);
    HistoryGrows(r, Decision(QUARANTINED, actor, at, "DATASET_VALIDATION_BLOCKED", findings), n);
    SameHistory(n, n.(inspection := Some(i)));
    hide HistoryFits;
  }

  // ----- The registry

  /** No name changes its owner. */
  ghost predicate Keeps<K>(a: map<K, string>, b: map<K, string>) {
    forall k | k in a :: k in b && b[k] == a[k]
  }

  ghost predicate KeepsOwners(s: Registry, n: Registry) {
    && Keeps(s.digests, n.digests) && Keeps(s.sources, n.sources) && Keeps(s.workbooks, n.workbooks)
    && Keeps(s.datasetEvidence, n.datasetEvidence) && Keeps(s.storageEvidence, n.storageEvidence)
  }

  lemma OwnedLater(s: Registry, n: Registry, k: Key, r: Record)
    requires Owned(s, k, r) && KeepsOwners(s, n)
    ensures Owned(n, k, r)
  {
  }

  lemma OneRecordChanges(s: Registry, n: Registry, k: Key, r: Record)
    requires Inv(s) && KeepsOwners(s, n) && n.records == s.records[k := r]
    requires RecordFits(k, r) && Owned(n, k, r)
    ensures Inv(n)
  {
    hide RecordFits, Owned, KeepsOwners;
    forall other | other in n.records
      ensures RecordFits(other, n.records[other]) && Owned(n, other, n.records[other])
    {
      if other != k {
        OwnedLater(s, n, other, s.records[other]);
      }
    }
  }

  lemma FreeKeeps<K>(owners: map<K, string>, key: K, dataset: string)
    requires Free(owners, key, dataset)
    ensures Keeps(owners, owners[key := dataset])
  {
  }

  lemma DeclareKeepsInv(s: Registry, t: Tenant, d: Declaration)
    requires Inv(s)
    ensures Inv(Declare(s, t, d).0)
    ensures Declare(s, t, d).1.Err? ==> Declare(s, t, d).0 == s
    ensures Declare(s, t, d).1.Ok? ==> Declare(s, t, d).1.value.declaration == d
  {
    hide Inv;
    var n := Declare(s, t, d).0;
    if n != s {
      FreeKeeps(s.digests, Claim(d.tenant, d.digest), d.dataset);
      FreeKeeps(s.sources, SourceOf(d), d.dataset);
      OneRecordChanges(s, n, KeyOf(d), NewRecord(t, d));
    }
  }

  lemma RecordOf(s: Registry, t: Tenant, dataset: string)
    requires Inv(s) && Fetch(s, t, dataset).Ok?
    ensures
      var k, r := Key(t.id, dataset), Fetch(s, t, dataset).value;
      k in s.records && s.records[k] == r && RecordFits(k, r) && Owned(s, k, r) && r.declaration.uploader == t.account
  {
    hide RecordFits, Owned;
  }

  lemma InspectKeepsInv(s: Registry, t: Tenant, dataset: string, upload: Upload, policy: Policy, at: int)
    requires Inv(s)
    ensures
      var (n, result) := InspectAndValidate(s, t, dataset, upload, policy, at);
      Inv(n) && (result.Err? ==> n == s)
  {
    hide Inv, Examine, Quarantine, CheckTime, RecordFits;
    var k := Key(t.id, dataset);
    var (n, result) := InspectAndValidate(s, t, dataset, upload, policy, at);
    if result.Ok? {
      var r := Fetch(s, t, dataset).value;
      RecordOf(s, t, dataset);
      QuarantineFits(k, r, t.account, at, policy);
      var q := Quarantine(r, t.account, at, policy).value;
      ExamineFits(k, q, s.workbooks, t.account, upload, policy, at);
      var claimed := Examine(q, s.workbooks, t.account, upload, policy, at).1;
      if claimed.Some? {
        FreeKeeps(s.workbooks, Claim(t.id, claimed.value), dataset);
      }
      OneRecordChanges(s, n, k, result.value);
    }
  }

  lemma AdmitKeepsInv(s: Registry, t: Tenant, dataset: string, e: DatasetEvidence, g: StorageEvidence, at: int)
    requires Inv(s)
    ensures
      var (n, result) := Admit(s, t, dataset, e, g, at);
      Inv(n) && (result.Err? ==> n == s)
  {
    hide Inv, CheckBinding, CheckTimes, HistoryFits;
    var (n, result) := Admit(s, t, dataset, e, g, at);
    if result.Ok? {
      var k, r := Key(t.id, dataset), Fetch(s, t, dataset).value;
      RecordOf(s, t, dataset);
      MoveKeepsHistory(r, ADMITTED, t.account, at, "DATASET_ADMITTED", {});
      SameHistory(Move(r, ADMITTED, t.account, at, "DATASET_ADMITTED", {}).value, result.value);
      FreeKeeps(s.datasetEvidence, Claim(t.id, e.id), dataset);
      FreeKeeps(s.storageEvidence, Claim(t.id, g.id), dataset);
      OneRecordChanges(s, n, k, result.value);
    }
  }

  lemma RevokeKeepsInv(s: Registry, t: Tenant, dataset: string, reason: string, at: int)
    requires Inv(s)
    ensures
      var (n, result) := Revoke(s, t, dataset, reason, at);
      Inv(n) && (result.Err? ==> n == s)
  {
    hide Inv, HistoryFits;
    var (n, result) := Revoke(s, t, dataset, reason, at);
    if result.Ok? {
      var k, r := Key(t.id, dataset), Fetch(s, t, dataset).value;
      RecordOf(s, t, dataset);
      MoveKeepsHistory(r, REVOKED, t.account, at, reason, {});
      OneRecordChanges(s, n, k, result.value);
    }
  }

  // ----- Runs

  datatype Step =
    | DeclareStep(t: Tenant, d: Declaration)
    | InspectStep(t: Tenant, dataset: string, upload: Upload, policy: Policy, at: int)
    | AdmitStep(t: Tenant, dataset: string, e: DatasetEvidence, g: StorageEvidence, at: int)
    | RevokeStep(t: Tenant, dataset: string, reason: string, at: int)

  function After(s: Registry, step: Step): Registry {
    match step
    case DeclareStep(t, d) => Declare(s, t, d).0
    case InspectStep(t, dataset, upload, policy, at) => InspectAndValidate(s, t, dataset, upload, policy, at).0
    case AdmitStep(t, dataset, e, g, at) => Admit(s, t, dataset, e, g, at).0
    case RevokeStep(t, dataset, reason, at) => Revoke(s, t, dataset, reason, at).0
  }

  function Run(steps: seq<Step>): Registry {
    if steps == [] then EMPTY else After(Run(steps[..|steps| - 1]), steps[|steps| - 1])
  }

  lemma AfterKeepsInv(s: Registry, step: Step)
    requires Inv(s)
    ensures Inv(After(s, step))
  {
    hide Inv, Declare, InspectAndValidate, Admit, Revoke;
    match step
    case DeclareStep(t, d) => DeclareKeepsInv(s, t, d);
    case InspectStep(t, dataset, upload, policy, at) => InspectKeepsInv(s, t, dataset, upload, policy, at);
    case AdmitStep(t, dataset, e, g, at) => AdmitKeepsInv(s, t, dataset, e, g, at);
    case RevokeStep(t, dataset, reason, at) => RevokeKeepsInv(s, t, dataset, reason, at);
  }

  /** In every run every record has a lawful history, and VALIDATED or ADMITTED means a matched inspection. */
  lemma {:induction false} ReachableInv(steps: seq<Step>)
    ensures Inv(Run(steps))
  {
    if steps == [] {
      EmptyInv();
    } else {
      ReachableInv(steps[..|steps| - 1]);
      AfterKeepsInv(Run(steps[..|steps| - 1]), steps[|steps| - 1]);
    }
  }

  /** What two different datasets of one tenant never share. */
  lemma NothingIsShared(steps: seq<Step>, a: Key, b: Key)
    requires a in Run(steps).records && b in Run(steps).records && a.tenant == b.tenant && a != b
    ensures
      var x, y := Run(steps).records[a], Run(steps).records[b];
      && x.declaration.digest != y.declaration.digest
      && SourceOf(x.declaration) != SourceOf(y.declaration)
      && (Passed(x.stage) && Passed(y.stage) ==>
            x.inspection.Some? && y.inspection.Some? && x.inspection.value.workbook != y.inspection.value.workbook)
      && (WasAdmitted(x.stage) && WasAdmitted(y.stage) ==>
            && x.datasetEvidence.Some? && y.datasetEvidence.Some? && x.datasetEvidence != y.datasetEvidence
            && x.storageEvidence.Some? && y.storageEvidence.Some? && x.storageEvidence != y.storageEvidence)
  {
    ReachableInv(steps);
    hide Run, HistoryFits;
    assert RecordFits(a, Run(steps).records[a]) && Owned(Run(steps), a, Run(steps).records[a]);
    assert RecordFits(b, Run(steps).records[b]) && Owned(Run(steps), b, Run(steps).records[b]);
  }

  // ----- Histories only grow

  /** A record keeps its declaration and every decision it has. */
  predicate Continues(r: Record, n: Record) {
    n.declaration == r.declaration && r.decisions <= n.decisions
  }

  ghost predicate OnlyTouches(s: Registry, n: Registry, tenant: string) {
    && (forall k | k in s.records :: k in n.records && Continues(s.records[k], n.records[k]))
    && (forall k: Key | k.tenant != tenant ::
        (k in s.records <==> k in n.records) && (k in s.records ==> n.records[k] == s.records[k]))
  }

  function TenantOf(step: Step): Tenant {
    step.t
  }

  lemma OneRecordTouches(s: Registry, n: Registry, k: Key, r: Record)
    requires n.records == s.records[k := r]
    requires k in s.records ==> Continues(s.records[k], r)
    ensures OnlyTouches(s, n, k.tenant)
  {
    hide Continues;
    forall other | other in s.records
      ensures Continues(s.records[other], n.records[other])
    {
      ContinuesItself(s.records[other]);
    }
  }

  lemma ContinuesItself(r: Record)
    ensures Continues(r, r)
  {
  }

  lemma NothingTouched(s: Registry, tenant: string)
    ensures OnlyTouches(s, s, tenant)
  {
    hide Continues;
    forall k | k in s.records
      ensures Continues(s.records[k], s.records[k])
    {
      ContinuesItself(s.records[k]);
    }
  }

  lemma ExamineContinues(r: Record, workbooks: map<Claim, string>, actor: string, upload: Upload, policy: Policy,
                         at: int)
    ensures
      var examined := Examine(r, workbooks, actor, upload, policy, at).0;
      examined.Ok? ==> Continues(r, examined.value)
  {
    hide Match, FindingsOf;
  }

  lemma QuarantineContinues(r: Record, actor: string, at: int, policy: Policy)
    ensures Quarantine(r, actor, at, policy).Ok? ==> Continues(r, Quarantine(r, actor, at, policy).value)
  {
  }

  lemma InspectOnlyTouches(s: Registry, t: Tenant, dataset: string, upload: Upload, policy: Policy, at: int)
    ensures OnlyTouches(s, InspectAndValidate(s, t, dataset, upload, policy, at).0, t.id)
  {
    hide Examine, Quarantine, CheckTime, OnlyTouches;
    var (n, result) := InspectAndValidate(s, t, dataset, upload, policy, at);
    if result.Ok? {
      var r := Fetch(s, t, dataset).value;
      QuarantineContinues(r, t.account, at, policy);
      ExamineContinues(Quarantine(r, t.account, at, policy).value, s.workbooks, t.account, upload, policy, at);
      OneRecordTouches(s, n, Key(t.id, dataset), result.value);
    } else {
      NothingTouched(s, t.id);
    }
  }

  lemma AdmitOnlyTouches(s: Registry, t: Tenant, dataset: string, e: DatasetEvidence, g: StorageEvidence, at: int)
    ensures OnlyTouches(s, Admit(s, t, dataset, e, g, at).0, t.id)
  {
    hide CheckBinding, CheckTimes, CheckTime, OnlyTouches;
    var (n, result) := Admit(s, t, dataset, e, g, at);
    if result.Ok? {
      OneRecordTouches(s, n, Key(t.id, dataset), result.value);
    } else {
      NothingTouched(s, t.id);
    }
  }

  lemma DeclareOnlyTouches(s: Registry, t: Tenant, d: Declaration)
    ensures OnlyTouches(s, Declare(s, t, d).0, t.id)
  {
    hide OnlyTouches, Continues, Free;
    if Declare(s, t, d).0 == s {
      NothingTouched(s, t.id);
    } else {
      OneRecordTouches(s, Declare(s, t, d).0, KeyOf(d), NewRecord(t, d));
    }
  }

  lemma RevokeOnlyTouches(s: Registry, t: Tenant, dataset: string, reason: string, at: int)
    ensures OnlyTouches(s, Revoke(s, t, dataset, reason, at).0, t.id)
  {
    hide CheckTime, OnlyTouches;
    var (n, result) := Revoke(s, t, dataset, reason, at);
    if result.Ok? {
      OneRecordTouches(s, n, Key(t.id, dataset), result.value);
    } else {
      NothingTouched(s, t.id);
    }
  }

  /** A step of one tenant adds to that tenant's histories and touches no other tenant. */
  lemma HistoriesGrow(s: Registry, step: Step)
    ensures OnlyTouches(s, After(s, step), TenantOf(step).id)
  {
    hide Declare, InspectAndValidate, Admit, Revoke, OnlyTouches;
    match step
    case DeclareStep(t, d) => DeclareOnlyTouches(s, t, d);
    case InspectStep(t, dataset, upload, policy, at) => InspectOnlyTouches(s, t, dataset, upload, policy, at);
    case AdmitStep(t, dataset, e, g, at) => AdmitOnlyTouches(s, t, dataset, e, g, at);
    case RevokeStep(t, dataset, reason, at) => RevokeOnlyTouches(s, t, dataset, reason, at);
  }

  // ----- Inspection, exactly

  /** The upload is the declared file, it opens, and no other dataset has its workbook. */
  predicate Genuine(r: Record, workbooks: map<Claim, string>, upload: Upload) {
    && upload.size > 0 && upload.digest == r.declaration.digest && upload.size == r.declaration.size
    && upload.contents.Ok?
    && Free(workbooks, Claim(r.declaration.tenant, upload.contents.value.workbook), r.declaration.dataset)
  }

  /** Exactly when an inspection rejects, validates, or leaves a dataset in quarantine. */
  lemma ExamineExact(r: Record, workbooks: map<Claim, string>, actor: string, upload: Upload, policy: Policy, at: int)
    requires r.stage == QUARANTINED
    ensures
      var examined := Examine(r, workbooks, actor, upload, policy, at).0;
      && examined.Ok?
      && (examined.value.stage == REJECTED <==> !Genuine(r, workbooks, upload))
      && (examined.value.stage == VALIDATED <==>
            && Genuine(r, workbooks, upload)
            && Recognised(upload.contents.value.shape, policy.schemas)
            && (r.declaration.expectedRows.Some? ==>
                r.declaration.expectedRows.value == upload.contents.value.shape.rows))
      && (examined.value.stage == QUARANTINED || examined.value.stage == REJECTED || examined.value.stage == VALIDATED)
  {
    if upload.contents.Ok? {
      var p := upload.contents.value;
      MatchIsExact(p.shape, policy.schemas);
      FindingsExact(InspectionOf(p, policy), r.declaration);
    }
    hide Match, Recognised, FindingsOf;
  }

  lemma FindingsExact(i: Inspection, d: Declaration)
    ensures FindingsOf(i, d) == {} <==> i.diagnostics == {} && (d.expectedRows.Some? ==> d.expectedRows.value == i.rows)
  {
    if d.expectedRows.Some? && d.expectedRows.value != i.rows {
      assert ControlRowCountMismatch in FindingsOf(i, d);
    } else {
      assert FindingsOf(i, d) == i.diagnostics;
    }
  }

  // ----- Admission, exactly

  /** The dataset evidence describes the record it admits. */
  predicate Describes(e: DatasetEvidence, r: Record) {
    && r.inspection.Some? && Matched(r.inspection.value) && r.policy.Some?
    && var d, i := r.declaration, r.inspection.value;
       && e.dataset == d.dataset && e.digest == d.digest && e.authority == d.authority
       && (e.start, e.end, e.timezone) == (d.start, d.end, d.timezone)
       && e.controlTotals == d.controlTotals && e.policyHash == r.policy.value.hash
       && e.workbook == i.workbook && e.fingerprint == i.fingerprint
       && (e.schemaId, e.schemaVersion, e.schemaAuthority) ==
         (i.schema.value.id, i.schema.value.version, i.schema.value.authority)
  }

  /** When a dataset may be admitted. */
  predicate MayAdmit(s: Registry, t: Tenant, r: Record, e: DatasetEvidence, g: StorageEvidence, at: int) {
    && r.stage == VALIDATED && r.declaration.uploader == t.account && at < r.declaration.retention
    && e.complete && g.complete && e.tenant == g.tenant == t.id
    && e.verifier != r.declaration.uploader && g.verifier != r.declaration.uploader
    && Describes(e, r) && g.dataset == r.declaration.dataset && g.digest == r.declaration.digest
    && r.decisions != []
    && r.decisions[|r.decisions| - 1].at <= e.verifiedAt <= at
    && r.decisions[|r.decisions| - 1].at <= g.verifiedAt <= at
    && Free(s.datasetEvidence, Claim(t.id, e.id), r.declaration.dataset)
    && Free(s.storageEvidence, Claim(t.id, g.id), r.declaration.dataset)
  }

  lemma BindingExact(r: Record, e: DatasetEvidence, g: StorageEvidence)
    ensures CheckBinding(r, e, g).Ok? <==>
      && e.verifier != r.declaration.uploader && g.verifier != r.declaration.uploader
      && Describes(e, r) && g.dataset == r.declaration.dataset && g.digest == r.declaration.digest
  {
  }

  lemma AdmitExact(s: Registry, t: Tenant, dataset: string, e: DatasetEvidence, g: StorageEvidence, at: int)
    ensures Admit(s, t, dataset, e, g, at).1.Ok? <==>
      Key(t.id, dataset) in s.records && MayAdmit(s, t, s.records[Key(t.id, dataset)], e, g, at)
  {
    var k := Key(t.id, dataset);
    if k in s.records {
      BindingExact(s.records[k], e, g);
      hide CheckBinding, Describes;
    }
  }

  /** A dataset is readable exactly while it is admitted and retained. */
  lemma RequireAdmittedExact(s: Registry, t: Tenant, dataset: string, at: int)
    ensures RequireAdmitted(s, t, dataset, at).Ok? <==>
      && Key(t.id, dataset) in s.records
      && var r := s.records[Key(t.id, dataset)];
         && r.stage == ADMITTED && r.declaration.uploader == t.account
         && r.decisions != [] && r.decisions[|r.decisions| - 1].at <= at < r.declaration.retention
  {
  }
}
