/**
 Why the registry refuses a call, and what an accepted call writes, in terms of the fields of records,
 declarations and evidences. Every refusal carries the code of the first condition that fails.
 */
module AdmissionRefusals {
  import opened Base
  import opened Checks
  import opened AdmissionModel

  // ----- Stages

  /** The six transitions of a record's life. */
  lemma TransitionsExact(a: Stage, b: Stage)
    ensures Allowed(a, b) <==>
      || (a == DECLARED && b in {QUARANTINED, REJECTED}) || (a == QUARANTINED && b in {VALIDATED, REJECTED})
      || (a == VALIDATED && b in {ADMITTED, REJECTED}) || (a == ADMITTED && b == REVOKED)
  {
  }

  // ----- Finding a record

  predicate Stored(s: Registry, t: Tenant, dataset: string) {
    Key(t.id, dataset) in s.records
  }

  /** The record is there, belongs to the caller's account, and the call is not before its last decision. */
  function RecordChecks(s: Registry, t: Tenant, dataset: string, at: int): (checks: seq<Check<AdmissionError>>) {
    var k := Key(t.id, dataset);
    [
      Check(k in s.records, DatasetNotFound),
      Check(k in s.records ==> s.records[k].declaration.uploader == t.account, DatasetNotFound),
      Check(k in s.records ==> s.records[k].decisions != [], DecisionHistoryMissing),
      Check(k in s.records && s.records[k].decisions != [] ==>
              s.records[k].decisions[|s.records[k].decisions| - 1].at <= at, TimeRegression)
    ]
  }

  function Forget<T, E>(r: Result<T, E>): Result<(), E> {
    match r
    case Ok(_) => Ok(())
    case Err(e) => Err(e)
  }

  lemma RecordAnswer(s: Registry, t: Tenant, dataset: string, at: int)
    ensures AnsweredBy(RecordChecks(s, t, dataset, at), Forget(FetchAt(s, t, dataset, at)))
  {
    var checks := RecordChecks(s, t, dataset, at);
    if AllHold(checks) {
      assert checks[0].holds && checks[1].holds && checks[2].holds && checks[3].holds;
    }
    forall n | 0 <= n < |checks| && FirstUnmet(checks, n)
      ensures Forget(FetchAt(s, t, dataset, at)) == Err(checks[n].code)
    {
      ShortList(checks, n);
    }
  }

  // ----- Reading

  function ReadChecks(s: Registry, t: Tenant, dataset: string, at: int): (checks: seq<Check<AdmissionError>>) {
    var k := Key(t.id, dataset);
    [
      Check(k in s.records, DatasetNotFound),
      Check(k in s.records ==> s.records[k].declaration.uploader == t.account, DatasetNotFound),
      Check(k in s.records ==> s.records[k].stage == ADMITTED, NotAdmitted),
      Check(k in s.records ==> s.records[k].decisions != [], DecisionHistoryMissing),
      Check(k in s.records && s.records[k].decisions != [] ==>
              s.records[k].decisions[|s.records[k].decisions| - 1].at <= at, NotAdmittedAtTime),
      Check(k in s.records ==> at < s.records[k].declaration.retention, RetentionExpired)
    ]
  }

  /** Reading is refused with the code of the first condition that fails, and otherwise gives the stored record. */
  lemma ReadAnswer(s: Registry, t: Tenant, dataset: string, at: int)
    ensures AnsweredBy(ReadChecks(s, t, dataset, at), RequireAdmitted(s, t, dataset, at))
    ensures RequireAdmitted(s, t, dataset, at).Ok? ==>
      Stored(s, t, dataset) && RequireAdmitted(s, t, dataset, at).value == s.records[Key(t.id, dataset)]
  {
    var checks := ReadChecks(s, t, dataset, at);
    if AllHold(checks) {
      assert checks[0].holds && checks[1].holds && checks[2].holds && checks[3].holds && checks[4].holds;
      assert checks[5].holds;
    }
    forall n | 0 <= n < |checks| && FirstUnmet(checks, n)
      ensures RequireAdmitted(s, t, dataset, at) == Err(checks[n].code)
    {
      ShortList(checks, n);
    }
  }

  // ----- Declaring

  function DeclareChecks(s: Registry, t: Tenant, d: Declaration): (checks: seq<Check<AdmissionError>>) {
    var k, c := Key(d.tenant, d.dataset), Claim(d.tenant, d.digest);
    var source := Source(d.tenant, d.uploader, d.marketplace, d.report, d.source, d.start, d.end);
    [
      Check(d.tenant == t.id, DatasetNotFound),
      Check(d.uploader == t.account, UploaderScopeMismatch),
      Check(k in s.records ==> s.records[k].declaration == d, DeclarationConflict),
      Check(k !in s.records && c in s.digests ==> s.digests[c] == d.dataset, OriginalReplay),
      Check(k !in s.records && source in s.sources ==> s.sources[source] == d.dataset, SourceReplay)
    ]
  }

  lemma DeclareAnswer(s: Registry, t: Tenant, d: Declaration)
    ensures AnsweredBy(DeclareChecks(s, t, d), Declare(s, t, d).1)
  {
    var checks := DeclareChecks(s, t, d);
    if AllHold(checks) {
      assert checks[0].holds && checks[1].holds && checks[2].holds && checks[3].holds && checks[4].holds;
    }
    forall n | 0 <= n < |checks| && FirstUnmet(checks, n)
      ensures Declare(s, t, d).1 == Err(checks[n].code)
    {
      ShortList(checks, n);
    }
  }

  /** A first declaration starts a record and claims digest and source; a repeated one changes nothing. */
  lemma DeclareStores(s: Registry, t: Tenant, d: Declaration)
    requires Declare(s, t, d).1.Ok?
    ensures
      var (n, r), k := Declare(s, t, d), Key(d.tenant, d.dataset);
      if k in s.records then
        n == s && r.value == s.records[k]
      else
        && r.value.declaration == d && r.value.stage == DECLARED && r.value.diagnostics == {}
        && r.value.policy == None && r.value.inspection == None
        && r.value.datasetEvidence == r.value.storageEvidence == r.value.storageKey == None
        && r.value.decisions == [Decision(DECLARED, t.account, d.declaredAt, "DATASET_DECLARED", {})]
        && n.records == s.records[k := r.value]
        && n.digests == s.digests[Claim(d.tenant, d.digest) := d.dataset]
        && n.sources ==
           s.sources[Source(d.tenant, d.uploader, d.marketplace, d.report, d.source, d.start, d.end) := d.dataset]
        && (n.workbooks, n.datasetEvidence, n.storageEvidence) ==
           (s.workbooks, s.datasetEvidence, s.storageEvidence)
  {
  }

  // ----- Revoking

  function RevokeChecks(s: Registry, t: Tenant, dataset: string, at: int): (checks: seq<Check<AdmissionError>>) {
    var k := Key(t.id, dataset);
    RecordChecks(s, t, dataset, at) + [Check(k in s.records ==> s.records[k].stage == ADMITTED, NotAdmitted)]
  }

  lemma RevokeAnswer(s: Registry, t: Tenant, dataset: string, reason: string, at: int)
    ensures AnsweredBy(RevokeChecks(s, t, dataset, at), Revoke(s, t, dataset, reason, at).1)
  {
    var k, checks := Key(t.id, dataset), RevokeChecks(s, t, dataset, at);
    if AllHold(checks) {
      assert checks[0].holds && checks[1].holds && checks[2].holds && checks[3].holds && checks[4].holds;
    }
    forall n | 0 <= n < |checks| && FirstUnmet(checks, n)
      ensures Revoke(s, t, dataset, reason, at).1 == Err(checks[n].code)
    {
      ShortList(checks, n);
    }
  }

  /** A revocation writes the new stage and one decision, and nothing else. */
  lemma RevokeStores(s: Registry, t: Tenant, dataset: string, reason: string, at: int)
    requires Revoke(s, t, dataset, reason, at).1.Ok?
    ensures Stored(s, t, dataset)
    ensures
      var (n, r), before := Revoke(s, t, dataset, reason, at), s.records[Key(t.id, dataset)];
      && n == s.(records := s.records[Key(t.id, dataset) := r.value])
      && r.value == before.(stage := REVOKED, diagnostics := {},
                            decisions := before.decisions + [Decision(REVOKED, t.account, at, reason, {})])
  {
  }

  // ----- Admitting

  function EvidenceChecks(t: Tenant, e: DatasetEvidence, g: StorageEvidence): (checks: seq<Check<AdmissionError>>) {
    [
      Check(e.tenant == t.id && g.tenant == t.id, DatasetNotFound),
      Check(e.complete, ControlsIncomplete),
      Check(g.complete, StorageIncomplete)
    ]
  }

  function StageChecks(r: Record, at: int): (checks: seq<Check<AdmissionError>>) {
    [
      Check(r.stage == VALIDATED, NotValidated),
      Check(at < r.declaration.retention, RetentionExpired)
    ]
  }

  /** The evidences are independent of the uploader and describe the inspected file. */
  function BindingChecks(r: Record, e: DatasetEvidence, g: StorageEvidence): (checks: seq<Check<AdmissionError>>) {
    var d, i := r.declaration, r.inspection;
    var schema := if i.Some? then i.value.schema else None;
    [
      Check(e.verifier != d.uploader, EvidenceNotIndependent),
      Check(g.verifier != d.uploader, StorageNotIndependent),
      Check(i.Some? && schema.Some? && i.value.diagnostics == {}, ValidationEvidenceMissing),
      Check(e.dataset == d.dataset, EvidenceDatasetMismatch),
      Check(e.digest == d.digest, EvidenceFileMismatch),
      Check(e.authority == d.authority, EvidenceAuthorityMismatch),
      Check(e.start == d.start && e.end == d.end && e.timezone == d.timezone, EvidencePeriodMismatch),
      Check(e.controlTotals == d.controlTotals, EvidenceControlTotalsMismatch),
      Check(r.policy.Some? && r.policy.value.hash == e.policyHash, EvidencePolicyMismatch),
      Check(i.Some? ==> i.value.workbook == e.workbook, EvidenceWorkbookMismatch),
      Check(i.Some? ==> i.value.fingerprint == e.fingerprint, EvidenceFingerprintMismatch),
      Check(schema.Some? ==> schema.value.id == e.schemaId && schema.value.version == e.schemaVersion
                             && schema.value.authority == e.schemaAuthority, EvidenceSchemaMismatch),
      Check(g.dataset == d.dataset, StorageDatasetMismatch),
      Check(g.digest == d.digest, StorageFileMismatch)
    ]
  }

  /** Both were verified after the record's last decision and not after the call. */
  function TimeChecks(r: Record, e: DatasetEvidence, g: StorageEvidence, at: int)
    : (checks: seq<Check<AdmissionError>>)
  {
    var last := if r.decisions == [] then None else Some(r.decisions[|r.decisions| - 1].at);
    [
      Check(last.Some?, DecisionHistoryMissing),
      Check(last.Some? ==> last.value <= e.verifiedAt, EvidenceStale),
      Check(last.Some? ==> last.value <= g.verifiedAt, StorageStale),
      Check(e.verifiedAt <= at, EvidenceFromFuture),
      Check(g.verifiedAt <= at, StorageFromFuture)
    ]
  }

  function ReplayChecks(s: Registry, t: Tenant, r: Record, e: DatasetEvidence, g: StorageEvidence)
    : (checks: seq<Check<AdmissionError>>)
  {
    var a, b := Claim(t.id, e.id), Claim(t.id, g.id);
    [
      Check(a in s.datasetEvidence ==> s.datasetEvidence[a] == r.declaration.dataset, EvidenceReplay),
      Check(b in s.storageEvidence ==> s.storageEvidence[b] == r.declaration.dataset, StorageReplay)
    ]
  }

  function FinalChecks(s: Registry, t: Tenant, r: Record, e: DatasetEvidence, g: StorageEvidence, at: int)
    : (checks: seq<Check<AdmissionError>>)
  {
    StageChecks(r, at) + (BindingChecks(r, e, g) + (TimeChecks(r, e, g, at) + ReplayChecks(s, t, r, e, g)))
  }

  /** Everything an admission is checked for, in order. */
  function AdmitChecks(s: Registry, t: Tenant, dataset: string, e: DatasetEvidence, g: StorageEvidence, at: int)
    : (checks: seq<Check<AdmissionError>>)
  {
    var k := Key(t.id, dataset);
    EvidenceChecks(t, e, g) + (RecordChecks(s, t, dataset, at)
      + if k in s.records then FinalChecks(s, t, s.records[k], e, g, at) else [])
  }

  function EvidenceResult(t: Tenant, e: DatasetEvidence, g: StorageEvidence): Result<(), AdmissionError> {
    if !(t.id == e.tenant && t.id == g.tenant) then Err(DatasetNotFound)
    else if !e.complete then Err(ControlsIncomplete)
    else Need(g.complete, StorageIncomplete)
  }

  lemma EvidenceAnswer(t: Tenant, e: DatasetEvidence, g: StorageEvidence)
    ensures AnsweredBy(EvidenceChecks(t, e, g), EvidenceResult(t, e, g))
  {
    var checks := EvidenceChecks(t, e, g);
    if AllHold(checks) {
      assert checks[0].holds && checks[1].holds && checks[2].holds;
    }
    forall n | 0 <= n < |checks| && FirstUnmet(checks, n) {
      ShortList(checks, n);
    }
  }

  lemma StageAnswer(r: Record, at: int)
    ensures AnsweredBy(StageChecks(r, at),
      if r.stage != VALIDATED then Err(NotValidated) else Need(at < r.declaration.retention, RetentionExpired))
  {
    var checks := StageChecks(r, at);
    if AllHold(checks) {
      assert checks[0].holds && checks[1].holds;
    }
    forall n | 0 <= n < |checks| && FirstUnmet(checks, n) {
      ShortList(checks, n);
    }
  }

  lemma BindingAnswer(r: Record, e: DatasetEvidence, g: StorageEvidence)
    ensures AnsweredBy(BindingChecks(r, e, g), Forget(CheckBinding(r, e, g)))
  {
    var c := BindingChecks(r, e, g);
    if AllHold(c) {
      assert c[0].holds && c[1].holds && c[2].holds && c[3].holds && c[4].holds && c[5].holds && c[6].holds;
      assert c[7].holds && c[8].holds && c[9].holds && c[10].holds && c[11].holds && c[12].holds && c[13].holds;
    }
    forall n | 0 <= n < |c| && FirstUnmet(c, n)
      ensures Forget(CheckBinding(r, e, g)) == Err(c[n].code)
    {
      LongList(c, n);
    }
  }

  lemma TimeAnswer(r: Record, e: DatasetEvidence, g: StorageEvidence, at: int)
    ensures AnsweredBy(TimeChecks(r, e, g, at), CheckTimes(r, e, g, at))
  {
    var checks := TimeChecks(r, e, g, at);
    if AllHold(checks) {
      assert checks[0].holds && checks[1].holds && checks[2].holds && checks[3].holds && checks[4].holds;
    }
    forall n | 0 <= n < |checks| && FirstUnmet(checks, n)
      ensures CheckTimes(r, e, g, at) == Err(checks[n].code)
    {
      ShortList(checks, n);
    }
  }

  function ReplayResult(s: Registry, t: Tenant, r: Record, e: DatasetEvidence, g: StorageEvidence)
    : Result<(), AdmissionError>
  {
    if !Free(s.datasetEvidence, Claim(t.id, e.id), r.declaration.dataset) then Err(EvidenceReplay)
    else Need(Free(s.storageEvidence, Claim(t.id, g.id), r.declaration.dataset), StorageReplay)
  }

  lemma ReplayAnswer(s: Registry, t: Tenant, r: Record, e: DatasetEvidence, g: StorageEvidence)
    ensures AnsweredBy(ReplayChecks(s, t, r, e, g), ReplayResult(s, t, r, e, g))
  {
    var checks := ReplayChecks(s, t, r, e, g);
    if AllHold(checks) {
      assert checks[0].holds && checks[1].holds;
    }
    forall n | 0 <= n < |checks| && FirstUnmet(checks, n) {
      ShortList(checks, n);
    }
  }

  lemma FinalAnswer(s: Registry, t: Tenant, r: Record, e: DatasetEvidence, g: StorageEvidence, at: int)
    ensures AnsweredBy(FinalChecks(s, t, r, e, g, at), Forget(Finalize(s, t, r, e, g, at)))
  {
    hide AnsweredBy, StageChecks, BindingChecks, TimeChecks, ReplayChecks, CheckBinding, CheckTimes, ReplayResult, Free;
    var stage :=
      if r.stage != VALIDATED then Err(NotValidated) else Need(at < r.declaration.retention, RetentionExpired);
    var binding, times, replay := Forget(CheckBinding(r, e, g)), CheckTimes(r, e, g, at), ReplayResult(s, t, r, e, g);
    StageAnswer(r, at);
    BindingAnswer(r, e, g);
    TimeAnswer(r, e, g, at);
    ReplayAnswer(s, t, r, e, g);
    Then(TimeChecks(r, e, g, at), ReplayChecks(s, t, r, e, g), times, replay);
    var later := if times.Ok? then replay else times;
    Then(BindingChecks(r, e, g), TimeChecks(r, e, g, at) + ReplayChecks(s, t, r, e, g), binding, later);
    var bound := if binding.Ok? then later else binding;
    Then(StageChecks(r, at), BindingChecks(r, e, g) + (TimeChecks(r, e, g, at) + ReplayChecks(s, t, r, e, g)), stage,
         bound);
    FinalInSteps(s, t, r, e, g, at);
  }

  lemma FinalInSteps(s: Registry, t: Tenant, r: Record, e: DatasetEvidence, g: StorageEvidence, at: int)
    ensures
      var binding, times := Forget(CheckBinding(r, e, g)), CheckTimes(r, e, g, at);
      Forget(Finalize(s, t, r, e, g, at)) ==
        if r.stage != VALIDATED then Err(NotValidated)
        else if at >= r.declaration.retention then Err(RetentionExpired)
        else if binding.Err? then binding
        else if times.Err? then times
        else ReplayResult(s, t, r, e, g)
  {
    hide CheckBinding, CheckTimes, Free;
  }

  lemma AdmissibleAnswer(s: Registry, t: Tenant, dataset: string, e: DatasetEvidence, g: StorageEvidence, at: int)
    ensures AnsweredBy(AdmitChecks(s, t, dataset, e, g, at), Forget(Admissible(s, t, dataset, e, g, at)))
  {
    hide AnsweredBy, EvidenceChecks, RecordChecks, FinalChecks, Finalize;
    var k := Key(t.id, dataset);
    var evidence, fetched := EvidenceResult(t, e, g), Forget(FetchAt(s, t, dataset, at));
    EvidenceAnswer(t, e, g);
    RecordAnswer(s, t, dataset, at);
    if k in s.records {
      FinalAnswer(s, t, s.records[k], e, g, at);
      var final := Forget(Finalize(s, t, s.records[k], e, g, at));
      Then(RecordChecks(s, t, dataset, at), FinalChecks(s, t, s.records[k], e, g, at), fetched, final);
      Then(EvidenceChecks(t, e, g), RecordChecks(s, t, dataset, at) + FinalChecks(s, t, s.records[k], e, g, at),
           evidence, if fetched.Ok? then final else fetched);
    } else {
      assert RecordChecks(s, t, dataset, at) + [] == RecordChecks(s, t, dataset, at);
      Then(EvidenceChecks(t, e, g), RecordChecks(s, t, dataset, at), evidence, fetched);
    }
  }

  /** An admission is refused with the code of the first condition that fails, and made if all hold. */
  lemma AdmitAnswer(s: Registry, t: Tenant, dataset: string, e: DatasetEvidence, g: StorageEvidence, at: int)
    ensures AnsweredBy(AdmitChecks(s, t, dataset, e, g, at), Admit(s, t, dataset, e, g, at).1)
  {
    AdmissibleAnswer(s, t, dataset, e, g, at);
    hide AdmitChecks, Admissible, AllHold, FirstUnmet;
  }

  /** An admission writes stage, decision, evidences and storage key, and claims both evidences. */
  lemma AdmitStores(s: Registry, t: Tenant, dataset: string, e: DatasetEvidence, g: StorageEvidence, at: int)
    requires Admit(s, t, dataset, e, g, at).1.Ok?
    ensures Stored(s, t, dataset)
    ensures
      var (n, r), before := Admit(s, t, dataset, e, g, at), s.records[Key(t.id, dataset)];
      && n == s.(records := s.records[Key(t.id, dataset) := r.value],
                 datasetEvidence := s.datasetEvidence[Claim(t.id, e.id) := dataset],
                 storageEvidence := s.storageEvidence[Claim(t.id, g.id) := dataset])
      && r.value == before.(stage := ADMITTED, diagnostics := {},
                            decisions := before.decisions + [Decision(ADMITTED, t.account, at, "DATASET_ADMITTED", {})],
                            datasetEvidence := Some(e.id), storageEvidence := Some(g.id), storageKey := Some(g.key))
  {
    hide CheckBinding, CheckTimes, CheckTime, Free;
  }

  // ----- Inspecting

  function InspectChecks(s: Registry, t: Tenant, dataset: string, at: int): (checks: seq<Check<AdmissionError>>) {
    var k := Key(t.id, dataset);
    RecordChecks(s, t, dataset, at)
    + [Check(k in s.records ==> s.records[k].stage in {DECLARED, QUARANTINED}, TransitionInvalid)]
  }

  lemma ExamineNeverFails(r: Record, workbooks: map<Claim, string>, actor: string, upload: Upload, policy: Policy,
                          at: int)
    requires r.stage == QUARANTINED
    ensures Examine(r, workbooks, actor, upload, policy, at).0.Ok?
  {
    hide Match, FindingsOf, Free;
  }

  lemma QuarantineWrites(r: Record, actor: string, at: int, policy: Policy)
    ensures Quarantine(r, actor, at, policy).Ok? <==> r.stage in {DECLARED, QUARANTINED}
    ensures Quarantine(r, actor, at, policy).Err? ==> Quarantine(r, actor, at, policy) == Err(TransitionInvalid)
    ensures r.stage in {DECLARED, QUARANTINED} ==>
      Quarantine(r, actor, at, policy) == Ok(r.(
        stage := QUARANTINED, policy := Some(Applied(policy.id, policy.version, policy.hash)),
        diagnostics := if r.stage == DECLARED then {} else r.diagnostics,
        decisions := Started(r, actor, at)))
  {
    assert r.decisions + [] == r.decisions;
  }

  /** The decisions of a record once it is in quarantine. */
  function Started(r: Record, actor: string, at: int): seq<Decision> {
    r.decisions + if r.stage == DECLARED then
      [Decision(QUARANTINED, actor, at, "DATASET_QUARANTINED_FOR_VALIDATION", {})] else []
  }

  /** An inspection is refused, and nothing written, with the code of the first condition that fails. */
  lemma InspectAnswer(s: Registry, t: Tenant, dataset: string, upload: Upload, policy: Policy, at: int)
    ensures AnsweredBy(InspectChecks(s, t, dataset, at), InspectAndValidate(s, t, dataset, upload, policy, at).1)
  {
    hide Examine, Quarantine;
    var k, checks := Key(t.id, dataset), InspectChecks(s, t, dataset, at);
    if k in s.records {
      QuarantineWrites(s.records[k], t.account, at, policy);
      if s.records[k].stage in {DECLARED, QUARANTINED} {
        ExamineNeverFails(Quarantine(s.records[k], t.account, at, policy).value, s.workbooks, t.account, upload, policy,
                          at);
      }
    }
    if AllHold(checks) {
      assert checks[0].holds && checks[1].holds && checks[2].holds && checks[3].holds && checks[4].holds;
    }
    forall n | 0 <= n < |checks| && FirstUnmet(checks, n)
      ensures InspectAndValidate(s, t, dataset, upload, policy, at).1 == Err(checks[n].code)
    {
      ShortList(checks, n);
    }
  }

  /** Why a file is rejected, if it is. */
  function Rejection(d: Declaration, workbooks: map<Claim, string>, upload: Upload): Option<string> {
    if upload.size == 0 then Some("DATASET_BYTES_REQUIRED")
    else if upload.digest != d.digest || upload.size != d.size then Some("DATASET_ORIGINAL_FILE_MISMATCH")
    else
      match upload.contents
      case Err(code) => Some(code)
      case Ok(package) =>
        var c := Claim(d.tenant, package.workbook);
        if c in workbooks && workbooks[c] != d.dataset then Some("DATASET_WORKBOOK_REPLAY_DETECTED") else None
  }

  /** The record after an inspection: the policy it was inspected under, what was found, and one decision. */
  ghost predicate InspectedAs(before: Record, after: Record, actor: string, at: int, policy: Policy, stage: Stage,
                              reason: string, diagnostics: set<Diagnostic>, inspection: Option<Inspection>)
  {
    && after.stage == stage && after.diagnostics == diagnostics && after.inspection == inspection
    && after.policy == Some(Applied(policy.id, policy.version, policy.hash))
    && after.decisions == Started(before, actor, at) + [Decision(stage, actor, at, reason, diagnostics)]
    && (after.declaration, after.datasetEvidence, after.storageEvidence, after.storageKey) ==
       (before.declaration, before.datasetEvidence, before.storageEvidence, before.storageKey)
  }

  /** What an inspection writes. */
  ghost predicate Inspected(before: Record, after: Record, workbooks: map<Claim, string>, actor: string,
                            upload: Upload, policy: Policy, at: int)
  {
    match Rejection(before.declaration, workbooks, upload)
    case Some(code) =>
      InspectedAs(before, after, actor, at, policy, REJECTED, code, {Refused(code)}, before.inspection)
    case None => (
      && upload.contents.Ok?
      && var package := upload.contents.value;
         var found := Match(package.shape, policy.schemas);
         var inspection :=
           Inspection(package.workbook, package.fingerprint, found.schema, package.shape.rows, found.diagnostics);
         var miscounted :=
           before.declaration.expectedRows.Some? && before.declaration.expectedRows.value != package.shape.rows;
         if found.diagnostics == {} && !miscounted then
           InspectedAs(before, after, actor, at, policy, VALIDATED, "DATASET_VALIDATED", {}, Some(inspection))
         else
           InspectedAs(before, after, actor, at, policy, QUARANTINED, "DATASET_VALIDATION_BLOCKED",
                       found.diagnostics + if miscounted then {ControlRowCountMismatch} else {}, Some(inspection)))
  }

  lemma ExamineWrites(r: Record, workbooks: map<Claim, string>, actor: string, upload: Upload, policy: Policy, at: int)
    requires r.stage in {DECLARED, QUARANTINED}
    ensures
      var q := Quarantine(r, actor, at, policy).value;
      var (examined, claimed) := Examine(q, workbooks, actor, upload, policy, at);
      && examined.Ok? && Inspected(r, examined.value, workbooks, actor, upload, policy, at)
      && claimed == if Rejection(r.declaration, workbooks, upload).Some? then None
                    else Some(upload.contents.value.workbook)
  {
    QuarantineWrites(r, actor, at, policy);
    hide Quarantine, Match, Started;
  }

  /** An accepted inspection writes the record, and claims the workbook of a file that was not rejected. */
  lemma InspectStores(s: Registry, t: Tenant, dataset: string, upload: Upload, policy: Policy, at: int)
    requires InspectAndValidate(s, t, dataset, upload, policy, at).1.Ok?
    ensures Stored(s, t, dataset)
    ensures
      var (n, r), before := InspectAndValidate(s, t, dataset, upload, policy, at), s.records[Key(t.id, dataset)];
      && Inspected(before, r.value, s.workbooks, t.account, upload, policy, at)
      && n.records == s.records[Key(t.id, dataset) := r.value]
      && (n.digests, n.sources, n.datasetEvidence, n.storageEvidence) ==
         (s.digests, s.sources, s.datasetEvidence, s.storageEvidence)
      && n.workbooks ==
         if Rejection(before.declaration, s.workbooks, upload).Some? then s.workbooks
         else s.workbooks[Claim(t.id, upload.contents.value.workbook) := dataset]
  {
    hide Examine, Quarantine, Inspected, Rejection;
    var before := s.records[Key(t.id, dataset)];
    QuarantineWrites(before, t.account, at, policy);
    ExamineWrites(before, s.workbooks, t.account, upload, policy, at);
  }

  // ----- What is found

  /** What each code says of a shape and a schema of its kind of package. */
  predicate Disagrees(shape: Shape, schema: Schema, d: Diagnostic) {
    match d
    case SheetNameMismatch => shape.sheet != schema.sheet
    case SheetCountMismatch => shape.sheetCount != schema.sheetCount
    case HeaderRowMismatch => shape.headerRow != schema.headerRow
    case HeaderHashMismatch => shape.headerHash != schema.headerHash
    case ColumnCountMismatch => shape.columns != schema.columns
    case DataColumnCountExceeded => shape.maxUsedColumn > schema.columns
    case UnmodeledWorksheetContent => shape.unmodeled >= 1
    case RowCountOutOfRange => shape.rows < schema.minRows || schema.maxRows < shape.rows
    case FormulaCountExceeded => shape.formulas > schema.maxFormulas
    case _ => false
  }

  lemma WhenExact(condition: bool, reason: Diagnostic, d: Diagnostic)
    ensures d in When(condition, reason) <==> condition && d == reason
  {
  }

  lemma MismatchExact(shape: Shape, schema: Schema, d: Diagnostic)
    ensures d in Mismatches(shape, schema) <==> Disagrees(shape, schema, d)
  {
    forall condition, reason {
      WhenExact(condition, reason, d);
    }
    hide When;
  }

  lemma {:induction false} ScanCollects(shape: Shape, schemas: seq<Schema>, n: nat, d: Diagnostic)
    requires n <= |schemas|
    ensures
      var scan := ScanUpTo(shape, schemas, n);
      && (scan.candidates == 0 <==> forall j | 0 <= j < n :: schemas[j].packageKind != shape.packageKind)
      && (d in scan.codes <==>
            exists j | 0 <= j < n :: schemas[j].packageKind == shape.packageKind && Disagrees(shape, schemas[j], d))
  {
    hide Mismatches, Disagrees;
    if n > 0 {
      ScanCollects(shape, schemas, n - 1, d);
      MismatchExact(shape, schemas[n - 1], d);
    }
  }

  /** What is listed when no schema is matched: every disagreement, and what the registered schemas come to. */
  lemma DiagnosticsExact(shape: Shape, schemas: seq<Schema>, d: Diagnostic)
    requires Match(shape, schemas).schema.None?
    ensures d in Match(shape, schemas).diagnostics <==>
      || (exists j | 0 <= j < |schemas| ::
            schemas[j].packageKind == shape.packageKind && Disagrees(shape, schemas[j], d))
      || (d == PackageKindUnregistered && forall j | 0 <= j < |schemas| :: schemas[j].packageKind != shape.packageKind)
      || (d == SchemaMatchAmbiguous &&
            exists i, j :: 0 <= i < j < |schemas| && Fits(shape, schemas[i]) && Fits(shape, schemas[j]))
      || (d == DirectIdentifierHeaderPresent && shape.prohibitedHeaders > 0)
      || (d == SchemaUnknown && forall j | 0 <= j < |schemas| :: !Fits(shape, schemas[j]))
  {
    hide Fits, Disagrees, ScanUpTo;
    ScanCollects(shape, schemas, |schemas|, d);
    ScanFinds(shape, schemas, |schemas|);
    AtMostOne(shape, schemas);
    forall condition, reason {
      WhenExact(condition, reason, d);
    }
    hide When;
  }

  lemma AtMostOne(shape: Shape, schemas: seq<Schema>)
    ensures |ScanUpTo(shape, schemas, |schemas|).matches| <= 1 ==>
      forall i, j :: 0 <= i < j < |schemas| ==> !(Fits(shape, schemas[i]) && Fits(shape, schemas[j]))
  {
    hide Fits, ScanUpTo;
    ScanFinds(shape, schemas, |schemas|);
    assert schemas[..|schemas|] == schemas;
  }
}
