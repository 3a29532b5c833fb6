/** The registry as the program keeps it: six dictionaries that its methods update. */
module Admission {
  import opened Base
  import opened AdmissionModel
  import opened AdmissionTheorems

  class RealDatasetAdmissionRegistry {
    var records: map<Key, Record>
    var originalDigestOwners: map<Claim, string>
    var sourceIdentityOwners: map<Source, string>
    var workbookDigestOwners: map<Claim, string>
    var datasetEvidenceOwners: map<Claim, string>
    var storageEvidenceOwners: map<Claim, string>

    function Contents(): Registry
      reads this
    {
      Registry(records, originalDigestOwners, sourceIdentityOwners, workbookDigestOwners, datasetEvidenceOwners,
               storageEvidenceOwners)
    }

    ghost predicate Valid()
      reads this
    {
      Inv(Contents())
    }

    constructor ()
      ensures Valid() && Contents() == EMPTY
    {
      records, originalDigestOwners, sourceIdentityOwners := map[], map[], map[];
      workbookDigestOwners, datasetEvidenceOwners, storageEvidenceOwners := map[], map[], map[];
    }

    method Get(t: Tenant, dataset: string) returns (result: Result<Record, AdmissionError>)
      ensures result == Fetch(Contents(), t, dataset)
    {
      if Key(t.id, dataset) !in records {
        return Err(DatasetNotFound);
      }
      var record := records[Key(t.id, dataset)];
      if t.account != record.declaration.uploader {
        return Err(DatasetNotFound);
      }
      return Ok(record);
    }

    /** `get`, and the time check of every later step. */
    method GetAt(t: Tenant, dataset: string, at: int) returns (result: Result<Record, AdmissionError>)
      ensures result == FetchAt(Contents(), t, dataset, at)
    {
      result := Get(t, dataset);
      if result.Ok? {
        var time := CheckTime(result.value, at);
        if time.Err? {
          return Err(time.error);
        }
      }
    }

    method Check(t: Tenant, d: Declaration) returns (result: Result<Option<Record>, AdmissionError>)
      ensures result == CheckDeclaration(Contents(), t, d)
    {
      if t.id != d.tenant {
        return Err(DatasetNotFound);
      }
      if t.account != d.uploader {
        return Err(UploaderScopeMismatch);
      }
      var key, digestKey, sourceKey := KeyOf(d), Claim(d.tenant, d.digest), SourceOf(d);
      if key in records {
        return if records[key].declaration == d then Ok(Some(records[key])) else Err(DeclarationConflict);
      }
      if digestKey in originalDigestOwners && originalDigestOwners[digestKey] != d.dataset {
        return Err(OriginalReplay);
      }
      if sourceKey in sourceIdentityOwners && sourceIdentityOwners[sourceKey] != d.dataset {
        return Err(SourceReplay);
      }
      return Ok(None);
    }

    method Declare(t: Tenant, d: Declaration) returns (result: Result<Record, AdmissionError>)
      requires Valid()
      modifies this
      ensures Valid()
      ensures Contents() == AdmissionModel.Declare(old(Contents()), t, d).0
      ensures result == AdmissionModel.Declare(old(Contents()), t, d).1
      ensures result.Err? ==> Contents() == old(Contents())
    {
      hide Inv, CheckDeclaration, NewRecord, SourceOf;
      DeclareKeepsInv(Contents(), t, d);
      var checked := Check(t, d);
      match checked {
        case Err(error) =>
          return Err(error);
        case Ok(Some(record)) =>
          return Ok(record);
        case Ok(None) =>
      }
      var record := NewRecord(t, d);
      records := records[KeyOf(d) := record];
      originalDigestOwners := originalDigestOwners[Claim(d.tenant, d.digest) := d.dataset];
      sourceIdentityOwners := sourceIdentityOwners[SourceOf(d) := d.dataset];
      return Ok(record);
    }

    /** `_claim_workbook_digest`. */
    method ClaimWorkbookDigest(tenant: string, dataset: string, workbook: string) returns (claimed: bool)
      modifies `workbookDigestOwners
      ensures claimed == Free(old(workbookDigestOwners), Claim(tenant, workbook), dataset)
      ensures workbookDigestOwners ==
        if claimed then old(workbookDigestOwners)[Claim(tenant, workbook) := dataset] else old(workbookDigestOwners)
    {
      var key := Claim(tenant, workbook);
      if key in workbookDigestOwners && workbookDigestOwners[key] != dataset {
        return false;
      }
      workbookDigestOwners := workbookDigestOwners[key := dataset];
      return true;
    }

    /** `_reject_locked`: a quarantined record is rejected and stored. */
    method RejectLocked(t: Tenant, record: Record, code: string, at: int)
      returns (result: Result<Record, AdmissionError>)
      requires record.stage == QUARANTINED
      modifies `records
      ensures result == Reject(record, t.account, at, code) && result.Ok?
      ensures records == old(records)[Key(t.id, record.declaration.dataset) := result.value]
    {
      result := Reject(record, t.account, at, code);
      records := records[Key(t.id, record.declaration.dataset) := result.value];
    }

    /** Everything after the record is quarantined. */
    method ExamineLocked(t: Tenant, record: Record, upload: Upload, policy: Policy, at: int)
      returns (result: Result<Record, AdmissionError>)
      requires record.stage == QUARANTINED && record.declaration.tenant == t.id
      modifies `records, `workbookDigestOwners
      ensures
        var (examined, claimed) := Examine(record, old(workbookDigestOwners), t.account, upload, policy, at);
        && result == examined && result.Ok?
        && records == old(records)[Key(t.id, record.declaration.dataset) := result.value]
        && workbookDigestOwners == if claimed.Some? then
             old(workbookDigestOwners)[Claim(t.id, claimed.value) := record.declaration.dataset]
             else old(workbookDigestOwners)
    {
      hide Match;
      var d := record.declaration;
      if upload.size == 0 {
        result := RejectLocked(t, record, "DATASET_BYTES_REQUIRED", at);
        return;
      }
      if upload.digest != d.digest || upload.size != d.size {
        result := RejectLocked(t, record, "DATASET_ORIGINAL_FILE_MISMATCH", at);
        return;
      }
      if upload.contents.Err? {
        result := RejectLocked(t, record, upload.contents.error, at);
        return;
      }
      var package := upload.contents.value;
      var matching := MatchSchemas(package.shape, policy.schemas);
      var inspection := Inspection(package.workbook, package.fingerprint, matching.schema, package.shape.rows,
                                   matching.diagnostics);
      var claimed := ClaimWorkbookDigest(t.id, d.dataset, inspection.workbook);
      if !claimed {
        result := RejectLocked(t, record, "DATASET_WORKBOOK_REPLAY_DETECTED", at);
        return;
      }
      var findings := inspection.diagnostics;
      if d.expectedRows.Some? && d.expectedRows.value != inspection.rows {
        findings := findings + {ControlRowCountMismatch};
      }
      assert findings == FindingsOf(inspection, d);
      var updated: Record;
      if findings != {} {
        updated := Note(record, t.account, at, "DATASET_VALIDATION_BLOCKED", findings).(inspection := Some(inspection));
      } else {
        updated := Move(record, VALIDATED, t.account, at, "DATASET_VALIDATED", {}).value
          .(inspection := Some(inspection));
      }
      records := records[Key(t.id, d.dataset) := updated];
      return Ok(updated);
    }

    /** `record` as it is once quarantined, stored if it was only declared. */
    method QuarantineLocked(t: Tenant, record: Record, policy: Policy, at: int)
      returns (result: Result<Record, AdmissionError>)
      modifies `records
      ensures result == Quarantine(record, t.account, at, policy)
      ensures result.Err? ==> records == old(records)
      ensures records == old(records) ||
        (result.Ok? && records == old(records)[Key(t.id, record.declaration.dataset) := result.value])
    {
      var applied := Some(Applied(policy.id, policy.version, policy.hash));
      if record.stage == DECLARED {
        var moved := Move(record, QUARANTINED, t.account, at, "DATASET_QUARANTINED_FOR_VALIDATION", {});
        var quarantined := moved.value.(policy := applied);
        records := records[Key(t.id, record.declaration.dataset) := quarantined];
        return Ok(quarantined);
      } else if record.stage == QUARANTINED {
        return Ok(record.(policy := applied));
      } else {
        return Err(TransitionInvalid);
      }
    }

    /** The locked part of `inspect_and_validate`. */
    method InspectLocked(t: Tenant, dataset: string, upload: Upload, policy: Policy, at: int)
      returns (result: Result<Record, AdmissionError>)
      requires Valid()
      modifies `records, `workbookDigestOwners
      ensures InspectionDone(Contents(), result,
                             AdmissionModel.InspectAndValidate(old(Contents()), t, dataset, upload, policy, at))
    {
      hide Inv, Examine, Quarantine, FetchAt;
      QuarantinedHere(Contents(), t, dataset, policy, at);
      var fetched := GetAt(t, dataset, at);
      if fetched.Err? {
        return fetched;
      }
      var quarantined := QuarantineLocked(t, fetched.value, policy, at);
      if quarantined.Err? {
        return quarantined;
      }
      result := ExamineLocked(t, quarantined.value, upload, policy, at);
      assert records == old(records)[Key(t.id, dataset) := result.value];
    }

    method InspectAndValidate(t: Tenant, dataset: string, upload: Upload, policy: Policy, at: int)
      returns (result: Result<Record, AdmissionError>)
      requires Valid()
      modifies this
      ensures Valid()
      ensures Contents() == AdmissionModel.InspectAndValidate(old(Contents()), t, dataset, upload, policy, at).0
      ensures result == AdmissionModel.InspectAndValidate(old(Contents()), t, dataset, upload, policy, at).1
      ensures result.Err? ==> Contents() == old(Contents())
    {
      hide Inv, AdmissionModel.InspectAndValidate;
      InspectKeepsInv(Contents(), t, dataset, upload, policy, at);
      InspectionFrame(Contents(), t, dataset, upload, policy, at);
      result := InspectLocked(t, dataset, upload, policy, at);
    }

    method CheckAdmission(t: Tenant, dataset: string, e: DatasetEvidence, g: StorageEvidence, at: int)
      returns (result: Result<Record, AdmissionError>)
      ensures result == Admissible(Contents(), t, dataset, e, g, at)
    {
      hide Finalize, FetchAt;
      if t.id != e.tenant || t.id != g.tenant {
        return Err(DatasetNotFound);
      }
      if !e.complete {
        return Err(ControlsIncomplete);
      }
      if !g.complete {
        return Err(StorageIncomplete);
      }
      var fetched := GetAt(t, dataset, at);
      if fetched.Err? {
        return fetched;
      }
      return Finalize(Contents(), t, fetched.value, e, g, at);
    }

    method Admit(t: Tenant, dataset: string, e: DatasetEvidence, g: StorageEvidence, at: int)
      returns (result: Result<Record, AdmissionError>)
      requires Valid()
      modifies this
      ensures Valid()
      ensures Contents() == AdmissionModel.Admit(old(Contents()), t, dataset, e, g, at).0
      ensures result == AdmissionModel.Admit(old(Contents()), t, dataset, e, g, at).1
      ensures result.Err? ==> Contents() == old(Contents())
    {
      hide Inv, Admissible;
      AdmitKeepsInv(Contents(), t, dataset, e, g, at);
      result := CheckAdmission(t, dataset, e, g, at);
      if result.Ok? {
        records := records[Key(t.id, dataset) := result.value];
        datasetEvidenceOwners := datasetEvidenceOwners[Claim(t.id, e.id) := dataset];
        storageEvidenceOwners := storageEvidenceOwners[Claim(t.id, g.id) := dataset];
      }
    }

    method CheckRevocation(t: Tenant, dataset: string, reason: string, at: int)
      returns (result: Result<Record, AdmissionError>)
      ensures result == Revocable(Contents(), t, dataset, reason, at)
    {
      hide FetchAt;
      var fetched := GetAt(t, dataset, at);
      if fetched.Err? {
        return fetched;
      }
      if fetched.value.stage != ADMITTED {
        return Err(NotAdmitted);
      }
      return Move(fetched.value, REVOKED, t.account, at, reason, {});
    }

    method Revoke(t: Tenant, dataset: string, reason: string, at: int) returns (result: Result<Record, AdmissionError>)
      requires Valid()
      modifies this
      ensures Valid()
      ensures Contents() == AdmissionModel.Revoke(old(Contents()), t, dataset, reason, at).0
      ensures result == AdmissionModel.Revoke(old(Contents()), t, dataset, reason, at).1
      ensures result.Err? ==> Contents() == old(Contents())
    {
      hide Inv, Revocable;
      RevokeKeepsInv(Contents(), t, dataset, reason, at);
      result := CheckRevocation(t, dataset, reason, at);
      if result.Ok? {
        records := records[Key(t.id, dataset) := result.value];
      }
    }

    method RequireAdmitted(t: Tenant, dataset: string, at: int) returns (result: Result<Record, AdmissionError>)
      ensures result == AdmissionModel.RequireAdmitted(Contents(), t, dataset, at)
    {
      var fetched := Get(t, dataset);
      if fetched.Err? {
        return fetched;
      }
      var record := fetched.value;
      if record.stage != ADMITTED {
        return Err(NotAdmitted);
      }
      var latest := Latest(record);
      if latest.Err? {
        return Err(latest.error);
      }
      if at < latest.value.at {
        return Err(NotAdmittedAtTime);
      }
      if at >= record.declaration.retention {
        return Err(RetentionExpired);
      }
      return Ok(record);
    }
  }

  /** The records, the workbook owners and the answer are the outcome's. */
  predicate InspectionDone(s: Registry, result: Result<Record, AdmissionError>, o: Outcome) {
    s.records == o.0.records && s.workbooks == o.0.workbooks && result == o.1
  }

  lemma InspectionFrame(s: Registry, t: Tenant, dataset: string, upload: Upload, policy: Policy, at: int)
    ensures
      var n := AdmissionModel.InspectAndValidate(s, t, dataset, upload, policy, at).0;
      n == s.(records := n.records, workbooks := n.workbooks)
  {
    hide FetchAt, Quarantine, Examine;
  }

  lemma QuarantinedHere(s: Registry, t: Tenant, dataset: string, policy: Policy, at: int)
    requires Inv(s)
    ensures
      var r := FetchAt(s, t, dataset, at);
      r.Ok? ==>
        && KeyOf(r.value.declaration) == Key(t.id, dataset)
        && var q := Quarantine(r.value, t.account, at, policy);
           q.Ok? ==> q.value.stage == QUARANTINED && q.value.declaration == r.value.declaration
  {
    hide Inv, Quarantine;
    if FetchAt(s, t, dataset, at).Ok? {
      var r := FetchAt(s, t, dataset, at).value;
      RecordOf(s, t, dataset);
      if Quarantine(r, t.account, at, policy).Ok? {
        QuarantineFits(Key(t.id, dataset), r, t.account, at, policy);
      }
    }
  }
}
