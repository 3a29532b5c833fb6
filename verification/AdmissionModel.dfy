/** Datasets, their evidence and the steps of the admission registry. */
module AdmissionModel {
  import opened Base

  // ----- Tenants and declarations

  datatype Tenant = Tenant(id: string, account: string)

  datatype Declaration = Declaration(
    dataset: string, tenant: string, uploader: string, source: string, marketplace: string, report: string,
    start: int, end: int, timezone: string, digest: string, size: nat, expectedRows: Option<nat>,
    controlTotals: Option<string>, authority: string, retention: int, declaredAt: int)

  // ----- What an inspection finds

  datatype Schema = Schema(
    id: string, version: string, authority: string, packageKind: string, sheet: string, sheetCount: int, headerRow: int,
    headerHash: string, columns: int, minRows: int, maxRows: int, maxFormulas: int)

  datatype Shape = Shape(
    packageKind: string, sheet: string, sheetCount: int, headerRow: int, headerHash: string, columns: int,
    maxUsedColumn: int, unmodeled: nat, rows: nat, formulas: int, prohibitedHeaders: nat)

  datatype Policy = Policy(id: string, version: int, hash: string, schemas: seq<Schema>)

  datatype Diagnostic =
    | SheetNameMismatch | SheetCountMismatch | HeaderRowMismatch | HeaderHashMismatch | ColumnCountMismatch
    | DataColumnCountExceeded | UnmodeledWorksheetContent | RowCountOutOfRange | FormulaCountExceeded
    | PackageKindUnregistered | SchemaMatchAmbiguous | DirectIdentifierHeaderPresent | SchemaUnknown
    | ControlRowCountMismatch
    | Refused(code: string)

  function When(condition: bool, d: Diagnostic): set<Diagnostic> {
    if condition then {d} else {}
  }

  /** Why a shape does not fit a schema. */
  function Mismatches(shape: Shape, schema: Schema): set<Diagnostic> {
    When(shape.sheet != schema.sheet, SheetNameMismatch)
    + When(shape.sheetCount != schema.sheetCount, SheetCountMismatch)
    + When(shape.headerRow != schema.headerRow, HeaderRowMismatch)
    + When(shape.headerHash != schema.headerHash, HeaderHashMismatch)
    + When(shape.columns != schema.columns, ColumnCountMismatch)
    + When(shape.maxUsedColumn > schema.columns, DataColumnCountExceeded)
    + When(shape.unmodeled > 0, UnmodeledWorksheetContent)
    + When(!(schema.minRows <= shape.rows <= schema.maxRows), RowCountOutOfRange)
    + When(shape.formulas > schema.maxFormulas, FormulaCountExceeded)
  }

  /** The schema registers this kind of package, every figure of the shape agrees with it and every bound is kept. */
  predicate Fits(shape: Shape, schema: Schema) {
    && schema.packageKind == shape.packageKind && shape.sheet == schema.sheet && shape.sheetCount == schema.sheetCount
    && shape.headerRow == schema.headerRow && shape.headerHash == schema.headerHash
    && shape.columns == schema.columns && shape.maxUsedColumn <= schema.columns && shape.unmodeled == 0
    && schema.minRows <= shape.rows <= schema.maxRows && shape.formulas <= schema.maxFormulas
  }

  /** A schema that fits is one of this kind of package that gives no reason against it. */
  lemma FitsExact(shape: Shape, schema: Schema)
    ensures Fits(shape, schema) <==> schema.packageKind == shape.packageKind && Mismatches(shape, schema) == {}
  {
    var all := Mismatches(shape, schema);
    if all == {} {
      assert SheetNameMismatch !in all && SheetCountMismatch !in all && HeaderRowMismatch !in all;
      assert HeaderHashMismatch !in all && ColumnCountMismatch !in all && DataColumnCountExceeded !in all;
      assert UnmodeledWorksheetContent !in all && RowCountOutOfRange !in all && FormulaCountExceeded !in all;
    }
  }

  /** The schema at `i` fits and no other does. */
  ghost predicate OnlyFit(shape: Shape, schemas: seq<Schema>, i: int) {
    && 0 <= i < |schemas| && Fits(shape, schemas[i])
    && forall j | 0 <= j < |schemas| && Fits(shape, schemas[j]) :: j == i
  }

  /** The outcome of matching: a schema and no diagnostics, or diagnostics and no schema. */
  datatype Matching = Matching(schema: Option<Schema>, diagnostics: set<Diagnostic>)

  /** Exactly one schema fits and no prohibited header is present. */
  ghost predicate Recognised(shape: Shape, schemas: seq<Schema>) {
    shape.prohibitedHeaders == 0 && exists i :: OnlyFit(shape, schemas, i)
  }

  ghost predicate MatchingFits(m: Matching, shape: Shape, schemas: seq<Schema>) {
    && (m.schema.Some? <==> Recognised(shape, schemas))
    && (m.schema.Some? ==> exists i :: OnlyFit(shape, schemas, i) && schemas[i] == m.schema.value)
    && (m.schema.None? <==> m.diagnostics != {})
  }

  /** The schemas that fit, and every reason why the others of this kind of package do not. */
  datatype Scan = Scan(candidates: nat, matches: seq<Schema>, codes: set<Diagnostic>)

  function ScanUpTo(shape: Shape, schemas: seq<Schema>, n: nat): (s: Scan)
    requires n <= |schemas|
    ensures |s.matches| <= s.candidates <= n
    ensures s.candidates > |s.matches| ==> s.codes != {}
  {
    if n == 0 then
      Scan(0, [], {})
    else
      var before, schema := ScanUpTo(shape, schemas, n - 1), schemas[n - 1];
      if schema.packageKind != shape.packageKind then before
      else if Mismatches(shape, schema) != {} then
        Scan(before.candidates + 1, before.matches, before.codes + Mismatches(shape, schema))
      else
        Scan(before.candidates + 1, before.matches + [schema], before.codes)
  }

  /** What the scan decides: `matched` and `diagnostics` of the inspection. */
  function Decide(shape: Shape, scan: Scan): Matching {
    var codes := scan.codes
      + When(scan.candidates == 0, PackageKindUnregistered)
      + When(|scan.matches| > 1, SchemaMatchAmbiguous)
      + When(shape.prohibitedHeaders > 0, DirectIdentifierHeaderPresent)
      + When(scan.matches == [], SchemaUnknown);
    if |scan.matches| == 1 && shape.prohibitedHeaders == 0 then Matching(Some(scan.matches[0]), {})
    else Matching(None, codes)
  }

  function Match(shape: Shape, schemas: seq<Schema>): Matching {
    Decide(shape, ScanUpTo(shape, schemas, |schemas|))
  }

  /** The loop of `inspect`. */
  method MatchSchemas(shape: Shape, schemas: seq<Schema>) returns (m: Matching)
    ensures m == Match(shape, schemas) && MatchingFits(m, shape, schemas)
  {
    var candidates, matches: seq<Schema>, codes: set<Diagnostic> := 0, [], {};
    for n := 0 to |schemas|
      invariant ScanUpTo(shape, schemas, n) == Scan(candidates, matches, codes)
    {
      var schema := schemas[n];
      if schema.packageKind == shape.packageKind {
        candidates := candidates + 1;
        var local := Mismatches(shape, schema);
        if local != {} {
          codes := codes + local;
        } else {
          matches := matches + [schema];
        }
      }
    }
    MatchIsExact(shape, schemas);
    if candidates == 0 {
      codes := codes + {PackageKindUnregistered};
    }
    var matched: Option<Schema> := None;
    if |matches| == 1 {
      matched := Some(matches[0]);
    } else if |matches| > 1 {
      codes := codes + {SchemaMatchAmbiguous};
    }
    if shape.prohibitedHeaders > 0 {
      codes := codes + {DirectIdentifierHeaderPresent};
      matched := None;
    }
    if matched.None? && matches == [] {
      codes := codes + {SchemaUnknown};
    }
    m := Matching(matched, if matched.None? then codes else {});
  }

  lemma {:induction false} ScanFinds(shape: Shape, schemas: seq<Schema>, n: nat)
    requires n <= |schemas|
    ensures
      var matches := ScanUpTo(shape, schemas, n).matches;
      && (matches == [] <==> forall j | 0 <= j < n :: !Fits(shape, schemas[j]))
      && (|matches| == 1 ==> exists i :: OnlyFit(shape, schemas[..n], i) && schemas[i] == matches[0])
      && (|matches| > 1 ==> exists i, j :: 0 <= i < j < n && Fits(shape, schemas[i]) && Fits(shape, schemas[j]))
  {
    hide Mismatches, Fits;
    if n > 0 {
      ScanFinds(shape, schemas, n - 1);
      FitsExact(shape, schemas[n - 1]);
      var before, s := ScanUpTo(shape, schemas, n - 1).matches, schemas[..n];
      if Fits(shape, schemas[n - 1]) {
        if before == [] {
          assert OnlyFit(shape, s, n - 1);
        } else if |before| == 1 {
          var i :| OnlyFit(shape, schemas[..n - 1], i) && schemas[i] == before[0];
          assert Fits(shape, schemas[i]) && Fits(shape, schemas[n - 1]);
        }
      } else if |before| == 1 {
        var i :| OnlyFit(shape, schemas[..n - 1], i) && schemas[i] == before[0];
        assert OnlyFit(shape, s, i);
      }
    }
  }

  /** A schema is matched exactly when it is the only one that fits; otherwise there is a diagnostic. */
  lemma MatchIsExact(shape: Shape, schemas: seq<Schema>)
    ensures MatchingFits(Match(shape, schemas), shape, schemas)
  {
    hide Mismatches, Fits, ScanUpTo;
    ScanFinds(shape, schemas, |schemas|);
    assert schemas[..|schemas|] == schemas;
    var scan := ScanUpTo(shape, schemas, |schemas|);
    if |scan.matches| > 1 {
      var i, j :| 0 <= i < j < |schemas| && Fits(shape, schemas[i]) && Fits(shape, schemas[j]);
      assert !exists k :: OnlyFit(shape, schemas, k);
      assert SchemaMatchAmbiguous in Match(shape, schemas).diagnostics;
    } else if scan.matches == [] {
      assert !exists k :: OnlyFit(shape, schemas, k);
      assert SchemaUnknown in Match(shape, schemas).diagnostics;
    } else if shape.prohibitedHeaders > 0 {
      assert DirectIdentifierHeaderPresent in Match(shape, schemas).diagnostics;
    }
  }

  // ----- Records

  datatype Inspection = Inspection(
    workbook: string, fingerprint: string, schema: Option<Schema>, rows: nat, diagnostics: set<Diagnostic>)

  predicate Matched(i: Inspection) {
    i.schema.Some? && i.diagnostics == {}
  }

  datatype Stage = DECLARED | QUARANTINED | VALIDATED | ADMITTED | REJECTED | REVOKED

  predicate Allowed(before: Stage, after: Stage) {
    match before
    case DECLARED => after == QUARANTINED || after == REJECTED
    case QUARANTINED => after == VALIDATED || after == REJECTED
    case VALIDATED => after == ADMITTED || after == REJECTED
    case ADMITTED => after == REVOKED
    case REJECTED => false
    case REVOKED => false
  }

  datatype Decision = Decision(stage: Stage, actor: string, at: int, reason: string, diagnostics: set<Diagnostic>)

  datatype Applied = Applied(id: string, version: int, hash: string)

  datatype Record = Record(
    declaration: Declaration, stage: Stage, policy: Option<Applied>, inspection: Option<Inspection>,
    diagnostics: set<Diagnostic>, datasetEvidence: Option<string>, storageEvidence: Option<string>,
    storageKey: Option<string>, decisions: seq<Decision>)

  datatype DatasetEvidence = DatasetEvidence(
    id: string, tenant: string, dataset: string, digest: string, authority: string, start: int, end: int,
    timezone: string,
    controlTotals: Option<string>, policyHash: string, workbook: string, fingerprint: string,
    schemaId: string, schemaVersion: string, schemaAuthority: string, complete: bool, verifiedAt: int, verifier: string)

  datatype StorageEvidence = StorageEvidence(
    id: string, tenant: string, dataset: string, digest: string, key: string, complete: bool, verifiedAt: int,
    verifier: string)

  datatype AdmissionError =
    | DatasetNotFound | UploaderScopeMismatch | DeclarationConflict | OriginalReplay | SourceReplay
    | TransitionInvalid | TimeRegression | DecisionHistoryMissing
    | ControlsIncomplete | StorageIncomplete | NotValidated | RetentionExpired
    | EvidenceNotIndependent | StorageNotIndependent | ValidationEvidenceMissing
    | EvidenceDatasetMismatch | EvidenceFileMismatch | EvidenceAuthorityMismatch | EvidencePeriodMismatch
    | EvidenceControlTotalsMismatch | EvidencePolicyMismatch | EvidenceWorkbookMismatch | EvidenceFingerprintMismatch
    | EvidenceSchemaMismatch | StorageDatasetMismatch | StorageFileMismatch
    | EvidenceStale | StorageStale | EvidenceFromFuture | StorageFromFuture
    | EvidenceReplay | StorageReplay | NotAdmitted | NotAdmittedAtTime

  // ----- The registry

  datatype Key = Key(tenant: string, dataset: string)

  /** A name inside a tenant: a digest or an evidence identifier. */
  datatype Claim = Claim(tenant: string, name: string)

  datatype Source = Source(tenant: string, uploader: string, marketplace: string, report: string, source: string,
                           start: int, end: int)

  datatype Registry = Registry(
    records: map<Key, Record>, digests: map<Claim, string>, sources: map<Source, string>,
    workbooks: map<Claim, string>, datasetEvidence: map<Claim, string>, storageEvidence: map<Claim, string>)

  const EMPTY := Registry(map[], map[], map[], map[], map[], map[])

  function KeyOf(d: Declaration): Key {
    Key(d.tenant, d.dataset)
  }

  function SourceOf(d: Declaration): Source {
    Source(d.tenant, d.uploader, d.marketplace, d.report, d.source, d.start, d.end)
  }

  /** The owner of a name is absent or this dataset. */
  predicate Free<K>(owners: map<K, string>, key: K, dataset: string) {
    key in owners ==> owners[key] == dataset
  }

  /** `_transition`. */
  function Move(r: Record, stage: Stage, actor: string, at: int, reason: string, diagnostics: set<Diagnostic>)
    : Result<Record, AdmissionError>
  {
    var _ :- Need(Allowed(r.stage, stage), TransitionInvalid);
    Ok(r.(stage := stage, diagnostics := diagnostics,
          decisions := r.decisions + [Decision(stage, actor, at, reason, diagnostics)]))
  }

  /** `_record_same_state_decision`. */
  function Note(r: Record, actor: string, at: int, reason: string, diagnostics: set<Diagnostic>): Record {
    r.(diagnostics := diagnostics, decisions := r.decisions + [Decision(r.stage, actor, at, reason, diagnostics)])
  }

  function Latest(r: Record): Result<Decision, AdmissionError> {
    var _ :- Need(r.decisions != [], DecisionHistoryMissing);
    Ok(r.decisions[|r.decisions| - 1])
  }

  function CheckTime(r: Record, at: int): Result<(), AdmissionError> {
    var latest :- Latest(r);
    Need(at >= latest.at, TimeRegression)
  }

  /** `get`: only the uploader's own account finds a record. */
  function Fetch(s: Registry, t: Tenant, dataset: string): Result<Record, AdmissionError> {
    var _ :- Need(Key(t.id, dataset) in s.records, DatasetNotFound);
    var r := s.records[Key(t.id, dataset)];
    var _ :- Need(t.account == r.declaration.uploader, DatasetNotFound);
    Ok(r)
  }

  /** The record, unless the time is before its latest decision. */
  function FetchAt(s: Registry, t: Tenant, dataset: string, at: int): Result<Record, AdmissionError> {
    var r :- Fetch(s, t, dataset);
    var _ :- CheckTime(r, at);
    Ok(r)
  }

  function NewRecord(t: Tenant, d: Declaration): Record {
    Record(d, DECLARED, None, None, {}, None, None, None,
           [Decision(DECLARED, t.account, d.declaredAt, "DATASET_DECLARED", {})])
  }

  type Outcome = (Registry, Result<Record, AdmissionError>)

  /** The record a declaration already has, if the same; nothing, if it may be stored. */
  function CheckDeclaration(s: Registry, t: Tenant, d: Declaration): Result<Option<Record>, AdmissionError> {
    var _ :- Need(t.id == d.tenant, DatasetNotFound);
    var _ :- Need(t.account == d.uploader, UploaderScopeMismatch);
    if KeyOf(d) in s.records then
      var _ :- Need(s.records[KeyOf(d)].declaration == d, DeclarationConflict);
      Ok(Some(s.records[KeyOf(d)]))
    else
      var _ :- Need(Free(s.digests, Claim(d.tenant, d.digest), d.dataset), OriginalReplay);
      var _ :- Need(Free(s.sources, SourceOf(d), d.dataset), SourceReplay);
      Ok(None)
  }

  /** `declare`. */
  function Declare(s: Registry, t: Tenant, d: Declaration): Outcome {
    match CheckDeclaration(s, t, d)
    case Err(e) => (s, Err(e))
    case Ok(Some(r)) => (s, Ok(r))
    case Ok(None) =>
      var r := NewRecord(t, d);
      (s.(records := s.records[KeyOf(d) := r],
          digests := s.digests[Claim(d.tenant, d.digest) := d.dataset],
          sources := s.sources[SourceOf(d) := d.dataset]),
       Ok(r))
  }

  // ----- Inspection

  /** What is found in a payload before schemas are matched. */
  datatype Package = Package(workbook: string, fingerprint: string, shape: Shape)

  /** The upload as the registry sees it: its digest, its size and what opening it gives, or a refusal code. */
  datatype Upload = Upload(digest: string, size: nat, contents: Result<Package, string>)

  function InspectionOf(p: Package, policy: Policy): Inspection {
    var m := Match(p.shape, policy.schemas);
    Inspection(p.workbook, p.fingerprint, m.schema, p.shape.rows, m.diagnostics)
  }

  /** The record once quarantined under a policy. */
  function Quarantine(r: Record, actor: string, at: int, policy: Policy): Result<Record, AdmissionError> {
    var applied := Some(Applied(policy.id, policy.version, policy.hash));
    match r.stage
    case DECLARED =>
      var q :- Move(r, QUARANTINED, actor, at, "DATASET_QUARANTINED_FOR_VALIDATION", {});
      Ok(q.(policy := applied))
    case QUARANTINED => Ok(r.(policy := applied))
    case _ => Err(TransitionInvalid)
  }

  /** The row count a declaration announces, checked against the one found. */
  function FindingsOf(i: Inspection, d: Declaration): set<Diagnostic> {
    i.diagnostics + When(d.expectedRows.Some? && d.expectedRows.value != i.rows, ControlRowCountMismatch)
  }

  /** `_reject_locked`. */
  function Reject(r: Record, actor: string, at: int, code: string): Result<Record, AdmissionError> {
    Move(r, REJECTED, actor, at, code, {Refused(code)})
  }

  /** Everything after quarantine: the new record, and whether the workbook digest is claimed. */
  function Examine(r: Record, workbooks: map<Claim, string>, actor: string, upload: Upload, policy: Policy, at: int)
    : (Result<Record, AdmissionError>, Option<string>)
  {
    var d := r.declaration;
    if upload.size == 0 then (Reject(r, actor, at, "DATASET_BYTES_REQUIRED"), None)
    else if upload.digest != d.digest || upload.size != d.size then
      (Reject(r, actor, at, "DATASET_ORIGINAL_FILE_MISMATCH"), None)
    else if upload.contents.Err? then (Reject(r, actor, at, upload.contents.error), None)
    else
      var inspection := InspectionOf(upload.contents.value, policy);
      if !Free(workbooks, Claim(d.tenant, inspection.workbook), d.dataset) then
        (Reject(r, actor, at, "DATASET_WORKBOOK_REPLAY_DETECTED"), None)
      else
        var findings := FindingsOf(inspection, d);
        if findings != {} then
          (Ok(Note(r, actor, at, "DATASET_VALIDATION_BLOCKED", findings).(inspection := Some(inspection))),
           Some(inspection.workbook))
        else
          var moved := Move(r, VALIDATED, actor, at, "DATASET_VALIDATED", {});
          (match moved case Ok(v) => Ok(v.(inspection := Some(inspection))) case Err(e) => Err(e),
           Some(inspection.workbook))
  }

  /** `inspect_and_validate`. */
  function InspectAndValidate(s: Registry, t: Tenant, dataset: string, upload: Upload, policy: Policy, at: int)
    : Outcome
  {
    match FetchAt(s, t, dataset, at)
    case Err(e) => (s, Err(e))
    case Ok(r) =>
      match Quarantine(r, t.account, at, policy)
      case Err(e) => (s, Err(e))
      case Ok(q) =>
        var (examined, claimed) := Examine(q, s.workbooks, t.account, upload, policy, at);
        match examined
        case Err(e) => (s, Err(e))
        case Ok(n) =>
          (s.(records := s.records[Key(t.id, dataset) := n],
              workbooks := if claimed.Some? then s.workbooks[Claim(t.id, claimed.value) := dataset] else s.workbooks),
           Ok(n))
  }

  // ----- Admission

  /** `require_evidence_binding`. */
  function CheckBinding(r: Record, e: DatasetEvidence, g: StorageEvidence): Result<Inspection, AdmissionError> {
    var d := r.declaration;
    var _ :- Need(e.verifier != d.uploader, EvidenceNotIndependent);
    var _ :- Need(g.verifier != d.uploader, StorageNotIndependent);
    var _ :- Need(r.inspection.Some? && Matched(r.inspection.value), ValidationEvidenceMissing);
    var i := r.inspection.value;
    var schema := i.schema.value;
    var _ :- Need(e.dataset == d.dataset, EvidenceDatasetMismatch);
    var _ :- Need(e.digest == d.digest, EvidenceFileMismatch);
    var _ :- Need(e.authority == d.authority, EvidenceAuthorityMismatch);
    var _ :- Need(e.start == d.start && e.end == d.end && e.timezone == d.timezone, EvidencePeriodMismatch);
    var _ :- Need(e.controlTotals == d.controlTotals, EvidenceControlTotalsMismatch);
    var _ :- Need(r.policy.Some? && e.policyHash == r.policy.value.hash, EvidencePolicyMismatch);
    var _ :- Need(e.workbook == i.workbook, EvidenceWorkbookMismatch);
    var _ :- Need(e.fingerprint == i.fingerprint, EvidenceFingerprintMismatch);
    var _ :- Need(e.schemaId == schema.id && e.schemaVersion == schema.version && e.schemaAuthority == schema.authority,
                  EvidenceSchemaMismatch);
    var _ :- Need(g.dataset == d.dataset, StorageDatasetMismatch);
    var _ :- Need(g.digest == d.digest, StorageFileMismatch);
    Ok(i)
  }

  /** `require_evidence_times`. */
  function CheckTimes(r: Record, e: DatasetEvidence, g: StorageEvidence, at: int): Result<(), AdmissionError> {
    var latest :- Latest(r);
    var _ :- Need(e.verifiedAt >= latest.at, EvidenceStale);
    var _ :- Need(g.verifiedAt >= latest.at, StorageStale);
    var _ :- Need(e.verifiedAt <= at, EvidenceFromFuture);
    Need(g.verifiedAt <= at, StorageFromFuture)
  }

  /** `finalize_validated_record`, up to the writes. */
  function Finalize(s: Registry, t: Tenant, r: Record, e: DatasetEvidence, g: StorageEvidence, at: int)
    : Result<Record, AdmissionError>
  {
    var _ :- Need(r.stage == VALIDATED, NotValidated);
    var _ :- Need(at < r.declaration.retention, RetentionExpired);
    var _ :- CheckBinding(r, e, g);
    var _ :- CheckTimes(r, e, g, at);
    var _ :- Need(Free(s.datasetEvidence, Claim(t.id, e.id), r.declaration.dataset), EvidenceReplay);
    var _ :- Need(Free(s.storageEvidence, Claim(t.id, g.id), r.declaration.dataset), StorageReplay);
    var moved :- Move(r, ADMITTED, t.account, at, "DATASET_ADMITTED", {});
    Ok(moved.(datasetEvidence := Some(e.id), storageEvidence := Some(g.id), storageKey := Some(g.key)))
  }

  /** The checks of `admit` and `finalize_validated_record`. */
  function Admissible(s: Registry, t: Tenant, dataset: string, e: DatasetEvidence, g: StorageEvidence, at: int)
    : Result<Record, AdmissionError>
  {
    var _ :- Need(t.id == e.tenant && t.id == g.tenant, DatasetNotFound);
    var _ :- Need(e.complete, ControlsIncomplete);
    var _ :- Need(g.complete, StorageIncomplete);
    var r :- FetchAt(s, t, dataset, at);
    Finalize(s, t, r, e, g, at)
  }

  /** `admit`. */
  function Admit(s: Registry, t: Tenant, dataset: string, e: DatasetEvidence, g: StorageEvidence, at: int): Outcome {
    match Admissible(s, t, dataset, e, g, at)
    case Err(error) => (s, Err(error))
    case Ok(r) =>
      (s.(records := s.records[Key(t.id, dataset) := r],
          datasetEvidence := s.datasetEvidence[Claim(t.id, e.id) := dataset],
          storageEvidence := s.storageEvidence[Claim(t.id, g.id) := dataset]),
       Ok(r))
  }

  function Revocable(s: Registry, t: Tenant, dataset: string, reason: string, at: int): Result<Record, AdmissionError> {
    var r :- FetchAt(s, t, dataset, at);
    var _ :- Need(r.stage == ADMITTED, NotAdmitted);
    Move(r, REVOKED, t.account, at, reason, {})
  }

  /** `revoke`. */
  function Revoke(s: Registry, t: Tenant, dataset: string, reason: string, at: int): Outcome {
    match Revocable(s, t, dataset, reason, at)
    case Err(e) => (s, Err(e))
    case Ok(r) => (s.(records := s.records[Key(t.id, dataset) := r]), Ok(r))
  }

  /** `require_admitted`. */
  function RequireAdmitted(s: Registry, t: Tenant, dataset: string, at: int): Result<Record, AdmissionError> {
    var r :- Fetch(s, t, dataset);
    var _ :- Need(r.stage == ADMITTED, NotAdmitted);
    var latest :- Latest(r);
    var _ :- Need(at >= latest.at, NotAdmittedAtTime);
    var _ :- Need(at < r.declaration.retention, RetentionExpired);
    Ok(r)
  }
}
