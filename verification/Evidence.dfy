/** The evidence chain verifier: a typed graph of artifacts behind one metric snapshot. */
module EvidenceModel {
  import opened Base
  import opened Graph

  datatype NodeType =
    | MetricSnapshot | MetricDefinition | CalculationProfile | RuleResolution | ConfigurationRule
    | RoundingPolicy | SourceAuthority | ProductMaster | Transformation | CanonicalEvent
    | SourceRecord | SourceFile | FreshnessAssessment | ConfidenceAssessment | ReconciliationResult
    | Approval | OtherNode(name: string)

  datatype EdgeType =
    | ResultDefinedBy | ResultCalculatedWith | ResultUsesResolution | ResolutionSelectsRule
    | ProfileSelectsRule | ProfileUsesRounding | ProfileUsesSourceAuthority | ResultDerivedFromEvent
    | EventNormalizedFromRecord | RecordReadFromFile | ResultUsesTransformation | ResultUsesProductMaster
    | ResultHasFreshness | ResultHasConfidence | ResultReconciledBy | ArtifactApprovedBy
    | SnapshotSupersedes | SnapshotRestates | OtherEdge(name: string)

  datatype Signature = Signature(source: Option<NodeType>, target: NodeType)

  /** `EDGE_SIGNATURES`; a missing source type admits any. */
  function EdgeSignature(t: EdgeType): Option<Signature> {
    match t
    case ResultDefinedBy => Some(Signature(Some(MetricSnapshot), MetricDefinition))
    case ResultCalculatedWith => Some(Signature(Some(MetricSnapshot), CalculationProfile))
    case ResultUsesResolution => Some(Signature(Some(MetricSnapshot), RuleResolution))
    case ResolutionSelectsRule => Some(Signature(Some(RuleResolution), ConfigurationRule))
    case ProfileSelectsRule => Some(Signature(Some(CalculationProfile), ConfigurationRule))
    case ProfileUsesRounding => Some(Signature(Some(CalculationProfile), RoundingPolicy))
    case ProfileUsesSourceAuthority => Some(Signature(Some(CalculationProfile), SourceAuthority))
    case ResultDerivedFromEvent => Some(Signature(Some(MetricSnapshot), CanonicalEvent))
    case EventNormalizedFromRecord => Some(Signature(Some(CanonicalEvent), SourceRecord))
    case RecordReadFromFile => Some(Signature(Some(SourceRecord), SourceFile))
    case ResultUsesTransformation => Some(Signature(Some(MetricSnapshot), Transformation))
    case ResultUsesProductMaster => Some(Signature(Some(MetricSnapshot), ProductMaster))
    case ResultHasFreshness => Some(Signature(Some(MetricSnapshot), FreshnessAssessment))
    case ResultHasConfidence => Some(Signature(Some(MetricSnapshot), ConfidenceAssessment))
    case ResultReconciledBy => Some(Signature(Some(MetricSnapshot), ReconciliationResult))
    case ArtifactApprovedBy => Some(Signature(None, Approval))
    case SnapshotSupersedes => Some(Signature(Some(MetricSnapshot), MetricSnapshot))
    case SnapshotRestates => Some(Signature(Some(MetricSnapshot), MetricSnapshot))
    case OtherEdge(_) => None
  }

  datatype Ref = Ref(id: string, version: int, contentHash: string)

  predicate ValidRef(r: Ref) {
    r.id != "" && r.version > 0 && IsHex64(r.contentHash)
  }

  /**
   How a time stamp reads: by both layers, by the first alone (another ISO form with a zone), by the
   second alone (section 5.6 of RFC 3339 with a lower-case zone `z`), or not at all.
   */
  datatype Stamp = Rfc3339(at: int) | Lenient(at: int) | LowerCaseZone(at: int) | Unreadable
  {
    /** `_valid_datetime` of the first layer. */
    predicate Valid() { Rfc3339? || Lenient? }

    /** `_is_rfc3339_datetime` of the second layer. */
    predicate Strict() { Rfc3339? || LowerCaseZone? }
  }

  datatype Metadata = Metadata(status: string, approvedAt: Stamp, approver: string, retained: string, locator: string)

  datatype Mode = Actual | Scenario | OtherMode

  /** `metadata` is missing when the raw value is not a mapping. */
  datatype Node = Node(
    nodeId: string, nodeType: NodeType, ref: Ref, organization: string, mode: Mode, scenario: Option<string>,
    metadata: Option<Metadata>)

  datatype Edge = Edge(source: string, target: string, edgeType: EdgeType, sequence: int)

  /** `wellShaped` stands for the other fields of the header, `hashMatches` for its content hash. */
  datatype Chain = Chain(
    wellShaped: bool, version: int, hashMatches: bool, organization: string, mode: Mode, scenario: Option<string>,
    createdAt: Stamp,
    rootRef: Ref, nodes: seq<Node>, edges: seq<Edge>)

  datatype Diagnosis =
    | Malformed | VersionInvalid | TenantMismatch | ModeContamination | TimestampInvalid | HashMismatch
    | NodeMissing | NodeDuplicate | NodeTypeInvalid | EdgeInvalid | EdgeDuplicate | TransformationOrderAmbiguous
    | GraphCycle | OrphanNode | RequiredPathMissing | ApprovalMissing | SourceFileUnavailable | SourceBytesMismatch

  // ----- Nodes

  predicate KnownType(t: NodeType) { !t.OtherNode? }

  predicate HeaderOk(g: Chain) {
    && g.wellShaped && g.version > 0 && g.hashMatches
    && g.organization != "" && ValidRef(g.rootRef) && g.createdAt.Valid()
    && match g.mode
       case Actual => g.scenario == None
       case Scenario => g.scenario.Some? && g.scenario.value != ""
       case OtherMode => false
  }

  predicate NodeOk(g: Chain, n: Node) {
    && n.nodeId != "" && KnownType(n.nodeType) && ValidRef(n.ref) && n.organization == g.organization
    && n.mode == g.mode && (g.mode == Actual ==> n.scenario == None) &&
      (g.mode == Scenario ==> n.scenario == g.scenario)
    && n.metadata.Some?
  }

  /** Nodes by id; the first one with an id counts. */
  function NodeMap(nodes: seq<Node>): map<string, Node> {
    if nodes == [] then map[] else
      var m, n := NodeMap(nodes[..|nodes| - 1]), nodes[|nodes| - 1];
      if n.nodeId == "" || n.nodeId in m then m else m[n.nodeId := n]
  }

  ghost predicate NodesOk(g: Chain, upTo: nat)
    requires upTo <= |g.nodes|
  {
    forall i :: 0 <= i < upTo ==> NodeOk(g, g.nodes[i]) && g.nodes[i].nodeId !in NodeMap(g.nodes[..i])
  }

  predicate IsRoot(g: Chain, n: Node) {
    n.nodeType == MetricSnapshot && n.ref == g.rootRef
  }

  function RootIds(g: Chain, nodes: map<string, Node>): set<string> {
    set id | id in nodes && IsRoot(g, nodes[id])
  }

  // ----- Edges

  predicate EdgeOk(nodes: map<string, Node>, e: Edge) {
    && e.source != "" && e.target != "" && e.edgeType != OtherEdge("") && e.sequence >= 0
    && e.source in nodes && e.target in nodes && SignatureOk(nodes, e)
  }

  predicate SignatureOk(nodes: map<string, Node>, e: Edge)
    requires e.source in nodes && e.target in nodes
  {
    var s := EdgeSignature(e.edgeType);
    && s.Some?
    && (s.value.source == None || s.value.source == Some(nodes[e.source].nodeType))
    && nodes[e.target].nodeType == s.value.target
  }

  /** The edges that enter the graph. */
  function ValidEdges(nodes: map<string, Node>, edges: seq<Edge>): (r: seq<Edge>) {
    if edges == [] then [] else
      ValidEdges(nodes, edges[..|edges| - 1]) + if EdgeOk(nodes, edges[|edges| - 1]) then [edges[|edges| - 1]] else []
  }

  ghost predicate SameLink(a: Edge, b: Edge) {
    a.source == b.source && a.target == b.target && a.edgeType == b.edgeType
  }

  ghost predicate EdgesOk(nodes: map<string, Node>, edges: seq<Edge>) {
    && (forall i :: 0 <= i < |edges| ==> EdgeOk(nodes, edges[i]))
    && (forall i, j :: 0 <= i < j < |edges| ==> !SameLink(edges[i], edges[j]))
  }

  /** Targets of one node's edges, in order. */
  function Out(edges: seq<Edge>, source: string): (r: seq<string>) {
    if edges == [] then [] else
      Out(edges[..|edges| - 1], source) + if edges[|edges| - 1].source == source then [edges[|edges| - 1].target]
      else []
  }

  /** Targets of one node's edges of one type, in order. */
  function OutBy(edges: seq<Edge>, source: string, edgeType: EdgeType): (r: seq<string>) {
    if edges == [] then [] else
      OutBy(edges[..|edges| - 1], source, edgeType) +
      if edges[|edges| - 1].source == source && edges[|edges| - 1].edgeType == edgeType then
        [edges[|edges| - 1].target] else []
  }

  lemma OutGrows(edges: seq<Edge>, e: Edge, source: string)
    ensures Out(edges + [e], source) == Out(edges, source) + if e.source == source then [e.target] else []
  {
    assert (edges + [e])[..|edges|] == edges;
  }

  lemma OutByGrows(edges: seq<Edge>, e: Edge, source: string, edgeType: EdgeType)
    ensures OutBy(edges + [e], source, edgeType) ==
      OutBy(edges, source, edgeType) + if e.source == source && e.edgeType == edgeType then [e.target] else []
  {
    assert (edges + [e])[..|edges|] == edges;
  }

  function Adjacency(nodes: map<string, Node>, edges: seq<Edge>): map<string, seq<string>> {
    map id | id in nodes :: Out(edges, id)
  }

  ghost predicate Linked(edges: seq<Edge>, source: string, edgeType: EdgeType, target: string) {
    exists e <- edges :: e.source == source && e.edgeType == edgeType && e.target == target
  }

  lemma {:induction false} OutByIsLinked(edges: seq<Edge>, source: string, edgeType: EdgeType, target: string)
    ensures target in OutBy(edges, source, edgeType) <==> Linked(edges, source, edgeType, target)
  {
    if edges != [] {
      var before, last := edges[..|edges| - 1], edges[|edges| - 1];
      OutByIsLinked(before, source, edgeType, target);
      assert edges == before + [last];
      if Linked(edges, source, edgeType, target) {
        var e :| e in edges && e.source == source && e.edgeType == edgeType && e.target == target;
        assert e in before || e == last;
      }
      if Linked(before, source, edgeType, target) {
        var e :| e in before && e.source == source && e.edgeType == edgeType && e.target == target;
        assert e in edges;
      }
    }
  }

  lemma {:induction false} OutIsEdge(edges: seq<Edge>, source: string, target: string)
    ensures target in Out(edges, source) <==> exists e <- edges :: e.source == source && e.target == target
  {
    if edges != [] {
      var before, last := edges[..|edges| - 1], edges[|edges| - 1];
      OutIsEdge(before, source, target);
      assert edges == before + [last];
      if e :| e in edges && e.source == source && e.target == target {
        assert e in before || e == last;
      }
      if e :| e in before && e.source == source && e.target == target {
        assert e in edges;
      }
    }
  }

  // ----- Acceptance by the first layer

  const REQUIRED := [
    ResultDefinedBy, ResultCalculatedWith, ResultUsesResolution, ResultUsesTransformation,
    ResultDerivedFromEvent, ResultHasFreshness, ResultHasConfidence
  ]

  ghost predicate HasLink(edges: seq<Edge>, source: string, edgeType: EdgeType) {
    exists target :: Linked(edges, source, edgeType, target)
  }

  /** Sequence numbers of the root's transformation edges. */
  function Sequences(edges: seq<Edge>, root: string): (r: seq<int>) {
    if edges == [] then [] else
      Sequences(edges[..|edges| - 1], root) +
      if edges[|edges| - 1].source == root && edges[|edges| - 1].edgeType == ResultUsesTransformation
      then [edges[|edges| - 1].sequence] else []
  }

  function Range(n: nat): (r: seq<int>)
    ensures |r| == n && forall i :: 0 <= i < n ==> r[i] == i
  {
    seq(n, i => i)
  }

  predicate ApprovalOk(n: Node, strict: bool) {
    && n.metadata.Some? && n.metadata.value.status == "APPROVED" && n.metadata.value.approver != ""
    && (if strict then n.metadata.value.approvedAt.Strict() else n.metadata.value.approvedAt.Valid())
  }

  ghost predicate Approved(nodes: map<string, Node>, edges: seq<Edge>, artifact: string, strict: bool) {
    exists a :: Linked(edges, artifact, ArtifactApprovedBy, a) && a in nodes && ApprovalOk(nodes[a], strict)
  }

  ghost predicate ProfileOk(nodes: map<string, Node>, edges: seq<Edge>, profile: string) {
    && HasLink(edges, profile, ProfileUsesRounding) && HasLink(edges, profile, ProfileUsesSourceAuthority)
    && (forall x ::
          (Linked(edges, profile, ProfileUsesRounding, x) || Linked(edges, profile, ProfileUsesSourceAuthority, x)) ==>
            Approved(nodes, edges, x, false))
  }

  /** A loader answers a storage locator with the SHA-256 of the bytes, or nothing if it cannot read them. */
  type Loader = string -> Option<string>

  predicate FileOk(n: Node, loader: Option<Loader>, requireBytes: bool) {
    && n.metadata.Some? && IsHex64(n.metadata.value.retained) && n.metadata.value.locator != ""
    && n.metadata.value.retained == n.ref.contentHash
    && (loader.Some? ==> loader.value(n.metadata.value.locator) == Some(n.metadata.value.retained))
    && (loader.None? ==> !requireBytes)
  }

  ghost predicate RecordOk(nodes: map<string, Node>, edges: seq<Edge>, loader: Option<Loader>, requireBytes: bool,
                           record: string)
  {
    && HasLink(edges, record, RecordReadFromFile)
    && (forall f :: Linked(edges, record, RecordReadFromFile, f) ==>
        f in nodes && FileOk(nodes[f], loader, requireBytes))
  }

  ghost predicate EventOk(nodes: map<string, Node>, edges: seq<Edge>, loader: Option<Loader>, requireBytes: bool,
                          event: string)
  {
    && HasLink(edges, event, EventNormalizedFromRecord)
    && (forall r :: Linked(edges, event, EventNormalizedFromRecord, r) ==>
        RecordOk(nodes, edges, loader, requireBytes, r))
  }

  /** What the first layer asks of the graph around its root. */
  ghost predicate PathsOk(nodes: map<string, Node>, edges: seq<Edge>, root: string, loader: Option<Loader>,
                          requireBytes: bool)
  {
    && (forall id <- nodes :: Reaches(Adjacency(nodes, edges), root, id))
    && (forall t <- REQUIRED :: HasLink(edges, root, t))
    && multiset(Sequences(edges, root)) == multiset(Range(|Sequences(edges, root)|))
    && (forall p :: Linked(edges, root, ResultCalculatedWith, p) ==> ProfileOk(nodes, edges, p))
    && (forall r :: Linked(edges, root, ResultUsesResolution, r) ==> HasLink(edges, r, ResolutionSelectsRule))
    && (forall e :: Linked(edges, root, ResultDerivedFromEvent, e) ==> EventOk(nodes, edges, loader, requireBytes, e))
  }

  ghost predicate Accepted(g: Chain, root: string, loader: Option<Loader>, requireBytes: bool) {
    var nodes := NodeMap(g.nodes);
    && HeaderOk(g) && g.nodes != [] && NodesOk(g, |g.nodes|)
    && RootIds(g, nodes) == {root}
    && EdgesOk(nodes, g.edges)
    && !Cyclic(Adjacency(nodes, g.edges))
    && PathsOk(nodes, g.edges, root, loader, requireBytes)
  }

  // ----- Acceptance by the second layer

  /** `_typed_target_ids`. */
  function TypedTargetIds(edges: seq<Edge>, nodes: map<string, Node>, source: string, edgeType: EdgeType,
                          nodeType: NodeType)
    : set<string>
  {
    set e | e in edges && e.source == source && e.edgeType == edgeType
            && e.target in nodes && nodes[e.target].nodeType == nodeType :: e.target
  }

  const SINGULAR: seq<(EdgeType, NodeType)> := [
    (ResultDefinedBy, MetricDefinition), (ResultCalculatedWith, CalculationProfile),
    (ResultHasFreshness, FreshnessAssessment), (ResultHasConfidence, ConfidenceAssessment)
  ]

  function RulesOf(nodes: map<string, Node>, edges: seq<Edge>, resolution: string): set<string> {
    TypedTargetIds(edges, nodes, resolution, ResolutionSelectsRule, ConfigurationRule)
  }

  /** The rules of some resolutions, taken together. */
  function RulesOfAll(nodes: map<string, Node>, edges: seq<Edge>, resolutions: set<string>): set<string> {
    set r, x | r in resolutions && x in RulesOf(nodes, edges, r) :: x
  }

  /** The rules selected by the root's resolutions. */
  function ResolvedRules(nodes: map<string, Node>, edges: seq<Edge>, root: string): set<string> {
    RulesOfAll(nodes, edges, TypedTargetIds(edges, nodes, root, ResultUsesResolution, RuleResolution))
  }

  ghost predicate StrictProfileOk(nodes: map<string, Node>, edges: seq<Edge>, root: string, profile: string) {
    var rounding := TypedTargetIds(edges, nodes, profile, ProfileUsesRounding, RoundingPolicy);
    var authority := TypedTargetIds(edges, nodes, profile, ProfileUsesSourceAuthority, SourceAuthority);
    var rules := TypedTargetIds(edges, nodes, profile, ProfileSelectsRule, ConfigurationRule);
    && |rounding| == 1 && |authority| == 1
    && (forall x <- rounding + authority :: StrictlyApproved(nodes, edges, x))
    && rules != {} && rules == ResolvedRules(nodes, edges, root)
  }

  /** `_has_strict_approval`. */
  predicate StrictlyApproved(nodes: map<string, Node>, edges: seq<Edge>, artifact: string) {
    exists a <- TypedTargetIds(edges, nodes, artifact, ArtifactApprovedBy, Approval) :: ApprovalOk(nodes[a], true)
  }

  ghost predicate StrictlyAccepted(g: Chain, root: string) {
    var nodes := NodeMap(g.nodes);
    && g.createdAt.Strict()
    && (forall p <- SINGULAR :: |TypedTargetIds(g.edges, nodes, root, p.0, p.1)| == 1)
    && (forall r <- TypedTargetIds(g.edges, nodes, root, ResultUsesResolution, RuleResolution) ::
        |RulesOf(nodes, g.edges, r)| == 1)
    && (forall p <- TypedTargetIds(g.edges, nodes, root, ResultCalculatedWith, CalculationProfile) ::
          StrictProfileOk(nodes, g.edges, root, p))
  }
}
