/**
 What is wrong with a chain: for every diagnosis the condition under which the first layer lists it, and
 for the two that the second layer adds.
 */
module EvidenceDiagnoses {
  import opened Base
  import opened Graph
  import opened EvidenceModel
  import opened EvidenceReference

  // ----- Header and nodes

  /** A reference with a proper version, but without an id or a hash. */
  predicate BadHash(r: Ref) {
    r.version >= 1 && (r.id == "" || !IsDigest(r.contentHash))
  }

  predicate HeaderProblem(g: Chain, d: Diagnosis) {
    match d
    case Malformed => !g.wellShaped
    case VersionInvalid => g.version < 1 || g.rootRef.version < 1
    case TenantMismatch => g.organization == ""
    case ModeContamination => (
      match g.mode
      case Actual => g.scenario != None
      case Scenario => g.scenario == None || g.scenario == Some("")
      case OtherMode => true)
    case TimestampInvalid => g.createdAt.LowerCaseZone? || g.createdAt.Unreadable?
    case HashMismatch => !g.hashMatches || BadHash(g.rootRef)
    case NodeMissing => g.nodes == []
    case _ => false
  }

  predicate NodeProblem(g: Chain, n: Node, d: Diagnosis) {
    match d
    case NodeTypeInvalid => n.nodeType.OtherNode?
    case VersionInvalid => n.ref.version < 1
    case HashMismatch => BadHash(n.ref)
    case TenantMismatch => n.organization != g.organization
    case ModeContamination =>
      n.mode != g.mode || (g.mode == Actual && n.scenario != None) || (g.mode == Scenario && n.scenario != g.scenario)
    case Malformed => n.metadata == None
    case _ => false
  }

  /** A node without an id or with one that was used before is left out, and has no other problem. */
  ghost predicate ListedProblem(g: Chain, i: nat, d: Diagnosis)
    requires i < |g.nodes|
  {
    var n := g.nodes[i];
    if n.nodeId == "" then d == NodeMissing
    else if exists j :: 0 <= j < i && g.nodes[j].nodeId == n.nodeId then d == NodeDuplicate
    else NodeProblem(g, n, d)
  }

  ghost predicate NodesProblem(g: Chain, upTo: nat, d: Diagnosis)
    requires upTo <= |g.nodes|
  {
    exists i :: 0 <= i < upTo && ListedProblem(g, i, d)
  }

  // ----- Edges

  predicate Shaped(e: Edge) {
    e.source != "" && e.target != "" && e.edgeType != OtherEdge("")
  }

  /** Only edges with ends, a type and a number are compared with one another. */
  ghost predicate EdgeProblem(nodes: map<string, Node>, edges: seq<Edge>, i: nat, d: Diagnosis)
    requires i < |edges|
  {
    var e := edges[i];
    if !Shaped(e) then d == EdgeInvalid
    else if e.sequence < 0 then d == TransformationOrderAmbiguous
    else match d
      case EdgeDuplicate => exists j :: 0 <= j < i && edges[j].sequence >= 0 && SameLink(edges[j], e)
      case NodeMissing => e.source !in nodes || e.target !in nodes
      case EdgeInvalid =>
        && e.source in nodes && e.target in nodes
        && !Fits(nodes[e.source].nodeType, e.edgeType, nodes[e.target].nodeType)
      case _ => false
  }

  ghost predicate EdgesProblem(nodes: map<string, Node>, edges: seq<Edge>, upTo: nat, d: Diagnosis)
    requires upTo <= |edges|
  {
    exists i :: 0 <= i < upTo && EdgeProblem(nodes, edges, i, d)
  }

  // ----- Around the root

  /** Somebody approved it, at a time that the first layer reads. */
  ghost predicate Signed(nodes: map<string, Node>, edges: seq<Edge>, artifact: string) {
    exists a <- nodes ::
      && Linked(edges, artifact, ArtifactApprovedBy, a) && nodes[a].metadata.Some?
      && nodes[a].metadata.value.status == "APPROVED" && nodes[a].metadata.value.approver != ""
      && (nodes[a].metadata.value.approvedAt.Rfc3339? || nodes[a].metadata.value.approvedAt.Lenient?)
  }

  ghost predicate ProfileProblem(nodes: map<string, Node>, edges: seq<Edge>, profile: string, d: Diagnosis) {
    match d
    case RequiredPathMissing =>
      !HasLink(edges, profile, ProfileUsesRounding) || !HasLink(edges, profile, ProfileUsesSourceAuthority)
    case ApprovalMissing => exists x ::
      && (Linked(edges, profile, ProfileUsesRounding, x) || Linked(edges, profile, ProfileUsesSourceAuthority, x))
      && !Signed(nodes, edges, x)
    case _ => false
  }

  /** What is wrong with a file: not there, not the bytes retained, or retained under another hash. */
  predicate FileProblem(n: Node, loader: Option<Loader>, requireBytes: bool, d: Diagnosis) {
    if n.metadata.None? || !IsDigest(n.metadata.value.retained) || n.metadata.value.locator == "" then
      d == SourceFileUnavailable
    else match d
      case HashMismatch => n.metadata.value.retained != n.ref.contentHash
      case SourceFileUnavailable =>
        if loader.None? then requireBytes else loader.value(n.metadata.value.locator) == None
      case SourceBytesMismatch =>
        loader.Some? && loader.value(n.metadata.value.locator) !in {None, Some(n.metadata.value.retained)}
      case _ => false
  }

  ghost predicate RecordProblem(nodes: map<string, Node>, edges: seq<Edge>, loader: Option<Loader>,
                                requireBytes: bool, record: string, d: Diagnosis)
  {
    || (d == RequiredPathMissing && !HasLink(edges, record, RecordReadFromFile))
    || (exists f <- nodes ::
          Linked(edges, record, RecordReadFromFile, f) && FileProblem(nodes[f], loader, requireBytes, d))
  }

  ghost predicate EventProblem(nodes: map<string, Node>, edges: seq<Edge>, loader: Option<Loader>,
                               requireBytes: bool, event: string, d: Diagnosis)
  {
    || (d == RequiredPathMissing && !HasLink(edges, event, EventNormalizedFromRecord))
    || (exists r :: Linked(edges, event, EventNormalizedFromRecord, r)
                    && RecordProblem(nodes, edges, loader, requireBytes, r, d))
  }

  /** One of the seven kinds of link is missing. */
  ghost predicate LacksLink(edges: seq<Edge>, root: string) {
    || !HasLink(edges, root, ResultDefinedBy) || !HasLink(edges, root, ResultCalculatedWith)
    || !HasLink(edges, root, ResultUsesResolution) || !HasLink(edges, root, ResultUsesTransformation)
    || !HasLink(edges, root, ResultDerivedFromEvent) || !HasLink(edges, root, ResultHasFreshness)
    || !HasLink(edges, root, ResultHasConfidence)
  }

  ghost predicate RootProblem(nodes: map<string, Node>, edges: seq<Edge>, root: string, loader: Option<Loader>,
                              requireBytes: bool, d: Diagnosis)
  {
    || (d == OrphanNode && exists id <- nodes :: forall p :: !Walk(edges, p, root, id))
    || (d == RequiredPathMissing && LacksLink(edges, root))
    || (d == TransformationOrderAmbiguous && !Numbered(edges, root))
    || (exists p :: Linked(edges, root, ResultCalculatedWith, p) && ProfileProblem(nodes, edges, p, d))
    || (d == RequiredPathMissing &&
        exists r :: Linked(edges, root, ResultUsesResolution, r) && !HasLink(edges, r, ResolutionSelectsRule))
    || (exists e :: Linked(edges, root, ResultDerivedFromEvent, e)
                    && EventProblem(nodes, edges, loader, requireBytes, e, d))
  }

  // ----- The first layer

  /** The one node that the chain names as its snapshot. */
  ghost predicate OnlyRoot(g: Chain, nodes: map<string, Node>, root: string) {
    && root in nodes
    && forall id <- nodes :: id == root <==> nodes[id].nodeType == MetricSnapshot && nodes[id].ref == g.rootRef
  }

  /** The diagnoses of the first layer. The nodes are the first of each id, the edges those that enter the graph. */
  ghost predicate Diagnosed(g: Chain, loader: Option<Loader>, requireBytes: bool, d: Diagnosis) {
    var nodes := NodeMap(g.nodes);
    var edges := ValidEdges(nodes, g.edges);
    || HeaderProblem(g, d) || NodesProblem(g, |g.nodes|, d) || EdgesProblem(nodes, g.edges, |g.edges|, d)
    || (d == GraphCycle && exists p: seq<string>, a :: |p| >= 2 && Walk(edges, p, a, a))
    || (d == NodeMissing && forall root :: !OnlyRoot(g, nodes, root))
    || (exists root :: OnlyRoot(g, nodes, root) && RootProblem(nodes, edges, root, loader, requireBytes, d))
  }

  // ----- The second layer

  /** A link of this kind, among all edges that arrived, to a node of this type. */
  ghost predicate Typed(nodes: map<string, Node>, edges: seq<Edge>, from: string, link: EdgeType, to: NodeType,
                        x: string)
  {
    Linked(edges, from, link, x) && x in nodes && nodes[x].nodeType == to
  }

  ghost predicate OneTyped(nodes: map<string, Node>, edges: seq<Edge>, from: string, link: EdgeType, to: NodeType) {
    && (exists x :: Typed(nodes, edges, from, link, to, x))
    && (forall x, y :: Typed(nodes, edges, from, link, to, x) && Typed(nodes, edges, from, link, to, y) ==> x == y)
  }

  /** Somebody approved it, at a time that the second layer reads. */
  ghost predicate StrictlySigned(nodes: map<string, Node>, edges: seq<Edge>, artifact: string) {
    exists a <- nodes ::
      && Typed(nodes, edges, artifact, ArtifactApprovedBy, Approval, a) && nodes[a].metadata.Some?
      && nodes[a].metadata.value.status == "APPROVED" && nodes[a].metadata.value.approver != ""
      && (nodes[a].metadata.value.approvedAt.Rfc3339? || nodes[a].metadata.value.approvedAt.LowerCaseZone?)
  }

  ghost predicate SelectedBySome(nodes: map<string, Node>, edges: seq<Edge>, root: string, rule: string) {
    exists r :: Typed(nodes, edges, root, ResultUsesResolution, RuleResolution, r)
                && Typed(nodes, edges, r, ResolutionSelectsRule, ConfigurationRule, rule)
  }

  ghost predicate StrictProfileProblem(nodes: map<string, Node>, edges: seq<Edge>, root: string, profile: string,
                                       d: Diagnosis)
  {
    match d
    case RequiredPathMissing =>
      || !OneTyped(nodes, edges, profile, ProfileUsesRounding, RoundingPolicy)
      || !OneTyped(nodes, edges, profile, ProfileUsesSourceAuthority, SourceAuthority)
      || (forall rule :: !Typed(nodes, edges, profile, ProfileSelectsRule, ConfigurationRule, rule))
      || (exists rule :: Typed(nodes, edges, profile, ProfileSelectsRule, ConfigurationRule, rule) !=
                         SelectedBySome(nodes, edges, root, rule))
    case ApprovalMissing => exists x ::
      && (Typed(nodes, edges, profile, ProfileUsesRounding, RoundingPolicy, x)
          || Typed(nodes, edges, profile, ProfileUsesSourceAuthority, SourceAuthority, x))
      && !StrictlySigned(nodes, edges, x)
    case _ => false
  }

  ghost predicate StrictRootProblem(nodes: map<string, Node>, edges: seq<Edge>, root: string, d: Diagnosis) {
    || (d == RequiredPathMissing && (
          || !OneTyped(nodes, edges, root, ResultDefinedBy, MetricDefinition)
          || !OneTyped(nodes, edges, root, ResultCalculatedWith, CalculationProfile)
          || !OneTyped(nodes, edges, root, ResultHasFreshness, FreshnessAssessment)
          || !OneTyped(nodes, edges, root, ResultHasConfidence, ConfidenceAssessment)
          || (exists r :: Typed(nodes, edges, root, ResultUsesResolution, RuleResolution, r)
                          && !OneTyped(nodes, edges, r, ResolutionSelectsRule, ConfigurationRule))))
    || (exists p :: Typed(nodes, edges, root, ResultCalculatedWith, CalculationProfile, p)
                    && StrictProfileProblem(nodes, edges, root, p, d))
  }

  /** The diagnoses that the second layer adds. */
  ghost predicate StrictlyDiagnosed(g: Chain, d: Diagnosis) {
    var nodes := NodeMap(g.nodes);
    || (d == TimestampInvalid && (g.createdAt.Lenient? || g.createdAt.Unreadable?))
    || (exists root :: OnlyRoot(g, nodes, root) && StrictRootProblem(nodes, g.edges, root, d))
  }

  // ----- What the node map and the list of edges hold

  /** Of the nodes with one id the map holds the first. */
  lemma {:induction false} FirstNodes(nodes: seq<Node>, id: string)
    ensures id in NodeMap(nodes) <==> id != "" && exists n <- nodes :: n.nodeId == id
    ensures id in NodeMap(nodes) ==> exists i ::
      && 0 <= i < |nodes| && nodes[i].nodeId == id && NodeMap(nodes)[id] == nodes[i]
      && forall j :: 0 <= j < i ==> nodes[j].nodeId != id
  {
    MapMembers(nodes, id);
    if nodes != [] {
      var before, last := nodes[..|nodes| - 1], nodes[|nodes| - 1];
      FirstNodes(before, id);
      MapMembers(before, id);
      if id in NodeMap(before) {
        var i :| 0 <= i < |before| && before[i].nodeId == id && NodeMap(before)[id] == before[i]
          && forall j :: 0 <= j < i ==> before[j].nodeId != id;
        assert nodes[i] == before[i] && forall j :: 0 <= j < i ==> nodes[j] == before[j];
      } else if id in NodeMap(nodes) {
        assert forall j :: 0 <= j < |before| ==> nodes[j] == before[j] && before[j] in before;
      }
    }
  }

  lemma {:induction false} EnteredEdges(nodes: map<string, Node>, edges: seq<Edge>, e: Edge)
    ensures e in ValidEdges(nodes, edges) <==> (
      && e in edges && Shaped(e) && e.sequence >= 0 && e.source in nodes && e.target in nodes
      && Fits(nodes[e.source].nodeType, e.edgeType, nodes[e.target].nodeType))
  {
    if e.source in nodes && e.target in nodes {
      FitsExact(nodes[e.source].nodeType, e.edgeType, nodes[e.target].nodeType);
    }
    if edges != [] {
      var before, last := edges[..|edges| - 1], edges[|edges| - 1];
      EnteredEdges(nodes, before, e);
      assert edges == before + [last];
      hide Fits, EdgeSignature;
    }
  }

  // ----- A chain without a diagnosis is accepted

  lemma HashExact(r: Ref)
    ensures ValidRef(r) <==> r.version >= 1 && !BadHash(r)
    ensures BadHash(r) ==> r.version >= 1
  {
    DigestExact(r.contentHash);
    hide IsDigest, IsHex64;
  }

  lemma HeaderSilent(g: Chain)
    ensures (forall d :: !HeaderProblem(g, d)) <==> HeaderOk(g) && g.nodes != []
  {
    HashExact(g.rootRef);
    hide BadHash, ValidRef;
    if forall d :: !HeaderProblem(g, d) {
      assert !HeaderProblem(g, Malformed) && !HeaderProblem(g, VersionInvalid) && !HeaderProblem(g, TenantMismatch);
      assert !HeaderProblem(g, ModeContamination) && !HeaderProblem(g, TimestampInvalid);
      assert !HeaderProblem(g, HashMismatch) && !HeaderProblem(g, NodeMissing);
    }
  }

  lemma NodeSilent(g: Chain, n: Node)
    requires n.nodeId != ""
    ensures (forall d :: !NodeProblem(g, n, d)) <==> NodeOk(g, n)
  {
    HashExact(n.ref);
    hide BadHash, ValidRef;
    if forall d :: !NodeProblem(g, n, d) {
      assert !NodeProblem(g, n, NodeTypeInvalid) && !NodeProblem(g, n, VersionInvalid);
      assert !NodeProblem(g, n, HashMismatch) && !NodeProblem(g, n, TenantMismatch);
      assert !NodeProblem(g, n, ModeContamination) && !NodeProblem(g, n, Malformed);
    }
  }

  lemma UsedBefore(g: Chain, i: nat)
    requires i < |g.nodes| && g.nodes[i].nodeId != ""
    ensures g.nodes[i].nodeId in NodeMap(g.nodes[..i]) <==>
      exists j :: 0 <= j < i && g.nodes[j].nodeId == g.nodes[i].nodeId
  {
    MapMembers(g.nodes[..i], g.nodes[i].nodeId);
    hide NodeMap;
    if j :| 0 <= j < i && g.nodes[j].nodeId == g.nodes[i].nodeId {
      assert g.nodes[..i][j] == g.nodes[j];
    }
  }

  lemma ListedSilent(g: Chain, i: nat)
    requires i < |g.nodes|
    ensures (forall d :: !ListedProblem(g, i, d)) <==>
      NodeOk(g, g.nodes[i]) && g.nodes[i].nodeId !in NodeMap(g.nodes[..i])
  {
    if g.nodes[i].nodeId == "" {
      assert ListedProblem(g, i, NodeMissing);
    } else {
      UsedBefore(g, i);
      NodeSilent(g, g.nodes[i]);
      hide NodeMap, NodeProblem, NodeOk;
      if g.nodes[i].nodeId in NodeMap(g.nodes[..i]) {
        assert ListedProblem(g, i, NodeDuplicate);
      } else {
        assert forall d :: ListedProblem(g, i, d) == NodeProblem(g, g.nodes[i], d);
      }
    }
  }

  lemma NodesSilent(g: Chain)
    ensures (forall d :: !NodesProblem(g, |g.nodes|, d)) <==> NodesOk(g, |g.nodes|)
  {
    forall i | 0 <= i < |g.nodes| {
      ListedSilent(g, i);
    }
    hide ListedProblem, NodeOk, NodeMap;
    if forall d :: !NodesProblem(g, |g.nodes|, d) {
      forall i, d | 0 <= i < |g.nodes|
        ensures !ListedProblem(g, i, d)
      {
        assert !NodesProblem(g, |g.nodes|, d);
      }
    }
  }

  lemma EdgeSilent(nodes: map<string, Node>, edges: seq<Edge>, i: nat)
    requires i < |edges|
    ensures (forall d :: !EdgeProblem(nodes, edges, i, d)) <==>
      && EdgeOk(nodes, edges[i])
      && forall j :: 0 <= j < i && edges[j].sequence >= 0 ==> !SameLink(edges[j], edges[i])
  {
    var e := edges[i];
    if e.source in nodes && e.target in nodes {
      FitsExact(nodes[e.source].nodeType, e.edgeType, nodes[e.target].nodeType);
    }
    hide Fits, EdgeSignature, SameLink;
    if forall d :: !EdgeProblem(nodes, edges, i, d) {
      assert !EdgeProblem(nodes, edges, i, EdgeInvalid) && !EdgeProblem(nodes, edges, i, EdgeDuplicate);
      assert !EdgeProblem(nodes, edges, i, NodeMissing);
      assert !EdgeProblem(nodes, edges, i, TransformationOrderAmbiguous);
    }
  }

  lemma EdgesSilent(nodes: map<string, Node>, edges: seq<Edge>)
    ensures (forall d :: !EdgesProblem(nodes, edges, |edges|, d)) <==> EdgesOk(nodes, edges)
  {
    forall i | 0 <= i < |edges| {
      EdgeSilent(nodes, edges, i);
    }
    hide EdgeProblem, SameLink;
    if forall d :: !EdgesProblem(nodes, edges, |edges|, d) {
      forall i, d | 0 <= i < |edges|
        ensures !EdgeProblem(nodes, edges, i, d)
      {
        assert !EdgesProblem(nodes, edges, |edges|, d);
      }
      assert forall i :: 0 <= i < |edges| ==> EdgeOk(nodes, edges[i]);
    }
    hide EdgeOk;
  }

  lemma SignedExact(nodes: map<string, Node>, edges: seq<Edge>, artifact: string)
    ensures Signed(nodes, edges, artifact) <==> Approved(nodes, edges, artifact, false)
  {
    hide Linked;
  }

  lemma ProfileSilent(nodes: map<string, Node>, edges: seq<Edge>, profile: string)
    ensures (forall d :: !ProfileProblem(nodes, edges, profile, d)) <==> ProfileOk(nodes, edges, profile)
  {
    forall x {
      SignedExact(nodes, edges, x);
    }
    hide Signed, Approved, HasLink, Linked;
    if forall d :: !ProfileProblem(nodes, edges, profile, d) {
      assert !ProfileProblem(nodes, edges, profile, RequiredPathMissing);
      assert !ProfileProblem(nodes, edges, profile, ApprovalMissing);
    }
  }

  lemma FileSilent(n: Node, loader: Option<Loader>, requireBytes: bool)
    ensures (forall d :: !FileProblem(n, loader, requireBytes, d)) <==> FileOk(n, loader, requireBytes)
  {
    if n.metadata.Some? {
      DigestExact(n.metadata.value.retained);
    }
    hide IsDigest, IsHex64;
    if forall d :: !FileProblem(n, loader, requireBytes, d) {
      assert !FileProblem(n, loader, requireBytes, SourceFileUnavailable);
      assert !FileProblem(n, loader, requireBytes, HashMismatch);
      assert !FileProblem(n, loader, requireBytes, SourceBytesMismatch);
    }
  }

  lemma RecordSilent(nodes: map<string, Node>, edges: seq<Edge>, loader: Option<Loader>, requireBytes: bool,
                     record: string)
    requires forall e <- edges :: e.target in nodes
    ensures (forall d :: !RecordProblem(nodes, edges, loader, requireBytes, record, d)) <==>
      RecordOk(nodes, edges, loader, requireBytes, record)
  {
    forall f <- nodes {
      FileSilent(nodes[f], loader, requireBytes);
    }
    assert forall f :: Linked(edges, record, RecordReadFromFile, f) ==> f in nodes;
    hide FileProblem, FileOk, HasLink, Linked;
    if forall d :: !RecordProblem(nodes, edges, loader, requireBytes, record, d) {
      assert !RecordProblem(nodes, edges, loader, requireBytes, record, RequiredPathMissing);
      forall f, d | Linked(edges, record, RecordReadFromFile, f)
        ensures !FileProblem(nodes[f], loader, requireBytes, d)
      {
        assert !RecordProblem(nodes, edges, loader, requireBytes, record, d);
      }
    }
  }

  lemma EventSilent(nodes: map<string, Node>, edges: seq<Edge>, loader: Option<Loader>, requireBytes: bool,
                    event: string)
    requires forall e <- edges :: e.target in nodes
    ensures (forall d :: !EventProblem(nodes, edges, loader, requireBytes, event, d)) <==>
      EventOk(nodes, edges, loader, requireBytes, event)
  {
    forall r {
      RecordSilent(nodes, edges, loader, requireBytes, r);
    }
    hide RecordProblem, RecordOk, HasLink, Linked;
    if forall d :: !EventProblem(nodes, edges, loader, requireBytes, event, d) {
      assert !EventProblem(nodes, edges, loader, requireBytes, event, RequiredPathMissing);
      forall r, d | Linked(edges, event, EventNormalizedFromRecord, r)
        ensures !RecordProblem(nodes, edges, loader, requireBytes, r, d)
      {
        assert !EventProblem(nodes, edges, loader, requireBytes, event, d);
      }
    }
  }

  lemma LacksExact(edges: seq<Edge>, root: string)
    ensures !LacksLink(edges, root) <==> forall t <- REQUIRED :: HasLink(edges, root, t)
  {
    hide HasLink;
    assert REQUIRED[0] in REQUIRED && REQUIRED[1] in REQUIRED && REQUIRED[2] in REQUIRED && REQUIRED[3] in REQUIRED;
    assert REQUIRED[4] in REQUIRED && REQUIRED[5] in REQUIRED && REQUIRED[6] in REQUIRED;
  }

  lemma OrphanExact(nodes: map<string, Node>, edges: seq<Edge>, root: string)
    requires forall e <- edges :: e.source in nodes
    ensures (forall id <- nodes :: Reaches(Adjacency(nodes, edges), root, id)) <==>
      forall id <- nodes :: exists p :: Walk(edges, p, root, id)
  {
    hide Adjacency, Reaches, Walk;
    forall id {
      ReachExact(nodes, edges, root, id);
    }
  }

  lemma RootSilent(nodes: map<string, Node>, edges: seq<Edge>, root: string, loader: Option<Loader>,
                   requireBytes: bool)
    requires forall e <- edges :: e.source in nodes && e.target in nodes
    ensures (forall d :: !RootProblem(nodes, edges, root, loader, requireBytes, d)) <==>
      PathsOk(nodes, edges, root, loader, requireBytes)
  {
    hide LacksLink, Walk, Reaches, Adjacency, Numbered, Sequences, Range, HasLink, Linked, ProfileProblem, ProfileOk,
      EventProblem, EventOk;
    LacksExact(edges, root);
    OrphanExact(nodes, edges, root);
    NumberedExact(edges, root);
    forall p {
      ProfileSilent(nodes, edges, p);
    }
    forall e {
      EventSilent(nodes, edges, loader, requireBytes, e);
    }
    if forall d :: !RootProblem(nodes, edges, root, loader, requireBytes, d) {
      assert !RootProblem(nodes, edges, root, loader, requireBytes, OrphanNode);
      assert !RootProblem(nodes, edges, root, loader, requireBytes, RequiredPathMissing);
      assert !RootProblem(nodes, edges, root, loader, requireBytes, TransformationOrderAmbiguous);
      forall p, d | Linked(edges, root, ResultCalculatedWith, p)
        ensures !ProfileProblem(nodes, edges, p, d)
      {
        assert !RootProblem(nodes, edges, root, loader, requireBytes, d);
      }
      forall e, d | Linked(edges, root, ResultDerivedFromEvent, e)
        ensures !EventProblem(nodes, edges, loader, requireBytes, e, d)
      {
        assert !RootProblem(nodes, edges, root, loader, requireBytes, d);
      }
    }
  }

  lemma OnlyRootExact(g: Chain, nodes: map<string, Node>, root: string)
    ensures OnlyRoot(g, nodes, root) <==> RootIds(g, nodes) == {root}
  {
    if RootIds(g, nodes) == {root} {
      assert root in RootIds(g, nodes);
      forall id <- nodes
        ensures id == root <==> IsRoot(g, nodes[id])
      {
        assert id in RootIds(g, nodes) <==> IsRoot(g, nodes[id]);
      }
    }
    if OnlyRoot(g, nodes, root) {
      forall id
        ensures id in RootIds(g, nodes) <==> id == root
      {
      }
    }
  }

  lemma {:induction false} EnteredAll(nodes: map<string, Node>, edges: seq<Edge>)
    ensures forall e <- ValidEdges(nodes, edges) :: EdgeOk(nodes, e)
    ensures EdgesOk(nodes, edges) ==> ValidEdges(nodes, edges) == edges
  {
    hide EdgeOk;
    if edges != [] {
      var before := edges[..|edges| - 1];
      assert edges == before + [edges[|edges| - 1]];
      EnteredAll(nodes, before);
    }
  }

  /** With nodes, edges and their table named. */
  lemma NamedSilent(g: Chain, nodes: map<string, Node>, edges: seq<Edge>, root: string, loader: Option<Loader>,
                    requireBytes: bool)
    requires nodes == NodeMap(g.nodes) && edges == ValidEdges(nodes, g.edges) && OnlyRoot(g, nodes, root)
    ensures (forall d :: !Diagnosed(g, loader, requireBytes, d)) <==> Accepted(g, root, loader, requireBytes)
  {
    HeaderSilent(g);
    NodesSilent(g);
    EdgesSilent(nodes, g.edges);
    EnteredAll(nodes, g.edges);
    assert forall e <- edges :: e.source in nodes && e.target in nodes;
    RootSilent(nodes, edges, root, loader, requireBytes);
    AcyclicExact(nodes, edges);
    OnlyRootExact(g, nodes, root);
    forall other | OnlyRoot(g, nodes, other)
      ensures other == root
    {
      OnlyRootExact(g, nodes, other);
    }
    SilentParts(g, nodes, edges, root, loader, requireBytes);
    hide HeaderProblem, HeaderOk, NodesProblem, NodesOk, EdgesProblem, EdgesOk, RootProblem, PathsOk, Walk, OnlyRoot,
      RootIds, Cyclic, Adjacency, NodeMap, ValidEdges, EdgeOk, Diagnosed;
  }

  lemma SilentParts(g: Chain, nodes: map<string, Node>, edges: seq<Edge>, root: string, loader: Option<Loader>,
                    requireBytes: bool)
    requires nodes == NodeMap(g.nodes) && edges == ValidEdges(nodes, g.edges) && OnlyRoot(g, nodes, root)
    requires forall other :: OnlyRoot(g, nodes, other) ==> other == root
    ensures (forall d :: !Diagnosed(g, loader, requireBytes, d)) <==>
      && (forall d :: !HeaderProblem(g, d)) && (forall d :: !NodesProblem(g, |g.nodes|, d))
      && (forall d :: !EdgesProblem(nodes, g.edges, |g.edges|, d))
      && (forall p: seq<string>, a :: |p| >= 2 ==> !Walk(edges, p, a, a))
      && (forall d :: !RootProblem(nodes, edges, root, loader, requireBytes, d))
  {
    hide HeaderProblem, NodesProblem, EdgesProblem, RootProblem, Walk, OnlyRoot, NodeMap, ValidEdges;
    if forall d :: !Diagnosed(g, loader, requireBytes, d) {
      forall d
        ensures !HeaderProblem(g, d) && !NodesProblem(g, |g.nodes|, d)
        ensures !EdgesProblem(nodes, g.edges, |g.edges|, d) && !RootProblem(nodes, edges, root, loader, requireBytes, d)
      {
        assert !Diagnosed(g, loader, requireBytes, d);
      }
      assert !Diagnosed(g, loader, requireBytes, GraphCycle);
    }
  }

  /** The first layer has nothing to say of exactly the chains that are accepted. */
  lemma SilentIsAccepted(g: Chain, loader: Option<Loader>, requireBytes: bool)
    ensures (forall d :: !Diagnosed(g, loader, requireBytes, d)) <==>
      exists root :: Accepted(g, root, loader, requireBytes)
  {
    var nodes := NodeMap(g.nodes);
    forall root {
      OnlyRootExact(g, nodes, root);
    }
    if root :| OnlyRoot(g, nodes, root) {
      NamedSilent(g, nodes, ValidEdges(nodes, g.edges), root, loader, requireBytes);
      hide Diagnosed, OnlyRoot, RootIds, NodeMap, HeaderOk, NodesOk, EdgesOk, Cyclic, Adjacency, PathsOk;
      forall other | Accepted(g, other, loader, requireBytes)
        ensures other == root
      {
        assert RootIds(g, nodes) == {other};
        assert other in RootIds(g, nodes);
      }
    } else {
      hide OnlyRoot, RootIds, NodeMap, HeaderOk, NodesOk, EdgesOk, Cyclic, Adjacency, PathsOk;
      assert Diagnosed(g, loader, requireBytes, NodeMissing);
    }
  }

  // ----- The second layer likewise

  lemma TypedExact(nodes: map<string, Node>, edges: seq<Edge>, from: string, link: EdgeType, to: NodeType, x: string)
    ensures Typed(nodes, edges, from, link, to, x) <==> x in TypedTargetIds(edges, nodes, from, link, to)
  {
  }

  lemma OneTypedExact(nodes: map<string, Node>, edges: seq<Edge>, from: string, link: EdgeType, to: NodeType)
    ensures OneTyped(nodes, edges, from, link, to) <==> |TypedTargetIds(edges, nodes, from, link, to)| == 1
  {
    hide Typed, TypedTargetIds;
    forall x {
      TypedExact(nodes, edges, from, link, to, x);
    }
    SingletonExact(TypedTargetIds(edges, nodes, from, link, to));
  }

  lemma StrictlySignedExact(nodes: map<string, Node>, edges: seq<Edge>, artifact: string)
    ensures StrictlySigned(nodes, edges, artifact) <==> StrictlyApproved(nodes, edges, artifact)
  {
    forall x {
      TypedExact(nodes, edges, artifact, ArtifactApprovedBy, Approval, x);
    }
    TypedInNodes(nodes, edges, artifact, ArtifactApprovedBy, Approval);
    hide Typed, TypedTargetIds;
  }

  lemma TypedInNodes(nodes: map<string, Node>, edges: seq<Edge>, from: string, link: EdgeType, to: NodeType)
    ensures forall x :: Typed(nodes, edges, from, link, to, x) ==> x in nodes
  {
  }

  lemma SelectedExact(nodes: map<string, Node>, edges: seq<Edge>, root: string, rule: string)
    ensures SelectedBySome(nodes, edges, root, rule) <==> rule in ResolvedRules(nodes, edges, root)
  {
    forall r {
      TypedExact(nodes, edges, root, ResultUsesResolution, RuleResolution, r);
    }
    forall r {
      TypedExact(nodes, edges, r, ResolutionSelectsRule, ConfigurationRule, rule);
    }
    hide Typed, TypedTargetIds;
    var resolutions := TypedTargetIds(edges, nodes, root, ResultUsesResolution, RuleResolution);
    if r :| Typed(nodes, edges, root, ResultUsesResolution, RuleResolution, r)
            && Typed(nodes, edges, r, ResolutionSelectsRule, ConfigurationRule, rule) {
      assert r in resolutions && rule in RulesOf(nodes, edges, r);
    }
    if rule in RulesOfAll(nodes, edges, resolutions) {
      var r :| r in resolutions && rule in RulesOf(nodes, edges, r);
      assert Typed(nodes, edges, root, ResultUsesResolution, RuleResolution, r);
    }
  }

  lemma RulesDiffer(nodes: map<string, Node>, edges: seq<Edge>, root: string, profile: string)
    ensures
      var rules := TypedTargetIds(edges, nodes, profile, ProfileSelectsRule, ConfigurationRule);
      && (rules != {} <==> exists rule :: Typed(nodes, edges, profile, ProfileSelectsRule, ConfigurationRule, rule))
      && (rules == ResolvedRules(nodes, edges, root) <==>
          forall rule :: Typed(nodes, edges, profile, ProfileSelectsRule, ConfigurationRule, rule) ==
                         SelectedBySome(nodes, edges, root, rule))
  {
    var rules := TypedTargetIds(edges, nodes, profile, ProfileSelectsRule, ConfigurationRule);
    forall x {
      TypedExact(nodes, edges, profile, ProfileSelectsRule, ConfigurationRule, x);
    }
    forall x {
      SelectedExact(nodes, edges, root, x);
    }
    hide Typed, TypedTargetIds, SelectedBySome, ResolvedRules;
    if forall x :: Typed(nodes, edges, profile, ProfileSelectsRule, ConfigurationRule, x) ==
                   SelectedBySome(nodes, edges, root, x) {
      forall x
        ensures x in rules <==> x in ResolvedRules(nodes, edges, root)
      {
        assert Typed(nodes, edges, profile, ProfileSelectsRule, ConfigurationRule, x) ==
          SelectedBySome(nodes, edges, root, x);
      }
    }
  }

  lemma StrictProfileSilent(nodes: map<string, Node>, edges: seq<Edge>, root: string, profile: string)
    ensures (forall d :: !StrictProfileProblem(nodes, edges, root, profile, d)) <==>
      StrictProfileOk(nodes, edges, root, profile)
  {
    hide Typed, OneTyped, TypedTargetIds, ResolvedRules, SelectedBySome, StrictlySigned, StrictlyApproved;
    OneTypedExact(nodes, edges, profile, ProfileUsesRounding, RoundingPolicy);
    OneTypedExact(nodes, edges, profile, ProfileUsesSourceAuthority, SourceAuthority);
    forall x {
      TypedExact(nodes, edges, profile, ProfileUsesRounding, RoundingPolicy, x);
    }
    forall x {
      TypedExact(nodes, edges, profile, ProfileUsesSourceAuthority, SourceAuthority, x);
    }
    forall x {
      StrictlySignedExact(nodes, edges, x);
    }
    RulesDiffer(nodes, edges, root, profile);
    if forall d :: !StrictProfileProblem(nodes, edges, root, profile, d) {
      assert !StrictProfileProblem(nodes, edges, root, profile, RequiredPathMissing);
      assert !StrictProfileProblem(nodes, edges, root, profile, ApprovalMissing);
    }
  }

  lemma StrictRootSilent(g: Chain, nodes: map<string, Node>, root: string)
    requires nodes == NodeMap(g.nodes) && g.createdAt.Strict()
    ensures (forall d :: !StrictRootProblem(nodes, g.edges, root, d)) <==> StrictlyAccepted(g, root)
  {
    hide NodeMap, Typed, OneTyped, TypedTargetIds, StrictProfileProblem, StrictProfileOk;
    var edges := g.edges;
    OneTypedExact(nodes, edges, root, ResultDefinedBy, MetricDefinition);
    OneTypedExact(nodes, edges, root, ResultCalculatedWith, CalculationProfile);
    OneTypedExact(nodes, edges, root, ResultHasFreshness, FreshnessAssessment);
    OneTypedExact(nodes, edges, root, ResultHasConfidence, ConfidenceAssessment);
    assert SINGULAR[0] in SINGULAR && SINGULAR[1] in SINGULAR && SINGULAR[2] in SINGULAR && SINGULAR[3] in SINGULAR;
    forall r {
      TypedExact(nodes, edges, root, ResultUsesResolution, RuleResolution, r);
    }
    forall r {
      OneTypedExact(nodes, edges, r, ResolutionSelectsRule, ConfigurationRule);
    }
    forall p {
      TypedExact(nodes, edges, root, ResultCalculatedWith, CalculationProfile, p);
    }
    forall p {
      StrictProfileSilent(nodes, edges, root, p);
    }
    if forall d :: !StrictRootProblem(nodes, edges, root, d) {
      assert !StrictRootProblem(nodes, edges, root, RequiredPathMissing);
      forall p, d | Typed(nodes, edges, root, ResultCalculatedWith, CalculationProfile, p)
        ensures !StrictProfileProblem(nodes, edges, root, p, d)
      {
        assert !StrictRootProblem(nodes, edges, root, d);
      }
    }
  }

  /** Of the chains that the first layer accepts, the second has nothing to add to exactly those it accepts too. */
  lemma StrictlySilent(g: Chain, root: string, loader: Option<Loader>, requireBytes: bool)
    requires Accepted(g, root, loader, requireBytes)
    ensures (forall d :: !StrictlyDiagnosed(g, d)) <==> StrictlyAccepted(g, root)
  {
    hide Accepted, NodeMap, OnlyRoot, StrictRootProblem, StrictlyAccepted;
    var nodes := NodeMap(g.nodes);
    AcceptedRoot(g, root, loader, requireBytes);
    if g.createdAt.Strict() {
      StrictRootSilent(g, nodes, root);
      if forall d :: !StrictlyDiagnosed(g, d) {
        forall d
          ensures !StrictRootProblem(nodes, g.edges, root, d)
        {
          assert !StrictlyDiagnosed(g, d);
        }
      }
    } else {
      assert StrictlyDiagnosed(g, TimestampInvalid);
      NotStrict(g, root);
    }
  }

  lemma NotStrict(g: Chain, root: string)
    requires !g.createdAt.Strict()
    ensures !StrictlyAccepted(g, root)
  {
  }

  lemma AcceptedRoot(g: Chain, root: string, loader: Option<Loader>, requireBytes: bool)
    requires Accepted(g, root, loader, requireBytes)
    ensures forall other :: OnlyRoot(g, NodeMap(g.nodes), other) <==> other == root
  {
    var nodes := NodeMap(g.nodes);
    assert RootIds(g, nodes) == {root};
    forall other {
      OnlyRootExact(g, nodes, other);
    }
    hide Accepted, NodeMap, OnlyRoot, RootIds;
    assert forall other: string :: {other} == {root} ==> other in {root};
  }
}
