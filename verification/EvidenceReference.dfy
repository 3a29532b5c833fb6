/**
 Which evidence chains are accepted, said of the lists of nodes and edges as they arrive: no node map,
 no tables, every kind of link and every type written out.
 */
module EvidenceReference {
  import opened Base
  import opened Graph
  import opened EvidenceModel
  import opened EvidenceTheorems

  // ----- Header and nodes

  predicate RefReads(r: Ref) {
    r.id != "" && r.version >= 1 && IsDigest(r.contentHash)
  }

  /** Actual chains name no scenario; the others name one. */
  predicate HeaderReads(g: Chain) {
    && g.wellShaped && g.version >= 1 && g.hashMatches
    && g.organization != "" && RefReads(g.rootRef) && g.nodes != []
    && (g.createdAt.Rfc3339? || g.createdAt.Lenient?)
    && ((g.mode == Actual && g.scenario == None) || (g.mode == Scenario && g.scenario !in {None, Some("")}))
  }

  /** A node belongs to the organization, mode and scenario of its chain. */
  predicate NodeReads(g: Chain, n: Node) {
    && n.nodeId != "" && !n.nodeType.OtherNode? && RefReads(n.ref) && n.metadata != None
    && n.organization == g.organization && n.mode == g.mode && n.scenario == g.scenario
  }

  ghost predicate NodesRead(g: Chain) {
    && (forall n <- g.nodes :: NodeReads(g, n))
    && (forall i, j :: 0 <= i < j < |g.nodes| ==> g.nodes[i].nodeId != g.nodes[j].nodeId)
  }

  ghost predicate OneRoot(g: Chain, root: string) {
    && (exists n <- g.nodes :: n.nodeId == root)
    && (forall n <- g.nodes :: n.nodeId == root <==> n.nodeType == MetricSnapshot && n.ref == g.rootRef)
  }

  // ----- Edges

  /** Which kind of link leads from which type of artifact to which. */
  predicate Fits(from: NodeType, link: EdgeType, to: NodeType) {
    match link
    case ResultDefinedBy => from == MetricSnapshot && to == MetricDefinition
    case ResultCalculatedWith => from == MetricSnapshot && to == CalculationProfile
    case ResultUsesResolution => from == MetricSnapshot && to == RuleResolution
    case ResultUsesTransformation => from == MetricSnapshot && to == Transformation
    case ResultUsesProductMaster => from == MetricSnapshot && to == ProductMaster
    case ResultDerivedFromEvent => from == MetricSnapshot && to == CanonicalEvent
    case ResultHasFreshness => from == MetricSnapshot && to == FreshnessAssessment
    case ResultHasConfidence => from == MetricSnapshot && to == ConfidenceAssessment
    case ResultReconciledBy => from == MetricSnapshot && to == ReconciliationResult
    case SnapshotSupersedes | SnapshotRestates => from == MetricSnapshot && to == MetricSnapshot
    case ProfileSelectsRule => from == CalculationProfile && to == ConfigurationRule
    case ProfileUsesRounding => from == CalculationProfile && to == RoundingPolicy
    case ProfileUsesSourceAuthority => from == CalculationProfile && to == SourceAuthority
    case ResolutionSelectsRule => from == RuleResolution && to == ConfigurationRule
    case EventNormalizedFromRecord => from == CanonicalEvent && to == SourceRecord
    case RecordReadFromFile => from == SourceRecord && to == SourceFile
    case ArtifactApprovedBy => to == Approval
    case OtherEdge(_) => false
  }

  ghost predicate EdgeReads(g: Chain, e: Edge) {
    && e.sequence >= 0
    && exists a, b :: a in g.nodes && b in g.nodes && a.nodeId == e.source && b.nodeId == e.target
                      && Fits(a.nodeType, e.edgeType, b.nodeType)
  }

  ghost predicate EdgesRead(g: Chain) {
    && (forall e <- g.edges :: EdgeReads(g, e))
    && (forall i, j :: 0 <= i < j < |g.edges| ==>
          (g.edges[i].source, g.edges[i].target, g.edges[i].edgeType) !=
          (g.edges[j].source, g.edges[j].target, g.edges[j].edgeType))
  }

  // ----- Walks

  ghost predicate Joined(edges: seq<Edge>, a: string, b: string) {
    exists e <- edges :: e.source == a && e.target == b
  }

  /** Steps along edges from one id to another. */
  ghost predicate Walk(edges: seq<Edge>, p: seq<string>, a: string, b: string) {
    && p != [] && p[0] == a && p[|p| - 1] == b
    && forall i :: 0 <= i < |p| - 1 ==> Joined(edges, p[i], p[i + 1])
  }

  // ----- The evidence around the root

  ghost predicate Link(g: Chain, from: string, link: EdgeType, to: string) {
    exists e <- g.edges :: e.source == from && e.edgeType == link && e.target == to
  }

  /** The seven kinds of evidence a result must come with. */
  ghost predicate Evidenced(g: Chain, root: string) {
    && (exists x :: Link(g, root, ResultDefinedBy, x))
    && (exists x :: Link(g, root, ResultCalculatedWith, x))
    && (exists x :: Link(g, root, ResultUsesResolution, x))
    && (exists x :: Link(g, root, ResultUsesTransformation, x))
    && (exists x :: Link(g, root, ResultDerivedFromEvent, x))
    && (exists x :: Link(g, root, ResultHasFreshness, x))
    && (exists x :: Link(g, root, ResultHasConfidence, x))
  }

  /** The places in the list of the root's transformation edges. */
  function Steps(edges: seq<Edge>, root: string): set<int> {
    set i | 0 <= i < |edges| && edges[i].source == root && edges[i].edgeType == ResultUsesTransformation
  }

  /** Transformations are numbered from zero on without gaps or repetition. */
  ghost predicate Numbered(edges: seq<Edge>, root: string) {
    var steps := Steps(edges, root);
    && (forall i, j :: i in steps && j in steps && edges[i].sequence == edges[j].sequence ==> i == j)
    && (forall i :: i in steps ==> 0 <= edges[i].sequence < |steps|)
  }

  /** Somebody approved it: an approval node with status, approver, and a time that can be read. */
  ghost predicate HasApproval(g: Chain, artifact: string) {
    exists n <- g.nodes ::
      && Link(g, artifact, ArtifactApprovedBy, n.nodeId)
      && n.metadata.Some? && n.metadata.value.status == "APPROVED" && n.metadata.value.approver != ""
      && (n.metadata.value.approvedAt.Rfc3339? || n.metadata.value.approvedAt.Lenient?)
  }

  ghost predicate ProfileBacked(g: Chain, profile: string) {
    && (exists x :: Link(g, profile, ProfileUsesRounding, x))
    && (exists x :: Link(g, profile, ProfileUsesSourceAuthority, x))
    && (forall x :: Link(g, profile, ProfileUsesRounding, x) ==> HasApproval(g, x))
    && (forall x :: Link(g, profile, ProfileUsesSourceAuthority, x) ==> HasApproval(g, x))
  }

  /** The file is retained under its content hash, and if it can be loaded its bytes have that hash. */
  ghost predicate Retained(g: Chain, loader: Option<Loader>, requireBytes: bool, file: string) {
    exists n <- g.nodes ::
      && n.nodeId == file && n.metadata.Some? && n.metadata.value.locator != ""
      && IsDigest(n.ref.contentHash) && n.metadata.value.retained == n.ref.contentHash
      && match loader
         case None => !requireBytes
         case Some(load) => load(n.metadata.value.locator) == Some(n.ref.contentHash)
  }

  /** An event comes from source records, and those from retained files. */
  ghost predicate EventBacked(g: Chain, loader: Option<Loader>, requireBytes: bool, event: string) {
    && (exists r :: Link(g, event, EventNormalizedFromRecord, r))
    && (forall r :: Link(g, event, EventNormalizedFromRecord, r) ==> exists f :: Link(g, r, RecordReadFromFile, f))
    && (forall r, f :: Link(g, event, EventNormalizedFromRecord, r) && Link(g, r, RecordReadFromFile, f) ==>
          Retained(g, loader, requireBytes, f))
  }

  /** Every link of the root leads to artifacts that are backed in their turn. */
  ghost predicate Backed(g: Chain, root: string, loader: Option<Loader>, requireBytes: bool) {
    && Evidenced(g, root) && Numbered(g.edges, root)
    && (forall p :: Link(g, root, ResultCalculatedWith, p) ==> ProfileBacked(g, p))
    && (forall r :: Link(g, root, ResultUsesResolution, r) ==> exists x :: Link(g, r, ResolutionSelectsRule, x))
    && (forall e :: Link(g, root, ResultDerivedFromEvent, e) ==> EventBacked(g, loader, requireBytes, e))
  }

  /** The chains that the first layer lets pass. */
  ghost predicate Sound(g: Chain, root: string, loader: Option<Loader>, requireBytes: bool) {
    && HeaderReads(g) && NodesRead(g) && OneRoot(g, root) && EdgesRead(g)
    && (forall p: seq<string>, a :: |p| >= 2 ==> !Walk(g.edges, p, a, a))
    && (forall n <- g.nodes :: exists p :: Walk(g.edges, p, root, n.nodeId))
    && Backed(g, root, loader, requireBytes)
  }

  /** One link of this kind and no other. */
  ghost predicate OneLink(g: Chain, from: string, link: EdgeType) {
    && (exists x :: Link(g, from, link, x))
    && (forall x, y :: Link(g, from, link, x) && Link(g, from, link, y) ==> x == y)
  }

  /** The time of a strict approval is read by the second layer. */
  ghost predicate HasStrictApproval(g: Chain, artifact: string) {
    exists n <- g.nodes ::
      && Link(g, artifact, ArtifactApprovedBy, n.nodeId)
      && n.metadata.Some? && n.metadata.value.status == "APPROVED" && n.metadata.value.approver != ""
      && (n.metadata.value.approvedAt.Rfc3339? || n.metadata.value.approvedAt.LowerCaseZone?)
  }

  /** The rules of a profile are those that the resolutions of the root select. */
  ghost predicate ProfileStrictlyBacked(g: Chain, root: string, profile: string) {
    && OneLink(g, profile, ProfileUsesRounding) && OneLink(g, profile, ProfileUsesSourceAuthority)
    && (forall x :: Link(g, profile, ProfileUsesRounding, x) ==> HasStrictApproval(g, x))
    && (forall x :: Link(g, profile, ProfileUsesSourceAuthority, x) ==> HasStrictApproval(g, x))
    && (exists rule :: Link(g, profile, ProfileSelectsRule, rule))
    && (forall rule :: Link(g, profile, ProfileSelectsRule, rule) <==>
          exists r :: Link(g, root, ResultUsesResolution, r) && Link(g, r, ResolutionSelectsRule, rule))
  }

  /** What the second layer adds. */
  ghost predicate StrictlySound(g: Chain, root: string) {
    && (g.createdAt.Rfc3339? || g.createdAt.LowerCaseZone?)
    && OneLink(g, root, ResultDefinedBy) && OneLink(g, root, ResultCalculatedWith)
    && OneLink(g, root, ResultHasFreshness) && OneLink(g, root, ResultHasConfidence)
    && (forall r :: Link(g, root, ResultUsesResolution, r) ==> OneLink(g, r, ResolutionSelectsRule))
    && (forall p :: Link(g, root, ResultCalculatedWith, p) ==> ProfileStrictlyBacked(g, root, p))
  }

  // ----- The two descriptions agree

  lemma RefExact(r: Ref)
    ensures ValidRef(r) <==> RefReads(r)
  {
    DigestExact(r.contentHash);
    hide IsDigest, IsHex64;
  }

  lemma HeaderExact(g: Chain)
    ensures HeaderReads(g) <==> HeaderOk(g) && g.nodes != []
  {
    RefExact(g.rootRef);
    hide ValidRef, RefReads;
  }

  lemma NodeExact(g: Chain, n: Node)
    requires HeaderOk(g)
    ensures NodeReads(g, n) <==> NodeOk(g, n)
  {
    RefExact(n.ref);
    hide ValidRef, RefReads;
  }

  lemma {:induction false} MapMembers(nodes: seq<Node>, id: string)
    ensures id in NodeMap(nodes) <==> id != "" && exists n <- nodes :: n.nodeId == id
    ensures id in NodeMap(nodes) ==> NodeMap(nodes)[id] in nodes && NodeMap(nodes)[id].nodeId == id
  {
    if nodes != [] {
      var before, last := nodes[..|nodes| - 1], nodes[|nodes| - 1];
      MapMembers(before, id);
      assert nodes == before + [last];
    }
  }

  lemma NodesExact(g: Chain)
    requires HeaderOk(g)
    ensures NodesRead(g) <==> NodesOk(g, |g.nodes|)
  {
    forall n {
      NodeExact(g, n);
    }
    forall i, id | 0 <= i <= |g.nodes| {
      MapMembers(g.nodes[..i], id);
    }
    hide NodeReads, NodeOk, NodeMap;
    if NodesRead(g) {
      forall i | 0 <= i < |g.nodes|
        ensures NodeOk(g, g.nodes[i]) && g.nodes[i].nodeId !in NodeMap(g.nodes[..i])
      {
        assert g.nodes[i] in g.nodes;
      }
    }
    if NodesOk(g, |g.nodes|) {
      forall i, j | 0 <= i < j < |g.nodes|
        ensures g.nodes[i].nodeId != g.nodes[j].nodeId
      {
        assert g.nodes[..j][i] == g.nodes[i];
      }
    }
  }

  /** The node map says of each id what the list of nodes says. */
  ghost predicate Mapped(g: Chain, nodes: map<string, Node>) {
    && (forall n <- g.nodes :: n.nodeId in nodes && nodes[n.nodeId] == n)
    && (forall id <- nodes :: nodes[id] in g.nodes && nodes[id].nodeId == id)
  }

  lemma MapsNodes(g: Chain)
    requires NodesRead(g)
    ensures Mapped(g, NodeMap(g.nodes))
  {
    forall id {
      MapMembers(g.nodes, id);
    }
    forall n <- g.nodes
      ensures n.nodeId != ""
    {
      assert NodeReads(g, n);
    }
    hide NodeMap, NodeReads;
    forall n <- g.nodes
      ensures n.nodeId in NodeMap(g.nodes) && NodeMap(g.nodes)[n.nodeId] == n
    {
      assert n.nodeId in NodeMap(g.nodes);
    }
  }

  lemma RootExact(g: Chain, nodes: map<string, Node>, root: string)
    requires Mapped(g, nodes)
    ensures OneRoot(g, root) <==> RootIds(g, nodes) == {root}
  {
    if RootIds(g, nodes) == {root} {
      assert root in RootIds(g, nodes);
      forall n <- g.nodes
        ensures n.nodeId == root <==> n.nodeType == MetricSnapshot && n.ref == g.rootRef
      {
        assert n.nodeId in RootIds(g, nodes) <==> IsRoot(g, n);
      }
    }
    if OneRoot(g, root) {
      forall id
        ensures id in RootIds(g, nodes) <==> id == root
      {
      }
    }
  }

  lemma FitsExact(from: NodeType, link: EdgeType, to: NodeType)
    ensures match EdgeSignature(link)
      case None => !Fits(from, link, to)
      case Some(s) => Fits(from, link, to) <==> to == s.target && s.source in {None, Some(from)}
  {
  }

  lemma EdgeExact(g: Chain, nodes: map<string, Node>, e: Edge)
    requires Mapped(g, nodes) && NodesRead(g)
    ensures EdgeReads(g, e) <==> EdgeOk(nodes, e)
  {
    hide Fits, EdgeSignature;
    if e.source in nodes && e.target in nodes {
      FitsExact(nodes[e.source].nodeType, e.edgeType, nodes[e.target].nodeType);
      assert NodeReads(g, nodes[e.source]) && NodeReads(g, nodes[e.target]);
    }
    hide NodeReads, NodesRead;
    OtherHasNoSignature();
  }

  lemma OtherHasNoSignature()
    ensures EdgeSignature(OtherEdge("")).None?
  {
  }

  lemma EdgesExact(g: Chain, nodes: map<string, Node>)
    requires Mapped(g, nodes) && NodesRead(g)
    ensures EdgesRead(g) <==> EdgesOk(nodes, g.edges)
  {
    forall e {
      EdgeExact(g, nodes, e);
    }
    hide EdgeReads, EdgeOk, Mapped, NodesRead;
  }

  // ----- Walks

  lemma JoinedExact(nodes: map<string, Node>, edges: seq<Edge>, a: string, b: string)
    requires forall e <- edges :: e.source in nodes
    ensures Joined(edges, a, b) <==> b in Targets(Adjacency(nodes, edges), a)
  {
    OutIsEdge(edges, a, b);
    hide Out;
  }

  lemma WalkExact(nodes: map<string, Node>, edges: seq<Edge>, p: seq<string>, a: string, b: string)
    requires forall e <- edges :: e.source in nodes
    ensures Walk(edges, p, a, b) <==> p != [] && Connects(Adjacency(nodes, edges), p, a, b)
  {
    hide Adjacency, Joined, Targets;
    if p != [] {
      forall i | 0 <= i < |p| - 1 {
        JoinedExact(nodes, edges, p[i], p[i + 1]);
      }
    }
  }

  lemma AcyclicExact(nodes: map<string, Node>, edges: seq<Edge>)
    requires forall e <- edges :: e.source in nodes
    ensures !Cyclic(Adjacency(nodes, edges)) <==> forall p: seq<string>, a :: |p| >= 2 ==> !Walk(edges, p, a, a)
  {
    hide Adjacency, Walk;
    forall p: seq<string>, a {
      WalkExact(nodes, edges, p, a, a);
    }
    if Cyclic(Adjacency(nodes, edges)) {
      var p :| CyclicPath(Adjacency(nodes, edges), p);
      assert Walk(edges, p, p[0], p[0]);
    }
    if p: seq<string>, a :| |p| >= 2 && Walk(edges, p, a, a) {
      assert CyclicPath(Adjacency(nodes, edges), p);
    }
  }

  lemma ReachExact(nodes: map<string, Node>, edges: seq<Edge>, a: string, b: string)
    requires forall e <- edges :: e.source in nodes
    ensures Reaches(Adjacency(nodes, edges), a, b) <==> exists p :: Walk(edges, p, a, b)
  {
    hide Adjacency, Walk;
    forall p {
      WalkExact(nodes, edges, p, a, b);
    }
    hide Connects;
  }

  // ----- Backing

  lemma LinkExact(g: Chain, from: string, link: EdgeType, to: string)
    ensures Link(g, from, link, to) <==> Linked(g.edges, from, link, to)
  {
  }

  lemma HasLinkExact(g: Chain, from: string, link: EdgeType)
    ensures HasLink(g.edges, from, link) <==> exists x :: Link(g, from, link, x)
  {
    hide Linked, Link;
    forall x {
      LinkExact(g, from, link, x);
    }
  }

  lemma ApprovalExact(g: Chain, nodes: map<string, Node>, artifact: string)
    requires Mapped(g, nodes)
    ensures HasApproval(g, artifact) <==> Approved(nodes, g.edges, artifact, false)
  {
    forall x {
      LinkExact(g, artifact, ArtifactApprovedBy, x);
    }
    hide Linked, Link;
    if HasApproval(g, artifact) {
      var n :| n in g.nodes && Link(g, artifact, ArtifactApprovedBy, n.nodeId) && ApprovalOk(n, false);
      assert nodes[n.nodeId] == n;
    }
    if Approved(nodes, g.edges, artifact, false) {
      var a :| Linked(g.edges, artifact, ArtifactApprovedBy, a) && a in nodes && ApprovalOk(nodes[a], false);
      assert nodes[a] in g.nodes;
    }
  }

  lemma ProfileExact(g: Chain, nodes: map<string, Node>, profile: string)
    requires Mapped(g, nodes)
    ensures ProfileBacked(g, profile) <==> ProfileOk(nodes, g.edges, profile)
  {
    hide Linked, Link, Approved, HasApproval, HasLink, Mapped;
    HasLinkExact(g, profile, ProfileUsesRounding);
    HasLinkExact(g, profile, ProfileUsesSourceAuthority);
    forall x {
      LinkExact(g, profile, ProfileUsesRounding, x);
    }
    forall x {
      LinkExact(g, profile, ProfileUsesSourceAuthority, x);
    }
    forall x {
      ApprovalExact(g, nodes, x);
    }
  }

  lemma FileExact(g: Chain, nodes: map<string, Node>, loader: Option<Loader>, requireBytes: bool, file: string)
    requires Mapped(g, nodes)
    ensures Retained(g, loader, requireBytes, file) <==>
      file in nodes && FileOk(nodes[file], loader, requireBytes)
  {
    if file in nodes {
      DigestExact(nodes[file].ref.contentHash);
    }
    hide IsDigest, IsHex64;
  }

  lemma RecordExact(g: Chain, nodes: map<string, Node>, loader: Option<Loader>, requireBytes: bool, record: string)
    requires Mapped(g, nodes)
    ensures RecordOk(nodes, g.edges, loader, requireBytes, record) <==>
      && (exists f :: Link(g, record, RecordReadFromFile, f))
      && (forall f :: Link(g, record, RecordReadFromFile, f) ==> Retained(g, loader, requireBytes, f))
  {
    hide Linked, Link, Retained, FileOk, Mapped, HasLink;
    HasLinkExact(g, record, RecordReadFromFile);
    forall f {
      LinkExact(g, record, RecordReadFromFile, f);
    }
    forall f {
      FileExact(g, nodes, loader, requireBytes, f);
    }
  }

  lemma EventExact(g: Chain, nodes: map<string, Node>, loader: Option<Loader>, requireBytes: bool, event: string)
    requires Mapped(g, nodes)
    ensures EventBacked(g, loader, requireBytes, event) <==> EventOk(nodes, g.edges, loader, requireBytes, event)
  {
    hide Linked, Link, Retained, RecordOk, Mapped, HasLink;
    HasLinkExact(g, event, EventNormalizedFromRecord);
    forall r {
      LinkExact(g, event, EventNormalizedFromRecord, r);
    }
    forall r {
      RecordExact(g, nodes, loader, requireBytes, r);
    }
  }

  lemma EvidencedExact(g: Chain, root: string)
    ensures Evidenced(g, root) <==> forall t <- REQUIRED :: HasLink(g.edges, root, t)
  {
    hide HasLink, Link;
    forall t {
      HasLinkExact(g, root, t);
    }
    assert REQUIRED[0] in REQUIRED && REQUIRED[1] in REQUIRED && REQUIRED[2] in REQUIRED && REQUIRED[3] in REQUIRED;
    assert REQUIRED[4] in REQUIRED && REQUIRED[5] in REQUIRED && REQUIRED[6] in REQUIRED;
  }

  // ----- Numbering

  ghost predicate Distinct<T>(s: seq<T>) {
    forall i, j :: 0 <= i < j < |s| ==> s[i] != s[j]
  }

  lemma {:induction false} DistinctElements<T>(s: seq<T>)
    requires Distinct(s)
    ensures multiset(s) == multiset(set x | x in s) && |set x | x in s| == |s|
  {
    if s == [] {
    } else {
      var before, last := s[..|s| - 1], s[|s| - 1];
      DistinctElements(before);
      assert s == before + [last];
      assert (set x | x in s) == (set x | x in before) + {last};
    }
  }

  lemma TwiceInMultiset<T>(s: seq<T>, i: nat, j: nat)
    requires i < j < |s| && s[i] == s[j]
    ensures multiset(s)[s[i]] >= 2
  {
    assert s == s[..j] + [s[j]] + s[j + 1..];
    assert s[..j][i] == s[i];
    assert s[i] in multiset(s[..j]);
  }

  /** A list holds the numbers below its length, in some order, exactly when they are distinct and in range. */
  lemma RangeExact(s: seq<int>)
    ensures multiset(s) == multiset(Range(|s|)) <==> Distinct(s) && forall x <- s :: 0 <= x < |s|
  {
    var r := Range(|s|);
    DistinctElements(r);
    if multiset(s) == multiset(r) {
      forall i, j | 0 <= i < j < |s|
        ensures s[i] != s[j]
      {
        if s[i] == s[j] {
          TwiceInMultiset(s, i, j);
        }
      }
      forall x <- s
        ensures 0 <= x < |s|
      {
        assert x in multiset(s);
      }
    }
    if Distinct(s) && forall x <- s :: 0 <= x < |s| {
      DistinctElements(s);
      var all := set x | x in r;
      forall x | 0 <= x < |s|
        ensures x in r
      {
        assert r[x] == x;
      }
      SubsetOfSize((set x | x in s), all);
    }
  }

  lemma SubsetOfSize<T>(a: set<T>, b: set<T>)
    requires a <= b && |a| == |b|
    ensures a == b
  {
    assert |b - a| == 0;
  }

  lemma {:induction false} StepsListed(edges: seq<Edge>, root: string) returns (at: seq<int>)
    ensures |at| == |Sequences(edges, root)| && Distinct(at)
    ensures forall i :: i in at <==> i in Steps(edges, root)
    ensures forall k :: 0 <= k < |at| ==> 0 <= at[k] < |edges| && Sequences(edges, root)[k] == edges[at[k]].sequence
  {
    if edges == [] {
      at := [];
    } else {
      var n := |edges| - 1;
      var before := StepsListed(edges[..n], root);
      var mine := edges[n].source == root && edges[n].edgeType == ResultUsesTransformation;
      at := before + if mine then [n] else [];
      forall i
        ensures i in at <==> i in Steps(edges, root)
      {
        assert i in at <==> i in before || (mine && i == n);
        assert i in before <==> i in Steps(edges[..n], root);
      }
      forall i <- before
        ensures i < n
      {
        assert i in Steps(edges[..n], root);
      }
    }
  }

  /** A list of numbers, and the places it was read from. */
  ghost predicate ReadFrom(s: seq<int>, at: seq<int>, steps: set<int>, number: int -> int) {
    && |s| == |at| && Distinct(at) && (forall i :: i in at <==> i in steps)
    && (forall k :: 0 <= k < |at| ==> s[k] == number(at[k]))
  }

  lemma DistinctReading(s: seq<int>, at: seq<int>, steps: set<int>, number: int -> int)
    requires ReadFrom(s, at, steps, number)
    ensures Distinct(s) <==> forall i, j :: i in steps && j in steps && number(i) == number(j) ==> i == j
  {
    if Distinct(s) {
      forall i, j | i in steps && j in steps && number(i) == number(j)
        ensures i == j
      {
        var k :| 0 <= k < |at| && at[k] == i;
        var l :| 0 <= l < |at| && at[l] == j;
        assert s[k] == s[l];
      }
    }
    if forall i, j :: i in steps && j in steps && number(i) == number(j) ==> i == j {
      forall k, l | 0 <= k < l < |s|
        ensures s[k] != s[l]
      {
        var i, j := at[k], at[l];
        assert i in at && j in at && i != j;
      }
    }
  }

  lemma BoundedReading(s: seq<int>, at: seq<int>, steps: set<int>, number: int -> int)
    requires ReadFrom(s, at, steps, number)
    ensures |steps| == |s|
    ensures (forall x <- s :: 0 <= x < |s|) <==> forall i :: i in steps ==> 0 <= number(i) < |steps|
  {
    DistinctElements(at);
    forall i
      ensures i in steps <==> i in set j | j in at
    {
    }
    assert steps == set i | i in at;
    if forall x <- s :: 0 <= x < |s| {
      forall i | i in steps
        ensures 0 <= number(i) < |steps|
      {
        var k :| 0 <= k < |at| && at[k] == i;
        assert s[k] in s;
      }
    }
    if forall i :: i in steps ==> 0 <= number(i) < |steps| {
      forall x <- s
        ensures 0 <= x < |s|
      {
        var k :| 0 <= k < |s| && s[k] == x;
        assert at[k] in at;
      }
    }
  }

  lemma NumberedExact(edges: seq<Edge>, root: string)
    ensures Numbered(edges, root) <==>
      multiset(Sequences(edges, root)) == multiset(Range(|Sequences(edges, root)|))
  {
    var s, steps := Sequences(edges, root), Steps(edges, root);
    var number := i => if 0 <= i < |edges| then edges[i].sequence else 0;
    var at := StepsListed(edges, root);
    RangeExact(s);
    DistinctReading(s, at, steps, number);
    BoundedReading(s, at, steps, number);
    hide Sequences, Range, Distinct, ReadFrom;
  }

  // ----- The first layer

  lemma BackedExact(g: Chain, nodes: map<string, Node>, root: string, loader: Option<Loader>, requireBytes: bool)
    requires Mapped(g, nodes)
    ensures
      Backed(g, root, loader, requireBytes)
      && (forall id <- nodes :: Reaches(Adjacency(nodes, g.edges), root, id))
      <==> PathsOk(nodes, g.edges, root, loader, requireBytes)
  {
    hide Mapped, Linked, Link, HasLink, Evidenced, Numbered, Sequences, Range, ProfileBacked, ProfileOk, EventOk;
    hide EventBacked, Reaches, Adjacency;
    EvidencedExact(g, root);
    NumberedExact(g.edges, root);
    forall x {
      ProfileExact(g, nodes, x);
    }
    forall x {
      EventExact(g, nodes, loader, requireBytes, x);
    }
    forall x {
      HasLinkExact(g, x, ResolutionSelectsRule);
    }
    forall link, x {
      LinkExact(g, root, link, x);
    }
  }

  lemma ReachedExact(g: Chain, nodes: map<string, Node>, root: string)
    requires Mapped(g, nodes) && forall e <- g.edges :: e.source in nodes
    ensures (forall id <- nodes :: Reaches(Adjacency(nodes, g.edges), root, id)) <==>
      forall n <- g.nodes :: exists p :: Walk(g.edges, p, root, n.nodeId)
  {
    hide Walk, Reaches, Adjacency;
    forall id {
      ReachExact(nodes, g.edges, root, id);
    }
    if forall n <- g.nodes :: exists p :: Walk(g.edges, p, root, n.nodeId) {
      forall id <- nodes
        ensures Reaches(Adjacency(nodes, g.edges), root, id)
      {
        assert nodes[id] in g.nodes;
      }
    }
  }

  /** The first layer accepts exactly the chains described here. */
  lemma SoundExact(g: Chain, root: string, loader: Option<Loader>, requireBytes: bool)
    ensures Accepted(g, root, loader, requireBytes) <==> Sound(g, root, loader, requireBytes)
  {
    hide HeaderReads, HeaderOk, NodesRead, NodesOk, NodeMap, Mapped, OneRoot, RootIds, EdgesRead, EdgesOk, Cyclic;
    hide Adjacency, Walk, PathsOk, Backed, Reaches;
    var nodes := NodeMap(g.nodes);
    HeaderExact(g);
    if HeaderReads(g) {
      NodesExact(g);
      if NodesRead(g) {
        MapsNodes(g);
        RootExact(g, nodes, root);
        EdgesExact(g, nodes);
        BackedExact(g, nodes, root, loader, requireBytes);
        if EdgesOk(nodes, g.edges) {
          EdgeSources(nodes, g.edges);
          AcyclicExact(nodes, g.edges);
          ReachedExact(g, nodes, root);
        }
      }
    }
  }

  lemma EdgeSources(nodes: map<string, Node>, edges: seq<Edge>)
    requires EdgesOk(nodes, edges)
    ensures forall e <- edges :: e.source in nodes && EdgeOk(nodes, e)
  {
    forall e <- edges
      ensures e.source in nodes && EdgeOk(nodes, e)
    {
      assert EdgeOk(nodes, e);
    }
  }

  // ----- The second layer

  lemma OneLinkExact(g: Chain, nodes: map<string, Node>, from: string, link: EdgeType, to: NodeType)
    requires forall e <- g.edges :: EdgeOk(nodes, e)
    requires EdgeSignature(link).Some? && EdgeSignature(link).value.target == to
    ensures OneLink(g, from, link) <==> |TypedTargetIds(g.edges, nodes, from, link, to)| == 1
  {
    hide EdgeOk, EdgeSignature, TypedTargetIds, Link, Linked;
    var ids := TypedTargetIds(g.edges, nodes, from, link, to);
    forall x {
      TypedAreLinks(nodes, g.edges, from, link, to, x);
    }
    forall x {
      LinkExact(g, from, link, x);
    }
    SingletonExact(ids);
  }

  lemma SingletonExact<T>(s: set<T>)
    ensures |s| == 1 <==> s != {} && forall x, y :: x in s && y in s ==> x == y
  {
    if s != {} {
      var x :| x in s;
      assert s == {x} + (s - {x});
      if |s| == 1 {
        assert |s - {x}| == 0;
      }
      if forall x, y :: x in s && y in s ==> x == y {
        assert s == {x};
      }
    }
  }

  lemma TypedAreNodes(g: Chain, nodes: map<string, Node>, from: string, link: EdgeType, to: NodeType, x: string)
    requires Mapped(g, nodes) && x in TypedTargetIds(g.edges, nodes, from, link, to)
    ensures x in nodes && nodes[x] in g.nodes && nodes[x].nodeId == x
  {
  }

  lemma StrictApprovalExact(g: Chain, nodes: map<string, Node>, artifact: string)
    requires Mapped(g, nodes) && forall e <- g.edges :: EdgeOk(nodes, e)
    ensures HasStrictApproval(g, artifact) <==> StrictlyApproved(nodes, g.edges, artifact)
  {
    hide EdgeOk, TypedTargetIds, Linked, Link;
    forall x {
      TypedAreLinks(nodes, g.edges, artifact, ArtifactApprovedBy, Approval, x);
    }
    forall x {
      LinkExact(g, artifact, ArtifactApprovedBy, x);
    }
    if HasStrictApproval(g, artifact) {
      var n :| n in g.nodes && Link(g, artifact, ArtifactApprovedBy, n.nodeId) && ApprovalOk(n, true);
      assert nodes[n.nodeId] == n;
    }
    if StrictlyApproved(nodes, g.edges, artifact) {
      var ids := TypedTargetIds(g.edges, nodes, artifact, ArtifactApprovedBy, Approval);
      forall a <- ids
        ensures a in nodes && nodes[a] in g.nodes && nodes[a].nodeId == a
      {
        TypedAreNodes(g, nodes, artifact, ArtifactApprovedBy, Approval, a);
      }
      var a :| a in ids && ApprovalOk(nodes[a], true);
    }
  }

  lemma StrictProfileExact(g: Chain, nodes: map<string, Node>, root: string, profile: string)
    requires Mapped(g, nodes) && forall e <- g.edges :: EdgeOk(nodes, e)
    ensures ProfileStrictlyBacked(g, root, profile) <==> StrictProfileOk(nodes, g.edges, root, profile)
  {
    hide Mapped, EdgeOk, TypedTargetIds, Linked, Link, HasStrictApproval, StrictlyApproved, ResolvedRules, OneLink;
    OneLinkExact(g, nodes, profile, ProfileUsesRounding, RoundingPolicy);
    OneLinkExact(g, nodes, profile, ProfileUsesSourceAuthority, SourceAuthority);
    forall x {
      StrictApprovalExact(g, nodes, x);
    }
    forall x {
      TypedAreLinks(nodes, g.edges, profile, ProfileUsesRounding, RoundingPolicy, x);
    }
    forall x {
      TypedAreLinks(nodes, g.edges, profile, ProfileUsesSourceAuthority, SourceAuthority, x);
    }
    forall x {
      TypedAreLinks(nodes, g.edges, profile, ProfileSelectsRule, ConfigurationRule, x);
    }
    forall x {
      ResolvedRulesAreLinks(nodes, g.edges, root, x);
    }
    forall from, link, x {
      LinkExact(g, from, link, x);
    }
  }

  lemma AcceptedParts(g: Chain, root: string, loader: Option<Loader>, requireBytes: bool)
    requires Accepted(g, root, loader, requireBytes)
    ensures Mapped(g, NodeMap(g.nodes)) && forall e <- g.edges :: EdgeOk(NodeMap(g.nodes), e)
  {
    hide HeaderReads, HeaderOk, NodesRead, NodesOk, NodeMap, Mapped, RootIds, EdgesOk, Cyclic, Adjacency, PathsOk;
    NodesExact(g);
    MapsNodes(g);
    EdgeSources(NodeMap(g.nodes), g.edges);
  }

  lemma OneRuleExact(g: Chain, nodes: map<string, Node>, resolution: string)
    requires forall e <- g.edges :: EdgeOk(nodes, e)
    ensures OneLink(g, resolution, ResolutionSelectsRule) <==> |RulesOf(nodes, g.edges, resolution)| == 1
  {
    hide EdgeOk, TypedTargetIds, OneLink;
    OneLinkExact(g, nodes, resolution, ResolutionSelectsRule, ConfigurationRule);
  }

  lemma SingularExact(g: Chain, nodes: map<string, Node>, root: string)
    requires forall e <- g.edges :: EdgeOk(nodes, e)
    ensures (forall p <- SINGULAR :: |TypedTargetIds(g.edges, nodes, root, p.0, p.1)| == 1) <==>
      && OneLink(g, root, ResultDefinedBy) && OneLink(g, root, ResultCalculatedWith)
      && OneLink(g, root, ResultHasFreshness) && OneLink(g, root, ResultHasConfidence)
  {
    hide EdgeOk, TypedTargetIds, OneLink;
    OneLinkExact(g, nodes, root, ResultDefinedBy, MetricDefinition);
    OneLinkExact(g, nodes, root, ResultCalculatedWith, CalculationProfile);
    OneLinkExact(g, nodes, root, ResultHasFreshness, FreshnessAssessment);
    OneLinkExact(g, nodes, root, ResultHasConfidence, ConfidenceAssessment);
    assert SINGULAR[0] in SINGULAR && SINGULAR[1] in SINGULAR && SINGULAR[2] in SINGULAR && SINGULAR[3] in SINGULAR;
  }

  /** Of a chain that the first layer accepts, the second accepts exactly what is described here. */
  lemma StrictlySoundExact(g: Chain, root: string, loader: Option<Loader>, requireBytes: bool)
    requires Accepted(g, root, loader, requireBytes)
    ensures StrictlyAccepted(g, root) <==> StrictlySound(g, root)
  {
    hide Accepted, NodeMap, Mapped, EdgeOk, TypedTargetIds, RulesOf, OneLink, Link, Linked, StrictProfileOk,
      ProfileStrictlyBacked;
    AcceptedParts(g, root, loader, requireBytes);
    var nodes := NodeMap(g.nodes);
    SingularExact(g, nodes, root);
    forall x {
      OneRuleExact(g, nodes, x);
    }
    forall x {
      StrictProfileExact(g, nodes, root, x);
    }
    forall x {
      TypedAreLinks(nodes, g.edges, root, ResultUsesResolution, RuleResolution, x);
    }
    forall x {
      TypedAreLinks(nodes, g.edges, root, ResultCalculatedWith, CalculationProfile, x);
    }
    forall link, x {
      LinkExact(g, root, link, x);
    }
  }

  // ----- What stands behind an accepted result

  /** A link of this kind to a node of this type. */
  ghost predicate LinkedTo(g: Chain, from: string, link: EdgeType, to: NodeType) {
    exists n <- g.nodes :: n.nodeType == to && Link(g, from, link, n.nodeId)
  }

  lemma LinkHasType(g: Chain, from: string, link: EdgeType, to: string)
    requires EdgesRead(g) && Link(g, from, link, to)
    ensures exists a, b :: a in g.nodes && b in g.nodes && a.nodeId == from && b.nodeId == to
                           && Fits(a.nodeType, link, b.nodeType)
  {
    hide Fits;
    var e :| e in g.edges && e.source == from && e.edgeType == link && e.target == to;
    assert EdgeReads(g, e);
  }

  lemma SomeLinkedTo(g: Chain, from: string, link: EdgeType, to: NodeType)
    requires EdgesRead(g) && exists x :: Link(g, from, link, x)
    requires forall a, b :: Fits(a, link, b) ==> b == to
    ensures LinkedTo(g, from, link, to)
  {
    hide Link, EdgesRead, Fits;
    var x :| Link(g, from, link, x);
    LinkHasType(g, from, link, x);
  }

  /** Behind every accepted result stand artifacts of seven types, each by its own kind of link. */
  lemma SevenLinks(g: Chain, root: string, loader: Option<Loader>, requireBytes: bool)
    requires Accepted(g, root, loader, requireBytes)
    ensures LinkedTo(g, root, ResultDefinedBy, MetricDefinition)
    ensures LinkedTo(g, root, ResultCalculatedWith, CalculationProfile)
    ensures LinkedTo(g, root, ResultUsesResolution, RuleResolution)
    ensures LinkedTo(g, root, ResultUsesTransformation, Transformation)
    ensures LinkedTo(g, root, ResultDerivedFromEvent, CanonicalEvent)
    ensures LinkedTo(g, root, ResultHasFreshness, FreshnessAssessment)
    ensures LinkedTo(g, root, ResultHasConfidence, ConfidenceAssessment)
  {
    SoundExact(g, root, loader, requireBytes);
    hide Accepted, HeaderReads, NodesRead, OneRoot, EdgesRead, Walk, Numbered, ProfileBacked, EventBacked;
    hide Link, LinkedTo;
    SomeLinkedTo(g, root, ResultDefinedBy, MetricDefinition);
    SomeLinkedTo(g, root, ResultCalculatedWith, CalculationProfile);
    SomeLinkedTo(g, root, ResultUsesResolution, RuleResolution);
    SomeLinkedTo(g, root, ResultUsesTransformation, Transformation);
    SomeLinkedTo(g, root, ResultDerivedFromEvent, CanonicalEvent);
    SomeLinkedTo(g, root, ResultHasFreshness, FreshnessAssessment);
    SomeLinkedTo(g, root, ResultHasConfidence, ConfidenceAssessment);
  }

  /** An approval node that is linked, in force, signed and dated. */
  ghost predicate ApprovedBySomeone(g: Chain, artifact: string) {
    exists n <- g.nodes ::
      && n.nodeType == Approval && Link(g, artifact, ArtifactApprovedBy, n.nodeId)
      && n.metadata.Some? && n.metadata.value.status == "APPROVED" && n.metadata.value.approver != ""
      && !n.metadata.value.approvedAt.Unreadable?
  }

  /** Each rounding policy and each source authority of an accepted result's profile has been approved. */
  lemma PoliciesAreApproved(g: Chain, root: string, loader: Option<Loader>, requireBytes: bool, profile: string,
                            policy: string)
    requires Accepted(g, root, loader, requireBytes) && Link(g, root, ResultCalculatedWith, profile)
    requires Link(g, profile, ProfileUsesRounding, policy) || Link(g, profile, ProfileUsesSourceAuthority, policy)
    ensures ApprovedBySomeone(g, policy)
  {
    SoundExact(g, root, loader, requireBytes);
    hide Accepted, HeaderReads, OneRoot, EdgesRead, Walk, Numbered, EventBacked, Link, Evidenced;
    assert ProfileBacked(g, profile) && HasApproval(g, policy);
    var n :| n in g.nodes && Link(g, policy, ArtifactApprovedBy, n.nodeId)
      && n.metadata.Some? && n.metadata.value.status == "APPROVED" && n.metadata.value.approver != ""
      && (n.metadata.value.approvedAt.Rfc3339? || n.metadata.value.approvedAt.Lenient?);
    LinkHasType(g, policy, ArtifactApprovedBy, n.nodeId);
    SameId(g, n);
  }

  lemma SameId(g: Chain, n: Node)
    requires NodesRead(g) && n in g.nodes
    ensures forall m <- g.nodes :: m.nodeId == n.nodeId ==> m == n
  {
    hide NodeReads;
    var j :| 0 <= j < |g.nodes| && g.nodes[j] == n;
    forall m <- g.nodes | m.nodeId == n.nodeId
      ensures m == n
    {
      var i :| 0 <= i < |g.nodes| && g.nodes[i] == m;
    }
  }
}
