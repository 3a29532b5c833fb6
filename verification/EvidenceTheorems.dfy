/** What acceptance means for the shape of an evidence graph. */
module EvidenceTheorems {
  import opened Base
  import opened Graph
  import opened EvidenceModel

  /** How far an artifact type lies from the snapshot; edges never lead back. */
  function Depth(t: NodeType): nat {
    match t
    case MetricSnapshot => 0
    case ConfigurationRule | RoundingPolicy | SourceAuthority | SourceRecord => 2
    case SourceFile => 3
    case Approval => 4
    case _ => 1
  }

  /** The two edge kinds that stay at one depth. */
  predicate Level(a: NodeType, b: NodeType) {
    (a == MetricSnapshot && b == MetricSnapshot) || (a == Approval && b == Approval)
  }

  lemma EdgesLeadAway(nodes: map<string, Node>, e: Edge)
    requires EdgeOk(nodes, e)
    ensures
      var a, b := nodes[e.source].nodeType, nodes[e.target].nodeType;
      Depth(a) < Depth(b) || Level(a, b)
  {
  }

  /** A step along the adjacency map is a step along an edge. */
  lemma StepIsEdge(nodes: map<string, Node>, edges: seq<Edge>, a: string, b: string)
    requires (forall e <- edges :: EdgeOk(nodes, e)) && b in Targets(Adjacency(nodes, edges), a)
    ensures a in nodes && b in nodes
    ensures Depth(nodes[a].nodeType) < Depth(nodes[b].nodeType) || Level(nodes[a].nodeType, nodes[b].nodeType)
  {
    hide EdgeOk, Level, Depth;
    OutIsEdge(edges, a, b);
    var e :| e in edges && e.source == a && e.target == b;
    EdgesLeadAway(nodes, e);
    assert EdgeOk(nodes, e) ==> b in nodes by {
      EndsAreNodes(nodes, e);
    }
  }

  lemma EndsAreNodes(nodes: map<string, Node>, e: Edge)
    ensures EdgeOk(nodes, e) ==> e.source in nodes && e.target in nodes
  {
  }

  /** Depth never falls along a path. */
  lemma {:induction false} DepthRises(nodes: map<string, Node>, edges: seq<Edge>, p: seq<string>, i: nat, j: nat)
    requires (forall e <- edges :: EdgeOk(nodes, e)) && Path(Adjacency(nodes, edges), p)
    requires i <= j < |p| && forall k :: 0 <= k < |p| ==> p[k] in nodes
    ensures Depth(nodes[p[i]].nodeType) <= Depth(nodes[p[j]].nodeType)
    decreases j - i
  {
    hide EdgeOk, Depth, Adjacency;
    if i < j {
      DepthRises(nodes, edges, p, i, j - 1);
      var k := j - 1;
      assert p[k + 1] in Targets(Adjacency(nodes, edges), p[k]);
      StepIsEdge(nodes, edges, p[j - 1], p[j]);
    }
  }

  /** Under the edge signatures a cycle lies wholly among snapshots or wholly among approvals. */
  lemma CyclesStayOnOneLevel(nodes: map<string, Node>, edges: seq<Edge>, p: seq<string>)
    requires (forall e <- edges :: EdgeOk(nodes, e)) && CyclicPath(Adjacency(nodes, edges), p)
    ensures forall i :: 0 <= i < |p| ==> p[i] in nodes
    ensures
      || (forall i :: 0 <= i < |p| ==> nodes[p[i]].nodeType == MetricSnapshot)
      || (forall i :: 0 <= i < |p| ==> nodes[p[i]].nodeType == Approval)
  {
    hide EdgeOk, Adjacency, Depth;
    var adj := Adjacency(nodes, edges);
    forall i | 0 <= i < |p|
      ensures p[i] in nodes
    {
      if i < |p| - 1 {
        assert p[i + 1] in Targets(adj, p[i]);
        StepIsEdge(nodes, edges, p[i], p[i + 1]);
      } else {
        assert p[0 + 1] in Targets(adj, p[0]);
        StepIsEdge(nodes, edges, p[0], p[0 + 1]);
      }
    }
    forall i | 0 <= i < |p| - 1
      ensures Level(nodes[p[i]].nodeType, nodes[p[i + 1]].nodeType)
    {
      assert p[i + 1] in Targets(adj, p[i]);
      StepIsEdge(nodes, edges, p[i], p[i + 1]);
      DepthRises(nodes, edges, p, 0, i);
      DepthRises(nodes, edges, p, i + 1, |p| - 1);
    }
    LevelAlong(nodes, p);
  }

  lemma {:induction false} LevelAlong(nodes: map<string, Node>, p: seq<string>)
    requires |p| >= 2 && forall i :: 0 <= i < |p| ==> p[i] in nodes
    requires forall i :: 0 <= i < |p| - 1 ==> Level(nodes[p[i]].nodeType, nodes[p[i + 1]].nodeType)
    ensures forall i :: 0 <= i < |p| ==> nodes[p[i]].nodeType == nodes[p[0]].nodeType
    ensures nodes[p[0]].nodeType in {MetricSnapshot, Approval}
    decreases |p|
  {
    assert Level(nodes[p[0]].nodeType, nodes[p[0 + 1]].nodeType);
    if |p| > 2 {
      LevelAlong(nodes, p[..|p| - 1]);
      var k := |p| - 2;
      assert Level(nodes[p[k]].nodeType, nodes[p[k + 1]].nodeType);
    }
  }

  /** In an accepted chain nothing points at the root: it is where all evidence starts. */
  lemma RootIsTheSource(g: Chain, root: string, loader: Option<Loader>, requireBytes: bool, e: Edge)
    requires Accepted(g, root, loader, requireBytes) && e in g.edges
    ensures e.target != root
  {
    var nodes := NodeMap(g.nodes);
    var adj := Adjacency(nodes, g.edges);
    assert EdgeOk(nodes, e);
    assert Reaches(adj, root, e.source);
    assert !Cyclic(adj);
    hide Accepted, EdgeOk, Reaches, Cyclic;
    OutIsEdge(g.edges, e.source, e.target);
    if e.target == root {
      BackEdgeIsCycle(adj, root, e.source);
    }
  }

  ghost predicate OnlyLink(edges: seq<Edge>, source: string, edgeType: EdgeType, target: string) {
    forall x :: Linked(edges, source, edgeType, x) <==> x == target
  }

  /** With signatures checked, typed targets are just the links. */
  lemma TypedAreLinks(nodes: map<string, Node>, edges: seq<Edge>, source: string, edgeType: EdgeType,
                      nodeType: NodeType, x: string)
    requires forall e <- edges :: EdgeOk(nodes, e)
    requires EdgeSignature(edgeType).Some? && EdgeSignature(edgeType).value.target == nodeType
    ensures x in TypedTargetIds(edges, nodes, source, edgeType, nodeType) <==> Linked(edges, source, edgeType, x)
  {
    if Linked(edges, source, edgeType, x) {
      var e :| e in edges && e.source == source && e.edgeType == edgeType && e.target == x;
      assert EdgeOk(nodes, e);
    }
    hide EdgeOk, EdgeSignature;
  }

  lemma OneTypedIsOnlyLink(nodes: map<string, Node>, edges: seq<Edge>, source: string, edgeType: EdgeType,
                           nodeType: NodeType)
    returns (x: string)
    requires forall e <- edges :: EdgeOk(nodes, e)
    requires EdgeSignature(edgeType).Some? && EdgeSignature(edgeType).value.target == nodeType
    requires |TypedTargetIds(edges, nodes, source, edgeType, nodeType)| == 1
    ensures TypedTargetIds(edges, nodes, source, edgeType, nodeType) == {x} && OnlyLink(edges, source, edgeType, x)
  {
    var ids := TypedTargetIds(edges, nodes, source, edgeType, nodeType);
    forall y {
      TypedAreLinks(nodes, edges, source, edgeType, nodeType, y);
    }
    hide EdgeOk, EdgeSignature, TypedTargetIds, Linked;
    x :| x in ids;
    assert |ids - {x}| == 0;
    assert ids == {x};
  }

  /**
   A chain that both layers accept: an acyclic graph whose single root reaches every node, with
   one definition, one profile, one freshness and one confidence assessment; the profile's rules
   are exactly those the resolutions select; transformations are numbered 0, 1, 2, ...; and every
   event descends through records to retained files.
   */
  lemma AcceptedChain(g: Chain, root: string, loader: Option<Loader>, requireBytes: bool)
    returns (definition: string, profile: string, freshness: string, confidence: string)
    requires Accepted(g, root, loader, requireBytes) && StrictlyAccepted(g, root)
    ensures
      var nodes := NodeMap(g.nodes);
      && !Cyclic(Adjacency(nodes, g.edges))
      && (forall id <- nodes :: Reaches(Adjacency(nodes, g.edges), root, id))
      && OnlyLink(g.edges, root, ResultDefinedBy, definition) && OnlyLink(g.edges, root, ResultCalculatedWith, profile)
      && OnlyLink(g.edges, root, ResultHasFreshness, freshness) &&
        OnlyLink(g.edges, root, ResultHasConfidence, confidence)
      && (forall rule :: Linked(g.edges, profile, ProfileSelectsRule, rule) <==> Resolved(g.edges, root, rule))
      && (exists rule :: Linked(g.edges, profile, ProfileSelectsRule, rule))
      && multiset(Sequences(g.edges, root)) == multiset(Range(|Sequences(g.edges, root)|))
      && (forall e :: Linked(g.edges, root, ResultDerivedFromEvent, e) ==>
          EventOk(nodes, g.edges, loader, requireBytes, e))
  {
    var nodes, edges := NodeMap(g.nodes), g.edges;
    assert (forall e <- edges :: EdgeOk(nodes, e));
    assert forall p <- SINGULAR :: |TypedTargetIds(edges, nodes, root, p.0, p.1)| == 1;
    assert SINGULAR[0] in SINGULAR && SINGULAR[1] in SINGULAR && SINGULAR[2] in SINGULAR && SINGULAR[3] in SINGULAR;
    hide EdgeOk, TypedTargetIds, Adjacency, Cyclic, Reaches, Sequences, EventOk, HeaderOk, NodesOk, ProfileOk,
      OnlyLink, Linked;
    definition := OneTypedIsOnlyLink(nodes, edges, root, ResultDefinedBy, MetricDefinition);
    profile := OneTypedIsOnlyLink(nodes, edges, root, ResultCalculatedWith, CalculationProfile);
    freshness := OneTypedIsOnlyLink(nodes, edges, root, ResultHasFreshness, FreshnessAssessment);
    confidence := OneTypedIsOnlyLink(nodes, edges, root, ResultHasConfidence, ConfidenceAssessment);
    assert StrictProfileOk(nodes, edges, root, profile);
    ProfileRulesAreResolved(nodes, edges, root, profile);
  }

  /** A rule that some resolution of the root selects. */
  ghost predicate Resolved(edges: seq<Edge>, root: string, rule: string) {
    exists r :: Linked(edges, root, ResultUsesResolution, r) && Linked(edges, r, ResolutionSelectsRule, rule)
  }

  lemma ResolvedRulesAreLinks(nodes: map<string, Node>, edges: seq<Edge>, root: string, rule: string)
    requires forall e <- edges :: EdgeOk(nodes, e)
    ensures rule in ResolvedRules(nodes, edges, root) <==> Resolved(edges, root, rule)
  {
    var resolutions := TypedTargetIds(edges, nodes, root, ResultUsesResolution, RuleResolution);
    hide EdgeOk, TypedTargetIds, Linked, RulesOf;
    if rule in ResolvedRules(nodes, edges, root) {
      var r :| r in resolutions && rule in RulesOf(nodes, edges, r);
      ResolutionLinks(nodes, edges, root, r, rule);
    }
    if Resolved(edges, root, rule) {
      var r :| Linked(edges, root, ResultUsesResolution, r) && Linked(edges, r, ResolutionSelectsRule, rule);
      ResolutionLinks(nodes, edges, root, r, rule);
    }
  }

  lemma ResolutionLinks(nodes: map<string, Node>, edges: seq<Edge>, root: string, r: string, rule: string)
    requires forall e <- edges :: EdgeOk(nodes, e)
    ensures r in TypedTargetIds(edges, nodes, root, ResultUsesResolution, RuleResolution) <==>
      Linked(edges, root, ResultUsesResolution, r)
    ensures rule in RulesOf(nodes, edges, r) <==> Linked(edges, r, ResolutionSelectsRule, rule)
  {
    hide EdgeOk, TypedTargetIds, Linked;
    TypedAreLinks(nodes, edges, root, ResultUsesResolution, RuleResolution, r);
    TypedAreLinks(nodes, edges, r, ResolutionSelectsRule, ConfigurationRule, rule);
  }

  lemma ProfileRuleIsResolved(nodes: map<string, Node>, edges: seq<Edge>, root: string, profile: string, rule: string)
    requires forall e <- edges :: EdgeOk(nodes, e)
    requires TypedTargetIds(edges, nodes, profile, ProfileSelectsRule, ConfigurationRule) ==
      ResolvedRules(nodes, edges, root)
    ensures Linked(edges, profile, ProfileSelectsRule, rule) <==> Resolved(edges, root, rule)
    ensures Linked(edges, profile, ProfileSelectsRule, rule) <==> rule in ResolvedRules(nodes, edges, root)
  {
    TypedAreLinks(nodes, edges, profile, ProfileSelectsRule, ConfigurationRule, rule);
    hide *;
    ResolvedRulesAreLinks(nodes, edges, root, rule);
  }

  lemma ProfileRulesAreResolved(nodes: map<string, Node>, edges: seq<Edge>, root: string, profile: string)
    requires (forall e <- edges :: EdgeOk(nodes, e)) && StrictProfileOk(nodes, edges, root, profile)
    ensures forall rule :: Linked(edges, profile, ProfileSelectsRule, rule) <==> Resolved(edges, root, rule)
    ensures exists rule :: Linked(edges, profile, ProfileSelectsRule, rule)
  {
    var rules := ResolvedRules(nodes, edges, root);
    assert TypedTargetIds(edges, nodes, profile, ProfileSelectsRule, ConfigurationRule) == rules && rules != {};
    hide *;
    forall rule {
      ProfileRuleIsResolved(nodes, edges, root, profile, rule);
    }
    var some :| some in rules;
  }
}
